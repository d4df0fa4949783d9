/** src/compiler/HeaderGenerator.ts: printing a filter-list header and reading one back. */
module HeaderGenerator {
  import opened Options

  // ---------------------------------------------------------------- white space

  /** The characters of \s, which are also those that trim() removes. */
  predicate IsSpace(c: char) {
    var u := c as int;
    || 9 <= u <= 13 || u == 0x20 || u == 0xA0 || u == 0x1680 || 0x2000 <= u <= 0x200A
    || u == 0x2028 || u == 0x2029 || u == 0x202F || u == 0x205F || u == 0x3000 || u == 0xFEFF
  }

  /** The characters that a dot does not match. */
  predicate IsLineEnd(c: char) {
    var u := c as int;
    u == 10 || u == 13 || u == 0x2028 || u == 0x2029
  }

  /** The same characters one by one: the white space and the line ends of JavaScript. */
  lemma SpacesAndLineEnds(c: char)
    ensures IsSpace(c) <==>
            c as int in {0x09, 0x0A, 0x0B, 0x0C, 0x0D, 0x20, 0xA0, 0x1680, 0x2000, 0x2001, 0x2002, 0x2003, 0x2004, 0x2005,
                         0x2006, 0x2007, 0x2008, 0x2009, 0x200A, 0x2028, 0x2029, 0x202F, 0x205F, 0x3000, 0xFEFF}
    ensures IsLineEnd(c) <==> c as int in {0x0A, 0x0D, 0x2028, 0x2029}
  {
  }

  ghost predicate AllSpace(s: string) {
    forall i :: 0 <= i < |s| ==> IsSpace(s[i])
  }

  predicate SingleLine(s: string) {
    forall i :: 0 <= i < |s| ==> !IsLineEnd(s[i])
  }

  function TrimStart(s: string): string {
    if s != "" && IsSpace(s[0]) then TrimStart(s[1..]) else s
  }

  function TrimEnd(s: string): string {
    if s != "" && IsSpace(s[|s| - 1]) then TrimEnd(s[..|s| - 1]) else s
  }

  function Trim(s: string): string {
    TrimEnd(TrimStart(s))
  }

  lemma {:induction false} TrimStartSkips(w: string, s: string)
    requires AllSpace(w)
    ensures TrimStart(w + s) == TrimStart(s)
  {
    if w == "" {
      assert w + s == s;
    } else {
      assert (w + s)[1..] == w[1..] + s;
      TrimStartSkips(w[1..], s);
    }
  }

  lemma {:induction false} TrimStartIsSuffix(s: string) returns (w: string)
    ensures AllSpace(w) && s == w + TrimStart(s)
    ensures TrimStart(s) != "" ==> !IsSpace(TrimStart(s)[0])
  {
    if s != "" && IsSpace(s[0]) {
      var v := TrimStartIsSuffix(s[1..]);
      w := [s[0]] + v;
    } else {
      w := "";
    }
  }

  lemma {:induction false} TrimEndIsPrefix(s: string) returns (w: string)
    ensures AllSpace(w) && s == TrimEnd(s) + w
    ensures TrimEnd(s) != "" ==> !IsSpace(TrimEnd(s)[|TrimEnd(s)| - 1])
  {
    if s != "" && IsSpace(s[|s| - 1]) {
      var v := TrimEndIsPrefix(s[..|s| - 1]);
      w := v + [s[|s| - 1]];
    } else {
      w := "";
    }
  }

  /** Trimming takes away exactly the white space at both ends. */
  lemma TrimIsExact(s: string) returns (before: string, after: string)
    ensures s == before + Trim(s) + after && AllSpace(before) && AllSpace(after)
    ensures Trim(s) != "" ==> !IsSpace(Trim(s)[0]) && !IsSpace(Trim(s)[|Trim(s)| - 1])
  {
    before := TrimStartIsSuffix(s);
    after := TrimEndIsPrefix(TrimStart(s));
    if Trim(s) != "" {
      assert TrimStart(s)[0] == Trim(s)[0];
    }
  }

  // ---------------------------------------------------------------- reading

  /** One way in which the pattern of parseHeader matches a line: the capture groups are key and value. */
  ghost predicate Matches(line: string, w1: string, key: string, w2: string, value: string) {
    && IsHeaderLine(line) && line[1..] == w1 + key + ":" + w2 + value
    && AllSpace(w1) && AllSpace(w2)
    && key != "" && ':' !in key
    && value != "" && SingleLine(value)
  }

  function FirstColon(s: string): (i: nat)
    ensures i <= |s| && (forall j :: 0 <= j < i ==> s[j] != ':') && (i < |s| ==> s[i] == ':')
  {
    if s == "" || s[0] == ':' then 0 else 1 + FirstColon(s[1..])
  }

  /** Whether the rest of a line can be split into white space and a value. */
  predicate HasValue(rest: string) {
    rest != "" && (if TrimStart(rest) != "" then SingleLine(TrimStart(rest)) else !IsLineEnd(rest[|rest| - 1]))
  }

  /** The trimmed capture groups of a line, if the pattern matches it. */
  function Captures(line: string): Option<(string, string)> {
    if !IsHeaderLine(line) then None
    else
      var text := line[1..];
      var colon := FirstColon(text);
      if 0 < colon < |text| && HasValue(text[colon + 1..])
      then Some((Trim(text[..colon]), Trim(text[colon + 1..])))
      else None
  }

  /** However the pattern is matched, the trimmed groups are the same, and Captures finds them. */
  lemma EveryMatchAgrees(line: string, w1: string, key: string, w2: string, value: string)
    requires Matches(line, w1, key, w2, value)
    ensures Captures(line) == Some((Trim(key), Trim(value)))
  {
    var text, rest := line[1..], w2 + value;
    assert text == w1 + key + ":" + rest;
    var colon := FirstColon(text);
    NoColonInSpace(w1);
    assert text[|w1 + key|] == ':';
    assert forall j :: 0 <= j < |w1 + key| ==> text[j] == (w1 + key)[j];
    assert colon == |w1 + key|;
    assert text[..colon] == w1 + key && text[colon + 1..] == rest;
    TrimStartSkips(w1, key);
    TrimStartSkips(w2, value);
    var w := TrimStartIsSuffix(value);
    if TrimStart(rest) == "" {
      assert rest[|rest| - 1] == value[|value| - 1];
    } else {
      assert forall i :: 0 <= i < |TrimStart(value)| ==> TrimStart(value)[i] == value[|w| + i];
    }
  }

  lemma NoColonInSpace(w: string)
    requires AllSpace(w)
    ensures ':' !in w
  {
  }

  lemma ValueSplits(rest: string) returns (w: string, value: string)
    requires HasValue(rest)
    ensures rest == w + value && AllSpace(w) && value != "" && SingleLine(value)
  {
    w := TrimStartIsSuffix(rest);
    value := TrimStart(rest);
    if value == "" {
      var n := |rest| - 1;
      assert rest == w;
      w, value := rest[..n], rest[n..];
    }
  }

  lemma CapturesSplits(line: string) returns (key: string, w: string, value: string)
    requires Captures(line).Some?
    ensures Matches(line, "", key, w, value)
  {
    var text := line[1..];
    var colon := FirstColon(text);
    var rest := text[colon + 1..];
    key := text[..colon];
    w, value := ValueSplits(rest);
    assert text == key + [':'] + rest;
    assert "" + key + ":" + w + value == key + [':'] + (w + value);
  }

  /** When the pattern matches in no way, Captures finds nothing. */
  lemma CapturesIsAMatch(line: string)
    requires Captures(line).Some?
    ensures exists w1, key, w2, value :: Matches(line, w1, key, w2, value)
  {
    var key, w, value := CapturesSplits(line);
  }

  function LowerChar(c: char): char {
    if 'A' <= c <= 'Z' then (c as int + 32) as char else c
  }

  /** toLowerCase, on ASCII letters. */
  function Lower(s: string): (r: string)
    ensures |r| == |s| && forall i :: 0 <= i < |s| ==> r[i] == LowerChar(s[i])
  {
    seq(|s|, i requires 0 <= i < |s| => LowerChar(s[i]))
  }

  /** Letters keep their place in the alphabet, and everything else stays. */
  lemma LowerIsExact(s: string, i: nat)
    requires i < |s|
    ensures 'A' <= s[i] <= 'Z' ==> (Lower(s)[i] as int) - ('a' as int) == (s[i] as int) - ('A' as int)
    ensures !('A' <= s[i] <= 'Z') ==> Lower(s)[i] == s[i]
  {
  }

  function Read(metadata: map<string, string>, line: string): map<string, string> {
    match Captures(line)
    case None => metadata
    case Some((key, value)) => metadata[Lower(key) := value]
  }

  /** line.startsWith('!'). */
  predicate IsHeaderLine(line: string) {
    line != "" && line[0] == '!'
  }

  /** The metadata after the lines, up to the first one outside the header. */
  function ReadAll(metadata: map<string, string>, lines: seq<string>): map<string, string>
    decreases |lines|
  {
    if lines == [] || !IsHeaderLine(lines[0]) then metadata else ReadAll(Read(metadata, lines[0]), lines[1..])
  }

  method ParseHeader(lines: seq<string>) returns (metadata: map<string, string>)
    ensures metadata == ReadAll(map[], lines)
  {
    metadata := map[];
    var i := 0;
    while i < |lines|
      invariant 0 <= i <= |lines|
      invariant ReadAll(metadata, lines[i..]) == ReadAll(map[], lines)
    {
      var line := lines[i];
      if !IsHeaderLine(line) {
        break;
      }
      var groups := Captures(line);
      if groups.Some? {
        metadata := metadata[Lower(groups.value.0) := groups.value.1];
      }
      i := i + 1;
    }
  }

  /** Lines from the first one on that does not start with an exclamation mark are not read. */
  lemma {:induction false} ReadingStops(metadata: map<string, string>, lines: seq<string>, i: nat)
    requires i < |lines| && (lines[i] == "" || lines[i][0] != '!')
    ensures ReadAll(metadata, lines) == ReadAll(metadata, lines[..i])
    decreases i
  {
    if i > 0 && IsHeaderLine(lines[0]) {
      ReadingStops(Read(metadata, lines[0]), lines[1..], i - 1);
      assert lines[..i][1..] == lines[1..][..i - 1];
    }
  }

  /** The line at position i gives the key this value, and no later one gives the key any. */
  ghost predicate SaidLast(lines: seq<string>, i: nat, key: string, value: string) {
    && i < |lines| && Captures(lines[i]).Some?
    && Lower(Captures(lines[i]).value.0) == key && Captures(lines[i]).value.1 == value
    && forall j :: i < j < |lines| && Captures(lines[j]).Some? ==> Lower(Captures(lines[j]).value.0) != key
  }

  /** In a header each key has the value that was said last, and only keys that some line says are there. */
  lemma {:induction false} LastOneWins(metadata: map<string, string>, lines: seq<string>, key: string)
    requires forall i :: 0 <= i < |lines| ==> lines[i] != "" && lines[i][0] == '!'
    ensures var m := ReadAll(metadata, lines);
            && (forall i: nat, value :: SaidLast(lines, i, key, value) ==> key in m && m[key] == value)
            && ((forall i :: 0 <= i < |lines| && Captures(lines[i]).Some? ==> Lower(Captures(lines[i]).value.0) != key) ==>
                  (key in m <==> key in metadata) && (key in m ==> m[key] == metadata[key]))
    decreases |lines|
  {
    if lines != [] {
      var first, rest := lines[0], lines[1..];
      assert forall i :: 0 <= i < |rest| ==> rest[i] == lines[i + 1];
      LastOneWins(Read(metadata, first), rest, key);
      forall i: nat, value | SaidLast(lines, i, key, value)
        ensures key in ReadAll(metadata, lines) && ReadAll(metadata, lines)[key] == value
      {
        if i > 0 {
          assert SaidLast(rest, i - 1, key, value);
        } else {
          assert forall j :: 0 <= j < |rest| && Captures(rest[j]).Some? ==> Lower(Captures(rest[j]).value.0) != key;
        }
      }
    }
  }

  // ---------------------------------------------------------------- printing

  datatype Configuration = Configuration(name: string, description: Option<string>, version: Option<string>,
                                         homepage: Option<string>, license: Option<string>)

  /** PACKAGE_INFO. */
  const PACKAGE_NAME := "@jk-com/adblock-compiler"
  const PACKAGE_VERSION := "0.88.0"

  const COMPILED_BY := "! Compiled by " + PACKAGE_NAME + " v" + PACKAGE_VERSION

  datatype Caption = Title | Description | Version | Homepage | License | LastModified

  function Text(caption: Caption): string {
    match caption
    case Title => "Title"
    case Description => "Description"
    case Version => "Version"
    case Homepage => "Homepage"
    case License => "License"
    case LastModified => "Last modified"
  }

  /** The metadata key under which a caption is read back: title, description, ..., last modified. */
  function KeyOf(caption: Caption): string {
    Lower(Text(caption))
  }

  /** A line of the header that may be left out. */
  datatype Slot = Slot(caption: Caption, value: Option<string>)

  /** An absent or empty text is falsy. */
  function Truthy(s: Option<string>): Option<string> {
    if s == Some("") then None else s
  }

  function Slots(c: Configuration, timestamp: string): (slots: seq<Slot>)
    ensures |slots| == 6
  {
    [Slot(Title, Some(c.name)), Slot(Description, Truthy(c.description)), Slot(Version, Truthy(c.version)),
     Slot(Homepage, Truthy(c.homepage)), Slot(License, Truthy(c.license)), Slot(LastModified, Some(timestamp))]
  }

  function LineOf(caption: Caption, value: string): string {
    "! " + Text(caption) + ": " + value
  }

  function SlotLines(slots: seq<Slot>): seq<string>
    decreases |slots|
  {
    if slots == [] then []
    else
      var last := slots[|slots| - 1];
      SlotLines(slots[..|slots| - 1]) + (if last.value.Some? then [LineOf(last.caption, last.value.value)] else [])
  }

  function CustomLines(custom: seq<string>): seq<string> {
    if custom == [] then [] else ["! " + custom[0]] + CustomLines(custom[1..])
  }

  function ListHeader(c: Configuration, timestamp: string, custom: seq<string>): seq<string> {
    ["!"] + SlotLines(Slots(c, timestamp)) + ["!", COMPILED_BY] + CustomLines(custom) + ["!"]
  }

  /** One conditional push. */
  method PushField(lines: seq<string>, ghost slots: seq<Slot>, caption: Caption, value: Option<string>)
    returns (r: seq<string>)
    requires lines == ["!"] + SlotLines(slots)
    ensures r == ["!"] + SlotLines(slots + [Slot(caption, Truthy(value))])
  {
    r := lines;
    if value.Some? && value.value != "" {
      r := r + [LineOf(caption, value.value)];
    }
    assert (slots + [Slot(caption, Truthy(value))])[..|slots|] == slots;
  }

  /** The mark, the fields and the time stamp. */
  method FieldLines(c: Configuration, timestamp: string) returns (lines: seq<string>)
    ensures lines == ["!"] + SlotLines(Slots(c, timestamp))
  {
    ghost var slots := Slots(c, timestamp);
    ghost var s1 := [Slot(Title, Some(c.name))];
    assert s1[..0] == [];
    lines := ["!", LineOf(Title, c.name)];
    lines := PushField(lines, s1, Description, c.description);
    ghost var s2 := s1 + [Slot(Description, Truthy(c.description))];
    lines := PushField(lines, s2, Version, c.version);
    ghost var s3 := s2 + [Slot(Version, Truthy(c.version))];
    lines := PushField(lines, s3, Homepage, c.homepage);
    ghost var s4 := s3 + [Slot(Homepage, Truthy(c.homepage))];
    lines := PushField(lines, s4, License, c.license);
    ghost var s5 := s4 + [Slot(License, Truthy(c.license))];
    assert slots[..|slots| - 1] == s5;
    lines := lines + [LineOf(LastModified, timestamp)];
  }

  method GenerateListHeader(c: Configuration, timestamp: string, custom: seq<string>) returns (lines: seq<string>)
    ensures lines == ListHeader(c, timestamp, custom)
  {
    lines := FieldLines(c, timestamp);
    lines := lines + ["!", COMPILED_BY];
    var customLines := PushCustom(custom);
    lines := lines + customLines + ["!"];
  }

  /** The loop over the custom lines. */
  method PushCustom(custom: seq<string>) returns (lines: seq<string>)
    ensures lines == CustomLines(custom)
  {
    lines := [];
    var i := 0;
    while i < |custom|
      invariant 0 <= i <= |custom|
      invariant lines + CustomLines(custom[i..]) == CustomLines(custom)
    {
      assert custom[i..][1..] == custom[i + 1..];
      lines := lines + ["! " + custom[i]];
      i := i + 1;
    }
  }

  // ---------------------------------------------------------------- round trip

  /** A value that survives printing and reading. */
  predicate Readable(v: string) {
    (v != "" ==> !IsSpace(v[0]) && !IsSpace(v[|v| - 1])) && SingleLine(v)
  }

  lemma TrimmedExactly(v: string)
    ensures Trim(v) == v <==> (v != "" ==> !IsSpace(v[0]) && !IsSpace(v[|v| - 1]))
  {
    var before, after := TrimIsExact(v);
  }

  /** What is read back from a line that prints v. */
  function ReadBack(v: string): Option<string> {
    if HasValue(" " + v) then Some(Trim(v)) else None
  }

  lemma {:induction false} TrimStartOfTrimmed(v: string)
    ensures Trim(v) == v ==> TrimStart(v) == v
  {
    var w := TrimStartIsSuffix(v);
    TrimEndShortens(TrimStart(v));
  }

  lemma {:induction false} TrimEndShortens(s: string)
    ensures |TrimEnd(s)| <= |s|
  {
    if s != "" && IsSpace(s[|s| - 1]) {
      TrimEndShortens(s[..|s| - 1]);
    }
  }

  /** Exactly the trimmed single-line values come back as they were, colons and all. */
  lemma ReadableExactly(v: string)
    ensures ReadBack(v) == Some(v) <==> Readable(v)
  {
    TrimmedExactly(v);
    TrimStartSkips(" ", v);
    TrimStartOfTrimmed(v);
  }

  ghost predicate GoodText(text: string) {
    text != "" && ':' !in text && !IsSpace(text[0]) && !IsSpace(text[|text| - 1])
  }

  lemma CaptionIsGood(caption: Caption)
    ensures GoodText(Text(caption))
  {
  }

  lemma CaptionsHaveOwnKeys(a: Caption, b: Caption)
    ensures KeyOf(a) == KeyOf(b) <==> a == b
  {
    var x, y := Text(a), Text(b);
    assert a != b ==> |x| != |y| || LowerChar(x[0]) != LowerChar(y[0]);
  }

  lemma ColonAfter(before: string, rest: string)
    requires ':' !in before
    ensures FirstColon(before + ":" + rest) == |before|
  {
    var s := before + ":" + rest;
    assert s[|before|] == ':';
    assert forall j :: 0 <= j < |before| ==> s[j] == before[j];
  }

  /** A printed line is read back as its caption and the value as it reads back. */
  lemma LineReadsBack(text: string, v: string)
    requires GoodText(text)
    ensures Captures("! " + text + ": " + v) == match ReadBack(v) { case None => None case Some(x) => Some((text, x)) }
  {
    var line := "! " + text + ": " + v;
    var rest, before := line[1..], " " + text;
    assert rest == before + ":" + (" " + v);
    ColonAfter(before, " " + v);
    assert rest[..|before|] == before && rest[|before| + 1..] == " " + v;
    TrimStartSkips(" ", text);
    TrimStartSkips(" ", v);
  }

  /** metadata[key] = value, if there is a value. */
  function Put(metadata: map<string, string>, caption: Caption, value: Option<string>): map<string, string> {
    if value.Some? then metadata[KeyOf(caption) := value.value] else metadata
  }

  function ReadBackOf(slot: Slot): Option<string> {
    if slot.value.Some? then ReadBack(slot.value.value) else None
  }

  /** What reading the slots' lines adds to the metadata. */
  function ReadSlots(metadata: map<string, string>, slots: seq<Slot>): map<string, string>
    decreases |slots|
  {
    if slots == [] then metadata
    else
      var last := slots[|slots| - 1];
      Put(ReadSlots(metadata, slots[..|slots| - 1]), last.caption, ReadBackOf(last))
  }

  /** The metadata that was printed. */
  function Printed(metadata: map<string, string>, slots: seq<Slot>): map<string, string>
    decreases |slots|
  {
    if slots == [] then metadata
    else
      var last := slots[|slots| - 1];
      Put(Printed(metadata, slots[..|slots| - 1]), last.caption, last.value)
  }

  ghost predicate AllHeaderLines(lines: seq<string>) {
    forall i :: 0 <= i < |lines| ==> IsHeaderLine(lines[i])
  }

  lemma {:induction false} ReadAllSplits(metadata: map<string, string>, lines: seq<string>, rest: seq<string>)
    requires AllHeaderLines(lines)
    ensures ReadAll(metadata, lines + rest) == ReadAll(ReadAll(metadata, lines), rest)
    decreases |lines|
  {
    if lines == [] {
      assert lines + rest == rest;
    } else {
      assert (lines + rest)[1..] == lines[1..] + rest;
      ReadAllSplits(Read(metadata, lines[0]), lines[1..], rest);
    }
  }

  lemma {:induction false} SlotLinesReadBack(metadata: map<string, string>, slots: seq<Slot>)
    ensures AllHeaderLines(SlotLines(slots))
    ensures ReadAll(metadata, SlotLines(slots)) == ReadSlots(metadata, slots)
    decreases |slots|
  {
    if slots != [] {
      var init, last := slots[..|slots| - 1], slots[|slots| - 1];
      SlotLinesReadBack(metadata, init);
      if last.value.Some? {
        var line := LineOf(last.caption, last.value.value);
        assert line[0] == '!';
        ReadAllSplits(metadata, SlotLines(init), [line]);
        CaptionIsGood(last.caption);
        LineReadsBack(Text(last.caption), last.value.value);
        assert [line][1..] == [];
        assert ReadAll(ReadSlots(metadata, init), [line]) == Read(ReadSlots(metadata, init), line);
      } else {
        assert SlotLines(slots) == SlotLines(init);
      }
    }
  }

  ghost predicate OwnCaptions(slots: seq<Slot>) {
    forall i, j :: 0 <= i < j < |slots| ==> slots[i].caption != slots[j].caption
  }

  /** What stands under a caption after reading, and after printing. */
  lemma {:induction false} SlotAt(slots: seq<Slot>, i: nat)
    requires OwnCaptions(slots) && i < |slots|
    ensures var key := KeyOf(slots[i].caption); var back := ReadBackOf(slots[i]);
            && (key in ReadSlots(map[], slots) <==> back.Some?)
            && (back.Some? ==> ReadSlots(map[], slots)[key] == back.value)
            && (key in Printed(map[], slots) <==> slots[i].value.Some?)
            && (slots[i].value.Some? ==> Printed(map[], slots)[key] == slots[i].value.value)
    decreases |slots|
  {
    var init, last := slots[..|slots| - 1], slots[|slots| - 1];
    if i == |slots| - 1 {
      NoSlotNoKey(init, last.caption);
    } else {
      SlotAt(init, i);
      CaptionsHaveOwnKeys(slots[i].caption, last.caption);
    }
  }

  lemma {:induction false} NoSlotNoKey(slots: seq<Slot>, caption: Caption)
    requires forall i :: 0 <= i < |slots| ==> slots[i].caption != caption
    ensures KeyOf(caption) !in ReadSlots(map[], slots) && KeyOf(caption) !in Printed(map[], slots)
    decreases |slots|
  {
    if slots != [] {
      NoSlotNoKey(slots[..|slots| - 1], caption);
      CaptionsHaveOwnKeys(slots[|slots| - 1].caption, caption);
    }
  }

  ghost predicate AllReadable(slots: seq<Slot>) {
    forall i :: 0 <= i < |slots| && slots[i].value.Some? ==> Readable(slots[i].value.value)
  }

  lemma {:induction false} ReadableSlotsComeBack(slots: seq<Slot>)
    requires AllReadable(slots)
    ensures ReadSlots(map[], slots) == Printed(map[], slots)
    decreases |slots|
  {
    if slots != [] {
      var last := slots[|slots| - 1];
      ReadableSlotsComeBack(slots[..|slots| - 1]);
      if last.value.Some? {
        ReadableExactly(last.value.value);
      }
    }
  }

  lemma SlotsComeBackExactly(slots: seq<Slot>)
    requires OwnCaptions(slots)
    ensures ReadSlots(map[], slots) == Printed(map[], slots) <==> AllReadable(slots)
  {
    if AllReadable(slots) {
      ReadableSlotsComeBack(slots);
    } else {
      var i :| 0 <= i < |slots| && slots[i].value.Some? && !Readable(slots[i].value.value);
      SlotAt(slots, i);
      ReadableExactly(slots[i].value.value);
    }
  }

  /** A line without a colon says nothing. */
  lemma NoColonNothingRead(line: string)
    requires ':' !in line
    ensures Captures(line) == None
  {
    if line != "" {
      var text := line[1..];
      assert forall i :: 0 <= i < |text| ==> text[i] == line[i + 1];
      assert ':' !in text;
      assert FirstColon(text) == |text|;
    }
  }

  lemma CompilerLineHasNoColon()
    ensures ':' !in COMPILED_BY && IsHeaderLine(COMPILED_BY)
  {
    assert forall i :: 0 <= i < |PACKAGE_NAME| ==> PACKAGE_NAME[i] != ':';
    assert forall i :: 0 <= i < |PACKAGE_VERSION| ==> PACKAGE_VERSION[i] != ':';
    var start := "! Compiled by ";
    assert forall i :: 0 <= i < |start| ==> start[i] != ':';
    assert COMPILED_BY == start + PACKAGE_NAME + " v" + PACKAGE_VERSION;
  }

  /** The metadata a configuration prints. */
  function Metadata(c: Configuration, timestamp: string): map<string, string> {
    Printed(map[], Slots(c, timestamp))
  }

  lemma {:induction false} CustomLinesAreHeaderLines(custom: seq<string>)
    ensures AllHeaderLines(CustomLines(custom))
  {
    if custom != [] {
      assert ("! " + custom[0])[0] == '!';
      CustomLinesAreHeaderLines(custom[1..]);
    }
  }

  lemma ReadOne(metadata: map<string, string>, line: string)
    requires IsHeaderLine(line)
    ensures ReadAll(metadata, [line]) == Read(metadata, line)
  {
    assert [line][1..] == [];
  }

  /** A line without a colon at the end of header lines. */
  lemma SilentAtEnd(metadata: map<string, string>, lines: seq<string>, silent: string)
    requires AllHeaderLines(lines)
    requires ':' !in silent && IsHeaderLine(silent)
    ensures ReadAll(metadata, lines + [silent]) == ReadAll(metadata, lines)
  {
    NoColonNothingRead(silent);
    ReadAllSplits(metadata, lines, [silent]);
    ReadOne(ReadAll(metadata, lines), silent);
  }

  /** A header made of slot lines, a line that says nothing, and custom lines, between bare marks. */
  lemma AssembledReadsBack(slots: seq<Slot>, silent: string, custom: seq<string>)
    requires ':' !in silent && IsHeaderLine(silent)
    ensures ReadAll(map[], ["!"] + SlotLines(slots) + ["!", silent] + CustomLines(custom) + ["!"])
            == ReadAll(ReadSlots(map[], slots), CustomLines(custom))
  {
    SlotLinesReadBack(map[], slots);
    CustomLinesAreHeaderLines(custom);
    FramedReadsBack(SlotLines(slots), silent, CustomLines(custom));
  }

  lemma FramedReadsBack(fields: seq<string>, silent: string, custom: seq<string>)
    requires AllHeaderLines(fields) && AllHeaderLines(custom)
    requires ':' !in silent && IsHeaderLine(silent)
    ensures ReadAll(map[], ["!"] + fields + ["!", silent] + custom + ["!"]) == ReadAll(ReadAll(map[], fields), custom)
  {
    var a := ["!"] + fields + ["!", silent];
    TopReadsBack(fields, silent);
    SilentAtEnd(map[], a + custom, "!");
    ReadAllSplits(map[], a, custom);
  }

  lemma TopReadsBack(fields: seq<string>, silent: string)
    requires AllHeaderLines(fields) && ':' !in silent && IsHeaderLine(silent)
    ensures ReadAll(map[], ["!"] + fields + ["!", silent]) == ReadAll(map[], fields)
  {
    var a := ["!"] + fields;
    NoColonNothingRead("!");
    ReadAllSplits(map[], ["!"], fields);
    ReadOne(map[], "!");
    SilentAtEnd(map[], a, "!");
    SilentAtEnd(map[], a + ["!"], silent);
    assert a + ["!"] + [silent] == a + ["!", silent];
  }

  /**
   * Reading a generated header: the printed fields as they read back, then whatever the custom lines say, which may
   * override them. Nothing else in the header is taken for metadata.
   */
  lemma HeaderReadsBack(c: Configuration, timestamp: string, custom: seq<string>)
    ensures ReadAll(map[], ListHeader(c, timestamp, custom))
            == ReadAll(ReadSlots(map[], Slots(c, timestamp)), CustomLines(custom))
  {
    CompilerLineHasNoColon();
    AssembledReadsBack(Slots(c, timestamp), COMPILED_BY, custom);
  }

  /**
   * Header round trip, exactly: without custom lines, parsing the generated header gives back the title, the time and
   * every optional field that was present, and nothing else, if and only if each printed value is trimmed and on a
   * single line. Colons in values do no harm.
   */
  lemma RoundTripExactly(c: Configuration, timestamp: string)
    ensures ReadAll(map[], ListHeader(c, timestamp, [])) == Metadata(c, timestamp) <==> AllReadable(Slots(c, timestamp))
  {
    HeaderReadsBack(c, timestamp, []);
    SlotsComeBackExactly(Slots(c, timestamp));
  }

  // ---------------------------------------------------------------- the same in literal text

  /** A field is shown under a key exactly when it is present and not empty, with its own value. */
  ghost predicate Shows(m: map<string, string>, key: string, value: Option<string>) {
    && (key in m <==> value.Some? && value.value != "")
    && (key in m ==> m[key] == value.value)
  }

  /** Title and time, each present field under its own key, and no other key. */
  ghost predicate SaysExactly(m: map<string, string>, c: Configuration, timestamp: string) {
    && "title" in m && m["title"] == c.name
    && "last modified" in m && m["last modified"] == timestamp
    && Shows(m, "description", c.description)
    && Shows(m, "version", c.version)
    && Shows(m, "homepage", c.homepage)
    && Shows(m, "license", c.license)
    && m.Keys <= {"title", "description", "version", "homepage", "license", "last modified"}
  }

  /** Every printed value is trimmed and on a single line; an empty field is not printed. */
  ghost predicate PrintsReadably(c: Configuration, timestamp: string) {
    && Readable(c.name) && Readable(timestamp)
    && (c.description.Some? ==> Readable(c.description.value))
    && (c.version.Some? ==> Readable(c.version.value))
    && (c.homepage.Some? ==> Readable(c.homepage.value))
    && (c.license.Some? ==> Readable(c.license.value))
  }

  function Optionally(line: string, value: Option<string>): seq<string> {
    if value.Some? && value.value != "" then [line + value.value] else []
  }

  /** How the line of a field starts. */
  function Start(caption: Caption): string {
    match caption
    case Title => "! Title: "
    case Description => "! Description: "
    case Version => "! Version: "
    case Homepage => "! Homepage: "
    case License => "! License: "
    case LastModified => "! Last modified: "
  }

  lemma LineStarts(caption: Caption, v: string)
    ensures LineOf(caption, v) == Start(caption) + v
  {
    StartText(caption);
    assert LineOf(caption, v) == ("! " + Text(caption) + ": ") + v;
  }

  lemma StartText(caption: Caption)
    ensures "! " + Text(caption) + ": " == Start(caption)
  {
    match caption {
      case Title => assert "! " + "Title" + ": " == "! Title: ";
      case Description => assert "! " + "Description" + ": " == "! Description: ";
      case Version => assert "! " + "Version" + ": " == "! Version: ";
      case Homepage => assert "! " + "Homepage" + ": " == "! Homepage: ";
      case License => assert "! " + "License" + ": " == "! License: ";
      case LastModified => assert "! " + "Last modified" + ": " == "! Last modified: ";
    }
  }

  /** One more field. */
  lemma FieldAppends(slots: seq<Slot>, caption: Caption, value: Option<string>)
    ensures SlotLines(slots + [Slot(caption, Truthy(value))]) == SlotLines(slots) + Optionally(Start(caption), value)
  {
    assert (slots + [Slot(caption, Truthy(value))])[..|slots|] == slots;
    if Truthy(value).Some? {
      LineStarts(caption, value.value);
    }
  }

  /** One more line that is always printed. */
  lemma LineAppends(slots: seq<Slot>, caption: Caption, v: string)
    ensures SlotLines(slots + [Slot(caption, Some(v))]) == SlotLines(slots) + [Start(caption) + v]
  {
    assert (slots + [Slot(caption, Some(v))])[..|slots|] == slots;
    LineStarts(caption, v);
  }

  lemma OptionalFieldText(first: seq<Slot>, c: Configuration)
    ensures SlotLines(first + [Slot(Description, Truthy(c.description))] + [Slot(Version, Truthy(c.version))]
                      + [Slot(Homepage, Truthy(c.homepage))] + [Slot(License, Truthy(c.license))])
            == SlotLines(first) + Optionally("! Description: ", c.description) + Optionally("! Version: ", c.version)
               + Optionally("! Homepage: ", c.homepage) + Optionally("! License: ", c.license)
  {
    var s1 := first + [Slot(Description, Truthy(c.description))];
    var s2 := s1 + [Slot(Version, Truthy(c.version))];
    var s3 := s2 + [Slot(Homepage, Truthy(c.homepage))];
    FieldAppends(first, Description, c.description);
    FieldAppends(s1, Version, c.version);
    FieldAppends(s2, Homepage, c.homepage);
    FieldAppends(s3, License, c.license);
  }

  lemma FieldText(c: Configuration, timestamp: string)
    ensures SlotLines(Slots(c, timestamp))
            == ["! Title: " + c.name] + Optionally("! Description: ", c.description) + Optionally("! Version: ", c.version)
               + Optionally("! Homepage: ", c.homepage) + Optionally("! License: ", c.license)
               + ["! Last modified: " + timestamp]
  {
    var title := [Slot(Title, Some(c.name))];
    var fields := title + [Slot(Description, Truthy(c.description))] + [Slot(Version, Truthy(c.version))]
                  + [Slot(Homepage, Truthy(c.homepage))] + [Slot(License, Truthy(c.license))];
    LineAppends([], Title, c.name);
    assert [] + title == title;
    OptionalFieldText(title, c);
    LineAppends(fields, LastModified, timestamp);
    assert fields + [Slot(LastModified, Some(timestamp))] == Slots(c, timestamp);
  }

  lemma CompilerText()
    ensures COMPILED_BY == "! Compiled by @jk-com/adblock-compiler v0.88.0"
  {
  }

  /** The lines of the header, word for word. */
  lemma HeaderText(c: Configuration, timestamp: string, custom: seq<string>)
    ensures ListHeader(c, timestamp, custom)
            == ["!"]
               + (["! Title: " + c.name] + Optionally("! Description: ", c.description)
                  + Optionally("! Version: ", c.version) + Optionally("! Homepage: ", c.homepage)
                  + Optionally("! License: ", c.license) + ["! Last modified: " + timestamp])
               + ["!", "! Compiled by @jk-com/adblock-compiler v0.88.0"] + CustomLines(custom) + ["!"]
  {
    FieldText(c, timestamp);
    CompilerText();
  }

  /** A custom line is printed after a mark and a space, each in its place. */
  lemma {:induction false} CustomText(custom: seq<string>, i: nat)
    requires i < |custom|
    ensures |CustomLines(custom)| == |custom| && CustomLines(custom)[i] == "! " + custom[i]
  {
    if |custom| > 1 {
      CustomText(custom[1..], if i > 0 then i - 1 else 0);
    }
  }

  lemma KeyTexts()
    ensures KeyOf(Title) == "title" && KeyOf(Description) == "description" && KeyOf(Version) == "version"
    ensures KeyOf(Homepage) == "homepage" && KeyOf(License) == "license" && KeyOf(LastModified) == "last modified"
  {
  }

  lemma {:induction false} PrintedKeys(slots: seq<Slot>)
    ensures Printed(map[], slots).Keys <= {"title", "description", "version", "homepage", "license", "last modified"}
    decreases |slots|
  {
    KeyTexts();
    if slots != [] {
      PrintedKeys(slots[..|slots| - 1]);
    }
  }

  lemma MetadataSaysExactly(c: Configuration, timestamp: string)
    ensures SaysExactly(Metadata(c, timestamp), c, timestamp)
  {
    var slots := Slots(c, timestamp);
    KeyTexts();
    PrintedKeys(slots);
    SlotAt(slots, 0);
    SlotAt(slots, 1);
    SlotAt(slots, 2);
    SlotAt(slots, 3);
    SlotAt(slots, 4);
    SlotAt(slots, 5);
  }

  lemma SaysExactlyIsUnique(m: map<string, string>, n: map<string, string>, c: Configuration, timestamp: string)
    requires SaysExactly(m, c, timestamp) && SaysExactly(n, c, timestamp)
    ensures m == n
  {
    assert forall key <- {"title", "description", "version", "homepage", "license", "last modified"} ::
        (key in m <==> key in n) && (key in m ==> m[key] == n[key]);
  }

  /**
   * The round trip in literal terms: without custom lines, the parsed header has the name under "title", the time under
   * "last modified", each present and non-empty field under its own key with its own value, and no other key, if and
   * only if every printed value is trimmed and on a single line.
   */
  lemma HeaderRoundTrip(c: Configuration, timestamp: string)
    ensures SaysExactly(ReadAll(map[], ListHeader(c, timestamp, [])), c, timestamp) <==> PrintsReadably(c, timestamp)
  {
    var m, slots := ReadAll(map[], ListHeader(c, timestamp, [])), Slots(c, timestamp);
    RoundTripExactly(c, timestamp);
    MetadataSaysExactly(c, timestamp);
    if SaysExactly(m, c, timestamp) {
      SaysExactlyIsUnique(m, Metadata(c, timestamp), c, timestamp);
    }
    ReadableSlots(c, timestamp);
  }

  lemma ReadableSlots(c: Configuration, timestamp: string)
    ensures AllReadable(Slots(c, timestamp)) <==> PrintsReadably(c, timestamp)
  {
    var slots := Slots(c, timestamp);
    assert slots[0].value == Some(c.name) && slots[5].value == Some(timestamp);
    assert slots[1].value == Truthy(c.description) && slots[2].value == Truthy(c.version);
    assert slots[3].value == Truthy(c.homepage) && slots[4].value == Truthy(c.license);
  }
}
