/**
 * The JSON Pointer half of scripts/generate-cloudflare-schema.ts: cutting a local $ref into segments and following
 * them, beside RFC 6901's own evaluation of a pointer.
 */
module JsonPointer {
  import opened Options

  // ---------------------------------------------------------------- text

  /** s.replaceAll([a, b], [c]): leftmost matches first, none overlapping. */
  function ReplacePair(s: string, a: char, b: char, c: char): string {
    if |s| < 2 then s
    else if s[0] == a && s[1] == b then [c] + ReplacePair(s[2..], a, b, c)
    else [s[0]] + ReplacePair(s[1..], a, b, c)
  }

  /** s.replaceAll([c], text). */
  function ReplaceChar(s: string, c: char, text: string): string {
    if s == [] then [] else (if s[0] == c then text else [s[0]]) + ReplaceChar(s[1..], c, text)
  }

  /** Section 4 of RFC 6901: first ~1 becomes a slash, then ~0 becomes a tilde. */
  function Unescape(s: string): string {
    ReplacePair(ReplacePair(s, '~', '1', '/'), '~', '0', '~')
  }

  /** Section 3 of RFC 6901: tildes first, then slashes. */
  function Escape(s: string): string {
    ReplaceChar(ReplaceChar(s, '~', "~0"), '/', "~1")
  }

  /** s.split('/'). */
  function Split(s: string): (parts: seq<string>)
    ensures parts != []
  {
    if s == [] then [[]]
    else
      var rest := Split(s[1..]);
      if s[0] == '/' then [[]] + rest else [[s[0]] + rest[0]] + rest[1..]
  }

  function JoinSlash(parts: seq<string>): string {
    if parts == [] then []
    else if |parts| == 1 then parts[0]
    else parts[0] + "/" + JoinSlash(parts[1..])
  }

  function UnescapeAll(parts: seq<string>): (r: seq<string>)
    ensures |r| == |parts| && forall i :: 0 <= i < |r| ==> r[i] == Unescape(parts[i])
  {
    if parts == [] then [] else [Unescape(parts[0])] + UnescapeAll(parts[1..])
  }

  function EscapeAll(parts: seq<string>): (r: seq<string>)
    ensures |r| == |parts| && forall i :: 0 <= i < |r| ==> r[i] == Escape(parts[i])
  {
    if parts == [] then [] else [Escape(parts[0])] + EscapeAll(parts[1..])
  }

  /** A local reference starts with #/. */
  predicate IsLocal(ref: string) {
    "#/" <= ref
  }

  /** pointer.slice(2).split('/') with every part unescaped. */
  function Segments(pointer: string): (segments: seq<string>)
    requires IsLocal(pointer)
    ensures segments != []
  {
    UnescapeAll(Split(pointer[2..]))
  }

  function Print(path: seq<string>): string {
    "#/" + JoinSlash(EscapeAll(path))
  }

  lemma {:induction false} TildesComeBack(s: string)
    ensures ReplacePair(ReplaceChar(s, '~', "~0"), '~', '0', '~') == s
  {
    if s != [] {
      TildesComeBack(s[1..]);
      var rest := ReplaceChar(s[1..], '~', "~0");
      if s[0] == '~' {
        assert ReplaceChar(s, '~', "~0")[2..] == rest;
      } else {
        assert ReplaceChar(s, '~', "~0")[1..] == rest;
      }
    }
  }

  /** The slash pass leaves an escaped tilde alone: what is left is the text with only its tildes escaped. */
  lemma {:induction false} SlashesComeBack(s: string)
    ensures ReplacePair(Escape(s), '~', '1', '/') == ReplaceChar(s, '~', "~0")
  {
    if s != [] {
      SlashesComeBack(s[1..]);
      EscapeHead(s);
      var rest := Escape(s[1..]);
      if s[0] == '~' {
        assert Escape(s)[1..] == "0" + rest;
        assert ("0" + rest)[1..] == rest;
        assert rest == [] ==> ReplacePair("0" + rest, '~', '1', '/') == "0" + ReplacePair(rest, '~', '1', '/');
        assert ReplacePair(Escape(s), '~', '1', '/') == "~" + ReplacePair("0" + rest, '~', '1', '/');
      } else if s[0] == '/' {
        assert Escape(s)[2..] == rest;
      } else {
        assert Escape(s)[1..] == rest;
      }
    }
  }

  lemma EscapeHead(s: string)
    requires s != []
    ensures Escape(s) == (if s[0] == '~' then "~0" else if s[0] == '/' then "~1" else [s[0]]) + Escape(s[1..])
  {
    var rest := ReplaceChar(s[1..], '~', "~0");
    if s[0] == '~' {
      var t := ReplaceChar(s, '~', "~0");
      assert t == "~0" + rest && t[1..] == "0" + rest && t[1..][1..] == rest;
      assert ReplaceChar(t[1..], '/', "~1") == "0" + ReplaceChar(rest, '/', "~1");
      assert ReplaceChar(t, '/', "~1") == "~" + ReplaceChar(t[1..], '/', "~1");
    } else {
      assert ([s[0]] + rest)[1..] == rest;
    }
  }

  lemma UnescapeUndoesEscape(s: string)
    ensures Unescape(Escape(s)) == s
  {
    SlashesComeBack(s);
    TildesComeBack(s);
  }

  /** The escapes of section 3 of RFC 6901, and the example of section 4: ~01 is a tilde and a one. */
  lemma EscapeTexts()
    ensures Escape("~") == "~0" && Escape("/") == "~1"
    ensures Unescape("~0") == "~" && Unescape("~1") == "/" && Unescape("~01") == "~1"
  {
    EscapeHead("~");
    EscapeHead("/");
    assert "~01"[1..] == "01" && "01"[1..] == "1" && "~1"[2..] == "" && "~0"[2..] == "";
    assert ReplacePair("01", '~', '1', '/') == "0" + ReplacePair("1", '~', '1', '/');
    assert ReplacePair("~01", '~', '1', '/') == "~" + ReplacePair("01", '~', '1', '/') == "~01";
    assert "~01"[2..] == "1";
    assert ReplacePair("~01", '~', '0', '~') == "~" + ReplacePair("1", '~', '0', '~');
  }

  lemma {:induction false} EscapeHidesSlashes(s: string)
    ensures '/' !in Escape(s)
  {
    if s != [] {
      EscapeHead(s);
      EscapeHidesSlashes(s[1..]);
    }
  }

  lemma {:induction false} SplitKeepsPrefix(part: string, rest: string)
    requires '/' !in part
    ensures Split(part + "/" + rest) == [part] + Split(rest)
    ensures Split(part) == [part]
  {
    var s := part + "/" + rest;
    if part == [] {
      assert s[1..] == rest;
    } else {
      SplitKeepsPrefix(part[1..], rest);
      assert s[1..] == part[1..] + "/" + rest;
      assert ([part[1..]] + Split(rest))[1..] == Split(rest);
      assert [part[0]] + part[1..] == part;
    }
  }

  lemma {:induction false} SplitUndoesJoin(parts: seq<string>)
    requires parts != [] && forall part <- parts :: '/' !in part
    ensures Split(JoinSlash(parts)) == parts
  {
    if |parts| == 1 {
      SplitKeepsPrefix(parts[0], []);
    } else {
      SplitUndoesJoin(parts[1..]);
      SplitKeepsPrefix(parts[0], JoinSlash(parts[1..]));
    }
  }

  /**
   * Round trip: a printed path is cut back into exactly its segments, whatever characters they hold. The one
   * exception is the empty path, which prints as "#/" and reads back as one empty segment.
   */
  lemma PrintRoundTrip(path: seq<string>)
    ensures Segments(Print(path)) == path <==> path != []
  {
    var parts := EscapeAll(path);
    assert Print(path)[2..] == JoinSlash(parts);
    if path != [] {
      forall part | part in parts
        ensures '/' !in part
      {
        var i :| 0 <= i < |parts| && parts[i] == part;
        EscapeHidesSlashes(path[i]);
      }
      SplitUndoesJoin(parts);
      forall i | 0 <= i < |path|
        ensures Segments(Print(path))[i] == path[i]
      {
        UnescapeUndoesEscape(path[i]);
      }
    }
  }

  /** The pair a, b stands at position i. */
  predicate PairAt(s: string, i: nat, a: char, b: char) {
    i + 1 < |s| && s[i] == a && s[i + 1] == b
  }

  /** What replaceAll does: nothing where the pair does not occur, else it replaces the first one and goes on after it. */
  lemma {:induction false} ReplacesFirstAndGoesOn(s: string, a: char, b: char, c: char, i: nat)
    requires i <= |s| && forall j: nat :: j < i ==> !PairAt(s, j, a, b)
    ensures i == |s| ==> ReplacePair(s, a, b, c) == s
    ensures PairAt(s, i, a, b) ==> ReplacePair(s, a, b, c) == s[..i] + [c] + ReplacePair(s[i + 2..], a, b, c)
  {
    if i > 0 && |s| >= 2 {
      assert !PairAt(s, 0, a, b);
      forall j: nat | j < i - 1
        ensures !PairAt(s[1..], j, a, b)
      {
        assert PairAt(s[1..], j, a, b) == PairAt(s, j + 1, a, b);
      }
      ReplacesFirstAndGoesOn(s[1..], a, b, c, i - 1);
      if PairAt(s, i, a, b) {
        assert s[1..][i - 1 + 2..] == s[i + 2..];
        assert [s[0]] + s[1..][..i - 1] == s[..i];
      }
    }
  }

  /** What split does: the parts hold no slash, and joined with slashes they are the text again. */
  lemma {:induction false} SplitIsExact(s: string)
    ensures JoinSlash(Split(s)) == s && forall part <- Split(s) :: '/' !in part
  {
    if s != [] {
      var rest := Split(s[1..]);
      SplitIsExact(s[1..]);
      JoinEmptyHead(rest);
      JoinLongerHead(s[0], rest);
      assert s == [s[0]] + s[1..];
      assert rest[0] in rest && forall part <- rest[1..] :: part in rest;
    }
  }

  lemma JoinEmptyHead(rest: seq<string>)
    requires rest != []
    ensures JoinSlash([""] + rest) == "/" + JoinSlash(rest)
  {
    var parts := [""] + rest;
    assert parts[0] == "" && parts[1..] == rest;
    assert "" + "/" == "/";
  }

  lemma JoinLongerHead(c: char, rest: seq<string>)
    requires rest != []
    ensures JoinSlash([[c] + rest[0]] + rest[1..]) == [c] + JoinSlash(rest)
  {
    var parts := [[c] + rest[0]] + rest[1..];
    assert parts[0] == [c] + rest[0] && parts[1..] == rest[1..];
    if |rest| > 1 {
      assert [c] + rest[0] + "/" + JoinSlash(rest[1..]) == [c] + (rest[0] + "/" + JoinSlash(rest[1..]));
    }
  }

  // ---------------------------------------------------------------- documents

  /** A parsed document. Object fields are in Object.entries order. */
  datatype Json = JNull | JBool(b: bool) | JNumber(n: int) | JString(s: string)
                | JArray(items: seq<Json>) | JObject(fields: seq<Field>)

  datatype Field = Field(key: string, value: Json)

  function Digit(d: nat): char
    requires d < 10
  {
    (d + '0' as int) as char
  }

  /** String(n): the name of an array element. */
  function Decimal(n: nat): string {
    if n < 10 then [Digit(n)] else Decimal(n / 10) + [Digit(n % 10)]
  }

  predicate AllDigits(s: string) {
    forall i :: 0 <= i < |s| ==> '0' <= s[i] <= '9'
  }

  /** Section 4 of RFC 6901: an array index is 0, or digits without a leading zero. */
  predicate IsArrayIndex(s: string) {
    s != "" && AllDigits(s) && (s[0] == '0' ==> s == "0")
  }

  function IndexValue(s: string): nat
    requires AllDigits(s)
  {
    if s == "" then 0 else IndexValue(s[..|s| - 1]) * 10 + ((s[|s| - 1] as int) - ('0' as int))
  }

  lemma {:induction false} DecimalIsIndex(n: nat)
    ensures IsArrayIndex(Decimal(n)) && IndexValue(Decimal(n)) == n
    ensures n > 0 ==> Decimal(n)[0] != '0'
  {
    if n >= 10 {
      DecimalIsIndex(n / 10);
      var s := Decimal(n);
      assert s[..|s| - 1] == Decimal(n / 10);
      assert s[0] == Decimal(n / 10)[0];
    } else {
      assert Decimal(n)[..0] == "";
    }
  }

  lemma DecimalAppends(v: nat, d: nat)
    requires v > 0 && d < 10
    ensures Decimal(v * 10 + d) == Decimal(v) + [Digit(d)]
  {
    assert (v * 10 + d) / 10 == v && (v * 10 + d) % 10 == d;
  }

  lemma {:induction false} IndexIsDecimal(s: string)
    requires IsArrayIndex(s)
    ensures Decimal(IndexValue(s)) == s
    ensures s[0] != '0' ==> IndexValue(s) > 0
  {
    var init, last := s[..|s| - 1], s[|s| - 1];
    var d: nat := (last as int) - ('0' as int);
    assert s == init + [last] && AllDigits(init) && Digit(d) == last;
    assert IndexValue(s) == IndexValue(init) * 10 + d;
    if init == "" {
      assert IndexValue(init) == 0;
    } else {
      assert init[0] == s[0];
      IndexIsDecimal(init);
      DecimalAppends(IndexValue(init), d);
    }
  }

  function FindField(fields: seq<Field>, key: string): Option<Json> {
    if fields == [] then None else if fields[0].key == key then Some(fields[0].value) else FindField(fields[1..], key)
  }

  /** The member that RFC 6901 gives a reference token in a node. */
  function Member(node: Json, token: string): Option<Json> {
    match node
    case JObject(fields) => FindField(fields, token)
    case JArray(items) =>
      if IsArrayIndex(token) && IndexValue(token) < |items| then Some(items[IndexValue(token)]) else None
    case _ => None
  }

  /** RFC 6901's evaluation of a pointer. */
  function Evaluate(node: Json, path: seq<string>): Option<Json>
    decreases |path|
  {
    if path == [] then Some(node)
    else match Member(node, path[0])
      case None => None
      case Some(child) => Evaluate(child, path[1..])
  }

  // ---------------------------------------------------------------- JavaScript property access

  /** The inherited function properties of plain objects and of arrays, which depend on the runtime. */
  datatype Host = Host(objectMethods: set<string>, arrayMethods: set<string>)

  /** The values that current can take while a pointer is followed. */
  datatype Value = Node(json: Json) | ObjectPrototype | ArrayPrototype | Function | Length | Undefined

  /** typeof value === 'object' and not null. */
  predicate IsObject(v: Value) {
    match v
    case Node(json) => json.JObject? || json.JArray?
    case ObjectPrototype => true
    case ArrayPrototype => true
    case _ => false
  }

  /** value[name]: own properties first, then the prototype chain. */
  function Property(host: Host, v: Value, name: string): Value
    requires IsObject(v)
  {
    match v
    case Node(JObject(fields)) =>
      (match FindField(fields, name)
       case Some(child) => Node(child)
       case None => if name == "__proto__" then ObjectPrototype else FromObject(host, name))
    case Node(JArray(items)) =>
      (match FindElement(items, name, 0)
       case Some(child) => Node(child)
       case None => if name == "__proto__" then ArrayPrototype else FromArray(host, name))
    case ObjectPrototype => if name == "__proto__" then Node(JNull) else FromObject(host, name)
    case ArrayPrototype => if name == "__proto__" then ObjectPrototype else FromArray(host, name)
  }

  function FromObject(host: Host, name: string): Value {
    if name in host.objectMethods then Function else Undefined
  }

  function FromArray(host: Host, name: string): Value {
    if name == "length" then Length else if name in host.arrayMethods then Function else FromObject(host, name)
  }

  /** Array elements are properties named "0", "1", and so on. */
  function FindElement(items: seq<Json>, name: string, from: nat): Option<Json>
    decreases |items| - from
  {
    if from >= |items| then None
    else if Decimal(from) == name then Some(items[from])
    else FindElement(items, name, from + 1)
  }

  predicate Follow(host: Host, v: Value, segments: seq<string>)
    decreases |segments|
  {
    if segments == [] then v != Undefined
    else IsObject(v) && Follow(host, Property(host, v, segments[0]), segments[1..])
  }

  /** resolvePointer on a whole document. */
  predicate Resolves(host: Host, doc: Json, pointer: string)
    requires IsLocal(pointer)
  {
    Follow(host, Node(doc), Segments(pointer))
  }

  /** Element names and RFC 6901 indices are the same thing. */
  lemma {:induction false} ElementsAreMembers(items: seq<Json>, name: string, from: nat)
    requires from <= |items|
    ensures FindElement(items, name, from)
            == if IsArrayIndex(name) && from <= IndexValue(name) < |items| then Some(items[IndexValue(name)]) else None
    decreases |items| - from
  {
    if from < |items| {
      DecimalIsIndex(from);
      if IsArrayIndex(name) {
        IndexIsDecimal(name);
      }
      if Decimal(from) != name {
        ElementsAreMembers(items, name, from + 1);
      }
    }
  }

  /** Every name that a lookup can find outside the document. */
  function HostNames(host: Host): set<string> {
    host.objectMethods + host.arrayMethods + {"__proto__", "length"}
  }

  lemma OwnPropertiesAreMembers(host: Host, node: Json, name: string)
    requires node.JObject? || node.JArray?
    ensures Member(node, name).Some? ==> Property(host, Node(node), name) == Node(Member(node, name).value)
    ensures Member(node, name).None? ==> !Property(host, Node(node), name).Node?
    ensures Member(node, name).None? && name !in HostNames(host) ==> Property(host, Node(node), name) == Undefined
  {
    if node.JArray? {
      ElementsAreMembers(node.items, name, 0);
    }
  }

  /** No false alarm: a pointer that RFC 6901 resolves is resolved. */
  lemma {:induction false} ResolvableIsResolved(host: Host, node: Json, path: seq<string>)
    requires Evaluate(node, path).Some?
    ensures Follow(host, Node(node), path)
    decreases |path|
  {
    if path != [] {
      OwnPropertiesAreMembers(host, node, path[0]);
      ResolvableIsResolved(host, Member(node, path[0]).value, path[1..]);
    }
  }

  lemma {:induction false} OutsideNeedsHostName(host: Host, v: Value, path: seq<string>)
    requires !v.Node? || v == Node(JNull)
    requires path != [] && path[|path| - 1] !in HostNames(host)
    ensures !Follow(host, v, path)
    decreases |path|
  {
    if IsObject(v) && |path| > 1 {
      OutsideNeedsHostName(host, Property(host, v, path[0]), path[1..]);
    }
  }

  /** The paths that resolve outside the document, in closed form. */
  lemma OutsideResolvesExactly(host: Host, path: seq<string>)
    ensures Follow(host, Function, path) <==> path == []
    ensures Follow(host, Length, path) <==> path == []
    ensures !Follow(host, Undefined, path)
    ensures Follow(host, ObjectPrototype, path)
            <==> path == [] || (|path| == 1 && (path[0] == "__proto__" || path[0] in host.objectMethods))
    ensures Follow(host, ArrayPrototype, path)
            <==> || path == []
                 || (|path| == 1 && (path[0] in {"__proto__", "length"} || path[0] in host.arrayMethods + host.objectMethods))
                 || (|path| == 2 && path[0] == "__proto__" && (path[1] == "__proto__" || path[1] in host.objectMethods))
  {
    if path != [] {
      assert |path| == 1 ==> path[1..] == [];
      NullResolvesNothing(host, path[1..]);
      if |path| > 1 {
        assert |path| == 2 ==> path[1..][1..] == [];
        NullResolvesNothing(host, path[1..][1..]);
      }
    }
  }

  lemma NullResolvesNothing(host: Host, path: seq<string>)
    ensures Follow(host, Node(JNull), path) <==> path == []
  {
  }

  /** What a missing member leads to: the prototype, an inherited function, or nothing; and the length of an array. */
  lemma MissingMemberExactly(host: Host, node: Json, name: string, rest: seq<string>)
    requires (node.JObject? || node.JArray?) && Member(node, name).None?
    ensures var prototype := if node.JObject? then ObjectPrototype else ArrayPrototype;
            var names := if node.JObject? then host.objectMethods else host.objectMethods + host.arrayMethods + {"length"};
            Follow(host, Node(node), [name] + rest)
            <==> if name == "__proto__" then Follow(host, prototype, rest) else name in names && rest == []
  {
    if node.JArray? {
      ElementsAreMembers(node.items, name, 0);
    }
    assert ([name] + rest)[1..] == rest;
    OutsideResolvesExactly(host, rest);
  }

  /** If the last segment is no host name, following the pointer is RFC 6901's evaluation. */
  lemma {:induction false} FollowIsEvaluate(host: Host, node: Json, path: seq<string>)
    requires path == [] || path[|path| - 1] !in HostNames(host)
    ensures Follow(host, Node(node), path) == Evaluate(node, path).Some?
    decreases |path|
  {
    if path != [] && (node.JObject? || node.JArray?) {
      OwnPropertiesAreMembers(host, node, path[0]);
      match Member(node, path[0])
      case Some(child) => FollowIsEvaluate(host, child, path[1..]);
      case None =>
        if |path| > 1 {
          OutsideNeedsHostName(host, Property(host, Node(node), path[0]), path[1..]);
        }
    }
  }

  /** An object tree that leads along path to leaf. */
  function Nest(path: seq<string>, leaf: Json): Json {
    if path == [] then leaf else JObject([Field(path[0], Nest(path[1..], leaf))])
  }

  lemma {:induction false} NestLeadsToLeaf(host: Host, path: seq<string>, name: string, leaf: Json)
    ensures Evaluate(Nest(path, leaf), path + [name]) == Evaluate(leaf, [name])
    ensures Follow(host, Node(Nest(path, leaf)), path + [name]) == Follow(host, Node(leaf), [name])
  {
    if path == [] {
      assert path + [name] == [name];
    } else {
      assert (path + [name])[1..] == path[1..] + [name];
      NestLeadsToLeaf(host, path[1..], name, leaf);
    }
  }

  /** On every document, following the path finds something exactly when RFC 6901 does. */
  ghost predicate AgreesWithRfc(host: Host, path: seq<string>) {
    forall doc :: Follow(host, Node(doc), path) == Evaluate(doc, path).Some?
  }

  /**
   * The exact condition: resolvePointer agrees with RFC 6901 on every document if and only if the pointer's last
   * segment is not the name of an inherited JavaScript property. So "#/components/toString" is taken for resolved in
   * a document that has no such member.
   */
  lemma AgreesWithRfcExactly(host: Host, path: seq<string>)
    requires path != []
    ensures AgreesWithRfc(host, path) <==> path[|path| - 1] !in HostNames(host)
  {
    var last, init := path[|path| - 1], path[..|path| - 1];
    assert path == init + [last];
    if last !in HostNames(host) {
      forall doc
        ensures Follow(host, Node(doc), path) == Evaluate(doc, path).Some?
      {
        FollowIsEvaluate(host, doc, path);
      }
    } else {
      var leaf := if last in host.objectMethods || last == "__proto__" then JObject([]) else JArray([]);
      NestLeadsToLeaf(host, init, last, leaf);
      assert Follow(host, Property(host, Node(leaf), last), []);
      assert [last][1..] == [];
      assert Follow(host, Node(Nest(init, leaf)), path) != Evaluate(Nest(init, leaf), path).Some?;
    }
  }

  /** Resolving the printed form of a path reaches the node the path names. */
  lemma PrintedPathResolves(host: Host, doc: Json, path: seq<string>)
    requires path != []
    ensures Evaluate(doc, path).Some? ==> Resolves(host, doc, Print(path))
    ensures path[|path| - 1] !in HostNames(host) ==> Resolves(host, doc, Print(path)) == Evaluate(doc, path).Some?
  {
    PrintRoundTrip(path);
    if Evaluate(doc, path).Some? {
      ResolvableIsResolved(host, doc, path);
    }
    if path[|path| - 1] !in HostNames(host) {
      FollowIsEvaluate(host, doc, path);
    }
  }
}
