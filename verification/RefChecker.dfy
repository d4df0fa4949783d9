/** scripts/generate-cloudflare-schema.ts, validateLocalRefs: the walk that reports unresolved local references. */
module RefChecker {
  import opened Options
  import opened JsonPointer

  /** A "$ref" field with a local reference as its value. */
  predicate IsLocalRef(f: Field) {
    f.key == "$ref" && f.value.JString? && IsLocal(f.value.s)
  }

  /** The local references of a node, in the order the walk meets them. */
  function AllRefs(node: Json): seq<string>
    decreases node, 1
  {
    match node
    case JArray(items) => RefsOfItems(items)
    case JObject(fields) => RefsOfFields(fields)
    case _ => []
  }

  function RefsOfItems(items: seq<Json>): seq<string>
    decreases items, 0
  {
    if items == [] then [] else AllRefs(items[0]) + RefsOfItems(items[1..])
  }

  function RefsOfFields(fields: seq<Field>): seq<string>
    decreases fields, 0
  {
    if fields == [] then [] else RefsOfField(fields[0]) + RefsOfFields(fields[1..])
  }

  function RefsOfField(f: Field): seq<string>
    decreases f, 2
  {
    if IsLocalRef(f) then [f.value.s] else AllRefs(f.value)
  }

  /** What the walk has reported after meeting the references: each one once, when first met, if it does not resolve. */
  function Reported(host: Host, doc: Json, refs: seq<string>): seq<string>
    decreases |refs|
  {
    if refs == [] then []
    else
      var past, ref := refs[..|refs| - 1], refs[|refs| - 1];
      Reported(host, doc, past)
      + (if ref !in past && IsLocal(ref) && !Resolves(host, doc, ref) then [ref] else [])
  }

  /** The closure variables of validateLocalRefs. */
  class Checker {
    const host: Host
    const spec: Json
    var seen: set<string>
    var unresolvedRefs: seq<string>
    ghost var met: seq<string>

    ghost predicate Valid()
      reads this
    {
      && (forall ref :: ref in seen <==> ref in met)
      && unresolvedRefs == Reported(host, spec, met)
    }

    constructor (host: Host, spec: Json)
      ensures Valid() && met == [] && this.host == host && this.spec == spec
    {
      this.host, this.spec := host, spec;
      seen, unresolvedRefs, met := {}, [], [];
    }

    /** resolvePointer: the loop over the segments. */
    method ResolvePointer(pointer: string) returns (found: bool)
      requires IsLocal(pointer)
      ensures found == Resolves(host, spec, pointer)
    {
      var segments := Segments(pointer);
      var current := Node(spec);
      var i := 0;
      while i < |segments|
        invariant 0 <= i <= |segments|
        invariant Follow(host, current, segments[i..]) == Resolves(host, spec, pointer)
      {
        if !IsObject(current) {
          return false;
        }
        current := Property(host, current, segments[i]);
        i := i + 1;
      }
      return current != Undefined;
    }

    /** The branch for a "$ref" field. */
    method VisitRef(value: string)
      requires Valid() && IsLocal(value)
      modifies this
      ensures Valid() && met == old(met) + [value]
    {
      if value !in seen {
        seen := seen + {value};
        var found := ResolvePointer(value);
        if !found {
          unresolvedRefs := unresolvedRefs + [value];
        }
      }
      met := met + [value];
      assert met[..|met| - 1] == old(met);
    }

    method Walk(node: Json)
      requires Valid()
      modifies this
      ensures Valid() && met == old(met) + AllRefs(node)
      decreases node, 1
    {
      match node {
        case JArray(items) => WalkItems(items);
        case JObject(fields) => WalkFields(fields);
        case _ =>
      }
    }

    method WalkItems(items: seq<Json>)
      requires Valid()
      modifies this
      ensures Valid() && met == old(met) + RefsOfItems(items)
      decreases items, 0
    {
      if items != [] {
        Walk(items[0]);
        WalkItems(items[1..]);
      }
    }

    method WalkFields(fields: seq<Field>)
      requires Valid()
      modifies this
      ensures Valid() && met == old(met) + RefsOfFields(fields)
      decreases fields, 0
    {
      if fields != [] {
        var f := fields[0];
        if f.key == "$ref" && f.value.JString? && IsLocal(f.value.s) {
          VisitRef(f.value.s);
        } else {
          Walk(f.value);
        }
        WalkFields(fields[1..]);
      }
    }
  }

  method ValidateLocalRefs(host: Host, spec: Json) returns (unresolved: seq<string>)
    ensures unresolved == Reported(host, spec, AllRefs(spec))
  {
    var checker := new Checker(host, spec);
    checker.Walk(spec);
    assert [] + AllRefs(spec) == AllRefs(spec);
    return checker.unresolvedRefs;
  }

  // ---------------------------------------------------------------- the report is exact

  function FirstIndex(refs: seq<string>, ref: string): nat
    requires ref in refs
  {
    if refs[0] == ref then 0 else 1 + FirstIndex(refs[1..], ref)
  }

  lemma {:induction false} FirstIndexStays(refs: seq<string>, more: seq<string>, ref: string)
    requires ref in refs
    ensures FirstIndex(refs + more, ref) == FirstIndex(refs, ref) < |refs|
  {
    if refs[0] != ref {
      assert (refs + more)[1..] == refs[1..] + more;
      FirstIndexStays(refs[1..], more, ref);
    }
  }

  lemma {:induction false} FirstIndexOfNew(refs: seq<string>, ref: string)
    requires ref !in refs
    ensures FirstIndex(refs + [ref], ref) == |refs|
  {
    if refs != [] {
      assert (refs + [ref])[1..] == refs[1..] + [ref];
      FirstIndexOfNew(refs[1..], ref);
    }
  }

  /** Exactly the unresolved references that were met, each once, in the order in which they were first met. */
  ghost predicate ExactReport(host: Host, doc: Json, refs: seq<string>, report: seq<string>) {
    && (forall ref :: ref in report <==> ref in refs && IsLocal(ref) && !Resolves(host, doc, ref))
    && (forall i, j :: 0 <= i < j < |report| ==> FirstIndex(refs, report[i]) < FirstIndex(refs, report[j]))
  }

  lemma {:induction false} ReportIsExact(host: Host, doc: Json, refs: seq<string>)
    ensures ExactReport(host, doc, refs, Reported(host, doc, refs))
    decreases |refs|
  {
    if refs != [] {
      var past, ref := refs[..|refs| - 1], refs[|refs| - 1];
      assert refs == past + [ref];
      ReportIsExact(host, doc, past);
      ReportStep(host, doc, past, ref, Reported(host, doc, past));
    }
  }

  lemma ReportStep(host: Host, doc: Json, past: seq<string>, ref: string, before: seq<string>)
    requires ExactReport(host, doc, past, before)
    ensures var news := if ref !in past && IsLocal(ref) && !Resolves(host, doc, ref) then [ref] else [];
            ExactReport(host, doc, past + [ref], before + news)
  {
    var news := if ref !in past && IsLocal(ref) && !Resolves(host, doc, ref) then [ref] else [];
    var refs, report := past + [ref], before + news;
    forall i | 0 <= i < |report|
      ensures report[i] in refs
      ensures FirstIndex(refs, report[i]) == if i < |before| then FirstIndex(past, before[i]) else |past|
      ensures i < |before| ==> before[i] in past && FirstIndex(past, before[i]) < |past|
    {
      if i < |before| {
        assert before[i] in before;
        FirstIndexStays(past, [ref], before[i]);
      } else {
        FirstIndexOfNew(past, ref);
      }
    }
  }

  /** Keys are unique in every object, as in any parsed document. */
  predicate UniqueKeys(node: Json)
    decreases node
  {
    match node
    case JArray(items) => forall i :: 0 <= i < |items| ==> UniqueKeys(items[i])
    case JObject(fields) =>
      && (forall i, j :: 0 <= i < j < |fields| ==> fields[i].key != fields[j].key)
      && (forall i :: 0 <= i < |fields| ==> UniqueKeys(fields[i].value))
    case _ => true
  }

  lemma {:induction false} FieldsHoldRefs(fields: seq<Field>, ref: string)
    ensures ref in RefsOfFields(fields) <==> exists i :: 0 <= i < |fields| && ref in RefsOfField(fields[i])
  {
    if fields != [] {
      FieldsHoldRefs(fields[1..], ref);
      if i :| 0 <= i < |fields[1..]| && ref in RefsOfField(fields[1..][i]) {
        assert fields[i + 1] == fields[1..][i];
      }
      forall i | 0 < i < |fields| && ref in RefsOfField(fields[i])
        ensures ref in RefsOfFields(fields[1..])
      {
        assert fields[1..][i - 1] == fields[i];
      }
    }
  }

  lemma {:induction false} ItemsHoldRefs(items: seq<Json>, ref: string)
    ensures ref in RefsOfItems(items) <==> exists i :: 0 <= i < |items| && ref in AllRefs(items[i])
  {
    if items != [] {
      ItemsHoldRefs(items[1..], ref);
      if i :| 0 <= i < |items[1..]| && ref in AllRefs(items[1..][i]) {
        assert items[i + 1] == items[1..][i];
      }
      forall i | 0 < i < |items| && ref in AllRefs(items[i])
        ensures ref in RefsOfItems(items[1..])
      {
        assert items[1..][i - 1] == items[i];
      }
    }
  }

  lemma {:induction false} FieldIsFound(fields: seq<Field>, i: nat)
    requires i < |fields|
    requires forall j, k :: 0 <= j < k < |fields| ==> fields[j].key != fields[k].key
    ensures FindField(fields, fields[i].key) == Some(fields[i].value)
  {
    if i > 0 {
      assert fields[0].key != fields[i].key;
      FieldIsFound(fields[1..], i - 1);
    }
  }

  lemma {:induction false} FoundIsField(fields: seq<Field>, key: string) returns (i: nat)
    requires FindField(fields, key).Some?
    ensures i < |fields| && fields[i] == Field(key, FindField(fields, key).value)
  {
    if fields[0].key == key {
      i := 0;
    } else {
      i := FoundIsField(fields[1..], key);
      i := i + 1;
    }
  }

  /** A path that ends in a "$ref" member holding the reference. */
  ghost predicate RefAt(node: Json, path: seq<string>, ref: string) {
    path != [] && path[|path| - 1] == "$ref" && Evaluate(node, path) == Some(JString(ref))
  }

  lemma {:induction false} RefHasPath(node: Json, ref: string) returns (path: seq<string>)
    requires UniqueKeys(node) && ref in AllRefs(node)
    ensures IsLocal(ref) && RefAt(node, path, ref)
    decreases node
  {
    if node.JArray? {
      ItemsHoldRefs(node.items, ref);
      var i :| 0 <= i < |node.items| && ref in AllRefs(node.items[i]);
      var rest := RefHasPath(node.items[i], ref);
      DecimalIsIndex(i);
      path := [Decimal(i)] + rest;
      assert path[1..] == rest;
    } else {
      FieldsHoldRefs(node.fields, ref);
      var i :| 0 <= i < |node.fields| && ref in RefsOfField(node.fields[i]);
      var f := node.fields[i];
      FieldIsFound(node.fields, i);
      if IsLocalRef(f) {
        path := ["$ref"];
        assert Evaluate(f.value, path[1..]) == Some(f.value);
      } else {
        var rest := RefHasPath(f.value, ref);
        path := [f.key] + rest;
        assert path[1..] == rest;
      }
    }
  }

  lemma {:induction false} PathHoldsRef(node: Json, path: seq<string>, ref: string)
    requires RefAt(node, path, ref) && IsLocal(ref)
    ensures ref in AllRefs(node)
    decreases |path|
  {
    var child := Member(node, path[0]).value;
    if |path| > 1 {
      assert path[1..][|path[1..]| - 1] == "$ref";
      PathHoldsRef(child, path[1..], ref);
    }
    if node.JArray? {
      var i := IndexValue(path[0]);
      ItemsHoldRefs(node.items, ref);
      assert node.items[i] == child;
    } else {
      var i := FoundIsField(node.fields, path[0]);
      FieldsHoldRefs(node.fields, ref);
      if |path| == 1 {
        assert Evaluate(child, path[1..]) == Some(child);
      } else {
        assert Member(child, path[1]).Some?;
      }
      assert ref in RefsOfField(node.fields[i]);
    }
  }

  /** The walk meets every local reference: those that some JSON Pointer ending in "$ref" leads to, anywhere. */
  lemma AllRefsAreMet(doc: Json, ref: string)
    requires UniqueKeys(doc)
    ensures ref in AllRefs(doc) <==> IsLocal(ref) && exists path :: RefAt(doc, path, ref)
  {
    if ref in AllRefs(doc) {
      var path := RefHasPath(doc, ref);
    }
    if path :| IsLocal(ref) && RefAt(doc, path, ref) {
      PathHoldsRef(doc, path, ref);
    }
  }

  /**
   * The returned list is exact: a string is in it if and only if it is a local reference that occurs somewhere in the
   * document and does not resolve; there are no duplicates, and the order is that of first occurrence.
   */
  lemma ValidationIsExact(host: Host, doc: Json)
    requires UniqueKeys(doc)
    ensures var report := Reported(host, doc, AllRefs(doc));
            && (forall ref :: ref in report <==>
                  IsLocal(ref) && (exists path :: RefAt(doc, path, ref)) && !Resolves(host, doc, ref))
            && (forall i, j :: 0 <= i < j < |report| ==> report[i] != report[j])
            && (forall i, j :: 0 <= i < j < |report| ==>
                  report[i] in AllRefs(doc) && report[j] in AllRefs(doc)
                  && FirstIndex(AllRefs(doc), report[i]) < FirstIndex(AllRefs(doc), report[j]))
  {
    ReportIsExact(host, doc, AllRefs(doc));
    forall ref
      ensures ref in AllRefs(doc) <==> IsLocal(ref) && exists path :: RefAt(doc, path, ref)
    {
      AllRefsAreMet(doc, ref);
    }
    var report := Reported(host, doc, AllRefs(doc));
    assert forall i :: 0 <= i < |report| ==> report[i] in report;
  }

  /** Nothing that RFC 6901 resolves is reported, and what it does not resolve is, unless it ends in a host name. */
  lemma ReportAgainstRfc(host: Host, doc: Json, ref: string)
    requires ref in AllRefs(doc) && IsLocal(ref)
    ensures var path := Segments(ref);
            && (Evaluate(doc, path).Some? ==> ref !in Reported(host, doc, AllRefs(doc)))
            && (path[|path| - 1] !in HostNames(host) ==>
                  (ref in Reported(host, doc, AllRefs(doc)) <==> Evaluate(doc, path) == None))
  {
    var path := Segments(ref);
    ReportIsExact(host, doc, AllRefs(doc));
    if Evaluate(doc, path).Some? {
      ResolvableIsResolved(host, doc, path);
    }
    if path[|path| - 1] !in HostNames(host) {
      FollowIsEvaluate(host, doc, path);
    }
  }

  // ---------------------------------------------------------------- document order

  /** A place in the document: which child to descend to, step by step. */
  type Place = seq<nat>

  function Unnamed(items: seq<Json>): (fields: seq<Field>)
    ensures |fields| == |items|
    ensures forall i :: 0 <= i < |items| ==> fields[i] == Field("", items[i])
  {
    if items == [] then [] else [Field("", items[0])] + Unnamed(items[1..])
  }

  /** The children of a node as they stand in the document; array elements have no name. */
  function Children(node: Json): seq<Field> {
    match node
    case JArray(items) => Unnamed(items)
    case JObject(fields) => fields
    case _ => []
  }

  /** At the place there is a field "$ref" that holds this local reference. */
  predicate Stands(node: Json, place: Place, ref: string)
    decreases |place|
  {
    && place != [] && place[0] < |Children(node)|
    && var f := Children(node)[place[0]];
       if |place| == 1 then f == Field("$ref", JString(ref)) && "#/" <= ref
       else !IsLocalRef(f) && Stands(f.value, place[1..], ref)
  }

  /** Earlier in the document: where the two places part, the one goes to an earlier child. */
  predicate Before(p: Place, q: Place)
    decreases |p|
  {
    p != [] && q != [] && (p[0] < q[0] || (p[0] == q[0] && Before(p[1..], q[1..])))
  }

  /** The references met in the children from i on. */
  function RefsFrom(children: seq<Field>, i: nat): seq<string>
    requires i <= |children|
    decreases |children| - i
  {
    if i == |children| then [] else RefsOfField(children[i]) + RefsFrom(children, i + 1)
  }

  lemma {:induction false} RefsFromIsSuffix(fields: seq<Field>, i: nat)
    requires i <= |fields|
    ensures RefsFrom(fields, i) == RefsOfFields(fields[i..])
    decreases |fields| - i
  {
    if i < |fields| {
      RefsFromIsSuffix(fields, i + 1);
      assert fields[i..][0] == fields[i] && fields[i..][1..] == fields[i + 1..];
    }
  }

  lemma {:induction false} RefsFromItems(items: seq<Json>, i: nat)
    requires i <= |items|
    ensures RefsFrom(Unnamed(items), i) == RefsOfItems(items[i..])
    decreases |items| - i
  {
    if i < |items| {
      RefsFromItems(items, i + 1);
      assert items[i..][0] == items[i] && items[i..][1..] == items[i + 1..];
      assert RefsOfField(Unnamed(items)[i]) == AllRefs(items[i]);
    }
  }

  lemma AllRefsAreFromChildren(node: Json)
    ensures AllRefs(node) == RefsFrom(Children(node), 0)
  {
    match node {
      case JArray(items) =>
        RefsFromItems(items, 0);
        assert items[0..] == items;
      case JObject(fields) =>
        RefsFromIsSuffix(fields, 0);
        assert fields[0..] == fields;
      case _ =>
    }
  }

  lemma {:induction false} MetStands(node: Json, i: nat, ref: string) returns (place: Place)
    requires i <= |Children(node)| && ref in RefsFrom(Children(node), i)
    ensures Stands(node, place, ref) && place[0] >= i
    decreases node, |Children(node)| - i
  {
    var f := Children(node)[i];
    if ref !in RefsOfField(f) {
      place := MetStands(node, i + 1, ref);
    } else if IsLocalRef(f) {
      place := [i];
    } else {
      AllRefsAreFromChildren(f.value);
      var rest := MetStands(f.value, 0, ref);
      place := [i] + rest;
      assert place[1..] == rest;
    }
  }

  lemma {:induction false} StandingIsMet(node: Json, place: Place, ref: string)
    requires Stands(node, place, ref)
    ensures ref in RefsOfField(Children(node)[place[0]])
    decreases |place|
  {
    if |place| > 1 {
      var f := Children(node)[place[0]];
      StandingIsMet(f.value, place[1..], ref);
      AllRefsAreFromChildren(f.value);
      FieldRefsAreFrom(Children(f.value), 0, place[1], ref);
    }
  }

  lemma {:induction false} FieldRefsAreFrom(children: seq<Field>, i: nat, k: nat, ref: string)
    requires i <= k < |children| && ref in RefsOfField(children[k])
    ensures ref in RefsFrom(children, i)
    decreases k - i
  {
    if i < k {
      FieldRefsAreFrom(children, i + 1, k, ref);
    }
  }

  ghost predicate StandsSomewhere(node: Json, ref: string) {
    exists place: Place :: Stands(node, place, ref)
  }

  lemma StandingIsInAllRefs(node: Json, place: Place, ref: string)
    requires Stands(node, place, ref)
    ensures ref in AllRefs(node)
  {
    AllRefsAreFromChildren(node);
    StandingIsMet(node, place, ref);
    FieldRefsAreFrom(Children(node), 0, place[0], ref);
  }

  /** The walk meets exactly the references that stand somewhere. */
  lemma MetExactlyWhereTheyStand(node: Json, ref: string)
    ensures ref in AllRefs(node) <==> StandsSomewhere(node, ref)
  {
    if ref in AllRefs(node) {
      AllRefsAreFromChildren(node);
      var place := MetStands(node, 0, ref);
      assert StandsSomewhere(node, ref);
    } else if StandsSomewhere(node, ref) {
      var place: Place :| Stands(node, place, ref);
      StandingIsInAllRefs(node, place, ref);
    }
  }

  lemma {:induction false} FirstIndexSkips(refs: seq<string>, more: seq<string>, ref: string)
    requires ref !in refs && ref in more
    ensures FirstIndex(refs + more, ref) == |refs| + FirstIndex(more, ref)
  {
    if refs == [] {
      assert refs + more == more;
    } else {
      assert (refs + more)[1..] == refs[1..] + more;
      FirstIndexSkips(refs[1..], more, ref);
    }
  }

  /** The place comes before every place of y in the children from i on. */
  ghost predicate Precedes(node: Json, i: nat, p: Place, y: string) {
    forall q: Place :: Stands(node, q, y) && q[0] >= i ==> Before(p, q)
  }

  lemma PrecedesSkipped(node: Json, i: nat, p: Place, y: string)
    requires i < |Children(node)| && y !in RefsOfField(Children(node)[i]) && Precedes(node, i + 1, p, y)
    ensures Precedes(node, i, p, y)
  {
    forall q: Place | Stands(node, q, y) && q[0] >= i
      ensures Before(p, q)
    {
      StandingIsMet(node, q, y);
    }
  }

  lemma PrecedesLaterChildren(node: Json, i: nat, p: Place, y: string)
    requires i < |Children(node)| && y !in RefsOfField(Children(node)[i]) && p != [] && p[0] == i
    ensures Precedes(node, i, p, y)
  {
    forall q: Place | Stands(node, q, y) && q[0] >= i
      ensures Before(p, q)
    {
      StandingIsMet(node, q, y);
    }
  }

  lemma PrecedesInChild(node: Json, i: nat, p: Place, y: string)
    requires i < |Children(node)| && !IsLocalRef(Children(node)[i]) && Precedes(Children(node)[i].value, 0, p, y)
    ensures Precedes(node, i, [i] + p, y)
  {
    assert ([i] + p)[1..] == p;
    forall q: Place | Stands(node, q, y) && q[0] >= i
      ensures Before([i] + p, q)
    {
      if q[0] == i {
        assert Stands(Children(node)[i].value, q[1..], y);
      }
    }
  }

  /** A reference met before another for the first time has a place before every place of the other. */
  lemma {:induction false} FirstMetStandsFirst(node: Json, i: nat, x: string, y: string) returns (p: Place)
    requires i <= |Children(node)| && x in RefsFrom(Children(node), i) && y in RefsFrom(Children(node), i)
    requires FirstIndex(RefsFrom(Children(node), i), x) < FirstIndex(RefsFrom(Children(node), i), y)
    ensures Stands(node, p, x) && p[0] >= i && Precedes(node, i, p, y)
    decreases node, |Children(node)| - i
  {
    var f := Children(node)[i];
    var here, rest := RefsOfField(f), RefsFrom(Children(node), i + 1);
    if x !in here {
      FirstIndexSkips(here, rest, x);
      if y in here {
        FirstIndexStays(here, rest, y);
        assert false;
      }
      FirstIndexSkips(here, rest, y);
      p := FirstMetStandsFirst(node, i + 1, x, y);
      PrecedesSkipped(node, i, p, y);
    } else if y !in here {
      p := PlaceInField(node, i, x);
      PrecedesLaterChildren(node, i, p, y);
    } else {
      FirstIndexStays(here, rest, x);
      FirstIndexStays(here, rest, y);
      AllRefsAreFromChildren(f.value);
      var p' := FirstMetStandsFirst(f.value, 0, x, y);
      p := [i] + p';
      assert p[1..] == p';
      PrecedesInChild(node, i, p', y);
    }
  }

  lemma PlaceInField(node: Json, i: nat, ref: string) returns (p: Place)
    requires i < |Children(node)| && ref in RefsOfField(Children(node)[i])
    ensures Stands(node, p, ref) && p[0] == i
  {
    var f := Children(node)[i];
    if IsLocalRef(f) {
      p := [i];
    } else {
      AllRefsAreFromChildren(f.value);
      var rest := MetStands(f.value, 0, ref);
      p := [i] + rest;
      assert p[1..] == rest;
    }
  }

  /** The report against the document itself: it holds exactly what stands somewhere and does not resolve. */
  lemma ReportHoldsWhatStands(host: Host, doc: Json, ref: string)
    ensures ref in Reported(host, doc, AllRefs(doc))
            <==> StandsSomewhere(doc, ref) && IsLocal(ref) && !Resolves(host, doc, ref)
  {
    ReportIsExact(host, doc, AllRefs(doc));
    MetExactlyWhereTheyStand(doc, ref);
  }

  /** And it is in document order: of two reported references the earlier has a place before all places of the later. */
  lemma ReportIsInDocumentOrder(host: Host, doc: Json, i: nat, j: nat) returns (p: Place)
    requires i < j < |Reported(host, doc, AllRefs(doc))|
    ensures var report := Reported(host, doc, AllRefs(doc));
            Stands(doc, p, report[i]) && forall q: Place :: Stands(doc, q, report[j]) ==> Before(p, q)
  {
    var report := Reported(host, doc, AllRefs(doc));
    ReportIsExact(host, doc, AllRefs(doc));
    AllRefsAreFromChildren(doc);
    assert report[i] in report && report[j] in report;
    p := FirstMetStandsFirst(doc, 0, report[i], report[j]);
    assert Precedes(doc, 0, p, report[j]);
  }
}
