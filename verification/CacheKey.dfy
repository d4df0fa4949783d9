/** The cache key of src/compiler/IncrementalCompiler.ts: a printed string that must not confuse two sources. */
module CacheKey {
  import opened Options

  /** The fields of ISource that the key depends on. */
  datatype Source = Source(source: string, kind: Option<string>, transformations: Option<seq<string>>)

  function Kind(s: Source): string {
    s.kind.GetOr("adblock")
  }

  function Transformations(s: Source): seq<string> {
    s.transformations.GetOr([])
  }

  /** Array.prototype.join(','). */
  function Join(names: seq<string>): string {
    if names == [] then ""
    else if |names| == 1 then names[0]
    else names[0] + "," + Join(names[1..])
  }

  function Key(s: Source): string {
    "source:" + s.source + ":" + Kind(s) + ":" + Join(Transformations(s))
  }

  /** Names that are non-empty and hold neither the separator nor a comma. */
  predicate Separable(names: seq<string>, sep: char) {
    forall i :: 0 <= i < |names| ==> names[i] != "" && sep !in names[i] && ',' !in names[i]
  }

  /** Type names have no ':'; transformation names are non-empty and have neither ':' nor ','. */
  predicate WellNamed(s: Source) {
    && ':' !in Kind(s)
    && Separable(Transformations(s), ':')
  }

  /** What a key stands for: an absent type counts as adblock, absent transformations as none. */
  predicate SameIdentity(s: Source, t: Source) {
    s.source == t.source && Kind(s) == Kind(t) && Transformations(s) == Transformations(t)
  }

  lemma SplitAtFirst(a: string, b: string, c: string, d: string, sep: char)
    requires sep !in a && sep !in c && a + [sep] + b == c + [sep] + d
    ensures a == c && b == d
  {
    var x, y := a + [sep] + b, c + [sep] + d;
    assert x[|a|] == sep && y[|c|] == sep;
    assert a == x[..|a|] && c == y[..|c|];
    assert b == x[|a| + 1..] && d == y[|c| + 1..];
  }

  lemma SplitAtLast(a: string, b: string, c: string, d: string, sep: char)
    requires sep !in b && sep !in d && a + [sep] + b == c + [sep] + d
    ensures a == c && b == d
  {
    var x, y := a + [sep] + b, c + [sep] + d;
    assert x[|a|] == sep && y[|c|] == sep;
    assert a == x[..|a|] && c == y[..|c|];
    assert b == x[|a| + 1..] && d == y[|c| + 1..];
  }

  lemma {:induction false} JoinKeepsOut(names: seq<string>, sep: char)
    requires Separable(names, sep) && sep != ','
    ensures sep !in Join(names)
  {
    if |names| > 1 {
      JoinKeepsOut(names[1..], sep);
    }
  }

  /** The joined text shows whether there was no name, one name or several. */
  lemma JoinShape(names: seq<string>)
    requires Separable(names, ',')
    ensures Join(names) == "" <==> names == []
    ensures ',' in Join(names) <==> |names| > 1
  {
    if names != [] {
      assert |names| > 1 ==> Join(names)[|names[0]|] == ',';
    }
  }

  lemma {:induction false} JoinIsInjective(xs: seq<string>, ys: seq<string>)
    requires Separable(xs, ',') && Separable(ys, ',') && Join(xs) == Join(ys)
    ensures xs == ys
  {
    JoinShape(xs);
    JoinShape(ys);
    if |xs| > 1 {
      SplitAtFirst(xs[0], Join(xs[1..]), ys[0], Join(ys[1..]), ',');
      JoinIsInjective(xs[1..], ys[1..]);
      assert xs == [xs[0]] + xs[1..] && ys == [ys[0]] + ys[1..];
    }
  }

  /** The key is injective, for arbitrary source strings, including ones that contain colons. */
  lemma KeyIsInjective(s: Source, t: Source)
    requires WellNamed(s) && WellNamed(t)
    ensures Key(s) == Key(t) <==> SameIdentity(s, t)
  {
    if Key(s) == Key(t) {
      var js, jt := Join(Transformations(s)), Join(Transformations(t));
      JoinKeepsOut(Transformations(s), ':');
      JoinKeepsOut(Transformations(t), ':');
      var ls, lt := "source:" + s.source + ":" + Kind(s), "source:" + t.source + ":" + Kind(t);
      SplitAtLast(ls, js, lt, jt, ':');
      SplitAtLast("source:" + s.source, Kind(s), "source:" + t.source, Kind(t), ':');
      assert s.source == ("source:" + s.source)[7..] && t.source == ("source:" + t.source)[7..];
      JoinIsInjective(Transformations(s), Transformations(t));
    }
  }

  /** The naming hypothesis is needed: a colon in a type name, which no SourceType has, would let two sources collide. */
  lemma ColonInTypeNameCollides()
    ensures var s := Source("a", Some("b:c"), None); var t := Source("a:b", Some("c"), None);
            Key(s) == Key(t) && !SameIdentity(s, t)
  {
  }

  /** An absent type stands for adblock and absent transformations for none, and for nothing else. */
  lemma AbsentMeansDefault(s: Source)
    ensures Key(s.(kind := None)) == Key(s.(kind := Some("adblock")))
    ensures Key(s.(transformations := None)) == Key(s.(transformations := Some([])))
    ensures s.kind.Some? && WellNamed(s) && Key(s) == Key(s.(kind := None)) ==> s.kind == Some("adblock")
  {
    if s.kind.Some? && WellNamed(s) && Key(s) == Key(s.(kind := None)) {
      KeyIsInjective(s, s.(kind := None));
    }
  }

  /** The text of a key, for a source with a type and two transformations. */
  lemma KeyText(source: string, kind: string, x: string, y: string)
    ensures Key(Source(source, Some(kind), Some([x, y]))) == "source:" + source + ":" + kind + ":" + x + "," + y
    ensures Key(Source(source, None, None)) == "source:" + source + ":adblock:"
  {
    assert [x, y][1..] == [y];
    assert Join([x, y]) == x + "," + y;
  }
}
