/** The fallback hash loop of src/compiler/IncrementalCompiler.ts, with JavaScript's 32-bit integer operators. */
module ContentHash {
  const TWO_32 := 0x1_0000_0000

  /** ToInt32: reduce modulo 2^32 into the signed range. */
  function ToInt32(x: int): (r: int)
    ensures -0x8000_0000 <= r < 0x8000_0000
    ensures (x - r) % TWO_32 == 0
  {
    (x + 0x8000_0000) % TWO_32 - 0x8000_0000
  }

  /** One UTF-16 code unit of a JavaScript string. */
  type CodeUnit = c: int | 0 <= c < 0x1_0000

  function Pow31(n: nat): nat {
    if n == 0 then 1 else 31 * Pow31(n - 1)
  }

  /** The sum of content[i] * 31^(n-1-i) over the whole string, with no wrap-around. */
  function Polynomial(content: seq<CodeUnit>): nat {
    if content == [] then 0 else content[0] * Pow31(|content| - 1) + Polynomial(content[1..])
  }

  lemma {:induction false} PolynomialAppends(content: seq<CodeUnit>, c: CodeUnit)
    ensures Polynomial(content + [c]) == 31 * Polynomial(content) + c
  {
    var longer := content + [c];
    if content == [] {
      assert longer[1..] == [];
      assert Pow31(0) == 1;
    } else {
      assert longer[1..] == content[1..] + [c];
      PolynomialAppends(content[1..], c);
      var p := Pow31(|content| - 1);
      assert Pow31(|content|) == 31 * p;
      assert content[0] * (31 * p) == 31 * (content[0] * p);
    }
  }

  lemma Congruent(x: int, y: int)
    requires (x - y) % TWO_32 == 0
    ensures ToInt32(x) == ToInt32(y)
  {
    var q := (x - y) / TWO_32;
    assert x + 0x8000_0000 == y + 0x8000_0000 + q * TWO_32;
    assert (y + 0x8000_0000 + q * TWO_32) % TWO_32 == (y + 0x8000_0000) % TWO_32;
  }

  /** hash << 5, minus hash, plus the code unit, masked again: one turn of the loop. */
  lemma TurnIsHorner(x: int, c: CodeUnit)
    ensures var hash := ToInt32(x); ToInt32((ToInt32(hash * 32) - hash) + c) == ToInt32(31 * x + c)
  {
    var hash := ToInt32(x);
    var next := (ToInt32(hash * 32) - hash) + c;
    var p, q := (hash * 32 - ToInt32(hash * 32)) / TWO_32, (x - hash) / TWO_32;
    assert hash * 32 - ToInt32(hash * 32) == p * TWO_32 && x - hash == q * TWO_32;
    assert 31 * x + c - next == (31 * q + p) * TWO_32;
    assert ((31 * q + p) * TWO_32) % TWO_32 == 0;
    Congruent(31 * x + c, next);
  }

  /** Math.abs of the polynomial reduced into 32 bits; the absolute value of the least integer is 2^31. */
  function Magnitude(content: seq<CodeUnit>): (m: nat)
    ensures m <= 0x8000_0000
  {
    var h := ToInt32(Polynomial(content));
    if h < 0 then -h else h
  }

  /** The loop computes the polynomial reduced into 32 bits, so its printed magnitude is at most 2^31. */
  method FallbackHash(content: seq<CodeUnit>) returns (magnitude: nat)
    ensures magnitude == Magnitude(content) <= 0x8000_0000
  {
    var hash := 0;
    var i := 0;
    while i < |content|
      invariant 0 <= i <= |content|
      invariant hash == ToInt32(Polynomial(content[..i]))
    {
      var unit := content[i];
      TurnIsHorner(Polynomial(content[..i]), unit);
      PolynomialAppends(content[..i], unit);
      assert content[..i + 1] == content[..i] + [unit];
      hash := (ToInt32(hash * 32) - hash) + unit;
      hash := ToInt32(hash);
      i := i + 1;
    }
    assert content[..i] == content;
    magnitude := if hash < 0 then -hash else hash;
  }

  /** The printed magnitude in closed form: the polynomial modulo 2^32, folded at 2^31. */
  lemma MagnitudeFolds(content: seq<CodeUnit>)
    ensures var r := Polynomial(content) % 0x1_0000_0000;
            Magnitude(content) == if r < 0x8000_0000 then r else 0x1_0000_0000 - r
  {
    FoldsInt(Polynomial(content));
  }

  lemma FoldsInt(x: nat)
    ensures var r := x % 0x1_0000_0000; ToInt32(x) == if r < 0x8000_0000 then r else r - 0x1_0000_0000
  {
    var r := x % TWO_32;
    assert x - r == TWO_32 * (x / TWO_32);
    assert (x - r) % TWO_32 == 0;
    Congruent(x, r);
  }
}
