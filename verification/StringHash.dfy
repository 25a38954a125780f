/**
 * The 32-bit string hash, three copies of one loop: `hashString` and `hashUserIdToVariant`
 * (src/ab-testing/ab-testing.service.ts) and the search key (src/caching/cache-key.builder.ts).
 */
module StringHash {
  import opened Prelude

  const MODULUS := 0x1_0000_0000
  const HALF := 0x8000_0000

  /** ECMAScript ToInt32 on an integer: what `x | 0`, and `x & x`, yield. */
  function ToInt32(x: int): (r: int)
    ensures -HALF <= r < HALF
  {
    var m := x % MODULUS;
    if m >= HALF then m - MODULUS else m
  }

  /** `x << 5` for a 32-bit `x`. */
  function ShiftLeft5(x: int): int { ToInt32(x * 32) }

  // ---- The reference -----------------------------------------------------

  /** The characters as digits in base 31, most significant first. */
  function Poly31(s: JsString): int {
    if s == [] then 0 else 31 * Poly31(s[..|s| - 1]) + s[|s| - 1]
  }

  function Pow31(n: nat): int { if n == 0 then 1 else 31 * Pow31(n - 1) }

  function Hash(s: JsString): int { ToInt32(Poly31(s)) }

  /** How many multiples of 2^32 wrapping adds. */
  function Wraps(x: int): (k: int)
    ensures ToInt32(x) == x + k * MODULUS
  {
    if x % MODULUS >= HALF then -(x / MODULUS) - 1 else -(x / MODULUS)
  }

  lemma WrapAgain(x: int, k: int)
    ensures ToInt32(x + k * MODULUS) == ToInt32(x)
  {
    assert (x + k * MODULUS) % MODULUS == x % MODULUS;
  }

  /** One turn of the loop on a wrapped hash is one turn of Horner's rule, wrapped. */
  lemma HornerStep(p: int, c: int)
    ensures ToInt32(ShiftLeft5(ToInt32(p)) - ToInt32(p) + c) == ToInt32(31 * p + c)
  {
    var h := ToInt32(p);
    var k, j := Wraps(p), Wraps(h * 32);
    assert ShiftLeft5(h) - h + c == 31 * p + c + (31 * k + j) * MODULUS;
    WrapAgain(31 * p + c, 31 * k + j);
  }

  // ---- The loops ---------------------------------------------------------

  function Abs(x: int): int { if x < 0 then -x else x }

  /** `hashString` */
  method HashString(value: JsString) returns (r: int)
    ensures r == Abs(Hash(value))
  {
    var hash := 0;
    for i := 0 to |value|
      invariant hash == Hash(value[..i])
    {
      HornerStep(Poly31(value[..i]), value[i]);
      assert value[..i + 1][..i] == value[..i];
      hash := ShiftLeft5(hash) - hash + value[i];
      hash := ToInt32(hash);
    }
    assert value[..|value|] == value;
    r := Abs(hash);
  }

  /** `hashUserIdToVariant`; the caller has checked that there are variants. */
  method HashUserIdToVariant(userId: JsString, variantCount: nat) returns (index: nat)
    requires variantCount > 0
    ensures index == Abs(Hash(userId)) % variantCount
    ensures index < variantCount
  {
    var hash := 0;
    for i := 0 to |userId|
      invariant hash == Hash(userId[..i])
    {
      HornerStep(Poly31(userId[..i]), userId[i]);
      assert userId[..i + 1][..i] == userId[..i];
      hash := ShiftLeft5(hash) - hash + userId[i];
      hash := ToInt32(hash);
    }
    assert userId[..|userId|] == userId;
    index := Abs(hash) % variantCount;
  }

  datatype VariantError = NoVariants

  method AssignUserToVariant<V>(variants: seq<V>, userId: JsString) returns (r: Result<V, VariantError>)
    ensures r.Err? <==> variants == []
    ensures r.Ok? ==> r.value == variants[Abs(Hash(userId)) % |variants|]
  {
    if |variants| == 0 { return Err(NoVariants); }
    var index := HashUserIdToVariant(userId, |variants|);
    r := Ok(variants[index]);
  }

  /** The loop of `buildSearchCacheKey`, which keeps the sign. */
  method SearchHash(str: JsString) returns (hash: int)
    ensures hash == Hash(str)
  {
    hash := 0;
    for i := 0 to |str|
      invariant hash == Hash(str[..i])
    {
      HornerStep(Poly31(str[..i]), str[i]);
      assert str[..i + 1][..i] == str[..i];
      hash := ShiftLeft5(hash) - hash + str[i];
      hash := ToInt32(hash);
    }
    assert str[..|str|] == str;
  }

  /** One unit hashes to itself and nothing to 0; with the law for joining, that fixes the hash of every string. */
  lemma OneUnit(c: int)
    requires 0 <= c <= 0xFFFF
    ensures Hash([c]) == c && Hash([]) == 0
  {
    assert [c][..0] == [];
    assert Poly31([c]) == c;
  }

  // ---- Concatenation -----------------------------------------------------

  /** `p` moved up by `n` base-31 digits. */
  function Shifted(p: int, n: nat): int
    decreases n
  {
    if n == 0 then p else 31 * Shifted(p, n - 1)
  }

  lemma {:induction false} ShiftedIsProduct(p: int, n: nat)
    ensures Shifted(p, n) == p * Pow31(n)
  {
    if n > 0 {
      ShiftedIsProduct(p, n - 1);
      assert 31 * (p * Pow31(n - 1)) == p * (31 * Pow31(n - 1));
    }
  }

  lemma {:induction false} ShiftedWraps(p: int, k: int, n: nat)
    ensures Shifted(p + k * MODULUS, n) == Shifted(p, n) + Shifted(k, n) * MODULUS
  {
    if n > 0 { ShiftedWraps(p, k, n - 1); }
  }

  lemma {:induction false} PolyJoins(a: JsString, b: JsString)
    ensures Poly31(a + b) == Shifted(Poly31(a), |b|) + Poly31(b)
    decreases |b|
  {
    if b == [] {
      assert a + b == a;
    } else {
      PolyJoins(a, b[..|b| - 1]);
      assert (a + b)[..|a + b| - 1] == a + b[..|b| - 1];
    }
  }

  /** The hash of a concatenation follows from the two hashes and the second length. */
  lemma HashJoins(a: JsString, b: JsString)
    ensures Hash(a + b) == ToInt32(Shifted(Hash(a), |b|) + Hash(b))
  {
    var p, q, w := Poly31(a), Poly31(b), Poly31(a + b);
    assert w == Shifted(p, |b|) + q by { PolyJoins(a, b); }
    ShiftWrapped(w, p, |b|, q);
  }

  /** The same with the power written out. */
  lemma HashJoinsByPower(a: JsString, b: JsString)
    ensures Hash(a + b) == ToInt32(Hash(a) * Pow31(|b|) + Hash(b))
  {
    assert Hash(a) * Pow31(|b|) == Shifted(Hash(a), |b|) by { ShiftedIsProduct(Hash(a), |b|); }
    assert Hash(a + b) == ToInt32(Shifted(Hash(a), |b|) + Hash(b)) by { HashJoins(a, b); }
  }

  lemma ShiftWrapped(whole: int, p: int, n: nat, q: int)
    requires whole == Shifted(p, n) + q
    ensures ToInt32(whole) == ToInt32(Shifted(ToInt32(p), n) + ToInt32(q))
  {
    var k, j := Wraps(p), Wraps(q);
    ShiftedWraps(p, k, n);
    WrapAgain(Shifted(p, n) + q, Shifted(k, n) + j);
  }

  /** Two strings share a hash exactly when their base-31 numbers agree modulo 2^32. */
  lemma CollideExactly(a: JsString, b: JsString)
    ensures Hash(a) == Hash(b) <==> Poly31(a) % MODULUS == Poly31(b) % MODULUS
  {
    var k, j := Wraps(Poly31(a)), Wraps(Poly31(b));
    assert Hash(a) == Hash(b) ==> Poly31(a) == Poly31(b) + (j - k) * MODULUS;
    assert (Poly31(b) + (j - k) * MODULUS) % MODULUS == Poly31(b) % MODULUS;
  }
}
