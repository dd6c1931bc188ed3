/**
 Byte and bit-field operations of common_defs.h, on unbounded naturals.

 A bit field n..m of a word is named here by its place value 2^m and its range
 2^(n-m+1), so that every use has constant divisors.
 */
module CommonDefs {

  type byte = x: int | 0 <= x < 0x100

  type bytes = seq<byte>

  datatype Option<+T> = None | Some(value: T)

  function Min(x: int, y: int): int {
    if x <= y then x else y
  }

  /** BITS(n, m, x) with place = 2^m and range = 2^(n-m+1). */
  function Bits(x: nat, place: nat, range: nat): (r: nat)
    requires place > 0 && range > 0
    ensures r < range
  {
    x / place % range
  }

  /** MODIFY_BITS(n, m, x, v): the field is cleared, then set to v masked to its width. */
  function ModifyBits(x: nat, place: nat, range: nat, v: nat): int
    requires place > 0 && range > 0
  {
    x - Bits(x, place, range) * place + v % range * place
  }

  lemma MulDistributes(a: int, b: int, d: int)
    ensures (a - b) * d == a * d - b * d
  {
  }

  lemma MulAtLeast(k: int, d: int)
    requires k >= 1 && d >= 0
    ensures k * d >= d
  {
  }

  lemma QuotientUnique(d: nat, q: int, r: int, q': int, r': int)
    requires q * d + r == q' * d + r' && 0 <= r < d && 0 <= r' < d
    ensures q == q' && r == r'
  {
    if q > q' {
      MulDistributes(q, q', d);
      MulAtLeast(q - q', d);
    } else if q < q' {
      MulDistributes(q', q, d);
      MulAtLeast(q' - q, d);
    }
  }

  lemma DivModUnique(q: nat, d: nat, r: nat)
    requires r < d
    ensures q * d + r >= 0
    ensures (q * d + r) / d == q && (q * d + r) % d == r
  {
    var x := q * d + r;
    QuotientUnique(d, q, r, x / d, x % d);
  }

  /** Setting a field of a word whose lower bits are still clear. */
  lemma ModifyBitsAppends(x: nat, high: nat, place: nat, range: nat, v: nat)
    requires place > 0 && v < range && x == high * range * place
    ensures ModifyBits(x, place, range, v) == (high * range + v) * place
  {
    DivModUnique(high * range, place, 0);
    DivModUnique(high, range, 0);
    assert v % range == v by { DivModUnique(0, range, v); }
  }

  /** A value too wide for its field is masked. */
  lemma ModifyBitsMasks(x: nat, place: nat, range: nat, v: nat)
    requires place > 0 && range > 0
    ensures ModifyBits(x, place, range, v) == ModifyBits(x, place, range, v % range)
  {
    DivModUnique(0, range, v % range);
  }

  /** Reading a field back, whatever is above and below it. */
  lemma BitsOfField(x: nat, high: nat, place: nat, range: nat, v: nat, low: nat)
    requires low < place && v < range && x == (high * range + v) * place + low
    ensures Bits(x, place, range) == v
  {
    DivModUnique(high * range + v, place, low);
    DivModUnique(high, range, v);
  }

  /**
   Quotient and remainder by repeated subtraction. They equal / and % (lemma QuotRemIsDivMod); the wire
   format is written with them so that proofs use the lemmas below instead of nonlinear arithmetic.
   */
  function Quot(x: nat, d: nat): nat
    requires d > 0
  {
    if x < d then 0 else 1 + Quot(x - d, d)
  }

  function Rem(x: nat, d: nat): (r: nat)
    requires d > 0
    ensures r < d
  {
    if x < d then x else Rem(x - d, d)
  }

  lemma {:induction false} QuotRemUnique(q: nat, d: nat, r: nat, x: nat)
    requires r < d && x == q * d + r
    ensures Quot(x, d) == q && Rem(x, d) == r
    decreases q
  {
    if q == 0 {
    } else {
      MulDistributes(q, 1, d);
      MulAtLeast(q, d);
      QuotRemUnique(q - 1, d, r, x - d);
    }
  }

  lemma QuotRemIsDivMod(x: nat, d: nat)
    requires d > 0
    ensures Quot(x, d) == x / d && Rem(x, d) == x % d
    ensures x == Quot(x, d) * d + Rem(x, d)
  {
    QuotRemUnique(x / d, d, x % d, x);
  }

  /** The n low-order bytes of v, most significant first (STORE_n_BYTES). */
  function Store(n: nat, v: nat): (b: bytes)
    ensures |b| == n
  {
    if n == 0 then [] else Store(n - 1, Quot(v, 0x100)) + [Rem(v, 0x100)]
  }

  /** The big-endian value of a byte string (CONVERT_n_BYTES). */
  function Convert(b: bytes): nat {
    if b == [] then 0 else Convert(b[..|b| - 1]) * 0x100 + b[|b| - 1] as int
  }

  function Pow256(n: nat): (p: nat)
    ensures p > 0
  {
    if n == 0 then 1 else 0x100 * Pow256(n - 1)
  }

  /** Reading back what was stored gives the value, if it fits. */
  lemma {:induction false} StoreConvert(n: nat, v: nat)
    requires v < Pow256(n)
    ensures Convert(Store(n, v)) == v
  {
    if n == 0 {
    } else {
      QuotRemIsDivMod(v, 0x100);
      StoreConvert(n - 1, Quot(v, 0x100));
      var b := Store(n, v);
      assert b[..|b| - 1] == Store(n - 1, Quot(v, 0x100));
    }
  }

  /** Only the low-order bytes count. */
  lemma {:induction false} StoreWraps(n: nat, v: nat, k: nat)
    ensures Store(n, v + k * Pow256(n)) == Store(n, v)
  {
    if n == 0 {
    } else {
      var q, rest := Quot(v, 0x100), Rem(v, 0x100);
      var high := k * Pow256(n - 1);
      QuotRemIsDivMod(v, 0x100);
      assert k * Pow256(n) == high * 0x100;
      assert (q + high) * 0x100 == q * 0x100 + high * 0x100;
      QuotRemUnique(q + high, 0x100, rest, v + k * Pow256(n));
      StoreWraps(n - 1, q, k);
    }
  }

  lemma {:induction false} ConvertBound(b: bytes)
    ensures Convert(b) < Pow256(|b|)
  {
    if b == [] {
    } else {
      ConvertBound(b[..|b| - 1]);
    }
  }

  /** The C string held in a buffer: everything before the first zero byte. */
  function CString(s: bytes): (r: bytes)
    ensures r <= s && (forall i :: 0 <= i < |r| ==> r[i] != 0)
    ensures |r| < |s| ==> s[|r|] == 0
  {
    if s == [] || s[0] == 0 then [] else [s[0]] + CString(s[1..])
  }

  function Take(s: bytes, n: nat): (r: bytes)
    ensures r <= s && |r| <= n
  {
    if |s| <= n then s else s[..n]
  }

  // Facts about byte strings, stated once so that larger proofs need no extensionality.

  lemma ConcatAssoc(a: bytes, b: bytes, c: bytes)
    ensures a + b + c == a + (b + c)
  {
  }

  lemma DropDrop(s: bytes, i: nat, j: nat)
    requires i + j <= |s|
    ensures s[i..][j..] == s[i + j..] && s[i..][..j] == s[i..i + j]
  {
  }

  lemma ConvertOne(b: byte)
    ensures Convert([b]) == b
  {
    assert [b][..0] == [];
  }

  predicate Increasing(idx: seq<nat>) {
    forall i, j :: 0 <= i < j < |idx| ==> idx[i] < idx[j]
  }
}
