/** Bytes, options and the few sequence facts that the protocol modules share. */
module Bytes {

  type byte = x: int | 0 <= x < 256

  datatype Option<+T> = None | Some(value: T)

  const TWO_TO_THE_63: int := 0x8000_0000_0000_0000
  const TWO_TO_THE_64: int := 0x1_0000_0000_0000_0000

  function Min(a: int, b: int): int { if a <= b then a else b }

  function Pow2(k: nat): nat { if k == 0 then 1 else 2 * Pow2(k - 1) }

  /** The bitwise exclusive or of the k low bits of two numbers. */
  function XorBits(a: nat, b: nat, k: nat): (r: nat)
    ensures r < Pow2(k)
  {
    if k == 0 then 0
    else 2 * XorBits(a / 2, b / 2, k - 1) + (if a % 2 == b % 2 then 0 else 1)
  }

  function Xor(a: byte, b: byte): byte {
    assert Pow2(8) == 256 by { assert Pow2(4) == 16; }
    XorBits(a, b, 8)
  }

  /** Bit i of a number, bit 0 being the lowest. */
  predicate Bit(n: nat, i: nat) {
    Pow2Positive(i);
    n / Pow2(i) % 2 == 1
  }

  lemma Pow2Positive(k: nat)
    ensures Pow2(k) > 0
  {
  }

  lemma BitOfHalf(n: nat, i: nat)
    requires i > 0
    ensures Bit(n, i) == Bit(n / 2, i - 1)
  {
    Pow2Positive(i - 1);
    HalfFirst(n, Pow2(i - 1));
  }

  lemma HalfFirst(n: nat, d: nat)
    requires d > 0
    ensures n / (2 * d) == n / 2 / d
  {
    var q := n / 2 / d;
    var r := n / 2 % d;
    assert n == 2 * (q * d + r) + n % 2;
    assert n == q * (2 * d) + (2 * r + n % 2);
    Quotient(n, 2 * d, q, 2 * r + n % 2);
  }

  lemma Quotient(a: nat, n: nat, q: nat, r: nat)
    requires r < n && a == q * n + r
    ensures a / n == q
  {
    var d: int := a / n - q;
    assert a == (a / n) * n + a % n;
    assert d * n == (a / n) * n - q * n;
    assert d >= 1 ==> d * n >= n;
    assert d <= -1 ==> d * n <= 0 - n;
  }

  /** What the exclusive or is: a bit of it is set if and only if exactly one of the two bits is. */
  lemma {:induction false} XorBitsBit(a: nat, b: nat, k: nat, i: nat)
    requires i < k
    ensures Bit(XorBits(a, b, k), i) <==> Bit(a, i) != Bit(b, i)
  {
    var upper := XorBits(a / 2, b / 2, k - 1);
    var x := XorBits(a, b, k);
    assert x / 2 == upper && x % 2 == (if a % 2 == b % 2 then 0 else 1);
    if i == 0 {
      assert Pow2(0) == 1;
    } else {
      BitOfHalf(x, i);
      BitOfHalf(a, i);
      BitOfHalf(b, i);
      XorBitsBit(a / 2, b / 2, k - 1, i - 1);
    }
  }

  lemma XorBit(a: byte, b: byte, i: nat)
    requires i < 8
    ensures Bit(Xor(a, b), i) <==> Bit(a, i) != Bit(b, i)
  {
    XorBitsBit(a, b, 8, i);
  }

  /** Numbers below a power of two are what their bits are. */
  lemma {:induction false} SameBits(a: nat, b: nat, k: nat)
    requires a < Pow2(k) && b < Pow2(k)
    requires forall i :: 0 <= i < k ==> Bit(a, i) == Bit(b, i)
    ensures a == b
  {
    if k > 0 {
      assert Pow2(0) == 1;
      assert Bit(a, 0) == Bit(b, 0);
      forall i | 0 <= i < k - 1 ensures Bit(a / 2, i) == Bit(b / 2, i) {
        BitOfHalf(a, i + 1);
        BitOfHalf(b, i + 1);
      }
      SameBits(a / 2, b / 2, k - 1);
    }
  }

  lemma SameByte(a: byte, b: byte)
    requires forall i :: 0 <= i < 8 ==> Bit(a, i) == Bit(b, i)
    ensures a == b
  {
    assert Pow2(8) == 256 by { assert Pow2(4) == 16; }
    SameBits(a, b, 8);
  }

  lemma {:induction false} XorBitsTwice(a: nat, b: nat, k: nat)
    requires a < Pow2(k)
    ensures XorBits(XorBits(a, b, k), b, k) == a
  {
    if k > 0 {
      var upper := XorBits(a / 2, b / 2, k - 1);
      var low := if a % 2 == b % 2 then 0 else 1;
      assert XorBits(a, b, k) == 2 * upper + low;
      assert (2 * upper + low) / 2 == upper && (2 * upper + low) % 2 == low;
      XorBitsTwice(a / 2, b / 2, k - 1);
    }
  }

  lemma XorTwice(a: byte, b: byte)
    ensures Xor(Xor(a, b), b) == a
  {
    assert Pow2(8) == 256 by { assert Pow2(4) == 16; }
    XorBitsTwice(a, b, 8);
  }

  /** std::string::substr: the count is clamped to the end of the string. */
  function Substr<T>(s: seq<T>, pos: nat, count: nat): seq<T>
    requires pos <= |s|
  {
    s[pos..Min(pos + count, |s|)]
  }

  /** The concatenation of a list of pieces. */
  function Flatten<T>(pieces: seq<seq<T>>): seq<T> {
    if pieces == [] then [] else pieces[0] + Flatten(pieces[1..])
  }

  lemma {:induction false} FlattenAppend<T>(xs: seq<seq<T>>, ys: seq<seq<T>>)
    ensures Flatten(xs + ys) == Flatten(xs) + Flatten(ys)
  {
    if xs == [] {
      assert xs + ys == ys;
    } else {
      assert (xs + ys)[1..] == xs[1..] + ys;
      FlattenAppend(xs[1..], ys);
    }
  }

  lemma HasMember(s: set<int>)
    ensures s == {} || exists x :: x in s
  {
    if forall x :: x !in s {
      assert s == {};
    }
  }
}
