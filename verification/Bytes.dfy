/** Little-endian integers as the byte sequences the rings and the file log store. */
module Bytes {

  type byte = x: int | 0 <= x < 256

  /** The number of values that `n` bytes can hold. */
  function Span256(n: nat): (r: nat)
    ensures r >= 1
  {
    if n == 0 then 1 else 256 * Span256(n - 1)
  }

  /** The low `n` bytes of `x`, in two's complement when it is negative. */
  function Le(x: int, n: nat): (s: seq<byte>)
    ensures |s| == n
    decreases n
  {
    if n == 0 then [] else [x % 256] + Le(x / 256, n - 1)
  }

  function FromLe(s: seq<byte>): (x: nat)
    ensures x < Span256(|s|)
  {
    if s == [] then 0 else s[0] + 256 * FromLe(s[1..])
  }

  /** The bytes as a two's complement integer. */
  function Dec(s: seq<byte>): int {
    var v := FromLe(s);
    if 2 * v >= Span256(|s|) then v - Span256(|s|) else v
  }

  /** The values that a two's complement integer of `n` bytes can represent. */
  predicate Fits(x: int, n: nat) {
    0 <= 2 * x + Span256(n) && 2 * x < Span256(n)
  }

  lemma {:induction false} LeValue(x: int, n: nat)
    requires 0 <= x + Span256(n) && x < Span256(n)
    ensures FromLe(Le(x, n)) == if x < 0 then x + Span256(n) else x
    decreases n
  {
    if n > 0 {
      LeValue(x / 256, n - 1);
      assert Le(x, n)[1..] == Le(x / 256, n - 1);
    }
  }

  /** `n` bytes give back exactly the unsigned, and exactly the signed, values they can represent. */
  lemma UnsignedRoundTrip(x: nat, n: nat)
    ensures FromLe(Le(x, n)) == x <==> x < Span256(n)
  {
    if x < Span256(n) {
      LeValue(x, n);
    }
  }

  lemma SignedRoundTrip(x: int, n: nat)
    ensures Dec(Le(x, n)) == x <==> Fits(x, n)
  {
    if Fits(x, n) {
      LeValue(x, n);
    }
  }

  lemma Span256Values()
    ensures Span256(1) == 0x100
    ensures Span256(4) == 0x1_0000_0000
    ensures Span256(8) == 0x1_0000_0000_0000_0000
  {
    assert Span256(2) == 0x1_0000 && Span256(3) == 0x100_0000;
    assert Span256(5) == 0x100_0000_0000 && Span256(6) == 0x1_0000_0000_0000 && Span256(7) == 0x100_0000_0000_0000;
  }

  /** What four bytes stand for. */
  lemma FourBytes(a: byte, b: byte, c: byte, d: byte)
    ensures Dec([a, b, c, d]) ==
      a + 0x100 * b + 0x1_0000 * c + 0x100_0000 * d - if d < 0x80 then 0 else 0x1_0000_0000
  {
    var s := [a, b, c, d];
    assert s[1..] == [b, c, d] && s[1..][1..] == [c, d] && s[1..][1..][1..] == [d] && s[1..][1..][1..][1..] == [];
    assert FromLe([d]) == d + 256 * FromLe([]);
    assert FromLe([c, d]) == c + 256 * FromLe([d]);
    assert FromLe([b, c, d]) == b + 256 * FromLe([c, d]);
    Span256Values();
  }
}
