/**
  The Internet checksum (sections 1 and 2 of RFC 1071): the code adds 16-bit words one
  by one and folds the carry back after each; here it is tied to the plain sum.
 */
module Checksums {
  import opened Machine

  const MOD: int := 0xffff

  /** A big-endian 16-bit word. */
  function Word(high: byte, low: byte): u16 {
    (high as int) * 256 + low as int
  }

  /** The plain sum of the big-endian 16-bit words; an odd last byte is padded with zero. */
  function WordSum(bytes: seq<byte>): nat {
    if bytes == [] then 0
    else if |bytes| == 1 then Word(bytes[0], 0)
    else Word(bytes[0], bytes[1]) + WordSum(bytes[2..])
  }

  /** The end-around-carry sum in closed form: 0 only for 0, otherwise in 1..0xffff. */
  function Residue(n: nat): u16 {
    if n == 0 then 0 else (n - 1) % MOD + 1
  }

  /** One fold of a 32-bit sum. */
  function Fold(sum: u32): u32 {
    sum % U16 + sum / U16
  }

  /** The fold after each addition keeps the sum in 16 bits and equal to the closed form. */
  lemma FoldIsResidue(sum: u16, word: u16)
    ensures Fold(sum + word) == Residue(sum + word)
  {
  }

  lemma ResidueAdd(a: nat, b: nat)
    ensures Residue(Residue(a) + b) == Residue(a + b)
  {
    if a > 0 {
      var k := (a - 1) / MOD;
      assert Residue(a) + b == a + b - MOD * k;
      ResidueLess(Residue(a) + b, k);
    }
  }

  lemma ResidueLess(n: nat, k: nat)
    requires n > 0
    ensures Residue(n + MOD * k) == Residue(n)
  {
    var q := (n - 1) / MOD;
    assert n + MOD * k - 1 == MOD * (q + k) + (n - 1) % MOD;
    Quotient(n + MOD * k - 1, q + k, (n - 1) % MOD);
  }

  lemma Quotient(x: nat, q: int, r: nat)
    requires x == MOD * q + r && r < MOD
    ensures x % MOD == r
  {
  }

  /** One step of the code's loop: add a word, fold the carry. */
  lemma FoldStep(sum: u16, n: nat, word: u16)
    requires sum == Residue(n)
    ensures Fold(sum + word) == Residue(n + word)
  {
    FoldIsResidue(sum, word);
    ResidueAdd(n, word);
  }

  lemma ResidueAdd2(n: nat, a: nat, b: nat)
    ensures Residue(Residue(Residue(n) + a) + b) == Residue(n + a + b)
  {
    ResidueAdd(n, a);
    ResidueAdd(n + a, b);
  }

  /** Four additions, folded one by one. */
  lemma ResidueAdd4(n: nat, a: nat, b: nat, c: nat, d: nat)
    ensures Residue(Residue(Residue(Residue(Residue(n) + a) + b) + c) + d) == Residue(n + a + b + c + d)
  {
    ResidueAdd2(n, a, b);
    ResidueAdd2(n + a + b, c, d);
  }

  /** Adding the complement of a non-zero sum gives all ones. */
  lemma ComplementCompletes(n: nat)
    requires n > 0
    ensures Residue(n + (MOD - Residue(n))) == 0xffff
  {
    var k := (n - 1) / MOD;
    assert n + (MOD - Residue(n)) - 1 == MOD * k + (MOD - 1);
    Quotient(n + (MOD - Residue(n)) - 1, k, MOD - 1);
  }

  /** Whole words in front add their own sum. */
  lemma {:induction false} WordSumConcat(a: seq<byte>, b: seq<byte>)
    requires |a| % 2 == 0
    ensures WordSum(a + b) == WordSum(a) + WordSum(b)
  {
    if a == [] {
      assert a + b == b;
    } else {
      assert (a + b)[2..] == a[2..] + b;
      WordSumConcat(a[2..], b);
    }
  }

  /** Bytes at even positions count 256-fold, the others once. */
  function Weighted(bytes: seq<byte>, k: nat): nat
    requires k <= |bytes|
  {
    if k == 0 then 0
    else Weighted(bytes, k - 1) + (if k % 2 == 1 then Big16(bytes[k - 1], 0) else bytes[k - 1])
  }

  lemma {:induction false} WeightedPrefix(a: seq<byte>, b: seq<byte>, k: nat)
    requires k <= |a|
    ensures Weighted(a + b, k) == Weighted(a, k)
  {
    if k > 0 { WeightedPrefix(a, b, k - 1); }
  }

  /** The sum of words, an odd last byte included, is the sum of the bytes by position. */
  lemma {:induction false} WordSumIsWeighted(bytes: seq<byte>)
    ensures WordSum(bytes) == Weighted(bytes, |bytes|)
    decreases |bytes|
  {
    if |bytes| > 0 {
      var n := if |bytes| % 2 == 1 then |bytes| - 1 else |bytes| - 2;
      var a, b := bytes[..n], bytes[n..];
      assert bytes == a + b;
      WordSumConcat(a, b);
      WordSumIsWeighted(a);
      WeightedPrefix(a, b, n);
    }
  }

  /** Congruent modulo 0xffff, in 16 bits, and zero for zero alone. */
  lemma ResidueMeaning(n: nat)
    ensures Residue(n) % 0xffff == n % 0xffff && (Residue(n) == 0 <==> n == 0)
  {
    if n > 0 {
      var k := (n - 1) / MOD;
      assert n == MOD * k + Residue(n);
      if Residue(n) == MOD { Quotient(n, k + 1, 0); } else { Quotient(n, k, Residue(n)); }
    }
  }

  /** The odd last byte and the first k words: what the loop has added. */
  function SumUpTo(bytes: seq<byte>, k: nat): nat
    requires 2 * k <= |bytes|
  {
    (if |bytes| % 2 == 1 then Word(bytes[|bytes| - 1], 0) else 0) + WordSum(bytes[..2 * k])
  }

  lemma SumUpToNext(bytes: seq<byte>, k: nat)
    requires 2 * k + 2 <= |bytes|
    ensures SumUpTo(bytes, k + 1) == SumUpTo(bytes, k) + Word(bytes[2 * k], bytes[2 * k + 1])
  {
    var word := [bytes[2 * k], bytes[2 * k + 1]];
    assert bytes[..2 * (k + 1)] == bytes[..2 * k] + word;
    WordSumConcat(bytes[..2 * k], word);
  }

  lemma SumUpToEnd(bytes: seq<byte>)
    ensures SumUpTo(bytes, |bytes| / 2) == WordSum(bytes)
  {
    var length := 2 * (|bytes| / 2);
    assert bytes == bytes[..length] + bytes[length..];
    WordSumConcat(bytes[..length], bytes[length..]);
  }

  /** The two words of an IPv4 address. */
  function AddressSum(ip: u32): nat {
    ip / U16 + ip % U16
  }

  class Checksum {
    var sum: u16

    /** Checksum(begin, end): an odd last byte first, then word by word. */
    constructor (bytes: seq<byte>)
      ensures sum == Residue(WordSum(bytes))
    {
      var total: u16 := 0;
      if |bytes| % 2 == 1 {
        total := Word(bytes[|bytes| - 1], 0);
      }
      var words := |bytes| / 2;
      for k := 0 to words
        invariant total == Residue(SumUpTo(bytes, k))
      {
        var word := Word(bytes[2 * k], bytes[2 * k + 1]);
        FoldStep(total, SumUpTo(bytes, k), word);
        SumUpToNext(bytes, k);
        total := Fold(total + word);
      }
      SumUpToEnd(bytes);
      sum := total;
    }

    method AddHostUInt16(value: u16)
      modifies this
      ensures sum == Residue(old(sum) + value)
    {
      FoldIsResidue(sum, value);
      sum := Fold(sum + value);
    }

    /** addIPAddress adds the low half of the address, then the high half. */
    method AddIPAddress(ip: u32)
      modifies this
      ensures sum == Residue(old(sum) + AddressSum(ip))
    {
      AddHostUInt16(ip % U16);
      ResidueAdd(old(sum) + ip % U16, ip / U16);
      AddHostUInt16(ip / U16);
    }

    /** writeTo: the complement, most significant byte first. */
    method WriteTo() returns (bytes: seq<byte>)
      ensures bytes == [(MOD - sum) / 256, (MOD - sum) % 256]
    {
      var cs := MOD - sum;
      bytes := [cs / 256, cs % 256];
    }
  }
}
