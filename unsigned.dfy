/** Unsigned big-endian integers as byte strings: the reading done by
    `new BigInteger(1, bytes)` and the writing done by
    `BigInteger.ToByteArrayUnsigned()`. */
module Unsigned {

  newtype byte = x: int | 0 <= x < 256

  /** Value of `bs` read as an unsigned big-endian number (the sign is fixed
      to positive, so leading zero bytes only add nothing). */
  function ToNat(bs: seq<byte>): nat
  {
    if bs == [] then 0 else ToNat(bs[..|bs| - 1]) * 256 + bs[|bs| - 1] as nat
  }

  /** No leading zero byte: the only form `ToByteArrayUnsigned` produces. */
  predicate Canonical(bs: seq<byte>)
  {
    bs == [] || bs[0] != 0
  }

  /** Minimal big-endian bytes of `n`; zero has no bytes at all. */
  function FromNat(n: nat): (bs: seq<byte>)
    ensures Canonical(bs)
    ensures bs == [] <==> n == 0
  {
    if n == 0 then [] else FromNat(n / 256) + [(n % 256) as byte]
  }

  /** Writing a number and reading it back gives the number. */
  lemma {:induction false} ToNatFromNat(n: nat)
    ensures ToNat(FromNat(n)) == n
  {
    if n > 0 {
      var prefix := FromNat(n / 256);
      var bs := prefix + [(n % 256) as byte];
      assert bs[..|bs| - 1] == prefix;
      ToNatFromNat(n / 256);
    }
  }

  /** A byte string with a non-zero first byte denotes a positive number. */
  lemma {:induction false} ToNatPositive(bs: seq<byte>)
    requires bs != [] && bs[0] != 0
    ensures ToNat(bs) > 0
  {
    var prefix := bs[..|bs| - 1];
    if prefix != [] {
      assert prefix[0] == bs[0];
      ToNatPositive(prefix);
    }
  }

  /** Reading a canonical byte string and writing the number back gives the
      same bytes. */
  lemma {:induction false} FromNatToNat(bs: seq<byte>)
    requires Canonical(bs)
    ensures FromNat(ToNat(bs)) == bs
  {
    if bs != [] {
      var prefix, last := bs[..|bs| - 1], bs[|bs| - 1];
      ToNatPositive(bs);
      var n := ToNat(bs);
      assert n / 256 == ToNat(prefix) && n % 256 == last as nat;
      if prefix != [] {
        assert prefix[0] == bs[0];
        FromNatToNat(prefix);
      }
      assert bs == prefix + [last];
    }
  }

  /** For canonical bytes, byte equality with the written form of `n` and
      numeric equality with `n` are the same thing. */
  lemma CanonicalBytesIff(bs: seq<byte>, n: nat)
    requires Canonical(bs)
    ensures bs == FromNat(n) <==> ToNat(bs) == n
  {
    ToNatFromNat(n);
    FromNatToNat(bs);
  }

  /** Leading zero bytes do not change the value that is read. */
  lemma {:induction false} LeadingZeroIgnored(bs: seq<byte>)
    ensures ToNat([0] + bs) == ToNat(bs)
  {
    if bs != [] {
      var padded := [0 as byte] + bs;
      assert padded[..|padded| - 1] == [0 as byte] + bs[..|bs| - 1];
      LeadingZeroIgnored(bs[..|bs| - 1]);
    }
  }
}
