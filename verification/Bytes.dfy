/** Octets, and the few sequence facts every byte-oriented module needs. */
module Bytes {
  /** An octet. Masks and shifts of the source are written as division and remainder by powers of two. */
  type Byte = b: int | 0 <= b < 256

  /** `u16::from_be_bytes`. */
  function U16Be(hi: Byte, lo: Byte): (n: nat)
    ensures n < 65536
  {
    hi * 256 + lo
  }

  /** The two octets of a 16-bit number, most significant first. */
  function BeBytes(n: nat): (bs: seq<Byte>)
    requires n < 65536
    ensures |bs| == 2 && U16Be(bs[0], bs[1]) == n
  {
    [n / 256, n % 256]
  }

  /** The concatenation of a list of sequences. */
  function Concat<T>(parts: seq<seq<T>>): seq<T> {
    if parts == [] then [] else Concat(parts[..|parts| - 1]) + parts[|parts| - 1]
  }

  lemma ConcatSnoc<T>(parts: seq<seq<T>>, last: seq<T>)
    ensures Concat(parts + [last]) == Concat(parts) + last
  {
    assert (parts + [last])[..|parts|] == parts;
  }

  lemma {:induction false} ConcatSplit<T>(xs: seq<seq<T>>, ys: seq<seq<T>>)
    ensures Concat(xs + ys) == Concat(xs) + Concat(ys)
  {
    if ys == [] {
      assert xs + ys == xs;
    } else {
      var n := |ys| - 1;
      ConcatSplit(xs, ys[..n]);
      assert (xs + ys)[..|xs| + n] == xs + ys[..n];
    }
  }

  lemma ConcatCons<T>(head: seq<T>, rest: seq<seq<T>>)
    ensures Concat([head] + rest) == head + Concat(rest)
  {
    ConcatSplit([head], rest);
    assert [head][..0] == [];
  }
}
