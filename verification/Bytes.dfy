/** Bytes, buffers and little-endian integers. */
module Bytes {

  const INT_MAX: int := 0x7fff_ffff
  const INT_MIN: int := -0x8000_0000
  const TWO_TO_31: int := 0x8000_0000
  const TWO_TO_32: int := 0x1_0000_0000
  const TWO_TO_64: int := 0x1_0000_0000_0000_0000

  newtype byte = b: int | 0 <= b < 256

  datatype Option<+T> = None | Some(value: T)

  /** A zero-initialised buffer. */
  function Zeros(n: nat): (s: seq<byte>)
    ensures |s| == n
    ensures forall i :: 0 <= i < n ==> s[i] == 0
  {
    seq(n, _ => 0)
  }

  /** `memcpy(buf + offset, data, |data|)`. */
  function Splice<T>(buf: seq<T>, offset: nat, data: seq<T>): (r: seq<T>)
    requires offset + |data| <= |buf|
    ensures |r| == |buf|
    ensures forall i :: 0 <= i < |buf| ==>
      r[i] == if offset <= i < offset + |data| then data[i - offset] else buf[i]
  {
    buf[..offset] + data + buf[offset + |data|..]
  }

  lemma SliceOfSlice<T>(s: seq<T>, lo: nat, hi: nat, i: nat, j: nat)
    requires lo <= hi <= |s| && i <= j <= hi - lo
    ensures s[lo..hi][i..j] == s[lo + i..lo + j]
  {
    var part := s[lo..hi];
    assert forall k :: 0 <= k < hi - lo ==> part[k] == s[lo + k];
  }

  /** The same, into a buffer. */
  method CopyTo(buf: array<byte>, pos: nat, data: seq<byte>)
    requires pos + |data| <= buf.Length
    modifies buf
    ensures buf[..] == Splice(old(buf[..]), pos, data)
  {
    for i := 0 to |data|
      invariant forall j :: 0 <= j < buf.Length ==>
        buf[j] == if pos <= j < pos + i then data[j - pos] else old(buf[j])
    {
      buf[pos + i] := data[i];
    }
  }

  lemma ConcatAssociates<T>(a: seq<T>, b: seq<T>, c: seq<T>)
    ensures (a + b) + c == a + (b + c)
  {
  }

  /** The positions offset, ..., offset + len - 1. */
  function Positions(offset: nat, len: nat): (r: set<nat>)
    ensures forall x: nat :: x in r <==> offset <= x < offset + len
  {
    if len == 0 then {} else Positions(offset, len - 1) + {offset + len - 1}
  }

  lemma {:induction false} PositionsSize(offset: nat, len: nat)
    ensures |Positions(offset, len)| == len
  {
    if len > 0 {
      PositionsSize(offset, len - 1);
    }
  }

  function Power256(n: nat): (r: nat)
    ensures r >= 1
  {
    if n == 0 then 1 else 256 * Power256(n - 1)
  }

  /** The low `len` bytes of `value`, least significant first. */
  function EncodeLE(value: nat, len: nat): (s: seq<byte>)
    ensures |s| == len
  {
    if len == 0 then [] else [(value % 256) as byte] + EncodeLE(value / 256, len - 1)
  }

  function DecodeLE(s: seq<byte>): nat {
    if s == [] then 0 else s[0] as nat + 256 * DecodeLE(s[1..])
  }

  /** Reading back an integer that fits its field returns it. */
  lemma {:induction false} DecodeEncode(value: nat, len: nat)
    requires value < Power256(len)
    ensures DecodeLE(EncodeLE(value, len)) == value
  {
    if len > 0 {
      DecodeEncode(value / 256, len - 1);
      assert EncodeLE(value, len)[1..] == EncodeLE(value / 256, len - 1);
    }
  }

  lemma {:induction false} DecodeBound(s: seq<byte>)
    ensures DecodeLE(s) < Power256(|s|)
  {
    if s != [] {
      DecodeBound(s[1..]);
    }
  }

  /** Distinct byte strings of one length are distinct integers. */
  lemma {:induction false} EncodeDecode(s: seq<byte>)
    ensures EncodeLE(DecodeLE(s), |s|) == s
  {
    if s != [] {
      EncodeDecode(s[1..]);
      EncodeStep(s[0], DecodeLE(s[1..]), |s|);
      assert s == [s[0]] + s[1..];
    }
  }

  lemma EncodeStep(low: byte, high: nat, len: nat)
    requires len > 0
    ensures EncodeLE(low as nat + 256 * high, len) == [low] + EncodeLE(high, len - 1)
  {
    var x := low as nat + 256 * high;
    assert x % 256 == low as nat && x / 256 == high;
  }

  lemma MulAssociates(a: int, b: int, c: int)
    ensures a * (b * c) == (a * b) * c
  {
  }

  /** Splitting a field: the first `k` bytes carry the value modulo 256^k, the others its quotient. */
  lemma {:induction false} DecodeConcat(a: seq<byte>, b: seq<byte>)
    ensures DecodeLE(a + b) == DecodeLE(a) + Power256(|a|) * DecodeLE(b)
  {
    if a == [] {
      assert a + b == b;
    } else {
      DecodeConcat(a[1..], b);
      assert (a + b)[1..] == a[1..] + b;
      MulAssociates(256, Power256(|a| - 1), DecodeLE(b));
    }
  }

  lemma {:induction false} ZerosDecodeToZero(s: seq<byte>)
    ensures DecodeLE(s) == 0 <==> (forall i :: 0 <= i < |s| ==> s[i] == 0)
  {
    if s != [] {
      ZerosDecodeToZero(s[1..]);
      assert forall i :: 1 <= i < |s| ==> s[i] == s[1..][i - 1];
      if DecodeLE(s) == 0 {
        assert s[0] == 0 && DecodeLE(s[1..]) == 0;
        forall i | 0 <= i < |s|
          ensures s[i] == 0
        {
          if i > 0 {
            assert s[i] == s[1..][i - 1];
          }
        }
      }
    }
  }
}
