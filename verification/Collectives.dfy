/** The bytes of a `vector_distribution_base` on a 64-bit little-endian machine: a 4-byte count, 4 bytes of
    padding, then 24 bytes per part. */
module PartLayout {
  import opened Bytes
  import opened VectorDistribution

  predicate Representable(p: Part) {
    && -TWO_TO_31 <= p.pid < TWO_TO_31 && -TWO_TO_31 <= p.resid < TWO_TO_31
    && p.size < TWO_TO_64 && p.offset < TWO_TO_64
  }

  lemma Powers()
    ensures Power256(4) == TWO_TO_32 && Power256(8) == TWO_TO_64
  {
    assert Power256(2) == 0x1_0000;
    assert Power256(4) == TWO_TO_32;
    assert Power256(6) == 0x1_0000_0000_0000;
  }

  function EncodeInt(x: int): (s: seq<byte>)
    requires -TWO_TO_31 <= x < TWO_TO_31
    ensures |s| == 4
  {
    EncodeLE(if x < 0 then x + TWO_TO_32 else x, 4)
  }

  function DecodeInt(s: seq<byte>): int {
    var n := DecodeLE(s);
    if n >= TWO_TO_31 then n - TWO_TO_32 else n
  }

  lemma IntRoundTrip(x: int)
    requires -TWO_TO_31 <= x < TWO_TO_31
    ensures DecodeInt(EncodeInt(x)) == x
  {
    Powers();
    DecodeEncode(if x < 0 then x + TWO_TO_32 else x, 4);
  }

  function EncodePart(p: Part): (s: seq<byte>)
    requires Representable(p)
    ensures |s| == 24
  {
    EncodeInt(p.pid) + EncodeInt(p.resid) + EncodeLE(p.size, 8) + EncodeLE(p.offset, 8)
  }

  function DecodePart(s: seq<byte>): Part
    requires |s| == 24
  {
    Part(DecodeInt(s[..4]), DecodeInt(s[4..8]), DecodeLE(s[8..16]), DecodeLE(s[16..24]))
  }

  lemma FourFields(a: seq<byte>, b: seq<byte>, c: seq<byte>, d: seq<byte>)
    requires |a| == |b| == 4 && |c| == |d| == 8
    ensures var s := a + b + c + d;
            s[..4] == a && s[4..8] == b && s[8..16] == c && s[16..24] == d
  {
    var s := a + b + c + d;
    assert s[8..16] == c;
    assert s[16..24] == d;
  }

  lemma PartRoundTrip(p: Part)
    requires Representable(p)
    ensures DecodePart(EncodePart(p)) == p
  {
    var s := EncodePart(p);
    FourFields(EncodeInt(p.pid), EncodeInt(p.resid), EncodeLE(p.size, 8), EncodeLE(p.offset, 8));
    Powers();
    IntRoundTrip(p.pid);
    IntRoundTrip(p.resid);
    DecodeEncode(p.size, 8);
    DecodeEncode(p.offset, 8);
  }

  /** Losing the four high bytes of a part's offset. */
  function Truncated(p: Part): Part {
    p.(offset := p.offset % TWO_TO_32)
  }

  lemma {:induction false} EncodePrefix(value: nat, k: nat, len: nat)
    requires k <= len
    ensures EncodeLE(value, len)[..k] == EncodeLE(value, k)
  {
    if k > 0 {
      EncodePrefix(value / 256, k - 1, len - 1);
      var s := EncodeLE(value, len);
      assert s[1..][..k - 1] == s[1..k];
      assert s[..k] == [s[0]] + s[1..k];
    }
  }

  lemma {:induction false} DecodeModulo(value: nat, len: nat)
    ensures DecodeLE(EncodeLE(value, len)) == value % Power256(len)
  {
    if len > 0 {
      DecodeModulo(value / 256, len - 1);
      assert EncodeLE(value, len)[1..] == EncodeLE(value / 256, len - 1);
      ModuloStep(value, Power256(len - 1));
    }
  }

  lemma ModuloStep(value: nat, m: nat)
    requires m >= 1
    ensures value % 256 + 256 * ((value / 256) % m) == value % (256 * m)
  {
    var q, r := value / 256, value % 256;
    var a, b := q / m, q % m;
    assert value == 256 * q + r && q == a * m + b;
    assert value == a * (256 * m) + (256 * b + r) by {
      assert 256 * (a * m) == a * (256 * m);
    }
    QuotientRemainder(value, a, 256 * m, 256 * b + r);
  }

  lemma SmallMultiple(e: int, d: int)
    requires -d < e * d < d
    ensures e == 0
  {
  }

  lemma QuotientRemainder(x: nat, q: nat, d: nat, r: nat)
    requires d > 0 && x == q * d + r && r < d
    ensures x % d == r
  {
    var k, m := x / d, x % d;
    assert x == k * d + m && 0 <= m < d;
    assert (q - k) * d == q * d - k * d;
    SmallMultiple(q - k, d);
  }

  /** A part whose last four bytes were replaced by zeros. */
  lemma ClippedPart(p: Part, s: seq<byte>)
    requires Representable(p) && |s| == 24
    requires s[..20] == EncodePart(p)[..20] && forall i :: 20 <= i < 24 ==> s[i] == 0
    ensures DecodePart(s) == Truncated(p)
  {
    var e := EncodePart(p);
    PartRoundTrip(p);
    assert s[..4] == e[..4] && s[4..8] == e[4..8] && s[8..16] == e[8..16] by {
      assert forall i :: 0 <= i < 20 ==> s[i] == s[..20][i] == e[..20][i] == e[i];
    }
    var low, high := s[16..20], s[20..24];
    assert s[16..24] == low + high;
    assert low == EncodeLE(p.offset, 8)[..4] by {
      assert forall i :: 16 <= i < 20 ==> s[i] == s[..20][i] == e[..20][i] == e[i];
      assert e[16..24] == EncodeLE(p.offset, 8);
      assert forall i :: 0 <= i < 4 ==> low[i] == e[16 + i];
    }
    EncodePrefix(p.offset, 4, 8);
    DecodeModulo(p.offset, 4);
    Powers();
    DecodeConcat(low, high);
    ZerosDecodeToZero(high);
  }

  // ----- whole buffers -----

  function EncodeParts(ps: seq<Part>): (s: seq<byte>)
    requires forall i :: 0 <= i < |ps| ==> Representable(ps[i])
    ensures |s| == 24 * |ps|
  {
    if ps == [] then [] else EncodeParts(ps[..|ps| - 1]) + EncodePart(ps[|ps| - 1])
  }

  /** `_buf` of a distribution of these parts. */
  function EncodeBuf(ps: seq<Part>): (s: seq<byte>)
    requires |ps| < TWO_TO_31 && forall i :: 0 <= i < |ps| ==> Representable(ps[i])
    ensures |s| == 8 + 24 * |ps|
  {
    EncodeInt(|ps|) + Zeros(4) + EncodeParts(ps)
  }

  /** `getPart(i)`. */
  function PartAt(buf: seq<byte>, i: nat): Part
    requires 8 + 24 * (i + 1) <= |buf|
  {
    DecodePart(buf[8 + 24 * i..8 + 24 * (i + 1)])
  }

  /** `nparts()`. */
  function NParts(buf: seq<byte>): int
    requires 4 <= |buf|
  {
    DecodeInt(buf[..4])
  }

  lemma {:induction false} EncodePartsAt(ps: seq<Part>, i: nat)
    requires i < |ps| && forall k :: 0 <= k < |ps| ==> Representable(ps[k])
    ensures EncodeParts(ps)[24 * i..24 * (i + 1)] == EncodePart(ps[i])
  {
    var n := |ps| - 1;
    var s := EncodeParts(ps);
    if i < n {
      EncodePartsAt(ps[..n], i);
      assert s[24 * i..24 * (i + 1)] == EncodeParts(ps[..n])[24 * i..24 * (i + 1)];
    } else {
      assert s[24 * n..24 * (n + 1)] == EncodePart(ps[n]);
    }
  }

  lemma EncodeBufAt(ps: seq<Part>, i: nat)
    requires |ps| < TWO_TO_31 && i < |ps| && forall k :: 0 <= k < |ps| ==> Representable(ps[k])
    ensures EncodeBuf(ps)[8 + 24 * i..8 + 24 * (i + 1)] == EncodePart(ps[i])
    ensures PartAt(EncodeBuf(ps), i) == ps[i]
  {
    EncodePartsAt(ps, i);
    assert EncodeBuf(ps)[8 + 24 * i..8 + 24 * (i + 1)] == EncodeParts(ps)[24 * i..24 * (i + 1)];
    PartRoundTrip(ps[i]);
  }
}

/** `gather_distr_parts`: every process's parts are copied as raw bytes from offset 4, although they start at
    byte 8. */
module GatherParts {
  import opened Bytes
  import opened VectorDistribution
  import opened PartLayout

  /** A process that registered `n` parts. */
  predicate Registers(ps: seq<Part>, n: nat) {
    |ps| == n && forall k :: 0 <= k < n ==> Representable(ps[k])
  }

  /** Every process registered `n` parts, and the total count fits an int. */
  predicate SameCount(procs: seq<seq<Part>>, n: nat) {
    && 1 <= n < TWO_TO_31 && 1 <= |procs| && n * |procs| < TWO_TO_31
    && forall t :: 0 <= t < |procs| ==> Registers(procs[t], n)
  }

  const PARTS_OFFSET: nat := 4
  const PARTS_SIZE: nat := 24

  /** A new distribution's buffer: its count, and zeros. */
  function FreshBuf(nelems: nat): (s: seq<byte>)
    requires nelems < TWO_TO_31
    ensures |s| == 8 + 24 * nelems
  {
    EncodeInt(nelems) + Zeros(4 + 24 * nelems)
  }

  /** The stretch of the new buffer that process `t`'s bytes are copied to. */
  predicate Copied(dst: seq<byte>, t: nat, size: nat, src: seq<byte>) {
    && PARTS_OFFSET + t * size + size <= |dst| && PARTS_OFFSET + size <= |src|
    && dst[PARTS_OFFSET + t * size..PARTS_OFFSET + t * size + size] == src[PARTS_OFFSET..PARTS_OFFSET + size]
  }

  /** After the first `s` gets: their stretches are filled, the rest is zero. */
  ghost predicate Gathered(dst: seq<byte>, bufs: seq<seq<byte>>, size: nat, s: nat) {
    && |dst| == 8 + |bufs| * size && s <= |bufs| && s * size <= |bufs| * size
    && (forall t: nat :: t < s ==> Copied(dst, t, size, bufs[t]))
    && (forall x :: PARTS_OFFSET + s * size <= x < |dst| ==> dst[x] == 0)
  }

  lemma StrideStep(s: nat, p: nat, size: nat)
    requires s < p
    ensures (s + 1) * size == s * size + size <= p * size
  {
    assert (p - (s + 1)) * size >= 0;
    assert p * size == (p - (s + 1)) * size + (s + 1) * size;
  }

  lemma SpliceBehind(dst: seq<byte>, lo: nat, hi: nat, at: nat, data: seq<byte>)
    requires lo <= hi <= at && at + |data| <= |dst|
    ensures Splice(dst, at, data)[lo..hi] == dst[lo..hi]
  {
  }

  lemma GatherStep(dst: seq<byte>, bufs: seq<seq<byte>>, size: nat, s: nat)
    requires Gathered(dst, bufs, size, s) && s < |bufs| && |bufs[s]| == 8 + size
    ensures PARTS_OFFSET + s * size + size <= |dst|
    ensures var next := Splice(dst, PARTS_OFFSET + s * size, bufs[s][PARTS_OFFSET..PARTS_OFFSET + size]);
            Gathered(next, bufs, size, s + 1) && next[..4] == dst[..4]
  {
    StrideStep(s, |bufs|, size);
    var next := Splice(dst, PARTS_OFFSET + s * size, bufs[s][PARTS_OFFSET..PARTS_OFFSET + size]);
    forall t: nat | t < s + 1
      ensures Copied(next, t, size, bufs[t])
    {
      if t < s {
        StrideStep(t, s, size);
        assert Copied(dst, t, size, bufs[t]);
        SpliceBehind(dst, PARTS_OFFSET + t * size, PARTS_OFFSET + t * size + size, PARTS_OFFSET + s * size,
                     bufs[s][PARTS_OFFSET..PARTS_OFFSET + size]);
      }
    }
  }

  lemma FreshGathered(bufs: seq<seq<byte>>, nparts: nat)
    requires nparts * |bufs| < TWO_TO_31
    ensures var dst := FreshBuf(nparts * |bufs|);
            Gathered(dst, bufs, nparts * PARTS_SIZE, 0) && dst[..4] == EncodeInt(nparts * |bufs|)
  {
    TotalSize(nparts, |bufs|);
    var dst := FreshBuf(nparts * |bufs|);
    assert forall x :: 4 <= x < |dst| ==> dst[x] == 0;
  }

  lemma TotalSize(nparts: nat, p: nat)
    ensures p * (nparts * PARTS_SIZE) == 24 * (nparts * p)
  {
  }

  /** `gather_distr_parts`, given every process's buffer: one get per process, in effect after the sync. */
  method GatherDistrParts(bufs: seq<seq<byte>>, nparts: nat) returns (dst: seq<byte>)
    requires 1 <= |bufs| && nparts * |bufs| < TWO_TO_31
    requires forall t :: 0 <= t < |bufs| ==> |bufs[t]| == 8 + nparts * PARTS_SIZE
    ensures Gathered(dst, bufs, nparts * PARTS_SIZE, |bufs|)
    ensures dst[..4] == EncodeInt(nparts * |bufs|)
  {
    var partSize := nparts * PARTS_SIZE;
    dst := FreshBuf(nparts * |bufs|);
    FreshGathered(bufs, nparts);
    for s := 0 to |bufs|
      invariant Gathered(dst, bufs, partSize, s)
      invariant dst[..4] == EncodeInt(nparts * |bufs|)
    {
      GatherStep(dst, bufs, partSize, s);
      dst := Splice(dst, PARTS_OFFSET + s * partSize, bufs[s][PARTS_OFFSET..PARTS_OFFSET + partSize]);
    }
  }

  // ----- what the raw copy means -----

  lemma PartPosition(n: nat, t: nat, k: nat)
    ensures 24 * (t * n + k) == t * (n * PARTS_SIZE) + 24 * k
    ensures 24 * (t * n + k + 1) == t * (n * PARTS_SIZE) + 24 * k + 24
  {
    assert t * (n * PARTS_SIZE) == 24 * (t * n);
  }

  function BufsOf(procs: seq<seq<Part>>, n: nat): (bufs: seq<seq<byte>>)
    requires SameCount(procs, n)
    ensures |bufs| == |procs|
    ensures forall t :: 0 <= t < |procs| ==> Registers(procs[t], n) && bufs[t] == EncodeBuf(procs[t])
  {
    seq(|procs|, t requires 0 <= t < |procs| => EncodeBuf(procs[t]))
  }

  lemma PaddingIsZero(ps: seq<Part>, j: nat)
    requires |ps| < TWO_TO_31 && (forall i :: 0 <= i < |ps| ==> Representable(ps[i])) && 4 <= j < 8
    ensures EncodeBuf(ps)[j] == 0
  {
  }

  /** A part that is not its process's last is copied whole. */
  lemma InnerPart(dst: seq<byte>, src: seq<byte>, n: nat, t: nat, k: nat, ps: seq<Part>)
    requires n < TWO_TO_31 && Registers(ps, n) && src == EncodeBuf(ps) && k + 1 < n
    requires Copied(dst, t, n * PARTS_SIZE, src)
    ensures 8 + 24 * (t * n + k + 1) <= |dst| && PartAt(dst, t * n + k) == ps[k]
  {
    PartPosition(n, t, k);
    var size, at := n * PARTS_SIZE, PARTS_OFFSET + t * (n * PARTS_SIZE);
    var lo := at + 24 * k + 4;
    assert dst[lo..lo + 24] == EncodePart(ps[k]) by {
      SliceOfSlice(dst, at, at + size, 24 * k + 4, 24 * k + 28);
      SliceOfSlice(src, PARTS_OFFSET, PARTS_OFFSET + size, 24 * k + 4, 24 * k + 28);
      EncodeBufAt(ps, k);
    }
    PartRoundTrip(ps[k]);
  }

  predicate ZeroSeam(dst: seq<byte>, at: nat) {
    at + 4 <= |dst| && forall x :: at <= x < at + 4 ==> dst[x] == 0
  }

  /** A process's last part loses its four last bytes to the next four of the buffer. */
  lemma LastPart(dst: seq<byte>, src: seq<byte>, n: nat, t: nat, ps: seq<Part>)
    requires 1 <= n < TWO_TO_31 && Registers(ps, n) && src == EncodeBuf(ps)
    requires Copied(dst, t, n * PARTS_SIZE, src)
    requires 8 + (t * (n * PARTS_SIZE) + n * PARTS_SIZE) <= |dst|
    requires ZeroSeam(dst, PARTS_OFFSET + t * (n * PARTS_SIZE) + n * PARTS_SIZE)
    ensures 8 + 24 * (t * n + (n - 1) + 1) <= |dst| && PartAt(dst, t * n + (n - 1)) == Truncated(ps[n - 1])
  {
    var k := n - 1;
    PartPosition(n, t, k);
    var size, at := n * PARTS_SIZE, PARTS_OFFSET + t * (n * PARTS_SIZE);
    var lo := at + 24 * k + 4;
    var s := dst[lo..lo + 24];
    assert lo + 20 == at + size;
    assert s[..20] == EncodePart(ps[k])[..20] by {
      SliceOfSlice(dst, lo, lo + 24, 0, 20);
      SliceOfSlice(dst, at, at + size, 24 * k + 4, 24 * k + 24);
      SliceOfSlice(src, PARTS_OFFSET, PARTS_OFFSET + size, 24 * k + 4, 24 * k + 24);
      EncodeBufAt(ps, k);
      SliceOfSlice(src, 8 + 24 * k, 8 + 24 * (k + 1), 0, 20);
    }
    assert forall i :: 20 <= i < 24 ==> s[i] == dst[lo + i];
    ClippedPart(ps[k], s);
  }

  /** The four bytes after a stretch are the next process's padding, or the zeros the buffer ends with. */
  lemma SeamIsZero(dst: seq<byte>, procs: seq<seq<Part>>, n: nat, t: nat)
    requires SameCount(procs, n) && t < |procs| && Gathered(dst, BufsOf(procs, n), n * PARTS_SIZE, |procs|)
    ensures 8 + (t * (n * PARTS_SIZE) + n * PARTS_SIZE) <= |dst|
    ensures ZeroSeam(dst, PARTS_OFFSET + t * (n * PARTS_SIZE) + n * PARTS_SIZE)
  {
    var size, bufs := n * PARTS_SIZE, BufsOf(procs, n);
    if t + 1 < |procs| {
      assert Copied(dst, t + 1, size, bufs[t + 1]);
      SeamInside(dst, t, |procs|, size, procs[t + 1], n);
    } else {
      SeamAtEnd(dst, bufs, size);
    }
  }

  lemma SeamInside(dst: seq<byte>, t: nat, p: nat, size: nat, next: seq<Part>, n: nat)
    requires n < TWO_TO_31 && Registers(next, n) && 24 <= size && t + 1 < p && |dst| == 8 + p * size
    requires Copied(dst, t + 1, size, EncodeBuf(next))
    ensures 8 + (t * size + size) <= |dst| && ZeroSeam(dst, PARTS_OFFSET + t * size + size)
  {
    StrideStep(t, p, size);
    CopiedPadding(dst, PARTS_OFFSET + (t + 1) * size, size, next, n);
  }

  lemma SeamAtEnd(dst: seq<byte>, bufs: seq<seq<byte>>, size: nat)
    requires Gathered(dst, bufs, size, |bufs|) && bufs != []
    ensures var t := |bufs| - 1;
            8 + (t * size + size) <= |dst| && ZeroSeam(dst, PARTS_OFFSET + t * size + size)
  {
    StrideStep(|bufs| - 1, |bufs|, size);
  }

  /** A copy of a process's buffer from `parts_offset` starts with its padding. */
  lemma CopiedPadding(dst: seq<byte>, at: nat, size: nat, ps: seq<Part>, n: nat)
    requires n < TWO_TO_31 && Registers(ps, n) && 24 <= size && 4 + size <= |EncodeBuf(ps)| && at + size <= |dst|
    requires dst[at..at + size] == EncodeBuf(ps)[4..4 + size]
    ensures ZeroSeam(dst, at)
  {
    forall x | at <= x < at + 4
      ensures dst[x] == 0
    {
      assert dst[x] == dst[at..at + size][x - at] == EncodeBuf(ps)[4..4 + size][x - at];
      PaddingIsZero(ps, 4 + (x - at));
    }
  }

  /** What `gather_distr_parts` returns: all processes' parts in rank order, each process's last one with its
      offset cut to 32 bits. */
  lemma GatheredParts(dst: seq<byte>, procs: seq<seq<Part>>, n: nat, t: nat, k: nat)
    requires SameCount(procs, n) && t < |procs| && k < n
    requires Gathered(dst, BufsOf(procs, n), n * PARTS_SIZE, |procs|)
    ensures 8 + 24 * (t * n + k + 1) <= |dst|
    ensures PartAt(dst, t * n + k) == if k == n - 1 then Truncated(procs[t][k]) else procs[t][k]
  {
    assert Copied(dst, t, n * PARTS_SIZE, BufsOf(procs, n)[t]);
    assert Registers(procs[t], n);
    if k + 1 < n {
      InnerPart(dst, BufsOf(procs, n)[t], n, t, k, procs[t]);
    } else {
      SeamIsZero(dst, procs, n, t);
      LastPart(dst, BufsOf(procs, n)[t], n, t, procs[t]);
    }
  }

  ghost predicate SamePart(dst: seq<byte>, procs: seq<seq<Part>>, n: nat, t: nat, k: nat)
    requires t < |procs| && k < |procs[t]|
  {
    8 + 24 * (t * n + k + 1) <= |dst| && PartAt(dst, t * n + k) == procs[t][k]
  }

  lemma PartSurvives(dst: seq<byte>, procs: seq<seq<Part>>, n: nat, t: nat, k: nat)
    requires SameCount(procs, n) && Gathered(dst, BufsOf(procs, n), n * PARTS_SIZE, |procs|)
    requires t < |procs| && k < |procs[t]|
    ensures |procs[t]| == n
    ensures SamePart(dst, procs, n, t, k) <==> (k == n - 1 ==> procs[t][k].offset < TWO_TO_32)
  {
    assert Registers(procs[t], n);
    GatheredParts(dst, procs, n, t, k);
  }

  ghost predicate AllSame(dst: seq<byte>, procs: seq<seq<Part>>, n: nat) {
    forall t: nat, k: nat :: t < |procs| && k < |procs[t]| ==> SamePart(dst, procs, n, t, k)
  }

  /** Every process's last part has an offset below 2^32. */
  ghost predicate LastOffsetsFit(procs: seq<seq<Part>>) {
    forall t :: 0 <= t < |procs| && procs[t] != [] ==> procs[t][|procs[t]| - 1].offset < TWO_TO_32
  }

  /** The result is the rank-order concatenation of all processes' parts if and only if every process's last
      part has an offset below 2^32. */
  lemma GatherExact(dst: seq<byte>, procs: seq<seq<Part>>, n: nat)
    requires SameCount(procs, n) && Gathered(dst, BufsOf(procs, n), n * PARTS_SIZE, |procs|)
    ensures AllSame(dst, procs, n) <==> LastOffsetsFit(procs)
  {
    if AllSame(dst, procs, n) {
      forall t | 0 <= t < |procs| && procs[t] != []
        ensures procs[t][|procs[t]| - 1].offset < TWO_TO_32
      {
        PartSurvives(dst, procs, n, t, |procs[t]| - 1);
      }
    }
    if LastOffsetsFit(procs) {
      forall t: nat, k: nat | t < |procs| && k < |procs[t]|
        ensures SamePart(dst, procs, n, t, k)
      {
        PartSurvives(dst, procs, n, t, k);
      }
    }
  }
}

/** `broadcast_dv`: a barrier inside a branch that each process takes on its own. */
module BroadcastDv {
  import opened Bytes
  import opened PartLayout
  import opened GatherParts

  /** One process: its transfer buffer, how many bytes of it are registered for remote access, the element count
      last broadcast, and its distribution. */
  datatype Proc = Proc(dvBuf: seq<byte>, registered: nat, nelems: int, dv: seq<byte>)

  /** A distribution whose byte length fits its count, as the constructor builds them. */
  predicate WellFormed(dv: seq<byte>) {
    |dv| >= 8 && 0 <= NParts(dv) < TWO_TO_31 && |dv| == 8 + 24 * NParts(dv)
  }

  /** The outcome of a collective call: every process's state and the number of barriers each passed, or the
      processes wait at different barriers, or one reads memory that is not registered. */
  datatype Outcome = Finished(procs: seq<Proc>, barriers: seq<nat>) | BarrierMismatch | NotRegistered

  /** What a process does between the first barrier and its next one: process 0 keeps its distribution, the
      others make an empty one of the announced size. */
  function Prepared(s: Proc, rank: nat, nelems: nat): Proc
    requires nelems < TWO_TO_31
  {
    s.(nelems := nelems, dv := if rank == 0 then s.dv else FreshBuf(nelems))
  }

  predicate Grows(s: Proc) {
    |s.dvBuf| < |s.dv|
  }

  /** Enlarging the transfer buffer and registering it anew. */
  function Grown(s: Proc): Proc
    requires Grows(s)
  {
    s.(dvBuf := s.dvBuf + Zeros(|s.dv| - |s.dvBuf|), registered := |s.dv|)
  }

  function AfterGrowth(s: Proc): Proc {
    if Grows(s) then Grown(s) else s
  }

  /** The transfer buffer of process 0 at the last barrier. */
  function Loaded(head: Proc): seq<byte>
    requires |head.dv| <= |head.dvBuf|
  {
    Splice(head.dvBuf, 0, head.dv)
  }

  /** The last barrier: process 0 has loaded its buffer, the others get their distribution from it. */
  function Fetched(s: Proc, rank: nat, loaded: seq<byte>): Proc {
    if rank == 0 then s.(dvBuf := loaded)
    else s.(dv := if |s.dv| <= |loaded| then loaded[..|s.dv|] else s.dv)
  }

  function Map(procs: seq<Proc>, f: (Proc, nat) -> Proc): (r: seq<Proc>)
    ensures |r| == |procs|
    ensures forall i :: 0 <= i < |r| ==> r[i] == f(procs[i], i)
  {
    seq(|procs|, i requires 0 <= i < |procs| => f(procs[i], i))
  }

  /** One call. Each process decides on its own whether it grows its buffer and so passes a third barrier. */
  function BroadcastDv(procs: seq<Proc>): Outcome
    requires procs != [] && |procs[0].dv| >= 8 && 0 <= NParts(procs[0].dv) < TWO_TO_31
  {
    var n := NParts(procs[0].dv);
    var prepared := Map(procs, (s: Proc, i: nat) => Prepared(s, i, n));
    if exists i :: 0 <= i < |procs| && Grows(prepared[i]) != Grows(prepared[0]) then BarrierMismatch
    else
      var ready := Map(prepared, (s: Proc, _: nat) => AfterGrowth(s));
      if exists i :: 0 < i < |procs| && (|ready[i].dv| > ready[0].registered || |ready[i].dv| > |ready[0].dvBuf|)
      then NotRegistered
      else
        var loaded := Loaded(ready[0]);
        Finished(Map(ready, (s: Proc, i: nat) => Fetched(s, i, loaded)),
                 seq(|procs|, i requires 0 <= i < |procs| => if Grows(prepared[i]) then 3 else 2))
  }

  /** The transfer buffers are equally long and registered. */
  ghost predicate InStep(procs: seq<Proc>) {
    && procs != []
    && (forall i :: 0 <= i < |procs| ==> |procs[i].dvBuf| == |procs[0].dvBuf|)
    && procs[0].registered == |procs[0].dvBuf|
  }

  /** After the call every process has passed the same barriers and holds process 0's distribution. */
  ghost predicate Broadcast(before: seq<Proc>, out: Outcome) {
    && before != [] && out.Finished? && |out.procs| == |out.barriers| == |before|
    && (forall i :: 0 <= i < |before| ==> out.barriers[i] == out.barriers[0])
    && (forall i :: 0 <= i < |before| ==> out.procs[i].dv == before[0].dv)
  }

  lemma CallKeepsStep(procs: seq<Proc>)
    requires InStep(procs) && WellFormed(procs[0].dv)
    ensures Broadcast(procs, BroadcastDv(procs))
    ensures InStep(BroadcastDv(procs).procs)
  {
    var n := NParts(procs[0].dv);
    var prepared := Map(procs, (s: Proc, i: nat) => Prepared(s, i, n));
    forall i | 0 <= i < |procs|
      ensures |prepared[i].dv| == |procs[0].dv| && Grows(prepared[i]) == Grows(prepared[0])
    {
    }
    var ready := Map(prepared, (s: Proc, _: nat) => AfterGrowth(s));
    forall i | 0 <= i < |procs|
      ensures |ready[i].dvBuf| == |ready[0].dvBuf| && |ready[i].dv| == |procs[0].dv|
    {
    }
    var loaded := Loaded(ready[0]);
    assert loaded[..|procs[0].dv|] == procs[0].dv;
  }

  /** From processes in step, with at least two of them, a call hands process 0's distribution to all, over the
      same barriers, if and only if that distribution is well formed. */
  lemma BroadcastExact(procs: seq<Proc>)
    requires InStep(procs) && |procs| >= 2 && |procs[0].dv| >= 8 && 0 <= NParts(procs[0].dv) < TWO_TO_31
    ensures Broadcast(procs, BroadcastDv(procs)) <==> WellFormed(procs[0].dv)
  {
    if WellFormed(procs[0].dv) {
      CallKeepsStep(procs);
    } else {
      var out := BroadcastDv(procs);
      if out.Finished? {
        assert |out.procs[1].dv| == |FreshBuf(NParts(procs[0].dv))|;
        assert out.procs[1].dv != procs[0].dv;
      }
    }
  }

  /** A run of calls: before each, process 0 has some distribution to broadcast. */
  predicate AllWellFormed(dvs: seq<seq<byte>>) {
    forall i :: 0 <= i < |dvs| ==> WellFormed(dvs[i])
  }

  function Load(procs: seq<Proc>, dv: seq<byte>): seq<Proc>
    requires procs != []
  {
    procs[0 := procs[0].(dv := dv)]
  }

  /** Each call of the run finishes with the same barriers for all and process 0's distribution everywhere, and
      the next call starts from where it leaves the processes. */
  ghost predicate AllBroadcast(procs: seq<Proc>, dvs: seq<seq<byte>>)
    decreases |dvs|
  {
    dvs == [] ||
    (&& procs != [] && WellFormed(dvs[0])
     && var out := BroadcastDv(Load(procs, dvs[0]));
        Broadcast(Load(procs, dvs[0]), out) && AllBroadcast(out.procs, dvs[1..]))
  }

  /** Over any sequence of calls no process is ever left at another barrier, and each call ends with every
      process holding what process 0 broadcast. */
  lemma {:induction false} EveryCallBroadcasts(procs: seq<Proc>, dvs: seq<seq<byte>>)
    requires InStep(procs) && AllWellFormed(dvs)
    ensures AllBroadcast(procs, dvs)
    decreases |dvs|
  {
    if dvs != [] {
      assert AllWellFormed(dvs[1..]) by {
        assert forall i :: 0 <= i < |dvs[1..]| ==> dvs[1..][i] == dvs[i + 1];
      }
      CallKeepsStep(Load(procs, dvs[0]));
      EveryCallBroadcasts(BroadcastDv(Load(procs, dvs[0])).procs, dvs[1..]);
    }
  }
}
