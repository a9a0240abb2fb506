/** Distributed vectors: which process holds which bytes, and the clipping of a requested range against
    the parts. */
module VectorDistribution {
  import opened Bytes
  import BD = BlockDistribution

  /** Part `resid` of process `pid` holds bytes [offset, offset + size) of the vector. */
  datatype Part = Part(pid: int, resid: int, size: nat, offset: nat)

  predicate Contains(p: Part, x: int) {
    p.offset <= x < p.offset + p.size
  }

  /** The test that skips parts outside [lo, hi). */
  predicate Overlaps(p: Part, lo: nat, hi: nat) {
    !(p.offset + p.size <= lo || p.offset >= hi)
  }

  function ReqOffset(p: Part, lo: nat): nat {
    if lo >= p.offset then lo - p.offset else 0
  }

  /** The size requested from an overlapping part; being a nat, it shows that neither unsigned
      subtraction wraps. */
  function ReqSize(p: Part, lo: nat, hi: nat): nat
    requires lo <= hi && Overlaps(p, lo, hi)
  {
    (if p.size <= hi - p.offset then p.size else hi - p.offset) - ReqOffset(p, lo)
  }

  /** The bytes requested from a part are exactly those it shares with [lo, hi). */
  lemma ClipIsIntersection(p: Part, lo: nat, hi: nat, x: int)
    requires lo <= hi && Overlaps(p, lo, hi)
    ensures ReqOffset(p, lo) + ReqSize(p, lo, hi) <= p.size
    ensures (p.offset + ReqOffset(p, lo) <= x < p.offset + ReqOffset(p, lo) + ReqSize(p, lo, hi))
            <==> (Contains(p, x) && lo <= x < hi)
  {
  }

  /** How many parts hold byte x. */
  function Holders(dv: seq<Part>, x: int): nat {
    if dv == [] then 0 else Holders(dv[1..], x) + if Contains(dv[0], x) then 1 else 0
  }

  lemma {:induction false} HoldersPositive(dv: seq<Part>, x: int)
    ensures Holders(dv, x) > 0 <==> exists i :: 0 <= i < |dv| && Contains(dv[i], x)
  {
    if dv != [] {
      HoldersPositive(dv[1..], x);
      if Holders(dv[1..], x) > 0 {
        var i :| 0 <= i < |dv| - 1 && Contains(dv[1..][i], x);
        assert Contains(dv[i + 1], x);
      }
      if i :| 0 <= i < |dv| && Contains(dv[i], x) {
        if i > 0 {
          assert Contains(dv[1..][i - 1], x);
        }
      }
    }
  }

  /** The parts, in whatever order, hold each byte of [0, size) exactly once and nothing else. */
  ghost predicate Tiles(dv: seq<Part>, size: nat) {
    && (forall x :: 0 <= x < size ==> Holders(dv, x) == 1)
    && (forall p :: p in dv ==> p.offset + p.size <= size)
  }

  function Max(a: nat, b: nat): nat {
    if a >= b then a else b
  }

  /** Every part lies inside the vector. */
  predicate Inside(dv: seq<Part>, v: seq<byte>) {
    forall i :: 0 <= i < |dv| ==> dv[i].offset + dv[i].size <= |v|
  }

  /** The logical vector's bytes in a part. */
  function PartBytes(v: seq<byte>, p: Part): seq<byte>
    requires p.offset + p.size <= |v|
  {
    v[p.offset..p.offset + p.size]
  }

  /** `getVecSize`: the running maximum over the parts is the length of any vector they tile. */
  method GetVecSize(dv: seq<Part>) returns (size: nat)
    ensures forall p :: p in dv ==> p.offset + p.size <= size
    ensures size == 0 || exists p :: p in dv && p.offset + p.size == size
    ensures forall n: nat :: Tiles(dv, n) ==> size == n
  {
    size := 0;
    for i := 0 to |dv|
      invariant forall j :: 0 <= j < i ==> dv[j].offset + dv[j].size <= size
      invariant size == 0 || exists p :: p in dv && p.offset + p.size == size
    {
      size := Max(size, dv[i].offset + dv[i].size);
      assert dv[i] in dv;
    }
    forall n: nat | Tiles(dv, n)
      ensures size == n
    {
      if n > 0 {
        assert Holders(dv, n - 1) == 1;
        HoldersPositive(dv, n - 1);
        var j :| 0 <= j < |dv| && Contains(dv[j], n - 1);
        assert dv[j] in dv;
      }
    }
  }

  // ----- the block distribution -----

  /** The parts that `handleDistributeVectorMessage` registers for processes `pids`, drawing keys downwards
      from `firstKey`. */
  function BlockPart(pids: seq<int>, firstKey: int, n: nat, elemSize: nat, i: nat): Part
    requires i < |pids|
  {
    Part(pids[i], firstKey - i, BD.BlockSize(n, i, |pids|) * elemSize, BD.BlockBegin(n, i, |pids|) * elemSize)
  }

  function BlockParts(pids: seq<int>, firstKey: int, n: nat, elemSize: nat): (dv: seq<Part>)
    ensures |dv| == |pids|
    ensures forall i :: 0 <= i < |pids| ==> dv[i] == BlockPart(pids, firstKey, n, elemSize, i)
  {
    seq(|pids|, i requires 0 <= i < |pids| => BlockPart(pids, firstKey, n, elemSize, i))
  }

  /** The loop of `handleDistributeVectorMessage`, with `div_range` at its machine widths. */
  method DistributeVector(pids: seq<int>, firstKey: int, n: nat, elemSize: nat)
    returns (dv: seq<Part>, nextKey: int)
    requires BD.Partitions(n, |pids|)
    ensures dv == BlockParts(pids, firstKey, n, elemSize)
    ensures nextKey == firstKey - |pids|
  {
    dv, nextKey := [], firstKey;
    for i := 0 to |pids|
      invariant nextKey == firstKey - i
      invariant |dv| == i && forall j :: 0 <= j < i ==> dv[j] == BlockPart(pids, firstKey, n, elemSize, j)
    {
      var key := nextKey;
      nextKey := nextKey - 1;
      var beg, end := BD.DivideRange(n, i, |pids|);
      dv := dv + [Part(pids[i], key, (end - beg) * elemSize, beg * elemSize)];
    }
  }

  lemma {:induction false} ConsecutiveHolders(dv: seq<Part>, first: nat, last: nat, x: int)
    requires dv == [] ==> first == last
    requires dv != [] ==> dv[0].offset == first && dv[|dv| - 1].offset + dv[|dv| - 1].size == last
    requires forall i :: 0 <= i < |dv| - 1 ==> dv[i].offset + dv[i].size == dv[i + 1].offset
    ensures first <= last
    ensures Holders(dv, x) == if first <= x < last then 1 else 0
    ensures forall p :: p in dv ==> first <= p.offset && p.offset + p.size <= last
  {
    if dv != [] {
      var rest := dv[1..];
      assert forall i :: 0 <= i < |rest| ==> rest[i] == dv[i + 1];
      ConsecutiveHolders(rest, dv[0].offset + dv[0].size, last, x);
      forall p | p in dv
        ensures first <= p.offset && p.offset + p.size <= last
      {
        if p != dv[0] {
          assert p in rest;
        }
      }
    }
  }

  /** Parts that follow each other from 0 to `total` tile it. */
  lemma ConsecutiveTile(dv: seq<Part>, total: nat)
    requires dv != [] && dv[0].offset == 0 && dv[|dv| - 1].offset + dv[|dv| - 1].size == total
    requires forall i :: 0 <= i < |dv| - 1 ==> dv[i].offset + dv[i].size == dv[i + 1].offset
    ensures Tiles(dv, total)
  {
    ConsecutiveHolders(dv, 0, total, 0);
    forall x
      ensures 0 <= x < total ==> Holders(dv, x) == 1
    {
      ConsecutiveHolders(dv, 0, total, x);
    }
  }

  lemma BlockPartsFollow(pids: seq<int>, firstKey: int, n: nat, elemSize: nat, i: nat)
    requires i < |pids|
    ensures var p := BlockPart(pids, firstKey, n, elemSize, i);
            p.offset + p.size == BD.BlockBegin(n, i + 1, |pids|) * elemSize
  {
    BD.BlockLength(n, i, |pids|);
    var b, l := BD.BlockBegin(n, i, |pids|), BD.BlockSize(n, i, |pids|);
    assert (b + l) * elemSize == b * elemSize + l * elemSize;
  }

  /** The registered parts tile the vector's bytes. */
  lemma BlockPartsTile(pids: seq<int>, firstKey: int, n: nat, elemSize: nat)
    requires pids != []
    ensures Tiles(BlockParts(pids, firstKey, n, elemSize), n * elemSize)
  {
    var dv, p := BlockParts(pids, firstKey, n, elemSize), |pids|;
    forall i | 0 <= i < p
      ensures dv[i].offset + dv[i].size == BD.BlockBegin(n, i + 1, p) * elemSize
    {
      BlockPartsFollow(pids, firstKey, n, elemSize, i);
    }
    BD.BlocksTile(n, p, 0, 0);
    ConsecutiveTile(dv, n * elemSize);
  }
}
