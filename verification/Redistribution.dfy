/** `prefetch` and `fetchDv`: moving a distributed vector onto another actor's processes. Each destination
    prepares a block; the owners of the source parts send the pieces, and the pieces arrive in any order. */
module Redistribution {
  import opened Bytes
  import opened PartStore
  import opened PartRequests
  import opened VectorDistribution
  import BD = BlockDistribution

  // ----- how many bytes each destination is sent -----

  /** The number of bytes sent for part `p` to the destination block [a, b). */
  function PieceSize(p: Part, a: nat, b: nat): nat
    requires a <= b
  {
    if Overlaps(p, a, b) then ReqSize(p, a, b) else 0
  }

  function SumSizes(dv: seq<Part>, a: nat, b: nat): nat
    requires a <= b
  {
    if dv == [] then 0 else PieceSize(dv[0], a, b) + SumSizes(dv[1..], a, b)
  }

  lemma {:induction false} SumSizesGrow(dv: seq<Part>, a: nat, b: nat)
    requires a <= b
    ensures SumSizes(dv, a, b + 1) == SumSizes(dv, a, b) + Holders(dv, b)
  {
    if dv != [] {
      SumSizesGrow(dv[1..], a, b);
      assert PieceSize(dv[0], a, b + 1) == PieceSize(dv[0], a, b) + if Contains(dv[0], b) then 1 else 0;
    }
  }

  lemma {:induction false} EmptyBlockSum(dv: seq<Part>, a: nat)
    ensures SumSizes(dv, a, a) == 0
  {
    if dv != [] {
      EmptyBlockSum(dv[1..], a);
    }
  }

  /** Whatever the order of the parts, the pieces for a block add up to its length. */
  lemma {:induction false} PiecesFillTheBlock(dv: seq<Part>, size: nat, a: nat, b: nat)
    requires Tiles(dv, size) && a <= b <= size
    ensures SumSizes(dv, a, b) == b - a
    decreases b
  {
    if a == b {
      EmptyBlockSum(dv, a);
    } else {
      PiecesFillTheBlock(dv, size, a, b - 1);
      SumSizesGrow(dv, a, b - 1);
    }
  }

  // ----- the pieces themselves -----

  /** The piece sent for a part: as many bytes as the part shares with the block, but always the part's
      first bytes, since the offset that was computed is not used. */
  function Piece(data: seq<byte>, p: Part, a: nat, b: nat): (r: seq<byte>)
    requires a <= b && Overlaps(p, a, b) && |data| == p.size
    ensures |r| == PieceSize(p, a, b)
  {
    data[..ReqSize(p, a, b)]
  }

  /** All the pieces for the block [a, b), in the order of the parts. */
  function Pieces(dv: seq<Part>, v: seq<byte>, a: nat, b: nat): seq<seq<byte>>
    requires a <= b && Inside(dv, v)
  {
    if dv == [] then []
    else
      (if Overlaps(dv[0], a, b) then [Piece(PartBytes(v, dv[0]), dv[0], a, b)] else []) + Pieces(dv[1..], v, a, b)
  }

  function SumLengths(pieces: seq<seq<byte>>): nat {
    if pieces == [] then 0 else |pieces[0]| + SumLengths(pieces[1..])
  }

  lemma {:induction false} SumOfPieces(dv: seq<Part>, v: seq<byte>, a: nat, b: nat)
    requires a <= b && Inside(dv, v)
    ensures SumLengths(Pieces(dv, v, a, b)) == SumSizes(dv, a, b)
  {
    if dv != [] {
      SumOfPieces(dv[1..], v, a, b);
      var rest := Pieces(dv[1..], v, a, b);
      if Overlaps(dv[0], a, b) {
        var first := Piece(PartBytes(v, dv[0]), dv[0], a, b);
        assert ([first] + rest)[1..] == rest;
      } else {
        assert [] + rest == rest;
      }
    }
  }

  lemma {:induction false} SumConcat(x: seq<seq<byte>>, y: seq<seq<byte>>)
    ensures SumLengths(x + y) == SumLengths(x) + SumLengths(y)
  {
    if x == [] {
      assert x + y == y;
    } else {
      assert (x + y)[1..] == x[1..] + y;
      SumConcat(x[1..], y);
    }
  }

  /** The order of arrival does not change the total. */
  lemma {:induction false} SumOfPermutation(x: seq<seq<byte>>, y: seq<seq<byte>>)
    requires multiset(x) == multiset(y)
    ensures SumLengths(x) == SumLengths(y)
  {
    if x == [] {
      assert |multiset(y)| == 0;
      assert y == [];
    } else {
      assert x == [x[0]] + x[1..];
      assert x[0] in multiset(y);
      var j :| 0 <= j < |y| && y[j] == x[0];
      RemoveOne(x, 0);
      RemoveOne(y, j);
      assert x[..0] + x[1..] == x[1..];
      SumOfPermutation(x[1..], y[..j] + y[j + 1..]);
    }
  }

  lemma RemoveOne(y: seq<seq<byte>>, j: nat)
    requires j < |y|
    ensures var rest := y[..j] + y[j + 1..];
            multiset(rest) == multiset(y) - multiset{y[j]} && SumLengths(y) == SumLengths(rest) + |y[j]|
  {
    var rest := y[..j] + y[j + 1..];
    assert y == y[..j] + [y[j]] + y[j + 1..];
    assert multiset(y) == multiset(y[..j]) + multiset{y[j]} + multiset(y[j + 1..]);
    SumConcat(y[..j], y[j + 1..]);
    SumConcat(y[..j] + [y[j]], y[j + 1..]);
    SumConcat(y[..j], [y[j]]);
    assert [y[j]][1..] == [];
  }

  /** The pieces of a block arrive in some order. */
  ghost predicate Arrival(arriving: seq<seq<byte>>, dv: seq<Part>, v: seq<byte>, a: nat, b: nat) {
    a <= b && Inside(dv, v) && multiset(arriving) == multiset(Pieces(dv, v, a, b))
  }

  lemma ArrivalTotal(arriving: seq<seq<byte>>, dv: seq<Part>, v: seq<byte>, a: nat, b: nat)
    requires Tiles(dv, |v|) && a <= b <= |v| && Arrival(arriving, dv, v, a, b)
    ensures SumLengths(arriving) == b - a
  {
    SumOfPermutation(arriving, Pieces(dv, v, a, b));
    SumOfPieces(dv, v, a, b);
    PiecesFillTheBlock(dv, |v|, a, b);
  }

  // ----- delivery -----

  /** The byte strings fed to a part, in order. */
  function Fed(ops: seq<Op>, key: int): seq<seq<byte>> {
    if ops == [] then []
    else
      var before := Fed(ops[..|ops| - 1], key);
      var last := ops[|ops| - 1];
      if Feeds(last, key) then before + [last.data] else before
  }

  predicate OnlyFed(ops: seq<Op>, key: int) {
    forall i :: 0 <= i < |ops| && ops[i].key == key ==> ops[i].AddData? && ops[i].offset == 0
  }

  lemma {:induction false} LegalRunSnoc(parts: Parts, ops: seq<Op>)
    requires ops != [] && LegalRun(parts, ops)
    ensures LegalRun(parts, ops[..|ops| - 1])
    ensures Legal(Run(parts, ops[..|ops| - 1]), ops[|ops| - 1])
    ensures Run(parts, ops) == Apply(Run(parts, ops[..|ops| - 1]), ops[|ops| - 1])
    decreases |ops|
  {
    if |ops| == 1 {
      assert ops[..0] == [] && ops[1..] == [];
    } else {
      var rest := ops[1..];
      LegalRunSnoc(Apply(parts, ops[0]), rest);
      assert rest[..|rest| - 1] == ops[..|ops| - 1][1..];
    }
  }

  /** What the destination holds after pieces written at offset 0. */
  function Overwrite(buf: seq<byte>, pieces: seq<seq<byte>>): (r: seq<byte>)
    requires forall i :: 0 <= i < |pieces| ==> |pieces[i]| <= |buf|
    ensures |r| == |buf|
  {
    if pieces == [] then buf
    else Splice(Overwrite(buf, pieces[..|pieces| - 1]), 0, pieces[|pieces| - 1])
  }

  /** Over every legal history of the store in which the part is only fed, mixed with any operations on
      other parts: the missing bytes are those not fed, and the buffer holds the pieces written in order. */
  lemma {:induction false} FedAccounting(parts: Parts, ops: seq<Op>, key: int)
    requires key in parts && LegalRun(parts, ops) && OnlyFed(ops, key)
    ensures key in Run(parts, ops)
    ensures var c := Run(parts, ops)[key];
            var pieces := Fed(ops, key);
            && c.location == parts[key].location && |c.bytes| == |parts[key].bytes|
            && c.remaining + SumLengths(pieces) == parts[key].remaining
            && (forall i :: 0 <= i < |pieces| ==> |pieces[i]| <= |c.bytes|)
            && c.bytes == Overwrite(parts[key].bytes, pieces)
    decreases |ops|
  {
    if ops != [] {
      var n := |ops| - 1;
      LegalRunSnoc(parts, ops);
      FedAccounting(parts, ops[..n], key);
      var pieces := Fed(ops[..n], key);
      if Feeds(ops[n], key) {
        SumConcat(pieces, [ops[n].data]);
        assert [ops[n].data][1..] == [];
        assert (pieces + [ops[n].data])[..|pieces|] == pieces;
      }
    }
  }

  /** Each piece, whenever it arrives, passes the bounds checks of `addData`, and the missing bytes are
      those still under way; so the part is complete exactly when all that is left is empty. */
  lemma PieceAccepted(parts: Parts, ops: seq<Op>, key: int, arriving: seq<seq<byte>>, k: nat, dv: seq<Part>,
                      v: seq<byte>, a: nat, b: nat)
    requires Tiles(dv, |v|) && a < b <= |v| && Arrival(arriving, dv, v, a, b)
    requires key in parts && parts[key] == Cell(Zeros(b - a), VectorStore, b - a)
    requires LegalRun(parts, ops) && OnlyFed(ops, key)
    requires k <= |arriving| && Fed(ops, key) == arriving[..k]
    ensures key in Run(parts, ops)
    ensures Run(parts, ops)[key].remaining == SumLengths(arriving[k..])
    ensures k < |arriving| ==> Legal(Run(parts, ops), AddData(key, arriving[k], 0))
    ensures k == |arriving| ==> Ready(Run(parts, ops), key)
    ensures Run(parts, ops)[key].remaining == 0 <==> forall i :: k <= i < |arriving| ==> arriving[i] == []
  {
    FedAccounting(parts, ops, key);
    ArrivalTotal(arriving, dv, v, a, b);
    StillToCome(arriving, k);
  }

  lemma StillToCome(arriving: seq<seq<byte>>, k: nat)
    requires k <= |arriving|
    ensures SumLengths(arriving) == SumLengths(arriving[..k]) + SumLengths(arriving[k..])
    ensures k < |arriving| ==> |arriving[k]| <= SumLengths(arriving[k..])
    ensures SumLengths(arriving[k..]) == 0 <==> forall i :: k <= i < |arriving| ==> arriving[i] == []
  {
    assert arriving == arriving[..k] + arriving[k..];
    SumConcat(arriving[..k], arriving[k..]);
    SumZero(arriving[k..]);
    if k < |arriving| {
      assert arriving[k..][0] == arriving[k];
    }
    assert forall i :: k <= i < |arriving| ==> arriving[i] == arriving[k..][i - k];
  }

  lemma {:induction false} SumZero(pieces: seq<seq<byte>>)
    ensures SumLengths(pieces) == 0 <==> forall i :: 0 <= i < |pieces| ==> pieces[i] == []
  {
    if pieces != [] {
      SumZero(pieces[1..]);
      assert forall i :: 1 <= i < |pieces| ==> pieces[i] == pieces[1..][i - 1];
      if SumLengths(pieces) == 0 {
        forall i | 0 <= i < |pieces|
          ensures pieces[i] == []
        {
          if i > 0 {
            assert pieces[i] == pieces[1..][i - 1];
          }
        }
      }
    }
  }

  // ----- which contents arrive -----

  /** Some part starts where the block starts and reaches its end. */
  predicate Aligned(dv: seq<Part>, a: nat, b: nat) {
    a == b || exists i :: 0 <= i < |dv| && dv[i].offset == a && dv[i].offset + dv[i].size >= b
  }

  ghost predicate Fits(pieces: seq<seq<byte>>, n: nat) {
    forall i :: 0 <= i < |pieces| ==> |pieces[i]| <= n
  }

  /** After all pieces, in this order of arrival, the block holds its share of the vector. */
  ghost predicate BlockRight(v: seq<byte>, a: nat, b: nat, arriving: seq<seq<byte>>)
    requires a <= b <= |v|
  {
    Fits(arriving, b - a) && Overwrite(Zeros(b - a), arriving) == v[a..b]
  }

  /** A tiling leaves no room for two non-empty parts in one place. */
  lemma {:induction false} TwoHolders(dv: seq<Part>, x: int, i: nat, j: nat)
    requires i < j < |dv| && Contains(dv[i], x) && Contains(dv[j], x)
    ensures Holders(dv, x) >= 2
  {
    if i == 0 {
      assert Contains(dv[1..][j - 1], x);
      HoldersPositive(dv[1..], x);
    } else {
      TwoHolders(dv[1..], x, i - 1, j - 1);
    }
  }

  /** If one part covers the whole block, every other part sends nothing. */
  lemma OnlyOnePiece(dv: seq<Part>, size: nat, a: nat, b: nat, i: nat, j: nat)
    requires Tiles(dv, size) && a < b <= size
    requires i < |dv| && dv[i].offset <= a && dv[i].offset + dv[i].size >= b
    requires j < |dv| && j != i
    ensures PieceSize(dv[j], a, b) == 0
  {
    if PieceSize(dv[j], a, b) > 0 {
      var x := if dv[j].offset >= a then dv[j].offset else a;
      assert Contains(dv[j], x) && Contains(dv[i], x);
      assert Holders(dv, x) == 1;
      if i < j {
        TwoHolders(dv, x, i, j);
      } else {
        TwoHolders(dv, x, j, i);
      }
    }
  }

  lemma {:induction false} PieceComesFrom(dv: seq<Part>, v: seq<byte>, a: nat, b: nat, k: nat) returns (i: nat)
    requires a <= b && Inside(dv, v) && k < |Pieces(dv, v, a, b)|
    ensures i < |dv| && Overlaps(dv[i], a, b) && Pieces(dv, v, a, b)[k] == Piece(PartBytes(v, dv[i]), dv[i], a, b)
  {
    var rest := Pieces(dv[1..], v, a, b);
    if Overlaps(dv[0], a, b) {
      if k == 0 {
        i := 0;
      } else {
        i := PieceComesFrom(dv[1..], v, a, b, k - 1);
        i := i + 1;
      }
    } else {
      assert [] + rest == rest;
      i := PieceComesFrom(dv[1..], v, a, b, k);
      i := i + 1;
    }
  }

  lemma {:induction false} PieceIsSent(dv: seq<Part>, v: seq<byte>, a: nat, b: nat, i: nat)
    requires a <= b && Inside(dv, v) && i < |dv| && Overlaps(dv[i], a, b)
    ensures Piece(PartBytes(v, dv[i]), dv[i], a, b) in Pieces(dv, v, a, b)
  {
    if i > 0 {
      PieceIsSent(dv[1..], v, a, b, i - 1);
      assert dv[1..][i - 1] == dv[i];
    }
  }

  /** What arrives is what was sent. */
  lemma ArrivingPiece(arriving: seq<seq<byte>>, dv: seq<Part>, v: seq<byte>, a: nat, b: nat, k: nat) returns (i: nat)
    requires Arrival(arriving, dv, v, a, b) && k < |arriving|
    ensures i < |dv| && Overlaps(dv[i], a, b) && arriving[k] == Piece(PartBytes(v, dv[i]), dv[i], a, b)
  {
    assert arriving[k] in multiset(arriving);
    var all := Pieces(dv, v, a, b);
    assert arriving[k] in multiset(all);
    var j :| 0 <= j < |all| && all[j] == arriving[k];
    i := PieceComesFrom(dv, v, a, b, j);
  }

  lemma PieceFits(p: Part, a: nat, b: nat)
    requires a <= b
    ensures PieceSize(p, a, b) <= b - a
    ensures PieceSize(p, a, b) == b - a && a < b ==> p.offset <= a && p.offset + p.size >= b
  {
  }

  lemma ArrivalFits(arriving: seq<seq<byte>>, dv: seq<Part>, v: seq<byte>, a: nat, b: nat)
    requires Arrival(arriving, dv, v, a, b)
    ensures Fits(arriving, b - a)
  {
    forall k | 0 <= k < |arriving|
      ensures |arriving[k]| <= b - a
    {
      var i := ArrivingPiece(arriving, dv, v, a, b, k);
      PieceFits(dv[i], a, b);
    }
  }

  lemma {:induction false} OverwriteShort(n: nat, pieces: seq<seq<byte>>)
    requires n > 0 && forall i :: 0 <= i < |pieces| ==> |pieces[i]| < n
    ensures Overwrite(Zeros(n), pieces)[n - 1] == 0
  {
    if pieces != [] {
      OverwriteShort(n, pieces[..|pieces| - 1]);
    }
  }

  lemma {:induction false} OverwriteOne(n: nat, pieces: seq<seq<byte>>, data: seq<byte>)
    requires n > 0 && |data| == n
    requires forall i :: 0 <= i < |pieces| ==> pieces[i] == [] || pieces[i] == data
    ensures Fits(pieces, n)
    ensures Overwrite(Zeros(n), pieces) == if data in pieces then data else Zeros(n)
  {
    if pieces != [] {
      var m := |pieces| - 1;
      OverwriteOne(n, pieces[..m], data);
      var buf := Overwrite(Zeros(n), pieces[..m]);
      if pieces[m] == data {
        assert Splice(buf, 0, data) == data;
      } else {
        assert Splice(buf, 0, []) == buf;
        assert pieces == pieces[..m] + [pieces[m]];
      }
    }
  }

  /** When one part covers the block, the block ends up with that part's first bytes, in any order of arrival. */
  lemma CoveredBlock(arriving: seq<seq<byte>>, dv: seq<Part>, v: seq<byte>, a: nat, b: nat, i: nat)
    requires Tiles(dv, |v|) && a < b <= |v| && Arrival(arriving, dv, v, a, b)
    requires i < |dv| && dv[i].offset <= a && dv[i].offset + dv[i].size >= b
    ensures Fits(arriving, b - a)
    ensures Overwrite(Zeros(b - a), arriving) == v[dv[i].offset..dv[i].offset + (b - a)]
  {
    var data := Piece(PartBytes(v, dv[i]), dv[i], a, b);
    assert data == v[dv[i].offset..dv[i].offset + (b - a)];
    forall k | 0 <= k < |arriving|
      ensures arriving[k] == [] || arriving[k] == data
    {
      var j := ArrivingPiece(arriving, dv, v, a, b, k);
      if j != i {
        OnlyOnePiece(dv, |v|, a, b, i, j);
      }
    }
    PieceIsSent(dv, v, a, b, i);
    assert data in multiset(Pieces(dv, v, a, b));
    assert data in multiset(arriving);
    OverwriteOne(b - a, arriving, data);
  }

  /** The vector that shows where a misaligned block goes wrong: zero before the block, one from there on. */
  function Marked(size: nat, a: nat): (v: seq<byte>)
    ensures |v| == size && forall x :: 0 <= x < size ==> v[x] == if x < a then 0 else 1
  {
    seq(size, x => if x < a then 0 else 1)
  }

  lemma TilesInside(dv: seq<Part>, v: seq<byte>)
    requires Tiles(dv, |v|)
    ensures Inside(dv, v)
  {
    forall i | 0 <= i < |dv|
      ensures dv[i].offset + dv[i].size <= |v|
    {
      assert dv[i] in dv;
    }
  }

  /** A block covered by a part that starts before it gets that part's first byte. */
  lemma CoveredTooEarly(arriving: seq<seq<byte>>, dv: seq<Part>, size: nat, a: nat, b: nat, i: nat)
    requires Tiles(dv, size) && a < b <= size
    requires Arrival(arriving, dv, Marked(size, a), a, b)
    requires i < |dv| && dv[i].offset < a && dv[i].offset + dv[i].size >= b
    ensures !BlockRight(Marked(size, a), a, b, arriving)
  {
    var v := Marked(size, a);
    CoveredBlock(arriving, dv, v, a, b, i);
    assert v[dv[i].offset..dv[i].offset + (b - a)][0] == v[dv[i].offset] == 0;
    assert v[a..b][0] == v[a] == 1;
  }

  /** A block that no single piece fills keeps its last byte at zero. */
  lemma CoveredInPieces(arriving: seq<seq<byte>>, size: nat, a: nat, b: nat)
    requires a < b <= size && forall k :: 0 <= k < |arriving| ==> |arriving[k]| < b - a
    ensures !BlockRight(Marked(size, a), a, b, arriving)
  {
    var v := Marked(size, a);
    OverwriteShort(b - a, arriving);
    assert v[a..b][b - a - 1] == v[b - 1] == 1;
  }

  /** A misaligned block goes wrong for the marked vector, in every order of arrival. */
  lemma MisalignedBlockIsWrong(arriving: seq<seq<byte>>, dv: seq<Part>, size: nat, a: nat, b: nat)
    requires Tiles(dv, size) && a < b <= size && !Aligned(dv, a, b)
    requires Arrival(arriving, dv, Marked(size, a), a, b)
    ensures !BlockRight(Marked(size, a), a, b, arriving)
  {
    ArrivalFits(arriving, dv, Marked(size, a), a, b);
    if k :| 0 <= k < |arriving| && |arriving[k]| == b - a {
      var i := ArrivingPiece(arriving, dv, Marked(size, a), a, b, k);
      PieceFits(dv[i], a, b);
      CoveredTooEarly(arriving, dv, size, a, b, i);
    } else {
      CoveredInPieces(arriving, size, a, b);
    }
  }

  ghost predicate AlwaysRight(dv: seq<Part>, size: nat, a: nat, b: nat)
    requires a <= b <= size
  {
    forall v: seq<byte>, arriving: seq<seq<byte>> {:trigger Arrival(arriving, dv, v, a, b)} ::
      |v| == size && Arrival(arriving, dv, v, a, b) ==> BlockRight(v, a, b, arriving)
  }

  /** A destination block receives its share of every vector, in every order of arrival, if and only if it is
      empty or one source part starts where it starts and covers it. */
  lemma BlockRightExactlyWhenAligned(dv: seq<Part>, size: nat, a: nat, b: nat)
    requires Tiles(dv, size) && a <= b <= size
    ensures AlwaysRight(dv, size, a, b) <==> Aligned(dv, a, b)
  {
    if Aligned(dv, a, b) {
      forall v: seq<byte>, arriving: seq<seq<byte>> | |v| == size && Arrival(arriving, dv, v, a, b)
        ensures BlockRight(v, a, b, arriving)
      {
        ArrivalFits(arriving, dv, v, a, b);
        if a < b {
          var i :| 0 <= i < |dv| && dv[i].offset == a && dv[i].offset + dv[i].size >= b;
          CoveredBlock(arriving, dv, v, a, b, i);
        } else {
          assert Overwrite(Zeros(0), arriving) == [];
        }
      }
    } else {
      var v := Marked(size, a);
      TilesInside(dv, v);
      var arriving := Pieces(dv, v, a, b);
      assert Arrival(arriving, dv, v, a, b);
      MisalignedBlockIsWrong(arriving, dv, size, a, b);
    }
  }

  // ----- the whole prefetch -----

  /** The distribution the head process publishes for the destination. */
  function Published(pids: seq<int>, keys: seq<int>, size: nat): (dv: seq<Part>)
    requires |pids| == |keys|
    ensures |dv| == |pids|
    ensures forall i :: 0 <= i < |pids| ==>
              dv[i] == Part(pids[i], keys[i], BD.BlockSize(size, i, |pids|), BD.BlockBegin(size, i, |pids|))
  {
    seq(|pids|, i requires 0 <= i < |pids| =>
      Part(pids[i], keys[i], BD.BlockSize(size, i, |pids|), BD.BlockBegin(size, i, |pids|)))
  }

  lemma PublishedTiles(pids: seq<int>, keys: seq<int>, size: nat)
    requires |pids| == |keys| > 0
    ensures Tiles(Published(pids, keys, size), size)
  {
    var dv, p := Published(pids, keys, size), |pids|;
    forall i | 0 <= i < p
      ensures dv[i].offset + dv[i].size == BD.BlockBegin(size, i + 1, p)
    {
      BD.BlockLength(size, i, p);
    }
    BD.BlocksTile(size, p, 0, 0);
    ConsecutiveTile(dv, size);
  }

  ghost predicate BlockAlwaysRight(dv: seq<Part>, size: nat, p: nat, i: nat)
    requires i < p
  {
    BD.BlockInside(size, i, p);
    AlwaysRight(dv, size, BD.BlockBegin(size, i, p), BD.BlockEnd(size, i, p))
  }

  predicate BlockAligned(dv: seq<Part>, size: nat, p: nat, i: nat)
    requires 1 <= p
  {
    Aligned(dv, BD.BlockBegin(size, i, p), BD.BlockEnd(size, i, p))
  }

  /** A completed prefetch onto `p` processes hands on every vector unchanged, in every order of arrival, if
      and only if each of the p blocks is aligned with a source part. */
  lemma PrefetchExact(dv: seq<Part>, size: nat, p: nat)
    requires Tiles(dv, size) && 1 <= p
    ensures (forall i: nat :: i < p ==> BlockAlwaysRight(dv, size, p, i)) <==>
            (forall i: nat :: i < p ==> BlockAligned(dv, size, p, i))
  {
    forall i: nat | i < p
      ensures BlockAlwaysRight(dv, size, p, i) <==> BlockAligned(dv, size, p, i)
    {
      BD.BlockInside(size, i, p);
      BlockRightExactlyWhenAligned(dv, size, BD.BlockBegin(size, i, p), BD.BlockEnd(size, i, p));
    }
  }

  lemma SameBlocksAligned(src: seq<int>, srcKeys: seq<int>, size: nat, i: nat)
    requires |src| == |srcKeys| && i < |src|
    ensures BlockAligned(Published(src, srcKeys, size), size, |src|, i)
  {
    BD.BlockLength(size, i, |src|);
    var p := Published(src, srcKeys, size)[i];
    assert p.offset == BD.BlockBegin(size, i, |src|) && p.offset + p.size == BD.BlockEnd(size, i, |src|);
  }

  /** A source distributed in the same blocks is handed on unchanged: each published part's buffer ends up
      with the bytes that the published offset and size claim, so the new distribution describes the same vector. */
  lemma PrefetchKeepsVector(src: seq<int>, srcKeys: seq<int>, pids: seq<int>, keys: seq<int>, v: seq<byte>, i: nat,
                            a: nat, b: nat, arriving: seq<seq<byte>>)
    requires |src| == |srcKeys| == |pids| == |keys| && i < |pids|
    requires a == Published(pids, keys, |v|)[i].offset && b == a + Published(pids, keys, |v|)[i].size
    requires Arrival(arriving, Published(src, srcKeys, |v|), v, a, b)
    ensures Tiles(Published(pids, keys, |v|), |v|)
    ensures a <= b <= |v| && BlockRight(v, a, b, arriving)
  {
    BD.BlockLength(|v|, i, |pids|);
    BD.BlockInside(|v|, i, |pids|);
    PublishedTiles(pids, keys, |v|);
    PublishedTiles(src, srcKeys, |v|);
    SameBlocksAligned(src, srcKeys, |v|, i);
    BlockRightExactlyWhenAligned(Published(src, srcKeys, |v|), |v|, a, b);
  }

  /** Two source parts onto one process: the second piece is written over the first. */
  lemma TwoPartsOntoOneProcess()
    ensures var dv := [Part(1, 10, 1, 0), Part(2, 20, 1, 1)];
            var v: seq<byte> := [7, 9];
            && Tiles(dv, 2) && Arrival([[7], [9]], dv, v, 0, 2)
            && Fits([[7], [9]], 2) && Overwrite(Zeros(2), [[7], [9]]) == [9, 0]
  {
    var p, q := Part(1, 10, 1, 0), Part(2, 20, 1, 1);
    var dv, v: seq<byte> := [p, q], [7, 9];
    assert dv[1..] == [q] && [q][1..] == [];
    forall x | 0 <= x < 2
      ensures Holders(dv, x) == 1
    {
      assert Holders([q], x) == if x == 1 then 1 else 0;
    }
    assert Piece(PartBytes(v, q), q, 0, 2) == [9] && Piece(PartBytes(v, p), p, 0, 2) == [7];
    assert Pieces([q], v, 0, 2) == [[9]];
    assert Pieces(dv, v, 0, 2) == [[7]] + [[9]] == [[7], [9]];
    var pieces: seq<seq<byte>> := [[7], [9]];
    assert pieces[..1] == [[7]] && [[7]][..0] == [];
    assert Overwrite(Zeros(2), [[7]]) == Splice(Zeros(2), 0, [7]) == [7, 0];
    assert Splice([7, 0], 0, [9]) == [9, 0];
  }

  // ----- the sending side -----

  /** The data of every part this process must send from is there, as `fetchDv` asserts. */
  ghost predicate Available(dv: seq<Part>, local: Parts, me: int) {
    forall i :: 0 <= i < |dv| && dv[i].pid == me ==>
      Ready(local, dv[i].resid) && |local[dv[i].resid].bytes| == dv[i].size
  }

  lemma AvailableRest(dv: seq<Part>, local: Parts, me: int, k: nat)
    requires Available(dv, local, me) && k <= |dv|
    ensures Available(dv[k..], local, me)
  {
    assert forall i :: 0 <= i < |dv[k..]| ==> dv[k..][i] == dv[i + k];
  }

  /** What process `me` sends for the block [a, b). */
  ghost function OwnPieces(dv: seq<Part>, local: Parts, me: int, a: nat, b: nat): seq<seq<byte>>
    requires a <= b && Available(dv, local, me)
  {
    if dv == [] then []
    else
      AvailableRest(dv, local, me, 1);
      (if dv[0].pid == me && Overlaps(dv[0], a, b) then [Piece(local[dv[0].resid].bytes, dv[0], a, b)] else [])
      + OwnPieces(dv[1..], local, me, a, b)
  }

  function Address(pieces: seq<seq<byte>>, pid: int, key: int): (r: seq<(int, Message)>)
    ensures |r| == |pieces|
    ensures forall k :: 0 <= k < |r| ==> r[k] == (pid, StoreResultPart(key, pieces[k], 0))
  {
    seq(|pieces|, k requires 0 <= k < |pieces| => (pid, StoreResultPart(key, pieces[k], 0)))
  }

  /** What process `me` sends for block `i`. */
  ghost function BlockPieces(dv: seq<Part>, local: Parts, me: int, size: nat, p: nat, i: nat): seq<seq<byte>>
    requires i < p && Available(dv, local, me)
  {
    BD.BlockInside(size, i, p);
    OwnPieces(dv, local, me, BD.BlockBegin(size, i, p), BD.BlockEnd(size, i, p))
  }

  /** What process `me` sends for every block. */
  ghost function AllBlocks(dv: seq<Part>, local: Parts, me: int, size: nat, p: nat): (r: seq<seq<seq<byte>>>)
    requires Available(dv, local, me)
    ensures |r| == p && forall i: nat :: i < p ==> r[i] == BlockPieces(dv, local, me, size, p, i)
  {
    seq(p, i requires 0 <= i < p => BlockPieces(dv, local, me, size, p, i))
  }

  /** The pieces of the first `n` blocks, each addressed to its destination. */
  function SendBlocks(blocks: seq<seq<seq<byte>>>, pids: seq<int>, keys: seq<int>, n: nat): seq<(int, Message)>
    requires |blocks| == |pids| == |keys| && n <= |pids|
  {
    if n == 0 then [] else SendBlocks(blocks, pids, keys, n - 1) + Address(blocks[n - 1], pids[n - 1], keys[n - 1])
  }

  /** What process `me` sends to the first `n` destinations. */
  ghost function FetchSends(dv: seq<Part>, local: Parts, me: int, pids: seq<int>, keys: seq<int>, size: nat, n: nat)
    : seq<(int, Message)>
    requires |pids| == |keys| && n <= |pids| && Available(dv, local, me)
  {
    SendBlocks(AllBlocks(dv, local, me, size, |pids|), pids, keys, n)
  }

  lemma OwnPiecesStep(dv: seq<Part>, local: Parts, me: int, a: nat, b: nat, k: nat, pid: int, key: int,
                      sends: seq<(int, Message)>)
    requires a <= b && Available(dv, local, me) && k < |dv|
    requires Available(dv[k..], local, me) && Available(dv[k + 1..], local, me)
    ensures var here := dv[k].pid == me && Overlaps(dv[k], a, b);
            sends + Address(OwnPieces(dv[k..], local, me, a, b), pid, key) ==
            (if here then sends + Address([Piece(local[dv[k].resid].bytes, dv[k], a, b)], pid, key) else sends)
            + Address(OwnPieces(dv[k + 1..], local, me, a, b), pid, key)
  {
    var rest := OwnPieces(dv[k + 1..], local, me, a, b);
    assert dv[k..][1..] == dv[k + 1..] && dv[k..][0] == dv[k];
    if dv[k].pid == me && Overlaps(dv[k], a, b) {
      var piece := Piece(local[dv[k].resid].bytes, dv[k], a, b);
      AddressCons(piece, rest, pid, key);
      ConcatAssociates(sends, Address([piece], pid, key), Address(rest, pid, key));
    } else {
      assert [] + rest == rest;
    }
  }

  lemma AddressCons(piece: seq<byte>, rest: seq<seq<byte>>, pid: int, key: int)
    ensures Address([piece] + rest, pid, key) == Address([piece], pid, key) + Address(rest, pid, key)
    ensures Address([piece], pid, key) == [(pid, StoreResultPart(key, piece, 0))]
  {
  }

  /** The inner loop of `fetchDv`: the parts this process holds that meet the block. */
  method SendPieces(dv: seq<Part>, local: Parts, me: int, pid: int, key: int, a: nat, b: nat,
                    before: seq<(int, Message)>)
    returns (sends: seq<(int, Message)>)
    requires a <= b && Available(dv, local, me)
    ensures sends == before + Address(OwnPieces(dv, local, me, a, b), pid, key)
  {
    sends := before;
    assert dv[0..] == dv;
    for k := 0 to |dv|
      invariant Available(dv[k..], local, me)
      invariant sends + Address(OwnPieces(dv[k..], local, me, a, b), pid, key)
             == before + Address(OwnPieces(dv, local, me, a, b), pid, key)
    {
      AvailableRest(dv, local, me, k + 1);
      OwnPiecesStep(dv, local, me, a, b, k, pid, key, sends);
      var p := dv[k];
      if p.pid == me && Overlaps(p, a, b) {
        var data := local[p.resid].bytes;
        var reqSize := ReqSize(p, a, b);
        AddressCons(data[..reqSize], [], pid, key);
        sends := sends + [(pid, StoreResultPart(key, data[..reqSize], 0))];
      }
    }
    assert dv[|dv|..] == [];
    assert sends + [] == sends;
  }

  /** The pieces among some messages that go to part `key` of process `pid`, in order. */
  function PiecesFor(sends: seq<(int, Message)>, pid: int, key: int): seq<seq<byte>> {
    if sends == [] then []
    else
      var (dst, m) := sends[|sends| - 1];
      PiecesFor(sends[..|sends| - 1], pid, key)
      + if dst == pid && m.StoreResultPart? && m.resid == key then [m.data] else []
  }

  lemma {:induction false} PiecesForConcat(a: seq<(int, Message)>, b: seq<(int, Message)>, pid: int, key: int)
    ensures PiecesFor(a + b, pid, key) == PiecesFor(a, pid, key) + PiecesFor(b, pid, key)
    decreases |b|
  {
    if b == [] {
      assert a + b == a;
    } else {
      var n := |b| - 1;
      PiecesForConcat(a, b[..n], pid, key);
      assert (a + b)[..|a| + n] == a + b[..n];
    }
  }

  lemma {:induction false} PiecesAddressed(pieces: seq<seq<byte>>, dst: int, resid: int, pid: int, key: int)
    ensures PiecesFor(Address(pieces, dst, resid), pid, key) == if dst == pid && resid == key then pieces else []
  {
    if pieces != [] {
      var n := |pieces| - 1;
      PiecesAddressed(pieces[..n], dst, resid, pid, key);
      assert Address(pieces, dst, resid)[..n] == Address(pieces[..n], dst, resid);
    }
  }

  /** No two destinations are the same part of the same process. */
  predicate DistinctDestinations(pids: seq<int>, keys: seq<int>)
    requires |pids| == |keys|
  {
    forall i, j :: 0 <= i < j < |pids| ==> pids[i] != pids[j] || keys[i] != keys[j]
  }

  /** Each destination is sent the pieces of its own block, and no others. */
  lemma {:induction false} SendBlocksTo(blocks: seq<seq<seq<byte>>>, pids: seq<int>, keys: seq<int>, n: nat, i: nat)
    requires |blocks| == |pids| == |keys| && n <= |pids| && i < |pids| && DistinctDestinations(pids, keys)
    ensures PiecesFor(SendBlocks(blocks, pids, keys, n), pids[i], keys[i]) == if i < n then blocks[i] else []
    decreases n
  {
    if n > 0 {
      SendBlocksTo(blocks, pids, keys, n - 1, i);
      var before := SendBlocks(blocks, pids, keys, n - 1);
      MorePiecesFor(before, blocks[n - 1], pids, keys, n - 1, i);
      assert SendBlocks(blocks, pids, keys, n) == before + Address(blocks[n - 1], pids[n - 1], keys[n - 1]);
    }
  }

  lemma FetchSendsTo(dv: seq<Part>, local: Parts, me: int, pids: seq<int>, keys: seq<int>, size: nat, i: nat)
    requires |pids| == |keys| && Available(dv, local, me) && DistinctDestinations(pids, keys) && i < |pids|
    ensures PiecesFor(FetchSends(dv, local, me, pids, keys, size, |pids|), pids[i], keys[i]) ==
            BlockPieces(dv, local, me, size, |pids|, i)
  {
    SendBlocksTo(AllBlocks(dv, local, me, size, |pids|), pids, keys, |pids|, i);
  }

  lemma MorePiecesFor(before: seq<(int, Message)>, last: seq<seq<byte>>, pids: seq<int>, keys: seq<int>, n: nat, i: nat)
    requires |pids| == |keys| && n < |pids| && i < |pids| && DistinctDestinations(pids, keys)
    requires i >= n ==> PiecesFor(before, pids[i], keys[i]) == []
    ensures PiecesFor(before + Address(last, pids[n], keys[n]), pids[i], keys[i]) ==
            if i == n then last else PiecesFor(before, pids[i], keys[i])
  {
    PiecesForConcat(before, Address(last, pids[n], keys[n]), pids[i], keys[i]);
    PiecesAddressed(last, pids[n], keys[n], pids[i], keys[i]);
    if i < n {
      assert pids[i] != pids[n] || keys[i] != keys[n];
    } else if n < i {
      assert pids[n] != pids[i] || keys[n] != keys[i];
    }
  }

  /** A message of `fetchDv`: to offset 0 of some destination's part. */
  predicate ToDestination(x: (int, Message), pids: seq<int>, keys: seq<int>)
    requires |pids| == |keys|
  {
    x.1.StoreResultPart? && x.1.offset == 0 && exists i :: 0 <= i < |pids| && x.0 == pids[i] && x.1.resid == keys[i]
  }

  predicate AllToDestinations(sends: seq<(int, Message)>, pids: seq<int>, keys: seq<int>)
    requires |pids| == |keys|
  {
    forall k :: 0 <= k < |sends| ==> ToDestination(sends[k], pids, keys)
  }

  lemma {:induction false} SendBlocksOnly(blocks: seq<seq<seq<byte>>>, pids: seq<int>, keys: seq<int>, n: nat)
    requires |blocks| == |pids| == |keys| && n <= |pids|
    ensures AllToDestinations(SendBlocks(blocks, pids, keys, n), pids, keys)
    decreases n
  {
    if n > 0 {
      SendBlocksOnly(blocks, pids, keys, n - 1);
      AddressedOnly(blocks[n - 1], pids, keys, n - 1);
      AllOfBoth(SendBlocks(blocks, pids, keys, n - 1), Address(blocks[n - 1], pids[n - 1], keys[n - 1]), pids, keys);
    }
  }

  lemma AllOfBoth(a: seq<(int, Message)>, b: seq<(int, Message)>, pids: seq<int>, keys: seq<int>)
    requires |pids| == |keys|
    requires AllToDestinations(a, pids, keys) && AllToDestinations(b, pids, keys)
    ensures AllToDestinations(a + b, pids, keys)
  {
  }

  lemma AddressedOnly(pieces: seq<seq<byte>>, pids: seq<int>, keys: seq<int>, i: nat)
    requires |pids| == |keys| && i < |pids|
    ensures AllToDestinations(Address(pieces, pids[i], keys[i]), pids, keys)
  {
  }

  /** `fetchDv` on one process: it sends to the destinations only, and to each exactly the pieces that this process
      holds of its block. */
  method FetchDv(dv: seq<Part>, local: Parts, me: int, pids: seq<int>, keys: seq<int>, size: nat)
    returns (sends: seq<(int, Message)>)
    requires |pids| == |keys| && BD.Partitions(size, |pids|)
    requires Available(dv, local, me)
    ensures sends == FetchSends(dv, local, me, pids, keys, size, |pids|)
    ensures AllToDestinations(sends, pids, keys)
    ensures DistinctDestinations(pids, keys) ==>
              forall i: nat :: i < |pids| ==>
                PiecesFor(sends, pids[i], keys[i]) == BlockPieces(dv, local, me, size, |pids|, i)
  {
    sends := [];
    for i := 0 to |pids|
      invariant sends == FetchSends(dv, local, me, pids, keys, size, i)
    {
      var a, b := BD.DivideRange(size, i, |pids|);
      sends := SendPieces(dv, local, me, pids[i], keys[i], a, b, sends);
    }
    SendBlocksOnly(AllBlocks(dv, local, me, size, |pids|), pids, keys, |pids|);
    if DistinctDestinations(pids, keys) {
      forall i: nat | i < |pids|
        ensures PiecesFor(sends, pids[i], keys[i]) == BlockPieces(dv, local, me, size, |pids|, i)
      {
        FetchSendsTo(dv, local, me, pids, keys, size, i);
      }
    }
  }

  /** The processes' part of the vector is where the distribution says. */
  ghost predicate Holds(dv: seq<Part>, local: Parts, me: int, v: seq<byte>) {
    && Inside(dv, v) && Available(dv, local, me)
    && forall i :: 0 <= i < |dv| && dv[i].pid == me ==> local[dv[i].resid].bytes == PartBytes(v, dv[i])
  }

  /** The pieces of the parts whose owner is in `owners`. */
  function PiecesFrom(dv: seq<Part>, v: seq<byte>, a: nat, b: nat, owners: set<int>): seq<seq<byte>>
    requires a <= b && Inside(dv, v)
  {
    if dv == [] then []
    else
      (if dv[0].pid in owners && Overlaps(dv[0], a, b) then [Piece(PartBytes(v, dv[0]), dv[0], a, b)] else [])
      + PiecesFrom(dv[1..], v, a, b, owners)
  }

  lemma {:induction false} OwnPiecesAreTheVectors(dv: seq<Part>, local: Parts, me: int, v: seq<byte>, a: nat, b: nat)
    requires a <= b && Holds(dv, local, me, v)
    ensures OwnPieces(dv, local, me, a, b) == PiecesFrom(dv, v, a, b, {me})
  {
    if dv != [] {
      AvailableRest(dv, local, me, 1);
      assert forall i :: 0 <= i < |dv[1..]| ==> dv[1..][i] == dv[i + 1];
      OwnPiecesAreTheVectors(dv[1..], local, me, v, a, b);
    }
  }

  lemma {:induction false} PiecesSplit(dv: seq<Part>, v: seq<byte>, a: nat, b: nat, some: set<int>, one: int)
    requires a <= b && Inside(dv, v) && one !in some
    ensures multiset(PiecesFrom(dv, v, a, b, some + {one}))
         == multiset(PiecesFrom(dv, v, a, b, some)) + multiset(PiecesFrom(dv, v, a, b, {one}))
  {
    if dv != [] {
      PiecesSplit(dv[1..], v, a, b, some, one);
    }
  }

  lemma {:induction false} PiecesFromAll(dv: seq<Part>, v: seq<byte>, a: nat, b: nat, owners: set<int>)
    requires a <= b && Inside(dv, v) && forall i :: 0 <= i < |dv| ==> dv[i].pid in owners
    ensures PiecesFrom(dv, v, a, b, owners) == Pieces(dv, v, a, b)
  {
    if dv != [] {
      assert forall i :: 0 <= i < |dv[1..]| ==> dv[1..][i] == dv[i + 1];
      PiecesFromAll(dv[1..], v, a, b, owners);
    }
  }

  ghost predicate SenderReady(dv: seq<Part>, stores: map<int, Parts>, q: int) {
    q in stores && Available(dv, stores[q], q)
  }

  ghost predicate SendersReady(dv: seq<Part>, stores: map<int, Parts>, procs: seq<int>) {
    forall k {:trigger procs[k]} :: 0 <= k < |procs| ==> SenderReady(dv, stores, procs[k])
  }

  ghost predicate SendersHold(dv: seq<Part>, stores: map<int, Parts>, procs: seq<int>, v: seq<byte>)
    requires SendersReady(dv, stores, procs)
  {
    forall k {:trigger procs[k]} :: 0 <= k < |procs| ==> Holds(dv, stores[procs[k]], procs[k], v)
  }

  /** Everything the source processes send for one block, process after process. */
  ghost function SentByAll(dv: seq<Part>, stores: map<int, Parts>, procs: seq<int>, a: nat, b: nat): seq<seq<byte>>
    requires a <= b && SendersReady(dv, stores, procs)
  {
    if procs == [] then []
    else
      var n := |procs| - 1;
      SentByAll(dv, stores, procs[..n], a, b) + OwnPieces(dv, stores[procs[n]], procs[n], a, b)
  }

  ghost function AsSet(procs: seq<int>): (r: set<int>)
    ensures forall q :: q in r <==> q in procs
  {
    if procs == [] then {} else AsSet(procs[..|procs| - 1]) + {procs[|procs| - 1]}
  }

  lemma {:induction false} SendersSendPieces(dv: seq<Part>, stores: map<int, Parts>, procs: seq<int>, v: seq<byte>,
                                             a: nat, b: nat)
    requires a <= b && Inside(dv, v)
    requires SendersReady(dv, stores, procs) && SendersHold(dv, stores, procs, v)
    requires forall i, j :: 0 <= i < j < |procs| ==> procs[i] != procs[j]
    ensures multiset(SentByAll(dv, stores, procs, a, b)) == multiset(PiecesFrom(dv, v, a, b, AsSet(procs)))
  {
    if procs == [] {
      NoOwnersNoPieces(dv, v, a, b);
    } else {
      var n := |procs| - 1;
      assert procs[n] in procs && procs[n] !in procs[..n];
      SendersSendPieces(dv, stores, procs[..n], v, a, b);
      OwnPiecesAreTheVectors(dv, stores[procs[n]], procs[n], v, a, b);
      PiecesSplit(dv, v, a, b, AsSet(procs[..n]), procs[n]);
    }
  }

  lemma {:induction false} NoOwnersNoPieces(dv: seq<Part>, v: seq<byte>, a: nat, b: nat)
    requires a <= b && Inside(dv, v)
    ensures PiecesFrom(dv, v, a, b, {}) == []
  {
    if dv != [] {
      NoOwnersNoPieces(dv[1..], v, a, b);
    }
  }

  /** What the source processes together send for a block is exactly its pieces, so every order in which it
      can arrive is an `Arrival`. */
  lemma SendersCoverTheBlock(dv: seq<Part>, stores: map<int, Parts>, procs: seq<int>, v: seq<byte>, a: nat, b: nat,
                             arriving: seq<seq<byte>>)
    requires a <= b && Inside(dv, v)
    requires SendersReady(dv, stores, procs) && SendersHold(dv, stores, procs, v)
    requires forall i, j :: 0 <= i < j < |procs| ==> procs[i] != procs[j]
    requires forall i :: 0 <= i < |dv| ==> dv[i].pid in procs
    requires multiset(arriving) == multiset(SentByAll(dv, stores, procs, a, b))
    ensures Arrival(arriving, dv, v, a, b)
  {
    SendersSendPieces(dv, stores, procs, v, a, b);
    PiecesFromAll(dv, v, a, b, AsSet(procs));
  }

  // ----- from the senders to the destination's store -----

  /** Everything that the source processes send, process after process. */
  ghost function AllSends(dv: seq<Part>, stores: map<int, Parts>, procs: seq<int>, pids: seq<int>, keys: seq<int>,
                          size: nat): seq<(int, Message)>
    requires |pids| == |keys| && SendersReady(dv, stores, procs)
  {
    if procs == [] then []
    else
      var n := |procs| - 1;
      AllSends(dv, stores, procs[..n], pids, keys, size)
      + FetchSends(dv, stores[procs[n]], procs[n], pids, keys, size, |pids|)
  }

  lemma {:induction false} AllSendsTo(dv: seq<Part>, stores: map<int, Parts>, procs: seq<int>, pids: seq<int>,
                                      keys: seq<int>, size: nat, i: nat)
    requires |pids| == |keys| && SendersReady(dv, stores, procs) && DistinctDestinations(pids, keys) && i < |pids|
    ensures BD.BlockBegin(size, i, |pids|) <= BD.BlockEnd(size, i, |pids|)
    ensures PiecesFor(AllSends(dv, stores, procs, pids, keys, size), pids[i], keys[i]) ==
            SentByAll(dv, stores, procs, BD.BlockBegin(size, i, |pids|), BD.BlockEnd(size, i, |pids|))
  {
    BD.BlockInside(size, i, |pids|);
    if procs != [] {
      var n := |procs| - 1;
      AllSendsTo(dv, stores, procs[..n], pids, keys, size, i);
      FetchSendsTo(dv, stores[procs[n]], procs[n], pids, keys, size, i);
      PiecesForConcat(AllSends(dv, stores, procs[..n], pids, keys, size),
                      FetchSends(dv, stores[procs[n]], procs[n], pids, keys, size, |pids|), pids[i], keys[i]);
    }
  }

  /** The source processes, each with its parts of the vector. */
  ghost predicate Source(dv: seq<Part>, stores: map<int, Parts>, procs: seq<int>, v: seq<byte>) {
    && Tiles(dv, |v|) && Inside(dv, v)
    && SendersReady(dv, stores, procs) && SendersHold(dv, stores, procs, v)
    && (forall i, j :: 0 <= i < j < |procs| ==> procs[i] != procs[j])
    && (forall i :: 0 <= i < |dv| ==> dv[i].pid in procs)
  }

  /** What reaches destination `i`, in any order in which the senders' messages can interleave. */
  ghost predicate Reaches(arriving: seq<seq<byte>>, dv: seq<Part>, stores: map<int, Parts>, procs: seq<int>,
                          pids: seq<int>, keys: seq<int>, size: nat, i: nat)
    requires |pids| == |keys| && i < |pids| && SendersReady(dv, stores, procs)
  {
    multiset(arriving) == multiset(PiecesFor(AllSends(dv, stores, procs, pids, keys, size), pids[i], keys[i]))
  }

  lemma WhatArrives(arriving: seq<seq<byte>>, dv: seq<Part>, stores: map<int, Parts>, procs: seq<int>, v: seq<byte>,
                    pids: seq<int>, keys: seq<int>, i: nat)
    requires Source(dv, stores, procs, v) && |pids| == |keys| && DistinctDestinations(pids, keys) && i < |pids|
    requires Reaches(arriving, dv, stores, procs, pids, keys, |v|, i)
    ensures Arrival(arriving, dv, v, BD.BlockBegin(|v|, i, |pids|), BD.BlockEnd(|v|, i, |pids|))
  {
    AllSendsTo(dv, stores, procs, pids, keys, |v|, i);
    SendersCoverTheBlock(dv, stores, procs, v, BD.BlockBegin(|v|, i, |pids|), BD.BlockEnd(|v|, i, |pids|), arriving);
  }

  /** An empty block begins where the vector ends. */
  lemma EmptyBlockAtTheEnd(size: nat, i: nat, p: nat)
    requires i < p && BD.BlockBegin(size, i, p) == BD.BlockEnd(size, i, p)
    ensures BD.BlockBegin(size, i, p) == size
  {
    BD.BlockLength(size, i, p);
    BD.DivMod(size, p);
    assert size / p == 0 && size % p == size;
    assert i * 0 == 0;
  }

  lemma {:induction false} NothingAtTheEnd(dv: seq<Part>, v: seq<byte>)
    requires Inside(dv, v)
    ensures Pieces(dv, v, |v|, |v|) == []
  {
    if dv != [] {
      NothingAtTheEnd(dv[1..], v);
    }
  }

  /** The destination's buffer, prepared for block `i` and then fed the first `k` messages that arrive. */
  ghost predicate FedSoFar(parts: Parts, ops: seq<Op>, key: int, n: nat, arriving: seq<seq<byte>>, k: nat) {
    && key in parts && parts[key] == Cell(Zeros(n), VectorStore, n)
    && LegalRun(parts, ops) && OnlyFed(ops, key) && k <= |arriving| && Fed(ops, key) == arriving[..k]
  }

  /** From `fetchDv` on the source processes to a destination's store, over every interleaving of their messages and
      mixed with any operations on other parts: each message is accepted when it comes; after the last the block is
      complete; and it holds its share of the vector if it is aligned with a source part, and not, for some vector, if
      it is not. */
  lemma PrefetchDelivers(dv: seq<Part>, stores: map<int, Parts>, procs: seq<int>, v: seq<byte>, pids: seq<int>,
                         keys: seq<int>, i: nat, arriving: seq<seq<byte>>, parts: Parts, ops: seq<Op>, k: nat)
    requires Source(dv, stores, procs, v) && |pids| == |keys| && DistinctDestinations(pids, keys) && i < |pids|
    requires Reaches(arriving, dv, stores, procs, pids, keys, |v|, i)
    requires FedSoFar(parts, ops, keys[i], BD.BlockSize(|v|, i, |pids|), arriving, k)
    ensures var key, a, b := keys[i], BD.BlockBegin(|v|, i, |pids|), BD.BlockEnd(|v|, i, |pids|);
            && a <= b <= |v| && (a == b ==> arriving == []) && key in Run(parts, ops)
            && (k < |arriving| ==> Legal(Run(parts, ops), AddData(key, arriving[k], 0)))
            && (k == |arriving| && a < b ==> Ready(Run(parts, ops), key))
            && (k == |arriving| && Aligned(dv, a, b) ==> Run(parts, ops)[key].bytes == v[a..b])
            && (k == |arriving| && !Aligned(dv, a, b) && v == Marked(|v|, a) ==> Run(parts, ops)[key].bytes != v[a..b])
  {
    var key, a, b := keys[i], BD.BlockBegin(|v|, i, |pids|), BD.BlockEnd(|v|, i, |pids|);
    BD.BlockInside(|v|, i, |pids|);
    WhatArrives(arriving, dv, stores, procs, v, pids, keys, i);
    FedAccounting(parts, ops, key);
    if a == b {
      EmptyBlockAtTheEnd(|v|, i, |pids|);
      NothingAtTheEnd(dv, v);
      assert |multiset(arriving)| == 0;
    } else {
      PieceAccepted(parts, ops, key, arriving, k, dv, v, a, b);
    }
    if k == |arriving| {
      FinalContents(dv, v, a, b, arriving, parts, ops, key);
    }
  }

  lemma FinalContents(dv: seq<Part>, v: seq<byte>, a: nat, b: nat, arriving: seq<seq<byte>>, parts: Parts, ops: seq<Op>,
                      key: int)
    requires Tiles(dv, |v|) && a <= b <= |v| && Arrival(arriving, dv, v, a, b)
    requires FedSoFar(parts, ops, key, b - a, arriving, |arriving|)
    ensures key in Run(parts, ops)
    ensures Run(parts, ops)[key].bytes == v[a..b] <==> BlockRight(v, a, b, arriving)
    ensures Aligned(dv, a, b) ==> BlockRight(v, a, b, arriving)
    ensures !Aligned(dv, a, b) && v == Marked(|v|, a) ==> !BlockRight(v, a, b, arriving)
  {
    FedAccounting(parts, ops, key);
    assert arriving[..|arriving|] == arriving;
    ArrivalFits(arriving, dv, v, a, b);
    BlockRightExactlyWhenAligned(dv, |v|, a, b);
    if !Aligned(dv, a, b) && v == Marked(|v|, a) {
      MisalignedBlockIsWrong(arriving, dv, |v|, a, b);
    }
  }

  // ----- an empty source part -----

  /** The destination of a two-byte block while process 5 waits for its first byte. */
  function Waiting(cell: Cell, times: nat): Server {
    Server(map[1 := cell], map[1 := [PendingReq(0, 1, 5)]], seq(times, _ => Reply(5, 1, 0, [7])), Running)
  }

  lemma WaitsForByte()
    ensures HandleAll(INITIAL, [PreparePart(1, 2), GetResultParts(5, 5, [PartReq(1, 0, 1)])]) ==
            Waiting(Cell(Zeros(2), VectorStore, 2), 0)
  {
    var ms := [PreparePart(1, 2), GetResultParts(5, 5, [PartReq(1, 0, 1)])];
    HandleTwo(INITIAL, ms);
    var s, one := Handle(INITIAL, ms[0]), [PartReq(1, 0, 1)];
    var t := ServeOne(s, 5, 5, one[0]);
    assert one[1..] == [] && [] + [PendingReq(0, 1, 5)] == [PendingReq(0, 1, 5)];
    assert ServeAll(t, 5, 5, []) == t;
  }

  lemma AnsweredAgain(times: nat)
    ensures var full := Cell([7, 9], VectorStore, 0);
            CheckPartRequired(Waiting(full, times), 1) == Waiting(full, times + 1)
  {
    var data: seq<byte>, w := [7, 9], PendingReq(0, 1, 5);
    var s := Waiting(Cell(data, VectorStore, 0), times);
    AnnouncementRunsExactly(s, 1, data, [w]);
    assert data[0..1] == [7];
    assert s.sent + RepliesToAll([w], 1, data) == seq(times + 1, _ => Reply(5, 1, 0, [7]));
  }

  /** A source part of two bytes and an empty one inside the block: the empty part's piece follows the completing one,
      completes the destination a second time, and the request that waited is answered twice. */
  lemma EmptyPartRepeatsReplies()
    ensures var dv, v: seq<byte> := [Part(3, 10, 2, 0), Part(3, 11, 0, 1)], [7, 9];
            && Tiles(dv, 2) && Arrival([[7, 9], []], dv, v, 0, 2)
    ensures var s := HandleAll(INITIAL, [PreparePart(1, 2), GetResultParts(5, 5, [PartReq(1, 0, 1)])]);
            HandleAll(s, [StoreResultPart(1, [7, 9], 0), StoreResultPart(1, [], 0)]).sent ==
            [Reply(5, 1, 0, [7]), Reply(5, 1, 0, [7])]
  {
    EmptyPartArrives();
    WaitsForByte();
    FirstPieceCompletes();
    EmptyPieceCompletesAgain();
    HandleTwo(Waiting(Cell(Zeros(2), VectorStore, 2), 0), [StoreResultPart(1, [7, 9], 0), StoreResultPart(1, [], 0)]);
    assert Waiting(Cell([7, 9], VectorStore, 0), 2).sent == [Reply(5, 1, 0, [7]), Reply(5, 1, 0, [7])];
  }

  lemma FirstPieceCompletes()
    ensures Handle(Waiting(Cell(Zeros(2), VectorStore, 2), 0), StoreResultPart(1, [7, 9], 0)) ==
            Waiting(Cell([7, 9], VectorStore, 0), 1)
  {
    var s, full := Waiting(Cell(Zeros(2), VectorStore, 2), 0), Cell([7, 9], VectorStore, 0);
    assert Splice(Zeros(2), 0, [7, 9]) == [7, 9];
    assert Change(s, AddData(1, [7, 9], 0)) == Waiting(full, 0);
    AnsweredAgain(0);
  }

  lemma EmptyPieceCompletesAgain()
    ensures Handle(Waiting(Cell([7, 9], VectorStore, 0), 1), StoreResultPart(1, [], 0)) ==
            Waiting(Cell([7, 9], VectorStore, 0), 2)
  {
    var full := Cell([7, 9], VectorStore, 0);
    assert Splice(full.bytes, 0, []) == full.bytes;
    assert Change(Waiting(full, 1), AddData(1, [], 0)) == Waiting(full, 1);
    AnsweredAgain(1);
  }

  lemma EmptyPartArrives()
    ensures var dv, v: seq<byte> := [Part(3, 10, 2, 0), Part(3, 11, 0, 1)], [7, 9];
            && Tiles(dv, 2) && Arrival([[7, 9], []], dv, v, 0, 2)
  {
    var p, q := Part(3, 10, 2, 0), Part(3, 11, 0, 1);
    var dv, v: seq<byte> := [p, q], [7, 9];
    assert dv[1..] == [q] && [q][1..] == [];
    forall x | 0 <= x < 2
      ensures Holders(dv, x) == 1
    {
      assert Holders([q], x) == 0;
    }
    assert Piece(PartBytes(v, q), q, 0, 2) == [] && Piece(PartBytes(v, p), p, 0, 2) == [7, 9];
    assert Pieces([q], v, 0, 2) == [[]];
    assert Pieces(dv, v, 0, 2) == [[7, 9]] + [[]] == [[7, 9], []];
  }

  /** The part of `handlePrefetchMessage` that each rank runs: it prepares the buffer that the head publishes. */
  method PreparePrefetch(s: nat, p: nat, size: nat, partKey: int) returns (op: Op)
    requires s < p && BD.Partitions(size, p)
    ensures forall pids: seq<int>, keys: seq<int> ::
              |pids| == |keys| == p && keys[s] == partKey ==>
              op == Prepare(Published(pids, keys, size)[s].resid, Published(pids, keys, size)[s].size)
  {
    var offset, end := BD.DivideRange(size, s, p);
    op := Prepare(partKey, end - offset);
  }

  /** The loop of the head process that builds the distribution it publishes. */
  method PublishPrefetch(pids: seq<int>, keys: seq<int>, size: nat) returns (vd: seq<Part>)
    requires |pids| == |keys| && BD.Partitions(size, |pids|)
    ensures vd == Published(pids, keys, size)
    ensures Tiles(vd, size) && forall i :: 0 <= i < |pids| ==> vd[i].pid == pids[i] && vd[i].resid == keys[i]
  {
    vd := [];
    for i := 0 to |pids|
      invariant |vd| == i && forall j :: 0 <= j < i ==> vd[j] == Published(pids, keys, size)[j]
    {
      var part := PublishPart(pids, keys, size, i);
      vd := vd + [part];
    }
    PublishedTiles(pids, keys, size);
  }

  method PublishPart(pids: seq<int>, keys: seq<int>, size: nat, i: nat) returns (part: Part)
    requires |pids| == |keys| && i < |pids| && BD.Partitions(size, |pids|)
    ensures part == Published(pids, keys, size)[i]
  {
    var offset, end := BD.DivideRange(size, i, |pids|);
    part := Part(pids[i], keys[i], end - offset, offset);
  }
}
