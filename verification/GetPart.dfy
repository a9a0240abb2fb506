/** `dv_get_part` and `block_distribute`: the slice a client asks for is the slice it gets. */
module GetPart {
  import opened Bytes
  import opened PartStore
  import opened PartRequests
  import opened VectorDistribution
  import opened VectorTransfer

  /** One request: the part's bytes wanted, and where in the output buffer they go. */
  datatype Want = Want(req: PartReq, dst: nat)

  function WantOf(p: Part, lo: nat, hi: nat): (w: Want)
    requires lo <= hi && Overlaps(p, lo, hi)
    ensures lo + w.dst == p.offset + w.req.offset && w.dst + w.req.size <= hi - lo
    ensures w.req.offset + w.req.size <= p.size
  {
    Want(PartReq(p.resid, ReqOffset(p, lo), ReqSize(p, lo, hi)), ReqOffset(p, lo) + p.offset - lo)
  }

  predicate Wanted(p: Part, lo: nat, hi: nat, s: int) {
    p.pid == s && Overlaps(p, lo, hi)
  }

  /** The parts wanted from process `s`, by index, in distribution order. */
  function WantedFrom(dv: seq<Part>, lo: nat, hi: nat, s: int): (idx: seq<nat>)
    ensures forall k :: 0 <= k < |idx| ==> idx[k] < |dv| && Wanted(dv[idx[k]], lo, hi, s)
  {
    if dv == [] then []
    else
      var n := |dv| - 1;
      WantedFrom(dv[..n], lo, hi, s) + if Wanted(dv[n], lo, hi, s) then [n] else []
  }

  function WantsFrom(dv: seq<Part>, lo: nat, hi: nat, s: int): (ws: seq<Want>)
    requires lo <= hi
    ensures |ws| == |WantedFrom(dv, lo, hi, s)|
    ensures forall k :: 0 <= k < |ws| ==> ws[k] == WantOf(dv[WantedFrom(dv, lo, hi, s)[k]], lo, hi)
  {
    var idx := WantedFrom(dv, lo, hi, s);
    seq(|idx|, k requires 0 <= k < |idx| => WantOf(dv[idx[k]], lo, hi))
  }

  lemma {:induction false} EveryWantedPartListed(dv: seq<Part>, lo: nat, hi: nat, s: int, i: nat)
    requires i < |dv| && Wanted(dv[i], lo, hi, s)
    ensures i in WantedFrom(dv, lo, hi, s)
  {
    var n := |dv| - 1;
    if i < n {
      assert dv[..n][i] == dv[i];
      EveryWantedPartListed(dv[..n], lo, hi, s, i);
    }
  }

  lemma WantsSnoc(dv: seq<Part>, n: nat, lo: nat, hi: nat, s: int)
    requires lo <= hi && n < |dv|
    ensures WantsFrom(dv[..n + 1], lo, hi, s)
         == WantsFrom(dv[..n], lo, hi, s) + if Wanted(dv[n], lo, hi, s) then [WantOf(dv[n], lo, hi)] else []
  {
    assert dv[..n + 1][..n] == dv[..n];
    var a, b := WantsFrom(dv[..n + 1], lo, hi, s), WantsFrom(dv[..n], lo, hi, s);
    var idx := WantedFrom(dv[..n], lo, hi, s);
    forall k | 0 <= k < |b|
      ensures a[k] == b[k]
    {
      assert dv[..n + 1][idx[k]] == dv[..n][idx[k]];
    }
  }

  ghost function Indices(idx: seq<nat>): set<nat> {
    set k | k in idx
  }

  // ----- progress of the copy -----

  ghost predicate Held(dv: seq<Part>, done: set<nat>, x: int) {
    exists i: nat :: i in done && i < |dv| && Contains(dv[i], x)
  }

  /** The output holds the vector's bytes wherever a part already done has them, and what it held before
      elsewhere. */
  ghost predicate Copied(now: seq<byte>, before: seq<byte>, dv: seq<Part>, done: set<nat>, v: seq<byte>, lo: nat,
                         size: nat) {
    && |now| == |before| && size <= |now| && lo + size <= |v|
    && (forall j :: size <= j < |now| ==> now[j] == before[j])
    && forall j :: 0 <= j < size ==> now[j] == if Held(dv, done, lo + j) then v[lo + j] else before[j]
  }

  lemma HeldStep(dv: seq<Part>, done: set<nat>, i: nat, x: int)
    requires i < |dv|
    ensures Held(dv, done + {i}, x) <==> Held(dv, done, x) || Contains(dv[i], x)
  {
    if Contains(dv[i], x) {
      assert i in done + {i};
    }
    if Held(dv, done, x) {
      var k: nat :| k in done && k < |dv| && Contains(dv[k], x);
      assert k in done + {i};
    }
  }

  lemma CopyStep(now: seq<byte>, before: seq<byte>, dv: seq<Part>, done: set<nat>, v: seq<byte>, lo: nat, size: nat,
                 i: nat, data: seq<byte>)
    requires Copied(now, before, dv, done, v, lo, size)
    requires i < |dv| && Overlaps(dv[i], lo, lo + size)
    requires var w := WantOf(dv[i], lo, lo + size);
             |data| == w.req.size && data == v[lo + w.dst..lo + w.dst + w.req.size]
    ensures Copied(Splice(now, WantOf(dv[i], lo, lo + size).dst, data), before, dv, done + {i}, v, lo, size)
  {
    var w := WantOf(dv[i], lo, lo + size);
    var next := Splice(now, w.dst, data);
    forall j | 0 <= j < size
      ensures next[j] == if Held(dv, done + {i}, lo + j) then v[lo + j] else before[j]
    {
      HeldStep(dv, done, i, lo + j);
      ClipIsIntersection(dv[i], lo, lo + size, lo + j);
    }
  }

  lemma SkipStep(now: seq<byte>, before: seq<byte>, dv: seq<Part>, done: set<nat>, v: seq<byte>, lo: nat, size: nat,
                 i: nat)
    requires Copied(now, before, dv, done, v, lo, size)
    requires i < |dv| && !Overlaps(dv[i], lo, lo + size)
    ensures Copied(now, before, dv, done + {i}, v, lo, size)
  {
    forall x | lo <= x < lo + size
      ensures Held(dv, done + {i}, x) <==> Held(dv, done, x)
    {
      HeldStep(dv, done, i, x);
    }
  }

  // ----- the copy loops -----

  /** The copy of `readStoredResult` once the part is there; -1, and nothing copied, when it is too short. */
  method ReadStoredResult(stored: seq<byte>, offset: nat, size: nat, out: array<byte>, at: nat) returns (res: int)
    requires at + size <= out.Length
    modifies out
    ensures res == if offset + size > |stored| then -1 else 0
    ensures out[..] == if res == 0 then Splice(old(out[..]), at, stored[offset..offset + size]) else old(out[..])
  {
    if offset + size > |stored| {
      return -1;
    }
    var k := 0;
    while k < size
      invariant 0 <= k <= size
      invariant forall j :: 0 <= j < out.Length ==>
        out[j] == if at <= j < at + k then stored[offset + j - at] else old(out[j])
    {
      out[at + k] := stored[offset + k];
      k := k + 1;
    }
    return 0;
  }

  /** Every byte that a source hands over is the vector's byte at that place. */
  ghost predicate SourcesAgree(dv: seq<Part>, me: int, lo: nat, size: nat, local: Parts,
                               received: map<int, seq<seq<byte>>>, v: seq<byte>) {
    && lo + size <= |v|
    && (forall i :: 0 <= i < |dv| && Wanted(dv[i], lo, lo + size, me) ==>
          && Ready(local, dv[i].resid) && dv[i].offset + dv[i].size <= |v|
          && local[dv[i].resid].bytes == v[dv[i].offset..dv[i].offset + dv[i].size])
    && (forall s :: s != me && WantsFrom(dv, lo, lo + size, s) != [] ==>
          && s in received
          && Brings(received[s], WantsFrom(dv, lo, lo + size, s), v, lo))
  }

  ghost predicate Brings(arriving: seq<seq<byte>>, wants: seq<Want>, v: seq<byte>, lo: nat) {
    && |arriving| == |wants|
    && forall k :: 0 <= k < |wants| ==>
         && lo + wants[k].dst + wants[k].req.size <= |v|
         && arriving[k] == v[lo + wants[k].dst..lo + wants[k].dst + wants[k].req.size]
  }

  /** Receives from one owner: the k-th receive posted takes the k-th message that arrives. */
  method ReceiveFrom(wants: seq<Want>, arriving: seq<seq<byte>>, out: array<byte>,
                     ghost dv: seq<Part>, ghost s: int, ghost done: set<nat>,
                     ghost before: seq<byte>, ghost v: seq<byte>, ghost lo: nat, ghost size: nat)
    requires wants == WantsFrom(dv, lo, lo + size, s) && Brings(arriving, wants, v, lo)
    requires Copied(out[..], before, dv, done, v, lo, size)
    modifies out
    ensures Copied(out[..], before, dv, done + Indices(WantedFrom(dv, lo, lo + size, s)), v, lo, size)
  {
    ghost var idx := WantedFrom(dv, lo, lo + size, s);
    ghost var all := done;
    assert Indices(idx[..0]) == {};
    for i := 0 to |wants|
      invariant all == done + Indices(idx[..i])
      invariant Copied(out[..], before, dv, all, v, lo, size)
    {
      CopyIn(arriving[i], 0, wants[i], out, dv, idx[i], all, before, v, lo, size);
      all := all + {idx[i]};
      assert idx[..i + 1] == idx[..i] + [idx[i]];
    }
    assert idx[..|wants|] == idx;
  }

  /** Copies the wanted bytes of one part into the output. */
  method CopyIn(data: seq<byte>, from: nat, w: Want, out: array<byte>,
                ghost dv: seq<Part>, ghost i: nat, ghost done: set<nat>,
                ghost before: seq<byte>, ghost v: seq<byte>, ghost lo: nat, ghost size: nat)
    requires i < |dv| && Overlaps(dv[i], lo, lo + size) && w == WantOf(dv[i], lo, lo + size)
    requires Copied(out[..], before, dv, done, v, lo, size)
    requires from + w.req.size <= |data|
    requires data[from..from + w.req.size] == v[lo + w.dst..lo + w.dst + w.req.size]
    modifies out
    ensures Copied(out[..], before, dv, done + {i}, v, lo, size)
  {
    ghost var after := Splice(out[..], w.dst, data[from..from + w.req.size]);
    CopyStep(out[..], before, dv, done, v, lo, size, i, data[from..from + w.req.size]);
    var _ := ReadStoredResult(data, from, w.req.size, out, w.dst);
    assert out[..] == after;
  }

  /** The requests grouped so far: for each owner, what is wanted from it, in distribution order. */
  ghost predicate Grouped(reqs: map<int, seq<Want>>, dv: seq<Part>, me: int, lo: nat, hi: nat)
    requires lo <= hi
  {
    && (forall s :: s in reqs <==> s != me && WantsFrom(dv, lo, hi, s) != [])
    && (forall s :: s in reqs ==> reqs[s] == WantsFrom(dv, lo, hi, s))
  }

  lemma GroupStep(reqs: map<int, seq<Want>>, reqs': map<int, seq<Want>>, dv: seq<Part>, i: nat, me: int, lo: nat,
                  hi: nat)
    requires lo <= hi && i < |dv| && Grouped(reqs, dv[..i], me, lo, hi)
    requires reqs' == if Overlaps(dv[i], lo, hi) && dv[i].pid != me
                      then Asking(reqs, dv[i].pid, WantOf(dv[i], lo, hi))
                      else reqs
    ensures Grouped(reqs', dv[..i + 1], me, lo, hi)
  {
    forall s
      ensures s in reqs' <==> s != me && WantsFrom(dv[..i + 1], lo, hi, s) != []
      ensures s in reqs' ==> reqs'[s] == WantsFrom(dv[..i + 1], lo, hi, s)
    {
      WantsSnoc(dv, i, lo, hi, s);
    }
  }

  predicate NotAsked(p: Part, me: int, lo: nat, hi: nat) {
    p.pid == me || !Overlaps(p, lo, hi)
  }

  /** `done` are the parts among the first `n` that no owner is asked for. */
  ghost predicate LocalDone(done: set<nat>, dv: seq<Part>, n: nat, me: int, lo: nat, hi: nat)
    requires n <= |dv|
  {
    forall k: nat :: k in done <==> k < n && NotAsked(dv[k], me, lo, hi)
  }

  lemma LocalDoneStep(done: set<nat>, dv: seq<Part>, n: nat, me: int, lo: nat, hi: nat)
    requires n < |dv| && LocalDone(done, dv, n, me, lo, hi)
    ensures LocalDone(if NotAsked(dv[n], me, lo, hi) then done + {n} else done, dv, n + 1, me, lo, hi)
  {
  }

  /** A part of the caller's own comes from the local store; one outside the slice is skipped. */
  method CopyIfLocal(out: array<byte>, local: Parts, ghost received: map<int, seq<seq<byte>>>,
                     dv: seq<Part>, i: nat, ghost me: int, ghost done: set<nat>,
                     ghost before: seq<byte>, ghost v: seq<byte>, lo: nat, size: nat)
    requires SourcesAgree(dv, me, lo, size, local, received, v)
    requires i < |dv| && NotAsked(dv[i], me, lo, lo + size)
    requires Copied(out[..], before, dv, done, v, lo, size)
    modifies out
    ensures Copied(out[..], before, dv, done + {i}, v, lo, size)
  {
    if Overlaps(dv[i], lo, lo + size) {
      var w := WantOf(dv[i], lo, lo + size);
      assert Wanted(dv[i], lo, lo + size, me);
      LocalSlice(v, dv[i], w, lo);
      CopyIn(local[dv[i].resid].bytes, w.req.offset, w, out, dv, i, done, before, v, lo, size);
    } else {
      SkipStep(out[..], before, dv, done, v, lo, size, i);
    }
  }

  /** `dv_get_part`. Remote requests are grouped by owner, local parts read at once, and the receives posted
      owner by owner; afterwards the output holds the vector's bytes at every place some part covers. */
  method DvGetPart(dv: seq<Part>, me: int, lo: nat, size: nat, out: array<byte>, local: Parts,
                   received: map<int, seq<seq<byte>>>, ghost v: seq<byte>)
    requires size <= out.Length
    requires SourcesAgree(dv, me, lo, size, local, received, v)
    modifies out
    ensures forall j :: 0 <= j < size ==>
      out[j] == if exists i :: 0 <= i < |dv| && Contains(dv[i], lo + j) then v[lo + j] else old(out[j])
    ensures forall j :: size <= j < out.Length ==> out[j] == old(out[j])
  {
    ghost var before := out[..];
    ghost var done;
    var reqs, owners;
    reqs, owners, done := GroupRequests(dv, me, lo, size, out, local, received, v);
    ReceiveAll(dv, me, lo, size, out, received, reqs, owners, done, before, v);
  }

  method AskOwner(reqs: map<int, seq<Want>>, owners: seq<int>, pid: int, w: Want)
    returns (reqs': map<int, seq<Want>>, owners': seq<int>)
    ensures reqs' == Asking(reqs, pid, w) && owners' == if pid in reqs then owners else owners + [pid]
  {
    owners' := if pid in reqs then owners else owners + [pid];
    reqs' := reqs[pid := (if pid in reqs then reqs[pid] else []) + [w]];
  }

  function Asking(reqs: map<int, seq<Want>>, pid: int, w: Want): map<int, seq<Want>> {
    reqs[pid := (if pid in reqs then reqs[pid] else []) + [w]]
  }

  /** After the first `n` parts: the requests are grouped, and the parts that need none are done. */
  ghost predicate GroupedSoFar(reqs: map<int, seq<Want>>, owners: seq<int>, done: set<nat>, dv: seq<Part>, n: nat,
                               me: int, lo: nat, hi: nat)
    requires n <= |dv| && lo <= hi
  {
    && Grouped(reqs, dv[..n], me, lo, hi) && LocalDone(done, dv, n, me, lo, hi)
    && forall s :: s in owners <==> s in reqs
  }

  lemma GroupedStart(dv: seq<Part>, me: int, lo: nat, hi: nat)
    requires lo <= hi
    ensures GroupedSoFar(map[], [], {}, dv, 0, me, lo, hi)
  {
    assert dv[..0] == [];
  }

  lemma CopiedStart(now: seq<byte>, dv: seq<Part>, v: seq<byte>, lo: nat, size: nat)
    requires size <= |now| && lo + size <= |v|
    ensures Copied(now, now, dv, {}, v, lo, size)
  {
  }

  lemma GroupedStep(reqs: map<int, seq<Want>>, owners: seq<int>, done: set<nat>, dv: seq<Part>, n: nat, me: int,
                    lo: nat, hi: nat)
    requires n < |dv| && lo <= hi && GroupedSoFar(reqs, owners, done, dv, n, me, lo, hi)
    ensures if Overlaps(dv[n], lo, hi) && dv[n].pid != me
            then GroupedSoFar(Asking(reqs, dv[n].pid, WantOf(dv[n], lo, hi)),
                              if dv[n].pid in reqs then owners else owners + [dv[n].pid], done, dv, n + 1, me, lo, hi)
            else GroupedSoFar(reqs, owners, done + {n}, dv, n + 1, me, lo, hi)
  {
    LocalDoneStep(done, dv, n, me, lo, hi);
    if Overlaps(dv[n], lo, hi) && dv[n].pid != me {
      GroupStep(reqs, Asking(reqs, dv[n].pid, WantOf(dv[n], lo, hi)), dv, n, me, lo, hi);
    } else {
      GroupStep(reqs, reqs, dv, n, me, lo, hi);
    }
  }

  /** The first loop: what the caller holds itself is copied, the rest is grouped by owner. */
  method GroupRequests(dv: seq<Part>, me: int, lo: nat, size: nat, out: array<byte>, local: Parts,
                       ghost received: map<int, seq<seq<byte>>>, ghost v: seq<byte>)
    returns (reqs: map<int, seq<Want>>, owners: seq<int>, ghost done: set<nat>)
    requires size <= out.Length
    requires SourcesAgree(dv, me, lo, size, local, received, v)
    modifies out
    ensures Grouped(reqs, dv, me, lo, lo + size) && forall s :: s in owners <==> s in reqs
    ensures LocalDone(done, dv, |dv|, me, lo, lo + size)
    ensures Copied(out[..], old(out[..]), dv, done, v, lo, size)
  {
    ghost var before := out[..];
    var hi := lo + size;
    reqs, owners, done := map[], [], {};
    GroupedStart(dv, me, lo, hi);
    CopiedStart(before, dv, v, lo, size);
    for i := 0 to |dv|
      invariant GroupedSoFar(reqs, owners, done, dv, i, me, lo, hi)
      invariant Copied(out[..], before, dv, done, v, lo, size)
    {
      GroupedStep(reqs, owners, done, dv, i, me, lo, hi);
      if Overlaps(dv[i], lo, hi) && dv[i].pid != me {
        reqs, owners := AskOwner(reqs, owners, dv[i].pid, WantOf(dv[i], lo, hi));
      } else {
        CopyIfLocal(out, local, received, dv, i, me, done, before, v, lo, size);
        done := done + {i};
      }
    }
    assert dv[..|dv|] == dv;
  }

  lemma LocalSlice(v: seq<byte>, p: Part, w: Want, lo: nat)
    requires p.offset + p.size <= |v| && lo + w.dst == p.offset + w.req.offset && w.req.offset + w.req.size <= p.size
    ensures v[p.offset..p.offset + p.size][w.req.offset..w.req.offset + w.req.size]
         == v[lo + w.dst..lo + w.dst + w.req.size]
  {
    var whole := v[p.offset..p.offset + p.size];
    assert forall k :: 0 <= k < p.size ==> whole[k] == v[p.offset + k];
  }

  lemma EveryAskedOwnerKnown(dv: seq<Part>, me: int, lo: nat, hi: nat, i: nat)
    requires lo <= hi && i < |dv| && !NotAsked(dv[i], me, lo, hi)
    ensures WantsFrom(dv, lo, hi, dv[i].pid) != []
  {
    EveryWantedPartListed(dv, lo, hi, dv[i].pid, i);
  }

  /** The receive loops over the owners that were asked, in any order. */
  method ReceiveAll(ghost dv: seq<Part>, ghost me: int, ghost lo: nat, ghost size: nat, out: array<byte>,
                    received: map<int, seq<seq<byte>>>, reqs: map<int, seq<Want>>, owners: seq<int>,
                    ghost done: set<nat>, ghost before: seq<byte>, ghost v: seq<byte>)
    requires Grouped(reqs, dv, me, lo, lo + size) && forall s :: s in owners <==> s in reqs
    requires forall s :: s in reqs ==> s in received && Brings(received[s], reqs[s], v, lo)
    requires LocalDone(done, dv, |dv|, me, lo, lo + size)
    requires Copied(out[..], before, dv, done, v, lo, size)
    modifies out
    ensures |before| == out.Length
    ensures forall j :: 0 <= j < size ==>
      out[j] == if exists i :: 0 <= i < |dv| && Contains(dv[i], lo + j) then v[lo + j] else before[j]
    ensures forall j :: size <= j < out.Length ==> out[j] == before[j]
  {
    ghost var all := done;
    for i := 0 to |owners|
      invariant all >= done
      invariant forall k: nat :: k < |dv| && dv[k].pid in owners[..i] ==> k in all
      invariant Copied(out[..], before, dv, all, v, lo, size)
    {
      var s := owners[i];
      assert s in owners;
      ReceiveFrom(reqs[s], received[s], out, dv, s, all, before, v, lo, size);
      all := all + Indices(WantedFrom(dv, lo, lo + size, s));
      assert owners[..i + 1] == owners[..i] + [s];
      forall k: nat | k < |dv| && dv[k].pid == s
        ensures k in all
      {
        if k !in done {
          EveryWantedPartListed(dv, lo, lo + size, s, k);
        }
      }
    }
    assert owners[..|owners|] == owners;
    forall k: nat | k < |dv|
      ensures k in all
    {
      if k !in done {
        EveryAskedOwnerKnown(dv, me, lo, lo + size, k);
      }
    }
    HeldByAll(dv, all);
  }

  lemma HeldByAll(dv: seq<Part>, all: set<nat>)
    requires forall k: nat :: k < |dv| ==> k in all
    ensures forall x :: Held(dv, all, x) <==> exists i :: 0 <= i < |dv| && Contains(dv[i], x)
  {
    forall x
      ensures Held(dv, all, x) <==> exists i :: 0 <= i < |dv| && Contains(dv[i], x)
    {
      if i :| 0 <= i < |dv| && Contains(dv[i], x) {
        assert i in all;
      }
    }
  }
}

/** `block_distribute` followed by the same client's `dv_get_part`, over every interleaving of the network. */
module DistributeRoundTrip {
  import opened Bytes
  import opened PartStore
  import opened PartRequests
  import opened VectorDistribution
  import opened VectorTransfer
  import opened GetPart
  import BD = BlockDistribution

  /** What `block_distribute` sends: to each part's owner, its bytes under its key. */
  function Stores(dv: seq<Part>, v: seq<byte>): seq<(int, Message)>
    requires Inside(dv, v)
  {
    if dv == [] then []
    else
      var n := |dv| - 1;
      Stores(dv[..n], v) + [(dv[n].pid, StoreResult(dv[n].resid, PartBytes(v, dv[n])))]
  }

  function ReqsOf(ws: seq<Want>): seq<PartReq> {
    seq(|ws|, k requires 0 <= k < |ws| => ws[k].req)
  }

  /** What `dv_get_part` sends: one message to each owner that has wanted bytes. */
  function Requests(dv: seq<Part>, owners: seq<int>, client: int, lo: nat, hi: nat): seq<(int, Message)>
    requires lo <= hi
  {
    if owners == [] then []
    else [(owners[0], GetResultParts(client, client, ReqsOf(WantsFrom(dv, lo, hi, owners[0]))))]
         + Requests(dv, owners[1..], client, lo, hi)
  }

  function Program(dv: seq<Part>, v: seq<byte>, owners: seq<int>, client: int, lo: nat, hi: nat): seq<(int, Message)>
    requires Inside(dv, v) && lo <= hi
  {
    Stores(dv, v) + Requests(dv, owners, client, lo, hi)
  }

  predicate DistinctKeys(dv: seq<Part>) {
    forall i, j :: 0 <= i < j < |dv| ==> dv[i].resid != dv[j].resid
  }

  /** The owners to ask: every process with wanted bytes, once, and no other. */
  ghost predicate AskedOwners(dv: seq<Part>, owners: seq<int>, lo: nat, hi: nat)
    requires lo <= hi
  {
    && (forall i, j :: 0 <= i < j < |owners| ==> owners[i] != owners[j])
    && (forall s :: s in owners <==> WantsFrom(dv, lo, hi, s) != [])
  }

  lemma {:induction false} ToConcat(a: seq<(int, Message)>, b: seq<(int, Message)>, pid: int)
    ensures To(a + b, pid) == To(a, pid) + To(b, pid)
  {
    if a == [] {
      assert a + b == b;
      assert [] + To(b, pid) == To(b, pid);
    } else {
      ToConcat(a[1..], b, pid);
      assert (a + b)[1..] == a[1..] + b && (a + b)[0] == a[0];
      ConcatAssociates([a[0].1], To(a[1..], pid), To(b, pid));
    }
  }

  /** The stores for one owner: fresh keys, and afterwards exactly its parts. */
  ghost predicate StoresParts(script: seq<Message>, dv: seq<Part>, v: seq<byte>, pid: int, client: int, keys: set<int>)
    requires Inside(dv, v)
  {
    && WellOrdered(script, client, keys)
    && AnswersTo(script, client, keys) == []
    && (forall i :: 0 <= i < |dv| && dv[i].pid == pid ==>
          dv[i].resid in StoredBy(script) && StoredBy(script)[dv[i].resid] == PartBytes(v, dv[i]))
    && (forall k :: k in StoredBy(script) ==> NamesPart(dv, k))
  }

  ghost predicate NamesPart(dv: seq<Part>, key: int) {
    exists i :: 0 <= i < |dv| && dv[i].resid == key
  }

  lemma StoreAnother(script: seq<Message>, dv: seq<Part>, v: seq<byte>, pid: int, client: int, keys: set<int>)
    requires Inside(dv, v) && DistinctKeys(dv) && dv != []
    requires dv[|dv| - 1].resid in keys && dv[|dv| - 1].pid == pid
    requires Inside(dv[..|dv| - 1], v) && StoresParts(script, dv[..|dv| - 1], v, pid, client, keys)
    ensures var last := dv[|dv| - 1];
            StoresParts(script + [StoreResult(last.resid, PartBytes(v, last))], dv, v, pid, client, keys)
  {
    var n := |dv| - 1;
    var m := StoreResult(dv[n].resid, PartBytes(v, dv[n]));
    assert (script + [m])[..|script|] == script;
    assert forall i :: 0 <= i < n ==> dv[..n][i] == dv[i];
    assert dv[n].resid !in StoredBy(script);
    forall k | k in StoredBy(script + [m])
      ensures NamesPart(dv, k)
    {
      if k == m.resid {
        assert dv[n].resid == k;
      } else {
        assert NamesPart(dv[..n], k);
        var i :| 0 <= i < n && dv[..n][i].resid == k;
        assert dv[i].resid == k;
      }
    }
  }

  lemma StoreElsewhere(script: seq<Message>, dv: seq<Part>, v: seq<byte>, pid: int, client: int, keys: set<int>)
    requires Inside(dv, v) && dv != [] && dv[|dv| - 1].pid != pid
    requires Inside(dv[..|dv| - 1], v) && StoresParts(script, dv[..|dv| - 1], v, pid, client, keys)
    ensures StoresParts(script, dv, v, pid, client, keys)
  {
    var n := |dv| - 1;
    assert forall i :: 0 <= i < n ==> dv[..n][i] == dv[i];
    forall k | k in StoredBy(script)
      ensures NamesPart(dv, k)
    {
      assert NamesPart(dv[..n], k);
      var i :| 0 <= i < n && dv[..n][i].resid == k;
      assert dv[i].resid == k;
    }
  }

  lemma {:induction false} StoresOrdered(dv: seq<Part>, v: seq<byte>, pid: int, client: int, keys: set<int>)
    requires Inside(dv, v) && DistinctKeys(dv) && forall i :: 0 <= i < |dv| ==> dv[i].resid in keys
    ensures StoresParts(To(Stores(dv, v), pid), dv, v, pid, client, keys)
  {
    if dv != [] {
      var n := |dv| - 1;
      assert forall i :: 0 <= i < n ==> dv[..n][i] == dv[i];
      StoresOrdered(dv[..n], v, pid, client, keys);
      LastStore(dv, v, pid);
      if dv[n].pid == pid {
        StoreAnother(To(Stores(dv[..n], v), pid), dv, v, pid, client, keys);
      } else {
        StoreElsewhere(To(Stores(dv[..n], v), pid), dv, v, pid, client, keys);
      }
    }
  }

  lemma LastStore(dv: seq<Part>, v: seq<byte>, pid: int)
    requires Inside(dv, v) && dv != [] && Inside(dv[..|dv| - 1], v)
    ensures var last := dv[|dv| - 1];
            var before := To(Stores(dv[..|dv| - 1], v), pid);
            To(Stores(dv, v), pid) ==
            if last.pid == pid then before + [StoreResult(last.resid, PartBytes(v, last))] else before
  {
    var n := |dv| - 1;
    var last := (dv[n].pid, StoreResult(dv[n].resid, PartBytes(v, dv[n])));
    ToConcat(Stores(dv[..n], v), [last], pid);
    assert [last][1..] == [] && To([last][1..], pid) == [];
    assert To(Stores(dv[..n], v), pid) + [] == To(Stores(dv[..n], v), pid);
  }

  lemma {:induction false} OneRequestEach(dv: seq<Part>, owners: seq<int>, client: int, lo: nat, hi: nat, pid: int)
    requires lo <= hi
    requires forall i, j :: 0 <= i < j < |owners| ==> owners[i] != owners[j]
    ensures To(Requests(dv, owners, client, lo, hi), pid)
         == if pid in owners then [GetResultParts(client, client, ReqsOf(WantsFrom(dv, lo, hi, pid)))] else []
  {
    if owners != [] {
      OneRequestEach(dv, owners[1..], client, lo, hi, pid);
      assert forall i :: 1 <= i < |owners| ==> owners[i] == owners[1..][i - 1];
      if pid == owners[0] {
        assert pid !in owners[1..];
      }
    }
  }

  /** What `w` asks for is stored, and is the slice's. */
  predicate StoredSlice(stored: map<int, seq<byte>>, w: Want, keys: set<int>, v: seq<byte>, lo: nat) {
    && w.req.resid in keys && w.req.resid in stored && w.req.offset + w.req.size <= |stored[w.req.resid]|
    && lo + w.dst + w.req.size <= |v|
    && Slice(stored, w.req) == v[lo + w.dst..lo + w.dst + w.req.size]
  }

  /** The `k`-th part wanted from an owner is stored there, and its clip is the slice's. */
  lemma WantedSliceStored(script: seq<Message>, dv: seq<Part>, v: seq<byte>, pid: int, client: int, keys: set<int>,
                          lo: nat, hi: nat, k: nat)
    requires lo <= hi && Inside(dv, v) && StoresParts(script, dv, v, pid, client, keys)
    requires forall i :: 0 <= i < |dv| ==> dv[i].resid in keys
    requires k < |WantsFrom(dv, lo, hi, pid)|
    ensures StoredSlice(StoredBy(script), WantsFrom(dv, lo, hi, pid)[k], keys, v, lo)
  {
    var p, w := dv[WantedFrom(dv, lo, hi, pid)[k]], WantsFrom(dv, lo, hi, pid)[k];
    assert w == WantOf(p, lo, hi);
    LocalSlice(v, p, w, lo);
  }

  /** A request for parts stored before it brings back their bytes. */
  lemma AskForStored(script: seq<Message>, ws: seq<Want>, client: int, keys: set<int>, v: seq<byte>, lo: nat)
    requires WellOrdered(script, client, keys) && AnswersTo(script, client, keys) == []
    requires forall k: nat :: k < |ws| ==> StoredSlice(StoredBy(script), ws[k], keys, v, lo)
    ensures var all := script + [GetResultParts(client, client, ReqsOf(ws))];
            WellOrdered(all, client, keys) && Brings(AnswersTo(all, client, keys), ws, v, lo)
  {
    var m, stored := GetResultParts(client, client, ReqsOf(ws)), StoredBy(script);
    assert (script + [m])[..|script|] == script;
    forall r | r in ReqsOf(ws)
      ensures r.resid in keys && r.resid in stored && r.offset + r.size <= |stored[r.resid]|
    {
      var k :| 0 <= k < |ws| && ReqsOf(ws)[k] == r;
      assert StoredSlice(stored, ws[k], keys, v, lo);
    }
    assert [] + Slices(stored, ReqsOf(ws)) == Slices(stored, ReqsOf(ws));
  }

  /** One owner's whole script is well ordered, and its answers are the client's slice, piece by piece. */
  lemma ScriptBringsSlice(script: seq<Message>, dv: seq<Part>, v: seq<byte>, pid: int, client: int, keys: set<int>,
                          lo: nat, hi: nat)
    requires lo <= hi && Inside(dv, v) && StoresParts(script, dv, v, pid, client, keys)
    requires forall i :: 0 <= i < |dv| ==> dv[i].resid in keys
    ensures var m := GetResultParts(client, client, ReqsOf(WantsFrom(dv, lo, hi, pid)));
            && WellOrdered(script + [m], client, keys)
            && Brings(AnswersTo(script + [m], client, keys), WantsFrom(dv, lo, hi, pid), v, lo)
  {
    var ws := WantsFrom(dv, lo, hi, pid);
    forall k: nat | k < |ws|
      ensures StoredSlice(StoredBy(script), ws[k], keys, v, lo)
    {
      WantedSliceStored(script, dv, v, pid, client, keys, lo, hi, k);
    }
    AskForStored(script, ws, client, keys, v, lo);
  }

  lemma ProgramScript(dv: seq<Part>, v: seq<byte>, owners: seq<int>, client: int, keys: set<int>, lo: nat, hi: nat,
                      pid: int)
    requires lo <= hi && Inside(dv, v) && DistinctKeys(dv) && AskedOwners(dv, owners, lo, hi)
    requires forall i :: 0 <= i < |dv| ==> dv[i].resid in keys
    ensures var script := To(Program(dv, v, owners, client, lo, hi), pid);
            && WellOrdered(script, client, keys)
            && (pid in owners ==> Brings(AnswersTo(script, client, keys), WantsFrom(dv, lo, hi, pid), v, lo))
  {
    StoresThenRequest(dv, v, owners, client, lo, hi, pid);
    StoresOrdered(dv, v, pid, client, keys);
    if pid in owners {
      ScriptBringsSlice(To(Stores(dv, v), pid), dv, v, pid, client, keys, lo, hi);
    }
  }

  /** An owner is sent its stores and then one request if it is asked. */
  lemma StoresThenRequest(dv: seq<Part>, v: seq<byte>, owners: seq<int>, client: int, lo: nat, hi: nat, pid: int)
    requires lo <= hi && Inside(dv, v) && AskedOwners(dv, owners, lo, hi)
    ensures var stores := To(Stores(dv, v), pid);
            To(Program(dv, v, owners, client, lo, hi), pid) ==
            if pid !in owners then stores
            else stores + [GetResultParts(client, client, ReqsOf(WantsFrom(dv, lo, hi, pid)))]
  {
    ToConcat(Stores(dv, v), Requests(dv, owners, client, lo, hi), pid);
    OneRequestEach(dv, owners, client, lo, hi, pid);
    assert To(Stores(dv, v), pid) + [] == To(Stores(dv, v), pid);
  }

  /** What each server has sent the client. */
  ghost function Received(w: World, client: int): map<int, seq<seq<byte>>> {
    map s | s in w.servers :: ReceivedBy(w.servers[s].sent, client)
  }

  /** An execution of the client's program in which everything it sent has been handled. */
  ghost predicate Finished(run: seq<World>, dv: seq<Part>, v: seq<byte>, owners: seq<int>, client: int,
                           keys: set<int>, lo: nat, size: nat) {
    && Inside(dv, v) && AskedOwners(dv, owners, lo, lo + size)
    && Execution(run, client, keys)
    && Init(run[0], Program(dv, v, owners, client, lo, lo + size), client, keys)
    && Quiet(run[|run| - 1])
    && forall s :: s in owners ==> s in run[|run| - 1].servers
  }

  ghost predicate OwnedKeys(dv: seq<Part>, client: int, keys: set<int>) {
    DistinctKeys(dv) && forall k :: 0 <= k < |dv| ==> dv[k].resid in keys && dv[k].pid != client
  }

  lemma ProgramIsGood(dv: seq<Part>, v: seq<byte>, owners: seq<int>, client: int, keys: set<int>, lo: nat, hi: nat)
    requires lo <= hi && Inside(dv, v) && AskedOwners(dv, owners, lo, hi) && OwnedKeys(dv, client, keys)
    ensures GoodProgram(Program(dv, v, owners, client, lo, hi), client, keys)
  {
    forall pid
      ensures WellOrdered(To(Program(dv, v, owners, client, lo, hi), pid), client, keys)
    {
      ProgramScript(dv, v, owners, client, keys, lo, hi, pid);
    }
  }

  lemma ProgramAnswered(run: seq<World>, dv: seq<Part>, v: seq<byte>, owners: seq<int>, client: int, keys: set<int>,
                        lo: nat, size: nat, s: int)
    requires Finished(run, dv, v, owners, client, keys, lo, size) && OwnedKeys(dv, client, keys) && s in owners
    ensures var script := To(Program(dv, v, owners, client, lo, lo + size), s);
            && WellOrdered(script, client, keys)
            && ReceivedBy(run[|run| - 1].servers[s].sent, client) == AnswersTo(script, client, keys)
  {
    ProgramIsGood(dv, v, owners, client, keys, lo, lo + size);
    AllAnswersArrive(run, s, Program(dv, v, owners, client, lo, lo + size), client, keys);
  }

  lemma OwnerBrings(run: seq<World>, dv: seq<Part>, v: seq<byte>, owners: seq<int>, client: int, keys: set<int>,
                    lo: nat, size: nat, s: int)
    requires Finished(run, dv, v, owners, client, keys, lo, size) && OwnedKeys(dv, client, keys) && s in owners
    ensures Brings(ReceivedBy(run[|run| - 1].servers[s].sent, client), WantsFrom(dv, lo, lo + size, s), v, lo)
  {
    ProgramAnswered(run, dv, v, owners, client, keys, lo, size, s);
    ProgramScript(dv, v, owners, client, keys, lo, lo + size, s);
  }

  /** In every execution, once the client's messages have been handled, the replies it receives are the
      slice's bytes: owner by owner, k-th reply for k-th request. */
  lemma SliceComesBack(run: seq<World>, dv: seq<Part>, v: seq<byte>, owners: seq<int>, client: int, keys: set<int>,
                       lo: nat, size: nat)
    requires Finished(run, dv, v, owners, client, keys, lo, size) && OwnedKeys(dv, client, keys)
    requires lo + size <= |v|
    ensures SourcesAgree(dv, client, lo, size, map[], Received(run[|run| - 1], client), v)
  {
    forall s | s in owners
      ensures s in Received(run[|run| - 1], client)
      ensures Brings(Received(run[|run| - 1], client)[s], WantsFrom(dv, lo, lo + size, s), v, lo)
    {
      OwnerBrings(run, dv, v, owners, client, keys, lo, size, s);
    }
  }

  /** Such executions exist: whatever the distribution and the slice, the client's program can run to its end. */
  lemma ProgramCanFinish(dv: seq<Part>, v: seq<byte>, owners: seq<int>, client: int, keys: set<int>, lo: nat, size: nat)
    returns (run: seq<World>)
    requires Inside(dv, v) && AskedOwners(dv, owners, lo, lo + size)
    ensures Finished(run, dv, v, owners, client, keys, lo, size)
  {
    var program := Program(dv, v, owners, client, lo, lo + size);
    var procs := (set i | 0 <= i < |program| :: program[i].0) + (set i | 0 <= i < |owners| :: owners[i]);
    StartIsInit(program, procs, client, keys);
    run := CanFinish(Start(program, procs), [], client, keys);
    assert forall s :: s in owners ==> s in procs;
  }

  lemma StartIsInit(program: seq<(int, Message)>, procs: set<int>, client: int, keys: set<int>)
    requires forall i :: 0 <= i < |program| ==> program[i].0 in procs
    ensures var w := Start(program, procs);
            && Init(w, program, client, keys) && Addressed(w) && w.servers.Keys == procs
            && forall s :: s in w.inbox ==> w.inbox[s] == []
  {
    NewServerServes(client, keys);
  }

  lemma NewServerServes(client: int, keys: set<int>)
    ensures Served(INITIAL, [], client, keys)
  {
  }

  /** Nothing sent yet; every process's server is new. */
  ghost function Start(program: seq<(int, Message)>, procs: set<int>): World {
    World(program, map s | s in procs :: [], map s | s in procs :: [], map s | s in procs :: INITIAL)
  }

  /** The keys a head process draws for a distribution of `count` parts. */
  ghost function KeyRange(firstKey: int, count: nat): (keys: set<int>)
    ensures forall k :: k in keys <==> firstKey - count < k <= firstKey
  {
    if count == 0 then {} else KeyRange(firstKey, count - 1) + {firstKey - (count - 1)}
  }

  lemma BlockKeysOwned(pids: seq<int>, firstKey: int, n: nat, elemSize: nat, client: int)
    requires client !in pids
    ensures OwnedKeys(BlockParts(pids, firstKey, n, elemSize), client, KeyRange(firstKey, |pids|))
  {
    var dv := BlockParts(pids, firstKey, n, elemSize);
    forall k | 0 <= k < |dv|
      ensures dv[k].resid == firstKey - k && dv[k].pid == pids[k]
    {
      BlockPartNames(pids, firstKey, n, elemSize, k);
    }
  }

  lemma BlockPartNames(pids: seq<int>, firstKey: int, n: nat, elemSize: nat, k: nat)
    requires k < |pids|
    ensures BlockPart(pids, firstKey, n, elemSize, k).resid == firstKey - k
    ensures BlockPart(pids, firstKey, n, elemSize, k).pid == pids[k]
  {
  }

  lemma BlocksCover(pids: seq<int>, firstKey: int, n: nat, elemSize: nat, x: nat)
    requires pids != [] && x < n * elemSize
    ensures var dv := BlockParts(pids, firstKey, n, elemSize); exists i :: 0 <= i < |dv| && Contains(dv[i], x)
  {
    BlockPartsTile(pids, firstKey, n, elemSize);
    HoldersPositive(BlockParts(pids, firstKey, n, elemSize), x);
  }

  /** The client's program for a block distribution: for every vector, element size, process list and slice,
      and every execution of the network, the output buffer ends up holding exactly that slice. */
  method BlockDistributeThenGetPart(pids: seq<int>, firstKey: int, v: seq<byte>, n: nat, elemSize: nat,
                                    client: int, lo: nat, size: nat, out: array<byte>,
                                    received: map<int, seq<seq<byte>>>,
                                    ghost owners: seq<int>, ghost run: seq<World>)
    requires BD.Partitions(n, |pids|) && |v| == n * elemSize && client !in pids
    requires lo + size <= |v| && size <= out.Length
    requires var dv, keys := BlockParts(pids, firstKey, n, elemSize), KeyRange(firstKey, |pids|);
             Finished(run, dv, v, owners, client, keys, lo, size)
    requires received == Received(run[|run| - 1], client)
    modifies out
    ensures out[..size] == v[lo..lo + size]
  {
    var dv, _ := DistributeVector(pids, firstKey, n, elemSize);
    BlockKeysOwned(pids, firstKey, n, elemSize, client);
    SliceComesBack(run, dv, v, owners, client, KeyRange(firstKey, |pids|), lo, size);
    DvGetPart(dv, client, lo, size, out, map[], received, v);
    forall j | 0 <= j < size
      ensures out[j] == v[lo + j]
    {
      BlocksCover(pids, firstKey, n, elemSize, lo + j);
    }
  }
}
