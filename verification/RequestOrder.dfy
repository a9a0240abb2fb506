/** In which order the parts of one request come back. The client posts its receives in request order and the k-th takes
    whatever the owner sends k-th, so the bytes are right only if the replies leave in request order: those of the parts
    that are ready at once, the others when they complete. */
module RequestOrder {
  import opened Bytes
  import opened PartStore
  import opened PartRequests

  // ----- one client's share -----

  /** The replies to process `c`. */
  function To(sent: seq<Reply>, c: int): seq<Reply> {
    if sent == [] then []
    else To(sent[..|sent| - 1], c) + if sent[|sent| - 1].dst == c then [sent[|sent| - 1]] else []
  }

  /** The waiting requests of process `c`. */
  function Mine(waiting: seq<PendingReq>, c: int): seq<PendingReq> {
    if waiting == [] then []
    else Mine(waiting[..|waiting| - 1], c) + if waiting[|waiting| - 1].dst == c then [waiting[|waiting| - 1]] else []
  }

  lemma ToOne(sent: seq<Reply>, r: Reply, c: int)
    ensures To(sent + [r], c) == To(sent, c) + if r.dst == c then [r] else []
  {
    assert (sent + [r])[..|sent|] == sent;
  }

  lemma MineOne(waiting: seq<PendingReq>, w: PendingReq, c: int)
    ensures Mine(waiting + [w], c) == Mine(waiting, c) + if w.dst == c then [w] else []
  {
    assert (waiting + [w])[..|waiting|] == waiting;
  }

  lemma {:induction false} ToConcat(sent: seq<Reply>, more: seq<Reply>, c: int)
    ensures To(sent + more, c) == To(sent, c) + To(more, c)
    decreases |more|
  {
    if more == [] {
      assert sent + more == sent;
    } else {
      var n := |more| - 1;
      ToConcat(sent, more[..n], c);
      assert (sent + more)[..|sent| + n] == sent + more[..n];
    }
  }

  lemma {:induction false} ToAll(rs: seq<Reply>, c: int)
    requires forall i :: 0 <= i < |rs| ==> rs[i].dst == c
    ensures To(rs, c) == rs
  {
    if rs != [] {
      ToAll(rs[..|rs| - 1], c);
    }
  }

  lemma {:induction false} MineFit(waiting: seq<PendingReq>, n: nat, c: int)
    requires WaitersFit(waiting, n)
    ensures WaitersFit(Mine(waiting, c), n)
  {
    if waiting != [] {
      MineFit(waiting[..|waiting| - 1], n, c);
    }
  }

  /** Of the answers to a waiting list, `c` gets those to its own entries. */
  lemma {:induction false} MyAnswers(waiting: seq<PendingReq>, key: int, data: seq<byte>, c: int)
    requires WaitersFit(waiting, |data|)
    ensures WaitersFit(Mine(waiting, c), |data|)
    ensures To(RepliesToAll(waiting, key, data), c) == RepliesToAll(Mine(waiting, c), key, data)
  {
    MineFit(waiting, |data|, c);
    if waiting == [] {
      assert RepliesToAll(waiting, key, data) == [];
    } else {
      var n := |waiting| - 1;
      MyAnswers(waiting[..n], key, data, c);
      var rest, r := RepliesToAll(waiting[..n], key, data), ReplyTo(waiting[n], key, data);
      assert RepliesToAll(waiting, key, data) == rest + [r];
      ToOne(rest, r, c);
      if waiting[n].dst == c {
        assert RepliesToAll(Mine(waiting, c), key, data) == RepliesToAll(Mine(waiting[..n], c), key, data) + [r];
      } else {
        assert Mine(waiting[..n], c) + [] == Mine(waiting[..n], c);
      }
    }
  }

  // ----- which parts a run completes -----

  /** The part whose completion a message announces. */
  function Announced(s: Server, m: Message): seq<int> {
    match m
    case StoreResult(resid, _) => [resid]
    case StoreResultPart(resid, data, _) =>
      if resid in s.parts && |data| == s.parts[resid].remaining then [resid] else []
    case _ => []
  }

  /** The parts that a run completes, in order. */
  function Completions(s: Server, ms: seq<Message>): seq<int>
    decreases |ms|
  {
    if ms == [] then [] else Announced(s, ms[0]) + Completions(Handle(s, ms[0]), ms[1..])
  }

  /** Not a request by or for `c`. */
  predicate NotFrom(m: Message, c: int) {
    m.GetResultParts? ==> m.src != c && m.forwardTo != c
  }

  lemma {:induction false} OthersRequest(s: Server, src: int, forwardTo: int, reqs: seq<PartReq>, c: int, k: int)
    requires src != c && forwardTo != c
    ensures var t := ServeAll(s, src, forwardTo, reqs);
            To(t.sent, c) == To(s.sent, c) && Mine(WaitingFor(t, k), c) == Mine(WaitingFor(s, k), c)
    decreases |reqs|
  {
    if reqs != [] && s.health.Running? {
      var r, t := reqs[0], ServeOne(s, src, forwardTo, reqs[0]);
      OthersRequest(t, src, forwardTo, reqs[1..], c, k);
      if !Ready(s.parts, r.resid) {
        MineOne(WaitingFor(s, r.resid), PendingReq(r.offset, r.size, src), c);
      } else if t.health.Running? {
        var data := s.parts[r.resid].bytes;
        ToOne(s.sent, Reply(forwardTo, r.resid, r.offset, data[r.offset..r.offset + r.size]), c);
      }
    }
  }

  /** What a message of others brings `c`: the answers to its entries for the part that the message completes. */
  lemma StepReplies(s: Server, m: Message, c: int)
    requires s.health.Running? && Safe(s, m) && NotFrom(m, c)
    ensures var t := Handle(s, m);
            if Announced(s, m) == [] then To(t.sent, c) == To(s.sent, c)
            else
              var k := Announced(s, m)[0];
              && Ready(t.parts, k) && WaitersFit(Mine(WaitingFor(s, k), c), |t.parts[k].bytes|)
              && To(t.sent, c) == To(s.sent, c) + RepliesToAll(Mine(WaitingFor(s, k), c), k, t.parts[k].bytes)
  {
    match m
    case StoreResult(resid, data) =>
      AnnouncedReplies(Change(s, StoreMessage(resid, data)), resid, data, c);
    case StoreResultPart(resid, data, offset) =>
      var t := Change(s, AddData(resid, data, offset));
      if t.parts[resid].remaining == 0 {
        AnnouncedReplies(t, resid, t.parts[resid].bytes, c);
      }
    case GetResultParts(src, forwardTo, reqs) => OthersRequest(s, src, forwardTo, reqs, c, 0);
    case PreparePart(_, _) =>
    case ReleaseResult(_) =>
  }

  lemma AnnouncedReplies(s: Server, k: int, data: seq<byte>, c: int)
    requires s.health.Running? && GetPartData(s.parts, k) == Some(data) && WaitersFit(WaitingFor(s, k), |data|)
    ensures WaitersFit(Mine(WaitingFor(s, k), c), |data|) && CheckPartRequired(s, k).parts == s.parts
    ensures To(CheckPartRequired(s, k).sent, c) == To(s.sent, c) + RepliesToAll(Mine(WaitingFor(s, k), c), k, data)
  {
    AnnouncementRunsExactly(s, k, data, WaitingFor(s, k));
    MyAnswers(WaitingFor(s, k), k, data, c);
    ToConcat(s.sent, RepliesToAll(WaitingFor(s, k), k, data), c);
  }

  lemma StepWaiting(s: Server, m: Message, c: int, k: int)
    requires s.health.Running? && Safe(s, m) && NotFrom(m, c)
    ensures Mine(WaitingFor(Handle(s, m), k), c) == Mine(WaitingFor(s, k), c)
  {
    match m
    case StoreResult(resid, data) =>
      var t := Change(s, StoreMessage(resid, data));
      AnnouncementRunsExactly(t, resid, data, WaitingFor(t, resid));
    case StoreResultPart(resid, data, offset) =>
      var t := Change(s, AddData(resid, data, offset));
      if t.parts[resid].remaining == 0 {
        AnnouncementRunsExactly(t, resid, t.parts[resid].bytes, WaitingFor(t, resid));
      }
    case GetResultParts(src, forwardTo, reqs) => OthersRequest(s, src, forwardTo, reqs, c, k);
    case PreparePart(_, _) =>
    case ReleaseResult(_) =>
  }

  /** A part that is ready keeps its bytes until it is released. */
  lemma StepStable(s: Server, m: Message, k: int)
    requires s.health.Running? && Safe(s, m) && Ready(s.parts, k) && m != ReleaseResult(k)
    ensures Ready(Handle(s, m).parts, k) && Handle(s, m).parts[k].bytes == s.parts[k].bytes
  {
    match m
    case StoreResult(resid, data) =>
      var t := Change(s, StoreMessage(resid, data));
      AnnouncementRunsExactly(t, resid, data, WaitingFor(t, resid));
    case StoreResultPart(resid, data, offset) =>
      var t := Change(s, AddData(resid, data, offset));
      assert resid == k ==> data == [] && Splice(s.parts[k].bytes, offset, []) == s.parts[k].bytes;
      if t.parts[resid].remaining == 0 {
        AnnouncementRunsExactly(t, resid, t.parts[resid].bytes, WaitingFor(t, resid));
      }
    case GetResultParts(src, forwardTo, reqs) => RequestRunsExactly(s, src, forwardTo, reqs);
    case PreparePart(_, _) =>
    case ReleaseResult(_) =>
  }

  lemma {:induction false} RunStable(s: Server, ms: seq<Message>, k: int)
    requires s.health.Running? && SafeRun(s, ms) && Ready(s.parts, k) && ReleaseResult(k) !in ms
    ensures Ready(HandleAll(s, ms).parts, k) && HandleAll(s, ms).parts[k].bytes == s.parts[k].bytes
    decreases |ms|
  {
    if ms != [] {
      assert ms[0] in ms;
      HandleRunsExactly(s, ms[0]);
      StepStable(s, ms[0], k);
      RunStable(Handle(s, ms[0]), ms[1..], k);
    }
  }

  // ----- the client's request -----

  predicate Distinct(reqs: seq<PartReq>) {
    forall i, j :: 0 <= i < j < |reqs| ==> reqs[i].resid != reqs[j].resid
  }

  /** The parts of the request that are not ready yet, in request order. */
  function Missing(parts: Parts, reqs: seq<PartReq>): (r: seq<PartReq>)
    ensures forall x :: x in r ==> x in reqs && !Ready(parts, x.resid)
  {
    if reqs == [] then []
    else (if Ready(parts, reqs[0].resid) then [] else [reqs[0]]) + Missing(parts, reqs[1..])
  }

  /** What is asked of part `k`. */
  function Wanted(reqs: seq<PartReq>, k: int): (r: seq<PartReq>)
    ensures forall x :: x in r ==> x in reqs && x.resid == k
  {
    if reqs == [] then [] else (if reqs[0].resid == k then [reqs[0]] else []) + Wanted(reqs[1..], k)
  }

  /** The requested parts, in the order in which they complete. */
  function Completed(reqs: seq<PartReq>, ks: seq<int>): (r: seq<PartReq>)
    ensures forall x :: x in r ==> x in reqs
  {
    if ks == [] then [] else Wanted(reqs, ks[0]) + Completed(reqs, ks[1..])
  }

  function AsPending(reqs: seq<PartReq>, c: int): (r: seq<PendingReq>)
    ensures |r| == |reqs|
  {
    seq(|reqs|, i requires 0 <= i < |reqs| => PendingReq(reqs[i].offset, reqs[i].size, c))
  }

  lemma QueueOne(s: Server, c: int, r: PartReq, k: int)
    requires s.health.Running? && InBounds(s.parts, r)
    ensures var t := ServeOne(s, c, c, r);
            && t.parts == s.parts && t.health.Running?
            && Mine(WaitingFor(t, k), c) ==
               Mine(WaitingFor(s, k), c)
               + if !Ready(s.parts, r.resid) && r.resid == k then [PendingReq(r.offset, r.size, c)] else []
  {
    MineOne(WaitingFor(s, r.resid), PendingReq(r.offset, r.size, c), c);
  }

  lemma MissingStep(parts: Parts, reqs: seq<PartReq>, k: int, c: int)
    requires reqs != []
    ensures var r := reqs[0];
            AsPending(Wanted(Missing(parts, reqs), k), c) ==
            (if !Ready(parts, r.resid) && r.resid == k then [PendingReq(r.offset, r.size, c)] else [])
            + AsPending(Wanted(Missing(parts, reqs[1..]), k), c)
  {
    var later := Missing(parts, reqs[1..]);
    assert [] + later == later;
    WantedCons(reqs[0], later, k, c);
  }

  /** Handling the request queues its missing parts, and nothing else of the client's. */
  lemma {:induction false} RequestQueues(s: Server, c: int, reqs: seq<PartReq>, k: int)
    requires s.health.Running? && AllInBounds(s.parts, reqs)
    ensures Mine(WaitingFor(ServeAll(s, c, c, reqs), k), c) ==
            Mine(WaitingFor(s, k), c) + AsPending(Wanted(Missing(s.parts, reqs), k), c)
    decreases |reqs|
  {
    if reqs == [] {
      assert Mine(WaitingFor(s, k), c) + AsPending([], c) == Mine(WaitingFor(s, k), c);
    } else {
      var r, rest := reqs[0], reqs[1..];
      assert InBounds(s.parts, r) && forall i :: 0 <= i < |rest| ==> rest[i] == reqs[i + 1];
      QueueOne(s, c, r, k);
      RequestQueues(ServeOne(s, c, c, r), c, rest, k);
      MissingStep(s.parts, reqs, k, c);
      ConcatAssociates(Mine(WaitingFor(s, k), c),
                       if !Ready(s.parts, r.resid) && r.resid == k then [PendingReq(r.offset, r.size, c)] else [],
                       AsPending(Wanted(Missing(s.parts, rest), k), c));
    }
  }

  lemma WantedCons(r: PartReq, rest: seq<PartReq>, k: int, c: int)
    ensures Wanted([r] + rest, k) == (if r.resid == k then [r] else []) + Wanted(rest, k)
    ensures AsPending(Wanted([r] + rest, k), c) ==
            (if r.resid == k then [PendingReq(r.offset, r.size, c)] else []) + AsPending(Wanted(rest, k), c)
  {
    assert ([r] + rest)[1..] == rest;
  }

  /** All of `reqs` can be answered from these parts. */
  predicate Answerable(parts: Parts, reqs: seq<PartReq>) {
    forall r :: r in reqs ==> Ready(parts, r.resid) && r.offset + r.size <= |parts[r.resid].bytes|
  }

  lemma {:induction false} ExpectedConcat(parts: Parts, c: int, a: seq<PartReq>, b: seq<PartReq>)
    requires Answerable(parts, a) && Answerable(parts, b)
    ensures Expected(parts, c, a + b) == Expected(parts, c, a) + Expected(parts, c, b)
  {
    if a == [] {
      assert a + b == b;
    } else {
      var rest := a[1..];
      assert a == [a[0]] + rest && (a + b) == [a[0]] + (rest + b);
      ExpectedConcat(parts, c, rest, b);
      ExpectedCons(parts, c, a[0], rest + b);
      ExpectedCons(parts, c, a[0], rest);
    }
  }

  lemma {:induction false} ExpectedAt(parts: Parts, c: int, reqs: seq<PartReq>)
    requires Answerable(parts, reqs)
    ensures |Expected(parts, c, reqs)| == |reqs|
    ensures forall i :: 0 <= i < |reqs| ==> Expected(parts, c, reqs)[i].resid == reqs[i].resid
    ensures forall i :: 0 <= i < |reqs| ==> Expected(parts, c, reqs)[i].dst == c
  {
    if reqs != [] {
      ExpectedAt(parts, c, reqs[1..]);
    }
  }

  lemma {:induction false} ExpectedStable(p: Parts, q: Parts, c: int, reqs: seq<PartReq>)
    requires Answerable(p, reqs) && Answerable(q, reqs)
    requires forall r :: r in reqs ==> q[r.resid].bytes == p[r.resid].bytes
    ensures Expected(p, c, reqs) == Expected(q, c, reqs)
  {
    if reqs != [] {
      assert reqs[0] in reqs;
      ExpectedStable(p, q, c, reqs[1..]);
    }
  }

  /** The answers to queued requests are the replies expected for them. */
  lemma {:induction false} QueuedAnswers(parts: Parts, c: int, reqs: seq<PartReq>, k: int)
    requires Ready(parts, k) && (forall r :: r in reqs ==> r.resid == k)
    requires WaitersFit(AsPending(reqs, c), |parts[k].bytes|)
    ensures Answerable(parts, reqs)
    ensures RepliesToAll(AsPending(reqs, c), k, parts[k].bytes) == Expected(parts, c, reqs)
  {
    var ws, data := AsPending(reqs, c), parts[k].bytes;
    if reqs == [] {
      assert RepliesToAll(ws, k, data) == [];
    } else {
      var r, rest := reqs[0], reqs[1..];
      assert r in reqs && ws[0] == PendingReq(r.offset, r.size, c);
      assert forall i :: 0 <= i < |rest| ==> AsPending(rest, c)[i] == ws[i + 1];
      QueuedAnswers(parts, c, rest, k);
      assert RepliesToAll(ws, k, data) == [ReplyTo(ws[0], k, data)] + RepliesToAll(AsPending(rest, c), k, data);
      assert reqs == [r] + rest;
      ExpectedCons(parts, c, r, rest);
    }
  }

  /** The messages after the request: none asks on the client's behalf or releases a part of the request. */
  ghost predicate Undisturbed(ms: seq<Message>, c: int, reqs: seq<PartReq>) {
    forall m :: m in ms ==> NotFrom(m, c) && forall r :: r in reqs ==> m != ReleaseResult(r.resid)
  }

  lemma UndisturbedRest(ms: seq<Message>, c: int, reqs: seq<PartReq>)
    requires Undisturbed(ms, c, reqs) && ms != []
    ensures ms[0] in ms && NotFrom(ms[0], c) && Undisturbed(ms[1..], c, reqs)
    ensures forall r :: r in reqs ==> ReleaseResult(r.resid) !in ms
  {
    assert ms[0] in ms;
    forall r | r in reqs
      ensures ReleaseResult(r.resid) !in ms
    {
    }
  }

  /** The client's queued requests are those for `reqs`. */
  ghost predicate Queued(s: Server, c: int, reqs: seq<PartReq>) {
    forall k :: Mine(WaitingFor(s, k), c) == AsPending(Wanted(reqs, k), c)
  }

  /** Afterwards the client gets the missing parts in the order in which they complete. */
  lemma {:induction false} LaterReplies(s: Server, ms: seq<Message>, c: int, reqs: seq<PartReq>)
    requires s.health.Running? && SafeRun(s, ms) && Undisturbed(ms, c, reqs) && Queued(s, c, reqs)
    ensures var t, done := HandleAll(s, ms), Completed(reqs, Completions(s, ms));
            Answerable(t.parts, done) && To(t.sent, c) == To(s.sent, c) + Expected(t.parts, c, done)
    decreases |ms|
  {
    if ms == [] {
      assert To(s.sent, c) + [] == To(s.sent, c);
    } else {
      var m, u, rest := ms[0], Handle(s, ms[0]), ms[1..];
      UndisturbedRest(ms, c, reqs);
      HandleRunsExactly(s, m);
      forall k
        ensures Mine(WaitingFor(u, k), c) == AsPending(Wanted(reqs, k), c)
      {
        StepWaiting(s, m, c, k);
      }
      LaterReplies(u, rest, c, reqs);
      FirstReplies(s, ms, c, reqs);
    }
  }

  lemma FirstReplies(s: Server, ms: seq<Message>, c: int, reqs: seq<PartReq>)
    requires ms != [] && s.health.Running? && SafeRun(s, ms) && Undisturbed(ms, c, reqs) && Queued(s, c, reqs)
    requires var t, done := HandleAll(s, ms), Completed(reqs, Completions(Handle(s, ms[0]), ms[1..]));
             Answerable(t.parts, done) && To(t.sent, c) == To(Handle(s, ms[0]).sent, c) + Expected(t.parts, c, done)
    ensures var t, done := HandleAll(s, ms), Completed(reqs, Completions(s, ms));
            Answerable(t.parts, done) && To(t.sent, c) == To(s.sent, c) + Expected(t.parts, c, done)
  {
    var m, u, t, later := ms[0], Handle(s, ms[0]), HandleAll(s, ms), Completions(Handle(s, ms[0]), ms[1..]);
    UndisturbedRest(ms, c, reqs);
    StepReplies(s, m, c);
    if Announced(s, m) == [] {
      assert [] + later == later;
    } else {
      var k := Announced(s, m)[0];
      var here := Wanted(reqs, k);
      assert Announced(s, m) == [k] && ([k] + later)[1..] == later;
      AnnouncedHere(s, ms, c, reqs, k);
      ExpectedConcat(t.parts, c, here, Completed(reqs, later));
      ConcatAssociates(To(s.sent, c), Expected(t.parts, c, here), Expected(t.parts, c, Completed(reqs, later)));
    }
  }

  lemma AnnouncedHere(s: Server, ms: seq<Message>, c: int, reqs: seq<PartReq>, k: int)
    requires ms != [] && s.health.Running? && SafeRun(s, ms) && Undisturbed(ms, c, reqs) && Queued(s, c, reqs)
    requires Announced(s, ms[0]) == [k]
    ensures Answerable(HandleAll(s, ms).parts, Wanted(reqs, k))
    ensures To(Handle(s, ms[0]).sent, c) == To(s.sent, c) + Expected(HandleAll(s, ms).parts, c, Wanted(reqs, k))
  {
    var m, u, t, here := ms[0], Handle(s, ms[0]), HandleAll(s, ms), Wanted(reqs, k);
    UndisturbedRest(ms, c, reqs);
    HandleRunsExactly(s, m);
    StepReplies(s, m, c);
    assert Mine(WaitingFor(s, k), c) == AsPending(here, c);
    QueuedAnswers(u.parts, c, here, k);
    if here != [] {
      assert here[0] in here && here[0] in reqs;
      RunStable(u, ms[1..], k);
      ExpectedStable(u.parts, t.parts, c, here);
    }
  }

  // ----- the order in which the parts come back -----

  /** The parts of the request in the order in which their replies leave. */
  function Arriving(s: Server, c: int, reqs: seq<PartReq>, ms: seq<Message>): seq<PartReq> {
    ReadyOnly(s.parts, reqs)
    + Completed(Missing(s.parts, reqs), Completions(Handle(s, GetResultParts(c, c, reqs)), ms))
  }

  /** A client with nothing queued makes a request; `ms` is all that the server handles after it. */
  ghost predicate OneRequest(s: Server, c: int, reqs: seq<PartReq>, ms: seq<Message>) {
    && s.health.Running? && (forall k :: Mine(WaitingFor(s, k), c) == [])
    && Safe(s, GetResultParts(c, c, reqs)) && SafeRun(Handle(s, GetResultParts(c, c, reqs)), ms)
    && Undisturbed(ms, c, reqs)
  }

  function After(s: Server, c: int, reqs: seq<PartReq>, ms: seq<Message>): Server {
    HandleAll(Handle(s, GetResultParts(c, c, reqs)), ms)
  }

  /** What the client receives: first the ready parts, in request order, then the others as they complete. */
  lemma ClientReceives(s: Server, c: int, reqs: seq<PartReq>, ms: seq<Message>)
    requires OneRequest(s, c, reqs, ms)
    ensures var t := After(s, c, reqs, ms);
            && Answerable(t.parts, Arriving(s, c, reqs, ms))
            && To(t.sent, c) == To(s.sent, c) + Expected(t.parts, c, Arriving(s, c, reqs, ms))
  {
    var u, t, miss := Handle(s, GetResultParts(c, c, reqs)), After(s, c, reqs, ms), Missing(s.parts, reqs);
    HandleRunsExactly(s, GetResultParts(c, c, reqs));
    forall k
      ensures Mine(WaitingFor(u, k), c) == AsPending(Wanted(miss, k), c)
    {
      RequestQueues(s, c, reqs, k);
      assert [] + AsPending(Wanted(miss, k), c) == AsPending(Wanted(miss, k), c);
    }
    LaterReplies(u, ms, c, miss);
    var done := Completed(miss, Completions(u, ms));
    AtOnce(s, c, reqs, ms);
    ExpectedConcat(t.parts, c, ReadyOnly(s.parts, reqs), done);
    ConcatAssociates(To(s.sent, c), Expected(t.parts, c, ReadyOnly(s.parts, reqs)), Expected(t.parts, c, done));
  }

  lemma AtOnce(s: Server, c: int, reqs: seq<PartReq>, ms: seq<Message>)
    requires OneRequest(s, c, reqs, ms)
    ensures var u, t, now := Handle(s, GetResultParts(c, c, reqs)), After(s, c, reqs, ms), ReadyOnly(s.parts, reqs);
            && Answerable(t.parts, now) && To(u.sent, c) == To(s.sent, c) + Expected(t.parts, c, now)
  {
    var u, t, now := Handle(s, GetResultParts(c, c, reqs)), After(s, c, reqs, ms), ReadyOnly(s.parts, reqs);
    HandleRunsExactly(s, GetResultParts(c, c, reqs));
    ReadyFits(s.parts, reqs);
    ImmediateReplies(s, c, c, reqs);
    ExpectedAt(s.parts, c, now);
    ToAll(Expected(s.parts, c, now), c);
    ToConcat(s.sent, Expected(s.parts, c, now), c);
    forall r | r in now
      ensures Ready(t.parts, r.resid) && t.parts[r.resid].bytes == s.parts[r.resid].bytes
    {
      assert r in reqs;
      RunStable(u, ms, r.resid);
    }
    ExpectedStable(s.parts, t.parts, c, now);
  }

  lemma ReadyFits(parts: Parts, reqs: seq<PartReq>)
    requires AllInBounds(parts, reqs)
    ensures Answerable(parts, ReadyOnly(parts, reqs))
    ensures forall r :: r in reqs && Ready(parts, r.resid) ==> r.offset + r.size <= |parts[r.resid].bytes|
  {
    forall r | r in reqs && Ready(parts, r.resid)
      ensures r.offset + r.size <= |parts[r.resid].bytes|
    {
      var i :| 0 <= i < |reqs| && reqs[i] == r;
      assert InBounds(parts, reqs[i]);
    }
  }

  lemma {:induction false} MissingConcat(parts: Parts, a: seq<PartReq>, b: seq<PartReq>)
    ensures Missing(parts, a + b) == Missing(parts, a) + Missing(parts, b)
  {
    if a == [] {
      assert a + b == b && [] + Missing(parts, b) == Missing(parts, b);
    } else {
      assert (a + b)[1..] == a[1..] + b;
      MissingConcat(parts, a[1..], b);
    }
  }

  lemma {:induction false} MissingOfOneKind(parts: Parts, a: seq<PartReq>)
    ensures (forall r :: r in a ==> Ready(parts, r.resid)) ==> Missing(parts, a) == []
    ensures (forall r :: r in a ==> !Ready(parts, r.resid)) ==> Missing(parts, a) == a
  {
    if a != [] {
      assert a[0] in a && a == [a[0]] + a[1..];
      MissingOfOneKind(parts, a[1..]);
    }
  }

  lemma {:induction false} ReadyFirstSplits(parts: Parts, reqs: seq<PartReq>)
    requires ReadyFirst(parts, reqs)
    ensures reqs == ReadyOnly(parts, reqs) + Missing(parts, reqs)
  {
    if reqs != [] {
      var rest := reqs[1..];
      assert reqs == [reqs[0]] + rest;
      assert forall i :: 0 <= i < |rest| ==> rest[i] == reqs[i + 1];
      if Ready(parts, reqs[0].resid) {
        ReadyFirstSplits(parts, rest);
      } else {
        forall r | r in reqs
          ensures !Ready(parts, r.resid)
        {
          var i :| 0 <= i < |reqs| && reqs[i] == r;
        }
        MissingOfOneKind(parts, reqs);
        ReadyOnlySize(parts, reqs);
      }
    }
  }

  /** The ready parts and then `later`, all of which were missing, make up the request if and only if the ready parts
      come first in it and `later` is the rest in request order. */
  lemma OrderExactly(parts: Parts, reqs: seq<PartReq>, later: seq<PartReq>)
    requires forall r :: r in later ==> !Ready(parts, r.resid)
    ensures ReadyOnly(parts, reqs) + later == reqs <==> ReadyFirst(parts, reqs) && later == Missing(parts, reqs)
  {
    var now := ReadyOnly(parts, reqs);
    if now + later == reqs {
      MissingConcat(parts, now, later);
      MissingOfOneKind(parts, now);
      MissingOfOneKind(parts, later);
      assert [] + later == later;
      forall i | 0 <= i < |reqs|
        ensures Ready(parts, reqs[i].resid) <==> i < |now|
      {
        if i < |now| {
          assert reqs[i] == now[i] && now[i] in now;
        } else {
          assert reqs[i] == later[i - |now|] && later[i - |now|] in later;
        }
      }
    }
    if ReadyFirst(parts, reqs) {
      ReadyFirstSplits(parts, reqs);
    }
  }

  /** The client's receives, posted in request order, get the slices that they are meant for. */
  ghost predicate InRequestOrder(s: Server, t: Server, c: int, reqs: seq<PartReq>) {
    Answerable(t.parts, reqs) && To(t.sent, c) == To(s.sent, c) + Expected(t.parts, c, reqs)
  }

  lemma SameOrder(parts: Parts, c: int, a: seq<PartReq>, reqs: seq<PartReq>)
    requires Distinct(reqs) && Answerable(parts, a) && Answerable(parts, reqs)
    requires (forall r :: r in a ==> r in reqs) && Expected(parts, c, a) == Expected(parts, c, reqs)
    ensures a == reqs
  {
    ExpectedAt(parts, c, a);
    ExpectedAt(parts, c, reqs);
    forall i | 0 <= i < |reqs|
      ensures a[i] == reqs[i]
    {
      assert a[i] in a;
      var j :| 0 <= j < |reqs| && reqs[j] == a[i];
      assert reqs[i].resid == Expected(parts, c, a)[i].resid == reqs[j].resid;
    }
  }

  /** Over every run: the k-th receive takes the reply to the k-th part of the request, for all k, if and only if no
      part that was ready came after one that was not, and the missing parts complete in request order. */
  lemma RepliesInRequestOrder(s: Server, c: int, reqs: seq<PartReq>, ms: seq<Message>)
    requires OneRequest(s, c, reqs, ms) && Distinct(reqs)
    ensures var miss := Missing(s.parts, reqs);
            InRequestOrder(s, After(s, c, reqs, ms), c, reqs) <==>
            && ReadyFirst(s.parts, reqs)
            && Completed(miss, Completions(Handle(s, GetResultParts(c, c, reqs)), ms)) == miss
  {
    var t, a := After(s, c, reqs, ms), Arriving(s, c, reqs, ms);
    var later := Completed(Missing(s.parts, reqs), Completions(Handle(s, GetResultParts(c, c, reqs)), ms));
    ClientReceives(s, c, reqs, ms);
    OrderExactly(s.parts, reqs, later);
    if InRequestOrder(s, t, c, reqs) {
      SameTail(To(s.sent, c), Expected(t.parts, c, a), Expected(t.parts, c, reqs));
      SameOrder(t.parts, c, a, reqs);
    }
  }

  lemma SameTail<T>(x: seq<T>, y: seq<T>, z: seq<T>)
    requires x + y == x + z
    ensures y == z
  {
    assert y == (x + y)[|x|..] && z == (x + z)[|x|..];
  }

  function TwoWaiting(parts: Parts, sent: seq<Reply>): Server {
    Server(parts, map[1 := [PendingReq(0, 1, 5)], 2 := [PendingReq(0, 1, 5)]], sent, Running)
  }

  lemma BothWait()
    ensures Handle(INITIAL, GetResultParts(5, 5, [PartReq(1, 0, 1), PartReq(2, 0, 1)])) == TwoWaiting(map[], [])
  {
    var reqs, w := [PartReq(1, 0, 1), PartReq(2, 0, 1)], PendingReq(0, 1, 5);
    var one := ServeOne(INITIAL, 5, 5, reqs[0]);
    var two := ServeOne(one, 5, 5, reqs[1]);
    assert [] + [w] == [w];
    assert two == TwoWaiting(map[], []);
    assert reqs[1..][0] == reqs[1] && reqs[1..][1..] == [];
    assert ServeAll(two, 5, 5, []) == two;
    assert ServeAll(one, 5, 5, reqs[1..]) == ServeAll(two, 5, 5, reqs[1..][1..]);
  }

  lemma OneByteArrives(parts: Parts, sent: seq<Reply>, k: int, x: byte)
    requires (k == 1 || k == 2) && k !in parts
    ensures Handle(TwoWaiting(parts, sent), StoreResult(k, [x])) ==
            TwoWaiting(parts[k := Cell([x], MessageStore, 0)], sent + [Reply(5, k, 0, [x])])
  {
    var t, w := TwoWaiting(parts[k := Cell([x], MessageStore, 0)], sent), PendingReq(0, 1, 5);
    AnnouncementRunsExactly(t, k, [x], [w]);
    assert [x][0..1] == [x];
    assert RepliesToAll([w], k, [x]) == [Reply(5, k, 0, [x])];
  }

  /** Two parts, neither ready, that complete in the wrong order: the receive posted for the first gets the second. */
  lemma CompletedOutOfOrder()
    ensures var reqs := [PartReq(1, 0, 1), PartReq(2, 0, 1)];
            && ReadyFirst(INITIAL.parts, reqs)
            && After(INITIAL, 5, reqs, [StoreResult(2, [9]), StoreResult(1, [7])]).sent ==
               [Reply(5, 2, 0, [9]), Reply(5, 1, 0, [7])]
  {
    BothWait();
    OneByteArrives(map[], [], 2, 9);
    var parts: Parts := map[2 := Cell([9], MessageStore, 0)];
    OneByteArrives(parts, [Reply(5, 2, 0, [9])], 1, 7);
    assert [] + [Reply(5, 2, 0, [9])] == [Reply(5, 2, 0, [9])];
    HandleTwo(TwoWaiting(map[], []), [StoreResult(2, [9]), StoreResult(1, [7])]);
  }
}
