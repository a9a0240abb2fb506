/** How a management process serves the parts it holds: requests for ready parts are answered at once,
    the others wait in a per-part list until the part completes. Stated on values, with the laws that
    hold over every run of messages. */
module PartRequests {
  import opened Bytes
  import opened PartStore

  datatype PartReq = PartReq(resid: int, offset: nat, size: nat)

  datatype PendingReq = PendingReq(offset: nat, size: nat, dst: int)

  datatype Message =
    | StoreResult(resid: int, data: seq<byte>)
    | StoreResultPart(resid: int, data: seq<byte>, offset: nat)
    | PreparePart(resid: int, size: nat)
    | GetResultParts(src: int, forwardTo: int, reqs: seq<PartReq>)
    | ReleaseResult(resid: int)

  /** Bytes sent to `dst`. Only the bytes travel; the part and offset say what they answer. */
  datatype Reply = Reply(dst: int, resid: int, offset: nat, data: seq<byte>)

  /** A server handles messages until an assertion fails, a waiting request turns out to reach past its
      part, or a handler returns without unlocking the store and every later one blocks. */
  datatype Health = Running | AssertionFailed | ReadOutOfBounds | LockNeverReleased

  /** `sent` logs the replies in order. */
  datatype Server = Server(parts: Parts, pending: map<int, seq<PendingReq>>, sent: seq<Reply>, health: Health)

  const INITIAL := Server(map[], map[], [], Running)

  function WaitingFor(s: Server, key: int): seq<PendingReq> {
    if key in s.pending then s.pending[key] else []
  }

  /** One part of a request. */
  function ServeOne(s: Server, src: int, forwardTo: int, r: PartReq): Server {
    match GetPartData(s.parts, r.resid)
    case None =>
      s.(pending := s.pending[r.resid := WaitingFor(s, r.resid) + [PendingReq(r.offset, r.size, src)]])
    case Some(data) =>
      if r.offset + r.size > |data| then s.(health := LockNeverReleased)
      else s.(sent := s.sent + [Reply(forwardTo, r.resid, r.offset, data[r.offset..r.offset + r.size])])
  }

  /** The parts of a request, in order, up to the first one out of bounds. */
  function ServeAll(s: Server, src: int, forwardTo: int, reqs: seq<PartReq>): Server
    decreases |reqs|
  {
    if reqs == [] || !s.health.Running? then s
    else ServeAll(ServeOne(s, src, forwardTo, reqs[0]), src, forwardTo, reqs[1..])
  }

  function ServeWaiter(s: Server, key: int, w: PendingReq): Server {
    match GetPartData(s.parts, key)
    case None => s.(health := ReadOutOfBounds)
    case Some(data) =>
      if w.offset + w.size > |data| then s.(health := ReadOutOfBounds)
      else s.(sent := s.sent + [Reply(w.dst, key, w.offset, data[w.offset..w.offset + w.size])])
  }

  /** Answers the waiting requests of a part that is ready. They stay in the list. */
  function ServeWaiting(s: Server, key: int, waiting: seq<PendingReq>): Server
    decreases |waiting|
  {
    if waiting == [] || !s.health.Running? then s
    else ServeWaiting(ServeWaiter(s, key, waiting[0]), key, waiting[1..])
  }

  /** `checkDvPartRequired`. */
  function CheckPartRequired(s: Server, key: int): Server {
    ServeWaiting(s, key, WaitingFor(s, key))
  }

  function Change(s: Server, op: Op): Server {
    if Legal(s.parts, op) then s.(parts := Apply(s.parts, op)) else s.(health := AssertionFailed)
  }

  function Handle(s: Server, m: Message): Server {
    if !s.health.Running? then s
    else match m
      case StoreResult(resid, data) =>
        var t := Change(s, StoreMessage(resid, data));
        if t.health.Running? then CheckPartRequired(t, resid) else t
      case StoreResultPart(resid, data, offset) =>
        var t := Change(s, AddData(resid, data, offset));
        if t.health.Running? && t.parts[resid].remaining == 0 then CheckPartRequired(t, resid) else t
      case PreparePart(resid, size) => Change(s, Prepare(resid, size))
      case GetResultParts(src, forwardTo, reqs) => ServeAll(s, src, forwardTo, reqs)
      case ReleaseResult(resid) => Change(s, Remove(resid))
  }

  function HandleAll(s: Server, ms: seq<Message>): Server
    decreases |ms|
  {
    if ms == [] then s else HandleAll(Handle(s, ms[0]), ms[1..])
  }

  lemma {:induction false} HandleAllSnoc(s: Server, ms: seq<Message>, m: Message)
    ensures HandleAll(s, ms + [m]) == Handle(HandleAll(s, ms), m)
    decreases |ms|
  {
    if ms == [] {
      assert ms + [m] == [m];
      assert HandleAll(Handle(s, m), []) == Handle(s, m);
    } else {
      assert (ms + [m])[1..] == ms[1..] + [m];
      HandleAllSnoc(Handle(s, ms[0]), ms[1..], m);
    }
  }

  // ----- what a failed server does -----

  lemma {:induction false} FailureIsFinal(s: Server, ms: seq<Message>)
    requires !s.health.Running?
    ensures HandleAll(s, ms) == s
    decreases |ms|
  {
    if ms != [] {
      FailureIsFinal(s, ms[1..]);
    }
  }

  // ----- when the server keeps running -----

  predicate InBounds(parts: Parts, r: PartReq) {
    Ready(parts, r.resid) ==> r.offset + r.size <= |parts[r.resid].bytes|
  }

  predicate AllInBounds(parts: Parts, reqs: seq<PartReq>) {
    forall i :: 0 <= i < |reqs| ==> InBounds(parts, reqs[i])
  }

  /** A request leaves the server running if and only if every part of it that is ready is asked within its length;
      otherwise the handler returns with the lock held. */
  lemma {:induction false} RequestRunsExactly(s: Server, src: int, forwardTo: int, reqs: seq<PartReq>)
    requires s.health.Running?
    ensures var t := ServeAll(s, src, forwardTo, reqs);
            t.health == (if AllInBounds(s.parts, reqs) then Running else LockNeverReleased) && t.parts == s.parts
    decreases |reqs|
  {
    if reqs != [] {
      var t, rest := ServeOne(s, src, forwardTo, reqs[0]), reqs[1..];
      assert forall i :: 1 <= i < |reqs| ==> reqs[i] == rest[i - 1];
      if t.health.Running? {
        RequestRunsExactly(t, src, forwardTo, rest);
        assert AllInBounds(s.parts, reqs) <==> AllInBounds(s.parts, rest) by {
          assert forall i :: 0 <= i < |rest| ==> rest[i] == reqs[i + 1];
        }
      } else {
        assert !InBounds(s.parts, reqs[0]);
      }
    }
  }

  predicate WaitersFit(waiting: seq<PendingReq>, n: nat) {
    forall i :: 0 <= i < |waiting| ==> waiting[i].offset + waiting[i].size <= n
  }

  function ReplyTo(w: PendingReq, key: int, data: seq<byte>): Reply
    requires w.offset + w.size <= |data|
  {
    Reply(w.dst, key, w.offset, data[w.offset..w.offset + w.size])
  }

  /** The replies to waiting requests, in order. */
  function RepliesToAll(waiting: seq<PendingReq>, key: int, data: seq<byte>): (r: seq<Reply>)
    requires WaitersFit(waiting, |data|)
    ensures |r| == |waiting|
  {
    seq(|waiting|, i requires 0 <= i < |waiting| => ReplyTo(waiting[i], key, data))
  }

  /** Announcing a part leaves the server running if and only if every waiting request is within the part, and then
      it sends each of them its bytes and changes nothing else; otherwise it reads past the part. */
  lemma {:induction false} AnnouncementRunsExactly(s: Server, key: int, data: seq<byte>, waiting: seq<PendingReq>)
    requires s.health.Running? && GetPartData(s.parts, key) == Some(data)
    ensures var t := ServeWaiting(s, key, waiting);
            if WaitersFit(waiting, |data|) then t == s.(sent := s.sent + RepliesToAll(waiting, key, data))
            else t.health == ReadOutOfBounds
    decreases |waiting|
  {
    if waiting == [] {
      assert s.sent + RepliesToAll(waiting, key, data) == s.sent;
    } else {
      var w, t, rest := waiting[0], ServeWaiter(s, key, waiting[0]), waiting[1..];
      assert forall i :: 1 <= i < |waiting| ==> waiting[i] == rest[i - 1];
      if t.health.Running? {
        AnnouncementRunsExactly(t, key, data, rest);
        if WaitersFit(waiting, |data|) {
          assert forall i :: 0 <= i < |rest| ==> rest[i] == waiting[i + 1];
          assert RepliesToAll(waiting, key, data) == [ReplyTo(w, key, data)] + RepliesToAll(rest, key, data);
          ConcatAssociates(s.sent, [ReplyTo(w, key, data)], RepliesToAll(rest, key, data));
        }
      }
    }
  }

  /** The guards of the handlers, on the state that a message finds. */
  predicate Safe(s: Server, m: Message) {
    match m
    case StoreResult(resid, data) => resid !in s.parts && WaitersFit(WaitingFor(s, resid), |data|)
    case StoreResultPart(resid, data, offset) =>
      && Legal(s.parts, AddData(resid, data, offset))
      && (|data| == s.parts[resid].remaining ==> WaitersFit(WaitingFor(s, resid), |s.parts[resid].bytes|))
    case PreparePart(resid, _) => resid !in s.parts
    case GetResultParts(_, _, reqs) => AllInBounds(s.parts, reqs)
    case ReleaseResult(resid) => resid in s.parts
  }

  /** A running server survives a message if and only if the message meets its guards. */
  lemma HandleRunsExactly(s: Server, m: Message)
    requires s.health.Running?
    ensures Handle(s, m).health.Running? <==> Safe(s, m)
    ensures m.GetResultParts? && !Safe(s, m) ==> Handle(s, m).health.LockNeverReleased?
  {
    match m
    case StoreResult(resid, data) =>
      if resid !in s.parts {
        var t := Change(s, StoreMessage(resid, data));
        AnnouncementRunsExactly(t, resid, data, WaitingFor(t, resid));
      }
    case StoreResultPart(resid, data, offset) =>
      if Legal(s.parts, AddData(resid, data, offset)) {
        var t := Change(s, AddData(resid, data, offset));
        if t.parts[resid].remaining == 0 {
          AnnouncementRunsExactly(t, resid, t.parts[resid].bytes, WaitingFor(t, resid));
        }
      }
    case PreparePart(_, _) =>
    case GetResultParts(src, forwardTo, reqs) => RequestRunsExactly(s, src, forwardTo, reqs);
    case ReleaseResult(_) =>
  }

  /** Every message meets its guards in the state that the earlier ones leave. */
  predicate SafeRun(s: Server, ms: seq<Message>)
    decreases |ms|
  {
    ms == [] || (Safe(s, ms[0]) && SafeRun(Handle(s, ms[0]), ms[1..]))
  }

  /** A run keeps the server running if and only if every message of it is safe when it comes. */
  lemma {:induction false} RunsExactly(s: Server, ms: seq<Message>)
    requires s.health.Running?
    ensures HandleAll(s, ms).health.Running? <==> SafeRun(s, ms)
    decreases |ms|
  {
    if ms != [] {
      HandleRunsExactly(s, ms[0]);
      var t := Handle(s, ms[0]);
      if t.health.Running? {
        RunsExactly(t, ms[1..]);
      } else {
        FailureIsFinal(t, ms[1..]);
      }
    }
  }

  lemma HandleTwo(s: Server, ms: seq<Message>)
    requires |ms| == 2
    ensures HandleAll(s, ms) == Handle(Handle(s, ms[0]), ms[1])
  {
    assert ms == ([] + [ms[0]]) + [ms[1]];
    HandleAllSnoc(s, [] + [ms[0]], ms[1]);
    HandleAllSnoc(s, [], ms[0]);
  }

  /** A request for two bytes of a one-byte part: the handler returns with the lock held. */
  lemma RequestPastTheEnd()
    ensures var ms := [StoreResult(1, [7]), GetResultParts(5, 5, [PartReq(1, 0, 2)])];
            HandleAll(INITIAL, ms).health.LockNeverReleased?
  {
    var ms := [StoreResult(1, [7]), GetResultParts(5, 5, [PartReq(1, 0, 2)])];
    HandleTwo(INITIAL, ms);
    var s := Handle(INITIAL, ms[0]);
    AnnouncementRunsExactly(Change(INITIAL, StoreMessage(1, [7])), 1, [7], []);
    assert !InBounds(s.parts, ms[1].reqs[0]);
    HandleRunsExactly(s, ms[1]);
  }

  /** The same request, waiting when the part arrives: its answer is read past the part. */
  lemma WaitingPastTheEnd()
    ensures var ms := [GetResultParts(5, 5, [PartReq(1, 0, 2)]), StoreResult(1, [7])];
            HandleAll(INITIAL, ms).health.ReadOutOfBounds?
  {
    var ms := [GetResultParts(5, 5, [PartReq(1, 0, 2)]), StoreResult(1, [7])];
    HandleTwo(INITIAL, ms);
    var s := ServeOne(INITIAL, 5, 5, ms[0].reqs[0]);
    assert ms[0].reqs[1..] == [] && ServeAll(s, 5, 5, []) == s;
    assert Handle(INITIAL, ms[0]) == s;
    var w := PendingReq(0, 2, 5);
    assert WaitingFor(s, 1) == [] + [w] == [w];
    AnnouncementRunsExactly(Change(s, StoreMessage(1, [7])), 1, [7], [w]);
    assert !WaitersFit([w], 1) by {
      assert [w][0].offset + [w][0].size == 2;
    }
  }

  // ----- what the store holds -----

  /** What a message does to the store. */
  function OpOf(m: Message): seq<Op> {
    match m
    case StoreResult(resid, data) => [StoreMessage(resid, data)]
    case StoreResultPart(resid, data, offset) => [AddData(resid, data, offset)]
    case PreparePart(resid, size) => [Prepare(resid, size)]
    case GetResultParts(_, _, _) => []
    case ReleaseResult(resid) => [Remove(resid)]
  }

  function OpsOf(ms: seq<Message>): seq<Op> {
    if ms == [] then [] else OpOf(ms[0]) + OpsOf(ms[1..])
  }

  lemma HandleStores(s: Server, m: Message)
    requires s.health.Running? && Safe(s, m)
    ensures if OpOf(m) == [] then Handle(s, m).parts == s.parts
            else Legal(s.parts, OpOf(m)[0]) && Handle(s, m).parts == Apply(s.parts, OpOf(m)[0])
  {
    match m
    case StoreResult(resid, data) =>
      var t := Change(s, StoreMessage(resid, data));
      AnnouncementRunsExactly(t, resid, data, WaitingFor(t, resid));
    case StoreResultPart(resid, data, offset) =>
      var t := Change(s, AddData(resid, data, offset));
      if t.parts[resid].remaining == 0 {
        AnnouncementRunsExactly(t, resid, t.parts[resid].bytes, WaitingFor(t, resid));
      }
    case PreparePart(_, _) =>
    case GetResultParts(src, forwardTo, reqs) => RequestRunsExactly(s, src, forwardTo, reqs);
    case ReleaseResult(_) =>
  }

  /** Over every run the server survives, its store is what the messages' operations leave, one after the other. */
  lemma {:induction false} StoreFollowsMessages(s: Server, ms: seq<Message>)
    requires s.health.Running? && SafeRun(s, ms)
    ensures LegalRun(s.parts, OpsOf(ms)) && HandleAll(s, ms).parts == Run(s.parts, OpsOf(ms))
    decreases |ms|
  {
    if ms != [] {
      HandleRunsExactly(s, ms[0]);
      HandleStores(s, ms[0]);
      StoreFollowsMessages(Handle(s, ms[0]), ms[1..]);
      var rest := OpsOf(ms[1..]);
      if OpOf(ms[0]) == [] {
        assert [] + rest == rest;
      } else {
        assert (OpOf(ms[0]) + rest)[0] == OpOf(ms[0])[0] && (OpOf(ms[0]) + rest)[1..] == rest;
      }
    }
  }

  // ----- order of the replies to one request -----

  /** What the `k`-th part of a request should bring back. */
  function Expected(parts: Parts, forwardTo: int, reqs: seq<PartReq>): seq<Reply>
    requires forall r :: r in reqs ==> Ready(parts, r.resid) && r.offset + r.size <= |parts[r.resid].bytes|
  {
    if reqs == [] then []
    else
      var r := reqs[0];
      assert r in reqs && Ready(parts, r.resid);
      [Reply(forwardTo, r.resid, r.offset, parts[r.resid].bytes[r.offset..r.offset + r.size])]
      + Expected(parts, forwardTo, reqs[1..])
  }

  lemma ExpectedCons(parts: Parts, forwardTo: int, r: PartReq, rest: seq<PartReq>)
    requires Ready(parts, r.resid) && r.offset + r.size <= |parts[r.resid].bytes|
    requires forall q :: q in rest ==> Ready(parts, q.resid) && q.offset + q.size <= |parts[q.resid].bytes|
    ensures Expected(parts, forwardTo, [r] + rest) ==
            [Reply(forwardTo, r.resid, r.offset, parts[r.resid].bytes[r.offset..r.offset + r.size])]
            + Expected(parts, forwardTo, rest)
  {
    assert ([r] + rest)[1..] == rest;
  }

  /** When every part of a request is ready, the replies leave at once and in request order. */
  lemma {:induction false} ReadyRequestAnsweredInOrder(s: Server, src: int, forwardTo: int, reqs: seq<PartReq>)
    requires s.health.Running?
    requires forall r :: r in reqs ==> Ready(s.parts, r.resid) && r.offset + r.size <= |s.parts[r.resid].bytes|
    ensures ServeAll(s, src, forwardTo, reqs) == s.(sent := s.sent + Expected(s.parts, forwardTo, reqs))
    decreases |reqs|
  {
    if reqs == [] {
      assert s.sent + [] == s.sent;
    } else {
      assert reqs[0] in reqs;
      var t := ServeOne(s, src, forwardTo, reqs[0]);
      ReadyRequestAnsweredInOrder(t, src, forwardTo, reqs[1..]);
      var e := Expected(s.parts, forwardTo, reqs);
      assert t.sent + Expected(s.parts, forwardTo, reqs[1..]) == s.sent + e;
    }
  }

  /** The parts of the request that can be answered at once. */
  function ReadyOnly(parts: Parts, reqs: seq<PartReq>): (r: seq<PartReq>)
    ensures forall x :: x in r ==> x in reqs && Ready(parts, x.resid)
  {
    if reqs == [] then []
    else (if Ready(parts, reqs[0].resid) then [reqs[0]] else []) + ReadyOnly(parts, reqs[1..])
  }

  predicate ReadyFirst(parts: Parts, reqs: seq<PartReq>) {
    forall i, j :: 0 <= i < j < |reqs| && Ready(parts, reqs[j].resid) ==> Ready(parts, reqs[i].resid)
  }

  /** The answers that leave at once are the ready parts of the request, skipping the others. */
  lemma {:induction false} ImmediateReplies(s: Server, src: int, forwardTo: int, reqs: seq<PartReq>)
    requires s.health.Running?
    requires forall r :: r in reqs && Ready(s.parts, r.resid) ==> r.offset + r.size <= |s.parts[r.resid].bytes|
    ensures var t := ServeAll(s, src, forwardTo, reqs);
            t.health.Running? && t.parts == s.parts
            && t.sent == s.sent + Expected(s.parts, forwardTo, ReadyOnly(s.parts, reqs))
    decreases |reqs|
  {
    if reqs == [] {
      assert s.sent + [] == s.sent;
    } else {
      var r := reqs[0];
      assert r in reqs;
      var t := ServeOne(s, src, forwardTo, r);
      ImmediateReplies(t, src, forwardTo, reqs[1..]);
      var rest := ReadyOnly(s.parts, reqs[1..]);
      if Ready(s.parts, r.resid) {
        var first := Reply(forwardTo, r.resid, r.offset, s.parts[r.resid].bytes[r.offset..r.offset + r.size]);
        assert t.sent == s.sent + [first];
        assert ReadyOnly(s.parts, reqs) == [r] + rest;
        ExpectedCons(s.parts, forwardTo, r, rest);
        ConcatAssociates(s.sent, [first], Expected(s.parts, forwardTo, rest));
      } else {
        assert ReadyOnly(s.parts, reqs) == [] + rest == rest;
      }
    }
  }

  lemma {:induction false} ReadyOnlySize(parts: Parts, reqs: seq<PartReq>)
    ensures |ReadyOnly(parts, reqs)| <= |reqs|
    ensures (forall r :: r in reqs ==> !Ready(parts, r.resid)) ==> ReadyOnly(parts, reqs) == []
    ensures forall j :: 0 <= j < |reqs| && Ready(parts, reqs[j].resid) ==> reqs[j] in ReadyOnly(parts, reqs)
  {
    if reqs != [] {
      ReadyOnlySize(parts, reqs[1..]);
      forall j | 0 <= j < |reqs| && Ready(parts, reqs[j].resid)
        ensures reqs[j] in ReadyOnly(parts, reqs)
      {
        if j > 0 {
          assert reqs[j] == reqs[1..][j - 1];
        }
      }
      assert reqs[0] in reqs;
      assert forall r :: r in reqs[1..] ==> r in reqs;
    }
  }
}

/** The part-serving half of `ActorServer`: the message handlers, which lock the store and update it and the
    pending-request lists in place. */
module PartServer {
  import opened Bytes
  import opened PartStore
  import opened PartRequests
  import DataStore

  class ActorServer {
    const dataStore: DataStore.DataStore
    var pendingResultRequests: map<int, seq<PendingReq>>
    var sent: seq<Reply>
    var health: Health

    ghost predicate Valid()
      reads this, dataStore
    {
      dataStore.Valid()
    }

    ghost function View(): Server
      requires Valid()
      reads this, dataStore
    {
      Server(dataStore.View(), pendingResultRequests, sent, health)
    }

    constructor ()
      ensures Valid() && View() == INITIAL && fresh(dataStore)
    {
      dataStore := new DataStore.DataStore();
      pendingResultRequests, sent, health := map[], [], Running;
    }

    /** `checkDvPartRequired`: answers what was waiting for the part. */
    method CheckDvPartRequired(key: int)
      requires Valid() && health.Running?
      modifies this
      ensures Valid() && View() == CheckPartRequired(old(View()), key)
    {
      if key in pendingResultRequests {
        var waiting := pendingResultRequests[key];
        var i := 0;
        while i < |waiting| && health.Running?
          invariant 0 <= i <= |waiting| && Valid()
          invariant ServeWaiting(View(), key, waiting[i..])
                 == ServeWaiting(old(View()), key, waiting)
        {
          assert waiting[i..][0] == waiting[i] && waiting[i..][1..] == waiting[i + 1..];
          AnswerWaiting(key, waiting[i]);
          i := i + 1;
        }
      }
    }

    method AnswerWaiting(key: int, w: PendingReq)
      requires Valid()
      modifies this
      ensures Valid() && View() == ServeWaiter(old(View()), key, w)
    {
      var data := dataStore.PartData(key);
      if data.None? || w.offset + w.size > |data.value| {
        health := ReadOutOfBounds;
      } else {
        sent := sent + [Reply(w.dst, key, w.offset, data.value[w.offset..w.offset + w.size])];
      }
    }

    /** `handleGetResultPartsMessage`: part by part, answering, queueing, or giving up with the lock held. */
    method HandleGetResultParts(src: int, forwardTo: int, reqs: seq<PartReq>)
      requires Valid() && health.Running?
      modifies this
      ensures Valid() && View() == Handle(old(View()), GetResultParts(src, forwardTo, reqs))
    {
      var i := 0;
      while i < |reqs| && health.Running?
        invariant 0 <= i <= |reqs| && Valid()
        invariant ServeAll(View(), src, forwardTo, reqs[i..]) == ServeAll(old(View()), src, forwardTo, reqs)
      {
        assert reqs[i..][0] == reqs[i] && reqs[i..][1..] == reqs[i + 1..];
        ServePart(src, forwardTo, reqs[i]);
        i := i + 1;
      }
    }

    /** One part of a request: answer, queue, or give up. */
    method ServePart(src: int, forwardTo: int, r: PartReq)
      requires Valid()
      modifies this
      ensures Valid() && View() == ServeOne(old(View()), src, forwardTo, r)
    {
      var data := dataStore.PartData(r.resid);
      if data.None? {
        var waiting := if r.resid in pendingResultRequests then pendingResultRequests[r.resid] else [];
        pendingResultRequests := pendingResultRequests[r.resid := waiting + [PendingReq(r.offset, r.size, src)]];
      } else if r.offset + r.size > |data.value| {
        health := LockNeverReleased;
      } else {
        sent := sent + [Reply(forwardTo, r.resid, r.offset, data.value[r.offset..r.offset + r.size])];
      }
    }

    /** `handleStoreResultMessage`; the store asserts that it does not hold the part yet. */
    method HandleStoreResult(resid: int, data: seq<byte>)
      requires Valid() && health.Running?
      modifies this, dataStore
      ensures Valid() && View() == Handle(old(View()), StoreResult(resid, data))
    {
      if resid in dataStore.dvParts {
        health := AssertionFailed;
      } else {
        dataStore.StorePartMessage(resid, data);
        CheckDvPartRequired(resid);
      }
    }

    /** `handleStoreResultPartMessage`: one piece of a prepared part, and the waiting requests with the last. The
        store asserts that the piece fits. */
    method HandleStoreResultPart(resid: int, data: seq<byte>, offset: nat)
      requires Valid() && health.Running?
      modifies this, dataStore
      ensures Valid() && View() == Handle(old(View()), StoreResultPart(resid, data, offset))
    {
      var fits := dataStore.Accepts(resid, data, offset);
      if !fits {
        health := AssertionFailed;
      } else {
        var remaining := dataStore.AddBytes(resid, data, offset);
        if remaining == 0 {
          CheckDvPartRequired(resid);
        }
      }
    }

    /** `handleReleaseResultPartMessage`; the store asserts that it holds the part. */
    method HandleReleaseResult(resid: int)
      requires Valid() && health.Running?
      modifies this, dataStore
      ensures Valid() && View() == Handle(old(View()), ReleaseResult(resid))
    {
      if resid in dataStore.dvParts {
        dataStore.RemovePart(resid);
      } else {
        health := AssertionFailed;
      }
    }
  }
}
