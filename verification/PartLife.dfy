/** The life of one part at its owner: the messages that name it, and how often each request for it is answered. The
    server is the product of its parts' lives, so what holds of every life holds of the server. */
module PartLife {
  import opened Bytes
  import opened PartStore
  import opened PartRequests

  // ----- one part alone -----

  datatype Event =
    | Stored(data: seq<byte>)
    | Prepared(size: nat)
    | Piece(data: seq<byte>, offset: nat)
    | Asked(offset: nat, size: nat, src: int, forwardTo: int)
    | Released

  datatype Life = Life(cell: Option<Cell>, waiting: seq<PendingReq>, sent: seq<Reply>, health: Health)

  const UNBORN := Life(None, [], [], Running)

  function Exposed(c: Option<Cell>): Option<seq<byte>> {
    if c.Some? && c.value.remaining == 0 && HasBuffer(c.value) then Some(c.value.bytes) else None
  }

  predicate PieceFits(c: Option<Cell>, data: seq<byte>, offset: nat) {
    c.Some? && HasBuffer(c.value) && offset + |data| <= |c.value.bytes| && |data| <= c.value.remaining
  }

  /** The waiting requests are answered and stay. */
  function Announce(p: Life, key: int, data: seq<byte>): Life {
    if WaitersFit(p.waiting, |data|) then p.(sent := p.sent + RepliesToAll(p.waiting, key, data))
    else p.(health := ReadOutOfBounds)
  }

  function LifeStep(p: Life, key: int, e: Event): Life {
    if !p.health.Running? then p
    else match e
      case Stored(data) =>
        if p.cell.Some? then p.(health := AssertionFailed)
        else Announce(p.(cell := Some(Cell(data, MessageStore, 0))), key, data)
      case Prepared(size) =>
        if p.cell.Some? then p.(health := AssertionFailed)
        else p.(cell := Some(Cell(Zeros(size), VectorStore, size)))
      case Piece(data, offset) =>
        if !PieceFits(p.cell, data, offset) then p.(health := AssertionFailed)
        else
          var c := p.cell.value;
          var next := c.(bytes := Splice(c.bytes, offset, data), remaining := c.remaining - |data|);
          if next.remaining == 0 then Announce(p.(cell := Some(next)), key, next.bytes) else p.(cell := Some(next))
      case Asked(offset, size, src, forwardTo) =>
        (match Exposed(p.cell)
         case None => p.(waiting := p.waiting + [PendingReq(offset, size, src)])
         case Some(data) =>
           if offset + size > |data| then p.(health := LockNeverReleased)
           else p.(sent := p.sent + [Reply(forwardTo, key, offset, data[offset..offset + size])]))
      case Released =>
        if p.cell.None? then p.(health := AssertionFailed) else p.(cell := None)
  }

  function LifeRun(p: Life, key: int, es: seq<Event>): Life {
    if es == [] then p else LifeStep(LifeRun(p, key, es[..|es| - 1]), key, es[|es| - 1])
  }

  lemma {:induction false} LifeRunConcat(p: Life, key: int, a: seq<Event>, b: seq<Event>)
    ensures LifeRun(p, key, a + b) == LifeRun(LifeRun(p, key, a), key, b)
    decreases |b|
  {
    if b == [] {
      assert a + b == a;
    } else {
      var n := |b| - 1;
      LifeRunConcat(p, key, a, b[..n]);
      assert (a + b)[..|a| + n] == a + b[..n];
    }
  }

  lemma LifeRunOne(p: Life, key: int, e: Event)
    ensures LifeRun(p, key, [e]) == LifeStep(p, key, e)
  {
    assert [e][..0] == [];
    assert LifeRun(p, key, []) == p;
  }

  /** A run that ends running was running all along. */
  lemma {:induction false} RunningBefore(p: Life, key: int, a: seq<Event>, b: seq<Event>)
    requires LifeRun(p, key, a + b).health.Running?
    ensures LifeRun(p, key, a).health.Running?
    decreases |b|
  {
    if b == [] {
      assert a + b == a;
    } else {
      var n := |b| - 1;
      assert (a + b)[..|a| + n] == a + b[..n];
      RunningBefore(p, key, a, b[..n]);
    }
  }

  // ----- the server, seen from one part -----

  function AsksOf(src: int, forwardTo: int, reqs: seq<PartReq>, key: int): seq<Event> {
    if reqs == [] then []
    else
      (if reqs[0].resid == key then [Asked(reqs[0].offset, reqs[0].size, src, forwardTo)] else [])
      + AsksOf(src, forwardTo, reqs[1..], key)
  }

  function EventsOf(m: Message, key: int): seq<Event> {
    match m
    case StoreResult(resid, data) => if resid == key then [Stored(data)] else []
    case StoreResultPart(resid, data, offset) => if resid == key then [Piece(data, offset)] else []
    case PreparePart(resid, size) => if resid == key then [Prepared(size)] else []
    case GetResultParts(src, forwardTo, reqs) => AsksOf(src, forwardTo, reqs, key)
    case ReleaseResult(resid) => if resid == key then [Released] else []
  }

  /** The messages that name a part, in order. */
  function OnPart(ms: seq<Message>, key: int): seq<Event> {
    if ms == [] then [] else OnPart(ms[..|ms| - 1], key) + EventsOf(ms[|ms| - 1], key)
  }

  function RepliesAbout(sent: seq<Reply>, key: int): seq<Reply> {
    if sent == [] then []
    else RepliesAbout(sent[..|sent| - 1], key) + if sent[|sent| - 1].resid == key then [sent[|sent| - 1]] else []
  }

  function View(s: Server, key: int): Life {
    Life(if key in s.parts then Some(s.parts[key]) else None, WaitingFor(s, key), RepliesAbout(s.sent, key), s.health)
  }

  lemma {:induction false} AboutConcat(sent: seq<Reply>, more: seq<Reply>, key: int)
    ensures RepliesAbout(sent + more, key) == RepliesAbout(sent, key) + RepliesAbout(more, key)
    decreases |more|
  {
    if more == [] {
      assert sent + more == sent;
    } else {
      var n := |more| - 1;
      AboutConcat(sent, more[..n], key);
      assert (sent + more)[..|sent| + n] == sent + more[..n];
    }
  }

  lemma {:induction false} AboutSame(rs: seq<Reply>, key: int, k: int)
    requires forall i :: 0 <= i < |rs| ==> rs[i].resid == k
    ensures RepliesAbout(rs, key) == if k == key then rs else []
  {
    if rs != [] {
      AboutSame(rs[..|rs| - 1], key, k);
    }
  }

  lemma AboutOne(sent: seq<Reply>, r: Reply, key: int)
    ensures RepliesAbout(sent + [r], key) == RepliesAbout(sent, key) + if r.resid == key then [r] else []
  {
    assert (sent + [r])[..|sent|] == sent;
  }

  lemma ServeOneHere(s: Server, src: int, forwardTo: int, r: PartReq)
    requires s.health.Running? && ServeOne(s, src, forwardTo, r).health.Running?
    ensures View(ServeOne(s, src, forwardTo, r), r.resid) ==
            LifeStep(View(s, r.resid), r.resid, Asked(r.offset, r.size, src, forwardTo))
  {
    if Ready(s.parts, r.resid) {
      AskedReady(s, src, forwardTo, r, s.parts[r.resid].bytes);
    } else {
      AskedEarly(s, src, forwardTo, r);
    }
  }

  lemma AskedReady(s: Server, src: int, forwardTo: int, r: PartReq, data: seq<byte>)
    requires s.health.Running? && GetPartData(s.parts, r.resid) == Some(data) && r.offset + r.size <= |data|
    ensures View(ServeOne(s, src, forwardTo, r), r.resid) ==
            LifeStep(View(s, r.resid), r.resid, Asked(r.offset, r.size, src, forwardTo))
  {
    var reply := Reply(forwardTo, r.resid, r.offset, data[r.offset..r.offset + r.size]);
    var p := View(s, r.resid);
    assert LifeStep(p, r.resid, Asked(r.offset, r.size, src, forwardTo)) == p.(sent := p.sent + [reply]);
    assert ServeOne(s, src, forwardTo, r) == s.(sent := s.sent + [reply]);
    SentView(s, reply);
  }

  lemma SentView(s: Server, reply: Reply)
    ensures View(s.(sent := s.sent + [reply]), reply.resid) ==
            View(s, reply.resid).(sent := RepliesAbout(s.sent, reply.resid) + [reply])
  {
    AboutOne(s.sent, reply, reply.resid);
  }

  lemma AskedEarly(s: Server, src: int, forwardTo: int, r: PartReq)
    requires s.health.Running? && !Ready(s.parts, r.resid)
    ensures View(ServeOne(s, src, forwardTo, r), r.resid) ==
            LifeStep(View(s, r.resid), r.resid, Asked(r.offset, r.size, src, forwardTo))
  {
  }

  lemma ServeOneElsewhere(s: Server, src: int, forwardTo: int, r: PartReq, key: int)
    requires s.health.Running? && ServeOne(s, src, forwardTo, r).health.Running? && r.resid != key
    ensures View(ServeOne(s, src, forwardTo, r), key) == View(s, key)
  {
    if Ready(s.parts, r.resid) {
      var data := s.parts[r.resid].bytes;
      AboutOne(s.sent, Reply(forwardTo, r.resid, r.offset, data[r.offset..r.offset + r.size]), key);
    }
  }

  lemma {:induction false} ServeAllView(s: Server, src: int, forwardTo: int, reqs: seq<PartReq>, key: int)
    requires s.health.Running? && ServeAll(s, src, forwardTo, reqs).health.Running?
    ensures View(ServeAll(s, src, forwardTo, reqs), key) ==
            LifeRun(View(s, key), key, AsksOf(src, forwardTo, reqs, key))
    decreases |reqs|
  {
    if reqs != [] {
      var r, rest := reqs[0], AsksOf(src, forwardTo, reqs[1..], key);
      ServeAllView(ServeOne(s, src, forwardTo, r), src, forwardTo, reqs[1..], key);
      if r.resid == key {
        var e := Asked(r.offset, r.size, src, forwardTo);
        ServeOneHere(s, src, forwardTo, r);
        LifeRunConcat(View(s, key), key, [e], rest);
        LifeRunOne(View(s, key), key, e);
      } else {
        ServeOneElsewhere(s, src, forwardTo, r, key);
        assert [] + rest == rest;
      }
    }
  }

  lemma AnnounceView(s: Server, k: int, data: seq<byte>, key: int)
    requires s.health.Running? && GetPartData(s.parts, k) == Some(data) && CheckPartRequired(s, k).health.Running?
    ensures View(CheckPartRequired(s, k), key) == if k == key then Announce(View(s, key), key, data) else View(s, key)
  {
    AnnouncementRunsExactly(s, k, data, WaitingFor(s, k));
    AboutConcat(s.sent, RepliesToAll(WaitingFor(s, k), k, data), key);
    AboutSame(RepliesToAll(WaitingFor(s, k), k, data), key, k);
  }

  lemma PieceView(s: Server, resid: int, data: seq<byte>, offset: nat, key: int)
    requires s.health.Running? && Handle(s, StoreResultPart(resid, data, offset)).health.Running?
    ensures View(Handle(s, StoreResultPart(resid, data, offset)), key) ==
            if resid == key then LifeStep(View(s, key), key, Piece(data, offset)) else View(s, key)
  {
    HandleRunsExactly(s, StoreResultPart(resid, data, offset));
    var t := Change(s, AddData(resid, data, offset));
    if t.parts[resid].remaining == 0 {
      AnnounceView(t, resid, t.parts[resid].bytes, key);
    }
  }

  /** A message that the server survives does to each part what the part's share of it does. */
  lemma HandleView(s: Server, m: Message, key: int)
    requires s.health.Running? && Handle(s, m).health.Running?
    ensures View(Handle(s, m), key) == LifeRun(View(s, key), key, EventsOf(m, key))
  {
    HandleRunsExactly(s, m);
    match m
    case StoreResult(resid, data) =>
      LifeRunOne(View(s, key), key, Stored(data));
      AnnounceView(Change(s, StoreMessage(resid, data)), resid, data, key);
    case StoreResultPart(resid, data, offset) =>
      LifeRunOne(View(s, key), key, Piece(data, offset));
      PieceView(s, resid, data, offset, key);
    case PreparePart(resid, size) => LifeRunOne(View(s, key), key, Prepared(size));
    case GetResultParts(src, forwardTo, reqs) => ServeAllView(s, src, forwardTo, reqs, key);
    case ReleaseResult(resid) => LifeRunOne(View(s, key), key, Released);
  }

  lemma RunningPrefix(ms: seq<Message>)
    requires ms != [] && HandleAll(INITIAL, ms).health.Running?
    ensures HandleAll(INITIAL, ms[..|ms| - 1]).health.Running?
    ensures HandleAll(INITIAL, ms) == Handle(HandleAll(INITIAL, ms[..|ms| - 1]), ms[|ms| - 1])
  {
    assert ms == ms[..|ms| - 1] + [ms[|ms| - 1]];
    HandleAllSnoc(INITIAL, ms[..|ms| - 1], ms[|ms| - 1]);
  }

  /** The server is the product of independent lives: over every run it survives, each part ends up as if the server
      had only handled what names it. */
  lemma {:induction false} PartsAreIndependent(ms: seq<Message>, key: int)
    requires HandleAll(INITIAL, ms).health.Running?
    ensures View(HandleAll(INITIAL, ms), key) == LifeRun(UNBORN, key, OnPart(ms, key))
  {
    if ms != [] {
      var n := |ms| - 1;
      RunningPrefix(ms);
      PartsAreIndependent(ms[..n], key);
      HandleView(HandleAll(INITIAL, ms[..n]), ms[n], key);
      LifeRunConcat(UNBORN, key, OnPart(ms[..n], key), EventsOf(ms[n], key));
    }
  }

  // ----- the server runs exactly as long as every part's life does -----

  lemma {:induction false} AsksFail(p: Life, key: int, src: int, forwardTo: int, reqs: seq<PartReq>, i: nat)
    requires p.health.Running? && i < |reqs| && reqs[i].resid == key
    requires Exposed(p.cell).Some? && reqs[i].offset + reqs[i].size > |Exposed(p.cell).value|
    ensures !LifeRun(p, key, AsksOf(src, forwardTo, reqs, key)).health.Running?
    decreases |reqs|
  {
    var r, rest := reqs[0], AsksOf(src, forwardTo, reqs[1..], key);
    if r.resid == key {
      var e := Asked(r.offset, r.size, src, forwardTo);
      LifeRunConcat(p, key, [e], rest);
      LifeRunOne(p, key, e);
      var q := LifeStep(p, key, e);
      if q.health.Running? {
        AsksFail(q, key, src, forwardTo, reqs[1..], i - 1);
      } else {
        StaysFailed(q, key, rest);
      }
    } else {
      assert [] + rest == rest;
      AsksFail(p, key, src, forwardTo, reqs[1..], i - 1);
    }
  }

  lemma {:induction false} StaysFailed(p: Life, key: int, es: seq<Event>)
    requires !p.health.Running?
    ensures LifeRun(p, key, es) == p
  {
    if es != [] {
      StaysFailed(p, key, es[..|es| - 1]);
    }
  }

  /** A message that brings the server down brings down the life of a part that it names. */
  lemma FailureShows(s: Server, m: Message) returns (key: int)
    requires s.health.Running? && !Handle(s, m).health.Running?
    ensures !LifeRun(View(s, key), key, EventsOf(m, key)).health.Running?
  {
    HandleRunsExactly(s, m);
    match m
    case StoreResult(resid, data) =>
      key := resid;
      LifeRunOne(View(s, key), key, Stored(data));
    case StoreResultPart(resid, data, offset) =>
      key := resid;
      LifeRunOne(View(s, key), key, Piece(data, offset));
    case PreparePart(resid, size) =>
      key := resid;
      LifeRunOne(View(s, key), key, Prepared(size));
    case GetResultParts(src, forwardTo, reqs) =>
      var i :| 0 <= i < |reqs| && !InBounds(s.parts, reqs[i]);
      key := reqs[i].resid;
      AsksFail(View(s, key), key, src, forwardTo, reqs, i);
    case ReleaseResult(resid) =>
      key := resid;
      LifeRunOne(View(s, key), key, Released);
  }

  /** Over every run: the server keeps running if and only if, for every part, what names that part alone would. */
  lemma {:induction false} ServerRunsExactly(ms: seq<Message>)
    ensures HandleAll(INITIAL, ms).health.Running? <==>
            forall key :: LifeRun(UNBORN, key, OnPart(ms, key)).health.Running?
  {
    if ms != [] {
      var n := |ms| - 1;
      var init := ms[..n];
      ServerRunsExactly(init);
      assert ms == init + [ms[n]];
      HandleAllSnoc(INITIAL, init, ms[n]);
      if HandleAll(INITIAL, ms).health.Running? {
        forall key
          ensures LifeRun(UNBORN, key, OnPart(ms, key)).health.Running?
        {
          PartsAreIndependent(ms, key);
        }
      } else if HandleAll(INITIAL, init).health.Running? {
        var key := FailureShows(HandleAll(INITIAL, init), ms[n]);
        PartsAreIndependent(init, key);
        LifeRunConcat(UNBORN, key, OnPart(init, key), EventsOf(ms[n], key));
        assert !LifeRun(UNBORN, key, OnPart(ms, key)).health.Running?;
      } else {
        var key :| !LifeRun(UNBORN, key, OnPart(init, key)).health.Running?;
        LifeRunConcat(UNBORN, key, OnPart(init, key), EventsOf(ms[n], key));
        StaysFailed(LifeRun(UNBORN, key, OnPart(init, key)), key, EventsOf(ms[n], key));
        assert !LifeRun(UNBORN, key, OnPart(ms, key)).health.Running?;
      }
    }
  }

  // ----- which message completes a part -----

  predicate OnlyAsks(es: seq<Event>) {
    forall i :: 0 <= i < |es| ==> es[i].Asked?
  }

  predicate PreparedAt(es: seq<Event>, j: nat) {
    && j < |es| && es[j].Prepared?
    && (forall i :: 0 <= i < |es| && i < j ==> es[i].Asked?)
    && (forall i :: 0 <= i < |es| && j < i ==> es[i].Asked? || es[i].Piece?)
  }

  /** Prepared once, and since then asked for and fed. */
  ghost predicate Growing(es: seq<Event>) {
    exists j: nat :: PreparedAt(es, j)
  }

  /** The size that the part was last prepared with. */
  function Room(es: seq<Event>): nat {
    if es == [] then 0 else if es[|es| - 1].Prepared? then es[|es| - 1].size else Room(es[..|es| - 1])
  }

  /** The bytes fed to the part. */
  function Fed(es: seq<Event>): nat {
    if es == [] then 0 else Fed(es[..|es| - 1]) + if es[|es| - 1].Piece? then |es[|es| - 1].data| else 0
  }

  /** Nothing that would complete the part has come. */
  ghost predicate Young(es: seq<Event>) {
    OnlyAsks(es) || (Growing(es) && (Room(es) == 0 || Fed(es) < Room(es)))
  }

  /** After `before`, `e` completes the part: it brings it whole, or brings its last missing bytes. */
  ghost predicate Completes(before: seq<Event>, e: Event) {
    || (e.Stored? && OnlyAsks(before))
    || (e.Piece? && Growing(before) && Fed(before) < Room(before) == Fed(before) + |e.data|)
  }

  predicate IsBirth(e: Event) {
    e.Stored? || e.Prepared?
  }

  function Births(es: seq<Event>): nat {
    if es == [] then 0 else Births(es[..|es| - 1]) + if IsBirth(es[|es| - 1]) then 1 else 0
  }

  predicate NoRelease(es: seq<Event>) {
    forall i :: 0 <= i < |es| ==> !es[i].Released?
  }

  // ----- counting -----

  function Waiters(es: seq<Event>): seq<PendingReq> {
    if es == [] then []
    else
      var e := es[|es| - 1];
      Waiters(es[..|es| - 1]) + if e.Asked? then [PendingReq(e.offset, e.size, e.src)] else []
  }

  /** How often process `q.dst` asks for these bytes. */
  function AskedBy(es: seq<Event>, q: PendingReq): nat {
    if es == [] then 0
    else
      var e := es[|es| - 1];
      AskedBy(es[..|es| - 1], q) + if e.Asked? && PendingReq(e.offset, e.size, e.src) == q then 1 else 0
  }

  /** How often these bytes are asked for on behalf of process `q.dst`. */
  function AskedFor(es: seq<Event>, q: PendingReq): nat {
    if es == [] then 0
    else
      var e := es[|es| - 1];
      AskedFor(es[..|es| - 1], q) + if e.Asked? && PendingReq(e.offset, e.size, e.forwardTo) == q then 1 else 0
  }

  function Pieces(es: seq<Event>): nat {
    if es == [] then 0 else Pieces(es[..|es| - 1]) + if es[|es| - 1].Piece? then 1 else 0
  }

  function CountWaiting(ws: seq<PendingReq>, q: PendingReq): nat {
    if ws == [] then 0 else CountWaiting(ws[..|ws| - 1], q) + if ws[|ws| - 1] == q then 1 else 0
  }

  predicate Answers(r: Reply, q: PendingReq) {
    r.dst == q.dst && r.offset == q.offset && |r.data| == q.size
  }

  function CountReplies(rs: seq<Reply>, q: PendingReq): nat {
    if rs == [] then 0 else CountReplies(rs[..|rs| - 1], q) + if Answers(rs[|rs| - 1], q) then 1 else 0
  }

  lemma CountRepliesOne(rs: seq<Reply>, r: Reply, q: PendingReq)
    ensures CountReplies(rs + [r], q) == CountReplies(rs, q) + if Answers(r, q) then 1 else 0
  {
    assert (rs + [r])[..|rs|] == rs;
  }

  lemma {:induction false} CountAnswers(rs: seq<Reply>, ws: seq<PendingReq>, key: int, data: seq<byte>, q: PendingReq)
    requires WaitersFit(ws, |data|)
    ensures CountReplies(rs + RepliesToAll(ws, key, data), q) == CountReplies(rs, q) + CountWaiting(ws, q)
    decreases |ws|
  {
    if ws == [] {
      assert rs + RepliesToAll(ws, key, data) == rs;
    } else {
      var n := |ws| - 1;
      CountAnswers(rs, ws[..n], key, data, q);
      AnswersLast(ws, key, data);
      ConcatAssociates(rs, RepliesToAll(ws[..n], key, data), [ReplyTo(ws[n], key, data)]);
      CountRepliesOne(rs + RepliesToAll(ws[..n], key, data), ReplyTo(ws[n], key, data), q);
    }
  }

  lemma AnswersLast(ws: seq<PendingReq>, key: int, data: seq<byte>)
    requires ws != [] && WaitersFit(ws, |data|)
    ensures RepliesToAll(ws, key, data) == RepliesToAll(ws[..|ws| - 1], key, data) + [ReplyTo(ws[|ws| - 1], key, data)]
  {
  }

  lemma {:induction false} CountWaiters(es: seq<Event>, q: PendingReq)
    ensures CountWaiting(Waiters(es), q) == AskedBy(es, q)
  {
    if es != [] {
      var n := |es| - 1;
      CountWaiters(es[..n], q);
      var e := es[n];
      var before := Waiters(es[..n]);
      if e.Asked? {
        assert (before + [PendingReq(e.offset, e.size, e.src)])[..|before|] == before;
      } else {
        assert before + [] == before;
      }
    }
  }

  lemma {:induction false} CountWaitingConcat(a: seq<PendingReq>, b: seq<PendingReq>, q: PendingReq)
    ensures CountWaiting(a + b, q) == CountWaiting(a, q) + CountWaiting(b, q)
    decreases |b|
  {
    if b == [] {
      assert a + b == a;
    } else {
      var n := |b| - 1;
      CountWaitingConcat(a, b[..n], q);
      assert (a + b)[..|a| + n] == a + b[..n];
    }
  }

  lemma {:induction false} AskedByConcat(a: seq<Event>, b: seq<Event>, q: PendingReq)
    ensures AskedBy(a + b, q) == AskedBy(a, q) + AskedBy(b, q)
    decreases |b|
  {
    if b == [] {
      assert a + b == a;
    } else {
      var n := |b| - 1;
      AskedByConcat(a, b[..n], q);
      assert (a + b)[..|a| + n] == a + b[..n];
    }
  }

  lemma {:induction false} BirthsConcat(a: seq<Event>, b: seq<Event>)
    ensures Births(a + b) == Births(a) + Births(b)
    decreases |b|
  {
    if b == [] {
      assert a + b == a;
    } else {
      var n := |b| - 1;
      BirthsConcat(a, b[..n]);
      assert (a + b)[..|a| + n] == a + b[..n];
    }
  }

  lemma {:induction false} BirthCounted(es: seq<Event>, j: nat)
    requires j < |es| && IsBirth(es[j])
    ensures Births(es) >= 1
  {
    if j < |es| - 1 {
      BirthCounted(es[..|es| - 1], j);
    }
  }

  lemma {:induction false} AsksFeedNothing(es: seq<Event>)
    requires OnlyAsks(es)
    ensures Fed(es) == 0
  {
    if es != [] {
      AsksFeedNothing(es[..|es| - 1]);
    }
  }

  // ----- the phases of a life -----

  /** Being young is inherited by every beginning. */
  lemma YoungBefore(es: seq<Event>)
    requires es != [] && Young(es)
    ensures Young(es[..|es| - 1])
    ensures es[|es| - 1].Prepared? ==> OnlyAsks(es[..|es| - 1])
    ensures !es[|es| - 1].Stored? && !es[|es| - 1].Released?
    ensures es[|es| - 1].Piece? ==> Growing(es[..|es| - 1])
  {
    var n := |es| - 1;
    if !OnlyAsks(es) {
      var j: nat :| PreparedAt(es, j);
      if j < n {
        assert PreparedAt(es[..n], j);
      }
    }
  }

  /** What a life looks like while the part is young. */
  ghost predicate YoungState(p: Life, es: seq<Event>) {
    && p.sent == [] && p.waiting == Waiters(es)
    && (OnlyAsks(es) ==> p.cell.None?)
    && (Growing(es) ==>
          && p.cell.Some? && p.cell.value.location.VectorStore?
          && |p.cell.value.bytes| == Room(es) && p.cell.value.remaining + Fed(es) == Room(es))
  }

  lemma {:induction false} YoungLife(key: int, es: seq<Event>)
    requires Young(es) && LifeRun(UNBORN, key, es).health.Running?
    ensures YoungState(LifeRun(UNBORN, key, es), es)
  {
    if es == [] {
      assert forall j: nat :: !PreparedAt(es, j);
    } else {
      var n := |es| - 1;
      var init, e := es[..n], es[n];
      assert es == init + [e];
      RunningBefore(UNBORN, key, init, [e]);
      YoungBefore(es);
      YoungLife(key, init);
      if OnlyAsks(init) {
        AsksFeedNothing(init);
      }
      YoungStep(LifeRun(UNBORN, key, init), key, init, e);
    }
  }

  lemma YoungStep(p: Life, key: int, init: seq<Event>, e: Event)
    requires p.health.Running? && YoungState(p, init) && Young(init) && Young(init + [e])
    requires OnlyAsks(init) ==> Fed(init) == 0
    requires LifeStep(p, key, e).health.Running?
    ensures YoungState(LifeStep(p, key, e), init + [e])
  {
    var es := init + [e];
    assert es[..|init|] == init && es[|init|] == e;
    YoungBefore(es);
    assert Growing(es) <==> e.Prepared? || Growing(init) by {
      GrowingStep(init, e);
    }
    assert OnlyAsks(es) ==> OnlyAsks(init) by {
      assert forall i :: 0 <= i < |init| ==> init[i] == es[i];
    }
  }

  lemma GrowingStep(init: seq<Event>, e: Event)
    requires Young(init) && Young(init + [e])
    ensures Growing(init + [e]) <==> e.Prepared? || Growing(init)
  {
    var es := init + [e];
    assert es[..|init|] == init;
    YoungBefore(es);
    if Growing(es) {
      var j: nat :| PreparedAt(es, j);
      if j < |init| {
        assert PreparedAt(init, j);
      }
    }
    if e.Prepared? {
      assert PreparedAt(es, |init|);
    } else if Growing(init) {
      var j: nat :| PreparedAt(init, j);
      assert es[j].Prepared?;
      assert !OnlyAsks(es);
    }
  }

  /** The completing message answers everything that waits. */
  lemma CompletedLife(key: int, before: seq<Event>, e: Event) returns (data: seq<byte>)
    requires Completes(before, e) && LifeRun(UNBORN, key, before + [e]).health.Running?
    ensures var p := LifeRun(UNBORN, key, before + [e]);
            && Exposed(p.cell) == Some(data) && p.waiting == Waiters(before) && WaitersFit(p.waiting, |data|)
            && p.sent == RepliesToAll(p.waiting, key, data)
  {
    RunningBefore(UNBORN, key, before, [e]);
    LifeRunConcat(UNBORN, key, before, [e]);
    var p := LifeRun(UNBORN, key, before);
    LifeRunOne(p, key, e);
    YoungLife(key, before);
    data := Exposed(LifeStep(p, key, e).cell).value;
    assert [] + RepliesToAll(p.waiting, key, data) == RepliesToAll(p.waiting, key, data);
  }

  /** While the part is complete and held, a request is answered at once, and a piece, which is empty then, answers
      all that waited once more. */
  lemma {:induction false} HeldLife(p: Life, key: int, data: seq<byte>, es: seq<Event>, q: PendingReq)
    requires Exposed(p.cell) == Some(data) && p.health.Running? && LifeRun(p, key, es).health.Running?
    requires NoRelease(es)
    ensures var r := LifeRun(p, key, es);
            && Exposed(r.cell) == Some(data) && r.waiting == p.waiting
            && CountReplies(r.sent, q) ==
               CountReplies(p.sent, q) + AskedFor(es, q) + Repeats(es, CountWaiting(p.waiting, q))
  {
    if es != [] {
      var n := |es| - 1;
      var init, e := es[..n], es[n];
      assert es == init + [e];
      RunningBefore(p, key, init, [e]);
      HeldLife(p, key, data, init, q);
      HeldStep(LifeRun(p, key, init), key, data, e, q);
    }
  }

  /** `w` replies for every piece. */
  function Repeats(es: seq<Event>, w: nat): nat {
    if es == [] then 0 else Repeats(es[..|es| - 1], w) + if es[|es| - 1].Piece? then w else 0
  }

  lemma {:induction false} RepeatsTimes(es: seq<Event>, w: nat)
    ensures Repeats(es, w) == Pieces(es) * w
  {
    if es != [] {
      RepeatsTimes(es[..|es| - 1], w);
      assert (Pieces(es[..|es| - 1]) + 1) * w == Pieces(es[..|es| - 1]) * w + w;
    }
  }

  lemma HeldStep(p: Life, key: int, data: seq<byte>, e: Event, q: PendingReq)
    requires Exposed(p.cell) == Some(data) && p.health.Running? && LifeStep(p, key, e).health.Running? && !e.Released?
    ensures var r := LifeStep(p, key, e);
            && Exposed(r.cell) == Some(data) && r.waiting == p.waiting
            && (e.Piece? ==> CountReplies(r.sent, q) == CountReplies(p.sent, q) + CountWaiting(p.waiting, q))
            && (e.Asked? ==>
                  CountReplies(r.sent, q) ==
                  CountReplies(p.sent, q) + if PendingReq(e.offset, e.size, e.forwardTo) == q then 1 else 0)
            && !IsBirth(e)
  {
    match e
    case Piece(bytes, offset) =>
      EmptyPieceStep(p, key, data, bytes, offset);
      CountAnswers(p.sent, p.waiting, key, data, q);
    case Asked(offset, size, src, forwardTo) =>
      CountRepliesOne(p.sent, Reply(forwardTo, key, offset, data[offset..offset + size]), q);
    case Stored(_) =>
    case Prepared(_) =>
  }

  lemma EmptyPieceStep(p: Life, key: int, data: seq<byte>, bytes: seq<byte>, offset: nat)
    requires Exposed(p.cell) == Some(data) && p.health.Running?
    requires LifeStep(p, key, Piece(bytes, offset)).health.Running?
    ensures WaitersFit(p.waiting, |data|)
    ensures LifeStep(p, key, Piece(bytes, offset)) == p.(sent := p.sent + RepliesToAll(p.waiting, key, data))
  {
    assert bytes == [];
    assert Splice(data, offset, []) == data;
  }

  /** Without the part, and without another birth, requests only pile up. */
  lemma {:induction false} GoneLife(p: Life, key: int, es: seq<Event>)
    requires p.cell.None? && p.health.Running? && LifeRun(p, key, es).health.Running? && Births(es) == 0
    ensures var r := LifeRun(p, key, es);
            r.cell.None? && r.sent == p.sent && r.waiting == p.waiting + Waiters(es)
  {
    if es == [] {
      assert p.waiting + [] == p.waiting;
    } else {
      var n := |es| - 1;
      assert es == es[..n] + [es[n]];
      RunningBefore(p, key, es[..n], [es[n]]);
      GoneLife(p, key, es[..n]);
    }
  }

  /** The last phase: the part is held to the end, or released and not stored again. */
  lemma AfterHeld(p: Life, key: int, es: seq<Event>)
    requires p.cell.Some? && p.health.Running? && LifeRun(p, key, es).health.Running?
    requires es == [] || (es[0].Released? && Births(es) == 0)
    ensures LifeRun(p, key, es).sent == p.sent && LifeRun(p, key, es).waiting == p.waiting + Waiters(es)
  {
    if es == [] {
      assert p.waiting + [] == p.waiting;
    } else {
      var rest := es[1..];
      assert es == [es[0]] + rest;
      LifeRunConcat(p, key, [es[0]], rest);
      LifeRunOne(p, key, es[0]);
      BirthsConcat([es[0]], rest);
      RunningBefore(p, key, [es[0]], rest);
      GoneLife(LifeStep(p, key, es[0]), key, rest);
      WaitersAfterRelease(es);
    }
  }

  lemma {:induction false} WaitersAfterRelease(es: seq<Event>)
    requires es != [] && es[0].Released?
    ensures Waiters(es) == Waiters(es[1..])
  {
    if |es| == 1 {
      assert es[..0] == [] && es[1..] == [];
    } else {
      var n := |es| - 1;
      WaitersAfterRelease(es[..n]);
      assert es[..n][1..] == es[1..][..n - 1];
    }
  }

  /** `es` splits at the completing message `c` and at `end`, where the part is released or the run ends. */
  ghost predicate LifeSpan(es: seq<Event>, c: nat, end: nat) {
    && c < end <= |es| && Completes(es[..c], es[c])
    && NoRelease(es[c + 1..end]) && (end == |es| || es[end].Released?)
  }

  lemma {:induction false} SpanCounted(key: int, es: seq<Event>, c: nat, end: nat, q: PendingReq)
    requires LifeRun(UNBORN, key, es).health.Running? && Births(es) <= 1 && LifeSpan(es, c, end)
    ensures var p, asked := LifeRun(UNBORN, key, es), AskedBy(es[..c], q);
            && CountReplies(p.sent, q) == asked + AskedFor(es[c + 1..end], q) + Pieces(es[c + 1..end]) * asked
            && CountWaiting(p.waiting, q) == asked + AskedBy(es[end..], q)
  {
    var a, e, b, z := es[..c], es[c], es[c + 1..end], es[end..];
    assert es == (a + [e]) + (b + z);
    SpanBirths(a, e, b, z, es);
    RunningBefore(UNBORN, key, a + [e], b + z);
    LifeRunConcat(UNBORN, key, a + [e], b + z);
    var data := CompletedLife(key, a, e);
    var p := LifeRun(UNBORN, key, a + [e]);
    RunningBefore(p, key, b, z);
    LifeRunConcat(p, key, b, z);
    HeldLife(p, key, data, b, q);
    RepeatsTimes(b, CountWaiting(p.waiting, q));
    AfterHeld(LifeRun(p, key, b), key, z);
    CountWaiters(a, q);
    CountWaiters(z, q);
    CountWaitingConcat(Waiters(a), Waiters(z), q);
    CountAnswers([], p.waiting, key, data, q);
    assert [] + p.sent == p.sent;
  }

  lemma SpanBirths(a: seq<Event>, e: Event, b: seq<Event>, z: seq<Event>, es: seq<Event>)
    requires es == (a + [e]) + (b + z) && Births(es) <= 1 && Completes(a, e)
    ensures Births(z) == 0
  {
    BirthsConcat(a + [e], b + z);
    BirthsConcat(b, z);
    if e.Stored? {
      BirthCounted(a + [e], |a|);
    } else {
      var j: nat :| PreparedAt(a, j);
      assert (a + [e])[j] == a[j];
      BirthCounted(a + [e], j);
    }
  }

  // ----- a part that is never completed -----

  ghost predicate NeverCompleted(es: seq<Event>) {
    forall c :: 0 <= c < |es| ==> !Completes(es[..c], es[c])
  }

  lemma {:induction false} NeverCompletedLife(key: int, es: seq<Event>)
    requires LifeRun(UNBORN, key, es).health.Running? && Births(es) <= 1 && NeverCompleted(es)
    ensures var p := LifeRun(UNBORN, key, es);
            && p.sent == [] && p.waiting == Waiters(es)
            && (p.cell.Some? ==> Young(es) && Growing(es)) && (Births(es) == 0 ==> OnlyAsks(es))
  {
    if es != [] {
      var n := |es| - 1;
      var init, e := es[..n], es[n];
      assert es == init + [e];
      RunningBefore(UNBORN, key, init, [e]);
      assert NeverCompleted(init) by {
        assert forall c :: 0 <= c < |init| ==> init[..c] == es[..c] && init[c] == es[c];
      }
      NeverCompletedLife(key, init);
      assert !Completes(init, e);
      var p := LifeRun(UNBORN, key, init);
      if p.cell.Some? {
        YoungLife(key, init);
        GrowingBirth(init);
      }
      NeverCompletedStep(p, key, init, e);
    }
  }

  lemma GrowingBirth(es: seq<Event>)
    requires Growing(es)
    ensures Births(es) >= 1
  {
    var j: nat :| PreparedAt(es, j);
    BirthCounted(es, j);
  }

  lemma NeverCompletedStep(p: Life, key: int, init: seq<Event>, e: Event)
    requires p.health.Running? && LifeStep(p, key, e).health.Running?
    requires p.sent == [] && p.waiting == Waiters(init) && Births(init + [e]) <= 1 && !Completes(init, e)
    requires p.cell.Some? ==> Young(init) && Growing(init) && YoungState(p, init) && Births(init) >= 1
    requires Births(init) == 0 ==> OnlyAsks(init)
    ensures var r, es := LifeStep(p, key, e), init + [e];
            && r.sent == [] && r.waiting == Waiters(es)
            && (r.cell.Some? ==> Young(es) && Growing(es)) && (Births(es) == 0 ==> OnlyAsks(es))
  {
    var es := init + [e];
    assert es[..|init|] == init && es[|init|] == e;
    assert Waiters(init) + [] == Waiters(init);
    if e.Prepared? {
      AsksFeedNothing(init);
      assert PreparedAt(es, |init|);
    } else if p.cell.Some? && !e.Released? {
      var j: nat :| PreparedAt(init, j);
      if e.Asked? || e.Piece? {
        assert PreparedAt(es, j);
      }
    }
  }

  // ----- the server's runs -----

  /** A part that is stored at most once and never completed: nothing is sent for it and every request waits. */
  lemma UnfinishedPartAnswersNothing(ms: seq<Message>, key: int, q: PendingReq)
    requires SafeRun(INITIAL, ms) && Births(OnPart(ms, key)) <= 1 && NeverCompleted(OnPart(ms, key))
    ensures var s := HandleAll(INITIAL, ms);
            RepliesAbout(s.sent, key) == [] && CountWaiting(WaitingFor(s, key), q) == AskedBy(OnPart(ms, key), q)
  {
    RunsExactly(INITIAL, ms);
    PartsAreIndependent(ms, key);
    NeverCompletedLife(key, OnPart(ms, key));
    CountWaiters(OnPart(ms, key), q);
  }

  /** Over every run in which a part is stored at most once: the requests before the message that completes it are
      answered once by that message and once more by every piece that follows it until the release; those after it are
      answered at once; those after the release wait, with the first ones, for good. */
  lemma RepliesCounted(ms: seq<Message>, key: int, c: nat, end: nat, q: PendingReq)
    requires SafeRun(INITIAL, ms) && Births(OnPart(ms, key)) <= 1 && LifeSpan(OnPart(ms, key), c, end)
    ensures var s, es := HandleAll(INITIAL, ms), OnPart(ms, key);
            var asked := AskedBy(es[..c], q);
            && CountReplies(RepliesAbout(s.sent, key), q) ==
               asked + AskedFor(es[c + 1..end], q) + Pieces(es[c + 1..end]) * asked
            && CountWaiting(WaitingFor(s, key), q) == asked + AskedBy(es[end..], q)
  {
    RunsExactly(INITIAL, ms);
    PartsAreIndependent(ms, key);
    SpanCounted(key, OnPart(ms, key), c, end, q);
  }

  predicate ToSender(es: seq<Event>) {
    forall i :: 0 <= i < |es| ==> es[i].Asked? ==> es[i].forwardTo == es[i].src
  }

  lemma {:induction false} AskedForSender(es: seq<Event>, q: PendingReq)
    requires ToSender(es)
    ensures AskedFor(es, q) == AskedBy(es, q)
  {
    if es != [] {
      AskedForSender(es[..|es| - 1], q);
    }
  }

  /** Every request made before the release is answered exactly once if and only if no piece, empty as it then must
      be, comes between the completing message and the release, or no request came before the completing message. */
  lemma EveryRequestAnswered(ms: seq<Message>, key: int, c: nat, end: nat, q: PendingReq)
    requires SafeRun(INITIAL, ms) && Births(OnPart(ms, key)) <= 1 && LifeSpan(OnPart(ms, key), c, end)
    requires ToSender(OnPart(ms, key))
    ensures var es := OnPart(ms, key);
            CountReplies(RepliesAbout(HandleAll(INITIAL, ms).sent, key), q) == AskedBy(es[..end], q) <==>
            Pieces(es[c + 1..end]) == 0 || AskedBy(es[..c], q) == 0
  {
    var es := OnPart(ms, key);
    RepliesCounted(ms, key, c, end, q);
    AskedUntil(es, c, end, q);
    NonZeroProduct(Pieces(es[c + 1..end]), AskedBy(es[..c], q));
  }

  lemma AskedUntil(es: seq<Event>, c: nat, end: nat, q: PendingReq)
    requires LifeSpan(es, c, end) && ToSender(es)
    ensures AskedBy(es[..end], q) == AskedBy(es[..c], q) + AskedFor(es[c + 1..end], q)
  {
    var a, b := es[..c], es[c + 1..end];
    assert es[..end] == (a + [es[c]]) + b;
    AskedByConcat(a + [es[c]], b, q);
    AskedByConcat(a, [es[c]], q);
    assert [es[c]][..0] == [];
    AskedForSender(b, q);
  }

  lemma NonZeroProduct(n: nat, w: nat)
    ensures n * w == 0 <==> n == 0 || w == 0
  {
    if n > 0 && w > 0 {
      assert n * w >= w;
    }
  }
}
