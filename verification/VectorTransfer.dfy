/** Moving a vector out to its owners and back: the messages of `block_distribute` and `dv_get_part` travel
    over per-destination FIFO channels (section 3.5 of MPI-3.1), every owner serves other clients in between,
    and sends, deliveries and foreign messages interleave freely. */
module VectorTransfer {
  import opened Bytes
  import opened PartStore
  import opened PartRequests

  /** What a script of messages to one owner leaves stored there. */
  function StoredBy(script: seq<Message>): map<int, seq<byte>> {
    if script == [] then map[]
    else
      var m := script[|script| - 1];
      var before := StoredBy(script[..|script| - 1]);
      if m.StoreResult? then before[m.resid := m.data] else before
  }

  /** A script of stores of fresh parts, and of requests for parts stored earlier in the script. */
  predicate WellOrdered(script: seq<Message>, client: int, keys: set<int>) {
    script == [] ||
    var m := script[|script| - 1];
    var before := script[..|script| - 1];
    && WellOrdered(before, client, keys)
    && (match m
        case StoreResult(resid, _) => resid in keys && resid !in StoredBy(before)
        case GetResultParts(src, forwardTo, reqs) =>
          && src == client && forwardTo == client
          && forall r :: r in reqs ==>
               r.resid in keys && r.resid in StoredBy(before) && r.offset + r.size <= |StoredBy(before)[r.resid]|
        case _ => false)
  }

  function Slice(stored: map<int, seq<byte>>, r: PartReq): seq<byte>
    requires r.resid in stored && r.offset + r.size <= |stored[r.resid]|
  {
    stored[r.resid][r.offset..r.offset + r.size]
  }

  /** The byte strings a request should bring back, part by part. */
  function Slices(stored: map<int, seq<byte>>, reqs: seq<PartReq>): seq<seq<byte>>
    requires forall r :: r in reqs ==> r.resid in stored && r.offset + r.size <= |stored[r.resid]|
  {
    seq(|reqs|, i requires 0 <= i < |reqs| => Slice(stored, reqs[i]))
  }

  /** The byte strings a script should bring back, in order. */
  function AnswersTo(script: seq<Message>, client: int, keys: set<int>): seq<seq<byte>>
    requires WellOrdered(script, client, keys)
  {
    if script == [] then []
    else
      var m := script[|script| - 1];
      var before := script[..|script| - 1];
      AnswersTo(before, client, keys)
      + if m.GetResultParts? then Slices(StoredBy(before), m.reqs) else []
  }

  /** What a process receives from a server, in order. */
  function ReceivedBy(sent: seq<Reply>, dst: int): seq<seq<byte>> {
    if sent == [] then []
    else
      ReceivedBy(sent[..|sent| - 1], dst)
      + if sent[|sent| - 1].dst == dst then [sent[|sent| - 1].data] else []
  }

  lemma ReceivedBySnoc(sent: seq<Reply>, r: Reply, dst: int)
    ensures ReceivedBy(sent + [r], dst) == ReceivedBy(sent, dst) + if r.dst == dst then [r.data] else []
  {
    assert (sent + [r])[..|sent|] == sent;
  }

  // ----- one owner -----

  ghost predicate NothingWaiting(s: Server, client: int, keys: set<int>) {
    && (forall k :: k in keys ==> WaitingFor(s, k) == [])
    && (forall k, i :: k in s.pending && 0 <= i < |s.pending[k]| ==> s.pending[k][i].dst != client)
  }

  /** The owner has handled `handled` of the client's script, whatever else it did for others. */
  ghost predicate Served(s: Server, handled: seq<Message>, client: int, keys: set<int>) {
    && s.health.Running?
    && WellOrdered(handled, client, keys)
    && NothingWaiting(s, client, keys)
    && (forall k :: k in keys ==> (k in s.parts <==> k in StoredBy(handled)))
    && (forall k :: k in keys && k in s.parts ==> s.parts[k] == Cell(StoredBy(handled)[k], MessageStore, 0))
    && ReceivedBy(s.sent, client) == AnswersTo(handled, client, keys)
  }

  lemma ServedStore(s: Server, handled: seq<Message>, m: Message, client: int, keys: set<int>)
    requires Served(s, handled, client, keys)
    requires m.StoreResult? && WellOrdered(handled + [m], client, keys)
    ensures Served(Handle(s, m), handled + [m], client, keys)
  {
    assert (handled + [m])[..|handled|] == handled;
    var t := Change(s, StoreMessage(m.resid, m.data));
    assert ServeWaiting(t, m.resid, []) == t;
    assert AnswersTo(handled, client, keys) + [] == AnswersTo(handled, client, keys);
  }

  lemma {:induction false} ReceiveExpected(sent: seq<Reply>, parts: Parts, stored: map<int, seq<byte>>, client: int,
                                           reqs: seq<PartReq>)
    requires forall r :: r in reqs ==>
               && r.resid in stored && r.offset + r.size <= |stored[r.resid]|
               && Ready(parts, r.resid) && parts[r.resid].bytes == stored[r.resid]
    ensures ReceivedBy(sent + Expected(parts, client, reqs), client) == ReceivedBy(sent, client) + Slices(stored, reqs)
    decreases |reqs|
  {
    if reqs == [] {
      assert sent + [] == sent;
      assert ReceivedBy(sent, client) + [] == ReceivedBy(sent, client);
    } else {
      var r, rest := reqs[0], reqs[1..];
      assert r in reqs;
      var first := Reply(client, r.resid, r.offset, parts[r.resid].bytes[r.offset..r.offset + r.size]);
      ReceiveExpected(sent + [first], parts, stored, client, rest);
      ReceivedBySnoc(sent, first, client);
      assert sent + Expected(parts, client, reqs) == sent + [first] + Expected(parts, client, rest);
      assert Slices(stored, reqs) == [Slice(stored, r)] + Slices(stored, rest);
    }
  }

  lemma ServedGet(s: Server, handled: seq<Message>, m: Message, client: int, keys: set<int>)
    requires Served(s, handled, client, keys)
    requires m.GetResultParts? && WellOrdered(handled + [m], client, keys)
    ensures Served(Handle(s, m), handled + [m], client, keys)
  {
    assert (handled + [m])[..|handled|] == handled;
    ReadyRequestAnsweredInOrder(s, client, client, m.reqs);
    ReceiveExpected(s.sent, s.parts, StoredBy(handled), client, m.reqs);
  }

  // ----- messages from others -----

  /** A message of another client: it names no part of ours and asks for no reply to our client. */
  predicate Foreign(m: Message, client: int, keys: set<int>) {
    match m
    case GetResultParts(src, forwardTo, reqs) =>
      src != client && forwardTo != client && forall r :: r in reqs ==> r.resid !in keys
    case _ => m.resid !in keys
  }

  /** Two servers that look the same to our client. */
  ghost predicate SameForUs(s: Server, t: Server, client: int, keys: set<int>) {
    && (forall k :: k in keys ==> (k in s.parts <==> k in t.parts))
    && (forall k :: k in keys && k in s.parts ==> s.parts[k] == t.parts[k])
    && ReceivedBy(s.sent, client) == ReceivedBy(t.sent, client)
  }

  lemma {:induction false} ForeignGetUnseen(s: Server, src: int, forwardTo: int, reqs: seq<PartReq>, client: int,
                                            keys: set<int>)
    requires NothingWaiting(s, client, keys)
    requires Foreign(GetResultParts(src, forwardTo, reqs), client, keys)
    ensures SameForUs(s, ServeAll(s, src, forwardTo, reqs), client, keys)
    ensures NothingWaiting(ServeAll(s, src, forwardTo, reqs), client, keys)
    decreases |reqs|
  {
    if reqs != [] && s.health.Running? {
      var r, t := reqs[0], ServeOne(s, src, forwardTo, reqs[0]);
      assert r in reqs;
      match GetPartData(s.parts, r.resid) {
        case None =>
        case Some(data) =>
          if r.offset + r.size <= |data| {
            ReceivedBySnoc(s.sent, Reply(forwardTo, r.resid, r.offset, data[r.offset..r.offset + r.size]), client);
          }
      }
      ForeignGetUnseen(t, src, forwardTo, reqs[1..], client, keys);
    }
  }

  lemma {:induction false} ForeignCompletionUnseen(s: Server, key: int, waiting: seq<PendingReq>, client: int,
                                                   keys: set<int>)
    requires NothingWaiting(s, client, keys)
    requires forall i :: 0 <= i < |waiting| ==> waiting[i].dst != client
    ensures SameForUs(s, ServeWaiting(s, key, waiting), client, keys)
    ensures NothingWaiting(ServeWaiting(s, key, waiting), client, keys)
    decreases |waiting|
  {
    if waiting != [] && s.health.Running? {
      var w, data := waiting[0], GetPartData(s.parts, key);
      if data.Some? && w.offset + w.size <= |data.value| {
        var r := Reply(w.dst, key, w.offset, data.value[w.offset..w.offset + w.size]);
        ReceivedBySnoc(s.sent, r, client);
        ForeignCompletionUnseen(s.(sent := s.sent + [r]), key, waiting[1..], client, keys);
      }
    }
  }

  lemma ForeignUnseen(s: Server, m: Message, client: int, keys: set<int>)
    requires NothingWaiting(s, client, keys) && Foreign(m, client, keys)
    ensures SameForUs(s, Handle(s, m), client, keys)
    ensures NothingWaiting(Handle(s, m), client, keys)
  {
    match m
    case GetResultParts(src, forwardTo, reqs) =>
      ForeignGetUnseen(s, src, forwardTo, reqs, client, keys);
    case StoreResult(resid, data) => ForeignStoreUnseen(s, StoreMessage(resid, data), resid, client, keys);
    case StoreResultPart(resid, data, offset) =>
      ForeignStoreUnseen(s, AddData(resid, data, offset), resid, client, keys);
    case PreparePart(_, _) =>
    case ReleaseResult(_) =>
  }

  /** Another client's part changes, and perhaps completes. */
  lemma ForeignStoreUnseen(s: Server, op: Op, resid: int, client: int, keys: set<int>)
    requires NothingWaiting(s, client, keys) && resid !in keys
    requires op.key == resid && (op.StoreMessage? || op.AddData?)
    ensures var t := Change(s, op);
            && SameForUs(s, t, client, keys) && NothingWaiting(t, client, keys)
            && SameForUs(s, CheckPartRequired(t, resid), client, keys)
            && NothingWaiting(CheckPartRequired(t, resid), client, keys)
  {
    var t := Change(s, op);
    ForeignCompletionUnseen(t, resid, WaitingFor(t, resid), client, keys);
  }

  // ----- the network -----

  /** `unsent` is the rest of the client's program order; `inbox` its messages under way to each owner;
      `handled` those the owner has handled. */
  datatype World = World(unsent: seq<(int, Message)>, inbox: map<int, seq<Message>>,
                         handled: map<int, seq<Message>>, servers: map<int, Server>)

  /** The messages addressed to one owner, in program order. */
  function To(messages: seq<(int, Message)>, pid: int): seq<Message> {
    if messages == [] then []
    else if messages[0].0 == pid then [messages[0].1] + To(messages[1..], pid)
    else To(messages[1..], pid)
  }

  ghost predicate Send(w: World, w': World) {
    && w.unsent != []
    && var (pid, m) := w.unsent[0];
       pid in w.inbox && w' == w.(unsent := w.unsent[1..], inbox := w.inbox[pid := w.inbox[pid] + [m]])
  }

  ghost predicate Deliver(w: World, w': World, pid: int) {
    && pid in w.inbox && pid in w.handled && pid in w.servers && w.inbox[pid] != []
    && var m := w.inbox[pid][0];
       w' == w.(inbox := w.inbox[pid := w.inbox[pid][1..]], handled := w.handled[pid := w.handled[pid] + [m]],
                servers := w.servers[pid := Handle(w.servers[pid], m)])
  }

  /** Another client's message is handled; it does not bring the server down. */
  ghost predicate Elsewhere(w: World, w': World, pid: int, m: Message, client: int, keys: set<int>) {
    && pid in w.servers && Foreign(m, client, keys) && Handle(w.servers[pid], m).health.Running?
    && w' == w.(servers := w.servers[pid := Handle(w.servers[pid], m)])
  }

  ghost predicate Next(w: World, w': World, client: int, keys: set<int>) {
    || Send(w, w')
    || (exists pid :: Deliver(w, w', pid))
    || (exists pid, m :: Elsewhere(w, w', pid, m, client, keys))
  }

  ghost predicate StepAt(run: seq<World>, i: nat, client: int, keys: set<int>)
    requires i + 1 < |run|
  {
    Next(run[i], run[i + 1], client, keys)
  }

  ghost predicate Execution(run: seq<World>, client: int, keys: set<int>) {
    && run != []
    && forall i: nat :: i + 1 < |run| ==> StepAt(run, i, client, keys)
  }

  /** The client's program is about to start; the owners hold none of its parts. */
  ghost predicate Init(w: World, program: seq<(int, Message)>, client: int, keys: set<int>) {
    && w.unsent == program
    && w.inbox.Keys == w.handled.Keys == w.servers.Keys
    && (forall pid :: pid in w.servers ==> w.inbox[pid] == [] && w.handled[pid] == [])
    && (forall pid :: pid in w.servers ==> Served(w.servers[pid], [], client, keys))
  }

  ghost predicate Invariant(w: World, program: seq<(int, Message)>, client: int, keys: set<int>) {
    && w.inbox.Keys == w.handled.Keys == w.servers.Keys
    && (forall pid :: pid in w.servers ==> Served(w.servers[pid], w.handled[pid], client, keys))
    && (forall pid :: pid in w.servers ==> To(program, pid) == w.handled[pid] + w.inbox[pid] + To(w.unsent, pid))
  }

  ghost predicate GoodProgram(program: seq<(int, Message)>, client: int, keys: set<int>) {
    forall pid :: WellOrdered(To(program, pid), client, keys)
  }

  lemma {:induction false} WellOrderedPrefix(a: seq<Message>, b: seq<Message>, client: int, keys: set<int>)
    requires WellOrdered(a + b, client, keys)
    ensures WellOrdered(a, client, keys)
    decreases |b|
  {
    if b == [] {
      assert a + b == a;
    } else {
      assert (a + b)[..|a + b| - 1] == a + b[..|b| - 1];
      WellOrderedPrefix(a, b[..|b| - 1], client, keys);
    }
  }

  lemma {:induction false} AnswersGrow(a: seq<Message>, b: seq<Message>, client: int, keys: set<int>)
    requires WellOrdered(a + b, client, keys)
    ensures WellOrdered(a, client, keys)
    ensures AnswersTo(a, client, keys) <= AnswersTo(a + b, client, keys)
    decreases |b|
  {
    if b == [] {
      assert a + b == a;
    } else {
      assert (a + b)[..|a + b| - 1] == a + b[..|b| - 1];
      AnswersGrow(a, b[..|b| - 1], client, keys);
    }
  }

  lemma SendKeeps(w: World, w': World, program: seq<(int, Message)>, client: int, keys: set<int>)
    requires Invariant(w, program, client, keys) && Send(w, w')
    ensures Invariant(w', program, client, keys)
  {
    var (to, m) := w.unsent[0];
    forall pid | pid in w'.servers
      ensures To(program, pid) == w'.handled[pid] + w'.inbox[pid] + To(w'.unsent, pid)
    {
      var rest := To(w.unsent[1..], pid);
      if pid == to {
        assert w.handled[pid] + w.inbox[pid] + ([m] + rest) == w.handled[pid] + (w.inbox[pid] + [m]) + rest;
      }
    }
  }

  lemma DeliverKeeps(w: World, w': World, to: int, program: seq<(int, Message)>, client: int, keys: set<int>)
    requires GoodProgram(program, client, keys)
    requires Invariant(w, program, client, keys) && Deliver(w, w', to)
    ensures Invariant(w', program, client, keys)
  {
    assert WellOrdered(To(program, to), client, keys);
    ServedNext(w.servers[to], w.handled[to], w.inbox[to], To(w.unsent, to), client, keys);
  }

  /** The owner handles the client's next message. */
  lemma ServedNext(s: Server, handled: seq<Message>, inbox: seq<Message>, unsent: seq<Message>, client: int,
                   keys: set<int>)
    requires Served(s, handled, client, keys) && inbox != []
    requires WellOrdered(handled + inbox + unsent, client, keys)
    ensures Served(Handle(s, inbox[0]), handled + [inbox[0]], client, keys)
    ensures handled + inbox + unsent == (handled + [inbox[0]]) + inbox[1..] + unsent
  {
    var m, rest := inbox[0], inbox[1..];
    assert handled + inbox + unsent == (handled + [m]) + (rest + unsent);
    WellOrderedPrefix(handled + [m], rest + unsent, client, keys);
    assert (handled + [m])[|handled|] == m;
    if m.StoreResult? {
      ServedStore(s, handled, m, client, keys);
    } else {
      ServedGet(s, handled, m, client, keys);
    }
  }

  lemma ElsewhereKeeps(w: World, w': World, at: int, m: Message, program: seq<(int, Message)>, client: int,
                       keys: set<int>)
    requires Invariant(w, program, client, keys) && Elsewhere(w, w', at, m, client, keys)
    ensures Invariant(w', program, client, keys)
  {
    ServedElsewhere(w.servers[at], w.handled[at], m, client, keys);
  }

  lemma ServedElsewhere(s: Server, handled: seq<Message>, m: Message, client: int, keys: set<int>)
    requires Served(s, handled, client, keys) && Foreign(m, client, keys) && Handle(s, m).health.Running?
    ensures Served(Handle(s, m), handled, client, keys)
  {
    ForeignUnseen(s, m, client, keys);
  }

  lemma NextKeeps(w: World, w': World, program: seq<(int, Message)>, client: int, keys: set<int>)
    requires GoodProgram(program, client, keys)
    requires Invariant(w, program, client, keys) && Next(w, w', client, keys)
    ensures Invariant(w', program, client, keys)
  {
    if Send(w, w') {
      SendKeeps(w, w', program, client, keys);
    } else if pid :| Deliver(w, w', pid) {
      DeliverKeeps(w, w', pid, program, client, keys);
    } else {
      var pid, m :| Elsewhere(w, w', pid, m, client, keys);
      ElsewhereKeeps(w, w', pid, m, program, client, keys);
    }
  }

  lemma InitInvariant(w: World, program: seq<(int, Message)>, client: int, keys: set<int>)
    requires Init(w, program, client, keys)
    ensures Invariant(w, program, client, keys)
  {
    forall pid | pid in w.servers
      ensures To(program, pid) == w.handled[pid] + w.inbox[pid] + To(w.unsent, pid)
    {
      assert [] + [] + To(program, pid) == To(program, pid);
    }
  }

  lemma {:induction false} InvariantHolds(run: seq<World>, i: nat, program: seq<(int, Message)>, client: int,
                                          keys: set<int>)
    requires Execution(run, client, keys) && i < |run|
    requires GoodProgram(program, client, keys) && Init(run[0], program, client, keys)
    ensures Invariant(run[i], program, client, keys)
  {
    if i == 0 {
      InitInvariant(run[0], program, client, keys);
    } else {
      InvariantHolds(run, i - 1, program, client, keys);
      assert StepAt(run, i - 1, client, keys);
      NextKeeps(run[i - 1], run[i], program, client, keys);
    }
  }

  /** What the owner has sent the client, in a state that the invariant describes. */
  lemma AnswersSoFar(s: Server, handled: seq<Message>, inbox: seq<Message>, unsent: seq<Message>, client: int,
                     keys: set<int>)
    requires Served(s, handled, client, keys) && WellOrdered(handled + inbox + unsent, client, keys)
    ensures ReceivedBy(s.sent, client) <= AnswersTo(handled + inbox + unsent, client, keys)
    ensures inbox == [] && unsent == [] ==>
              ReceivedBy(s.sent, client) == AnswersTo(handled + inbox + unsent, client, keys)
  {
    assert handled + inbox + unsent == handled + (inbox + unsent);
    AnswersGrow(handled, inbox + unsent, client, keys);
    if inbox == [] && unsent == [] {
      assert handled + inbox + unsent == handled;
    }
  }

  /** Over every interleaving, what an owner has sent the client so far is a prefix of the answers to the
      client's own messages, in the order it sent them; and it is all of them once the messages are handled. */
  lemma AnswersArriveInOrder(run: seq<World>, i: nat, pid: int, program: seq<(int, Message)>, client: int,
                             keys: set<int>)
    requires Execution(run, client, keys) && i < |run|
    requires GoodProgram(program, client, keys) && Init(run[0], program, client, keys)
    requires pid in run[i].servers
    ensures run[i].servers[pid].health.Running?
    ensures WellOrdered(To(program, pid), client, keys)
    ensures ReceivedBy(run[i].servers[pid].sent, client) <= AnswersTo(To(program, pid), client, keys)
    ensures pid in run[i].inbox && run[i].unsent == [] && run[i].inbox[pid] == [] ==>
              ReceivedBy(run[i].servers[pid].sent, client) == AnswersTo(To(program, pid), client, keys)
  {
    InvariantHolds(run, i, program, client, keys);
    var w := run[i];
    assert WellOrdered(To(program, pid), client, keys);
    AnswersSoFar(w.servers[pid], w.handled[pid], w.inbox[pid], To(w.unsent, pid), client, keys);
  }

  /** Nothing is under way. */
  ghost predicate Quiet(w: World) {
    w.unsent == [] && forall s :: s in w.inbox ==> w.inbox[s] == []
  }

  /** At the end of an execution in which everything was handled, the client has every answer. */
  lemma AllAnswersArrive(run: seq<World>, pid: int, program: seq<(int, Message)>, client: int, keys: set<int>)
    requires Execution(run, client, keys) && Quiet(run[|run| - 1])
    requires GoodProgram(program, client, keys) && Init(run[0], program, client, keys)
    requires pid in run[|run| - 1].servers
    ensures WellOrdered(To(program, pid), client, keys)
    ensures ReceivedBy(run[|run| - 1].servers[pid].sent, client) == AnswersTo(To(program, pid), client, keys)
  {
    InvariantHolds(run, |run| - 1, program, client, keys);
    AnswersArriveInOrder(run, |run| - 1, pid, program, client, keys);
  }

  // ----- executions can be completed -----

  /** Every message still to come has a server to go to. */
  ghost predicate Addressed(w: World) {
    && w.inbox.Keys == w.handled.Keys == w.servers.Keys
    && forall i :: 0 <= i < |w.unsent| ==> w.unsent[i].0 in w.inbox
  }

  function Sent(w: World): World
    requires w.unsent != [] && w.unsent[0].0 in w.inbox
  {
    var (pid, m) := w.unsent[0];
    w.(unsent := w.unsent[1..], inbox := w.inbox[pid := w.inbox[pid] + [m]])
  }

  function Delivered(w: World, pid: int): World
    requires pid in w.inbox && pid in w.handled && pid in w.servers && w.inbox[pid] != []
  {
    var m := w.inbox[pid][0];
    w.(inbox := w.inbox[pid := w.inbox[pid][1..]], handled := w.handled[pid := w.handled[pid] + [m]],
       servers := w.servers[pid := Handle(w.servers[pid], m)])
  }

  lemma ExecutionCons(w: World, run: seq<World>, client: int, keys: set<int>)
    requires Execution(run, client, keys) && Next(w, run[0], client, keys)
    ensures Execution([w] + run, client, keys)
  {
    var all := [w] + run;
    forall i: nat | i + 1 < |all|
      ensures StepAt(all, i, client, keys)
    {
      if i > 0 {
        assert StepAt(run, i - 1, client, keys);
        assert all[i] == run[i - 1] && all[i + 1] == run[i];
      }
    }
  }

  /** The protocol cannot get stuck: from any state, with messages on their way to the processes in `busy`, there
      is an execution after which nothing is under way. */
  lemma {:induction false} CanFinish(w: World, busy: seq<int>, client: int, keys: set<int>) returns (run: seq<World>)
    requires Addressed(w) && (forall s :: s in w.inbox && w.inbox[s] != [] ==> s in busy)
    requires forall i :: 0 <= i < |busy| ==> busy[i] in w.inbox
    ensures Execution(run, client, keys) && run[0] == w && Quiet(run[|run| - 1])
    ensures run[|run| - 1].servers.Keys == w.servers.Keys
    decreases |w.unsent|, |busy|, if busy == [] then 0 else |w.inbox[busy[0]]|
  {
    if busy != [] && w.inbox[busy[0]] == [] {
      assert busy == [busy[0]] + busy[1..];
      run := CanFinish(w, busy[1..], client, keys);
    } else if busy != [] {
      assert Deliver(w, Delivered(w, busy[0]), busy[0]);
      var rest := CanFinish(Delivered(w, busy[0]), busy, client, keys);
      ExecutionCons(w, rest, client, keys);
      run := [w] + rest;
    } else if w.unsent != [] {
      assert Send(w, Sent(w));
      var rest := CanFinish(Sent(w), [w.unsent[0].0], client, keys);
      ExecutionCons(w, rest, client, keys);
      run := [w] + rest;
    } else {
      run := [w];
    }
  }
}
