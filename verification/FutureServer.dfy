/** The future store of a management process: registrations, reads, releases and fetches of futures may come
    in any order, and the server keeps readers, delete requests and fetches until they can be served. */
module Futures {
  import opened Bytes

  datatype FetchMsg = FetchMsg(reqKey: int, resKey: int, dvSize: nat, pids: seq<int>, keys: seq<int>)

  datatype Event =
    | Register(key: int, data: seq<byte>)
    | Get(key: int, src: int)
    | Release(key: int)
    | Fetch(msg: FetchMsg)

  function KeyOf(e: Event): int {
    if e.Fetch? then e.msg.reqKey else e.key
  }

  /** Future data sent to a reader. */
  datatype Reply = Reply(dst: int, key: int, data: seq<byte>)

  /** The server's maps, with the log of what it sent and of the fetches it ran. It is alive until the
      assertion that a future has one queued fetch fails. */
  datatype Table = Table(store: map<int, seq<byte>>, pending: map<int, seq<int>>, askedDelete: map<int, bool>,
                         askedFetch: map<int, FetchMsg>, sent: seq<Reply>, fetched: seq<(FetchMsg, seq<byte>)>,
                         alive: bool)

  const EMPTY := Table(map[], map[], map[], map[], [], [], true)

  /** `_askedFutureDelete[key]`, which inserts false for a key that has no entry. */
  function DeleteAsked(t: Table, key: int): bool {
    key in t.askedDelete && t.askedDelete[key]
  }

  function Touch(t: Table, key: int): Table {
    if key in t.askedDelete then t else t.(askedDelete := t.askedDelete[key := false])
  }

  function RepliesTo(readers: seq<int>, key: int, data: seq<byte>): (r: seq<Reply>)
    ensures |r| == |readers|
    ensures forall i :: 0 <= i < |r| ==> r[i] == Reply(readers[i], key, data)
  {
    seq(|readers|, i requires 0 <= i < |readers| => Reply(readers[i], key, data))
  }

  /** `checkFutureRequired`. */
  function CheckFetch(t: Table, key: int, data: seq<byte>): Table {
    if key in t.askedFetch
    then t.(fetched := t.fetched + [(t.askedFetch[key], data)], askedFetch := t.askedFetch - {key})
    else t
  }

  function AnswerReaders(t: Table, key: int, data: seq<byte>): Table {
    if key in t.pending
    then t.(sent := t.sent + RepliesTo(t.pending[key], key, data), pending := t.pending - {key})
    else t
  }

  function DropIfAsked(t: Table, key: int): Table {
    var u := Touch(t, key);
    if u.askedDelete[key] then u.(askedDelete := u.askedDelete - {key}, store := u.store - {key}) else u
  }

  /** `registerFuture`. */
  function DoRegister(t: Table, key: int, data: seq<byte>): Table {
    if key !in t.pending && DeleteAsked(t, key) then t.(askedDelete := t.askedDelete - {key})
    else
      var u := if key in t.pending then t else Touch(t, key);
      DropIfAsked(AnswerReaders(CheckFetch(u.(store := u.store[key := data]), key, data), key, data), key)
  }

  function Waiting(t: Table, key: int): seq<int> {
    if key in t.pending then t.pending[key] else []
  }

  function Step(t: Table, e: Event): Table {
    if !t.alive then t
    else match e
      case Register(key, data) => DoRegister(t, key, data)
      case Get(key, src) =>
        if key in t.store then t.(sent := t.sent + [Reply(src, key, t.store[key])])
        else t.(pending := t.pending[key := Waiting(t, key) + [src]])
      case Release(key) =>
        if key in t.store then t.(store := t.store - {key})
        else t.(askedDelete := t.askedDelete[key := true])
      case Fetch(msg) =>
        if msg.reqKey in t.store then t.(fetched := t.fetched + [(msg, t.store[msg.reqKey])])
        else if msg.reqKey in t.askedFetch then t.(alive := false)
        else t.(askedFetch := t.askedFetch[msg.reqKey := msg])
  }

  function Run(t: Table, es: seq<Event>): Table
    decreases |es|
  {
    if es == [] then t else Run(Step(t, es[0]), es[1..])
  }

  // ----- what every reachable state keeps -----

  /** A stored future has no waiting reader, no standing delete request and no queued fetch; a key is in the
      pending map only with readers; queued fetches are filed under the future they ask for. */
  ghost predicate Consistent(t: Table) {
    && (forall k :: k in t.store ==> k !in t.pending && !DeleteAsked(t, k) && k !in t.askedFetch)
    && (forall k :: k in t.pending ==> t.pending[k] != [])
    && (forall k :: k in t.askedFetch ==> t.askedFetch[k].reqKey == k)
  }

  /** Registration forgotten: deletion was asked and nobody waits. */
  predicate Forgets(t: Table, key: int) {
    key !in t.pending && DeleteAsked(t, key)
  }

  lemma CheckFetchMaps(t: Table, key: int, data: seq<byte>)
    ensures CheckFetch(t, key, data) ==
            t.(askedFetch := t.askedFetch - {key},
               fetched := t.fetched + if key in t.askedFetch then [(t.askedFetch[key], data)] else [])
  {
    if key !in t.askedFetch {
      assert t.askedFetch - {key} == t.askedFetch && t.fetched + [] == t.fetched;
    }
  }

  lemma AnswerMaps(t: Table, key: int, data: seq<byte>)
    ensures AnswerReaders(t, key, data) ==
            t.(pending := t.pending - {key}, sent := t.sent + RepliesTo(Waiting(t, key), key, data))
  {
    if key !in t.pending {
      assert t.pending - {key} == t.pending && t.sent + RepliesTo([], key, data) == t.sent;
    }
  }

  lemma DropMaps(t: Table, key: int)
    ensures DropIfAsked(t, key) ==
            if DeleteAsked(t, key) then t.(askedDelete := t.askedDelete - {key}, store := t.store - {key})
            else t.(askedDelete := t.askedDelete[key := false])
  {
    if !DeleteAsked(t, key) && key in t.askedDelete {
      assert t.askedDelete[key := false] == t.askedDelete;
    }
  }

  /** The maps after a registration that is not forgotten. */
  function AfterRegister(t: Table, key: int, data: seq<byte>): Table {
    t.(store := if DeleteAsked(t, key) then t.store - {key} else t.store[key := data],
       pending := t.pending - {key}, askedFetch := t.askedFetch - {key},
       askedDelete := if DeleteAsked(t, key) then t.askedDelete - {key} else t.askedDelete[key := false],
       sent := t.sent + RepliesTo(Waiting(t, key), key, data),
       fetched := t.fetched + if key in t.askedFetch then [(t.askedFetch[key], data)] else [])
  }

  lemma RegisterMaps(t: Table, key: int, data: seq<byte>)
    requires !Forgets(t, key)
    ensures DoRegister(t, key, data) == AfterRegister(t, key, data)
  {
    var u := if key in t.pending then t else Touch(t, key);
    var a := u.(store := u.store[key := data]);
    CheckFetchMaps(a, key, data);
    var b := CheckFetch(a, key, data);
    AnswerMaps(b, key, data);
    var c := AnswerReaders(b, key, data);
    DropMaps(c, key);
    assert u.askedDelete[key := false] == t.askedDelete[key := false];
    assert t.store[key := data] - {key} == t.store - {key};
  }

  lemma RegisterKeepsConsistent(t: Table, key: int, data: seq<byte>)
    requires Consistent(t)
    ensures Consistent(DoRegister(t, key, data))
  {
    if !Forgets(t, key) {
      RegisterMaps(t, key, data);
    }
  }

  lemma StepKeepsConsistent(t: Table, e: Event)
    requires Consistent(t)
    ensures Consistent(Step(t, e))
  {
    if e.Register? {
      RegisterKeepsConsistent(t, e.key, e.data);
    }
  }

  lemma {:induction false} RunKeepsConsistent(t: Table, es: seq<Event>)
    requires Consistent(t)
    ensures Consistent(Run(t, es))
    decreases |es|
  {
    if es != [] {
      StepKeepsConsistent(t, es[0]);
      RunKeepsConsistent(Step(t, es[0]), es[1..]);
    }
  }

  /** In every state the server can reach from the start. */
  lemma EveryReachableStateIsConsistent(es: seq<Event>)
    ensures Consistent(Run(EMPTY, es))
  {
    RunKeepsConsistent(EMPTY, es);
  }

  // ----- one future seen alone -----

  /** A single future: its data, its waiting readers in order, whether deletion was asked, the queued fetch,
      who was answered with what, and the fetches run. */
  datatype Future = Future(data: Option<seq<byte>>, readers: seq<int>, doomed: bool, fetch: Option<FetchMsg>,
                           answered: seq<(int, seq<byte>)>, fetched: seq<(FetchMsg, seq<byte>)>)

  const FRESH := Future(None, [], false, None, [], [])

  function Pairs(readers: seq<int>, data: seq<byte>): (r: seq<(int, seq<byte>)>)
    ensures |r| == |readers|
    ensures forall i :: 0 <= i < |r| ==> r[i] == (readers[i], data)
  {
    seq(|readers|, i requires 0 <= i < |readers| => (readers[i], data))
  }

  /** What an event does to the future it names. */
  function FutureStep(f: Future, e: Event): Future {
    match e
    case Register(_, data) =>
      if f.readers == [] && f.doomed then f.(doomed := false)
      else
        f.(data := if f.doomed then None else Some(data),
           readers := [], doomed := false, fetch := None,
           answered := f.answered + Pairs(f.readers, data),
           fetched := f.fetched + match f.fetch case None => [] case Some(m) => [(m, data)])
    case Get(_, src) =>
      (match f.data
       case Some(data) => f.(answered := f.answered + [(src, data)])
       case None => f.(readers := f.readers + [src]))
    case Release(_) =>
      if f.data.Some? then f.(data := None) else f.(doomed := true)
    case Fetch(msg) =>
      (match f.data
       case Some(data) => f.(fetched := f.fetched + [(msg, data)])
       case None => f.(fetch := Some(msg)))
  }

  function FutureRun(f: Future, es: seq<Event>): Future
    decreases |es|
  {
    if es == [] then f else FutureRun(FutureStep(f, es[0]), es[1..])
  }

  function OnKey(es: seq<Event>, key: int): seq<Event> {
    if es == [] then []
    else if KeyOf(es[0]) == key then [es[0]] + OnKey(es[1..], key)
    else OnKey(es[1..], key)
  }

  function AnsweredFor(sent: seq<Reply>, key: int): seq<(int, seq<byte>)> {
    if sent == [] then []
    else
      var n := |sent| - 1;
      AnsweredFor(sent[..n], key) + if sent[n].key == key then [(sent[n].dst, sent[n].data)] else []
  }

  function FetchedFor(fetched: seq<(FetchMsg, seq<byte>)>, key: int): seq<(FetchMsg, seq<byte>)> {
    if fetched == [] then []
    else
      var n := |fetched| - 1;
      FetchedFor(fetched[..n], key) + if fetched[n].0.reqKey == key then [fetched[n]] else []
  }

  /** The server's state, seen from one future. */
  function View(t: Table, key: int): Future {
    Future(if key in t.store then Some(t.store[key]) else None, Waiting(t, key), DeleteAsked(t, key),
           if key in t.askedFetch then Some(t.askedFetch[key]) else None,
           AnsweredFor(t.sent, key), FetchedFor(t.fetched, key))
  }

  lemma {:induction false} AnsweredConcat(sent: seq<Reply>, more: seq<Reply>, key: int)
    ensures AnsweredFor(sent + more, key) == AnsweredFor(sent, key) + AnsweredFor(more, key)
    decreases |more|
  {
    if more == [] {
      assert sent + more == sent;
    } else {
      var n := |more| - 1;
      AnsweredConcat(sent, more[..n], key);
      assert (sent + more)[..|sent + more| - 1] == sent + more[..n];
    }
  }

  lemma {:induction false} AnsweredReplies(readers: seq<int>, k: int, data: seq<byte>, key: int)
    ensures AnsweredFor(RepliesTo(readers, k, data), key) == if k == key then Pairs(readers, data) else []
    decreases |readers|
  {
    if readers != [] {
      var n := |readers| - 1;
      AnsweredReplies(readers[..n], k, data, key);
      assert RepliesTo(readers, k, data)[..n] == RepliesTo(readers[..n], k, data);
      if k == key {
        assert Pairs(readers, data) == Pairs(readers[..n], data) + [(readers[n], data)];
      }
    }
  }

  lemma FetchedSnoc(fetched: seq<(FetchMsg, seq<byte>)>, x: (FetchMsg, seq<byte>), key: int)
    ensures FetchedFor(fetched + [x], key) == FetchedFor(fetched, key) + if x.0.reqKey == key then [x] else []
  {
    assert (fetched + [x])[..|fetched|] == fetched;
  }

  lemma RegisterView(t: Table, k: int, data: seq<byte>, key: int)
    requires Consistent(t)
    ensures View(DoRegister(t, k, data), key) ==
            if k == key then FutureStep(View(t, key), Register(k, data)) else View(t, key)
  {
    if Forgets(t, k) {
      ForgottenView(t, k, data, key);
    } else {
      RegisterMaps(t, k, data);
      StoredView(t, k, data, key);
    }
  }

  lemma ForgottenView(t: Table, k: int, data: seq<byte>, key: int)
    requires Forgets(t, k)
    ensures View(DoRegister(t, k, data), key) ==
            if k == key then FutureStep(View(t, key), Register(k, data)) else View(t, key)
  {
  }

  lemma StoredView(t: Table, k: int, data: seq<byte>, key: int)
    requires Consistent(t) && !Forgets(t, k)
    ensures View(AfterRegister(t, k, data), key) ==
            if k == key then FutureStep(View(t, key), Register(k, data)) else View(t, key)
  {
    RegisterLogs(t, k, data, key);
  }

  lemma RegisterLogs(t: Table, k: int, data: seq<byte>, key: int)
    requires Consistent(t)
    ensures var r := AfterRegister(t, k, data);
            && AnsweredFor(r.sent, key) ==
               AnsweredFor(t.sent, key) + (if k == key then Pairs(Waiting(t, k), data) else [])
            && FetchedFor(r.fetched, key) ==
               FetchedFor(t.fetched, key) + if k == key && k in t.askedFetch then [(t.askedFetch[k], data)] else []
  {
    AnsweredConcat(t.sent, RepliesTo(Waiting(t, k), k, data), key);
    AnsweredReplies(Waiting(t, k), k, data, key);
    if k in t.askedFetch {
      FetchedSnoc(t.fetched, (t.askedFetch[k], data), key);
    } else {
      assert t.fetched + [] == t.fetched;
      assert FetchedFor(t.fetched, key) + [] == FetchedFor(t.fetched, key);
    }
  }

  lemma GetView(t: Table, k: int, src: int, key: int)
    requires t.alive
    ensures View(Step(t, Get(k, src)), key) == if k == key then FutureStep(View(t, key), Get(k, src)) else View(t, key)
  {
    if k in t.store {
      var r := Reply(src, k, t.store[k]);
      assert (t.sent + [r])[..|t.sent|] == t.sent;
      assert AnsweredFor(t.sent, key) + [] == AnsweredFor(t.sent, key);
    }
  }

  lemma ReleaseView(t: Table, k: int, key: int)
    requires t.alive
    ensures View(Step(t, Release(k)), key) == if k == key then FutureStep(View(t, key), Release(k)) else View(t, key)
  {
  }

  lemma FetchView(t: Table, msg: FetchMsg, key: int)
    requires t.alive && Step(t, Fetch(msg)).alive
    ensures View(Step(t, Fetch(msg)), key) ==
            if msg.reqKey == key then FutureStep(View(t, key), Fetch(msg)) else View(t, key)
  {
    var u := Step(t, Fetch(msg));
    if msg.reqKey in t.store {
      FetchedSnoc(t.fetched, (msg, t.store[msg.reqKey]), key);
      assert FetchedFor(t.fetched, key) + [] == FetchedFor(t.fetched, key);
      assert u.(fetched := t.fetched) == t;
    } else {
      assert u == t.(askedFetch := t.askedFetch[msg.reqKey := msg]);
      assert FetchedFor(u.fetched, key) == FetchedFor(t.fetched, key);
    }
  }

  lemma StepView(t: Table, e: Event, key: int)
    requires Consistent(t) && t.alive && Step(t, e).alive
    ensures View(Step(t, e), key) == if KeyOf(e) == key then FutureStep(View(t, key), e) else View(t, key)
  {
    match e
    case Register(k, data) => RegisterView(t, k, data, key);
    case Get(k, src) => GetView(t, k, src, key);
    case Release(k) => ReleaseView(t, k, key);
    case Fetch(msg) => FetchView(t, msg, key);
  }

  lemma {:induction false} AliveBefore(t: Table, es: seq<Event>)
    requires Run(t, es).alive
    ensures t.alive
    decreases |es|
  {
    if es != [] {
      AliveBefore(Step(t, es[0]), es[1..]);
    }
  }

  lemma {:induction false} RunView(t: Table, es: seq<Event>, key: int)
    requires Consistent(t) && Run(t, es).alive
    ensures View(Run(t, es), key) == FutureRun(View(t, key), OnKey(es, key))
    decreases |es|
  {
    if es != [] {
      var u := Step(t, es[0]);
      AliveBefore(u, es[1..]);
      StepKeepsConsistent(t, es[0]);
      StepView(t, es[0], key);
      RunView(u, es[1..], key);
      if KeyOf(es[0]) == key {
        assert OnKey(es, key)[1..] == OnKey(es[1..], key);
      }
    }
  }

  // ----- when the server stays alive -----

  /** A fetch for a future that has no data and a fetch queued already fails an assertion. */
  predicate SecondFetch(f: Future, e: Event) {
    e.Fetch? && f.data.None? && f.fetch.Some?
  }

  /** No message of one future is such a fetch. */
  predicate OneFetchFrom(f: Future, es: seq<Event>)
    decreases |es|
  {
    es == [] || (!SecondFetch(f, es[0]) && OneFetchFrom(FutureStep(f, es[0]), es[1..]))
  }

  /** For no future does a second fetch come while the first is queued. */
  ghost predicate OneFetchAtATime(es: seq<Event>) {
    forall key :: OneFetchFrom(FRESH, OnKey(es, key))
  }

  lemma {:induction false} DeadForGood(t: Table, es: seq<Event>)
    requires !t.alive
    ensures !Run(t, es).alive
    decreases |es|
  {
    if es != [] {
      DeadForGood(Step(t, es[0]), es[1..]);
    }
  }

  lemma OnKeyStep(t: Table, es: seq<Event>, key: int)
    requires Consistent(t) && t.alive && es != [] && Step(t, es[0]).alive
    ensures OneFetchFrom(View(t, key), OnKey(es, key)) <==> OneFetchFrom(View(Step(t, es[0]), key), OnKey(es[1..], key))
  {
    StepView(t, es[0], key);
    if KeyOf(es[0]) == key {
      assert OnKey(es, key)[1..] == OnKey(es[1..], key);
    }
  }

  lemma {:induction false} AliveExactlyFrom(t: Table, es: seq<Event>)
    requires Consistent(t) && t.alive
    ensures Run(t, es).alive <==> forall key :: OneFetchFrom(View(t, key), OnKey(es, key))
    decreases |es|
  {
    if es != [] {
      var e, u := es[0], Step(t, es[0]);
      if u.alive {
        StepKeepsConsistent(t, e);
        AliveExactlyFrom(u, es[1..]);
        forall key
          ensures OneFetchFrom(View(t, key), OnKey(es, key)) <==> OneFetchFrom(View(u, key), OnKey(es[1..], key))
        {
          OnKeyStep(t, es, key);
        }
      } else {
        DeadForGood(u, es[1..]);
        assert SecondFetch(View(t, KeyOf(e)), e);
        assert !OneFetchFrom(View(t, KeyOf(e)), OnKey(es, KeyOf(e)));
      }
    }
  }

  /** Over every run the server stays alive if and only if, for every future, its own messages bring no second fetch
      while one is queued. */
  lemma AliveExactly(es: seq<Event>)
    ensures Run(EMPTY, es).alive <==> OneFetchAtATime(es)
  {
    AliveExactlyFrom(EMPTY, es);
    assert forall key :: View(EMPTY, key) == FRESH;
  }

  /** Two fetches of a future that is not registered yet. */
  lemma SecondFetchAborts(first: FetchMsg, second: FetchMsg)
    requires first.reqKey == second.reqKey
    ensures !Run(EMPTY, [Fetch(first), Fetch(second)]).alive
  {
    var es := [Fetch(first), Fetch(second)];
    assert es[1..][1..] == [];
    assert Run(Step(EMPTY, es[0]), es[1..]) == Step(Step(EMPTY, es[0]), es[1]);
  }

  function Fetches(es: seq<Event>): nat {
    if es == [] then 0 else (if es[0].Fetch? then 1 else 0) + Fetches(es[1..])
  }

  /** The fetches after the first release. */
  function FetchesAfterRelease(es: seq<Event>): nat {
    if es == [] then 0 else if es[0].Release? then Fetches(es[1..]) else FetchesAfterRelease(es[1..])
  }

  predicate HasRelease(es: seq<Event>) {
    exists i :: 0 <= i < |es| && es[i].Release?
  }

  predicate HasGet(es: seq<Event>) {
    exists i :: 0 <= i < |es| && es[i].Get?
  }

  lemma {:induction false} OneFetchConcat(f: Future, a: seq<Event>, b: seq<Event>)
    ensures OneFetchFrom(f, a + b) <==> OneFetchFrom(f, a) && OneFetchFrom(FutureRun(f, a), b)
    decreases |a|
  {
    if a == [] {
      assert a + b == b;
    } else {
      assert (a + b)[1..] == a[1..] + b;
      OneFetchConcat(FutureStep(f, a[0]), a[1..], b);
    }
  }

  lemma {:induction false} FetchesWithoutData(f: Future, es: seq<Event>)
    requires BeforeData(es) && f.data.None?
    ensures OneFetchFrom(f, es) <==> (if f.fetch.Some? then 1 else 0) + Fetches(es) <= 1
    decreases |es|
  {
    if es != [] {
      assert forall i :: 0 <= i < |es[1..]| ==> es[1..][i] == es[i + 1];
      FetchesWithoutData(FutureStep(f, es[0]), es[1..]);
    }
  }

  lemma {:induction false} FetchesWithData(f: Future, es: seq<Event>)
    requires BeforeData(es) && f.data.Some? && f.fetch.None?
    ensures OneFetchFrom(f, es) <==> FetchesAfterRelease(es) <= 1
    decreases |es|
  {
    if es != [] {
      assert forall i :: 0 <= i < |es[1..]| ==> es[1..][i] == es[i + 1];
      var g := FutureStep(f, es[0]);
      if es[0].Release? {
        FetchesWithoutData(g, es[1..]);
      } else {
        FetchesWithData(g, es[1..]);
      }
    }
  }

  /** A future registered once, after `a` and before `c`: its messages are harmless if and only if there is at most one
      fetch before the data, and at most one while there is no data after it: counting from a release after the data,
      or from the data itself if a release came before it, and then together with the first if nobody read. */
  lemma OneRegistrationExactly(a: seq<Event>, key: int, data: seq<byte>, c: seq<Event>)
    requires BeforeData(a) && BeforeData(c)
    ensures OneFetchFrom(FRESH, a + [Register(key, data)] + c) <==>
            && Fetches(a) <= 1
            && (if !HasRelease(a) then FetchesAfterRelease(c) <= 1
                else if HasGet(a) then Fetches(c) <= 1
                else Fetches(a) + Fetches(c) <= 1)
  {
    var e := Register(key, data);
    OneFetchConcat(FRESH, a + [e], c);
    OneFetchConcat(FRESH, a, [e]);
    FetchesWithoutData(FRESH, a);
    WithoutRegistration(FRESH, a);
    FutureRunConcat(FRESH, a, [e]);
    var f := FutureRun(FRESH, a);
    RunOne(f, e);
    assert [e][1..] == [];
    assert OneFetchFrom(f, [e]);
    FetchQueuedCount(a);
    var g := FutureStep(f, e);
    if g.data.Some? {
      FetchesWithData(g, c);
    } else {
      FetchesWithoutData(g, c);
    }
  }

  lemma {:induction false} FetchQueuedCount(es: seq<Event>)
    ensures Fetches(es) == 0 <==> forall i :: 0 <= i < |es| ==> !es[i].Fetch?
  {
    if es != [] {
      FetchQueuedCount(es[1..]);
      assert forall i :: 0 <= i < |es[1..]| ==> es[1..][i] == es[i + 1];
      assert forall i :: 1 <= i < |es| ==> es[i] == es[1..][i - 1];
    }
  }

  /** The server is the product of independent futures: over every run, each future ends up as if the
      server had only handled the messages that name it. */
  lemma FuturesAreIndependent(es: seq<Event>, key: int)
    requires OneFetchAtATime(es)
    ensures View(Run(EMPTY, es), key) == FutureRun(FRESH, OnKey(es, key))
  {
    AliveExactly(es);
    RunView(EMPTY, es, key);
  }

  // ----- conservation of reads -----

  function CountGets(es: seq<Event>, key: int, pid: int): nat {
    if es == [] then 0 else (if es[0] == Get(key, pid) then 1 else 0) + CountGets(es[1..], key, pid)
  }

  function CountReaders(rs: seq<int>, pid: int): nat {
    if rs == [] then 0 else (if rs[|rs| - 1] == pid then 1 else 0) + CountReaders(rs[..|rs| - 1], pid)
  }

  function CountAnswered(ps: seq<(int, seq<byte>)>, pid: int): nat {
    if ps == [] then 0 else (if ps[|ps| - 1].0 == pid then 1 else 0) + CountAnswered(ps[..|ps| - 1], pid)
  }

  lemma {:induction false} CountPairs(ps: seq<(int, seq<byte>)>, rs: seq<int>, data: seq<byte>, pid: int)
    ensures CountAnswered(ps + Pairs(rs, data), pid) == CountAnswered(ps, pid) + CountReaders(rs, pid)
    decreases |rs|
  {
    if rs == [] {
      assert ps + Pairs(rs, data) == ps;
    } else {
      var n := |rs| - 1;
      CountPairs(ps, rs[..n], data, pid);
      assert (ps + Pairs(rs, data))[..|ps| + n] == ps + Pairs(rs[..n], data);
    }
  }

  /** The reads by one process that were answered or wait. */
  function Reads(f: Future, pid: int): nat {
    CountAnswered(f.answered, pid) + CountReaders(f.readers, pid)
  }

  /** The data a future hands out was registered for it. */
  ghost predicate Genuine(f: Future, registered: set<seq<byte>>) {
    && (f.data.Some? ==> f.data.value in registered)
    && (forall i :: 0 <= i < |f.answered| ==> f.answered[i].1 in registered)
    && (forall i :: 0 <= i < |f.fetched| ==> f.fetched[i].1 in registered)
  }

  function Registered(es: seq<Event>): set<seq<byte>> {
    if es == [] then {} else (if es[0].Register? then {es[0].data} else {}) + Registered(es[1..])
  }

  lemma StepConservesReads(f: Future, e: Event, pid: int, registered: set<seq<byte>>)
    requires Genuine(f, registered)
    ensures Genuine(FutureStep(f, e), registered + if e.Register? then {e.data} else {})
    ensures Reads(FutureStep(f, e), pid) == Reads(f, pid) + if e.Get? && e.src == pid then 1 else 0
  {
    match e
    case Register(_, data) =>
      CountPairs(f.answered, f.readers, data, pid);
    case Get(_, src) =>
      match f.data {
        case Some(data) => assert (f.answered + [(src, data)])[..|f.answered|] == f.answered;
        case None => assert (f.readers + [src])[..|f.readers|] == f.readers;
      }
    case Release(_) =>
    case Fetch(_) =>
  }

  lemma {:induction false} RunConservesReads(f: Future, es: seq<Event>, key: int, pid: int, registered: set<seq<byte>>)
    requires Genuine(f, registered) && forall i :: 0 <= i < |es| ==> KeyOf(es[i]) == key
    ensures Genuine(FutureRun(f, es), registered + Registered(es))
    ensures Reads(FutureRun(f, es), pid) == Reads(f, pid) + CountGets(es, key, pid)
    decreases |es|
  {
    if es == [] {
      assert registered + {} == registered;
    } else {
      var g, more := FutureStep(f, es[0]), registered + if es[0].Register? then {es[0].data} else {};
      StepConservesReads(f, es[0], pid, registered);
      assert forall i :: 0 <= i < |es[1..]| ==> es[1..][i] == es[i + 1];
      RunConservesReads(g, es[1..], key, pid, more);
      assert registered + Registered(es) == more + Registered(es[1..]);
    }
  }

  lemma {:induction false} OnKeyKeepsGets(es: seq<Event>, key: int, pid: int)
    ensures CountGets(OnKey(es, key), key, pid) == CountGets(es, key, pid)
    ensures forall i :: 0 <= i < |OnKey(es, key)| ==> KeyOf(OnKey(es, key)[i]) == key
    ensures forall d :: d in Registered(OnKey(es, key)) ==> Register(key, d) in es
  {
    if es != [] {
      OnKeyKeepsGets(es[1..], key, pid);
      if KeyOf(es[0]) == key {
        assert OnKey(es, key)[1..] == OnKey(es[1..], key);
      }
    }
  }

  /** Over every run, for every future and process: reads received = replies sent + reads waiting, and every
      reply carries bytes registered for that future. */
  lemma ReadsAreConserved(es: seq<Event>, key: int, pid: int)
    requires OneFetchAtATime(es)
    ensures var t := Run(EMPTY, es);
            && CountGets(es, key, pid) ==
               CountAnswered(AnsweredFor(t.sent, key), pid) + CountReaders(Waiting(t, key), pid)
            && (forall i :: 0 <= i < |AnsweredFor(t.sent, key)| ==> Register(key, AnsweredFor(t.sent, key)[i].1) in es)
            && (key in t.store ==> Register(key, t.store[key]) in es)
  {
    FuturesAreIndependent(es, key);
    OnKeyKeepsGets(es, key, pid);
    RunConservesReads(FRESH, OnKey(es, key), key, pid, {});
    assert {} + Registered(OnKey(es, key)) == Registered(OnKey(es, key));
    var f := FutureRun(FRESH, OnKey(es, key));
    forall i | 0 <= i < |f.answered|
      ensures Register(key, f.answered[i].1) in es
    {
    }
  }

  // ----- conservation of fetches -----

  /** The fetches among some messages, in order. */
  function FetchesOf(es: seq<Event>): seq<FetchMsg> {
    if es == [] then [] else (if es[0].Fetch? then [es[0].msg] else []) + FetchesOf(es[1..])
  }

  function MessagesOf(fetched: seq<(FetchMsg, seq<byte>)>): (r: seq<FetchMsg>)
    ensures |r| == |fetched|
  {
    seq(|fetched|, i requires 0 <= i < |fetched| => fetched[i].0)
  }

  function QueuedOf(fetch: Option<FetchMsg>): seq<FetchMsg> {
    if fetch.Some? then [fetch.value] else []
  }

  /** The fetches run, and then the one queued. */
  function Fetched(f: Future): seq<FetchMsg> {
    MessagesOf(f.fetched) + QueuedOf(f.fetch)
  }

  /** Data excludes a queued fetch and a standing delete request. */
  predicate Settled(f: Future) {
    f.data.Some? ==> f.fetch.None? && !f.doomed
  }

  lemma StepConservesFetches(f: Future, e: Event)
    requires Settled(f) && !SecondFetch(f, e)
    ensures Settled(FutureStep(f, e))
    ensures Fetched(FutureStep(f, e)) == Fetched(f) + if e.Fetch? then [e.msg] else []
  {
    var ran := MessagesOf(f.fetched);
    assert ran + [] == ran && Fetched(f) + [] == Fetched(f);
    match e
    case Register(_, data) =>
      if f.fetch.Some? {
        assert MessagesOf(f.fetched + [(f.fetch.value, data)]) == ran + [f.fetch.value];
      } else {
        assert f.fetched + [] == f.fetched;
      }
    case Fetch(msg) =>
      if f.data.Some? {
        assert MessagesOf(f.fetched + [(msg, f.data.value)]) == ran + [msg];
      }
    case Get(_, _) =>
    case Release(_) =>
  }

  lemma {:induction false} RunConservesFetches(f: Future, es: seq<Event>)
    requires Settled(f) && OneFetchFrom(f, es)
    ensures Fetched(FutureRun(f, es)) == Fetched(f) + FetchesOf(es)
    decreases |es|
  {
    if es == [] {
      assert Fetched(f) + [] == Fetched(f);
    } else {
      StepConservesFetches(f, es[0]);
      RunConservesFetches(FutureStep(f, es[0]), es[1..]);
      ConcatAssociates(Fetched(f), if es[0].Fetch? then [es[0].msg] else [], FetchesOf(es[1..]));
    }
  }

  /** Over every run, for every future: the fetches run, and then the one still queued, are the fetches received, each
      once and in order; and each was run with data registered for the future. */
  lemma FetchesAreConserved(es: seq<Event>, key: int)
    requires OneFetchAtATime(es)
    ensures var t := Run(EMPTY, es);
            var ran := FetchedFor(t.fetched, key);
            && MessagesOf(ran) + QueuedOf(if key in t.askedFetch then Some(t.askedFetch[key]) else None) ==
               FetchesOf(OnKey(es, key))
            && forall i :: 0 <= i < |ran| ==> Register(key, ran[i].1) in es
  {
    FuturesAreIndependent(es, key);
    RunConservesFetches(FRESH, OnKey(es, key));
    assert Fetched(FRESH) == [] && [] + FetchesOf(OnKey(es, key)) == FetchesOf(OnKey(es, key));
    OnKeyKeepsGets(es, key, 0);
    RunConservesReads(FRESH, OnKey(es, key), key, 0, {});
    assert {} + Registered(OnKey(es, key)) == Registered(OnKey(es, key));
  }

  // ----- register and release in either order -----

  /** Reads and fetches only. */
  predicate Passive(es: seq<Event>) {
    forall i :: 0 <= i < |es| ==> es[i].Get? || es[i].Fetch?
  }

  /** The processes that read, in order. */
  function Readers(es: seq<Event>): seq<int> {
    if es == [] then [] else (if es[0].Get? then [es[0].src] else []) + Readers(es[1..])
  }

  lemma {:induction false} FutureRunConcat(f: Future, a: seq<Event>, b: seq<Event>)
    ensures FutureRun(f, a + b) == FutureRun(FutureRun(f, a), b)
    decreases |a|
  {
    if a == [] {
      assert a + b == b;
    } else {
      assert (a + b)[1..] == a[1..] + b;
      FutureRunConcat(FutureStep(f, a[0]), a[1..], b);
    }
  }

  /** While there is no data, readers line up. */
  lemma {:induction false} PassiveWithoutData(f: Future, es: seq<Event>)
    requires Passive(es) && f.data.None?
    ensures var g := FutureRun(f, es);
            && g.data.None? && g.doomed == f.doomed && g.answered == f.answered
            && g.readers == f.readers + Readers(es)
    decreases |es|
  {
    if es == [] {
      assert f.readers + [] == f.readers;
    } else {
      assert Passive(es[1..]) by {
        assert forall i :: 0 <= i < |es[1..]| ==> es[1..][i] == es[i + 1];
      }
      var g := FutureStep(f, es[0]);
      PassiveWithoutData(g, es[1..]);
      if es[0].Get? {
        assert (f.readers + [es[0].src]) + Readers(es[1..]) == f.readers + ([es[0].src] + Readers(es[1..]));
      } else {
        assert [] + Readers(es[1..]) == Readers(es[1..]);
      }
    }
  }

  /** While there is data, readers are answered at once. */
  lemma {:induction false} PassiveWithData(f: Future, es: seq<Event>)
    requires Passive(es) && f.data.Some?
    ensures var g := FutureRun(f, es);
            && g.data == f.data && g.doomed == f.doomed && g.readers == f.readers
            && g.answered == f.answered + Pairs(Readers(es), f.data.value)
    decreases |es|
  {
    if es == [] {
      assert f.answered + Pairs([], f.data.value) == f.answered;
    } else {
      assert Passive(es[1..]) by {
        assert forall i :: 0 <= i < |es[1..]| ==> es[1..][i] == es[i + 1];
      }
      var g, d := FutureStep(f, es[0]), f.data.value;
      PassiveWithData(g, es[1..]);
      if es[0].Get? {
        assert (f.answered + [(es[0].src, d)]) + Pairs(Readers(es[1..]), d)
            == f.answered + Pairs([es[0].src] + Readers(es[1..]), d);
      } else {
        assert [] + Readers(es[1..]) == Readers(es[1..]);
      }
    }
  }

  lemma PairsConcat(x: seq<int>, y: seq<int>, data: seq<byte>)
    ensures Pairs(x, data) + Pairs(y, data) == Pairs(x + y, data)
  {
  }

  lemma {:induction false} ReadersConcat(a: seq<Event>, b: seq<Event>)
    ensures Readers(a + b) == Readers(a) + Readers(b)
  {
    if a == [] {
      assert a + b == b;
    } else {
      assert (a + b)[0] == a[0] && (a + b)[1..] == a[1..] + b;
      ReadersConcat(a[1..], b);
      var first := if a[0].Get? then [a[0].src] else [];
      assert first + (Readers(a[1..]) + Readers(b)) == (first + Readers(a[1..])) + Readers(b);
    }
  }

  lemma RegisterThenRelease(a: seq<Event>, b: seq<Event>, c: seq<Event>, key: int, data: seq<byte>)
    requires Passive(a) && Passive(b) && Passive(c)
    ensures var f := FutureRun(FRESH, a + [Register(key, data)] + b + [Release(key)] + c);
            f.data.None? && f.answered == Pairs(Readers(a + b), data) && f.readers == Readers(c)
  {
    var f1 := FutureRun(FRESH, a);
    PassiveWithoutData(FRESH, a);
    assert f1.readers == Readers(a);
    var f2 := FutureStep(f1, Register(key, data));
    assert f2.data == Some(data) && f2.readers == [] && f2.answered == Pairs(Readers(a), data);
    var f3 := FutureRun(f2, b);
    PassiveWithData(f2, b);
    PairsConcat(Readers(a), Readers(b), data);
    ReadersConcat(a, b);
    assert f3.answered == Pairs(Readers(a + b), data) && f3.readers == [];
    PassiveWithoutData(FutureStep(f3, Release(key)), c);
    assert [] + Readers(c) == Readers(c);
    RunInFive(FRESH, a, Register(key, data), b, Release(key), c);
  }

  lemma RunInFive(f: Future, a: seq<Event>, x: Event, b: seq<Event>, y: Event, c: seq<Event>)
    ensures FutureRun(f, a + [x] + b + [y] + c)
         == FutureRun(FutureStep(FutureRun(FutureStep(FutureRun(f, a), x), b), y), c)
  {
    FutureRunConcat(f, a + [x] + b + [y], c);
    FutureRunConcat(f, a + [x] + b, [y]);
    FutureRunConcat(f, a + [x], b);
    FutureRunConcat(f, a, [x]);
    assert [x][1..] == [] && [y][1..] == [];
    RunOne(FutureRun(f, a), x);
    RunOne(FutureRun(FutureStep(FutureRun(f, a), x), b), y);
  }

  lemma RunOne(f: Future, e: Event)
    ensures FutureRun(f, [e]) == FutureStep(f, e)
  {
    assert [e][1..] == [];
    assert FutureRun(FutureStep(f, e), []) == FutureStep(f, e);
  }

  /** Data for a future whose deletion was asked goes to those who waited and is dropped. */
  lemma RegisterDoomed(f: Future, e: Event)
    requires f.doomed && f.answered == [] && f.data.None? && e.Register?
    ensures var g := FutureStep(f, e);
            g.readers == [] && g.data.None? && !g.doomed && g.answered == Pairs(f.readers, e.data)
  {
  }

  lemma ReleasedWhileWaiting(a: seq<Event>, b: seq<Event>, key: int)
    requires Passive(a) && Passive(b)
    ensures var f := FutureRun(FutureStep(FutureRun(FRESH, a), Release(key)), b);
            f.readers == Readers(a + b) && f.doomed && f.answered == [] && f.data.None?
  {
    PassiveWithoutData(FRESH, a);
    PassiveWithoutData(FutureStep(FutureRun(FRESH, a), Release(key)), b);
    ReadersConcat(a, b);
  }

  lemma ReleaseThenRegister(a: seq<Event>, b: seq<Event>, c: seq<Event>, key: int, data: seq<byte>)
    requires Passive(a) && Passive(b) && Passive(c)
    ensures var f := FutureRun(FRESH, a + [Release(key)] + b + [Register(key, data)] + c);
            f.data.None? && f.answered == Pairs(Readers(a + b), data) && f.readers == Readers(c)
  {
    var waiting := FutureRun(FutureStep(FutureRun(FRESH, a), Release(key)), b);
    ReleasedWhileWaiting(a, b, key);
    RegisterDoomed(waiting, Register(key, data));
    PassiveWithoutData(FutureStep(waiting, Register(key, data)), c);
    assert [] + Readers(c) == Readers(c);
    RunInFive(FRESH, a, Release(key), b, Register(key, data), c);
  }

  /** Whichever of registration and release the server handles first, with anything else for any future in
      between: every read that came before the later of the two was answered with the registered bytes, in
      order; the reads after it wait; and the future is out of the store. */
  lemma RegisterAndReleaseCommute(es: seq<Event>, key: int, a: seq<Event>, b: seq<Event>, c: seq<Event>,
                                  data: seq<byte>)
    requires OneFetchAtATime(es)
    requires Passive(a) && Passive(b) && Passive(c)
    requires || OnKey(es, key) == a + [Register(key, data)] + b + [Release(key)] + c
             || OnKey(es, key) == a + [Release(key)] + b + [Register(key, data)] + c
    ensures var t := Run(EMPTY, es);
            && key !in t.store
            && AnsweredFor(t.sent, key) == Pairs(Readers(a + b), data)
            && Waiting(t, key) == Readers(c)
  {
    FuturesAreIndependent(es, key);
    if OnKey(es, key) == a + [Register(key, data)] + b + [Release(key)] + c {
      RegisterThenRelease(a, b, c, key, data);
    } else {
      ReleaseThenRegister(a, b, c, key, data);
    }
  }

  // ----- queued fetches -----

  predicate BeforeData(es: seq<Event>) {
    forall i :: 0 <= i < |es| ==> !es[i].Register?
  }

  lemma {:induction false} WithoutRegistration(f: Future, es: seq<Event>)
    requires BeforeData(es) && f.data.None?
    ensures var g := FutureRun(f, es);
            && g.data.None? && g.answered == f.answered && g.fetched == f.fetched
            && (g.readers == [] <==> f.readers == [] && forall i :: 0 <= i < |es| ==> !es[i].Get?)
            && (g.doomed <==> f.doomed || exists i :: 0 <= i < |es| && es[i].Release?)
            && (g.fetch.None? <==> f.fetch.None? && forall i :: 0 <= i < |es| ==> !es[i].Fetch?)
    decreases |es|
  {
    if es != [] {
      var rest := es[1..];
      assert forall i :: 0 <= i < |rest| ==> rest[i] == es[i + 1];
      assert forall i :: 1 <= i < |es| ==> es[i] == rest[i - 1];
      WithoutRegistration(FutureStep(f, es[0]), rest);
    }
  }

  lemma QueuedFetchAlone(es: seq<Event>, key: int, data: seq<byte>)
    requires BeforeData(es) && exists i :: 0 <= i < |es| && es[i].Fetch?
    ensures var f := FutureRun(FRESH, es + [Register(key, data)]);
            && (f.fetch.None? && |f.fetched| == 1 && f.fetched[0].1 == data <==>
                !HasRelease(es) || HasGet(es))
            && (f.fetch.Some? <==> f.fetched == [])
  {
    WithoutRegistration(FRESH, es);
    FutureRunConcat(FRESH, es, [Register(key, data)]);
    RunOne(FutureRun(FRESH, es), Register(key, data));
  }

  /** Over every run in which the last message of a future is its data, after some fetch of it: that fetch is run with
      the data, unless the future was released meanwhile and nobody was waiting to read it. Then it stays queued. */
  lemma QueuedFetchRunsExactlyWhen(es: seq<Event>, key: int, before: seq<Event>, data: seq<byte>)
    requires OneFetchAtATime(es) && OnKey(es, key) == before + [Register(key, data)]
    requires BeforeData(before) && exists i :: 0 <= i < |before| && before[i].Fetch?
    ensures var t := Run(EMPTY, es);
            var ran := FetchedFor(t.fetched, key);
            && (key !in t.askedFetch && |ran| == 1 && ran[0].1 == data <==> !HasRelease(before) || HasGet(before))
            && (key in t.askedFetch <==> ran == [])
  {
    FuturesAreIndependent(es, key);
    QueuedFetchAlone(before, key, data);
  }

  /** The lost fetch, on a server: fetch, release, then the data. */
  lemma LostFetch(msg: FetchMsg, data: seq<byte>)
    ensures var t := Run(EMPTY, [Fetch(msg), Release(msg.reqKey), Register(msg.reqKey, data)]);
            t.alive && t.fetched == [] && msg.reqKey in t.askedFetch && msg.reqKey !in t.store
  {
    var es := [Fetch(msg), Release(msg.reqKey), Register(msg.reqKey, data)];
    var t1 := Step(EMPTY, es[0]);
    var t2 := Step(t1, es[1]);
    assert es[1..][1..][1..] == [];
    assert Run(t2, es[1..][1..]) == Step(t2, es[2]);
    assert Run(t1, es[1..]) == Run(t2, es[1..][1..]);
  }
}

/** The future half of `ActorServer`. */
module FutureServer {
  import opened Bytes
  import opened Futures

  class ActorServer {
    var futureDataStore: map<int, seq<byte>>
    var pendingFutureRequests: map<int, seq<int>>
    var askedFutureDelete: map<int, bool>
    var askedFetch: map<int, FetchMsg>
    var sent: seq<Reply>
    var fetched: seq<(FetchMsg, seq<byte>)>
    var alive: bool

    ghost function State(): Table
      reads this
    {
      Table(futureDataStore, pendingFutureRequests, askedFutureDelete, askedFetch, sent, fetched, alive)
    }

    constructor ()
      ensures State() == EMPTY
    {
      futureDataStore, pendingFutureRequests, askedFutureDelete, askedFetch := map[], map[], map[], map[];
      sent, fetched, alive := [], [], true;
    }

    /** Reading a map through its index operator leaves an entry behind. */
    method IsDeleteAsked(key: int) returns (asked: bool)
      modifies this`askedFutureDelete
      ensures State() == Touch(old(State()), key)
      ensures asked == DeleteAsked(old(State()), key) && askedFutureDelete[key] == asked
    {
      if key !in askedFutureDelete {
        askedFutureDelete := askedFutureDelete[key := false];
      }
      asked := askedFutureDelete[key];
    }

    /** `registerFuture`. */
    method RegisterFuture(key: int, data: seq<byte>)
      requires alive
      modifies this
      ensures State() == Step(old(State()), Register(key, data))
    {
      var hasPending := key in pendingFutureRequests;
      var forget := false;
      if !hasPending {
        forget := IsDeleteAsked(key);
      }
      if forget {
        askedFutureDelete := askedFutureDelete - {key};
      } else {
        futureDataStore := futureDataStore[key := data];
        if key in askedFetch {
          fetched := fetched + [(askedFetch[key], data)];
          askedFetch := askedFetch - {key};
        }
        if hasPending {
          SendToPending(key, data);
        }
        var drop := IsDeleteAsked(key);
        if drop {
          askedFutureDelete := askedFutureDelete - {key};
          futureDataStore := futureDataStore - {key};
        }
      }
    }

    /** Answers the waiting readers in the order they came. */
    method SendToPending(key: int, data: seq<byte>)
      requires key in pendingFutureRequests
      modifies this`sent, this`pendingFutureRequests
      ensures State() == AnswerReaders(old(State()), key, data)
    {
      var readers := pendingFutureRequests[key];
      for i := 0 to |readers|
        invariant pendingFutureRequests == old(pendingFutureRequests)
        invariant sent == old(sent) + RepliesTo(readers[..i], key, data)
      {
        sent := sent + [Reply(readers[i], key, data)];
        assert RepliesTo(readers[..i + 1], key, data) ==
               RepliesTo(readers[..i], key, data) + [Reply(readers[i], key, data)];
      }
      assert readers[..|readers|] == readers;
      pendingFutureRequests := pendingFutureRequests - {key};
    }

    /** `handleGetFutureData`. */
    method HandleGetFutureData(key: int, src: int)
      requires alive
      modifies this
      ensures State() == Step(old(State()), Get(key, src))
    {
      if key in futureDataStore {
        sent := sent + [Reply(src, key, futureDataStore[key])];
      } else {
        var readers := if key in pendingFutureRequests then pendingFutureRequests[key] else [];
        pendingFutureRequests := pendingFutureRequests[key := readers + [src]];
      }
    }

    /** `handleReleaseFutureMessage`. */
    method HandleReleaseFuture(key: int)
      requires alive
      modifies this
      ensures State() == Step(old(State()), Release(key))
    {
      if key in futureDataStore {
        futureDataStore := futureDataStore - {key};
      } else {
        askedFutureDelete := askedFutureDelete[key := true];
      }
    }

    /** `handleFetchMessage` on the head process, which asserts that no fetch of the future is queued yet. */
    method HandleFetch(msg: FetchMsg)
      requires alive
      modifies this
      ensures State() == Step(old(State()), Fetch(msg))
    {
      if msg.reqKey in futureDataStore {
        fetched := fetched + [(msg, futureDataStore[msg.reqKey])];
      } else if msg.reqKey in askedFetch {
        alive := false;
      } else {
        askedFetch := askedFetch[msg.reqKey := msg];
      }
    }
  }
}
