/** The message of a remote call: two envelopes of `int` fields, the function's name as a C string, and the
    serialized arguments. */
module CallMessage {
  import opened Bytes
  import opened Serialization
  import D = Dispatch

  const ENVELOPES: nat := 20

  function Int32(x: nat): (r: seq<byte>)
    ensures |r| == 4
  {
    EncodeLE(x, 4)
  }

  function Envelopes(nameSize: nat, key: nat, argsSize: nat): (r: seq<byte>)
    ensures |r| == ENVELOPES
  {
    Int32(D.INSTRUCTION_CALL_ACTOR) + Int32(0) + Int32(key) + Int32(nameSize) + Int32(argsSize)
  }

  /** The message; the name's offset is 0 and the arguments follow the name's terminator. */
  function Message(name: seq<byte>, key: nat, args: seq<byte>): (r: seq<byte>)
    ensures |r| == ENVELOPES + |name| + 1 + |args|
  {
    Envelopes(|name| + 1, key, |args|) + name + [0] + args
  }

  predicate FitsInt(name: seq<byte>, key: nat, argsSize: nat) {
    ENVELOPES + |name| + 1 + argsSize <= INT_MAX && key <= INT_MAX
  }

  /** The `i`-th field. */
  function Field(msg: seq<byte>, i: nat): nat
    requires 4 * i + 4 <= |msg|
  {
    DecodeLE(msg[4 * i..4 * i + 4])
  }

  /** A C string ends at its first NUL. */
  function CString(s: seq<byte>): (r: seq<byte>)
    ensures |r| <= |s| && r == s[..|r|]
  {
    if s == [] || s[0] == 0 then [] else [s[0]] + CString(s[1..])
  }

  predicate Readable(msg: seq<byte>) {
    && ENVELOPES <= |msg|
    && ENVELOPES + Field(msg, 1) <= |msg|
    && ENVELOPES + Field(msg, 3) + Field(msg, 4) <= |msg|
  }

  function FunctionName(msg: seq<byte>): seq<byte>
    requires Readable(msg)
  {
    CString(msg[ENVELOPES + Field(msg, 1)..])
  }

  function FutureKey(msg: seq<byte>): nat
    requires Readable(msg)
  {
    Field(msg, 2)
  }

  function Args(msg: seq<byte>): seq<byte>
    requires Readable(msg)
  {
    msg[ENVELOPES + Field(msg, 3)..ENVELOPES + Field(msg, 3) + Field(msg, 4)]
  }

  /** Writes the message over the front of the caller's buffer, or into a new one if it does not fit. */
  method BuildMessage(buf: array<byte>, name: seq<byte>, key: nat, args: seq<Value>, ghost ks: seq<Kind>)
    returns (out: array<byte>, size: nat)
    requires HasKinds(args, ks) && FitsInt(name, key, |AllBytes(args)|)
    modifies buf
    ensures size <= out.Length && out[..size] == Message(name, key, AllBytes(args))
    ensures if size <= buf.Length then out == buf && buf[size..] == old(buf[size..])
            else fresh(out) && out.Length == size && buf[..] == old(buf[..])
  {
    PackSize(args, ks);
    var argsSize := |AllBytes(args)|;
    size := ENVELOPES + |name| + 1 + argsSize;
    out := buf;
    if buf.Length < size {
      out := new byte[size];
    }
    ghost var was := out[..];
    var front := Envelopes(|name| + 1, key, argsSize) + name + [0];
    CopyTo(out, 0, front);
    SerializeAll(out, ENVELOPES + |name| + 1, args, ks);
    SpliceTwice(was, 0, front, AllBytes(args));
    assert front + AllBytes(args) == Message(name, key, AllBytes(args));
  }

  lemma FieldAt(msg: seq<byte>, i: nat, x: nat)
    requires 4 * i + 4 <= |msg| && msg[4 * i..4 * i + 4] == Int32(x) && x <= INT_MAX
    ensures Field(msg, i) == x
  {
    assert Power256(4) == 0x1_0000_0000;
    DecodeEncode(x, 4);
  }

  lemma EnvelopeFields(name: seq<byte>, key: nat, args: seq<byte>)
    requires FitsInt(name, key, |args|)
    ensures var msg := Message(name, key, args);
            && Field(msg, 1) == 0 && Field(msg, 2) == key && Field(msg, 3) == |name| + 1 && Field(msg, 4) == |args|
  {
    var msg := Message(name, key, args);
    assert msg[4..8] == Int32(0);
    assert msg[8..12] == Int32(key);
    assert msg[12..16] == Int32(|name| + 1);
    assert msg[16..20] == Int32(|args|);
    FieldAt(msg, 1, 0);
    FieldAt(msg, 2, key);
    FieldAt(msg, 3, |name| + 1);
    FieldAt(msg, 4, |args|);
  }

  lemma {:induction false} CStringStops(name: seq<byte>, behind: seq<byte>)
    ensures CString(name + [0] + behind) == CString(name)
  {
    var s := name + [0] + behind;
    if name != [] {
      CStringStops(name[1..], behind);
      assert s[1..] == name[1..] + [0] + behind;
    }
  }

  lemma {:induction false} CStringWhole(name: seq<byte>)
    ensures CString(name) == name <==> 0 !in name
  {
    if name != [] {
      CStringWhole(name[1..]);
      assert name == [name[0]] + name[1..];
    }
  }

  /** A built message is received as a call, and the accessors read from it, whatever the arguments hold: the arguments,
      the key, and the name up to its first NUL, which is the name if and only if it has none. */
  lemma MessageRoundTrip(name: seq<byte>, key: nat, args: seq<byte>)
    requires FitsInt(name, key, |args|)
    ensures var msg := Message(name, key, args);
            && D.KindOf(msg) == Some(D.CallActor)
            && Readable(msg) && Args(msg) == args && FutureKey(msg) == key && FunctionName(msg) == CString(name)
            && (FunctionName(msg) == name <==> 0 !in name)
  {
    EnvelopeFields(name, key, args);
    assert Message(name, key, args)[..4] == Int32(4);
    D.DispatchExactly(Message(name, key, args), D.CallActor);
    NameInside(name, key, args);
    ArgsInside(name, key, args);
    CStringWhole(name);
  }

  lemma NameInside(name: seq<byte>, key: nat, args: seq<byte>)
    ensures CString(Message(name, key, args)[ENVELOPES..]) == CString(name)
  {
    assert Message(name, key, args)[ENVELOPES..] == name + [0] + args;
    CStringStops(name, args);
  }

  lemma ArgsInside(name: seq<byte>, key: nat, args: seq<byte>)
    ensures var at := ENVELOPES + (|name| + 1);
            Message(name, key, args)[at..at + |args|] == args
  {
  }
}

/** A remote call from the proxy to the future: the management thread queues it, the worker thread runs it, and the
    result comes back to the management thread as a registration. */
module CallPath {
  import opened Bytes
  import opened Serialization
  import opened CallMessage
  import F = Futures

  /** The actor object's memory. */
  type Obj = seq<byte>

  /** A registered function, with the types of its arguments and its result. */
  datatype Handler = Handler(kinds: seq<Kind>, result: Kind, call: (Obj, seq<Value>) -> (Obj, Value))

  type Functions = map<seq<byte>, Handler>

  /** Every function returns a value of its result type. */
  ghost predicate WellBehaved(fs: Functions) {
    forall name, obj, args :: name in fs ==> HasKind(fs[name].call(obj, args).1, fs[name].result)
  }

  /** A call as the client writes it. */
  datatype Call = Call(name: seq<byte>, args: seq<Value>)

  /** The client's proxy passes arguments of the function's types, in a message that fits an `int`. */
  predicate Typed(fs: Functions, c: Call) {
    && FitsInt(c.name, 0, |AllBytes(c.args)|)
    && (CString(c.name) in fs ==> HasKinds(c.args, fs[CString(c.name)].kinds))
  }

  // ----- a local call -----

  datatype Outcome = Returned(value: Value) | Unknown

  /** Calling the function directly. */
  function LocalCall(fs: Functions, obj: Obj, c: Call): (Obj, Outcome) {
    var name := CString(c.name);
    if name in fs then
      var r := fs[name].call(obj, c.args);
      (r.0, Returned(r.1))
    else (obj, Unknown)
  }

  /** "error". */
  const ERROR: seq<byte> := [101, 114, 114, 111, 114]

  function OutcomeBytes(o: Outcome): seq<byte> {
    if o.Returned? then UnitBytes(o.value) else ERROR
  }

  // ----- the worker -----

  /** A queued request; a source of -1 is the stop sentinel. */
  datatype Request = Request(src: int, key: int, msg: seq<byte>)

  datatype Result = Result(key: int, data: seq<byte>)

  /** One round of `master_loop`: find the function, deserialize, call, serialize. The arguments of a typed call
      can always be read. */
  function Execute(fs: Functions, obj: Obj, msg: seq<byte>): (Obj, seq<byte>) {
    if !Readable(msg) then (obj, [])
    else
      var name := FunctionName(msg);
      if name !in fs then (obj, ERROR)
      else
        var args := DeserializeAll(Args(msg), fs[name].kinds);
        if args.None? then (obj, [])
        else
          var r := fs[name].call(obj, args.value);
          (r.0, UnitBytes(r.1))
  }

  /** Running the message of a call is the local call, serialized. */
  lemma ExecuteIsLocalCall(fs: Functions, obj: Obj, c: Call)
    requires Typed(fs, c)
    ensures Execute(fs, obj, Message(c.name, 0, AllBytes(c.args)))
         == (LocalCall(fs, obj, c).0, OutcomeBytes(LocalCall(fs, obj, c).1))
  {
    MessageRoundTrip(c.name, 0, AllBytes(c.args));
    var name := CString(c.name);
    if name in fs {
      RoundTrip(c.args, fs[name].kinds, []);
      assert AllBytes(c.args) + [] == AllBytes(c.args);
    }
  }

  // ----- both threads -----

  /** What was ever put in the queue. */
  datatype Item = Posted(src: nat, key: int, call: Call) | Sentinel

  function RequestOf(i: Item): Request {
    if i.Posted? then Request(i.src, i.key, Message(i.call.name, 0, AllBytes(i.call.args))) else Request(-1, 0, [])
  }

  function Requests(line: seq<Item>): (r: seq<Request>)
    ensures |r| == |line|
  {
    seq(|line|, i requires 0 <= i < |line| => RequestOf(line[i]))
  }

  /** The key counter, the queue, the worker, the registrations on their way from the worker to the management
      thread, the keys handed to callers, the future events that the management thread has handled, the log of
      the queue, and the keys drawn for other futures, which a prefetch registers itself. */
  datatype State = State(next: int, queue: seq<Request>, run: bool, obj: Obj, outbox: seq<Result>,
                         handed: seq<(nat, int)>, events: seq<F.Event>, line: seq<Item>, drawn: set<int>)

  function Init(obj: Obj): State {
    State(0, [], true, obj, [], [], [], [], {})
  }

  datatype Action =
    | HandleCall(src: nat, call: Call)
    | TakeKey
    | Stop
    | Work
    | Deliver
    | Other(e: F.Event)

  predicate Enabled(fs: Functions, st: State, a: Action) {
    match a
    case HandleCall(_, c) => Typed(fs, c)
    case TakeKey => true
    case Stop => true
    case Work => st.run && st.queue != []
    case Deliver => st.outbox != []
    case Other(e) => e.Register? ==> e.key in st.drawn
  }

  function Next(fs: Functions, st: State, a: Action): State
    requires Enabled(fs, st, a)
  {
    match a
    case HandleCall(src, c) =>
      var item := Posted(src, st.next, c);
      st.(next := st.next + 1, queue := st.queue + [RequestOf(item)], handed := st.handed + [(src, st.next)],
          line := st.line + [item])
    case TakeKey => st.(next := st.next + 1, drawn := st.drawn + {st.next})
    case Stop => st.(queue := st.queue + [RequestOf(Sentinel)], line := st.line + [Sentinel])
    case Work =>
      var req := st.queue[0];
      if req.src == -1 then st.(queue := st.queue[1..], run := false)
      else
        var r := Execute(fs, st.obj, req.msg);
        st.(queue := st.queue[1..], obj := r.0, outbox := st.outbox + [Result(req.key, r.1)])
    case Deliver =>
      st.(outbox := st.outbox[1..], events := st.events + [F.Register(st.outbox[0].key, st.outbox[0].data)])
    case Other(e) => st.(events := st.events + [e])
  }

  predicate Legal(fs: Functions, st: State, acts: seq<Action>)
    decreases |acts|
  {
    acts == [] || (Enabled(fs, st, acts[0]) && Legal(fs, Next(fs, st, acts[0]), acts[1..]))
  }

  function Run(fs: Functions, st: State, acts: seq<Action>): State
    requires Legal(fs, st, acts)
    decreases |acts|
  {
    if acts == [] then st else Run(fs, Next(fs, st, acts[0]), acts[1..])
  }

  // ----- the simple thing: calls one after the other -----

  /** The object and the results after calling `line`'s calls locally in order. */
  function Sequential(fs: Functions, obj: Obj, line: seq<Item>): (Obj, seq<Result>)
    decreases |line|
  {
    if line == [] then (obj, [])
    else
      var before, last := Sequential(fs, obj, line[..|line| - 1]), line[|line| - 1];
      if last.Sentinel? then before
      else
        var r := LocalCall(fs, before.0, last.call);
        (r.0, before.1 + [Result(last.key, OutcomeBytes(r.1))])
  }

  /** How many keys the actions draw; the keys are drawn in order, from 0. */
  function KeysDrawn(acts: seq<Action>): nat {
    if acts == [] then 0
    else KeysDrawn(acts[..|acts| - 1]) + if acts[|acts| - 1].HandleCall? || acts[|acts| - 1].TakeKey? then 1 else 0
  }

  /** What the actions put in the queue: each call with its source and the key drawn for it, and the stops. */
  function PostedBy(acts: seq<Action>): seq<Item> {
    if acts == [] then []
    else
      var init, a := acts[..|acts| - 1], acts[|acts| - 1];
      match a
      case HandleCall(src, c) => PostedBy(init) + [Posted(src, KeysDrawn(init), c)]
      case Stop => PostedBy(init) + [Sentinel]
      case _ => PostedBy(init)
  }

  /** The object after the calls among the actions, made locally in order. */
  function ObjectAfter(fs: Functions, obj: Obj, acts: seq<Action>): Obj {
    if acts == [] then obj
    else
      var before, a := ObjectAfter(fs, obj, acts[..|acts| - 1]), acts[|acts| - 1];
      if a.HandleCall? then LocalCall(fs, before, a.call).0 else before
  }

  /** The source of every call among the actions, with its key. */
  function KeysHanded(acts: seq<Action>): seq<(nat, int)> {
    if acts == [] then []
    else
      var init, a := acts[..|acts| - 1], acts[|acts| - 1];
      KeysHanded(init) + if a.HandleCall? then [(a.src, KeysDrawn(init))] else []
  }

  /** The data registered under a key, in order. */
  function Registrations(events: seq<F.Event>, key: int): seq<seq<byte>> {
    if events == [] then []
    else
      var e := events[|events| - 1];
      Registrations(events[..|events| - 1], key) + if e.Register? && e.key == key then [e.data] else []
  }

  /** The calls' results that the management thread has registered, in order; keys drawn for other futures are not
      calls'. */
  function Registered(events: seq<F.Event>, drawn: set<int>): seq<Result>
    decreases |events|
  {
    if events == [] then []
    else
      var before, last := Registered(events[..|events| - 1], drawn), events[|events| - 1];
      if last.Register? && last.key !in drawn then before + [Result(last.key, last.data)] else before
  }

  /** The items before the first sentinel. */
  function BeforeStop(line: seq<Item>): (r: seq<Item>)
    ensures |r| <= |line| && r == line[..|r|]
    ensures forall i :: 0 <= i < |r| ==> r[i].Posted?
    ensures |r| == |line| || line[|r|].Sentinel?
  {
    if line == [] || line[0].Sentinel? then [] else [line[0]] + BeforeStop(line[1..])
  }

  // ----- the invariant -----

  function Taken(st: State): int {
    |st.line| - |st.queue|
  }

  ghost predicate KeysGrow(line: seq<Item>, next: int) {
    && (forall i :: 0 <= i < |line| && line[i].Posted? ==> line[i].key < next)
    && (forall i, j :: 0 <= i < j < |line| && line[i].Posted? && line[j].Posted? ==> line[i].key < line[j].key)
  }

  /** A key is drawn once: for a call, or for another future. */
  ghost predicate KeysApart(st: State) {
    && (forall k :: k in st.drawn ==> k < st.next)
    && (forall i :: 0 <= i < |st.line| && st.line[i].Posted? ==> st.line[i].key !in st.drawn)
    && (forall i :: 0 <= i < |st.outbox| ==> st.outbox[i].key < st.next && st.outbox[i].key !in st.drawn)
    && (forall i :: 0 <= i < |st.events| && st.events[i].Register? ==> st.events[i].key < st.next)
  }

  /** The worker has taken the calls before the first sentinel, and once stopped the sentinel too. */
  ghost predicate TakenInOrder(st: State) {
    && 0 <= Taken(st) <= |st.line|
    && st.queue == Requests(st.line[Taken(st)..])
    && (st.run ==> forall i :: 0 <= i < Taken(st) ==> st.line[i].Posted?)
    && (!st.run ==> Taken(st) == |BeforeStop(st.line)| + 1)
  }

  ghost predicate AllTyped(fs: Functions, line: seq<Item>) {
    forall i :: 0 <= i < |line| && line[i].Posted? ==> Typed(fs, line[i].call)
  }

  ghost predicate Invariant(fs: Functions, obj0: Obj, st: State) {
    && TakenInOrder(st)
    && AllTyped(fs, st.line)
    && Sequential(fs, obj0, st.line[..Taken(st)]) == (st.obj, Registered(st.events, st.drawn) + st.outbox)
    && KeysGrow(st.line, st.next) && KeysApart(st)
  }

  lemma {:induction false} BeforeStopAppend(line: seq<Item>, item: Item)
    requires |BeforeStop(line)| < |line|
    ensures BeforeStop(line + [item]) == BeforeStop(line)
  {
    if line[0].Posted? {
      BeforeStopAppend(line[1..], item);
      assert (line + [item])[1..] == line[1..] + [item];
    }
  }

  lemma {:induction false} BeforeStopIs(line: seq<Item>, n: nat)
    requires n < |line| && line[n].Sentinel? && forall i :: 0 <= i < n ==> line[i].Posted?
    ensures |BeforeStop(line)| == n
  {
    if n > 0 {
      assert forall i :: 0 <= i < n - 1 ==> line[1..][i] == line[i + 1];
      BeforeStopIs(line[1..], n - 1);
    }
  }

  lemma RequestsConcat(a: seq<Item>, b: seq<Item>)
    ensures Requests(a + b) == Requests(a) + Requests(b)
  {
  }

  function Post(st: State, item: Item): State {
    st.(queue := st.queue + [RequestOf(item)], line := st.line + [item])
  }

  lemma PostTaken(st: State, item: Item)
    requires TakenInOrder(st)
    ensures Taken(Post(st, item)) == Taken(st) && TakenInOrder(Post(st, item))
  {
    var taken, line := Taken(st), st.line + [item];
    assert line[taken..] == st.line[taken..] + [item];
    RequestsConcat(st.line[taken..], [item]);
    assert Requests([item]) == [RequestOf(item)];
    if !st.run {
      BeforeStopAppend(st.line, item);
    }
  }

  lemma KeysAppend(fs: Functions, line: seq<Item>, next: int, src: nat, c: Call)
    requires KeysGrow(line, next) && AllTyped(fs, line) && Typed(fs, c)
    ensures KeysGrow(line + [Posted(src, next, c)], next + 1) && AllTyped(fs, line + [Posted(src, next, c)])
  {
  }

  lemma CallKeeps(fs: Functions, obj0: Obj, st: State, src: nat, c: Call)
    requires Invariant(fs, obj0, st) && Typed(fs, c)
    ensures Invariant(fs, obj0, Next(fs, st, HandleCall(src, c)))
  {
    var item := Posted(src, st.next, c);
    var st' := Next(fs, st, HandleCall(src, c));
    assert TakenInOrder(st') && Taken(st') == Taken(st) by {
      PostTaken(st, item);
    }
    assert KeysGrow(st'.line, st'.next) && AllTyped(fs, st'.line) by {
      KeysAppend(fs, st.line, st.next, src, c);
    }
    assert KeysApart(st') by {
      ApartCall(st, item);
    }
    assert st'.line[..Taken(st)] == st.line[..Taken(st)];
  }

  lemma StopKeys(fs: Functions, line: seq<Item>, next: int)
    requires KeysGrow(line, next) && AllTyped(fs, line)
    ensures KeysGrow(line + [Sentinel], next) && AllTyped(fs, line + [Sentinel])
  {
  }

  lemma StopKeeps(fs: Functions, obj0: Obj, st: State)
    requires Invariant(fs, obj0, st)
    ensures Invariant(fs, obj0, Next(fs, st, Stop))
  {
    var st' := Next(fs, st, Stop);
    PostTaken(st, Sentinel);
    StopKeys(fs, st.line, st.next);
    assert st'.line[..Taken(st)] == st.line[..Taken(st)];
    assert TakenInOrder(st');
  }

  /** The request at the head of the queue is that of the first item not taken yet. */
  lemma HeadOfQueue(st: State)
    requires TakenInOrder(st) && st.queue != []
    ensures Taken(st) < |st.line| && st.queue[0] == RequestOf(st.line[Taken(st)])
    ensures st.queue[1..] == Requests(st.line[Taken(st) + 1..])
  {
    var rest := st.line[Taken(st)..];
    assert rest[1..] == st.line[Taken(st) + 1..];
    assert Requests(rest)[1..] == Requests(rest[1..]);
  }

  lemma SequentialAppend(fs: Functions, obj: Obj, line: seq<Item>, n: nat)
    requires n < |line|
    ensures var before := Sequential(fs, obj, line[..n]);
            Sequential(fs, obj, line[..n + 1]) ==
            if line[n].Sentinel? then before
            else
              var r := LocalCall(fs, before.0, line[n].call);
              (r.0, before.1 + [Result(line[n].key, OutcomeBytes(r.1))])
  {
    assert line[..n + 1][..n] == line[..n];
  }

  lemma WorkTaken(fs: Functions, st: State)
    requires TakenInOrder(st) && Enabled(fs, st, Work)
    ensures TakenInOrder(Next(fs, st, Work)) && Taken(Next(fs, st, Work)) == Taken(st) + 1
  {
    HeadOfQueue(st);
    if st.line[Taken(st)].Sentinel? {
      BeforeStopIs(st.line, Taken(st));
    }
  }

  /** One round of the worker is one more local call. */
  lemma WorkResults(fs: Functions, obj0: Obj, st: State, n: nat)
    requires n < |st.line| && Enabled(fs, st, Work) && st.queue[0] == RequestOf(st.line[n])
    requires st.line[n].Posted? ==> Typed(fs, st.line[n].call)
    requires Sequential(fs, obj0, st.line[..n]) == (st.obj, Registered(st.events, st.drawn) + st.outbox)
    ensures var st' := Next(fs, st, Work);
            Sequential(fs, obj0, st.line[..n + 1]) == (st'.obj, Registered(st'.events, st'.drawn) + st'.outbox)
  {
    SequentialAppend(fs, obj0, st.line, n);
    var item := st.line[n];
    if item.Posted? {
      ExecuteIsLocalCall(fs, st.obj, item.call);
      var done := [Result(item.key, Execute(fs, st.obj, st.queue[0].msg).1)];
      assert Registered(st.events, st.drawn) + (st.outbox + done) == Registered(st.events, st.drawn) + st.outbox + done;
    }
  }

  lemma WorkKeeps(fs: Functions, obj0: Obj, st: State)
    requires Invariant(fs, obj0, st) && Enabled(fs, st, Work)
    ensures Invariant(fs, obj0, Next(fs, st, Work))
  {
    HeadOfQueue(st);
    WorkTaken(fs, st);
    WorkResults(fs, obj0, st, Taken(st));
    assert KeysApart(Next(fs, st, Work)) by {
      ApartKeeps(fs, st, Work);
    }
  }

  /** Keys stay apart. */
  lemma ApartKeeps(fs: Functions, st: State, a: Action)
    requires TakenInOrder(st) && KeysGrow(st.line, st.next) && KeysApart(st) && Enabled(fs, st, a)
    ensures KeysApart(Next(fs, st, a))
  {
    match a
    case HandleCall(src, c) => ApartCall(st, Posted(src, st.next, c));
    case TakeKey =>
    case Stop =>
    case Work => HeadOfQueue(st);
    case Deliver => ApartDeliver(fs, st);
    case Other(e) =>
  }

  lemma ApartCall(st: State, item: Item)
    requires KeysApart(st) && item.Posted? && item.key == st.next
    ensures KeysApart(Post(st, item).(next := st.next + 1, handed := st.handed + [(item.src, st.next)]))
  {
  }

  lemma ApartDeliver(fs: Functions, st: State)
    requires KeysApart(st) && Enabled(fs, st, Deliver)
    ensures KeysApart(Next(fs, st, Deliver))
  {
    var st' := Next(fs, st, Deliver);
    assert forall i :: 0 <= i < |st'.outbox| ==> st'.outbox[i] == st.outbox[i + 1];
  }

  lemma {:induction false} DrawnLater(events: seq<F.Event>, drawn: set<int>, k: int)
    requires forall i :: 0 <= i < |events| && events[i].Register? ==> events[i].key < k
    ensures Registered(events, drawn + {k}) == Registered(events, drawn)
    decreases |events|
  {
    if events != [] {
      DrawnLater(events[..|events| - 1], drawn, k);
    }
  }

  /** A registration moves from the worker's sends to the table. */
  lemma DeliverResults(events: seq<F.Event>, drawn: set<int>, outbox: seq<Result>)
    requires outbox != [] && outbox[0].key !in drawn
    ensures Registered(events + [F.Register(outbox[0].key, outbox[0].data)], drawn) + outbox[1..] ==
            Registered(events, drawn) + outbox
  {
    var e := F.Register(outbox[0].key, outbox[0].data);
    assert (events + [e])[..|events|] == events;
    assert outbox == [outbox[0]] + outbox[1..];
    ConcatAssociates(Registered(events, drawn), [outbox[0]], outbox[1..]);
  }

  lemma DeliverKeeps(fs: Functions, obj0: Obj, st: State)
    requires Invariant(fs, obj0, st) && Enabled(fs, st, Deliver)
    ensures Invariant(fs, obj0, Next(fs, st, Deliver))
  {
    DeliverResults(st.events, st.drawn, st.outbox);
    assert KeysApart(Next(fs, st, Deliver)) by {
      ApartKeeps(fs, st, Deliver);
    }
  }

  lemma TakeKeyKeeps(fs: Functions, obj0: Obj, st: State)
    requires Invariant(fs, obj0, st)
    ensures Invariant(fs, obj0, Next(fs, st, TakeKey))
  {
    DrawnLater(st.events, st.drawn, st.next);
    assert KeysApart(Next(fs, st, TakeKey)) by {
      ApartKeeps(fs, st, TakeKey);
    }
  }

  lemma OtherResults(events: seq<F.Event>, drawn: set<int>, e: F.Event)
    requires e.Register? ==> e.key in drawn
    ensures Registered(events + [e], drawn) == Registered(events, drawn)
  {
    assert (events + [e])[..|events|] == events;
  }

  lemma OtherKeeps(fs: Functions, obj0: Obj, st: State, e: F.Event)
    requires Invariant(fs, obj0, st) && Enabled(fs, st, Other(e))
    ensures Invariant(fs, obj0, Next(fs, st, Other(e)))
  {
    OtherResults(st.events, st.drawn, e);
    assert KeysApart(Next(fs, st, Other(e))) by {
      ApartKeeps(fs, st, Other(e));
    }
  }

  lemma StepKeeps(fs: Functions, obj0: Obj, st: State, a: Action)
    requires Invariant(fs, obj0, st) && Enabled(fs, st, a)
    ensures Invariant(fs, obj0, Next(fs, st, a))
  {
    match a
    case HandleCall(src, c) => CallKeeps(fs, obj0, st, src, c);
    case TakeKey => TakeKeyKeeps(fs, obj0, st);
    case Stop => StopKeeps(fs, obj0, st);
    case Work => WorkKeeps(fs, obj0, st);
    case Deliver => DeliverKeeps(fs, obj0, st);
    case Other(e) => OtherKeeps(fs, obj0, st, e);
  }

  lemma {:induction false} RunKeeps(fs: Functions, obj0: Obj, st: State, acts: seq<Action>)
    requires Invariant(fs, obj0, st) && Legal(fs, st, acts)
    ensures Invariant(fs, obj0, Run(fs, st, acts))
    decreases |acts|
  {
    if acts != [] {
      StepKeeps(fs, obj0, st, acts[0]);
      RunKeeps(fs, obj0, Next(fs, st, acts[0]), acts[1..]);
    }
  }

  lemma InvariantHolds(fs: Functions, obj0: Obj, acts: seq<Action>)
    requires Legal(fs, Init(obj0), acts)
    ensures Invariant(fs, obj0, Run(fs, Init(obj0), acts))
  {
    var st := Init(obj0);
    assert st.line[..0] == [] && Registered([], {}) + st.outbox == [];
    assert Sequential(fs, obj0, []) == (obj0, []);
    RunKeeps(fs, obj0, st, acts);
  }

  /** The calls that the worker has run. */
  function Done(st: State): seq<Item> {
    if st.run && 0 <= Taken(st) <= |st.line| then st.line[..Taken(st)] else BeforeStop(st.line)
  }

  lemma DoneResults(fs: Functions, obj0: Obj, st: State)
    requires Invariant(fs, obj0, st)
    ensures |Done(st)| <= |st.line| && Done(st) == st.line[..|Done(st)|]
    ensures forall i :: 0 <= i < |Done(st)| ==> Done(st)[i].Posted?
    ensures Sequential(fs, obj0, Done(st)) == (st.obj, Registered(st.events, st.drawn) + st.outbox)
  {
    if !st.run {
      StopAddsNothing(fs, obj0, st.line);
    }
  }

  lemma {:induction false} SequentialKeys(fs: Functions, obj: Obj, line: seq<Item>)
    requires forall i :: 0 <= i < |line| ==> line[i].Posted?
    ensures |Sequential(fs, obj, line).1| == |line|
    ensures forall i :: 0 <= i < |line| ==> Sequential(fs, obj, line).1[i].key == line[i].key
    decreases |line|
  {
    if line != [] {
      SequentialKeys(fs, obj, line[..|line| - 1]);
    }
  }

  lemma StopAddsNothing(fs: Functions, obj: Obj, line: seq<Item>)
    requires |BeforeStop(line)| < |line|
    ensures Sequential(fs, obj, line[..|BeforeStop(line)| + 1]) == Sequential(fs, obj, BeforeStop(line))
  {
    var n := |BeforeStop(line)|;
    assert line[..n + 1][..n] == BeforeStop(line) && line[..n + 1][n].Sentinel?;
  }

  lemma {:induction false} SequentialAt(fs: Functions, obj: Obj, line: seq<Item>, i: nat)
    requires i < |line| && forall k :: 0 <= k < |line| ==> line[k].Posted?
    ensures |Sequential(fs, obj, line).1| == |line|
    ensures var before := Sequential(fs, obj, line[..i]).0;
            Sequential(fs, obj, line).1[i] == Result(line[i].key, OutcomeBytes(LocalCall(fs, before, line[i].call).1))
    decreases |line|
  {
    var init := line[..|line| - 1];
    SequentialKeys(fs, obj, line);
    SequentialKeys(fs, obj, init);
    if i < |line| - 1 {
      SequentialAt(fs, obj, init, i);
      assert init[..i] == line[..i];
    }
  }

  // ----- the queue's log is what the actions post -----

  lemma {:induction false} RunSnoc(fs: Functions, st: State, acts: seq<Action>, a: Action)
    requires Legal(fs, st, acts + [a])
    ensures Legal(fs, st, acts) && Enabled(fs, Run(fs, st, acts), a)
    ensures Run(fs, st, acts + [a]) == Next(fs, Run(fs, st, acts), a)
    decreases |acts|
  {
    if acts == [] {
      assert acts + [a] == [a] && [a][1..] == [];
      assert Run(fs, Next(fs, st, a), []) == Next(fs, st, a);
    } else {
      assert (acts + [a])[0] == acts[0] && (acts + [a])[1..] == acts[1..] + [a];
      RunSnoc(fs, Next(fs, st, acts[0]), acts[1..], a);
    }
  }

  /** Over every run: the log of the queue, the key counter and the keys handed out are those of the actions. */
  lemma {:induction false} LineIsPosted(fs: Functions, obj0: Obj, acts: seq<Action>)
    requires Legal(fs, Init(obj0), acts)
    ensures var st := Run(fs, Init(obj0), acts);
            st.line == PostedBy(acts) && st.next == KeysDrawn(acts) && st.handed == KeysHanded(acts)
  {
    if acts != [] {
      var n := |acts| - 1;
      assert acts == acts[..n] + [acts[n]];
      RunSnoc(fs, Init(obj0), acts[..n], acts[n]);
      LineIsPosted(fs, obj0, acts[..n]);
      PostedStep(fs, Run(fs, Init(obj0), acts[..n]), acts);
    }
  }

  lemma PostedStep(fs: Functions, st: State, acts: seq<Action>)
    requires acts != [] && Enabled(fs, st, acts[|acts| - 1])
    requires var init := acts[..|acts| - 1];
             st.line == PostedBy(init) && st.next == KeysDrawn(init) && st.handed == KeysHanded(init)
    ensures var st' := Next(fs, st, acts[|acts| - 1]);
            st'.line == PostedBy(acts) && st'.next == KeysDrawn(acts) && st'.handed == KeysHanded(acts)
  {
    assert st.handed + [] == st.handed;
  }

  /** The other future messages among the actions. */
  function OthersOf(acts: seq<Action>): seq<F.Event> {
    if acts == [] then []
    else OthersOf(acts[..|acts| - 1]) + if acts[|acts| - 1].Other? then [acts[|acts| - 1].e] else []
  }

  /** The events that are not registrations of calls' results. */
  function NotResults(events: seq<F.Event>, drawn: set<int>): seq<F.Event> {
    if events == [] then []
    else
      var e := events[|events| - 1];
      NotResults(events[..|events| - 1], drawn) + if e.Register? && e.key !in drawn then [] else [e]
  }

  lemma {:induction false} OthersLater(events: seq<F.Event>, drawn: set<int>, k: int)
    requires forall i :: 0 <= i < |events| && events[i].Register? ==> events[i].key < k
    ensures NotResults(events, drawn + {k}) == NotResults(events, drawn)
  {
    if events != [] {
      OthersLater(events[..|events| - 1], drawn, k);
    }
  }

  lemma NotResultsOne(events: seq<F.Event>, e: F.Event, drawn: set<int>)
    ensures NotResults(events + [e], drawn) ==
            NotResults(events, drawn) + if e.Register? && e.key !in drawn then [] else [e]
  {
    assert (events + [e])[..|events|] == events;
  }

  /** The management thread handles the calls' registrations and the other future messages of the actions, each once
      and in order, and nothing else. */
  lemma {:induction false} OthersHandled(fs: Functions, obj0: Obj, acts: seq<Action>)
    requires Legal(fs, Init(obj0), acts)
    ensures var st := Run(fs, Init(obj0), acts);
            NotResults(st.events, st.drawn) == OthersOf(acts)
  {
    if acts != [] {
      var init, a := acts[..|acts| - 1], acts[|acts| - 1];
      assert acts == init + [a];
      RunSnoc(fs, Init(obj0), init, a);
      OthersHandled(fs, obj0, init);
      InvariantHolds(fs, obj0, init);
      OthersStep(fs, Run(fs, Init(obj0), init), a);
    }
  }

  lemma OthersStep(fs: Functions, st: State, a: Action)
    requires KeysApart(st) && Enabled(fs, st, a)
    ensures var st' := Next(fs, st, a);
            NotResults(st'.events, st'.drawn) == NotResults(st.events, st.drawn) + if a.Other? then [a.e] else []
  {
    var before := NotResults(st.events, st.drawn);
    assert before + [] == before;
    match a
    case TakeKey => OthersLater(st.events, st.drawn, st.next);
    case Deliver => NotResultsOne(st.events, F.Register(st.outbox[0].key, st.outbox[0].data), st.drawn);
    case Other(e) => NotResultsOne(st.events, e, st.drawn);
    case _ =>
  }

  lemma {:induction false} SequentialObject(fs: Functions, obj: Obj, acts: seq<Action>)
    ensures Sequential(fs, obj, PostedBy(acts)).0 == ObjectAfter(fs, obj, acts)
  {
    if acts != [] {
      var n := |acts| - 1;
      SequentialObject(fs, obj, acts[..n]);
      var before := PostedBy(acts[..n]);
      if acts[n].HandleCall? || acts[n].Stop? {
        assert PostedBy(acts)[..|before|] == before;
      }
    }
  }

  /** Where the call of action `k` stands in the queue's log. */
  lemma {:induction false} PostedAt(acts: seq<Action>, k: nat)
    requires k < |acts| && acts[k].HandleCall?
    ensures var place := |PostedBy(acts[..k])|;
            && place < |PostedBy(acts)| && PostedBy(acts)[..place] == PostedBy(acts[..k])
            && PostedBy(acts)[place] == Posted(acts[k].src, KeysDrawn(acts[..k]), acts[k].call)
    decreases |acts|
  {
    var n := |acts| - 1;
    if k < n {
      PostedAt(acts[..n], k);
      assert acts[..n][..k] == acts[..k];
    }
  }

  /** And its key among those handed out. */
  lemma {:induction false} HandedAt(acts: seq<Action>, k: nat)
    requires k < |acts| && acts[k].HandleCall?
    ensures var place := |KeysHanded(acts[..k])|;
            place < |KeysHanded(acts)| && KeysHanded(acts)[place] == (acts[k].src, KeysDrawn(acts[..k]))
    decreases |acts|
  {
    var n := |acts| - 1;
    if k < n {
      HandedAt(acts[..n], k);
      assert acts[..n][..k] == acts[..k];
    }
  }

  predicate NoStop(acts: seq<Action>) {
    forall i :: 0 <= i < |acts| ==> !acts[i].Stop?
  }

  predicate AllPosted(line: seq<Item>) {
    forall i :: 0 <= i < |line| ==> line[i].Posted?
  }

  lemma AllPostedAppend(line: seq<Item>, item: Item)
    ensures AllPosted(line + [item]) <==> AllPosted(line) && item.Posted?
  {
    assert (line + [item])[|line|] == item;
    assert forall i :: 0 <= i < |line| ==> (line + [item])[i] == line[i];
  }

  lemma NoStopAppend(acts: seq<Action>)
    requires acts != []
    ensures NoStop(acts) <==> NoStop(acts[..|acts| - 1]) && !acts[|acts| - 1].Stop?
  {
    assert acts == acts[..|acts| - 1] + [acts[|acts| - 1]];
  }

  lemma {:induction false} StopsPosted(acts: seq<Action>)
    ensures NoStop(acts) <==> AllPosted(PostedBy(acts))
  {
    if acts != [] {
      var init, a := acts[..|acts| - 1], acts[|acts| - 1];
      StopsPosted(init);
      NoStopAppend(acts);
      match a
      case HandleCall(src, c) => AllPostedAppend(PostedBy(init), Posted(src, KeysDrawn(init), c));
      case Stop => AllPostedAppend(PostedBy(init), Sentinel);
      case _ =>
    }
  }

  lemma {:induction false} BeforeStopReaches(line: seq<Item>, place: nat)
    requires place < |line| && line[place].Posted?
    ensures place < |BeforeStop(line)| <==> forall i :: 0 <= i < place ==> line[i].Posted?
  {
    if place < |BeforeStop(line)| {
      assert forall i :: 0 <= i < place ==> line[i] == BeforeStop(line)[i];
    } else {
      assert line[|BeforeStop(line)|].Sentinel?;
      assert |BeforeStop(line)| < place;
    }
  }

  // ----- the registrations under one key -----

  function DataFor(rs: seq<Result>, key: int): seq<seq<byte>> {
    if rs == [] then []
    else DataFor(rs[..|rs| - 1], key) + if rs[|rs| - 1].key == key then [rs[|rs| - 1].data] else []
  }

  lemma {:induction false} RegistrationsAreResults(events: seq<F.Event>, drawn: set<int>, key: int)
    requires key !in drawn
    ensures Registrations(events, key) == DataFor(Registered(events, drawn), key)
    decreases |events|
  {
    if events != [] {
      var n := |events| - 1;
      RegistrationsAreResults(events[..n], drawn, key);
      var before, e := Registered(events[..n], drawn), events[n];
      if e.Register? && e.key !in drawn {
        assert (before + [Result(e.key, e.data)])[..|before|] == before;
      } else {
        assert Registrations(events[..n], key) + [] == Registrations(events[..n], key);
      }
    }
  }

  ghost predicate DistinctKeys(rs: seq<Result>) {
    forall i, j :: 0 <= i < j < |rs| ==> rs[i].key != rs[j].key
  }

  lemma {:induction false} DataNowhere(rs: seq<Result>, key: int)
    requires forall i :: 0 <= i < |rs| ==> rs[i].key != key
    ensures DataFor(rs, key) == []
  {
    if rs != [] {
      DataNowhere(rs[..|rs| - 1], key);
    }
  }

  lemma {:induction false} DataOnce(rs: seq<Result>, place: nat)
    requires DistinctKeys(rs) && place < |rs|
    ensures DataFor(rs, rs[place].key) == [rs[place].data]
  {
    var n := |rs| - 1;
    if place == n {
      DataNowhere(rs[..n], rs[n].key);
    } else {
      DataOnce(rs[..n], place);
      assert rs[place].key != rs[n].key;
    }
  }

  /** The results of the calls run so far stand in the order of the log. */
  lemma ResultKeys(fs: Functions, obj0: Obj, st: State)
    requires Invariant(fs, obj0, st)
    ensures var rs := Registered(st.events, st.drawn) + st.outbox;
            && |rs| == |Done(st)| <= |st.line| && Done(st) == st.line[..|rs|]
            && forall i :: 0 <= i < |rs| ==> st.line[i].Posted? && rs[i].key == st.line[i].key
  {
    DoneResults(fs, obj0, st);
    SequentialKeys(fs, obj0, Done(st));
    assert forall i :: 0 <= i < |Done(st)| ==> Done(st)[i] == st.line[i];
  }

  lemma KeysDiffer(line: seq<Item>, next: int, rs: seq<Result>, place: nat)
    requires KeysGrow(line, next) && |rs| <= |line| && place < |line| && line[place].Posted?
    requires forall i :: 0 <= i < |rs| ==> line[i].Posted? && rs[i].key == line[i].key
    ensures DistinctKeys(rs) && forall i :: 0 <= i < |rs| && i != place ==> rs[i].key != line[place].key
  {
  }

  /** A call's result among them. */
  lemma ResultsSoFar(fs: Functions, obj0: Obj, st: State, place: nat)
    requires Invariant(fs, obj0, st) && place < |st.line| && st.line[place].Posted?
    ensures var rs := Registered(st.events, st.drawn) + st.outbox;
            && DistinctKeys(rs) && |rs| == |Done(st)|
            && (place < |rs| ==>
                  rs[place] == Result(st.line[place].key,
                    OutcomeBytes(LocalCall(fs, Sequential(fs, obj0, st.line[..place]).0, st.line[place].call).1)))
            && forall i :: 0 <= i < |rs| && i != place ==> rs[i].key != st.line[place].key
  {
    var done, rs := Done(st), Registered(st.events, st.drawn) + st.outbox;
    ResultKeys(fs, obj0, st);
    KeysDiffer(st.line, st.next, rs, place);
    if place < |rs| {
      DoneResults(fs, obj0, st);
      SequentialAt(fs, obj0, done, place);
      assert done[..place] == st.line[..place];
    }
  }

  /** The registrations under the key of a call in the log: nothing, or its local result once. */
  lemma RegisteredAtMostOnce(fs: Functions, obj0: Obj, st: State, place: nat)
    requires Invariant(fs, obj0, st) && place < |st.line| && st.line[place].Posted?
    ensures var call := st.line[place];
            var data := OutcomeBytes(LocalCall(fs, Sequential(fs, obj0, st.line[..place]).0, call.call).1);
            Registrations(st.events, call.key) ==
            if place < |Registered(st.events, st.drawn)| then [data] else []
  {
    var rs := Registered(st.events, st.drawn);
    ResultsSoFar(fs, obj0, st, place);
    RegistrationsAreResults(st.events, st.drawn, st.line[place].key);
    assert forall i :: 0 <= i < |rs| ==> rs[i] == (rs + st.outbox)[i];
    if place < |rs| {
      DataOnce(rs, place);
    } else {
      DataNowhere(rs, st.line[place].key);
    }
  }

  // ----- what the callers get -----

  /** The data that the future of call `k` should have: the call made locally on the object as the calls before it
      left it. */
  function FutureData(fs: Functions, obj0: Obj, acts: seq<Action>, k: nat): seq<byte>
    requires k < |acts| && acts[k].HandleCall?
  {
    OutcomeBytes(LocalCall(fs, ObjectAfter(fs, obj0, acts[..k]), acts[k].call).1)
  }

  /** Over every run, for every call handled: its caller is handed the key that was drawn for it, and under that key
      nothing is registered but that call's own local result, and that at most once. Once the worker has met the
      sentinel and its registrations are in, it is registered if and only if the call came before every stop. */
  lemma FutureOfCall(fs: Functions, obj0: Obj, acts: seq<Action>, k: nat)
    requires Legal(fs, Init(obj0), acts) && k < |acts| && acts[k].HandleCall?
    ensures var st, key, place := Run(fs, Init(obj0), acts), KeysDrawn(acts[..k]), |KeysHanded(acts[..k])|;
            && place < |st.handed| && st.handed[place] == (acts[k].src, key)
            && (Registrations(st.events, key) == [] || Registrations(st.events, key) == [FutureData(fs, obj0, acts, k)])
            && (!st.run && st.outbox == [] ==>
                  (Registrations(st.events, key) == [FutureData(fs, obj0, acts, k)] <==> NoStop(acts[..k])))
  {
    var st, place := Run(fs, Init(obj0), acts), |PostedBy(acts[..k])|;
    InvariantHolds(fs, obj0, acts);
    LineIsPosted(fs, obj0, acts);
    HandedAt(acts, k);
    PostedAt(acts, k);
    SequentialObject(fs, obj0, acts[..k]);
    RegisteredAtMostOnce(fs, obj0, st, place);
    if !st.run && st.outbox == [] {
      RunBeforeStop(fs, obj0, st, acts, k);
    }
  }

  /** At the end, the calls that were run are those before every stop. */
  lemma RunBeforeStop(fs: Functions, obj0: Obj, st: State, acts: seq<Action>, k: nat)
    requires Invariant(fs, obj0, st) && st.line == PostedBy(acts) && !st.run && st.outbox == []
    requires k < |acts| && acts[k].HandleCall?
    ensures |PostedBy(acts[..k])| < |Registered(st.events, st.drawn)| <==> NoStop(acts[..k])
  {
    var place := |PostedBy(acts[..k])|;
    PostedAt(acts, k);
    ResultKeys(fs, obj0, st);
    StopsPosted(acts[..k]);
    BeforeStopReaches(st.line, place);
    assert forall i :: 0 <= i < place ==> st.line[i] == PostedBy(acts[..k])[i];
  }

  /** At the end the registered results are those of the calls before the first stop, once each, in the order in which
      they were handled. */
  lemma CallsRunOnceInOrder(fs: Functions, obj0: Obj, acts: seq<Action>)
    requires Legal(fs, Init(obj0), acts)
    ensures var st := Run(fs, Init(obj0), acts);
            var line := BeforeStop(PostedBy(acts));
            !st.run && st.outbox == [] ==>
              && Registered(st.events, st.drawn) == Sequential(fs, obj0, line).1
              && |Registered(st.events, st.drawn)| == |line|
              && (forall i :: 0 <= i < |line| ==> Registered(st.events, st.drawn)[i].key == line[i].key)
  {
    InvariantHolds(fs, obj0, acts);
    LineIsPosted(fs, obj0, acts);
    var st := Run(fs, Init(obj0), acts);
    SequentialKeys(fs, obj0, BeforeStop(st.line));
    if !st.run && st.outbox == [] {
      DoneResults(fs, obj0, st);
      assert Registered(st.events, st.drawn) + [] == Registered(st.events, st.drawn);
    }
  }

  /** What a future's data should decode to. */
  ghost predicate IsLocalResult(fs: Functions, obj: Obj, c: Call, data: seq<byte>) {
    if c.name in fs then DeserializeAll(data, [fs[c.name].result]) == Some([fs[c.name].call(obj, c.args).1])
    else data == ERROR
  }

  lemma FutureDataDecodes(fs: Functions, obj0: Obj, acts: seq<Action>, k: nat)
    requires WellBehaved(fs) && k < |acts| && acts[k].HandleCall? && 0 !in acts[k].call.name
    ensures IsLocalResult(fs, ObjectAfter(fs, obj0, acts[..k]), acts[k].call, FutureData(fs, obj0, acts, k))
  {
    var c, obj := acts[k].call, ObjectAfter(fs, obj0, acts[..k]);
    CStringWhole(c.name);
    if c.name in fs {
      var v := fs[c.name].call(obj, c.args).1;
      assert HasKind(v, fs[c.name].result);
      RoundTrip([v], [fs[c.name].result], []);
      assert AllBytes([v]) + [] == UnitBytes(v);
    }
  }

  lemma {:induction false} RegisteredUnder(events: seq<F.Event>, key: int, data: seq<byte>)
    ensures F.Register(key, data) in events <==> data in Registrations(events, key)
    decreases |events|
  {
    if events != [] {
      RegisteredUnder(events[..|events| - 1], key, data);
      assert events == events[..|events| - 1] + [events[|events| - 1]];
    }
  }

  /** A remote call is a local call: at any moment of any run, whatever data is registered under the key that the caller
      of call `k` was handed decodes to what the function returns, for a registered function whose name has no NUL;
      and it is "error" for a name that is not registered. */
  lemma RemoteCallIsLocalCall(fs: Functions, obj0: Obj, acts: seq<Action>, k: nat, data: seq<byte>)
    requires WellBehaved(fs) && Legal(fs, Init(obj0), acts)
    requires k < |acts| && acts[k].HandleCall? && 0 !in acts[k].call.name
    requires F.Register(KeysDrawn(acts[..k]), data) in Run(fs, Init(obj0), acts).events
    ensures IsLocalResult(fs, ObjectAfter(fs, obj0, acts[..k]), acts[k].call, data)
  {
    FutureOfCall(fs, obj0, acts, k);
    RegisteredUnder(Run(fs, Init(obj0), acts).events, KeysDrawn(acts[..k]), data);
    FutureDataDecodes(fs, obj0, acts, k);
  }

  /** Readers are sent registered data only, so the same holds of every reply. */
  lemma RepliesAreLocalResults(fs: Functions, obj0: Obj, acts: seq<Action>, k: nat, i: nat)
    requires WellBehaved(fs) && Legal(fs, Init(obj0), acts)
    requires k < |acts| && acts[k].HandleCall? && 0 !in acts[k].call.name
    requires F.OneFetchAtATime(Run(fs, Init(obj0), acts).events)
    requires i < |F.AnsweredFor(F.Run(F.EMPTY, Run(fs, Init(obj0), acts).events).sent, KeysDrawn(acts[..k]))|
    ensures var replies := F.AnsweredFor(F.Run(F.EMPTY, Run(fs, Init(obj0), acts).events).sent, KeysDrawn(acts[..k]));
            IsLocalResult(fs, ObjectAfter(fs, obj0, acts[..k]), acts[k].call, replies[i].1)
  {
    var st, key := Run(fs, Init(obj0), acts), KeysDrawn(acts[..k]);
    F.ReadsAreConserved(st.events, key, 0);
    RemoteCallIsLocalCall(fs, obj0, acts, k, F.AnsweredFor(F.Run(F.EMPTY, st.events).sent, key)[i].1);
  }
}

/** The same as objects: the management thread's part in handling a call, the request queue, and the worker's loop. */
module ActorProcess {
  import opened Bytes
  import opened Serialization
  import opened CallMessage
  import opened CallPath
  import F = Futures

  /** The object and the results after running the requests in order. */
  function Drain(fs: Functions, obj: Obj, reqs: seq<Request>): (Obj, seq<Result>)
    decreases |reqs|
  {
    if reqs == [] then (obj, [])
    else
      var before, last := Drain(fs, obj, reqs[..|reqs| - 1]), reqs[|reqs| - 1];
      var r := Execute(fs, before.0, last.msg);
      (r.0, before.1 + [Result(last.key, r.1)])
  }

  /** Running queued calls is calling them locally, one after the other. */
  lemma {:induction false} DrainIsSequential(fs: Functions, obj: Obj, line: seq<Item>)
    requires AllTyped(fs, line) && forall i :: 0 <= i < |line| ==> line[i].Posted?
    ensures Drain(fs, obj, Requests(line)) == Sequential(fs, obj, line)
    decreases |line|
  {
    if line != [] {
      var init, last := line[..|line| - 1], line[|line| - 1];
      DrainIsSequential(fs, obj, init);
      assert Requests(line)[..|line| - 1] == Requests(init);
      ExecuteIsLocalCall(fs, Sequential(fs, obj, init).0, last.call);
    }
  }

  lemma DrainAppend(fs: Functions, obj: Obj, reqs: seq<Request>, i: nat)
    requires i < |reqs|
    ensures var before := Drain(fs, obj, reqs[..i]);
            var r := Execute(fs, before.0, reqs[i].msg);
            Drain(fs, obj, reqs[..i + 1]) == (r.0, before.1 + [Result(reqs[i].key, r.1)])
  {
    assert reqs[..i + 1][..i] == reqs[..i];
  }

  /** The place of the first sentinel, or the end of the queue. */
  function StopAt(reqs: seq<Request>): (k: nat)
    ensures k <= |reqs| && (k < |reqs| ==> reqs[k].src == -1)
    ensures forall i :: 0 <= i < k ==> reqs[i].src != -1
  {
    if reqs == [] || reqs[0].src == -1 then 0 else 1 + StopAt(reqs[1..])
  }

  class Process {
    const functions: Functions
    /** The key counter. */
    var next: int
    /** The request queue. */
    var messages: seq<Request>
    /** The worker's flag and object. */
    var run: bool
    var obj: Obj
    /** Registrations sent to this process's own management thread. */
    var outbox: seq<Result>
    ghost var handed: seq<(nat, int)>
    ghost var events: seq<F.Event>
    ghost var line: seq<Item>
    ghost var drawn: set<int>

    ghost function View(): State
      reads this
    {
      State(next, messages, run, obj, outbox, handed, events, line, drawn)
    }

    constructor (fs: Functions, start: Obj)
      ensures functions == fs && View() == Init(start)
    {
      functions, next, messages, run, obj, outbox := fs, 0, [], true, start, [];
      handed, events, line, drawn := [], [], [], {};
    }

    method TakeKey() returns (key: int)
      modifies this`next
      ensures key == old(next) && next == old(next) + 1
    {
      key := next;
      next := next + 1;
    }

    /** A key for a future that the management thread registers itself. */
    method DrawKey() returns (key: int)
      modifies this
      ensures View() == Next(functions, old(View()), Action.TakeKey) && key == old(next) && key in drawn
    {
      key := TakeKey();
      drawn := drawn + {key};
    }

    method PostMessage(req: Request)
      modifies this`messages
      ensures messages == old(messages) + [req]
    {
      messages := messages + [req];
    }

    /** Called when its wait for a message is over. */
    method GetNextMessage() returns (req: Request)
      requires messages != []
      modifies this`messages
      ensures req == old(messages[0]) && messages == old(messages[1..])
    {
      req := messages[0];
      messages := messages[1..];
    }

    /** `handleCallActorMessage`: the caller is handed the key under which the result will be registered. */
    method HandleCallActorMessage(src: nat, ghost c: Call, msg: seq<byte>) returns (key: int)
      requires Typed(functions, c) && msg == Message(c.name, 0, AllBytes(c.args))
      modifies this
      ensures View() == Next(functions, old(View()), HandleCall(src, c))
      ensures handed == old(handed) + [(src, key)]
    {
      key := TakeKey();
      PostMessage(Request(src, key, msg));
      handed := handed + [(src, key)];
      line := line + [Posted(src, key, c)];
    }

    method StopActor()
      modifies this
      ensures View() == Next(functions, old(View()), Stop)
    {
      PostMessage(Request(-1, 0, []));
      line := line + [Sentinel];
    }

    /** `reportResult` goes by the request's key; the key inside the message is always 0. */
    method ReportResult(req: Request, data: seq<byte>)
      modifies this`outbox
      ensures outbox == old(outbox) + [Result(req.key, data)]
    {
      outbox := outbox + [Result(req.key, data)];
    }

    method CallFunction(msg: seq<byte>) returns (serial: seq<byte>)
      requires Readable(msg)
      modifies this`obj
      ensures (obj, serial) == Execute(functions, old(obj), msg)
    {
      var name := FunctionName(msg);
      if name in functions {
        var args := DeserializeAll(Args(msg), functions[name].kinds);
        if args.Some? {
          var r := functions[name].call(obj, args.value);
          obj, serial := r.0, UnitBytes(r.1);
        } else {
          serial := [];
        }
      } else {
        serial := ERROR;
      }
    }

    /** One round: call the function and report what it returns. */
    method RunRequest(req: Request) returns (serial: seq<byte>)
      requires Readable(req.msg)
      modifies this`obj, this`outbox
      ensures (obj, serial) == Execute(functions, old(obj), req.msg)
      ensures outbox == old(outbox) + [Result(req.key, serial)]
    {
      serial := CallFunction(req.msg);
      ReportResult(req, serial);
    }

    /** `master_loop`, until it meets the sentinel or has to wait for a message: everything before the sentinel is run,
        nothing behind it. */
    method MasterLoop()
      requires run && forall i :: 0 <= i < StopAt(messages) ==> Readable(messages[i].msg)
      modifies this`messages, this`run, this`obj, this`outbox
      ensures var k := StopAt(old(messages));
              && run == (k == |old(messages)|)
              && messages == (if run then [] else old(messages)[k + 1..])
              && obj == Drain(functions, old(obj), old(messages)[..k]).0
              && outbox == old(outbox) + Drain(functions, old(obj), old(messages)[..k]).1
    {
      ghost var queue, stop, i, results := messages, StopAt(messages), 0, [];
      while run || messages != []
        invariant run && 0 <= i <= stop && messages == queue[i..]
        invariant (obj, results) == Drain(functions, old(obj), queue[..i]) && outbox == old(outbox) + results
        decreases |messages|
      {
        if messages == [] {
          assert i == stop == |queue|;
          break;
        }
        var req := GetNextMessage();
        assert req == queue[i] && messages == queue[i + 1..];
        if req.src == -1 {
          assert i == stop;
          run := false;
          break;
        }
        assert i < stop && queue[i].src != -1;
        DrainAppend(functions, old(obj), queue, i);
        var serial := RunRequest(req);
        results := results + [Result(req.key, serial)];
        i := i + 1;
      }
    }
  }
}
