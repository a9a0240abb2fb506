/** Worker threads reading parts from the store that the management thread fills, one memory access at a time:
    the mutex, the condition variable, the byte-by-byte copies and spurious wake-ups are all explicit, and the
    threads interleave freely. */
module ResultMonitor {
  import opened Bytes
  import opened PartStore
  import PS = PartStore

  /** A call of `readStoredResult(buf, key, offset, size)`. */
  datatype Read = Read(key: int, offset: nat, size: nat)

  datatype Worker =
    | Idle
    | WantsLock(read: Read)
    | Looking(read: Read)
    | Asleep(read: Read)
    | Woken(read: Read)
    | Copying(read: Read, buf: seq<byte>)
    | Done(read: Read, result: Option<seq<byte>>)

  /** The management thread: outside, or holding the lock before its change, in the middle of a copy, after the
      change, or about to unlock; or reading parts for others, with or without a check of the bounds; or gone from
      the handler without unlocking. */
  datatype Manager =
    | Outside
    | Holding(op: Op)
    | Filling(op: Op, copied: nat)
    | Changed(op: Op)
    | Serving(asked: seq<Read>, checked: bool)
    | Leaving
    | Gone

  datatype Owner = Nobody | TheManager | TheWorker(id: int)

  /** `parts` is the memory; `spec` the store as if each operation happened at once; `published` every complete
      part there has been. The last two record history. */
  datatype State = State(parts: Parts, lock: Owner, manager: Manager, workers: map<int, Worker>,
                         spec: Parts, published: set<(int, seq<byte>)>)

  datatype Action =
    | ManagerLock(op: Op)
    | ManagerServe(asked: seq<Read>, checked: bool)
    | ManagerStep
    | Call(id: int, read: Read)
    | WorkerStep(id: int)
    | SpuriousWakeup(id: int)

  const START := State(map[], Nobody, Outside, map[], map[], {})

  /** The operations that the management thread performs on the store. */
  predicate ServerOp(op: Op) {
    !op.StoreVector?
  }

  /** Those it follows with a broadcast. */
  predicate Announces(op: Op) {
    op.StoreMessage? || op.AddData?
  }

  predicate Enabled(s: State, act: Action) {
    match act
    case ManagerLock(op) => s.manager.Outside? && s.lock.Nobody? && ServerOp(op) && Legal(s.parts, op)
    case ManagerServe(_, _) => s.manager.Outside? && s.lock.Nobody?
    case ManagerStep => !s.manager.Outside? && !s.manager.Gone?
    case Call(id, _) => id in s.workers ==> s.workers[id].Idle? || s.workers[id].Done?
    case WorkerStep(id) =>
      id in s.workers && (match s.workers[id]
        case WantsLock(_) => s.lock.Nobody?
        case Woken(_) => s.lock.Nobody?
        case Looking(_) => true
        case Copying(_, _) => true
        case _ => false)
    case SpuriousWakeup(id) => id in s.workers && s.workers[id].Asleep?
  }

  function Wake(w: Worker): Worker {
    if w.Asleep? then Woken(w.read) else w
  }

  function WakeAll(ws: map<int, Worker>): map<int, Worker> {
    map t | t in ws :: Wake(ws[t])
  }

  /** The change is complete: in the history it happens now. */
  function Complete(s: State, parts: Parts, op: Op): State {
    var spec := if Legal(s.spec, op) then Apply(s.spec, op) else s.spec;
    s.(parts := parts, manager := Changed(op), spec := spec,
       published := s.published + if Ready(spec, op.key) then {(op.key, spec[op.key].bytes)} else {})
  }

  function StepManager(s: State): State {
    match s.manager
    case Outside => s
    case Holding(op) =>
      if op.AddData? then s.(manager := Filling(op, 0))
      else Complete(s, if Legal(s.parts, op) then Apply(s.parts, op) else s.parts, op)
    case Filling(op, copied) =>
      if !op.AddData? || op.key !in s.parts then s
      else
        var c := s.parts[op.key];
        if copied < |op.data| && op.offset + copied < |c.bytes| then
          s.(parts := s.parts[op.key := c.(bytes := c.bytes[op.offset + copied := op.data[copied]])],
             manager := Filling(op, copied + 1))
        else
          var remaining := if |op.data| <= c.remaining then c.remaining - |op.data| else 0;
          Complete(s, s.parts[op.key := c.(remaining := remaining)], op)
    case Changed(op) =>
      if Announces(op) then s.(workers := WakeAll(s.workers), manager := Leaving) else s.(manager := Leaving)
    case Serving(asked, checked) =>
      if asked == [] then s.(manager := Leaving)
      else if checked && PastTheEnd(s.parts, asked[0]) then s.(manager := Gone)
      else s.(manager := Serving(asked[1..], checked))
    case Leaving => s.(manager := Outside, lock := Nobody)
    case Gone => s
  }

  /** The part is there, and shorter than what is asked of it. */
  predicate PastTheEnd(parts: Parts, r: Read) {
    Ready(parts, r.key) && r.offset + r.size > |parts[r.key].bytes|
  }

  function StepWorker(s: State, id: int): State
    requires id in s.workers
  {
    match s.workers[id]
    case WantsLock(r) => s.(lock := TheWorker(id), workers := s.workers[id := Looking(r)])
    case Woken(r) => s.(lock := TheWorker(id), workers := s.workers[id := Looking(r)])
    case Looking(r) =>
      (match GetPartData(s.parts, r.key)
       case None => s.(lock := Nobody, workers := s.workers[id := Asleep(r)])
       case Some(data) =>
         if r.offset + r.size > |data| then s.(lock := Nobody, workers := s.workers[id := Done(r, None)])
         else s.(workers := s.workers[id := Copying(r, [])]))
    case Copying(r, buf) =>
      if |buf| < r.size && r.key in s.parts && r.offset + |buf| < |s.parts[r.key].bytes| then
        s.(workers := s.workers[id := Copying(r, buf + [s.parts[r.key].bytes[r.offset + |buf|]])])
      else s.(lock := Nobody, workers := s.workers[id := Done(r, Some(buf))])
    case _ => s
  }

  function Do(s: State, act: Action): State
    requires Enabled(s, act)
  {
    match act
    case ManagerLock(op) => s.(lock := TheManager, manager := Holding(op))
    case ManagerServe(asked, checked) => s.(lock := TheManager, manager := Serving(asked, checked))
    case ManagerStep => StepManager(s)
    case Call(id, read) => s.(workers := s.workers[id := WantsLock(read)])
    case WorkerStep(id) => StepWorker(s, id)
    case SpuriousWakeup(id) => s.(workers := s.workers[id := Woken(s.workers[id].read)])
  }

  // ----- the invariant -----

  predicate InSection(w: Worker) {
    w.Looking? || w.Copying?
  }

  /** The lock is held exactly by the thread inside its critical section. */
  ghost predicate LockRight(s: State) {
    && (s.lock.TheManager? <==> !s.manager.Outside?)
    && (forall t :: t in s.workers && InSection(s.workers[t]) ==> s.lock == TheWorker(t))
    && (s.lock.TheWorker? ==> s.lock.id in s.workers && InSection(s.workers[s.lock.id]))
  }

  /** Outside of a copy the memory is the atomic store; inside, it differs by the bytes copied so far. */
  ghost predicate MemoryRight(s: State) {
    match s.manager
    case Filling(op, copied) =>
      && op.AddData? && Legal(s.spec, op) && copied <= |op.data|
      && var c := s.spec[op.key];
         s.parts == s.spec[op.key := c.(bytes := Splice(c.bytes, op.offset, op.data[..copied]))]
    case Holding(op) => s.parts == s.spec && ServerOp(op) && Legal(s.spec, op)
    case Changed(op) => s.parts == s.spec && ServerOp(op)
    case _ => s.parts == s.spec
  }

  ghost predicate PublishedRight(s: State) {
    forall k :: Ready(s.spec, k) ==> (k, s.spec[k].bytes) in s.published
  }

  /** What each worker may rely on. */
  ghost predicate WorkerRight(s: State, w: Worker) {
    match w
    case Copying(r, buf) =>
      && Ready(s.parts, r.key) && r.offset + r.size <= |s.parts[r.key].bytes|
      && |buf| <= r.size && buf == s.parts[r.key].bytes[r.offset..r.offset + |buf|]
    case Asleep(r) => Ready(s.parts, r.key) ==> s.manager.Changed? && Announces(s.manager.op)
    case Done(r, result) => Answered(s, r, result)
    case _ => true
  }

  /** A finished read got a slice of one complete version of the part, or was refused because it reached past
      the end of one. */
  ghost predicate Answered(s: State, r: Read, result: Option<seq<byte>>) {
    exists data :: (r.key, data) in s.published && ReadOf(r, data, result)
  }

  predicate ReadOf(r: Read, data: seq<byte>, result: Option<seq<byte>>) {
    if result.Some? then r.offset + r.size <= |data| && result.value == data[r.offset..r.offset + r.size]
    else r.offset + r.size > |data|
  }

  ghost predicate WorkersRight(s: State) {
    forall t :: t in s.workers ==> WorkerRight(s, s.workers[t])
  }

  ghost predicate Invariant(s: State) {
    LockRight(s) && MemoryRight(s) && PublishedRight(s) && WorkersRight(s)
  }

  lemma AnsweredStays(s: State, s': State, r: Read, result: Option<seq<byte>>)
    requires Answered(s, r, result) && s.published <= s'.published
    ensures Answered(s', r, result)
  {
    var data :| (r.key, data) in s.published && ReadOf(r, data, result);
    assert (r.key, data) in s'.published;
  }

  // ----- the management thread keeps it -----

  lemma LockKeeps(s: State, op: Op)
    requires Invariant(s) && Enabled(s, ManagerLock(op))
    ensures Invariant(Do(s, ManagerLock(op)))
  {
    var s' := Do(s, ManagerLock(op));
    forall t | t in s'.workers
      ensures WorkerRight(s', s'.workers[t])
    {
      var w := s.workers[t];
      assert WorkerRight(s, w);
      if w.Done? {
        AnsweredStays(s, s', w.read, w.result);
      }
    }
  }

  lemma ServeKeeps(s: State, asked: seq<Read>, checked: bool)
    requires Invariant(s) && Enabled(s, ManagerServe(asked, checked))
    ensures Invariant(Do(s, ManagerServe(asked, checked)))
  {
    var s' := Do(s, ManagerServe(asked, checked));
    forall t | t in s'.workers
      ensures WorkerRight(s', s'.workers[t])
    {
      var w := s.workers[t];
      assert WorkerRight(s, w);
      if w.Done? {
        AnsweredStays(s, s', w.read, w.result);
      }
    }
  }

  lemma ServingKeeps(s: State)
    requires Invariant(s) && s.manager.Serving?
    ensures Invariant(StepManager(s))
  {
    forall t | t in s.workers && s.workers[t].Asleep?
      ensures !Ready(s.parts, s.workers[t].read.key)
    {
      assert WorkerRight(s, s.workers[t]);
    }
    OthersKeep(s, StepManager(s));
  }

  lemma StartFillKeeps(s: State)
    requires Invariant(s) && s.manager.Holding? && s.manager.op.AddData?
    ensures Invariant(StepManager(s))
  {
    var op, s' := s.manager.op, StepManager(s);
    assert Splice(s.spec[op.key].bytes, op.offset, op.data[..0]) == s.spec[op.key].bytes;
    assert s.spec[op.key := s.spec[op.key]] == s.spec;
    OthersKeep(s, s');
  }

  /** A step of the manager that makes no part ready and leaves the history alone. */
  lemma OthersKeep(s: State, s': State)
    requires Invariant(s) && !s.manager.Outside?
    requires s'.workers == s.workers && s'.published >= s.published
    requires forall t :: t in s.workers && s.workers[t].Asleep? && Ready(s'.parts, s.workers[t].read.key) ==>
               s'.manager.Changed? && Announces(s'.manager.op)
    ensures WorkersRight(s')
  {
    forall t | t in s'.workers
      ensures WorkerRight(s', s'.workers[t])
    {
      var w := s.workers[t];
      assert WorkerRight(s, w);
      if w.Done? {
        AnsweredStays(s, s', w.read, w.result);
      }
    }
  }

  lemma FillByteKeeps(s: State)
    requires Invariant(s) && s.manager.Filling? && s.manager.copied < |s.manager.op.data|
    ensures Invariant(StepManager(s))
  {
    var op, i, s' := s.manager.op, s.manager.copied, StepManager(s);
    var base := s.spec[op.key];
    assert Splice(base.bytes, op.offset, op.data[..i])[op.offset + i := op.data[i]]
        == Splice(base.bytes, op.offset, op.data[..i + 1]);
    assert s'.parts == s.spec[op.key := base.(bytes := Splice(base.bytes, op.offset, op.data[..i + 1]))];
    assert !Ready(s'.parts, op.key);
    OthersKeep(s, s');
  }

  lemma FillEndKeeps(s: State)
    requires Invariant(s) && s.manager.Filling? && s.manager.copied == |s.manager.op.data|
    ensures Invariant(StepManager(s))
  {
    var op, s' := s.manager.op, StepManager(s);
    assert op.data[..|op.data|] == op.data;
    assert s'.spec == Apply(s.spec, op);
    assert s'.parts == s'.spec;
    OthersKeep(s, s');
  }

  lemma ApplyKeeps(s: State)
    requires Invariant(s) && s.manager.Holding? && !s.manager.op.AddData?
    ensures Invariant(StepManager(s))
  {
    var op, s' := s.manager.op, StepManager(s);
    assert s'.parts == s'.spec == Apply(s.spec, op);
    assert !Announces(op) ==> !Ready(s'.parts, op.key);
    OthersKeep(s, s');
  }

  lemma BroadcastKeeps(s: State)
    requires Invariant(s) && (s.manager.Changed? || s.manager.Leaving?)
    ensures Invariant(StepManager(s))
  {
    var s' := StepManager(s);
    forall t | t in s'.workers
      ensures WorkerRight(s', s'.workers[t])
    {
      var w := s.workers[t];
      assert WorkerRight(s, w);
      if w.Done? {
        AnsweredStays(s, s', w.read, w.result);
      }
    }
  }

  // ----- a worker keeps it -----

  lemma WorkerKeepsOthers(s: State, s': State, id: int)
    requires Invariant(s) && id in s.workers
    requires id in s'.workers && s'.workers == s.workers[id := s'.workers[id]]
    requires s'.parts == s.parts && s'.manager == s.manager && s'.spec == s.spec && s'.published == s.published
    requires WorkerRight(s', s'.workers[id])
    ensures WorkersRight(s')
  {
    forall t | t in s'.workers
      ensures WorkerRight(s', s'.workers[t])
    {
      if t != id {
        var w := s.workers[t];
        assert WorkerRight(s, w);
        if w.Done? {
          AnsweredStays(s, s', w.read, w.result);
        }
      }
    }
  }

  lemma LookKeeps(s: State, id: int)
    requires Invariant(s) && id in s.workers && s.workers[id].Looking?
    ensures Invariant(StepWorker(s, id))
  {
    var r, s' := s.workers[id].read, StepWorker(s, id);
    assert s.lock == TheWorker(id) && s.manager.Outside?;
    if Ready(s.parts, r.key) {
      var data := s.parts[r.key].bytes;
      assert (r.key, data) in s.published;
      if r.offset + r.size <= |data| {
        assert data[r.offset..r.offset + 0] == [];
      } else {
        assert Answered(s', r, None);
      }
    }
    WorkerKeepsOthers(s, s', id);
  }

  lemma CopyKeeps(s: State, id: int)
    requires Invariant(s) && id in s.workers && s.workers[id].Copying?
    ensures Invariant(StepWorker(s, id))
  {
    var r, buf, s' := s.workers[id].read, s.workers[id].buf, StepWorker(s, id);
    assert s.lock == TheWorker(id) && s.manager.Outside?;
    assert WorkerRight(s, s.workers[id]);
    var data := s.parts[r.key].bytes;
    if |buf| < r.size {
      assert buf + [data[r.offset + |buf|]] == data[r.offset..r.offset + |buf| + 1];
    } else {
      assert (r.key, data) in s.published;
      assert Answered(s', r, Some(buf));
    }
    WorkerKeepsOthers(s, s', id);
  }

  lemma EnterKeeps(s: State, id: int)
    requires Invariant(s) && Enabled(s, WorkerStep(id)) && (s.workers[id].WantsLock? || s.workers[id].Woken?)
    ensures Invariant(StepWorker(s, id))
  {
    WorkerKeepsOthers(s, StepWorker(s, id), id);
  }

  lemma CallKeeps(s: State, id: int, read: Read)
    requires Invariant(s) && Enabled(s, Call(id, read))
    ensures Invariant(Do(s, Call(id, read)))
  {
    var s' := Do(s, Call(id, read));
    forall t | t in s'.workers
      ensures WorkerRight(s', s'.workers[t])
    {
      if t != id {
        var w := s.workers[t];
        assert WorkerRight(s, w);
        if w.Done? {
          AnsweredStays(s, s', w.read, w.result);
        }
      }
    }
  }

  lemma DoKeeps(s: State, act: Action)
    requires Invariant(s) && Enabled(s, act)
    ensures Invariant(Do(s, act))
  {
    match act
    case ManagerLock(op) => LockKeeps(s, op);
    case ManagerServe(asked, checked) => ServeKeeps(s, asked, checked);
    case ManagerStep =>
      match s.manager {
        case Outside =>
        case Holding(op) => if op.AddData? { StartFillKeeps(s); } else { ApplyKeeps(s); }
        case Filling(op, copied) => if copied < |op.data| { FillByteKeeps(s); } else { FillEndKeeps(s); }
        case Changed(_) => BroadcastKeeps(s);
        case Serving(_, _) => ServingKeeps(s);
        case Leaving => BroadcastKeeps(s);
        case Gone =>
      }
    case Call(id, read) => CallKeeps(s, id, read);
    case WorkerStep(id) =>
      match s.workers[id] {
        case Looking(_) => LookKeeps(s, id);
        case Copying(_, _) => CopyKeeps(s, id);
        case WantsLock(_) => EnterKeeps(s, id);
        case Woken(_) => EnterKeeps(s, id);
      }
    case SpuriousWakeup(id) => WorkerKeepsOthers(s, Do(s, act), id);
  }

  // ----- every run -----

  predicate Possible(s: State, acts: seq<Action>)
    decreases |acts|
  {
    acts == [] || (Enabled(s, acts[0]) && Possible(Do(s, acts[0]), acts[1..]))
  }

  function Run(s: State, acts: seq<Action>): State
    requires Possible(s, acts)
    decreases |acts|
  {
    if acts == [] then s else Run(Do(s, acts[0]), acts[1..])
  }

  lemma {:induction false} RunKeeps(s: State, acts: seq<Action>)
    requires Invariant(s) && Possible(s, acts)
    ensures Invariant(Run(s, acts))
    decreases |acts|
  {
    if acts != [] {
      DoKeeps(s, acts[0]);
      RunKeeps(Do(s, acts[0]), acts[1..]);
    }
  }

  lemma {:induction false} RunSnoc(s: State, acts: seq<Action>, a: Action)
    requires Possible(s, acts + [a])
    ensures Possible(s, acts) && Enabled(Run(s, acts), a) && Run(s, acts + [a]) == Do(Run(s, acts), a)
    decreases |acts|
  {
    if acts == [] {
      assert acts + [a] == [a] && [a][1..] == [];
      assert Run(Do(s, a), []) == Do(s, a);
    } else {
      assert (acts + [a])[0] == acts[0] && (acts + [a])[1..] == acts[1..] + [a];
      RunSnoc(Do(s, acts[0]), acts[1..], a);
    }
  }

  // ----- the operations that the manager has performed -----

  /** The manager's steps from taking the lock to the end of the change: one per byte of a copy, and its start and
      end. */
  function StepsFor(op: Op): nat {
    if op.AddData? then |op.data| + 2 else 1
  }

  /** The operations whose change is complete, and the one under way with the steps that it still needs. */
  datatype Progress = Progress(done: seq<Op>, current: Option<(Op, nat)>)

  function ProgressOf(acts: seq<Action>): Progress {
    if acts == [] then Progress([], None) else NextProgress(ProgressOf(acts[..|acts| - 1]), acts[|acts| - 1])
  }

  function NextProgress(p: Progress, a: Action): Progress {
    match a
    case ManagerLock(op) => p.(current := Some((op, StepsFor(op))))
    case ManagerStep =>
      if p.current.None? then p
      else if p.current.value.1 <= 1 then Progress(p.done + [p.current.value.0], None)
      else p.(current := Some((p.current.value.0, p.current.value.1 - 1)))
    case _ => p
  }

  /** The manager's operations so far, in order. */
  function Performed(acts: seq<Action>): seq<Op> {
    ProgressOf(acts).done
  }

  lemma {:induction false} StoreRunSnoc(parts: Parts, ops: seq<Op>, op: Op)
    requires LegalRun(parts, ops) && Legal(PS.Run(parts, ops), op)
    ensures LegalRun(parts, ops + [op]) && PS.Run(parts, ops + [op]) == Apply(PS.Run(parts, ops), op)
    decreases |ops|
  {
    if ops == [] {
      assert ops + [op] == [op] && [op][1..] == [];
    } else {
      assert (ops + [op])[0] == ops[0] && (ops + [op])[1..] == ops[1..] + [op];
      StoreRunSnoc(Apply(parts, ops[0]), ops[1..], op);
    }
  }

  /** The manager stands where its steps since the lock say. */
  predicate InProgress(m: Manager, current: Option<(Op, nat)>) {
    match m
    case Holding(op) => current == Some((op, StepsFor(op)))
    case Filling(op, copied) => op.AddData? && copied <= |op.data| && current == Some((op, |op.data| - copied + 1))
    case _ => current.None?
  }

  /** The history is the atomic store after the operations performed. */
  ghost predicate HistoryRight(s: State, p: Progress) {
    InProgress(s.manager, p.current) && LegalRun(map[], p.done) && s.spec == PS.Run(map[], p.done)
  }

  lemma HistoryStep(s: State, p: Progress, a: Action)
    requires Invariant(s) && Enabled(s, a) && HistoryRight(s, p)
    ensures HistoryRight(Do(s, a), NextProgress(p, a))
  {
    if a.ManagerStep? && p.current.Some? && p.current.value.1 <= 1 {
      StoreRunSnoc(map[], p.done, p.current.value.0);
    }
  }

  lemma {:induction false} HistoryHolds(acts: seq<Action>)
    requires Possible(START, acts)
    ensures HistoryRight(Run(START, acts), ProgressOf(acts))
  {
    if acts != [] {
      var init, a := acts[..|acts| - 1], acts[|acts| - 1];
      assert acts == init + [a];
      RunSnoc(START, init, a);
      HistoryHolds(init);
      RunKeeps(START, init);
      HistoryStep(Run(START, init), ProgressOf(init), a);
    }
  }

  // ----- the versions that were published -----

  /** `data` was the complete content of part `k` after some of the operations. */
  ghost predicate Version(ops: seq<Op>, k: int, data: seq<byte>) {
    exists j: nat :: VersionAt(ops, j, k, data)
  }

  ghost predicate VersionAt(ops: seq<Op>, j: nat, k: int, data: seq<byte>) {
    j <= |ops| && LegalRun(map[], ops[..j]) && GetPartData(PS.Run(map[], ops[..j]), k) == Some(data)
  }

  ghost predicate PublishedExactly(s: State, ops: seq<Op>) {
    forall k, data :: (k, data) in s.published <==> Version(ops, k, data)
  }

  /** One more operation adds the versions that it leaves. */
  lemma VersionsGrow(ops: seq<Op>, op: Op, k: int, data: seq<byte>)
    requires LegalRun(map[], ops + [op])
    ensures Version(ops + [op], k, data) <==>
            Version(ops, k, data) || GetPartData(PS.Run(map[], ops + [op]), k) == Some(data)
  {
    var all := ops + [op];
    if Version(all, k, data) {
      var j: nat :| VersionAt(all, j, k, data);
      if j <= |ops| {
        assert all[..j] == ops[..j];
        assert VersionAt(ops, j, k, data);
      } else {
        assert all[..j] == all;
      }
    }
    if Version(ops, k, data) {
      var j: nat :| VersionAt(ops, j, k, data);
      assert all[..j] == ops[..j];
      assert VersionAt(all, j, k, data);
    }
    if GetPartData(PS.Run(map[], all), k) == Some(data) {
      assert all[..|all|] == all;
      assert VersionAt(all, |all|, k, data);
    }
  }

  lemma CurrentVersion(ops: seq<Op>, k: int)
    requires LegalRun(map[], ops) && Ready(PS.Run(map[], ops), k)
    ensures Version(ops, k, PS.Run(map[], ops)[k].bytes)
  {
    assert ops[..|ops|] == ops;
    assert VersionAt(ops, |ops|, k, PS.Run(map[], ops)[k].bytes);
  }

  /** Completing an operation publishes exactly what it makes ready. */
  lemma CompleteVersions(s: State, s': State, ops: seq<Op>, op: Op)
    requires PublishedExactly(s, ops) && LegalRun(map[], ops) && s.spec == PS.Run(map[], ops) && Legal(s.spec, op)
    requires s'.spec == Apply(s.spec, op)
    requires s'.published == s.published + if Ready(s'.spec, op.key) then {(op.key, s'.spec[op.key].bytes)} else {}
    ensures PublishedExactly(s', ops + [op])
  {
    StoreRunSnoc(map[], ops, op);
    forall k, data
      ensures (k, data) in s'.published <==> Version(ops + [op], k, data)
    {
      VersionsGrow(ops, op, k, data);
      if k != op.key && Ready(s.spec, k) {
        CurrentVersion(ops, k);
      }
    }
  }

  lemma {:induction false} VersionsHold(acts: seq<Action>)
    requires Possible(START, acts)
    ensures PublishedExactly(Run(START, acts), Performed(acts))
  {
    if acts == [] {
      forall k, data
        ensures !Version([], k, data)
      {
        assert forall j: nat :: !VersionAt([], j, k, data);
      }
    } else {
      var init, a := acts[..|acts| - 1], acts[|acts| - 1];
      assert acts == init + [a];
      RunSnoc(START, init, a);
      HistoryHolds(init);
      RunKeeps(START, init);
      VersionsHold(init);
      VersionsStep(Run(START, init), ProgressOf(init), a);
    }
  }

  lemma VersionsStep(s: State, p: Progress, a: Action)
    requires Invariant(s) && Enabled(s, a) && HistoryRight(s, p) && PublishedExactly(s, p.done)
    ensures PublishedExactly(Do(s, a), NextProgress(p, a).done)
  {
    var s', q := Do(s, a), NextProgress(p, a);
    if a.ManagerStep? && p.current.Some? && p.current.value.1 <= 1 {
      CompleteVersions(s, s', p.done, p.current.value.0);
    } else {
      assert s'.published == s.published && q.done == p.done;
    }
  }

  // ----- the reads that were called -----

  /** The last read that worker `id` called. */
  function LastRead(acts: seq<Action>, id: int): Option<Read> {
    if acts == [] then None
    else
      var a := acts[|acts| - 1];
      if a.Call? && a.id == id then Some(a.read) else LastRead(acts[..|acts| - 1], id)
  }

  lemma {:induction false} ReadsHold(acts: seq<Action>, id: int)
    requires Possible(START, acts) && id in Run(START, acts).workers
    ensures var w := Run(START, acts).workers[id]; !w.Idle? && LastRead(acts, id) == Some(w.read)
  {
    if acts != [] {
      var init, a := acts[..|acts| - 1], acts[|acts| - 1];
      assert acts == init + [a];
      RunSnoc(START, init, a);
      if id in Run(START, init).workers {
        ReadsHold(init, id);
      }
    }
  }

  // ----- what the workers see -----

  /** Over every interleaving: a read that returned copied, at the offset and size of the read that was called, a slice
      of one complete version of the part, as the operations performed one after the other leave it; or it was refused
      because it reaches past the end of such a version. */
  lemma NoTornReads(acts: seq<Action>, id: int)
    requires Possible(START, acts)
    requires id in Run(START, acts).workers && Run(START, acts).workers[id].Done?
    ensures LastRead(acts, id).Some?
    ensures var r, result := LastRead(acts, id).value, Run(START, acts).workers[id].result;
            exists data :: Version(Performed(acts), r.key, data) && ReadOf(r, data, result)
  {
    var s := Run(START, acts);
    RunKeeps(START, acts);
    VersionsHold(acts);
    ReadsHold(acts, id);
    assert WorkerRight(s, s.workers[id]);
    var r, result := s.workers[id].read, s.workers[id].result;
    var data :| (r.key, data) in s.published && ReadOf(r, data, result);
    assert Version(Performed(acts), r.key, data);
  }

  /** Over every interleaving: a worker that sleeps while the part that it called for is ready is about to be woken, by
      a manager that still holds the lock; whenever the lock is free, no worker sleeps on a ready part. */
  lemma NoLostWakeup(acts: seq<Action>, id: int)
    requires Possible(START, acts)
    requires id in Run(START, acts).workers && Run(START, acts).workers[id].Asleep?
    requires LastRead(acts, id).Some? && Ready(Run(START, acts).parts, LastRead(acts, id).value.key)
    ensures var s := Run(START, acts);
            && s.lock.TheManager? && s.manager.Changed?
            && StepManager(s).workers[id] == Woken(LastRead(acts, id).value)
  {
    RunKeeps(START, acts);
    ReadsHold(acts, id);
    assert WorkerRight(Run(START, acts), Run(START, acts).workers[id]);
  }

  /** The copy loops refine the atomic store: whenever the manager is outside, memory is what the operations performed
      give one after the other, so everything proved of those holds of it. */
  lemma MemoryRefinesAtomicStore(acts: seq<Action>)
    requires Possible(START, acts) && Run(START, acts).manager.Outside?
    ensures LegalRun(map[], Performed(acts)) && Run(START, acts).parts == PS.Run(map[], Performed(acts))
  {
    RunKeeps(START, acts);
    HistoryHolds(acts);
  }

  // ----- workers that stay blocked -----

  /** Serving these reads ends with the early return. */
  predicate Leaks(parts: Parts, asked: seq<Read>, checked: bool) {
    checked && exists i :: 0 <= i < |asked| && PastTheEnd(parts, asked[i])
  }

  lemma LeaksStep(parts: Parts, asked: seq<Read>, checked: bool)
    requires asked != []
    ensures Leaks(parts, asked, checked) <==>
            (checked && PastTheEnd(parts, asked[0])) || Leaks(parts, asked[1..], checked)
  {
    var rest := asked[1..];
    assert forall i :: 0 <= i < |rest| ==> rest[i] == asked[i + 1];
    assert forall i :: 1 <= i < |asked| ==> asked[i] == rest[i - 1];
  }

  /** The lock will never be free again. */
  predicate Doomed(s: State) {
    s.manager.Gone? || (s.manager.Serving? && Leaks(s.parts, s.manager.asked, s.manager.checked))
  }

  predicate OpensSection(a: Action) {
    a.ManagerLock? || a.ManagerServe?
  }

  /** How far the manager has come in serving some reads, whatever the workers did meanwhile. */
  ghost predicate ServedSoFar(s: State, parts: Parts, asked: seq<Read>, checked: bool) {
    && s.parts == parts
    && (match s.manager
        case Serving(rest, c) => c == checked && (Leaks(parts, rest, c) <==> Leaks(parts, asked, checked))
        case Gone => Leaks(parts, asked, checked)
        case Leaving => !Leaks(parts, asked, checked)
        case Outside => !Leaks(parts, asked, checked)
        case _ => false)
  }

  lemma ServedStep(s: State, a: Action, parts: Parts, asked: seq<Read>, checked: bool)
    requires Enabled(s, a) && !OpensSection(a) && ServedSoFar(s, parts, asked, checked)
    ensures ServedSoFar(Do(s, a), parts, asked, checked)
  {
    if a.ManagerStep? && s.manager.Serving? && s.manager.asked != [] {
      LeaksStep(parts, s.manager.asked, s.manager.checked);
    }
  }

  lemma {:induction false} ServedRun(s: State, acts: seq<Action>, parts: Parts, asked: seq<Read>, checked: bool)
    requires ServedSoFar(s, parts, asked, checked) && Possible(s, acts)
    requires forall i :: 0 <= i < |acts| ==> !OpensSection(acts[i])
    ensures ServedSoFar(Run(s, acts), parts, asked, checked)
    decreases |acts|
  {
    if acts != [] {
      ServedStep(s, acts[0], parts, asked, checked);
      ServedRun(Do(s, acts[0]), acts[1..], parts, asked, checked);
    }
  }

  /** A manager that starts to serve some reads ends its section without unlocking if and only if the bounds are checked
      and one of the reads reaches past a part that is there, however the workers interleave. */
  lemma LeakExactly(s: State, asked: seq<Read>, checked: bool, acts: seq<Action>)
    requires Enabled(s, ManagerServe(asked, checked)) && Possible(Do(s, ManagerServe(asked, checked)), acts)
    requires forall i :: 0 <= i < |acts| ==> !OpensSection(acts[i])
    requires var t := Run(Do(s, ManagerServe(asked, checked)), acts); t.manager.Gone? || t.manager.Outside?
    ensures Run(Do(s, ManagerServe(asked, checked)), acts).manager.Gone? <==> Leaks(s.parts, asked, checked)
  {
    ServedRun(Do(s, ManagerServe(asked, checked)), acts, s.parts, asked, checked);
  }

  predicate Waiting(w: Worker) {
    w.WantsLock? || w.Woken?
  }

  /** Whatever happens, the worker does not get the lock. */
  ghost predicate BlockedForGood(s: State, id: int) {
    forall acts :: Possible(s, acts) ==> id in Run(s, acts).workers && Waiting(Run(s, acts).workers[id])
  }

  lemma DoomedStep(s: State, a: Action, id: int)
    requires Invariant(s) && Doomed(s) && id in s.workers && Waiting(s.workers[id]) && Enabled(s, a)
    ensures var s' := Do(s, a); Doomed(s') && id in s'.workers && Waiting(s'.workers[id])
  {
    if a.ManagerStep? {
      LeaksStep(s.parts, s.manager.asked, s.manager.checked);
    }
  }

  lemma {:induction false} DoomedStays(s: State, acts: seq<Action>, id: int)
    requires Invariant(s) && Doomed(s) && id in s.workers && Waiting(s.workers[id]) && Possible(s, acts)
    ensures id in Run(s, acts).workers && Waiting(Run(s, acts).workers[id])
    decreases |acts|
  {
    if acts != [] {
      DoKeeps(s, acts[0]);
      DoomedStep(s, acts[0], id);
      DoomedStays(Do(s, acts[0]), acts[1..], id);
    }
  }

  /** The steps until the lock is free, at most. */
  function WorkLeft(s: State): nat {
    match s.lock
    case Nobody => 0
    case TheManager =>
      (match s.manager
       case Holding(op) => if op.AddData? then |op.data| + 5 else 5
       case Filling(op, copied) => if op.AddData? && copied <= |op.data| then |op.data| - copied + 4 else 4
       case Changed(_) => 3
       case Serving(asked, _) => |asked| + 3
       case Leaving => 2
       case _ => 1)
    case TheWorker(t) =>
      if t !in s.workers then 1
      else match s.workers[t]
        case Looking(r) => r.size + 3
        case Copying(r, buf) => if |buf| <= r.size then r.size - |buf| + 2 else 2
        case _ => 1
  }

  function Holder(s: State): Action {
    if s.lock.TheWorker? then WorkerStep(s.lock.id) else ManagerStep
  }

  lemma ManagerProgress(s: State, id: int)
    requires Invariant(s) && !Doomed(s) && s.lock.TheManager? && id in s.workers && Waiting(s.workers[id])
    ensures Enabled(s, ManagerStep)
    ensures var s' := Do(s, ManagerStep);
            WorkLeft(s') < WorkLeft(s) && !Doomed(s') && id in s'.workers && Waiting(s'.workers[id])
  {
    match s.manager
    case Serving(asked, checked) =>
      if asked != [] {
        LeaksStep(s.parts, asked, checked);
      }
    case _ =>
  }

  lemma WorkerProgress(s: State, t: int, id: int)
    requires Invariant(s) && s.lock == TheWorker(t) && id in s.workers && Waiting(s.workers[id])
    ensures Enabled(s, WorkerStep(t))
    ensures var s' := Do(s, WorkerStep(t));
            WorkLeft(s') < WorkLeft(s) && !Doomed(s') && id in s'.workers && Waiting(s'.workers[id])
  {
    assert WorkerRight(s, s.workers[t]);
  }

  /** Otherwise whoever holds the lock can go on to free it, and the worker can take it. */
  lemma {:induction false} CanProceed(s: State, id: int) returns (acts: seq<Action>)
    requires Invariant(s) && !Doomed(s) && id in s.workers && Waiting(s.workers[id])
    ensures Possible(s, acts) && id in Run(s, acts).workers && Run(s, acts).workers[id].Looking?
    decreases WorkLeft(s)
  {
    if s.lock.Nobody? {
      acts := [WorkerStep(id)];
      assert acts[1..] == [];
      assert Run(Do(s, acts[0]), []) == Do(s, acts[0]);
    } else {
      var a := Holder(s);
      if s.lock.TheManager? {
        ManagerProgress(s, id);
      } else {
        WorkerProgress(s, s.lock.id, id);
      }
      DoKeeps(s, a);
      var rest := CanProceed(Do(s, a), id);
      acts := [a] + rest;
      assert acts[1..] == rest;
    }
  }

  /** Over every interleaving: a worker waiting for the lock is blocked for good if and only if the manager has returned
      without unlocking, or is serving a request that will make it do so. */
  lemma BlockedExactly(acts: seq<Action>, id: int)
    requires Possible(START, acts) && id in Run(START, acts).workers && Waiting(Run(START, acts).workers[id])
    ensures BlockedForGood(Run(START, acts), id) <==> Doomed(Run(START, acts))
  {
    var s := Run(START, acts);
    RunKeeps(START, acts);
    if Doomed(s) {
      forall more | Possible(s, more)
        ensures id in Run(s, more).workers && Waiting(Run(s, more).workers[id])
      {
        DoomedStays(s, more, id);
      }
    } else {
      var more := CanProceed(s, id);
      assert Possible(s, more) && !Waiting(Run(s, more).workers[id]);
    }
  }
}
