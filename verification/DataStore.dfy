/** The store of distributed-vector parts, as a value: what each operation does to the
    parts a process holds, and what holds over every run of operations. */
module PartStore {
  import opened Bytes

  datatype Location = VectorStore | MessageStore

  /** One part: its buffer, which of the two stores owns the buffer, and how many bytes are
      still to come before the part may be read. */
  datatype Cell = Cell(bytes: seq<byte>, location: Location, remaining: nat)

  type Parts = map<int, Cell>

  datatype Op =
    | StoreMessage(key: int, data: seq<byte>)
    | StoreVector(key: int, data: seq<byte>)
    | Prepare(key: int, size: nat)
    | AddData(key: int, data: seq<byte>, offset: nat)
    | Remove(key: int)

  /** A vector of length 0 has no buffer, so its data pointer is null. */
  predicate HasBuffer(c: Cell) {
    c.location.MessageStore? || c.bytes != []
  }

  predicate Ready(parts: Parts, key: int) {
    key in parts && parts[key].remaining == 0 && HasBuffer(parts[key])
  }

  /** `getPartData`: the bytes of a complete part, or nothing. */
  function GetPartData(parts: Parts, key: int): (r: Option<seq<byte>>)
    ensures r.Some? <==> Ready(parts, key)
    ensures r.Some? ==> r.value == parts[key].bytes
  {
    if key !in parts || parts[key].remaining > 0 || !HasBuffer(parts[key]) then None
    else Some(parts[key].bytes)
  }

  /** The assertions that guard each operation. */
  predicate Legal(parts: Parts, op: Op) {
    match op
    case StoreMessage(key, _) => key !in parts
    case StoreVector(key, _) => key !in parts
    case Prepare(key, _) => key !in parts
    case AddData(key, data, offset) =>
      && key in parts
      && HasBuffer(parts[key])
      && offset + |data| <= |parts[key].bytes|
      && |data| <= parts[key].remaining
    case Remove(key) => key in parts
  }

  function Apply(parts: Parts, op: Op): Parts
    requires Legal(parts, op)
  {
    match op
    case StoreMessage(key, data) => parts[key := Cell(data, MessageStore, 0)]
    case StoreVector(key, data) => parts[key := Cell(data, VectorStore, 0)]
    case Prepare(key, size) => parts[key := Cell(Zeros(size), VectorStore, size)]
    case AddData(key, data, offset) =>
      var c := parts[key];
      parts[key := c.(bytes := Splice(c.bytes, offset, data), remaining := c.remaining - |data|)]
    case Remove(key) => parts - {key}
  }

  /** What is stored is what is read: a part stored whole shows its bytes at once, unless it is a vector without any; a
      prepared part shows nothing yet and a removed one nothing any more; and no other part changes. */
  lemma StoredIsRead(parts: Parts, op: Op, k: int)
    requires Legal(parts, op)
    ensures op.StoreMessage? ==> GetPartData(Apply(parts, op), op.key) == Some(op.data)
    ensures op.StoreVector? && op.data != [] ==> GetPartData(Apply(parts, op), op.key) == Some(op.data)
    ensures op.StoreVector? && op.data == [] ==> GetPartData(Apply(parts, op), op.key).None?
    ensures op.Prepare? || op.Remove? ==> GetPartData(Apply(parts, op), op.key).None?
    ensures op.key in Apply(parts, op) <==> !op.Remove?
    ensures k != op.key ==> GetPartData(Apply(parts, op), k) == GetPartData(parts, k)
  {
  }

  /** Every operation meets its assertions in the state the earlier ones leave. */
  predicate LegalRun(parts: Parts, ops: seq<Op>)
    decreases |ops|
  {
    ops == [] || (Legal(parts, ops[0]) && LegalRun(Apply(parts, ops[0]), ops[1..]))
  }

  function Run(parts: Parts, ops: seq<Op>): Parts
    requires LegalRun(parts, ops)
    decreases |ops|
  {
    if ops == [] then parts else Run(Apply(parts, ops[0]), ops[1..])
  }

  /** Once a part can be read, no run that does not remove it changes a single byte of it. */
  lemma {:induction false} ExposedBytesAreStable(parts: Parts, ops: seq<Op>, key: int)
    requires LegalRun(parts, ops)
    requires Ready(parts, key) && Remove(key) !in ops
    ensures Ready(Run(parts, ops), key)
    ensures Run(parts, ops)[key] == parts[key]
    decreases |ops|
  {
    if ops != [] {
      var next := Apply(parts, ops[0]);
      assert ops[0] in ops;
      if ops[0].AddData? && ops[0].key == key {
        assert next[key].bytes == parts[key].bytes;
      }
      ExposedBytesAreStable(next, ops[1..], key);
    }
  }

  predicate Feeds(op: Op, key: int) {
    op.AddData? && op.key == key
  }

  /** No two operations write the same byte of the part. */
  ghost predicate DisjointFeeds(ops: seq<Op>, key: int) {
    forall i, j :: 0 <= i < j < |ops| && Feeds(ops[i], key) && Feeds(ops[j], key) ==>
      ops[i].offset + |ops[i].data| <= ops[j].offset || ops[j].offset + |ops[j].data| <= ops[i].offset
  }

  /** The byte positions of the part that the operations write. */
  ghost function Written(ops: seq<Op>, key: int): set<nat> {
    if ops == [] then {}
    else
      Written(ops[1..], key)
      + if Feeds(ops[0], key) then Positions(ops[0].offset, |ops[0].data|) else {}
  }

  lemma {:induction false} WrittenBy(ops: seq<Op>, key: int, x: nat)
    ensures x in Written(ops, key) <==>
            exists i :: 0 <= i < |ops| && Feeds(ops[i], key) && ops[i].offset <= x < ops[i].offset + |ops[i].data|
  {
    if ops != [] {
      WrittenBy(ops[1..], key, x);
      if x in Written(ops[1..], key) {
        var i :| 0 <= i < |ops| - 1 && Feeds(ops[1..][i], key)
                 && ops[1..][i].offset <= x < ops[1..][i].offset + |ops[1..][i].data|;
        assert ops[i + 1] == ops[1..][i];
      }
      if i :| 0 <= i < |ops| && Feeds(ops[i], key) && ops[i].offset <= x < ops[i].offset + |ops[i].data| {
        if i > 0 {
          assert ops[i] == ops[1..][i - 1];
        }
      }
    }
  }

  lemma DisjointRest(ops: seq<Op>, key: int)
    requires ops != [] && DisjointFeeds(ops, key)
    ensures DisjointFeeds(ops[1..], key)
    ensures Feeds(ops[0], key) ==> Written(ops[1..], key) !! Positions(ops[0].offset, |ops[0].data|)
  {
    if Feeds(ops[0], key) {
      forall x: nat | x in Written(ops[1..], key)
        ensures x !in Positions(ops[0].offset, |ops[0].data|)
      {
        WrittenBy(ops[1..], key, x);
        var i :| 0 <= i < |ops| - 1 && Feeds(ops[1..][i], key)
                 && ops[1..][i].offset <= x < ops[1..][i].offset + |ops[1..][i].data|;
        assert ops[i + 1] == ops[1..][i];
      }
    }
  }

  predicate Carries(bytes: seq<byte>, offset: nat, data: seq<byte>) {
    offset + |data| <= |bytes| && bytes[offset..offset + |data|] == data
  }

  lemma UntouchedCarries(before: seq<byte>, after: seq<byte>, offset: nat, data: seq<byte>, written: set<nat>)
    requires offset + |data| <= |before| == |after|
    requires forall x: nat :: x < |after| && x !in written ==> after[x] == Splice(before, offset, data)[x]
    requires written !! Positions(offset, |data|)
    ensures Carries(after, offset, data)
  {
    var next := Splice(before, offset, data);
    forall x: nat | offset <= x < offset + |data|
      ensures after[x] == data[x - offset]
    {
      assert x in Positions(offset, |data|);
      assert next[x] == data[x - offset];
    }
  }

  /** The run leaves `after` where the part was `before`: what was written is there, what was not is as before,
      and the count of missing bytes went down by the bytes written. */
  ghost predicate Assembled(before: Cell, ops: seq<Op>, key: int, after: Cell) {
    && after.location == before.location
    && |after.bytes| == |before.bytes|
    && after.remaining == before.remaining - |Written(ops, key)|
    && (forall x: nat :: x < |after.bytes| && x !in Written(ops, key) ==> after.bytes[x] == before.bytes[x])
    && (forall i :: 0 <= i < |ops| && Feeds(ops[i], key) ==> Carries(after.bytes, ops[i].offset, ops[i].data))
  }

  /** Putting one more write in front of an assembled run. */
  lemma AssembledFeed(before: Cell, ops: seq<Op>, key: int, next: Cell, after: Cell)
    requires ops != [] && Feeds(ops[0], key) && DisjointFeeds(ops, key)
    requires ops[0].offset + |ops[0].data| <= |before.bytes| && |ops[0].data| <= before.remaining
    requires next == before.(bytes := Splice(before.bytes, ops[0].offset, ops[0].data),
                             remaining := before.remaining - |ops[0].data|)
    requires Assembled(next, ops[1..], key, after)
    ensures Assembled(before, ops, key, after)
  {
    var rest, first := Written(ops[1..], key), ops[0];
    DisjointRest(ops, key);
    assert |Written(ops, key)| == |rest| + |first.data| by {
      PositionsSize(first.offset, |first.data|);
    }
    UntouchedCarries(before.bytes, after.bytes, first.offset, first.data, rest);
    CarriesAll(ops, key, after.bytes);
  }

  lemma CarriesAll(ops: seq<Op>, key: int, bytes: seq<byte>)
    requires ops != [] && (Feeds(ops[0], key) ==> Carries(bytes, ops[0].offset, ops[0].data))
    requires forall i :: 0 <= i < |ops[1..]| && Feeds(ops[1..][i], key) ==>
               Carries(bytes, ops[1..][i].offset, ops[1..][i].data)
    ensures forall i :: 0 <= i < |ops| && Feeds(ops[i], key) ==> Carries(bytes, ops[i].offset, ops[i].data)
  {
    forall i | 1 <= i < |ops| && Feeds(ops[i], key)
      ensures Carries(bytes, ops[i].offset, ops[i].data)
    {
      assert ops[i] == ops[1..][i - 1];
    }
  }

  /** Putting an operation on another part in front of an assembled run. */
  lemma AssembledOther(before: Cell, ops: seq<Op>, key: int, after: Cell)
    requires ops != [] && !Feeds(ops[0], key)
    requires Assembled(before, ops[1..], key, after)
    ensures Assembled(before, ops, key, after)
  {
    CarriesAll(ops, key, after.bytes);
  }

  /** Disjoint ranges may be fed in any order, mixed with operations on other parts. */
  lemma {:induction false} FeedsAssemble(parts: Parts, ops: seq<Op>, key: int)
    requires LegalRun(parts, ops)
    requires key in parts && Remove(key) !in ops
    requires DisjointFeeds(ops, key)
    ensures key in Run(parts, ops)
    ensures Assembled(parts[key], ops, key, Run(parts, ops)[key])
    decreases |ops|
  {
    if ops != [] {
      var next := Apply(parts, ops[0]);
      assert ops[0] in ops;
      DisjointRest(ops, key);
      FeedsAssemble(next, ops[1..], key);
      var after := Run(parts, ops)[key];
      if Feeds(ops[0], key) {
        AssembledFeed(parts[key], ops, key, next[key], after);
      } else {
        assert next[key] == parts[key];
        AssembledOther(parts[key], ops, key, after);
      }
    }
  }

  lemma {:induction false} WrittenInside(parts: Parts, ops: seq<Op>, key: int)
    requires LegalRun(parts, ops)
    requires key in parts && Remove(key) !in ops
    ensures key in Run(parts, ops) && |Run(parts, ops)[key].bytes| == |parts[key].bytes|
    ensures forall x: nat :: x in Written(ops, key) ==> x < |parts[key].bytes|
    decreases |ops|
  {
    if ops != [] {
      assert ops[0] in ops;
      WrittenInside(Apply(parts, ops[0]), ops[1..], key);
    }
  }

  /** A prepared part fed disjoint ranges becomes readable at exactly the moment its last byte has been
      written, and then holds the bytes of its messages whatever their order. */
  lemma PreparedPartIsReadableWhenComplete(parts: Parts, ops: seq<Op>, key: int, size: nat)
    requires LegalRun(parts, ops)
    requires key in parts && parts[key] == Cell(Zeros(size), VectorStore, size) && size > 0
    requires Remove(key) !in ops && DisjointFeeds(ops, key)
    ensures key in Run(parts, ops)
    ensures Run(parts, ops)[key].remaining == size - |Written(ops, key)|
    ensures Ready(Run(parts, ops), key) <==> Written(ops, key) == Positions(0, size)
    ensures Assembled(parts[key], ops, key, Run(parts, ops)[key])
  {
    FeedsAssemble(parts, ops, key);
    WrittenInside(parts, ops, key);
    PositionsSize(0, size);
    var w := Written(ops, key);
    assert w <= Positions(0, size);
    assert |Positions(0, size) - w| == size - |w|;
    assert Ready(Run(parts, ops), key) <==> Positions(0, size) - w == {};
  }
}

/** `DataStore`: three maps kept in step. */
module DataStore {
  import opened Bytes
  import opened PartStore

  datatype DvPart = DvPart(key: int, size: nat, location: Location, remaining: nat)

  class DataStore {
    var vectorStore: map<int, seq<byte>>
    var messageStore: map<int, seq<byte>>
    var dvParts: map<int, DvPart>

    /** The part table's keys are the disjoint union of the two stores' keys, and each entry names
        the store that holds the buffer and the buffer's length. */
    ghost predicate Valid()
      reads this
    {
      && vectorStore.Keys !! messageStore.Keys
      && dvParts.Keys == vectorStore.Keys + messageStore.Keys
      && (forall k :: k in vectorStore ==>
            && dvParts[k].key == k && dvParts[k].location == VectorStore
            && dvParts[k].size == |vectorStore[k]| && dvParts[k].remaining <= dvParts[k].size)
      && (forall k :: k in messageStore ==>
            dvParts[k] == DvPart(k, |messageStore[k]|, MessageStore, 0))
    }

    ghost function View(): (parts: Parts)
      requires Valid()
      reads this
      ensures parts.Keys == dvParts.Keys
    {
      map k | k in dvParts :: Cell(if k in vectorStore then vectorStore[k] else messageStore[k],
                                   dvParts[k].location, dvParts[k].remaining)
    }

    constructor ()
      ensures Valid() && View() == map[]
    {
      vectorStore, messageStore, dvParts := map[], map[], map[];
    }

    method StorePartMessage(key: int, data: seq<byte>)
      requires Valid() && Legal(View(), StoreMessage(key, data))
      modifies this
      ensures Valid() && View() == Apply(old(View()), StoreMessage(key, data))
    {
      messageStore := messageStore[key := data];
      dvParts := dvParts[key := DvPart(key, |data|, MessageStore, 0)];
    }

    method StorePartVector(key: int, data: seq<byte>)
      requires Valid() && Legal(View(), StoreVector(key, data))
      modifies this
      ensures Valid() && View() == Apply(old(View()), StoreVector(key, data))
    {
      vectorStore := vectorStore[key := data];
      dvParts := dvParts[key := DvPart(key, |vectorStore[key]|, VectorStore, 0)];
    }

    method PreparePartVector(key: int, size: nat)
      requires Valid() && Legal(View(), Prepare(key, size))
      modifies this
      ensures Valid() && View() == Apply(old(View()), Prepare(key, size))
    {
      vectorStore := vectorStore[key := Zeros(size)];
      dvParts := dvParts[key := DvPart(key, |vectorStore[key]|, VectorStore, size)];
    }

    /** The assertions of `addData`. */
    method Accepts(key: int, data: seq<byte>, offset: nat) returns (ok: bool)
      requires Valid()
      ensures ok == Legal(View(), AddData(key, data, offset))
    {
      if key !in dvParts {
        return false;
      }
      var part := dvParts[key];
      return (part.location == MessageStore || vectorStore[key] != [])
        && offset + |data| <= part.size && |data| <= part.remaining;
    }

    /** Copies the bytes in and returns how many are still missing. */
    method AddBytes(key: int, data: seq<byte>, offset: nat) returns (remaining: nat)
      requires Valid() && Legal(View(), AddData(key, data, offset))
      modifies this
      ensures Valid() && View() == Apply(old(View()), AddData(key, data, offset))
      ensures remaining == View()[key].remaining
    {
      var part := dvParts[key];
      if part.location == VectorStore {
        vectorStore := vectorStore[key := Splice(vectorStore[key], offset, data)];
      } else {
        messageStore := messageStore[key := Splice(messageStore[key], offset, data)];
      }
      dvParts := dvParts[key := part.(remaining := part.remaining - |data|)];
      remaining := dvParts[key].remaining;
    }

    method RemovePart(key: int)
      requires Valid() && Legal(View(), Remove(key))
      modifies this
      ensures Valid() && View() == Apply(old(View()), Remove(key))
    {
      if dvParts[key].location == MessageStore {
        messageStore := messageStore - {key};
      } else {
        vectorStore := vectorStore - {key};
      }
      dvParts := dvParts - {key};
    }

    /** The bytes of a complete part; nothing while bytes are missing. */
    method PartData(key: int) returns (r: Option<seq<byte>>)
      requires Valid()
      ensures r == GetPartData(View(), key)
    {
      if key !in dvParts || dvParts[key].remaining > 0 {
        return None;
      }
      if dvParts[key].location == VectorStore {
        return if vectorStore[key] == [] then None else Some(vectorStore[key]);
      } else {
        return Some(messageStore[key]);
      }
    }
  }
}
