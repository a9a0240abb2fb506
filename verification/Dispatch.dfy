/** `createMessage`: the first field of a message says what it is. */
module Dispatch {
  import opened Bytes

  datatype Kind =
    | StopProcess
    | CreateActor
    | StopActor
    | CallActor
    | RegisterFuture
    | GetFutureData
    | ReleaseFuture
    | StoreResult
    | StoreResultPart
    | ReleaseResultPart
    | GetResultParts
    | DistributeVector
    | Prefetch
    | Fetch

  const INSTRUCTION_STOP: nat := 1
  const INSTRUCTION_CREATE_ACTOR: nat := 2
  const INSTRUCTION_DESTROY_ACTOR: nat := 3
  const INSTRUCTION_CALL_ACTOR: nat := 4
  const INSTRUCTION_REGISTER_FUTURE_DATA: nat := 5
  const INSTRUCTION_GET_FUTURE_DATA: nat := 6
  const INSTRUCTION_RELEASE_FUTURE: nat := 7
  const INSTRUCTION_STORE_RESULT: nat := 8
  const INSTRUCTION_STORE_RESULT_PART: nat := 9
  const INSTRUCTION_RELEASE_RESULT: nat := 10
  const INSTRUCTION_GET_RESULT_PARTS: nat := 11
  const INSTRUCTION_DISTRIBUTE_VECTOR: nat := 12
  const INSTRUCTION_PREFETCH: nat := 13
  const INSTRUCTION_FETCH: nat := 14

  /** The branches of the switch, in its order; None is the null pointer for an unknown instruction. */
  function KindOfInstruction(i: nat): Option<Kind> {
    if i == INSTRUCTION_CREATE_ACTOR then Some(CreateActor)
    else if i == INSTRUCTION_CALL_ACTOR then Some(CallActor)
    else if i == INSTRUCTION_DESTROY_ACTOR then Some(StopActor)
    else if i == INSTRUCTION_STOP then Some(StopProcess)
    else if i == INSTRUCTION_REGISTER_FUTURE_DATA then Some(RegisterFuture)
    else if i == INSTRUCTION_GET_FUTURE_DATA then Some(GetFutureData)
    else if i == INSTRUCTION_RELEASE_FUTURE then Some(ReleaseFuture)
    else if i == INSTRUCTION_GET_RESULT_PARTS then Some(GetResultParts)
    else if i == INSTRUCTION_STORE_RESULT then Some(StoreResult)
    else if i == INSTRUCTION_RELEASE_RESULT then Some(ReleaseResultPart)
    else if i == INSTRUCTION_DISTRIBUTE_VECTOR then Some(DistributeVector)
    else if i == INSTRUCTION_PREFETCH then Some(Prefetch)
    else if i == INSTRUCTION_FETCH then Some(Fetch)
    else if i == INSTRUCTION_STORE_RESULT_PART then Some(StoreResultPart)
    else None
  }

  /** What a received message is. */
  function KindOf(bytes: seq<byte>): Option<Kind> {
    if |bytes| < 4 then None else KindOfInstruction(DecodeLE(bytes[..4]))
  }

  /** The instructions are numbered from 1 in the order in which the kinds are declared. */
  function InstructionOf(k: Kind): nat {
    match k
    case StopProcess => 1
    case CreateActor => 2
    case StopActor => 3
    case CallActor => 4
    case RegisterFuture => 5
    case GetFutureData => 6
    case ReleaseFuture => 7
    case StoreResult => 8
    case StoreResultPart => 9
    case ReleaseResultPart => 10
    case GetResultParts => 11
    case DistributeVector => 12
    case Prefetch => 13
    case Fetch => 14
  }

  /** A message is of a kind if and only if it starts with that kind's instruction; so no two kinds share one, and a
      message that starts with none of them is none. */
  lemma DispatchExactly(bytes: seq<byte>, k: Kind)
    requires |bytes| >= 4
    ensures KindOf(bytes) == Some(k) <==> bytes[..4] == EncodeLE(InstructionOf(k), 4)
    ensures KindOf(bytes).None? <==> forall x: Kind :: bytes[..4] != EncodeLE(InstructionOf(x), 4)
  {
    StartsWith(bytes, k);
    forall x: Kind
      ensures KindOf(bytes) == Some(x) <==> bytes[..4] == EncodeLE(InstructionOf(x), 4)
    {
      StartsWith(bytes, x);
    }
  }

  lemma StartsWith(bytes: seq<byte>, k: Kind)
    requires |bytes| >= 4
    ensures KindOf(bytes) == Some(k) <==> bytes[..4] == EncodeLE(InstructionOf(k), 4)
  {
    assert Power256(4) == 0x1_0000_0000;
    DecodeEncode(InstructionOf(k), 4);
    EncodeDecode(bytes[..4]);
  }
}
