/** Who owns the bytes of a message. Messages are views into one receive buffer that every receive overwrites or
    replaces; a few outlive their handler and must not see that. */
module ReceiveBuffer {
  import opened Bytes

  import D = Dispatch

  /** What happens to the buffer: a call is copied on creation, a stored result takes the buffer over, a fetch that
      must wait is copied, and the rest die with their handler. */
  datatype Fate = Copied | TakenOver | Saved | Dropped

  /** It depends on the instruction, and for a fetch on whether it has to wait for its future. */
  function FateOf(bytes: seq<byte>, waits: bool): Fate {
    match D.KindOf(bytes)
    case Some(CallActor) => Copied
    case Some(StoreResult) => TakenOver
    case Some(Fetch) => if waits then Saved else Dropped
    case _ => Dropped
  }

  /** Told by the first four bytes: 4 for a call, 8 for a stored result, 14 for a fetch. */
  lemma FateExactly(bytes: seq<byte>, waits: bool)
    requires |bytes| >= 4
    ensures FateOf(bytes, waits).Copied? <==> bytes[..4] == [4, 0, 0, 0]
    ensures FateOf(bytes, waits).TakenOver? <==> bytes[..4] == [8, 0, 0, 0]
    ensures FateOf(bytes, waits).Saved? <==> bytes[..4] == [14, 0, 0, 0] && waits
  {
    D.DispatchExactly(bytes, D.CallActor);
    D.DispatchExactly(bytes, D.StoreResult);
    D.DispatchExactly(bytes, D.Fetch);
    SmallEncoding(4);
    SmallEncoding(8);
    SmallEncoding(14);
  }

  lemma SmallEncoding(x: nat)
    requires x < 256
    ensures EncodeLE(x, 4) == [x as byte, 0, 0, 0]
  {
    assert x % 256 == x && x / 256 == 0;
    assert EncodeLE(0, 1) == [0];
    assert EncodeLE(0, 2) == [0, 0];
    assert EncodeLE(0, 3) == [0, 0, 0];
  }

  /** `ActorMessage`: a view, and whether its destructor frees the buffer. */
  datatype Message = Message(buf: array<byte>, size: nat, owned: bool)

  datatype Event = Receive(bytes: seq<byte>, waits: bool) | Destroy(index: nat)

  /** A kept message as a value: its bytes, and whether its buffer is freed with it. */
  datatype Kept = Kept(bytes: seq<byte>, owned: bool)

  /** What a process that keeps messages by value would hold. The copy of a call is never freed. */
  function KeepOne(kept: seq<Kept>, e: Event): seq<Kept> {
    match e
    case Receive(bytes, waits) =>
      if FateOf(bytes, waits).Dropped? then kept else kept + [Kept(bytes, !FateOf(bytes, waits).Copied?)]
    case Destroy(i) => if i < |kept| then kept[..i] + kept[i + 1..] else kept
  }

  function KeepAll(kept: seq<Kept>, es: seq<Event>): seq<Kept>
    decreases |es|
  {
    if es == [] then kept else KeepAll(KeepOne(kept, es[0]), es[1..])
  }

  lemma {:induction false} KeepAllSnoc(kept: seq<Kept>, es: seq<Event>, e: Event)
    ensures KeepAll(kept, es + [e]) == KeepOne(KeepAll(kept, es), e)
    decreases |es|
  {
    if es == [] {
      assert es + [e] == [e] && [e][1..] == [];
      assert KeepAll(KeepOne(kept, e), []) == KeepOne(kept, e);
    } else {
      assert (es + [e])[1..] == es[1..] + [e];
      KeepAllSnoc(KeepOne(kept, es[0]), es[1..], e);
    }
  }

  predicate NonEmpty(e: Event) {
    e.Receive? ==> e.bytes != []
  }

  /** The communicator's receive buffer together with the messages the server keeps: queued calls, stored
      results and saved fetches. */
  class Process {
    var recvBuf: array?<byte>
    var recvBufSize: nat
    var kept: seq<Message>
    ghost var freed: set<array<byte>>

    /** No kept message shares memory with the receive buffer or with another kept message, and nothing in use
        has been freed. */
    ghost predicate Valid()
      reads this
    {
      && (recvBuf == null ==> recvBufSize == 0)
      && (recvBuf != null ==> recvBuf !in freed && recvBuf.Length == recvBufSize)
      && (forall i :: 0 <= i < |kept| ==>
            kept[i].buf !in freed && kept[i].buf != recvBuf && kept[i].size <= kept[i].buf.Length)
      && (forall i, j :: 0 <= i < j < |kept| ==> kept[i].buf != kept[j].buf)
    }

    ghost function Buffers(): set<array<byte>>
      reads this
    {
      set m | m in kept :: m.buf
    }

    /** What the kept messages show. */
    ghost function Contents(): (r: seq<Kept>)
      requires Valid()
      reads this, Buffers()
      ensures |r| == |kept|
      ensures forall i :: 0 <= i < |kept| ==> r[i] == Kept(kept[i].buf[..kept[i].size], kept[i].owned)
    {
      seq(|kept|, i requires 0 <= i < |kept| reads this, Buffers() requires kept[i].size <= kept[i].buf.Length =>
        assert kept[i] in kept; Kept(kept[i].buf[..kept[i].size], kept[i].owned))
    }

    constructor ()
      ensures Valid() && Contents() == [] && freed == {}
    {
      recvBuf, recvBufSize, kept, freed := null, 0, [], {};
    }

    /** `delete[]`: freeing what is already free is not allowed. */
    ghost method Delete(buf: array<byte>)
      requires buf !in freed
      modifies this`freed
      ensures freed == old(freed) + {buf}
    {
      freed := freed + {buf};
    }

    /** `receiveActorMessage` and `createMessage`: grow the receive buffer if needed, overwrite it, and return a
        view of it, or of a copy when the message is a call. */
    method ReceiveActorMessage(bytes: seq<byte>) returns (msg: Message)
      requires Valid() && bytes != []
      modifies this, recvBuf
      ensures Valid() && kept == old(kept) && Contents() == old(Contents())
      ensures recvBuf != null && (recvBuf == old(recvBuf) || fresh(recvBuf))
      ensures msg.size == |bytes| <= msg.buf.Length && msg.buf[..msg.size] == bytes && !msg.owned
      ensures if D.KindOf(bytes) == Some(D.CallActor) then fresh(msg.buf) && msg.buf != recvBuf else msg.buf == recvBuf
      ensures msg.buf !in freed
      ensures freed ==
              old(freed) + if old(recvBuf != null && recvBufSize < |bytes|) then {old(recvBuf)} else {}
    {
      if recvBufSize < |bytes| {
        if recvBuf != null {
          Delete(recvBuf);
        }
        recvBufSize := |bytes|;
        recvBuf := new byte[recvBufSize](_ => 0);
      }
      var target: array<byte> := recvBuf;
      CopyTo(target, 0, bytes);
      assert target[..|bytes|] == bytes;
      if D.KindOf(bytes) == Some(D.CallActor) {
        var cpy := new byte[|bytes|](_ => 0);
        CopyTo(cpy, 0, bytes);
        assert cpy[..|bytes|] == bytes;
        msg := Message(cpy, |bytes|, false);
      } else {
        msg := Message(target, |bytes|, false);
      }
    }

    /** The server keeps a message whose buffer is its own. */
    method Keep(msg: Message)
      requires Valid() && msg.size <= msg.buf.Length && msg.buf !in freed && msg.buf != recvBuf && msg.buf !in Buffers()
      modifies this`kept
      ensures Valid() && Contents() == old(Contents()) + [Kept(msg.buf[..msg.size], msg.owned)]
    {
      forall i | 0 <= i < |kept|
        ensures kept[i].buf != msg.buf
      {
        assert kept[i] in kept;
      }
      kept := kept + [msg];
    }

    /** `handleStoreResultMessage`: the message takes the receive buffer over and a new one replaces it. */
    method HandleStoreResult(msg: Message)
      requires Valid() && recvBuf != null && msg.buf == recvBuf && msg.size <= msg.buf.Length && msg.buf !in Buffers()
      modifies this`recvBuf, this`kept
      ensures Valid() && Contents() == old(Contents()) + [Kept(msg.buf[..msg.size], true)] && fresh(recvBuf)
    {
      var owned := msg.(owned := true);
      recvBuf := new byte[recvBufSize](_ => 0);
      Keep(owned);
    }

    /** `handleFetchMessage` when the future is not there: a copy with its own buffer is saved. */
    method HandleDeferredFetch(msg: Message)
      requires Valid() && msg.size <= msg.buf.Length
      modifies this`kept
      ensures Valid() && Contents() == old(Contents()) + [Kept(msg.buf[..msg.size], true)]
    {
      var copy := new byte[msg.size](_ => 0);
      CopyTo(copy, 0, msg.buf[..msg.size]);
      assert copy[..msg.size] == msg.buf[..msg.size];
      Keep(Message(copy, msg.size, true));
    }

    method Drop(i: nat) returns (msg: Message)
      requires Valid() && i < |kept|
      modifies this`kept
      ensures Valid() && Contents() == old(Contents()[..i] + Contents()[i + 1..])
      ensures msg == old(kept[i]) && msg.buf !in freed && msg.buf != recvBuf
      ensures forall k :: 0 <= k < |kept| ==> kept[k].buf != msg.buf
    {
      ghost var was := kept;
      msg := kept[i];
      kept := kept[..i] + kept[i + 1..];
      assert forall k :: 0 <= k < |kept| ==> kept[k] == if k < i then was[k] else was[k + 1];
    }

    /** The last reference to a kept message goes: its destructor frees the buffer if it owns it. */
    method DestroyMessage(i: nat)
      requires Valid()
      modifies this`kept, this`freed
      ensures Valid() && Contents() == KeepOne(old(Contents()), Destroy(i))
      ensures freed == old(freed) + if i < |old(kept)| && old(kept)[i].owned then {old(kept)[i].buf} else {}
    {
      if i < |kept| {
        var msg := Drop(i);
        if msg.owned {
          Delete(msg.buf);
        }
      }
    }

    /** One event at the process. Whatever it keeps, it keeps for good: a receive changes no byte of it. */
    method Handle(e: Event)
      requires Valid() && NonEmpty(e)
      modifies this, recvBuf
      ensures Valid() && Contents() == KeepOne(old(Contents()), e)
      ensures recvBuf == old(recvBuf) || recvBuf == null || fresh(recvBuf)
    {
      match e
      case Receive(bytes, waits) =>
        var msg := ReceiveActorMessage(bytes);
        match FateOf(bytes, waits) {
          case Copied => Keep(msg);
          case TakenOver =>
            assert msg.buf !in Buffers();
            HandleStoreResult(msg);
          case Saved => HandleDeferredFetch(msg);
          case Dropped =>
        }
      case Destroy(i) =>
        DestroyMessage(i);
    }

    /** Over every run: the kept messages show exactly the bytes they arrived with, as if each had been kept by
        value, no two of them share a buffer, and no buffer is freed twice or used after it was freed. */
    method Serve(es: seq<Event>)
      requires Valid() && forall i :: 0 <= i < |es| ==> NonEmpty(es[i])
      modifies this, recvBuf
      ensures Valid() && Contents() == KeepAll(old(Contents()), es)
    {
      for i := 0 to |es|
        invariant Valid() && Contents() == KeepAll(old(Contents()), es[..i])
        invariant recvBuf == old(recvBuf) || recvBuf == null || fresh(recvBuf)
      {
        Handle(es[i]);
        assert es[..i + 1] == es[..i] + [es[i]];
        KeepAllSnoc(old(Contents()), es[..i], es[i]);
      }
      assert es[..|es|] == es;
    }
  }
}
