/** Contiguous serialization of argument packs: every argument is a plain value of a fixed size or a vector of
    such values, preceded by its length. */
module Serialization {
  import opened Bytes

  /** The bytes of an argument: one value, or a vector of values of one size. */
  datatype Value = Plain(bytes: seq<byte>) | Vector(elems: seq<seq<byte>>)

  /** The type that the receiver deserializes into. */
  datatype Kind = PlainKind(size: nat) | VectorKind(elemSize: nat)

  const SIZE_BYTES: nat := 8

  /** `v` has the type, and its length fits `size_t`. */
  predicate HasKind(v: Value, k: Kind) {
    match k
    case PlainKind(size) => v.Plain? && |v.bytes| == size
    case VectorKind(size) =>
      && v.Vector? && |v.elems| < Power256(SIZE_BYTES)
      && forall i :: 0 <= i < |v.elems| ==> |v.elems[i]| == size
  }

  predicate HasKinds(vs: seq<Value>, ks: seq<Kind>) {
    |vs| == |ks| && forall i :: 0 <= i < |vs| ==> HasKind(vs[i], ks[i])
  }

  // ----- sizes -----

  /** `predict_contiguous_unit_serialization_size`. */
  function Predict(v: Value, k: Kind): nat {
    match k
    case PlainKind(size) => size
    case VectorKind(size) => SIZE_BYTES + (if v.Vector? then |v.elems| * size else 0)
  }

  function PredictAll(vs: seq<Value>, ks: seq<Kind>): nat
    requires |vs| == |ks|
  {
    if vs == [] then 0 else Predict(vs[0], ks[0]) + PredictAll(vs[1..], ks[1..])
  }

  // ----- bytes -----

  function Join(elems: seq<seq<byte>>): seq<byte> {
    if elems == [] then [] else elems[0] + Join(elems[1..])
  }

  function UnitBytes(v: Value): seq<byte> {
    match v
    case Plain(bytes) => bytes
    case Vector(elems) => EncodeLE(|elems|, SIZE_BYTES) + Join(elems)
  }

  function AllBytes(vs: seq<Value>): seq<byte> {
    if vs == [] then [] else UnitBytes(vs[0]) + AllBytes(vs[1..])
  }

  lemma {:induction false} JoinSize(elems: seq<seq<byte>>, size: nat)
    requires forall i :: 0 <= i < |elems| ==> |elems[i]| == size
    ensures |Join(elems)| == |elems| * size
  {
    if elems != [] {
      JoinSize(elems[1..], size);
      assert |elems| * size == size + (|elems| - 1) * size;
    }
  }

  /** A value takes exactly the predicted number of bytes. */
  lemma UnitSize(v: Value, k: Kind)
    requires HasKind(v, k)
    ensures |UnitBytes(v)| == Predict(v, k)
  {
    if v.Vector? {
      JoinSize(v.elems, k.elemSize);
    }
  }

  /** A pack takes exactly the predicted number of bytes. */
  lemma {:induction false} PackSize(vs: seq<Value>, ks: seq<Kind>)
    requires HasKinds(vs, ks)
    ensures |AllBytes(vs)| == PredictAll(vs, ks)
  {
    if vs != [] {
      HeadAndTailKinds(vs, ks);
      UnitSize(vs[0], ks[0]);
      PackSize(vs[1..], ks[1..]);
    }
  }

  // ----- writing -----

  lemma SpliceTwice(buf: seq<byte>, pos: nat, a: seq<byte>, b: seq<byte>)
    requires pos + |a| + |b| <= |buf|
    ensures Splice(Splice(buf, pos, a), pos + |a|, b) == Splice(buf, pos, a + b)
  {
  }

  /** The elements of a vector, one after the other. */
  method CopyElems(buf: array<byte>, pos: nat, elems: seq<seq<byte>>)
    requires pos + |Join(elems)| <= buf.Length
    modifies buf
    ensures buf[..] == Splice(old(buf[..]), pos, Join(elems))
    decreases |elems|
  {
    if elems != [] {
      CopyTo(buf, pos, elems[0]);
      CopyElems(buf, pos + |elems[0]|, elems[1..]);
      SpliceTwice(old(buf[..]), pos, elems[0], Join(elems[1..]));
    }
  }

  /** `contiguous_serialize_unit_to_buf`. */
  method SerializeUnit(buf: array<byte>, pos: nat, v: Value) returns (written: nat)
    requires pos + |UnitBytes(v)| <= buf.Length
    modifies buf
    ensures buf[..] == Splice(old(buf[..]), pos, UnitBytes(v)) && written == |UnitBytes(v)|
  {
    if v.Plain? {
      CopyTo(buf, pos, v.bytes);
      written := |v.bytes|;
    } else {
      CopyTo(buf, pos, EncodeLE(|v.elems|, SIZE_BYTES));
      CopyElems(buf, pos + SIZE_BYTES, v.elems);
      SpliceTwice(old(buf[..]), pos, EncodeLE(|v.elems|, SIZE_BYTES), Join(v.elems));
      written := SIZE_BYTES + |Join(v.elems)|;
    }
  }

  /** `contiguous_serialize_all_to_buf`: fills the predicted stretch, nothing before or behind it. */
  method SerializeAll(buf: array<byte>, pos: nat, vs: seq<Value>, ghost ks: seq<Kind>)
    requires HasKinds(vs, ks) && pos + PredictAll(vs, ks) <= buf.Length
    modifies buf
    ensures |AllBytes(vs)| == PredictAll(vs, ks)
    ensures buf[..] == Splice(old(buf[..]), pos, AllBytes(vs))
    decreases |vs|
  {
    PackSize(vs, ks);
    if vs != [] {
      HeadAndTailKinds(vs, ks);
      UnitSize(vs[0], ks[0]);
      var written := SerializeUnit(buf, pos, vs[0]);
      SerializeAll(buf, pos + written, vs[1..], ks[1..]);
      SpliceTwice(old(buf[..]), pos, UnitBytes(vs[0]), AllBytes(vs[1..]));
    }
  }

  // ----- reading -----

  /** `n` elements of `size` bytes from the front of `s`. */
  function Chunks(s: seq<byte>, n: nat, size: nat): Option<seq<seq<byte>>>
    decreases n
  {
    if n == 0 then Some([])
    else if |s| < size then None
    else
      var rest := Chunks(s[size..], n - 1, size);
      if rest.None? then None else Some([s[..size]] + rest.value)
  }

  /** `contiguous_deserialize_unit`; None where it would read behind the buffer. */
  function DeserializeUnit(s: seq<byte>, k: Kind): Option<Value> {
    match k
    case PlainKind(size) => if |s| < size then None else Some(Plain(s[..size]))
    case VectorKind(size) =>
      if |s| < SIZE_BYTES then None
      else
        var elems := Chunks(s[SIZE_BYTES..], DecodeLE(s[..SIZE_BYTES]), size);
        if elems.None? then None else Some(Vector(elems.value))
  }

  /** What `contiguous_deserialize_unit` returns: how far it read. */
  function Consumed(s: seq<byte>, k: Kind): nat
    requires DeserializeUnit(s, k).Some?
  {
    match k
    case PlainKind(size) => size
    case VectorKind(size) => DecodeLE(s[..SIZE_BYTES]) * size + SIZE_BYTES
  }

  /** `contiguous_deserialize_all`. */
  function DeserializeAll(s: seq<byte>, ks: seq<Kind>): Option<seq<Value>>
    decreases |ks|
  {
    if ks == [] then Some([])
    else
      var first := DeserializeUnit(s, ks[0]);
      if first.None? then None
      else
        UnitExact(s, ks[0], first.value);
        UnitSize(first.value, ks[0]);
        var rest := DeserializeAll(s[Consumed(s, ks[0])..], ks[1..]);
        if rest.None? then None else Some([first.value] + rest.value)
  }

  predicate StartsWith(s: seq<byte>, prefix: seq<byte>) {
    |prefix| <= |s| && s[..|prefix|] == prefix
  }

  lemma StartsWithConcat(s: seq<byte>, a: seq<byte>, b: seq<byte>)
    ensures StartsWith(s, a + b) <==> StartsWith(s, a) && StartsWith(s[|a|..], b)
  {
    if StartsWith(s, a + b) {
      assert s[..|a|] == s[..|a + b|][..|a|] == a;
      assert s[|a|..][..|b|] == s[..|a + b|][|a|..] == b;
    }
    if StartsWith(s, a) && StartsWith(s[|a|..], b) {
      assert s[..|a + b|] == s[..|a|] + s[|a|..][..|b|];
    }
  }

  ghost predicate AllOfSize(elems: seq<seq<byte>>, size: nat) {
    forall i :: 0 <= i < |elems| ==> |elems[i]| == size
  }

  /** Cutting gives the elements exactly when the bytes start with them. */
  lemma {:induction false} ChunksExact(s: seq<byte>, n: nat, size: nat, elems: seq<seq<byte>>)
    ensures Chunks(s, n, size) == Some(elems) <==> |elems| == n && AllOfSize(elems, size) && StartsWith(s, Join(elems))
    decreases n
  {
    if n > 0 && elems != [] {
      var tail := elems[1..];
      assert elems == [elems[0]] + tail;
      StartsWithConcat(s, elems[0], Join(tail));
      if |s| >= size {
        ChunksExact(s[size..], n - 1, size, tail);
        if AllOfSize(tail, size) && |elems[0]| == size {
          assert AllOfSize(elems, size);
        }
      }
    }
  }

  lemma UnitExact(s: seq<byte>, k: Kind, v: Value)
    ensures DeserializeUnit(s, k) == Some(v) <==> HasKind(v, k) && StartsWith(s, UnitBytes(v))
    ensures DeserializeUnit(s, k) == Some(v) ==> Consumed(s, k) == Predict(v, k)
  {
    if k.VectorKind? && v.Vector? {
      var head := EncodeLE(|v.elems|, SIZE_BYTES);
      StartsWithConcat(s, head, Join(v.elems));
      if |s| >= SIZE_BYTES {
        var n := DecodeLE(s[..SIZE_BYTES]);
        ChunksExact(s[SIZE_BYTES..], n, k.elemSize, v.elems);
        DecodeBound(s[..SIZE_BYTES]);
        EncodeDecode(s[..SIZE_BYTES]);
        if |v.elems| < Power256(SIZE_BYTES) {
          DecodeEncode(|v.elems|, SIZE_BYTES);
        }
      }
    }
  }

  /** Reading with the right types gives a pack if and only if the bytes start with that pack serialized: a round
      trip in both directions. */
  lemma {:induction false} DeserializeExact(s: seq<byte>, ks: seq<Kind>, vs: seq<Value>)
    ensures DeserializeAll(s, ks) == Some(vs) <==> HasKinds(vs, ks) && StartsWith(s, AllBytes(vs))
    decreases |ks|
  {
    if ks != [] && vs != [] {
      var v, tail := vs[0], vs[1..];
      assert vs == [v] + tail;
      UnitExact(s, ks[0], v);
      StartsWithConcat(s, UnitBytes(v), AllBytes(tail));
      if DeserializeUnit(s, ks[0]) == Some(v) {
        UnitSize(v, ks[0]);
        DeserializeExact(s[|UnitBytes(v)|..], ks[1..], tail);
      }
      HeadAndTailKinds(vs, ks);
    }
  }

  lemma HeadAndTailKinds(vs: seq<Value>, ks: seq<Kind>)
    requires vs != [] && ks != []
    ensures HasKinds(vs, ks) <==> HasKind(vs[0], ks[0]) && HasKinds(vs[1..], ks[1..])
  {
    if HasKind(vs[0], ks[0]) && HasKinds(vs[1..], ks[1..]) {
      forall i | 0 <= i < |vs|
        ensures HasKind(vs[i], ks[i])
      {
        if i > 0 {
          assert vs[i] == vs[1..][i - 1] && ks[i] == ks[1..][i - 1];
        }
      }
    }
  }

  /** What a buffer holds after serializing a pack is read back as that pack, whatever lies behind it. */
  lemma RoundTrip(vs: seq<Value>, ks: seq<Kind>, behind: seq<byte>)
    requires HasKinds(vs, ks)
    ensures DeserializeAll(AllBytes(vs) + behind, ks) == Some(vs)
  {
    DeserializeExact(AllBytes(vs) + behind, ks, vs);
  }
}
