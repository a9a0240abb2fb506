/** The hash index of `ImageDatabase`: which process holds which bucket, and what the buckets hold after a list of
    inserts, for any hash functions. */
module ImageHash {
  import opened Bytes
  import BD = BlockDistribution

  const HASH_SIZE: nat := 12289

  // ----- the partition of the buckets -----

  function HashBlock(p: nat): (r: nat)
    requires 1 <= p
    ensures r >= 1
  {
    HASH_SIZE / p + if HASH_SIZE % p != 0 then 1 else 0
  }

  /** The block is the least with which `p` processes reach all buckets. */
  lemma LeastHashBlock(p: nat, k: nat)
    requires 1 <= p
    ensures HashBlock(p) <= k <==> HASH_SIZE <= p * k
  {
    BD.DivMod(HASH_SIZE, p);
    var q := HASH_SIZE / p;
    if HashBlock(p) <= k {
      BlocksReachAll(p);
      BD.MulMonotone(HashBlock(p), k, p);
    } else if HASH_SIZE % p == 0 {
      BD.MulMonotone(k + 1, q, p);
    } else {
      BD.MulMonotone(k, q, p);
    }
  }

  function HashStart(s: nat, p: nat): nat
    requires 1 <= p
  {
    HashBlock(p) * s
  }

  /** `_nhash`, in `size_t` arithmetic: the difference wraps round when the process starts behind the last bucket. */
  function NHash(s: nat, p: nat): int
    requires 1 <= p
  {
    if HashStart(s, p) + HashBlock(p) <= HASH_SIZE then HashBlock(p)
    else if HashStart(s, p) <= HASH_SIZE then HASH_SIZE - HashStart(s, p)
    else HASH_SIZE - HashStart(s, p) + TWO_TO_64
  }

  /** The number of buckets in [0, HASH_SIZE) that process `s` should have. */
  function BucketsOf(s: nat, p: nat): nat
    requires 1 <= p
  {
    if HashStart(s, p) >= HASH_SIZE then 0
    else if HashStart(s, p) + HashBlock(p) <= HASH_SIZE then HashBlock(p)
    else HASH_SIZE - HashStart(s, p)
  }

  /** No process starts behind the last bucket. */
  predicate Constructible(p: nat)
    requires 1 <= p
  {
    HashStart(p - 1, p) <= HASH_SIZE
  }

  lemma HashStartMonotone(s: nat, t: nat, p: nat)
    requires 1 <= p && s <= t
    ensures HashStart(s, p) <= HashStart(t, p)
  {
    BD.MulMonotone(s, t, HashBlock(p));
  }

  lemma HashBlockSmall(p: nat)
    requires 1 <= p
    ensures HashBlock(p) <= HASH_SIZE
  {
    BD.DivMod(HASH_SIZE, p);
    if p > 1 {
      var q := HASH_SIZE / p;
      BD.MulMonotone(2, p, q);
    }
  }

  /** Every table has its share of the buckets if and only if no process starts behind the last one. */
  lemma TablesSizedRight(p: nat)
    requires 1 <= p <= INT_MAX
    ensures (forall s: nat :: s < p ==> NHash(s, p) == BucketsOf(s, p)) <==> Constructible(p)
  {
    if Constructible(p) {
      forall s: nat | s < p
        ensures NHash(s, p) == BucketsOf(s, p)
      {
        HashStartMonotone(s, p - 1, p);
      }
    } else {
      HashBlockSmall(p);
      BD.MulMonotone(p - 1, INT_MAX, HashBlock(p));
      BD.MulMonotone(HashBlock(p), HASH_SIZE, INT_MAX);
      assert NHash(p - 1, p) != BucketsOf(p - 1, p);
    }
  }

  /** Up to 111 processes always work; 200 do not. */
  lemma FewProcessesConstruct(p: nat)
    requires 1 <= p <= 111
    ensures Constructible(p)
    ensures !Constructible(200)
  {
    BD.DivMod(HASH_SIZE, p);
    BlockTimes(HASH_SIZE / p, p, HASH_SIZE % p, HashBlock(p));
    assert HashBlock(200) == 62;
  }

  lemma BlockTimes(q: nat, p: nat, r: nat, block: nat)
    requires 1 <= p <= 111 && q * p + r == HASH_SIZE && r < p && block <= q + 1
    ensures block * (p - 1) <= HASH_SIZE
  {
    BD.MulMonotone(p - 1, 110, p);
    assert q >= p - 1 by {
      if q + 1 <= p - 1 {
        BD.MulMonotone(q + 1, p - 1, p);
      }
    }
    BD.MulMonotone(block, q + 1, p - 1);
    assert (q + 1) * (p - 1) == q * p - q + p - 1;
  }

  /** The process that a hash value belongs to. */
  function Owner(m: nat, p: nat): nat
    requires 1 <= p
  {
    m / HashBlock(p)
  }

  /** Every bucket has exactly one owner, whose table reaches it. */
  lemma OwnerHasBucket(m: nat, p: nat, s: nat)
    requires 1 <= p && m < HASH_SIZE
    ensures Owner(m, p) < p
    ensures s == Owner(m, p) <==> HashStart(s, p) <= m < HashStart(s, p) + BucketsOf(s, p)
  {
    BlocksReachAll(p);
    WhichBlock(m, HashBlock(p), s, p);
  }

  lemma BlocksReachAll(p: nat)
    requires 1 <= p
    ensures HashBlock(p) * p >= HASH_SIZE
  {
    BD.DivMod(HASH_SIZE, p);
    var q := HASH_SIZE / p;
    assert (q + 1) * p == q * p + p;
  }

  lemma WhichBlock(m: nat, b: nat, s: nat, p: nat)
    requires b >= 1 && m < b * p
    ensures m / b < p
    ensures s == m / b <==> b * s <= m < b * s + b
  {
    var d := m / b;
    BD.DivMod(m, b);
    assert b * d <= m < b * d + b;
    if d >= p {
      BD.MulMonotone(p, d, b);
    }
    assert b * (d + 1) == b * d + b && b * (s + 1) == b * s + b;
    if s < d {
      BD.MulMonotone(s + 1, d, b);
    } else if d < s {
      BD.MulMonotone(d + 1, s, b);
    }
  }

  // ----- what an image hashes to -----

  type Image = seq<byte>

  /** `boost::hash_range` over the bytes of a part, and over the parts' hashes. */
  datatype Hashing = Hashing(part: seq<byte> -> nat, combine: seq<nat> -> nat)

  /** Process `s`'s part of an image of `n` bytes. */
  function PartOf(img: Image, s: nat, p: nat): (r: seq<byte>)
    requires s < p
    ensures |r| == BD.BlockSize(|img|, s, p)
  {
    BD.BlockInside(|img|, s, p);
    img[BD.BlockBegin(|img|, s, p)..BD.BlockEnd(|img|, s, p)]
  }

  function LocalHashes(h: Hashing, img: Image, p: nat): (r: seq<nat>)
    requires 1 <= p
  {
    seq<nat>(p, s requires 0 <= s < p => h.part(PartOf(img, s, p)))
  }

  /** `modulus_hash`. */
  function Modulus(h: Hashing, img: Image, p: nat): (r: nat)
    requires 1 <= p
    ensures r < HASH_SIZE
  {
    h.combine(LocalHashes(h, img, p)) % HASH_SIZE
  }

  // ----- the tables that a list of inserts leaves -----

  /** The images of `log` that process `s` received, in order. */
  function ReceivedBy(log: seq<Image>, h: Hashing, s: nat, p: nat): (r: seq<Image>)
    requires 1 <= p
  {
    if log == [] then []
    else
      var before, last := ReceivedBy(log[..|log| - 1], h, s, p), log[|log| - 1];
      if Owner(Modulus(h, last, p), p) == s then before + [last] else before
  }

  /** Bucket `m`: the images with that hash, each at its first insert. */
  function Bucket(log: seq<Image>, h: Hashing, m: nat, p: nat): (r: seq<Image>)
    requires 1 <= p
  {
    if log == [] then []
    else
      var before, last := Bucket(log[..|log| - 1], h, m, p), log[|log| - 1];
      if Modulus(h, last, p) == m && last !in before then before + [last] else before
  }

  ghost predicate NoRepeats(s: seq<Image>) {
    forall i, k :: 0 <= i < k < |s| ==> s[i] != s[k]
  }

  /** A bucket is a set without repeats: the inserted images with its hash. */
  lemma {:induction false} BucketIsSet(log: seq<Image>, h: Hashing, m: nat, p: nat, img: Image)
    requires 1 <= p
    ensures NoRepeats(Bucket(log, h, m, p))
    ensures img in Bucket(log, h, m, p) <==> img in log && Modulus(h, img, p) == m
  {
    if log != [] {
      var init, last := log[..|log| - 1], log[|log| - 1];
      assert log == init + [last];
      BucketIsSet(init, h, m, p, img);
      BucketIsSet(init, h, m, p, last);
    }
  }

  function Occurrences(s: seq<Image>, img: Image): nat {
    if s == [] then 0 else (if s[0] == img then 1 else 0) + Occurrences(s[1..], img)
  }

  lemma {:induction false} OccursAtMostOnce(s: seq<Image>, img: Image)
    requires NoRepeats(s)
    ensures Occurrences(s, img) == if img in s then 1 else 0
  {
    if s != [] {
      OccursAtMostOnce(s[1..], img);
      assert s == [s[0]] + s[1..];
      if img in s[1..] {
        var k :| 0 <= k < |s[1..]| && s[1..][k] == img;
        assert s[k + 1] == img && s[0] != s[k + 1];
      }
    }
  }

  /** How often `img` stands in the buckets [0, m). */
  function OccurrencesBelow(log: seq<Image>, h: Hashing, m: nat, p: nat, img: Image): nat
    requires 1 <= p
  {
    if m == 0 then 0
    else OccurrencesBelow(log, h, m - 1, p, img) + Occurrences(Bucket(log, h, m - 1, p), img)
  }

  lemma {:induction false} OccurrencesBelowCount(log: seq<Image>, h: Hashing, m: nat, p: nat, img: Image)
    requires 1 <= p
    ensures OccurrencesBelow(log, h, m, p, img) == if img in log && Modulus(h, img, p) < m then 1 else 0
  {
    if m > 0 {
      OccurrencesBelowCount(log, h, m - 1, p, img);
      BucketIsSet(log, h, m - 1, p, img);
      OccursAtMostOnce(Bucket(log, h, m - 1, p), img);
    }
  }

  /** The whole index holds every inserted image exactly once, and nothing else. */
  lemma IndexIsASet(log: seq<Image>, h: Hashing, p: nat, img: Image)
    requires 1 <= p
    ensures OccurrencesBelow(log, h, HASH_SIZE, p, img) == if img in log then 1 else 0
  {
    OccurrencesBelowCount(log, h, HASH_SIZE, p, img);
  }

  /** How many images the processes below `s` received. */
  function ReceivedBelow(log: seq<Image>, h: Hashing, s: nat, p: nat): nat
    requires 1 <= p
  {
    if s == 0 then 0 else ReceivedBelow(log, h, s - 1, p) + |ReceivedBy(log, h, s - 1, p)|
  }

  lemma {:induction false} ReceivedStep(log: seq<Image>, last: Image, h: Hashing, s: nat, p: nat)
    requires 1 <= p
    ensures ReceivedBelow(log + [last], h, s, p)
         == ReceivedBelow(log, h, s, p) + if Owner(Modulus(h, last, p), p) < s then 1 else 0
  {
    if s > 0 {
      ReceivedStep(log, last, h, s - 1, p);
      assert (log + [last])[..|log|] == log;
    }
  }

  lemma {:induction false} NothingReceived(h: Hashing, s: nat, p: nat)
    requires 1 <= p
    ensures ReceivedBelow([], h, s, p) == 0
  {
    if s > 0 {
      NothingReceived(h, s - 1, p);
    }
  }

  /** Every insert keeps one thumbnail on one process, repeats included. */
  lemma {:induction false} EveryInsertKept(log: seq<Image>, h: Hashing, p: nat)
    requires 1 <= p
    ensures ReceivedBelow(log, h, p, p) == |log|
  {
    if log == [] {
      NothingReceived(h, p, p);
    } else {
      var init, last := log[..|log| - 1], log[|log| - 1];
      assert log == init + [last];
      EveryInsertKept(init, h, p);
      ReceivedStep(init, last, h, p, p);
      OwnerHasBucket(Modulus(h, last, p), p, 0);
    }
  }
}

/** `ImageDatabase` on its `p` processes, superstep by superstep. */
module ImageIndex {
  import opened Bytes
  import opened ImageHash
  import BD = BlockDistribution

  /** One process's fields. A bucket lists pointers into `thumbnails`, which only grows. */
  datatype Process = Process(part: seq<byte>, procsBuf: seq<nat>, thumbnailBuf: seq<byte>,
                             thumbnails: seq<Image>, table: seq<seq<nat>>)

  predicate PointersOk(pr: Process) {
    forall b, k :: 0 <= b < |pr.table| && 0 <= k < |pr.table[b]| ==> pr.table[b][k] < |pr.thumbnails|
  }

  /** The images that a bucket points to. */
  function Deref(thumbnails: seq<Image>, bucket: seq<nat>): (r: seq<Image>)
    requires forall k :: 0 <= k < |bucket| ==> bucket[k] < |thumbnails|
  {
    seq(|bucket|, k requires 0 <= k < |bucket| => thumbnails[bucket[k]])
  }

  /** Process `s` holds what the inserts of `log` should leave there. */
  ghost predicate Holds(pr: Process, log: seq<Image>, h: Hashing, s: nat, p: nat)
    requires s < p
  {
    && pr.thumbnails == ReceivedBy(log, h, s, p)
    && |pr.table| == BucketsOf(s, p) && PointersOk(pr)
    && forall b :: 0 <= b < |pr.table| ==> Deref(pr.thumbnails, pr.table[b]) == Bucket(log, h, HashStart(s, p) + b, p)
  }

  /** The buffers have the sizes that they are registered with. */
  predicate Sized(pr: Process, s: nat, p: nat, n: nat)
    requires s < p
  {
    |pr.part| == BD.BlockSize(n, s, p) && |pr.procsBuf| == p && |pr.thumbnailBuf| == n
  }

  /** Nothing but the communication buffers differs. */
  predicate SameTables(a: Process, b: Process) {
    a.thumbnails == b.thumbnails && a.table == b.table
  }

  /** The puts of one superstep arrive in any order, each at least once. */
  predicate Delivery(order: seq<nat>, p: nat) {
    (forall k :: 0 <= k < |order| ==> order[k] < p) && (forall s: nat :: s < p ==> s in order)
  }

  datatype Request = Insert(img: Image) | Exist(img: Image)

  /** The images inserted by a list of requests. */
  function Inserted(rs: seq<Request>): (log: seq<Image>)
  {
    if rs == [] then []
    else
      Inserted(rs[..|rs| - 1]) + Added(rs[|rs| - 1])
  }

  function Added(r: Request): seq<Image> {
    if r.Insert? then [r.img] else []
  }

  /** What a request should answer: 0 for an insert, whether the image was inserted before for a query. */
  function AnswerTo(log: seq<Image>, r: Request): int {
    if r.Exist? && r.img in log then 1 else 0
  }

  function Answers(log: seq<Image>, rs: seq<Request>): (r: seq<int>)
    decreases |rs|
  {
    if rs == [] then [] else [AnswerTo(log, rs[0])] + Answers(log + Added(rs[0]), rs[1..])
  }

  lemma NextRequest(log: seq<Image>, rs: seq<Request>, i: nat)
    requires i < |rs|
    ensures Answers(log, rs[i..]) == [AnswerTo(log, rs[i])] + Answers(log + Added(rs[i]), rs[i + 1..])
    ensures Inserted(rs[..i + 1]) == Inserted(rs[..i]) + Added(rs[i])
  {
    assert rs[i..][0] == rs[i] && rs[i..][1..] == rs[i + 1..];
    assert rs[..i + 1][..i] == rs[..i];
  }

  lemma AppendKeepsDeref(thumbnails: seq<Image>, img: Image, bucket: seq<nat>)
    requires forall k :: 0 <= k < |bucket| ==> bucket[k] < |thumbnails|
    ensures Deref(thumbnails + [img], bucket) == Deref(thumbnails, bucket)
    ensures Deref(thumbnails + [img], bucket + [|thumbnails|]) == Deref(thumbnails, bucket) + [img]
  {
  }

  lemma OtherBucket(log: seq<Image>, img: Image, h: Hashing, m: nat, p: nat)
    requires 1 <= p && Modulus(h, img, p) != m
    ensures Bucket(log + [img], h, m, p) == Bucket(log, h, m, p)
  {
    assert (log + [img])[..|log|] == log;
  }

  /** Another process's insert leaves a process's tables right. */
  lemma HoldsElsewhere(pr: Process, log: seq<Image>, img: Image, h: Hashing, s: nat, p: nat)
    requires s < p && Holds(pr, log, h, s, p) && Owner(Modulus(h, img, p), p) != s
    ensures Holds(pr, log + [img], h, s, p)
  {
    var longer := log + [img];
    assert longer[..|longer| - 1] == log;
    OwnerHasBucket(Modulus(h, img, p), p, s);
    forall b | 0 <= b < |pr.table|
      ensures Deref(pr.thumbnails, pr.table[b]) == Bucket(longer, h, HashStart(s, p) + b, p)
    {
      OtherBucket(log, img, h, HashStart(s, p) + b, p);
    }
  }

  /** The owner's tables after its insert. */
  function Stored(pr: Process, img: Image, b: nat, found: bool): (r: Process)
    requires b < |pr.table|
  {
    pr.(thumbnails := pr.thumbnails + [img],
        table := if found then pr.table else pr.table[b := pr.table[b] + [|pr.thumbnails|]])
  }

  lemma HoldsAtOwner(pr: Process, log: seq<Image>, img: Image, h: Hashing, s: nat, p: nat, b: nat, found: bool)
    requires s < p && Holds(pr, log, h, s, p) && Owner(Modulus(h, img, p), p) == s
    requires HashStart(s, p) + b == Modulus(h, img, p) && b < |pr.table|
    requires found == (img in Deref(pr.thumbnails, pr.table[b]))
    ensures Holds(Stored(pr, img, b, found), log + [img], h, s, p)
  {
    var longer, after := log + [img], Stored(pr, img, b, found);
    assert longer[..|longer| - 1] == log;
    assert PointersOk(after);
    forall c | 0 <= c < |after.table|
      ensures Deref(after.thumbnails, after.table[c]) == Bucket(longer, h, HashStart(s, p) + c, p)
    {
      AppendKeepsDeref(pr.thumbnails, img, pr.table[c]);
    }
  }

  /** Bytes [begin, end) of process `t`'s block have arrived. */
  predicate Arrived(buf: seq<byte>, img: Image, t: nat, p: nat)
    requires t < p && |buf| == |img|
  {
    BD.BlockInside(|img|, t, p);
    buf[BD.BlockBegin(|img|, t, p)..BD.BlockEnd(|img|, t, p)] == PartOf(img, t, p)
  }

  /** A put of one part keeps the parts that came before it. */
  lemma PutKeepsArrived(buf: seq<byte>, img: Image, s: nat, t: nat, p: nat)
    requires s < p && t < p && |buf| == |img|
    requires BD.BlockBegin(|img|, s, p) + |PartOf(img, s, p)| <= |buf|
    ensures var after := Splice(buf, BD.BlockBegin(|img|, s, p), PartOf(img, s, p));
            Arrived(after, img, s, p) && (Arrived(buf, img, t, p) ==> Arrived(after, img, t, p))
  {
    BD.BlockInside(|img|, s, p);
    BD.BlockInside(|img|, t, p);
    var after := Splice(buf, BD.BlockBegin(|img|, s, p), PartOf(img, s, p));
    var lo, hi := BD.BlockBegin(|img|, t, p), BD.BlockEnd(|img|, t, p);
    if Arrived(buf, img, t, p) {
      forall i | lo <= i < hi
        ensures after[i] == img[i]
      {
        assert buf[i] == buf[lo..hi][i - lo] == img[i];
      }
    }
  }

  ghost predicate HasArrived(buf: seq<byte>, img: Image, from: seq<nat>, p: nat) {
    |buf| == |img| && forall i :: 0 <= i < |from| ==> from[i] < p && Arrived(buf, img, from[i], p)
  }

  lemma PutKeepsAll(buf: seq<byte>, img: Image, s: nat, before: seq<nat>, p: nat)
    requires s < p && HasArrived(buf, img, before, p)
    requires BD.BlockBegin(|img|, s, p) + |PartOf(img, s, p)| <= |buf|
    ensures HasArrived(Splice(buf, BD.BlockBegin(|img|, s, p), PartOf(img, s, p)), img, before + [s], p)
  {
    var after := Splice(buf, BD.BlockBegin(|img|, s, p), PartOf(img, s, p));
    PutKeepsArrived(buf, img, s, s, p);
    forall i | 0 <= i < |before|
      ensures Arrived(after, img, before[i], p)
    {
      PutKeepsArrived(buf, img, s, before[i], p);
    }
  }

  /** Once every part has arrived, whatever the order, the buffer is the image. */
  lemma AllArrived(buf: seq<byte>, img: Image, p: nat)
    requires 1 <= p && |buf| == |img| && forall t: nat :: t < p ==> Arrived(buf, img, t, p)
    ensures buf == img
  {
    forall i | 0 <= i < |img|
      ensures buf[i] == img[i]
    {
      BD.BlocksTile(|img|, p, 0, 0);
      var t := BD.BlockOf(|img|, i, p, p);
      BD.BlockInside(|img|, t, p);
      assert Arrived(buf, img, t, p);
      var lo, hi := BD.BlockBegin(|img|, t, p), BD.BlockEnd(|img|, t, p);
      assert buf[i] == buf[lo..hi][i - lo];
    }
  }

  lemma DeliveredImage(buf: seq<byte>, img: Image, order: seq<nat>, p: nat)
    requires 1 <= p && Delivery(order, p) && HasArrived(buf, img, order, p)
    ensures buf == img
  {
    forall t: nat | t < p
      ensures Arrived(buf, img, t, p)
    {
      assert t in order;
      var i :| 0 <= i < |order| && order[i] == t;
    }
    AllArrived(buf, img, p);
  }

  class ImageDatabase {
    const p: nat
    const n: nat
    const h: Hashing
    var procs: seq<Process>
    var globalMatch: int
    /** The images inserted so far. */
    ghost var log: seq<Image>

    ghost predicate Shaped()
      reads this
    {
      && BD.Partitions(n, p) && |procs| == p
      && forall s: nat :: s < p ==> Sized(procs[s], s, p, n)
    }

    /** The tables on all processes are those that the inserts so far should leave. */
    ghost predicate Valid()
      reads this
    {
      && Shaped()
      && (forall s: nat :: s < p ==> Holds(procs[s], log, h, s, p))
      && (forall i :: 0 <= i < |log| ==> |log[i]| == n)
    }

    /** The constructor and `setImgParams` on every process, for images of `size` bytes. */
    constructor (processes: nat, size: nat, hashing: Hashing)
      requires BD.Partitions(size, processes) && Constructible(processes)
      ensures Valid() && p == processes && n == size && h == hashing && log == []
    {
      TablesSizedRight(processes);
      p, n, h, log, globalMatch := processes, size, hashing, [], 0;
      procs := seq(processes, s requires 0 <= s < processes =>
        Process(Zeros(BD.BlockSize(size, s, processes)), seq(processes, _ => 0), Zeros(size), [],
                seq(NHash(s, processes), _ => [])));
    }

    /** First superstep: every process fetches its part. */
    method FetchParts(img: Image)
      requires Shaped() && |img| == n
      modifies this`procs
      ensures Shaped()
      ensures forall s: nat :: s < p ==> procs[s].part == PartOf(img, s, p) && SameTables(procs[s], old(procs[s]))
    {
      for k := 0 to p
        invariant Shaped()
        invariant forall s: nat :: s < p ==> SameTables(procs[s], old(procs[s]))
        invariant forall s: nat :: s < k ==> procs[s].part == PartOf(img, s, p)
      {
        var begin, end := BD.DivideRange(n, k, p);
        BD.BlockInside(n, k, p);
        procs := procs[k := procs[k].(part := img[begin..end])];
      }
    }

    /** Every process puts its part's hash into every process's table of hashes. */
    method ExchangeHashes(img: Image)
      requires Shaped() && |img| == n
      requires forall s: nat :: s < p ==> procs[s].part == PartOf(img, s, p)
      modifies this`procs
      ensures Shaped()
      ensures Hashed(img)
      ensures forall s: nat :: s < p ==> SameTables(procs[s], old(procs[s]))
    {
      for from := 0 to p
        invariant Shaped()
        invariant forall s: nat :: s < p ==> procs[s].part == PartOf(img, s, p) && SameTables(procs[s], old(procs[s]))
        invariant forall s: nat, t: nat :: s < p && t < from ==> procs[s].procsBuf[t] == LocalHashes(h, img, p)[t]
      {
        var local := h.part(procs[from].part);
        for to := 0 to p
          invariant Shaped()
          invariant forall s: nat :: s < p ==> procs[s].part == PartOf(img, s, p) && SameTables(procs[s], old(procs[s]))
          invariant forall s: nat, t: nat :: s < p && t < from ==> procs[s].procsBuf[t] == LocalHashes(h, img, p)[t]
          invariant forall s: nat :: s < to ==> procs[s].procsBuf[from] == local
        {
          procs := procs[to := procs[to].(procsBuf := procs[to].procsBuf[from := local])];
        }
      }
    }

    /** Every process has its part of the image and all the parts' hashes. */
    ghost predicate Hashed(img: Image)
      requires Shaped() && |img| == n
      reads this
    {
      forall s: nat :: s < p ==> procs[s].part == PartOf(img, s, p) && procs[s].procsBuf == LocalHashes(h, img, p)
    }

    /** Process `s` puts its part where its own table of hashes says. */
    method PutPart(img: Image, s: nat, ghost before: seq<nat>)
      requires Shaped() && |img| == n && Hashed(img) && s < p
      requires var d := Owner(Modulus(h, img, p), p); d < p && HasArrived(procs[d].thumbnailBuf, img, before, p)
      modifies this`procs
      ensures Shaped() && Hashed(img)
      ensures HasArrived(procs[Owner(Modulus(h, img, p), p)].thumbnailBuf, img, before + [s], p)
      ensures forall t: nat :: t < p ==> SameTables(procs[t], old(procs[t]))
    {
      var dst := Owner(h.combine(procs[s].procsBuf) % HASH_SIZE, p);
      BD.BlockInside(n, s, p);
      PutKeepsAll(procs[dst].thumbnailBuf, img, s, before, p);
      var buf := Splice(procs[dst].thumbnailBuf, BD.BlockBegin(n, s, p), procs[s].part);
      procs := procs[dst := procs[dst].(thumbnailBuf := buf)];
    }

    /** Every process works out the owner from its own table of hashes and puts its part into that process's
        buffer. All work out the same owner, and whatever the order of arrival its buffer ends up as the image. */
    method GatherAtOwner(img: Image, order: seq<nat>) returns (m: nat)
      requires Shaped() && |img| == n && Delivery(order, p)
      requires Hashed(img)
      modifies this`procs
      ensures Shaped() && m == Modulus(h, img, p) && Owner(m, p) < p
      ensures procs[Owner(m, p)].thumbnailBuf == img
      ensures forall s: nat :: s < p ==> SameTables(procs[s], old(procs[s]))
    {
      ghost var d := Owner(Modulus(h, img, p), p);
      OwnerHasBucket(Modulus(h, img, p), p, 0);
      for k := 0 to |order|
        invariant Shaped()
        invariant forall s: nat :: s < p ==> SameTables(procs[s], old(procs[s]))
        invariant Hashed(img) && HasArrived(procs[d].thumbnailBuf, img, order[..k], p)
      {
        PutPart(img, order[k], order[..k]);
        assert order[..k + 1] == order[..k] + [order[k]];
      }
      assert order[..|order|] == order;
      DeliveredImage(procs[d].thumbnailBuf, img, order, p);
      m := h.combine(procs[0].procsBuf) % HASH_SIZE;
    }

    /** The three supersteps that insert and exist share. */
    method Collect(img: Image, order: seq<nat>) returns (m: nat)
      requires Valid() && |img| == n && Delivery(order, p)
      modifies this`procs
      ensures Valid() && m == Modulus(h, img, p) && Owner(m, p) < p
      ensures procs[Owner(m, p)].thumbnailBuf == img
    {
      FetchParts(img);
      ExchangeHashes(img);
      m := GatherAtOwner(img, order);
    }

    /** The owner's search of one bucket. */
    method Search(d: nat, b: nat) returns (found: bool)
      requires d < |procs| && b < |procs[d].table| && PointersOk(procs[d])
      ensures found == (procs[d].thumbnailBuf in Deref(procs[d].thumbnails, procs[d].table[b]))
    {
      found := false;
      var k := 0;
      while k < |procs[d].table[b]| && !found
        invariant 0 <= k <= |procs[d].table[b]|
        invariant found == (procs[d].thumbnailBuf in Deref(procs[d].thumbnails, procs[d].table[b])[..k])
      {
        var all := Deref(procs[d].thumbnails, procs[d].table[b]);
        assert all[..k + 1] == all[..k] + [all[k]];
        found := procs[d].thumbnails[procs[d].table[b][k]] == procs[d].thumbnailBuf;
        k := k + 1;
      }
    }

    /** `insert`. */
    method InsertImage(img: Image, order: seq<nat>)
      requires Valid() && |img| == n && Delivery(order, p)
      modifies this
      ensures Valid() && log == old(log) + [img] && globalMatch == old(globalMatch)
    {
      var m := Collect(img, order);
      var d := Owner(m, p);
      OwnerHasBucket(m, p, d);
      var b := m - HashStart(d, p);
      var found := Search(d, b);
      HoldsAtOwner(procs[d], log, img, h, d, p, b, found);
      forall s: nat | s < p && s != d
        ensures Holds(procs[s], log + [img], h, s, p)
      {
        HoldsElsewhere(procs[s], log, img, h, s, p);
      }
      procs := procs[d := Stored(procs[d], procs[d].thumbnailBuf, b, found)];
      log := log + [img];
    }

    /** `exist`: 1 if the image was inserted before, 0 if not. */
    method ImageExists(img: Image, order: seq<nat>) returns (r: int)
      requires Valid() && |img| == n && Delivery(order, p)
      modifies this
      ensures Valid() && log == old(log)
      ensures r == if img in log then 1 else 0
    {
      var m := Collect(img, order);
      var d := Owner(m, p);
      OwnerHasBucket(m, p, d);
      var found := Search(d, m - HashStart(d, p));
      BucketIsSet(log, h, m, p, img);
      globalMatch := if found then 1 else 0;
      r := globalMatch;
    }

    method ServeRequest(r: Request, order: seq<nat>) returns (answer: int)
      requires Valid() && |r.img| == n && Delivery(order, p)
      modifies this
      ensures Valid() && log == old(log) + Added(r) && answer == AnswerTo(old(log), r)
    {
      if r.Insert? {
        InsertImage(r.img, order);
        answer := 0;
      } else {
        answer := ImageExists(r.img, order);
        assert log + [] == log;
      }
    }

    /** Any list of requests, each superstep's puts arriving in any order: every query answers whether the image
        was inserted before it. */
    method Serve(rs: seq<Request>, orders: seq<seq<nat>>) returns (answers: seq<int>)
      requires Valid() && |orders| == |rs|
      requires forall i :: 0 <= i < |rs| ==> |rs[i].img| == n && Delivery(orders[i], p)
      modifies this
      ensures Valid() && answers == Answers(old(log), rs)
      ensures log == old(log) + Inserted(rs)
    {
      answers := [];
      for i := 0 to |rs|
        invariant Valid() && log == old(log) + Inserted(rs[..i])
        invariant answers + Answers(log, rs[i..]) == Answers(old(log), rs)
      {
        NextRequest(log, rs, i);
        ConcatAssociates(old(log), Inserted(rs[..i]), Added(rs[i]));
        var r := ServeRequest(rs[i], orders[i]);
        ConcatAssociates(answers, [r], Answers(log, rs[i + 1..]));
        answers := answers + [r];
      }
      assert rs[..|rs|] == rs;
    }
  }
}
