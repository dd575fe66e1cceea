/**
 The drop-front queue of packets that wait for a route (model/routemsg-queue.cc).
 A call of a packet's error callback is recorded by appending to `reported`.
 */
module RequestQueues {
  import opened Types
  import opened Vectors
  import opened Subsequences

  /** A waiting packet; `uid` stands for the packet and its callbacks. */
  datatype QueueEntry = QueueEntry(uid: nat, dst: Address, expire: Time)

  function IsExpired(now: Time): QueueEntry -> bool {
    (e: QueueEntry) => e.expire - now < 0
  }

  function IsEqual(dst: Address): QueueEntry -> bool {
    (e: QueueEntry) => e.dst == dst
  }

  function Not(p: QueueEntry -> bool): QueueEntry -> bool {
    (e: QueueEntry) => !p(e)
  }

  predicate Contains(queue: seq<QueueEntry>, uid: nat, dst: Address) {
    exists e :: e in queue && e.uid == uid && e.dst == dst
  }

  /** The queue together with the entries reported to their error callback so far. */
  datatype Queue = Queue(waiting: seq<QueueEntry>, reported: seq<QueueEntry>) {

    /** Report, in order, the entries that satisfy `drop`, and remove them. */
    function Discard(drop: QueueEntry -> bool): Queue {
      Queue(Keep(waiting, drop), reported + Keep(waiting, Not(drop)))
    }

    function Purge(now: Time): Queue {
      Discard(IsExpired(now))
    }

    predicate Accepts(uid: nat, dst: Address, now: Time) {
      !Contains(Purge(now).waiting, uid, dst)
    }

    function Enqueue(e: QueueEntry, now: Time, maxLen: uint32): Queue
      requires maxLen > 0
    {
      var p := Purge(now);
      if !Accepts(e.uid, e.dst, now) then p
      else if |p.waiting| == maxLen then Queue(p.waiting[1..] + [e], p.reported + [p.waiting[0]])
      else p.(waiting := p.waiting + [e])
    }

    function DropPacketWithDst(dst: Address, now: Time): Queue {
      Purge(now).Discard(IsEqual(dst))
    }

    function Dequeue(dst: Address, now: Time): (Queue, Option<QueueEntry>) {
      var p := Purge(now);
      var i := FirstFor(p.waiting, dst);
      if i == |p.waiting| then (p, None)
      else (p.(waiting := Without(p.waiting, i)), Some(p.waiting[i]))
    }
  }

  function Without(queue: seq<QueueEntry>, i: nat): seq<QueueEntry>
    requires i < |queue|
  {
    queue[..i] + queue[i + 1..]
  }

  /** The position of the first entry for `dst`, or the length when there is none. */
  function FirstFor(queue: seq<QueueEntry>, dst: Address): (i: nat)
    ensures i <= |queue|
    ensures forall j :: 0 <= j < i ==> queue[j].dst != dst
    ensures i < |queue| ==> queue[i].dst == dst
  {
    if queue == [] || queue[0].dst == dst then 0 else 1 + FirstFor(queue[1..], dst)
  }

  class RequestQueue {
    const queue: Vector<QueueEntry>
    var maxLen: uint32
    var queueTimeout: Time
    var reported: seq<QueueEntry>

    ghost predicate Valid()
      reads this, queue
    {
      queue.Valid()
    }

    ghost function View(): Queue
      reads this, queue, queue.data
      requires Valid()
    {
      Queue(queue.Contents(), reported)
    }

    constructor (maxLen: uint32, routeToQueueTimeout: Time)
      ensures Valid() && fresh(queue) && fresh(queue.data)
      ensures View() == Queue([], [])
      ensures this.maxLen == maxLen && queueTimeout == routeToQueueTimeout
    {
      queue := new Vector<QueueEntry>();
      this.maxLen := maxLen;
      queueTimeout := routeToQueueTimeout;
      reported := [];
    }

    method Drop(e: QueueEntry)
      modifies this`reported
      ensures reported == old(reported) + [e]
    {
      reported := reported + [e];
    }

    /** Report every entry that satisfies `drop`, then `erase (remove_if (...))`. */
    method Discard(drop: QueueEntry -> bool)
      requires Valid()
      modifies this`reported, queue`size, queue.data
      ensures Valid() && View() == old(View()).Discard(drop)
    {
      ghost var all := queue.Contents();
      for i := 0 to queue.size
        modifies this`reported
        invariant reported == old(reported) + Keep(all[..i], Not(drop))
      {
        assert all[..i + 1][..i] == all[..i];
        if drop(queue.data[i]) {
          Drop(queue.data[i]);
        }
      }
      assert all[..|all|] == all;
      queue.EraseRemoveIf(drop);
    }

    method Purge(now: Time)
      requires Valid()
      modifies this`reported, queue`size, queue.data
      ensures Valid() && View() == old(View()).Purge(now)
    {
      Discard(IsExpired(now));
    }

    method GetSize(now: Time) returns (size: nat)
      requires Valid()
      modifies this`reported, queue`size, queue.data
      ensures Valid() && View() == old(View()).Purge(now)
      ensures size == |View().waiting|
    {
      Purge(now);
      size := queue.size;
    }

    /**
     The expiry of the entry is set by the call, so the updated entry is returned.
     With a maximum length of zero the source takes the front of an empty vector.
     */
    method Enqueue(entry: QueueEntry, now: Time) returns (accepted: bool, queued: QueueEntry)
      requires Valid() && maxLen > 0
      modifies this`reported, queue, queue.data
      ensures Valid() && (queue.data == old(queue.data) || fresh(queue.data))
      ensures accepted == old(View()).Accepts(entry.uid, entry.dst, now)
      ensures queued == if accepted then entry.(expire := queueTimeout + now) else entry
      ensures View() == old(View()).Enqueue(entry.(expire := queueTimeout + now), now, maxLen)
    {
      hide Keep;
      Purge(now);
      for i := 0 to queue.size
        invariant forall j :: 0 <= j < i ==> !(queue.data[j].uid == entry.uid && queue.data[j].dst == entry.dst)
      {
        if queue.data[i].uid == entry.uid && queue.data[i].dst == entry.dst {
          assert queue.data[i] in queue.Contents();
          return false, entry;
        }
      }
      queued := entry.(expire := queueTimeout + now);
      if queue.size == maxLen {
        Drop(queue.data[0]);
        queue.Erase(0, 1);
      }
      queue.PushBack(queued);
      accepted := true;
    }

    method DropPacketWithDst(dst: Address, now: Time)
      requires Valid()
      modifies this`reported, queue`size, queue.data
      ensures Valid() && View() == old(View()).DropPacketWithDst(dst, now)
    {
      Purge(now);
      Discard(IsEqual(dst));
    }

    method Dequeue(dst: Address, now: Time) returns (result: Option<QueueEntry>)
      requires Valid()
      modifies this`reported, queue`size, queue.data
      ensures Valid() && View() == old(View()).Dequeue(dst, now).0
      ensures result == old(View()).Dequeue(dst, now).1
    {
      hide FirstFor, Keep;
      Purge(now);
      ghost var waiting := queue.Contents();
      for i := 0 to queue.size
        invariant forall j :: 0 <= j < i ==> queue.data[j].dst != dst
      {
        if queue.data[i].dst == dst {
          assert waiting[i].dst == dst && FirstFor(waiting, dst) == i;
          result := Some(queue.data[i]);
          queue.Erase(i, i + 1);
          return;
        }
      }
      result := None;
    }

    method Find(dst: Address) returns (found: bool)
      requires Valid()
      ensures found <==> exists e :: e in View().waiting && e.dst == dst
    {
      for i := 0 to queue.size
        invariant forall j :: 0 <= j < i ==> queue.data[j].dst != dst
      {
        if queue.data[i].dst == dst {
          assert queue.data[i] in queue.Contents();
          return true;
        }
      }
      found := false;
    }
  }

  // ---------- runs of the queue ----------

  datatype Op =
    | Enqueue(uid: nat, dst: Address)
    | Dequeue(dst: Address)
    | DropPacketWithDst(dst: Address)
    | GetSize
    | SetMaxQueueLen(len: uint32)
    | SetQueueTimeout(timeout: Time)

  /** An operation and the clock reading at which it is carried out. */
  datatype TimedOp = At(now: Time, op: Op)

  /** A queue with its parameters, and what went in and out through its interface. */
  datatype Run = Run(q: Queue, maxLen: uint32, timeout: Time, accepted: seq<QueueEntry>, dequeued: seq<QueueEntry>) {
    function Step(o: TimedOp): Run
      requires maxLen > 0
    {
      match o.op
      case Enqueue(uid, dst) =>
        var e := QueueEntry(uid, dst, timeout + o.now);
        this.(q := q.Enqueue(e, o.now, maxLen),
              accepted := if q.Accepts(uid, dst, o.now) then accepted + [e] else accepted)
      case Dequeue(dst) =>
        var (q', result) := q.Dequeue(dst, o.now);
        this.(q := q', dequeued := if result.Some? then dequeued + [result.value] else dequeued)
      case DropPacketWithDst(dst) => this.(q := q.DropPacketWithDst(dst, o.now))
      case GetSize => this.(q := q.Purge(o.now))
      case SetMaxQueueLen(len) => this.(maxLen := len)
      case SetQueueTimeout(t) => this.(timeout := t)
    }
  }

  /** Maximum lengths are positive throughout. */
  predicate Positive(ops: seq<TimedOp>) {
    forall o :: o in ops && o.op.SetMaxQueueLen? ==> o.op.len > 0
  }

  function Execute(r: Run, ops: seq<TimedOp>): (r': Run)
    requires r.maxLen > 0 && Positive(ops)
    ensures r'.maxLen > 0
  {
    if ops == [] then r
    else
      var o := ops[|ops| - 1];
      Execute(r, ops[..|ops| - 1]).Step(o)
  }

  function Start(maxLen: uint32, timeout: Time): Run {
    Run(Queue([], []), maxLen, timeout, [], [])
  }

  // ---------- conservation ----------

  /** What the queue still holds or has reported. */
  ghost function Accounted(q: Queue): multiset<QueueEntry> {
    multiset(q.waiting) + multiset(q.reported)
  }

  /** Everything accepted is waiting, was dequeued, or was reported, exactly once. */
  ghost predicate Conserved(r: Run) {
    multiset(r.accepted) == Accounted(r.q) + multiset(r.dequeued)
  }

  lemma {:induction false} KeepPartitions(s: seq<QueueEntry>, drop: QueueEntry -> bool)
    ensures multiset(Keep(s, drop)) + multiset(Keep(s, Not(drop))) == multiset(s)
  {
    if s != [] {
      KeepPartitions(s[..|s| - 1], drop);
      assert s == s[..|s| - 1] + [s[|s| - 1]];
    }
  }

  lemma DiscardConserves(q: Queue, drop: QueueEntry -> bool)
    ensures Accounted(q.Discard(drop)) == Accounted(q)
  {
    KeepPartitions(q.waiting, drop);
  }

  lemma PurgeConserves(q: Queue, now: Time)
    ensures Accounted(q.Purge(now)) == Accounted(q)
  {
    DiscardConserves(q, IsExpired(now));
  }

  lemma DropConserves(q: Queue, dst: Address, now: Time)
    ensures Accounted(q.DropPacketWithDst(dst, now)) == Accounted(q)
  {
    PurgeConserves(q, now);
    DiscardConserves(q.Purge(now), IsEqual(dst));
  }

  lemma TakeOneConserves(s: seq<QueueEntry>, i: nat)
    requires i < |s|
    ensures multiset(Without(s, i)) + multiset{s[i]} == multiset(s)
  {
    assert s == s[..i] + [s[i]] + s[i + 1..];
  }

  lemma EnqueueConserves(q: Queue, e: QueueEntry, now: Time, maxLen: uint32)
    requires maxLen > 0
    ensures Accounted(q.Enqueue(e, now, maxLen))
         == Accounted(q) + if q.Accepts(e.uid, e.dst, now) then multiset{e} else multiset{}
  {
    hide Keep, Queue.Purge;
    PurgeConserves(q, now);
    var p := q.Purge(now);
    if q.Accepts(e.uid, e.dst, now) && |p.waiting| == maxLen {
      assert p.waiting == [p.waiting[0]] + p.waiting[1..];
    }
  }

  ghost function Taken(result: Option<QueueEntry>): multiset<QueueEntry> {
    match result
    case None => multiset{}
    case Some(e) => multiset{e}
  }

  lemma DequeueConserves(q: Queue, dst: Address, now: Time)
    ensures Accounted(q.Dequeue(dst, now).0) + Taken(q.Dequeue(dst, now).1) == Accounted(q)
  {
    hide Keep, Queue.Purge, FirstFor, Without;
    PurgeConserves(q, now);
    var p := q.Purge(now);
    var i := FirstFor(p.waiting, dst);
    if i < |p.waiting| {
      TakeOneConserves(p.waiting, i);
    }
  }

  lemma StepConserves(r: Run, o: TimedOp)
    requires r.maxLen > 0 && Conserved(r)
    ensures Conserved(r.Step(o))
  {
    hide Queue.Enqueue, Queue.Dequeue, Queue.Purge, Queue.Discard, Queue.DropPacketWithDst, Queue.Accepts, Accounted;
    match o.op {
      case Enqueue(uid, dst) => EnqueueConserves(r.q, QueueEntry(uid, dst, r.timeout + o.now), o.now, r.maxLen);
      case Dequeue(dst) =>
        DequeueConserves(r.q, dst, o.now);
        var (q', result) := r.q.Dequeue(dst, o.now);
        var r' := r.Step(o);
        assert r'.q == q' && multiset(r'.dequeued) == multiset(r.dequeued) + Taken(result);
      case DropPacketWithDst(dst) => DropConserves(r.q, dst, o.now);
      case GetSize => PurgeConserves(r.q, o.now);
      case _ =>
    }
  }

  /** Over every run, whatever the clock does and however the parameters change. */
  lemma {:induction false} PacketsConserved(maxLen: uint32, timeout: Time, ops: seq<TimedOp>)
    requires maxLen > 0 && Positive(ops)
    ensures Conserved(Execute(Start(maxLen, timeout), ops))
  {
    if ops != [] {
      PacketsConserved(maxLen, timeout, ops[..|ops| - 1]);
      StepConserves(Execute(Start(maxLen, timeout), ops[..|ops| - 1]), ops[|ops| - 1]);
    }
  }

  // ---------- age order, uniqueness and the bound ----------

  predicate Sorted(s: seq<QueueEntry>) {
    forall i, j :: 0 <= i < j < |s| ==> s[i].expire <= s[j].expire
  }

  predicate PacketsUnique(s: seq<QueueEntry>) {
    forall i, j :: 0 <= i < j < |s| ==> (s[i].uid, s[i].dst) != (s[j].uid, s[j].dst)
  }

  /** Nothing expires later than an entry queued now would. */
  predicate Ordered(s: seq<QueueEntry>, latest: Time) {
    && Sorted(s)
    && PacketsUnique(s)
    && forall e :: e in s ==> e.expire <= latest
  }

  lemma {:induction false} KeepOrdered(s: seq<QueueEntry>, latest: Time, drop: QueueEntry -> bool)
    requires Ordered(s, latest)
    ensures Ordered(Keep(s, drop), latest)
  {
    KeepMembers(s, drop);
    if s != [] {
      var front, last := s[..|s| - 1], s[|s| - 1];
      KeepOrdered(front, latest, drop);
      KeepMembers(front, drop);
      var kept := Keep(front, drop);
      forall i | 0 <= i < |kept|
        ensures kept[i].expire <= last.expire && (kept[i].uid, kept[i].dst) != (last.uid, last.dst)
      {
        assert kept[i] in front;
      }
    }
  }

  ghost predicate Disciplined(r: Run, now: Time) {
    Ordered(r.q.waiting, r.timeout + now) && |r.q.waiting| <= r.maxLen
  }

  lemma RemoveRangeOrdered(s: seq<QueueEntry>, latest: Time, i: nat, j: nat)
    requires Ordered(s, latest) && i <= j <= |s|
    ensures Ordered(s[..i] + s[j..], latest)
  {
    var t := s[..i] + s[j..];
    forall k | 0 <= k < |t| ensures t[k] == s[if k < i then k else k + (j - i)] {
    }
  }

  lemma AppendOrdered(s: seq<QueueEntry>, e: QueueEntry)
    requires Ordered(s, e.expire) && !Contains(s, e.uid, e.dst)
    ensures Ordered(s + [e], e.expire)
  {
    forall i | 0 <= i < |s| ensures s[i].expire <= e.expire && (s[i].uid, s[i].dst) != (e.uid, e.dst) {
      assert s[i] in s;
    }
  }

  lemma PurgeOrdered(q: Queue, latest: Time, now: Time)
    requires Ordered(q.waiting, latest)
    ensures Ordered(q.Purge(now).waiting, latest) && |q.Purge(now).waiting| <= |q.waiting|
  {
    KeepOrdered(q.waiting, latest, IsExpired(now));
    KeepMembers(q.waiting, IsExpired(now));
  }

  lemma EnqueueOrdered(q: Queue, e: QueueEntry, now: Time, maxLen: uint32)
    requires 0 < maxLen && |q.waiting| <= maxLen && Ordered(q.waiting, e.expire)
    ensures Ordered(q.Enqueue(e, now, maxLen).waiting, e.expire) && |q.Enqueue(e, now, maxLen).waiting| <= maxLen
  {
    PurgeOrdered(q, e.expire, now);
    var w := q.Purge(now).waiting;
    if q.Accepts(e.uid, e.dst, now) {
      if |w| == maxLen {
        RemoveRangeOrdered(w, e.expire, 0, 1);
        assert w[..0] + w[1..] == w[1..];
        AppendOrdered(w[1..], e);
      } else {
        AppendOrdered(w, e);
      }
    }
  }

  lemma DequeueOrdered(q: Queue, latest: Time, dst: Address, now: Time)
    requires Ordered(q.waiting, latest)
    ensures Ordered(q.Dequeue(dst, now).0.waiting, latest) && |q.Dequeue(dst, now).0.waiting| <= |q.waiting|
  {
    PurgeOrdered(q, latest, now);
    var w := q.Purge(now).waiting;
    var i := FirstFor(w, dst);
    if i < |w| {
      RemoveRangeOrdered(w, latest, i, i + 1);
    }
  }

  lemma OrderedLater(s: seq<QueueEntry>, latest: Time, later: Time)
    requires Ordered(s, latest) && latest <= later
    ensures Ordered(s, later)
  {
  }

  lemma StepDisciplined(r: Run, before: Time, o: TimedOp)
    requires r.maxLen > 0 && Disciplined(r, before) && before <= o.now
    requires !o.op.SetMaxQueueLen? && !o.op.SetQueueTimeout?
    ensures Disciplined(r.Step(o), o.now)
  {
    var latest := r.timeout + o.now;
    OrderedLater(r.q.waiting, r.timeout + before, latest);
    hide Keep, Ordered, Queue.Enqueue, Queue.Dequeue, Queue.Purge;
    match o.op {
      case Enqueue(uid, dst) => EnqueueOrdered(r.q, QueueEntry(uid, dst, latest), o.now, r.maxLen);
      case Dequeue(dst) => DequeueOrdered(r.q, latest, dst, o.now);
      case DropPacketWithDst(dst) =>
        PurgeOrdered(r.q, latest, o.now);
        KeepOrdered(r.q.Purge(o.now).waiting, latest, IsEqual(dst));
        KeepMembers(r.q.Purge(o.now).waiting, IsEqual(dst));
      case GetSize => PurgeOrdered(r.q, latest, o.now);
    }
  }

  /** The clock does not go back, and the queue's parameters stay as constructed. */
  ghost predicate Steady(ops: seq<TimedOp>) {
    && (forall i, j :: 0 <= i < j < |ops| ==> ops[i].now <= ops[j].now)
    && forall o :: o in ops ==> !o.op.SetMaxQueueLen? && !o.op.SetQueueTimeout?
  }

  /** In a steady run the queue is sorted by age, free of duplicates, and bounded. */
  lemma {:induction false} QueueDisciplined(maxLen: uint32, timeout: Time, ops: seq<TimedOp>, now: Time)
    requires maxLen > 0 && Steady(ops) && forall o :: o in ops ==> o.now <= now
    ensures Disciplined(Execute(Start(maxLen, timeout), ops), now)
    ensures Execute(Start(maxLen, timeout), ops).maxLen == maxLen
    ensures Execute(Start(maxLen, timeout), ops).timeout == timeout
  {
    if ops != [] {
      var front, o := ops[..|ops| - 1], ops[|ops| - 1];
      QueueDisciplined(maxLen, timeout, front, o.now);
      StepDisciplined(Execute(Start(maxLen, timeout), front), o.now, o);
    }
  }

  /** Of a sorted queue, `Purge` reports exactly a prefix and keeps exactly the rest. */
  lemma {:induction false} PurgeRemovesPrefix(s: seq<QueueEntry>, now: Time) returns (k: nat)
    requires Sorted(s)
    ensures k <= |s|
    ensures Keep(s, IsExpired(now)) == s[k..] && Keep(s, Not(IsExpired(now))) == s[..k]
  {
    if s == [] {
      k := 0;
    } else {
      var front, last := s[..|s| - 1], s[|s| - 1];
      k := PurgeRemovesPrefix(front, now);
      if last.expire - now < 0 {
        assert k == |front| by {
          if k < |front| {
            assert front[k] in Keep(front, IsExpired(now));
            KeepMembers(front, IsExpired(now));
          }
        }
        k := |s|;
      } else {
        assert s[k..] == front[k..] + [last];
      }
    }
  }

  /**
   The bound depends on the maximum length staying put. An accepted packet leaves
   the queue within the maximum exactly when the purged queue was within it
   before: `Enqueue` evicts only when the size equals the maximum, so after the
   maximum is lowered below the size the queue grows without limit.
   */
  lemma BoundKeptExactly(q: Queue, e: QueueEntry, now: Time, maxLen: uint32)
    requires maxLen > 0 && q.Accepts(e.uid, e.dst, now)
    ensures |q.Enqueue(e, now, maxLen).waiting| <= maxLen <==> |q.Purge(now).waiting| <= maxLen
    ensures |q.Purge(now).waiting| > maxLen ==>
              |q.Enqueue(e, now, maxLen).waiting| == |q.Purge(now).waiting| + 1
  {
    var p := q.Purge(now);
    assert |p.waiting| == maxLen ==> |p.waiting[1..] + [e]| == maxLen;
  }

  lemma EnqueueAppends(r: Run, uid: nat, dst: Address, now: Time)
    requires r.maxLen > 0 && |r.q.waiting| != r.maxLen
    requires forall e :: e in r.q.waiting ==> e.expire >= now && e.uid != uid
    ensures r.Step(At(now, Enqueue(uid, dst))).q.waiting == r.q.waiting + [QueueEntry(uid, dst, r.timeout + now)]
  {
    var q := r.q;
    NothingExpired(q, now);
    assert q.Accepts(uid, dst, now) by {
      hide Keep, Queue.Discard;
    }
    hide Queue.Purge, Queue.Accepts;
  }

  lemma NothingExpired(q: Queue, now: Time)
    requires forall e :: e in q.waiting ==> e.expire >= now
    ensures q.Purge(now).waiting == q.waiting
  {
    KeepAll(q.waiting, IsExpired(now));
  }

  /** Lowering the maximum under two waiting packets: they both stay, and a third joins them. */
  lemma LoweredMaximumOverruns()
    ensures var r := Start(2, 30).Step(At(0, Enqueue(1, 7))).Step(At(0, Enqueue(2, 7))).Step(At(0, SetMaxQueueLen(1)));
            |r.q.waiting| == 2 && r.maxLen == 1 && |r.Step(At(0, Enqueue(3, 7))).q.waiting| == 3
  {
    hide Keep, Queue.Enqueue, Queue.Accepts;
    EnqueueAppends(Start(2, 30), 1, 7, 0);
    var r1 := Start(2, 30).Step(At(0, Enqueue(1, 7)));
    EnqueueAppends(r1, 2, 7, 0);
    EnqueueAppends(r1.Step(At(0, Enqueue(2, 7))).(maxLen := 1), 3, 7, 0);
  }

  // ---------- first in, first out per destination ----------

  function For(dst: Address, s: seq<QueueEntry>): seq<QueueEntry> {
    Keep(s, Not(IsEqual(dst)))
  }

  /** Per destination, what came out followed by what still waits is in order of arrival. */
  ghost predicate InOrder(out: seq<QueueEntry>, waiting: seq<QueueEntry>, accepted: seq<QueueEntry>, dst: Address) {
    Subsequence(For(dst, out) + For(dst, waiting), For(dst, accepted))
  }

  lemma FewerInOrder(out: seq<QueueEntry>, fewer: seq<QueueEntry>, waiting: seq<QueueEntry>,
                     accepted: seq<QueueEntry>, dst: Address)
    requires InOrder(out, waiting, accepted, dst) && Subsequence(fewer, waiting)
    ensures InOrder(out, fewer, accepted, dst)
  {
    KeepMonotone(fewer, waiting, Not(IsEqual(dst)));
    Reflexive(For(dst, out));
    Concatenate(For(dst, out), For(dst, out), For(dst, fewer), For(dst, waiting));
    Transitive(For(dst, out) + For(dst, fewer), For(dst, out) + For(dst, waiting), For(dst, accepted));
  }

  lemma AppendInOrder(out: seq<QueueEntry>, waiting: seq<QueueEntry>, accepted: seq<QueueEntry>,
                      e: QueueEntry, dst: Address)
    requires InOrder(out, waiting, accepted, dst)
    ensures InOrder(out, waiting + [e], accepted + [e], dst)
  {
    var tail := For(dst, [e]);
    KeepAppend(waiting, [e], Not(IsEqual(dst)));
    KeepAppend(accepted, [e], Not(IsEqual(dst)));
    Reflexive(tail);
    Concatenate(For(dst, out) + For(dst, waiting), For(dst, accepted), tail, tail);
    Associative(For(dst, out), For(dst, waiting), tail);
  }

  lemma {:induction false} NoneBefore(before: seq<QueueEntry>, dst: Address)
    requires forall j :: 0 <= j < |before| ==> before[j].dst != dst
    ensures For(dst, before) == []
  {
    if before != [] {
      NoneBefore(before[..|before| - 1], dst);
    }
  }

  lemma Associative<T>(a: seq<T>, b: seq<T>, c: seq<T>)
    ensures a + (b + c) == a + b + c
  {
  }

  lemma TakeFirstInOrder(out: seq<QueueEntry>, before: seq<QueueEntry>, e: QueueEntry, after: seq<QueueEntry>,
                         accepted: seq<QueueEntry>, dst: Address)
    requires InOrder(out, before + [e] + after, accepted, dst)
    requires forall j :: 0 <= j < |before| ==> before[j].dst != e.dst
    ensures InOrder(out + [e], before + after, accepted, dst)
  {
    var p := Not(IsEqual(dst));
    KeepAppend(before + [e], after, p);
    KeepAppend(before, [e], p);
    KeepAppend(before, after, p);
    KeepAppend(out, [e], p);
    if e.dst == dst {
      NoneBefore(before, dst);
    } else {
      NoneBefore([e], dst);
    }
    assert For(dst, out + [e]) + For(dst, before + after) == For(dst, out) + For(dst, before + [e] + after);
  }

  ghost predicate InArrivalOrder(r: Run, dst: Address) {
    InOrder(r.dequeued, r.q.waiting, r.accepted, dst)
  }

  lemma EnqueueInOrder(out: seq<QueueEntry>, q: Queue, accepted: seq<QueueEntry>,
                       e: QueueEntry, now: Time, maxLen: uint32, dst: Address)
    requires maxLen > 0 && InOrder(out, q.Purge(now).waiting, accepted, dst)
    ensures InOrder(out, q.Enqueue(e, now, maxLen).waiting,
                    if q.Accepts(e.uid, e.dst, now) then accepted + [e] else accepted, dst)
  {
    hide Keep, Subsequence, InOrder, Queue.Purge, Queue.Accepts;
    var w := q.Purge(now).waiting;
    if q.Accepts(e.uid, e.dst, now) {
      if |w| == maxLen {
        var rest := w[1..];
        EmptyIsSubsequence([w[0]]);
        Reflexive(rest);
        Concatenate([], [w[0]], rest, rest);
        assert [] + rest == rest && [w[0]] + rest == w;
        FewerInOrder(out, rest, w, accepted, dst);
        AppendInOrder(out, rest, accepted, e, dst);
      } else {
        AppendInOrder(out, w, accepted, e, dst);
      }
    }
  }

  lemma DequeueInOrder(out: seq<QueueEntry>, q: Queue, accepted: seq<QueueEntry>, d: Address, now: Time, dst: Address)
    requires InOrder(out, q.Purge(now).waiting, accepted, dst)
    ensures var (q', result) := q.Dequeue(d, now);
            InOrder(if result.Some? then out + [result.value] else out, q'.waiting, accepted, dst)
  {
    hide Keep, Subsequence, InOrder, Queue.Purge;
    var w := q.Purge(now).waiting;
    var i := FirstFor(w, d);
    if i < |w| {
      assert w == w[..i] + [w[i]] + w[i + 1..];
      TakeFirstInOrder(out, w[..i], w[i], w[i + 1..], accepted, dst);
    }
  }

  lemma StepInOrder(r: Run, o: TimedOp, dst: Address)
    requires r.maxLen > 0 && InArrivalOrder(r, dst)
    ensures InArrivalOrder(r.Step(o), dst)
  {
    hide Keep, Subsequence, InOrder, Queue.Enqueue, Queue.Dequeue, Queue.Accepts;
    var w := r.q.Purge(o.now).waiting;
    KeepIsSubsequence(r.q.waiting, IsExpired(o.now));
    FewerInOrder(r.dequeued, w, r.q.waiting, r.accepted, dst);
    match o.op {
      case Enqueue(uid, d) =>
        EnqueueInOrder(r.dequeued, r.q, r.accepted, QueueEntry(uid, d, r.timeout + o.now), o.now, r.maxLen, dst);
      case Dequeue(d) =>
        DequeueInOrder(r.dequeued, r.q, r.accepted, d, o.now, dst);
      case DropPacketWithDst(d) =>
        KeepIsSubsequence(w, IsEqual(d));
        FewerInOrder(r.dequeued, Keep(w, IsEqual(d)), w, r.accepted, dst);
      case _ =>
    }
  }

  /** Over every run, packets for a destination come out in the order they were accepted. */
  lemma {:induction false} DequeuedInArrivalOrder(maxLen: uint32, timeout: Time, ops: seq<TimedOp>, dst: Address)
    requires maxLen > 0 && Positive(ops)
    ensures InArrivalOrder(Execute(Start(maxLen, timeout), ops), dst)
    ensures var r := Execute(Start(maxLen, timeout), ops);
            Subsequence(For(dst, r.dequeued), For(dst, r.accepted))
  {
    if ops != [] {
      DequeuedInArrivalOrder(maxLen, timeout, ops[..|ops| - 1], dst);
      StepInOrder(Execute(Start(maxLen, timeout), ops[..|ops| - 1]), ops[|ops| - 1], dst);
    }
    var r := Execute(Start(maxLen, timeout), ops);
    Reflexive(For(dst, r.dequeued));
    EmptyIsSubsequence(For(dst, r.q.waiting));
    Concatenate(For(dst, r.dequeued), For(dst, r.dequeued), [], For(dst, r.q.waiting));
    assert For(dst, r.dequeued) + [] == For(dst, r.dequeued);
    Transitive(For(dst, r.dequeued), For(dst, r.dequeued) + For(dst, r.q.waiting), For(dst, r.accepted));
  }
}
