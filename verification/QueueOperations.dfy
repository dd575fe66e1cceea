/**
 What each operation of the request queue does to which packet, in terms of the packets'
 own fields, and which packets are evicted over whole runs.
 */
module QueueOperations {
  import opened Types
  import opened Vectors
  import opened Subsequences
  import opened RequestQueues

  // ---------- single operations ----------

  /** What was reported since the queue was `before`. */
  function NewlyReported(before: Queue, after: Queue): seq<QueueEntry>
    requires |before.reported| <= |after.reported|
  {
    after.reported[|before.reported|..]
  }

  /** A purge reports exactly the packets past their expiry, once and in order, and keeps the others in order. */
  lemma PurgeExactly(q: Queue, now: Time)
    ensures var p := q.Purge(now);
            && q.reported <= p.reported
            && (forall e :: e in p.waiting <==> e in q.waiting && now <= e.expire)
            && (forall e :: e in NewlyReported(q, p) <==> e in q.waiting && e.expire < now)
            && Subsequence(p.waiting, q.waiting) && Subsequence(NewlyReported(q, p), q.waiting)
            && multiset(p.waiting) + multiset(NewlyReported(q, p)) == multiset(q.waiting)
  {
    hide Keep, Subsequence;
    var p := q.Purge(now);
    KeepMembers(q.waiting, IsExpired(now));
    KeepMembers(q.waiting, Not(IsExpired(now)));
    KeepIsSubsequence(q.waiting, IsExpired(now));
    KeepIsSubsequence(q.waiting, Not(IsExpired(now)));
    KeepPartitions(q.waiting, IsExpired(now));
    assert NewlyReported(q, p) == Keep(q.waiting, Not(IsExpired(now)));
  }

  /** Dropping a destination reports its packets and those past their expiry, and keeps exactly the others in order. */
  lemma DropExactly(q: Queue, dst: Address, now: Time)
    ensures var p := q.DropPacketWithDst(dst, now);
            && q.reported <= p.reported
            && (forall e :: e in p.waiting <==> e in q.waiting && now <= e.expire && e.dst != dst)
            && (forall e :: e in NewlyReported(q, p) <==> e in q.waiting && (e.expire < now || e.dst == dst))
            && Subsequence(p.waiting, q.waiting)
            && multiset(p.waiting) + multiset(NewlyReported(q, p)) == multiset(q.waiting)
  {
    hide Keep, Subsequence;
    var purged := q.Purge(now);
    var p := q.DropPacketWithDst(dst, now);
    PurgeExactly(q, now);
    KeepMembers(purged.waiting, IsEqual(dst));
    KeepMembers(purged.waiting, Not(IsEqual(dst)));
    KeepIsSubsequence(purged.waiting, IsEqual(dst));
    KeepPartitions(purged.waiting, IsEqual(dst));
    Transitive(p.waiting, purged.waiting, q.waiting);
    assert NewlyReported(q, p) == NewlyReported(q, purged) + Keep(purged.waiting, Not(IsEqual(dst)));
  }

  /** Entry `i` is the first live one for the destination. */
  ghost predicate IsFirstLive(waiting: seq<QueueEntry>, dst: Address, now: Time, i: nat) {
    && i < |waiting| && waiting[i].dst == dst && now <= waiting[i].expire
    && forall j :: 0 <= j < i ==> !(waiting[j].dst == dst && now <= waiting[j].expire)
  }

  lemma {:induction false} FirstAfterKeep(s: seq<QueueEntry>, dst: Address, now: Time)
    ensures var live := Keep(s, IsExpired(now));
            var i := FirstFor(live, dst);
            if i < |live| then exists k: nat :: IsFirstLive(s, dst, now, k) && s[k] == live[i]
            else forall e :: e in s ==> !(e.dst == dst && now <= e.expire)
  {
    var live := Keep(s, IsExpired(now));
    var i := FirstFor(live, dst);
    KeepMembers(s, IsExpired(now));
    if i < |live| {
      KeepIsSubsequence(s, IsExpired(now));
      FirstLiveExists(s, dst, now, live[i]);
      var k: nat :| IsFirstLive(s, dst, now, k);
      FirstSurvives(s, now, k);
      var m :| 0 <= m < |live| && live[m] == s[k] && m == |Keep(s[..k], IsExpired(now))|;
      KeepMembers(s[..k], IsExpired(now));
      assert forall j :: 0 <= j < m ==> live[j].dst != dst by {
        forall j | 0 <= j < m ensures live[j].dst != dst {
          assert live[j] == Keep(s[..k], IsExpired(now))[j];
          assert live[j] in s[..k];
        }
      }
      assert m == i;
    } else {
      assert forall e :: e in live ==> e.dst != dst;
    }
  }

  lemma {:induction false} FirstLiveExists(s: seq<QueueEntry>, dst: Address, now: Time, e: QueueEntry)
    requires e in s && e.dst == dst && now <= e.expire
    ensures exists k: nat :: IsFirstLive(s, dst, now, k)
  {
    var front := s[..|s| - 1];
    if x :| x in front && x.dst == dst && now <= x.expire {
      FirstLiveExists(front, dst, now, x);
      var k: nat :| IsFirstLive(front, dst, now, k);
      assert IsFirstLive(s, dst, now, k);
    } else {
      assert s == front + [s[|s| - 1]];
      forall j | 0 <= j < |s| - 1 ensures !(s[j].dst == dst && now <= s[j].expire) {
        assert s[j] in front;
      }
      assert IsFirstLive(s, dst, now, |s| - 1);
    }
  }

  /** A survivor of a purge comes after exactly the survivors before it. */
  lemma FirstSurvives(s: seq<QueueEntry>, now: Time, k: nat)
    requires k < |s| && now <= s[k].expire
    ensures var live, before := Keep(s, IsExpired(now)), Keep(s[..k], IsExpired(now));
            |before| < |live| && live[..|before|] == before && live[|before|] == s[k]
  {
    var p := IsExpired(now);
    assert s == s[..k] + [s[k]] + s[k + 1..];
    KeepAppend(s[..k] + [s[k]], s[k + 1..], p);
    KeepAppend(s[..k], [s[k]], p);
    assert Keep([s[k]], p) == [s[k]];
  }

  /**
   `Dequeue` finds a packet if and only if one that is not past its expiry waits for the
   destination, and takes the first such packet; the others stay.
   */
  lemma DequeueFindsExactly(q: Queue, dst: Address, now: Time)
    ensures var (q', result) := q.Dequeue(dst, now);
            && (result.Some? <==> exists e :: e in q.waiting && e.dst == dst && now <= e.expire)
            && (result.Some? ==> exists k: nat :: IsFirstLive(q.waiting, dst, now, k) && q.waiting[k] == result.value)
            && (result.None? ==> q' == q.Purge(now))
            && q'.reported == q.Purge(now).reported
            && multiset(q'.waiting) + Taken(result) == multiset(q.Purge(now).waiting)
  {
    hide Keep, FirstFor, Without;
    var p := q.Purge(now);
    FirstAfterKeep(q.waiting, dst, now);
    var i := FirstFor(p.waiting, dst);
    if i < |p.waiting| {
      TakeOneConserves(p.waiting, i);
      var k: nat :| IsFirstLive(q.waiting, dst, now, k) && q.waiting[k] == p.waiting[i];
      assert q.waiting[k] in q.waiting;
    }
  }

  /** A packet is refused exactly when the same packet, not past its expiry, waits for the same destination. */
  lemma RefusedExactly(q: Queue, uid: nat, dst: Address, now: Time)
    ensures !q.Accepts(uid, dst, now) <==> exists e :: e in q.waiting && now <= e.expire && e.uid == uid && e.dst == dst
  {
    PurgeExactly(q, now);
    hide Queue.Purge;
    var w := q.Purge(now).waiting;
    if e :| e in q.waiting && now <= e.expire && e.uid == uid && e.dst == dst {
      assert e in w;
    }
  }

  /**
   An accepted packet is last. Of the packets still alive the oldest, and only that, is
   reported and leaves, exactly if they were as many as the maximum; a refused packet
   changes nothing after the purge.
   */
  lemma EnqueueExactly(q: Queue, e: QueueEntry, now: Time, maxLen: uint32)
    requires maxLen > 0
    ensures var live, q' := q.Purge(now).waiting, q.Enqueue(e, now, maxLen);
            if !q.Accepts(e.uid, e.dst, now) then q' == q.Purge(now)
            else
              && q'.waiting != [] && q'.waiting[|q'.waiting| - 1] == e
              && (if |live| == maxLen
                  then [live[0]] + q'.waiting == live + [e] && q'.reported == q.Purge(now).reported + [live[0]]
                  else q'.waiting == live + [e] && q'.reported == q.Purge(now).reported)
  {
    hide Queue.Purge, Queue.Accepts;
    var live := q.Purge(now).waiting;
    if |live| == maxLen {
      assert live == [live[0]] + live[1..];
    }
  }

  // ---------- evictions over a run ----------

  /** The packets that an accepting operation reports although they are not past their expiry. */
  function Evicted(r: Run, o: TimedOp): seq<QueueEntry>
    requires r.maxLen > 0
  {
    if o.op.Enqueue? && r.q.Accepts(o.op.uid, o.op.dst, o.now) && |r.q.reported| <= |r.Step(o).q.reported|
    then Keep(NewlyReported(r.q, r.Step(o).q), (e: QueueEntry) => e.expire < o.now)
    else []
  }

  /** All packets evicted in a run, in the order of their eviction. */
  function Evictions(r: Run, ops: seq<TimedOp>): seq<QueueEntry>
    requires r.maxLen > 0 && Positive(ops)
  {
    if ops == [] then []
    else
      var front := ops[..|ops| - 1];
      Evictions(r, front) + Evicted(Execute(r, front), ops[|ops| - 1])
  }

  lemma {:induction false} KeepNone(s: seq<QueueEntry>, drop: QueueEntry -> bool)
    requires forall e :: e in s ==> drop(e)
    ensures Keep(s, drop) == []
  {
    if s != [] {
      KeepNone(s[..|s| - 1], drop);
    }
  }

  /** What is evicted by an operation: the front of the packets alive, if they fill the queue. */
  lemma EvictedIsFront(r: Run, o: TimedOp)
    requires r.maxLen > 0 && o.op.Enqueue? && r.q.Accepts(o.op.uid, o.op.dst, o.now)
    ensures var live := r.q.Purge(o.now).waiting;
            Evicted(r, o) == if |live| == r.maxLen then [live[0]] else []
  {
    hide Queue.Purge, Queue.Accepts, Keep, Subsequence;
    var e := QueueEntry(o.op.uid, o.op.dst, r.timeout + o.now);
    var p, q' := r.q.Purge(o.now), r.Step(o).q;
    PurgeExactly(r.q, o.now);
    EnqueueExactly(r.q, e, o.now, r.maxLen);
    var drop := (x: QueueEntry) => x.expire < o.now;
    var expired, front := NewlyReported(r.q, p), if |p.waiting| == r.maxLen then [p.waiting[0]] else [];
    assert NewlyReported(r.q, q') == expired + front;
    KeepAppend(expired, front, drop);
    KeepNone(expired, drop);
    KeepAll(front, drop);
    assert [] + front == front;
  }

  /** Everything evicted, followed by everything waiting, is in order of acceptance. */
  ghost predicate EvictedInOrder(out: seq<QueueEntry>, r: Run) {
    Subsequence(out + r.q.waiting, r.accepted)
  }

  lemma FewerWaiting(out: seq<QueueEntry>, fewer: seq<QueueEntry>, waiting: seq<QueueEntry>, accepted: seq<QueueEntry>)
    requires Subsequence(out + waiting, accepted) && Subsequence(fewer, waiting)
    ensures Subsequence(out + fewer, accepted)
  {
    hide Subsequence;
    Reflexive(out);
    Concatenate(out, out, fewer, waiting);
    Transitive(out + fewer, out + waiting, accepted);
  }

  lemma EnqueueEvictsInOrder(r: Run, o: TimedOp, out: seq<QueueEntry>)
    requires r.maxLen > 0 && o.op.Enqueue? && EvictedInOrder(out, r)
    ensures EvictedInOrder(out + Evicted(r, o), r.Step(o))
  {
    hide Queue.Purge, Queue.Accepts, Queue.Enqueue, Keep, Subsequence, Evicted;
    var e := QueueEntry(o.op.uid, o.op.dst, r.timeout + o.now);
    var live, r' := r.q.Purge(o.now).waiting, r.Step(o);
    PurgeExactly(r.q, o.now);
    EnqueueExactly(r.q, e, o.now, r.maxLen);
    FewerWaiting(out, live, r.q.waiting, r.accepted);
    if r.q.Accepts(o.op.uid, o.op.dst, o.now) {
      EvictedIsFront(r, o);
      Reflexive([e]);
      Concatenate(out + live, r.accepted, [e], [e]);
      var gone := Evicted(r, o);
      assert gone + r'.q.waiting == live + [e];
      Associative(out, gone, r'.q.waiting);
      Associative(out, live, [e]);
    } else {
      NoneEvicted(r, o);
      assert out + [] == out;
    }
  }

  lemma NoneEvicted(r: Run, o: TimedOp)
    requires r.maxLen > 0 && !(o.op.Enqueue? && r.q.Accepts(o.op.uid, o.op.dst, o.now))
    ensures Evicted(r, o) == []
  {
  }

  lemma WithoutIsFewer(s: seq<QueueEntry>, i: nat)
    requires i < |s|
    ensures Subsequence(Without(s, i), s)
  {
    hide Subsequence;
    Reflexive(s[..i]);
    Reflexive(s[i + 1..]);
    EmptyIsSubsequence([s[i]]);
    Concatenate(s[..i], s[..i], [], [s[i]]);
    Concatenate(s[..i] + [], s[..i] + [s[i]], s[i + 1..], s[i + 1..]);
    assert s == s[..i] + [s[i]] + s[i + 1..] && Without(s, i) == s[..i] + [] + s[i + 1..];
  }

  lemma StepEvictsInOrder(r: Run, o: TimedOp, out: seq<QueueEntry>)
    requires r.maxLen > 0 && EvictedInOrder(out, r)
    ensures EvictedInOrder(out + Evicted(r, o), r.Step(o))
  {
    hide Queue.Purge, Queue.Accepts, Queue.Enqueue, Queue.DropPacketWithDst, Keep, Subsequence, Evicted;
    hide Without, FirstFor;
    if o.op.Enqueue? {
      EnqueueEvictsInOrder(r, o, out);
    } else {
      NoneEvicted(r, o);
      assert out + [] == out;
      var live, r' := r.q.Purge(o.now).waiting, r.Step(o);
      PurgeExactly(r.q, o.now);
      match o.op {
        case Dequeue(dst) =>
          var i := FirstFor(live, dst);
          if i < |live| {
            WithoutIsFewer(live, i);
            Transitive(Without(live, i), live, r.q.waiting);
          }
        case DropPacketWithDst(dst) => DropExactly(r.q, dst, o.now);
        case _ => Reflexive(r.q.waiting);
      }
      FewerWaiting(out, r'.q.waiting, r.q.waiting, r.accepted);
    }
  }

  /**
   Over every run, the packets evicted followed by those waiting are in order of
   acceptance: whatever is evicted was accepted before everything that still waits.
   */
  lemma {:induction false} EvictionsOldestFirst(maxLen: uint32, timeout: Time, ops: seq<TimedOp>)
    requires maxLen > 0 && Positive(ops)
    ensures EvictedInOrder(Evictions(Start(maxLen, timeout), ops), Execute(Start(maxLen, timeout), ops))
  {
    hide Evicted, Run.Step, Subsequence;
    if ops == [] {
      EmptyIsSubsequence<QueueEntry>([]);
      assert [] + Start(maxLen, timeout).q.waiting == [];
    } else {
      var front := ops[..|ops| - 1];
      EvictionsOldestFirst(maxLen, timeout, front);
      var r, out := Execute(Start(maxLen, timeout), front), Evictions(Start(maxLen, timeout), front);
      StepEvictsInOrder(r, ops[|ops| - 1], out);
    }
  }

  lemma {:induction false} AcceptedByAge(maxLen: uint32, timeout: Time, ops: seq<TimedOp>, now: Time)
    requires maxLen > 0 && Steady(ops) && forall o :: o in ops ==> o.now <= now
    ensures var r := Execute(Start(maxLen, timeout), ops);
            Sorted(r.accepted) && r.timeout == timeout && forall e :: e in r.accepted ==> e.expire <= timeout + now
  {
    hide Queue.Accepts, Queue.Enqueue, Queue.Dequeue, Queue.Purge, Queue.DropPacketWithDst;
    if ops != [] {
      var front, o := ops[..|ops| - 1], ops[|ops| - 1];
      AcceptedByAge(maxLen, timeout, front, o.now);
    }
  }

  lemma SteadyIsPositive(ops: seq<TimedOp>)
    requires Steady(ops)
    ensures Positive(ops)
  {
  }

  /** In a steady run nothing evicted would have expired later than anything that waits. */
  lemma EvictedAreOldest(maxLen: uint32, timeout: Time, ops: seq<TimedOp>, now: Time, e: QueueEntry, x: QueueEntry)
    requires maxLen > 0 && Steady(ops) && forall o :: o in ops ==> o.now <= now
    requires e in Evictions(Start(maxLen, timeout), ops) && x in Execute(Start(maxLen, timeout), ops).q.waiting
    ensures e.expire <= x.expire
  {
    hide Evictions, Execute, Steady, Positive;
    SteadyIsPositive(ops);
    EvictionsOldestFirst(maxLen, timeout, ops);
    AcceptedByAge(maxLen, timeout, ops, now);
    var out, r := Evictions(Start(maxLen, timeout), ops), Execute(Start(maxLen, timeout), ops);
    var s := out + r.q.waiting;
    var f :| Embeds(f, s, r.accepted);
    var i :| 0 <= i < |out| && out[i] == e;
    var j :| 0 <= j < |r.q.waiting| && r.q.waiting[j] == x;
    assert s[i] == e && s[|out| + j] == x;
    assert f[i] < f[|out| + j];
  }
}
