/**
 The cache that recognises request ids already seen (model/offchain-id.cc), and
 its agreement with a memory of every call ever made.
 */
module IdCaches {
  import opened Types
  import opened Vectors

  datatype UniqueId = UniqueId(context: Address, id: uint32, expire: Time)

  function IsExpired(now: Time): UniqueId -> bool {
    (u: UniqueId) => u.expire < now
  }

  /** The cache contents after `Purge`. */
  function Live(cache: seq<UniqueId>, now: Time): seq<UniqueId> {
    Keep(cache, IsExpired(now))
  }

  predicate Holds(cache: seq<UniqueId>, context: Address, id: uint32) {
    exists u :: u in cache && u.context == context && u.id == id
  }

  function Duplicate(cache: seq<UniqueId>, context: Address, id: uint32, now: Time): bool {
    Holds(Live(cache, now), context, id)
  }

  /** The cache contents after `IsDuplicate`. */
  function Remember(cache: seq<UniqueId>, context: Address, id: uint32, now: Time, lifetime: Time): seq<UniqueId> {
    if Duplicate(cache, context, id, now) then Live(cache, now)
    else Live(cache, now) + [UniqueId(context, id, lifetime + now)]
  }

  class IdCache {
    const ids: Vector<UniqueId>
    var lifetime: Time

    ghost predicate Valid()
      reads this, ids
    {
      ids.Valid()
    }

    ghost function Contents(): seq<UniqueId>
      reads this, ids, ids.data
      requires Valid()
    {
      ids.Contents()
    }

    constructor (lifetime: Time)
      ensures Valid() && fresh(ids) && fresh(ids.data)
      ensures Contents() == [] && this.lifetime == lifetime
    {
      ids := new Vector<UniqueId>();
      this.lifetime := lifetime;
    }

    method SetLifetime(lifetime: Time)
      modifies this`lifetime
      ensures this.lifetime == lifetime
    {
      this.lifetime := lifetime;
    }

    method Purge(now: Time)
      requires Valid()
      modifies ids`size, ids.data
      ensures Valid() && Contents() == Live(old(Contents()), now)
    {
      ids.EraseRemoveIf(IsExpired(now));
    }

    method IsDuplicate(context: Address, id: uint32, now: Time) returns (duplicate: bool)
      requires Valid()
      modifies ids, ids.data
      ensures Valid() && (ids.data == old(ids.data) || fresh(ids.data))
      ensures duplicate == Duplicate(old(Contents()), context, id, now)
      ensures Contents() == Remember(old(Contents()), context, id, now, lifetime)
    {
      Purge(now);
      for i := 0 to ids.size
        invariant forall j :: 0 <= j < i ==> !(ids.data[j].context == context && ids.data[j].id == id)
      {
        if ids.data[i].context == context && ids.data[i].id == id {
          assert ids.data[i] in Contents();
          return true;
        }
      }
      ids.PushBack(UniqueId(context, id, lifetime + now));
      duplicate := false;
    }

    method GetSize(now: Time) returns (size: nat)
      requires Valid()
      modifies ids`size, ids.data
      ensures Valid() && Contents() == Live(old(Contents()), now)
      ensures size == |Contents()|
    {
      Purge(now);
      size := ids.size;
    }
  }

  // ---------- agreement with the full history ----------

  /** One call of `IsDuplicate`: its arguments, the lifetime then in force, and its answer. */
  datatype Call = Call(context: Address, id: uint32, time: Time, lifetime: Time, answer: bool)

  /** A false answer creates a record that is good until this expiry. */
  function RecordOf(c: Call): UniqueId {
    UniqueId(c.context, c.id, c.lifetime + c.time)
  }

  /** The reference: an earlier call answered false and its lifetime has not run out. */
  ghost predicate SeenWithin(history: seq<Call>, context: Address, id: uint32, t: Time) {
    exists c :: c in history && c.context == context && c.id == id && !c.answer && t <= c.time + c.lifetime
  }

  predicate PairsUnique(cache: seq<UniqueId>) {
    forall i, j :: 0 <= i < j < |cache| ==> (cache[i].context, cache[i].id) != (cache[j].context, cache[j].id)
  }

  /** Every record stems from a false answer, and every false answer still in force has its record. */
  ghost predicate Agrees(cache: seq<UniqueId>, history: seq<Call>, now: Time) {
    && (forall u :: u in cache ==> exists c :: c in history && !c.answer && RecordOf(c) == u)
    && (forall c :: c in history && !c.answer && now <= c.time + c.lifetime ==> RecordOf(c) in cache)
    && PairsUnique(cache)
  }

  /** A request put to the cache; the lifetime may differ from call to call. */
  datatype Request = Request(context: Address, id: uint32, time: Time, lifetime: Time)

  ghost predicate ClockRuns(rs: seq<Request>) {
    forall i, j :: 0 <= i < j < |rs| ==> rs[i].time <= rs[j].time
  }

  /** The cache and the calls made, after the requests `rs`. */
  function Serve(rs: seq<Request>): (seq<UniqueId>, seq<Call>) {
    if rs == [] then ([], [])
    else
      var (cache, history) := Serve(rs[..|rs| - 1]);
      var r := rs[|rs| - 1];
      var answer := Duplicate(cache, r.context, r.id, r.time);
      (Remember(cache, r.context, r.id, r.time, r.lifetime),
       history + [Call(r.context, r.id, r.time, r.lifetime, answer)])
  }

  lemma {:induction false} KeepUnique(cache: seq<UniqueId>, drop: UniqueId -> bool)
    requires PairsUnique(cache)
    ensures PairsUnique(Keep(cache, drop))
  {
    if cache != [] {
      var front, last := cache[..|cache| - 1], cache[|cache| - 1];
      KeepUnique(front, drop);
      KeepMembers(front, drop);
      var kept := Keep(front, drop);
      forall i | 0 <= i < |kept| ensures (kept[i].context, kept[i].id) != (last.context, last.id) {
        assert kept[i] in front;
      }
    }
  }

  lemma LiveAgrees(cache: seq<UniqueId>, history: seq<Call>, before: Time, now: Time)
    requires Agrees(cache, history, before) && before <= now
    ensures Agrees(Live(cache, now), history, now)
  {
    KeepMembers(cache, IsExpired(now));
    KeepUnique(cache, IsExpired(now));
  }

  lemma DuplicateIsSeenWithin(cache: seq<UniqueId>, history: seq<Call>, before: Time,
                              context: Address, id: uint32, now: Time)
    requires Agrees(cache, history, before) && before <= now
    ensures Duplicate(cache, context, id, now) <==> SeenWithin(history, context, id, now)
  {
    LiveAgrees(cache, history, before, now);
    KeepMembers(cache, IsExpired(now));
    if Duplicate(cache, context, id, now) {
      var u :| u in Live(cache, now) && u.context == context && u.id == id;
      var c :| c in history && !c.answer && RecordOf(c) == u;
    }
    if SeenWithin(history, context, id, now) {
      var c :| c in history && c.context == context && c.id == id && !c.answer && now <= c.time + c.lifetime;
      assert RecordOf(c) in Live(cache, now);
    }
  }

  lemma RememberAgrees(cache: seq<UniqueId>, history: seq<Call>, before: Time, r: Request)
    requires Agrees(cache, history, before) && before <= r.time
    ensures var answer := Duplicate(cache, r.context, r.id, r.time);
            Agrees(Remember(cache, r.context, r.id, r.time, r.lifetime),
                   history + [Call(r.context, r.id, r.time, r.lifetime, answer)], r.time)
  {
    LiveAgrees(cache, history, before, r.time);
    var answer := Duplicate(cache, r.context, r.id, r.time);
    var call := Call(r.context, r.id, r.time, r.lifetime, answer);
    var history' := history + [call];
    var cache' := Remember(cache, r.context, r.id, r.time, r.lifetime);
    assert call in history';
    assert forall c :: c in history ==> c in history';
    forall u | u in cache' ensures exists c :: c in history' && !c.answer && RecordOf(c) == u {
      if u in Live(cache, r.time) {
        var c :| c in history && !c.answer && RecordOf(c) == u;
        assert c in history';
      }
    }
  }

  lemma {:induction false} ServeAgrees(rs: seq<Request>, now: Time)
    requires ClockRuns(rs) && forall r :: r in rs ==> r.time <= now
    ensures Agrees(Serve(rs).0, Serve(rs).1, now)
    ensures |Serve(rs).1| == |rs|
  {
    if rs != [] {
      var front, r := rs[..|rs| - 1], rs[|rs| - 1];
      forall q | q in front ensures q.time <= r.time {
      }
      ServeAgrees(front, r.time);
      RememberAgrees(Serve(front).0, Serve(front).1, r.time, r);
    }
  }

  lemma {:induction false} ServePrefix(rs: seq<Request>, k: nat)
    requires k <= |rs|
    ensures |Serve(rs).1| == |rs| && Serve(rs[..k]).1 == Serve(rs).1[..k]
  {
    if k == |rs| {
      assert rs[..k] == rs;
      if rs != [] {
        ServePrefix(rs[..|rs| - 1], |rs| - 1);
      }
    } else {
      assert rs[..|rs| - 1][..k] == rs[..k];
      ServePrefix(rs[..|rs| - 1], k);
    }
  }

  /**
   For every run with a clock that does not go back, and with any lifetimes, a
   call answers true exactly when an earlier call for the same pair answered
   false and the lifetime in force at that earlier call has not run out.
   */
  lemma AnswersMatchHistory(rs: seq<Request>, k: nat)
    requires ClockRuns(rs) && k < |rs|
    ensures |Serve(rs).1| == |rs|
    ensures Serve(rs).1[k].answer <==> SeenWithin(Serve(rs).1[..k], rs[k].context, rs[k].id, rs[k].time)
  {
    ServePrefix(rs, k);
    ServePrefix(rs, k + 1);
    var upTo := rs[..k + 1];
    assert upTo[..k] == rs[..k];
    assert Serve(rs).1[k] == Serve(upTo).1[k];
    ServeAgrees(rs[..k], rs[k].time);
    DuplicateIsSeenWithin(Serve(rs[..k]).0, Serve(rs[..k]).1, rs[k].time, rs[k].context, rs[k].id, rs[k].time);
  }

  /** The pairs that the history says are still remembered at time t. */
  ghost function LivePairs(history: seq<Call>, t: Time): set<(Address, uint32)> {
    set c | c in history && !c.answer && t <= c.time + c.lifetime :: (c.context, c.id)
  }

  ghost function PairsOf(cache: seq<UniqueId>): set<(Address, uint32)> {
    set u | u in cache :: (u.context, u.id)
  }

  lemma {:induction false} UniquePairsCount(cache: seq<UniqueId>)
    requires PairsUnique(cache)
    ensures |PairsOf(cache)| == |cache|
  {
    if cache != [] {
      var front, last := cache[..|cache| - 1], cache[|cache| - 1];
      assert cache == front + [last];
      UniquePairsCount(front);
      assert PairsOf(cache) == PairsOf(front) + {(last.context, last.id)};
      assert (last.context, last.id) !in PairsOf(front);
    }
  }

  /** `GetSize` at any later time counts exactly the remembered pairs, each once. */
  lemma SizeCountsLivePairs(rs: seq<Request>, now: Time)
    requires ClockRuns(rs) && forall r :: r in rs ==> r.time <= now
    ensures |Live(Serve(rs).0, now)| == |LivePairs(Serve(rs).1, now)|
    ensures PairsUnique(Live(Serve(rs).0, now))
  {
    var (cache, history) := Serve(rs);
    var live := Live(cache, now);
    ServeAgrees(rs, now);
    LiveAgrees(cache, history, now, now);
    KeepMembers(cache, IsExpired(now));
    UniquePairsCount(live);
    forall p | p in PairsOf(live) ensures p in LivePairs(history, now) {
      var u :| u in live && p == (u.context, u.id);
      var c :| c in history && !c.answer && RecordOf(c) == u;
    }
    forall p | p in LivePairs(history, now) ensures p in PairsOf(live) {
      var c :| c in history && !c.answer && now <= c.time + c.lifetime && p == (c.context, c.id);
      assert RecordOf(c) in live;
    }
    assert PairsOf(live) == LivePairs(history, now);
  }
}
