/**
 The routing table as a value: what each operation of model/rtable.cc makes of it.

 `R` is what an entry holds in place of its next hop: the next hop itself, or the
 route object that stores it. Expiry is lazy: `Purge` runs inside the other
 operations.
 */
module Tables {
  import opened Types

  datatype RouteFlag = VALID | INVALID | IN_SEARCH

  /** `lifeTime` is the expiry of a VALID entry and the deletion time of an INVALID one. */
  datatype Entry<R> = Entry(
    via: R,
    validSeqNo: bool,
    seqNo: uint32,
    hops: uint16,
    amount: uint32,
    lifeTime: Time,
    flag: RouteFlag,
    reqCount: uint8,
    blackListed: bool,
    blackListTimeout: Time)
  {
    /** `GetLifeTime () < Seconds (0)`. */
    predicate Expired(now: Time) {
      lifeTime - now < 0
    }

    function Invalidate(badLinkLifetime: Time, now: Time): Entry<R> {
      if flag == INVALID then this
      else this.(flag := INVALID, reqCount := 0, lifeTime := badLinkLifetime + now)
    }

    function InvalidatedIf(listed: bool, badLinkLifetime: Time, now: Time): Entry<R> {
      if listed && flag == VALID then Invalidate(badLinkLifetime, now) else this
    }

    /** What `AddRoute` and `Update` do to the request count. */
    function Settled(): Entry<R> {
      if flag != IN_SEARCH then this.(reqCount := 0) else this
    }

    predicate PurgeDeletes(now: Time) {
      Expired(now) && flag == INVALID
    }

    function Purged(badLinkLifetime: Time, now: Time): Entry<R> {
      if Expired(now) && flag == VALID then Invalidate(badLinkLifetime, now) else this
    }
  }

  // ---------- the table as a value ----------

  type Entries<R> = map<Address, Entry<R>>

  /** An entry whose next hop has been read through the route pointer. */
  type Row = Entry<Address>
  type Table = Entries<Address>

  /** The values a `RoutingTableEntry` is constructed with. */
  function NewRow(validSeqNo: bool, seqNo: uint32, hops: uint16, amount: uint32,
                  nextHop: Address, lifetime: Time, now: Time): Row
  {
    Entry(nextHop, validSeqNo, seqNo, hops, amount, lifetime + now, VALID, 0, false, now)
  }

  function Purge<R>(t: Entries<R>, bad: Time, now: Time): Entries<R> {
    map d | d in t && !t[d].PurgeDeletes(now) :: t[d].Purged(bad, now)
  }

  function AddRoute<R>(t: Entries<R>, d: Address, e: Entry<R>, bad: Time, now: Time): Entries<R> {
    var p := Purge(t, bad, now);
    if d in p then p else p[d := e.Settled()]
  }

  function Update<R>(t: Entries<R>, d: Address, e: Entry<R>): Entries<R> {
    if d in t then t[d := e.Settled()] else t
  }

  function DeleteRoute<R>(t: Entries<R>, d: Address, bad: Time, now: Time): Entries<R> {
    Purge(t, bad, now) - {d}
  }

  function SetEntryState<R>(t: Entries<R>, d: Address, state: RouteFlag): Entries<R> {
    if d in t then t[d := t[d].(flag := state, reqCount := 0)] else t
  }

  function MarkUnidirectional<R>(t: Entries<R>, d: Address, timeout: Time): Entries<R> {
    if d in t then t[d := t[d].(blackListed := true, blackListTimeout := timeout, reqCount := 0)] else t
  }

  /** The result of `GetListOfDestinationWithNextHop` on a purged table. */
  function Unreachable(p: Table, nextHop: Address): map<Address, uint32> {
    map d | d in p && p[d].via == nextHop :: p[d].seqNo
  }

  function InvalidateRoutes<R>(t: Entries<R>, unreachable: set<Address>, bad: Time, now: Time): Entries<R> {
    var p := Purge(t, bad, now);
    map d | d in p :: p[d].InvalidatedIf(d in unreachable, bad, now)
  }

  /** Collect the destinations behind a broken next hop, then invalidate them. */
  function BreakLink(t: Table, nextHop: Address, bad: Time, now: Time): Table {
    var p := Purge(t, bad, now);
    InvalidateRoutes(p, Unreachable(p, nextHop).Keys, bad, now)
  }

  // ---------- one entry at a time ----------

  /** The table when a purge has visited the destinations `seen` and no others. */
  function PurgeOnly<R>(t: Entries<R>, seen: set<Address>, bad: Time, now: Time): Entries<R> {
    map d | d in t && !(d in seen && t[d].PurgeDeletes(now)) :: if d in seen then t[d].Purged(bad, now) else t[d]
  }

  lemma PurgeOnlyBounds<R>(t: Entries<R>, bad: Time, now: Time)
    ensures PurgeOnly(t, {}, bad, now) == t
    ensures PurgeOnly(t, t.Keys, bad, now) == Purge(t, bad, now)
  {
  }

  /** One round of the loop of `Purge`. */
  lemma PurgeOnlyStep<R>(t: Entries<R>, seen: set<Address>, d: Address, bad: Time, now: Time)
    requires d in t && d !in seen
    ensures var p, p' := PurgeOnly(t, seen, bad, now), PurgeOnly(t, seen + {d}, bad, now);
            && d in p && p[d] == t[d]
            && (t[d].PurgeDeletes(now) ==> p' == p - {d})
            && (t[d].Expired(now) && t[d].flag == VALID ==> p' == p[d := t[d].Invalidate(bad, now)])
            && (!t[d].Expired(now) || t[d].flag == IN_SEARCH ==> p' == p)
  {
  }

  /** The purged table `p` when the listed destinations among `seen` have been invalidated. */
  function InvalidateOnly<R>(p: Entries<R>, seen: set<Address>, listed: set<Address>, bad: Time, now: Time)
    : Entries<R>
  {
    map d | d in p :: p[d].InvalidatedIf(d in seen && d in listed, bad, now)
  }

  lemma InvalidateOnlyBounds<R>(p: Entries<R>, listed: set<Address>, bad: Time, now: Time)
    ensures InvalidateOnly(p, {}, listed, bad, now) == p
    ensures InvalidateOnly(p, p.Keys, listed, bad, now) == map d | d in p :: p[d].InvalidatedIf(d in listed, bad, now)
  {
  }

  lemma InvalidateOnlyStep<R>(p: Entries<R>, seen: set<Address>, d: Address, listed: set<Address>, bad: Time, now: Time)
    requires d in p && d !in seen
    ensures var q := InvalidateOnly(p, seen, listed, bad, now);
            && d in q && q[d] == p[d]
            && InvalidateOnly(p, seen + {d}, listed, bad, now) == q[d := p[d].InvalidatedIf(d in listed, bad, now)]
  {
  }

  // ---------- purging ----------

  /**
   Purging twice at the same time is the same as purging once, exactly when the
   bad-link lifetime is not negative or nothing VALID has expired.
   */
  lemma PurgeIdempotentExactly<R>(t: Entries<R>, bad: Time, now: Time)
    ensures Purge(Purge(t, bad, now), bad, now) == Purge(t, bad, now)
            <==> bad >= 0 || forall d :: d in t ==> !(t[d].flag == VALID && t[d].Expired(now))
  {
    var p := Purge(t, bad, now);
    if bad < 0 {
      forall d | d in t && t[d].flag == VALID && t[d].Expired(now)
        ensures d in p && d !in Purge(p, bad, now)
      {
      }
    }
  }

  /**
   With a negative lifetime it matters: the first purge invalidates an expired route
   with a deletion time already past, and the second one deletes it.
   */
  lemma NegativeLifetimePurgesTwice(d: Address, via: Address)
    ensures var t: Table := map[d := NewRow(true, 0, 1, 0, via, 0, 0)];
            var once, twice := Purge(t, -1, 1), Purge(Purge(t, -1, 1), -1, 1);
            && d in once && once[d].flag == INVALID
            && twice == map[]
  {
    var t: Table := map[d := NewRow(true, 0, 1, 0, via, 0, 0)];
    assert Purge(t, -1, 1)[d].PurgeDeletes(1);
  }

  /** After a purge no VALID entry is past its expiry, nor, for a non-negative lifetime, any INVALID one. */
  lemma PurgeLeavesNothingExpired<R>(t: Entries<R>, bad: Time, now: Time, d: Address)
    requires d in Purge(t, bad, now)
    ensures Purge(t, bad, now)[d].flag == VALID ==> !Purge(t, bad, now)[d].Expired(now)
    ensures bad >= 0 && Purge(t, bad, now)[d].flag == INVALID ==> !Purge(t, bad, now)[d].Expired(now)
  {
  }

  /** An entry that has not expired comes through a purge unchanged, whatever its state. */
  lemma PurgeKeepsUnexpired<R>(t: Entries<R>, bad: Time, now: Time, d: Address)
    requires d in t && !t[d].Expired(now)
    ensures d in Purge(t, bad, now) && Purge(t, bad, now)[d] == t[d]
  {
  }

  // ---------- a broken link ----------

  /**
   Collecting and invalidating the destinations behind a next hop leaves no VALID
   entry through it; an entry changes only if it was VALID through that next hop;
   every other purged entry, every next hop and every sequence number stays.
   */
  lemma BreakLinkInvalidatesExactly(t: Table, nextHop: Address, bad: Time, now: Time)
    ensures var p, b := Purge(t, bad, now), BreakLink(t, nextHop, bad, now);
            && (bad >= 0 ==> b.Keys == p.Keys)
            && b.Keys <= p.Keys
            && forall d :: d in b ==>
                 && b[d].seqNo == p[d].seqNo && b[d].validSeqNo == p[d].validSeqNo && b[d].via == p[d].via
                 && !(b[d].flag == VALID && b[d].via == nextHop)
                 && (b[d] != p[d] <==> p[d].flag == VALID && p[d].via == nextHop)
                 && (b[d] != p[d] ==> b[d].flag == INVALID && b[d].lifeTime == bad + now)
  {
    var p := Purge(t, bad, now);
  }

  // ---------- what each operation does to one entry ----------

  /**
   A purge deletes exactly the INVALID entries past their deletion time, gives the VALID
   ones past their expiry a deletion time, and leaves every other entry alone.
   */
  lemma PurgeExactly<R>(t: Entries<R>, bad: Time, now: Time, d: Address)
    ensures d in Purge(t, bad, now) <==> d in t && !(t[d].flag == INVALID && t[d].lifeTime < now)
    ensures d in Purge(t, bad, now) ==>
              Purge(t, bad, now)[d] == if t[d].flag == VALID && t[d].lifeTime < now
                                       then t[d].(flag := INVALID, reqCount := 0, lifeTime := now + bad)
                                       else t[d]
  {
  }

  /** An entry that a purge invalidates is there for exactly the bad-link lifetime, whenever it is purged again. */
  lemma InvalidatedThenDeleted<R>(t: Entries<R>, bad: Time, now: Time, later: Time, d: Address)
    requires d in t && t[d].flag == VALID && t[d].lifeTime < now
    ensures d in Purge(Purge(t, bad, now), bad, later) <==> later <= now + bad
  {
    PurgeExactly(t, bad, now, d);
    PurgeExactly(Purge(t, bad, now), bad, later, d);
    hide Purge;
  }

  /** What `AddRoute` and `Update` store: the entry, its request count cleared unless it is searched for. */
  ghost predicate StoredAs<R>(stored: Entry<R>, e: Entry<R>) {
    stored == if e.flag == IN_SEARCH then e else e.(reqCount := 0)
  }

  /** `AddRoute` stores a new entry and never touches one that the purge left; the others stay. */
  lemma AddRouteExactly<R>(t: Entries<R>, d: Address, e: Entry<R>, bad: Time, now: Time)
    ensures var p, a := Purge(t, bad, now), AddRoute(t, d, e, bad, now);
            && a.Keys == p.Keys + {d}
            && (d in p ==> a == p)
            && (d !in p ==> StoredAs(a[d], e))
            && forall x :: x in p && x != d ==> a[x] == p[x]
  {
    hide Purge;
  }

  /** `Update` replaces an entry that is there, adds none, and touches no other. */
  lemma UpdateExactly<R>(t: Entries<R>, d: Address, e: Entry<R>)
    ensures var u := Update(t, d, e);
            && u.Keys == t.Keys
            && (d in t ==> StoredAs(u[d], e))
            && forall x :: x in t && x != d ==> u[x] == t[x]
  {
  }

  /** A deleted route is not found again until it is added; the others are as the purge left them. */
  lemma DeleteRouteExactly<R>(t: Entries<R>, d: Address, bad: Time, now: Time, later: Time)
    ensures var p, t' := Purge(t, bad, now), DeleteRoute(t, d, bad, now);
            && t'.Keys == p.Keys - {d} && (forall x :: x in t' ==> t'[x] == p[x])
            && d !in t' && d !in Purge(t', bad, later)
  {
  }

  /** Setting the state of an entry that is there gives it that flag and clears its request count, and nothing else. */
  lemma SetEntryStateExactly<R>(t: Entries<R>, d: Address, state: RouteFlag)
    ensures var t' := SetEntryState(t, d, state);
            && t'.Keys == t.Keys
            && (d in t ==> t'[d] == t[d].(flag := state, reqCount := 0))
            && forall x :: x in t && x != d ==> t'[x] == t[x]
  {
  }

  /** Marking a link sets the mark and its timeout and clears the request count, and nothing else. */
  lemma MarkUnidirectionalExactly<R>(t: Entries<R>, d: Address, timeout: Time)
    ensures var t' := MarkUnidirectional(t, d, timeout);
            && t'.Keys == t.Keys
            && (d in t ==> t'[d] == t[d].(blackListed := true, blackListTimeout := timeout, reqCount := 0))
            && forall x :: x in t && x != d ==> t'[x] == t[x]
  {
  }

  /** The destinations reported behind a next hop are exactly those routed through it, with their sequence numbers. */
  lemma UnreachableExactly(t: Table, nextHop: Address, bad: Time, now: Time, d: Address, seqNo: uint32)
    ensures var p := Purge(t, bad, now);
            var u := Unreachable(p, nextHop);
            d in u && u[d] == seqNo <==> d in p && p[d].via == nextHop && p[d].seqNo == seqNo
  {
    hide Purge;
  }

  /** Invalidating a list of destinations touches exactly the VALID entries on it. */
  lemma InvalidateRoutesExactly<R>(t: Entries<R>, listed: set<Address>, bad: Time, now: Time)
    ensures var p, t' := Purge(t, bad, now), InvalidateRoutes(t, listed, bad, now);
            && t'.Keys == p.Keys
            && forall d :: d in p ==>
                 t'[d] == if d in listed && p[d].flag == VALID
                          then p[d].(flag := INVALID, reqCount := 0, lifeTime := now + bad) else p[d]
  {
    hide Purge;
  }
}
