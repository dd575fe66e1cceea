/**
 The routing table as an object (model/rtable.cc, model/rtable.h).

 A table entry is copied by value, but its `Ipv4Route` is held by pointer, so a
 looked-up copy shares the route object of the table. `Entry<Ipv4Route>` is the
 entry as stored; `View` reads every next hop through its pointer.
 */
module RoutingTables {
  import opened Types
  import opened Tables

  class Ipv4Route {
    const destination: Address
    var gateway: Address

    constructor (destination: Address, gateway: Address)
      ensures this.destination == destination && this.gateway == gateway
    {
      this.destination := destination;
      this.gateway := gateway;
    }
  }

  type RouteEntry = Entry<Ipv4Route>

  /** Read the next hop through the route pointer. */
  function Resolve(e: RouteEntry): Row
    reads e.via
  {
    Entry(e.via.gateway, e.validSeqNo, e.seqNo, e.hops, e.amount, e.lifeTime, e.flag, e.reqCount,
          e.blackListed, e.blackListTimeout)
  }

  method NewEntry(dst: Address, validSeqNo: bool, seqNo: uint32, hops: uint16, amount: uint32,
                  nextHop: Address, lifetime: Time, now: Time) returns (e: RouteEntry)
    ensures fresh(e.via) && e.via.destination == dst
    ensures Resolve(e) == NewRow(validSeqNo, seqNo, hops, amount, nextHop, lifetime, now)
  {
    var route := new Ipv4Route(dst, nextHop);
    e := Entry(route, validSeqNo, seqNo, hops, amount, lifetime + now, VALID, 0, false, now);
  }

  /** `RoutingTableEntry::SetNextHop` writes through the pointer, whichever copy it is called on. */
  method SetNextHop(e: RouteEntry, nextHop: Address)
    modifies e.via
    ensures e.via.gateway == nextHop
  {
    e.via.gateway := nextHop;
  }

  ghost function RoutesOf(entries: Entries<Ipv4Route>): set<Ipv4Route> {
    set d | d in entries :: entries[d].via
  }

  ghost function ViewOf(entries: Entries<Ipv4Route>): Table
    reads RoutesOf(entries)
  {
    map d | d in entries :: Resolve(entries[d])
  }

  lemma PurgeCommutes(entries: Entries<Ipv4Route>, bad: Time, now: Time)
    ensures ViewOf(Purge(entries, bad, now)) == Purge(ViewOf(entries), bad, now)
  {
  }

  lemma PurgeKeepsRoutes(entries: Entries<Ipv4Route>, bad: Time, now: Time)
    ensures forall d :: d in Purge(entries, bad, now) ==>
              d in entries && Purge(entries, bad, now)[d].via == entries[d].via
    ensures RoutesOf(Purge(entries, bad, now)) <= RoutesOf(entries)
  {
  }

  lemma ViewHasSameKeys(entries: Entries<Ipv4Route>)
    ensures ViewOf(entries).Keys == entries.Keys
  {
  }

  lemma RemoveCommutes(entries: Entries<Ipv4Route>, d: Address)
    ensures ViewOf(entries - {d}) == ViewOf(entries) - {d}
  {
  }

  lemma PutCommutes(entries: Entries<Ipv4Route>, d: Address, e: RouteEntry)
    ensures ViewOf(entries[d := e]) == ViewOf(entries)[d := Resolve(e)]
    ensures RoutesOf(entries[d := e]) <= RoutesOf(entries) + {e.via}
  {
  }

  lemma InvalidateCommutes(entries: Entries<Ipv4Route>, keys: set<Address>, bad: Time, now: Time)
    ensures ViewOf(InvalidateRoutes(entries, keys, bad, now)) == InvalidateRoutes(ViewOf(entries), keys, bad, now)
  {
    PurgeCommutes(entries, bad, now);
  }

  class RoutingTable {
    var entries: Entries<Ipv4Route>
    var badLinkLifetime: Time

    /** Every entry is stored under the destination of its route object. */
    ghost predicate Valid()
      reads this
    {
      forall d :: d in entries ==> entries[d].via.destination == d
    }

    ghost function Routes(): set<Ipv4Route>
      reads this
    {
      RoutesOf(entries)
    }

    ghost function View(): Table
      reads this, Routes()
    {
      ViewOf(entries)
    }

    constructor (t: Time)
      ensures Valid() && View() == map[] && badLinkLifetime == t
    {
      entries := map[];
      badLinkLifetime := t;
    }

    method Purge(now: Time)
      requires Valid()
      modifies this`entries
      ensures Valid()
      ensures entries == Tables.Purge(old(entries), badLinkLifetime, now)
      ensures View() == Tables.Purge(old(View()), badLinkLifetime, now)
      ensures Routes() <= old(Routes())
    {
      PurgeCommutes(entries, badLinkLifetime, now);
      PurgeKeepsRoutes(entries, badLinkLifetime, now);
      hide ViewOf, Tables.Purge, PurgeOnly;
      ghost var all := entries;
      PurgeOnlyBounds(all, badLinkLifetime, now);
      if |entries| == 0 {
        assert entries.Keys == {};
        return;
      }
      var todo := entries.Keys;
      assert all.Keys - todo == {};
      while todo != {}
        modifies this`entries
        invariant todo <= all.Keys
        invariant entries == PurgeOnly(all, all.Keys - todo, badLinkLifetime, now)
      {
        var d :| d in todo;
        PurgeOnlyStep(all, all.Keys - todo, d, badLinkLifetime, now);
        if entries[d].Expired(now) {
          if entries[d].flag == INVALID {
            entries := entries - {d};
          } else if entries[d].flag == VALID {
            entries := entries[d := entries[d].Invalidate(badLinkLifetime, now)];
          }
        }
        assert all.Keys - (todo - {d}) == all.Keys - todo + {d};
        todo := todo - {d};
      }
      assert all.Keys - {} == all.Keys;
    }

    /** The purge of a copied table that `Print` uses; the copy shares the route objects. */
    method PurgedCopy(now: Time) returns (table: Entries<Ipv4Route>)
      ensures table == Tables.Purge(entries, badLinkLifetime, now)
    {
      hide Tables.Purge, PurgeOnly;
      table := entries;
      PurgeOnlyBounds(entries, badLinkLifetime, now);
      if |table| == 0 {
        assert table.Keys == {};
        return;
      }
      var todo := table.Keys;
      assert entries.Keys - todo == {};
      while todo != {}
        invariant todo <= entries.Keys
        invariant table == PurgeOnly(entries, entries.Keys - todo, badLinkLifetime, now)
      {
        var d :| d in todo;
        PurgeOnlyStep(entries, entries.Keys - todo, d, badLinkLifetime, now);
        if table[d].Expired(now) {
          if table[d].flag == INVALID {
            table := table - {d};
          } else if table[d].flag == VALID {
            table := table[d := table[d].Invalidate(badLinkLifetime, now)];
          }
        }
        assert entries.Keys - (todo - {d}) == entries.Keys - todo + {d};
        todo := todo - {d};
      }
      assert entries.Keys - {} == entries.Keys;
    }

    /** The entry returned is a copy: its fields are its own, its route is the table's. */
    method LookupRoute(id: Address, now: Time) returns (rt: Option<RouteEntry>)
      requires Valid()
      modifies this`entries
      ensures Valid() && View() == Tables.Purge(old(View()), badLinkLifetime, now)
      ensures entries == Tables.Purge(old(entries), badLinkLifetime, now) && Routes() <= old(Routes())
      ensures rt == if id in entries then Some(entries[id]) else None
    {
      Purge(now);
      if |entries| == 0 {
        return None;
      }
      rt := if id in entries then Some(entries[id]) else None;
    }

    method LookupValidRoute(id: Address, now: Time) returns (found: bool, rt: Option<RouteEntry>)
      requires Valid()
      modifies this`entries
      ensures Valid() && View() == Tables.Purge(old(View()), badLinkLifetime, now)
      ensures rt == if id in entries then Some(entries[id]) else None
      ensures found <==> id in View() && View()[id].flag == VALID
      ensures found ==> rt.Some? && !rt.value.Expired(now)
    {
      rt := LookupRoute(id, now);
      found := rt.Some? && rt.value.flag == VALID;
    }

    method DeleteRoute(dst: Address, now: Time) returns (deleted: bool)
      requires Valid()
      modifies this`entries
      ensures Valid() && View() == Tables.DeleteRoute(old(View()), dst, badLinkLifetime, now)
      ensures deleted <==> dst in Tables.Purge(old(View()), badLinkLifetime, now)
    {
      hide ViewOf, Tables.Purge;
      Purge(now);
      ViewHasSameKeys(entries);
      deleted := dst in entries;
      ghost var purged := entries;
      entries := entries - {dst};
      RemoveCommutes(purged, dst);
    }

    method AddRoute(rt: RouteEntry, now: Time) returns (added: bool)
      requires Valid()
      modifies this`entries
      ensures Valid()
      ensures View() == Tables.AddRoute(old(View()), rt.via.destination, Resolve(rt), badLinkLifetime, now)
      ensures added <==> rt.via.destination !in Tables.Purge(old(View()), badLinkLifetime, now)
      ensures added ==> Routes() <= old(Routes()) + {rt.via}
      ensures !added ==> Routes() <= old(Routes())
    {
      hide ViewOf, Tables.Purge;
      Purge(now);
      ViewHasSameKeys(entries);
      PutCommutes(entries, rt.via.destination, rt.Settled());
      added := rt.via.destination !in entries;
      if added {
        entries := entries[rt.via.destination := rt.Settled()];
      }
    }

    method Update(rt: RouteEntry) returns (updated: bool)
      requires Valid()
      modifies this`entries
      ensures Valid()
      ensures View() == Tables.Update(old(View()), rt.via.destination, Resolve(rt))
      ensures updated <==> rt.via.destination in old(View())
      ensures Routes() <= old(Routes()) + {rt.via}
    {
      hide ViewOf;
      ViewHasSameKeys(entries);
      PutCommutes(entries, rt.via.destination, rt.Settled());
      updated := rt.via.destination in entries;
      if updated {
        entries := entries[rt.via.destination := rt.Settled()];
      }
    }

    method SetEntryState(id: Address, state: RouteFlag) returns (found: bool)
      requires Valid()
      modifies this`entries
      ensures Valid() && View() == Tables.SetEntryState(old(View()), id, state)
      ensures found <==> id in old(View())
    {
      found := id in entries;
      if found {
        entries := entries[id := entries[id].(flag := state, reqCount := 0)];
      }
    }

    method MarkLinkAsUnidirectional(neighbor: Address, blacklistTimeout: Time) returns (found: bool)
      requires Valid()
      modifies this`entries
      ensures Valid() && View() == Tables.MarkUnidirectional(old(View()), neighbor, blacklistTimeout)
      ensures found <==> neighbor in old(View())
    {
      found := neighbor in entries;
      if found {
        entries := entries[neighbor :=
          entries[neighbor].(blackListed := true, blackListTimeout := blacklistTimeout, reqCount := 0)];
      }
    }

    method GetListOfDestinationWithNextHop(nextHop: Address, now: Time) returns (unreachable: map<Address, uint32>)
      requires Valid()
      modifies this`entries
      ensures Valid() && View() == Tables.Purge(old(View()), badLinkLifetime, now)
      ensures unreachable == Unreachable(View(), nextHop)
    {
      hide Tables.Purge, RoutesOf;
      Purge(now);
      unreachable := map[];
      var todo := entries.Keys;
      while todo != {}
        modifies {}
        invariant todo <= entries.Keys
        invariant unreachable.Keys <= entries.Keys - todo
        invariant forall d :: d in entries && d !in todo ==> (d in unreachable <==> entries[d].via.gateway == nextHop)
        invariant forall d :: d in unreachable ==> unreachable[d] == entries[d].seqNo
      {
        var d :| d in todo;
        if entries[d].via.gateway == nextHop {
          unreachable := unreachable[d := entries[d].seqNo];
        }
        todo := todo - {d};
      }
    }

    method InvalidateRoutesWithDst(unreachable: map<Address, uint32>, now: Time)
      requires Valid()
      modifies this`entries
      ensures Valid()
      ensures View() == InvalidateRoutes(old(View()), unreachable.Keys, badLinkLifetime, now)
    {
      hide ViewOf, Tables.Purge, InvalidateOnly;
      Purge(now);
      ghost var p := entries;
      InvalidateOnlyBounds(p, unreachable.Keys, badLinkLifetime, now);
      var todo := entries.Keys;
      assert p.Keys - todo == {};
      while todo != {}
        modifies this`entries
        invariant todo <= p.Keys && Valid()
        invariant entries == InvalidateOnly(p, p.Keys - todo, unreachable.Keys, badLinkLifetime, now)
      {
        var d :| d in todo;
        InvalidateOnlyStep(p, p.Keys - todo, d, unreachable.Keys, badLinkLifetime, now);
        InvalidateIfListed(d, unreachable, now);
        assert p.Keys - (todo - {d}) == p.Keys - todo + {d};
        todo := todo - {d};
      }
      assert p.Keys - {} == p.Keys;
      assert entries == InvalidateRoutes(old(entries), unreachable.Keys, badLinkLifetime, now);
      InvalidateCommutes(old(entries), unreachable.Keys, badLinkLifetime, now);
    }

    /** The inner loop: compare one destination with each unreachable one. */
    method InvalidateIfListed(d: Address, unreachable: map<Address, uint32>, now: Time)
      requires d in entries
      modifies this`entries
      ensures entries == old(entries)[d := old(entries)[d].InvalidatedIf(d in unreachable, badLinkLifetime, now)]
    {
      var keys := unreachable.Keys;
      while keys != {}
        modifies this`entries
        invariant keys <= unreachable.Keys
        invariant entries
          == old(entries)[d := old(entries)[d].InvalidatedIf(d in unreachable.Keys - keys, badLinkLifetime, now)]
      {
        var j :| j in keys;
        if d == j && entries[d].flag == VALID {
          entries := entries[d := entries[d].Invalidate(badLinkLifetime, now)];
        }
        keys := keys - {j};
      }
    }
  }

  // ---------- sharing ----------

  /**
   Because the key of an entry is the destination of its route, two entries never
   share a route object, although looked-up copies do.
   */
  lemma RoutesNotShared(t: RoutingTable, a: Address, b: Address)
    requires t.Valid() && a in t.entries && b in t.entries
    ensures t.entries[a].via == t.entries[b].via <==> a == b
  {
  }

  /**
   Writing the next hop through a looked-up copy changes that destination's entry
   in the table, at once and without `Update`, and no other entry.
   */
  twostate lemma NextHopOfCopy(t: RoutingTable, rt: RouteEntry)
    requires t.Valid() && unchanged(t)
    requires rt.via.destination in t.entries && t.entries[rt.via.destination].via == rt.via
    requires forall r :: r in t.Routes() && r != rt.via ==> unchanged(r)
    ensures var d := rt.via.destination;
            t.View() == old(t.View())[d := old(t.View())[d].(via := rt.via.gateway)]
  {
    forall b | b in t.entries && b != rt.via.destination
      ensures t.View()[b] == old(t.View())[b]
    {
      RoutesNotShared(t, rt.via.destination, b);
      assert t.entries[b].via in t.Routes();
    }
  }
}
