/**
 The routing protocol object (model/offchain-routing.cc): the same steps as in
 `Nodes`, carried out on a routing table whose entries share route objects with
 the local copies, on the id cache, and on a header written field by field.
 */
module Protocol {
  import opened Types
  import opened SerialNumbers
  import opened IdCaches
  import opened Tables
  import opened RoutingTables
  import opened Packets
  import opened Nodes

  class RoutingProtocol {
    const self: Address
    const cfg: Config
    const routingTable: RoutingTable
    const rreqIdCache: IdCache
    var seqNo: uint32
    var requestId: uint32
    var rreqCount: uint16
    /** What was sent or scheduled so far. */
    var events: seq<Event>

    ghost predicate Valid()
      reads this, routingTable, rreqIdCache, rreqIdCache.ids
    {
      && routingTable.Valid() && routingTable.badLinkLifetime == cfg.deletePeriod
      && rreqIdCache.Valid() && rreqIdCache.lifetime == cfg.pathDiscoveryTime
    }

    ghost function View(): Node
      requires Valid()
      reads this, routingTable, routingTable.Routes(), rreqIdCache, rreqIdCache.ids, rreqIdCache.ids.data
    {
      Node(self, cfg, routingTable.View(), rreqIdCache.Contents(), seqNo, requestId, rreqCount)
    }

    constructor (self: Address, cfg: Config)
      ensures Valid()
      ensures View() == Node(self, cfg, map[], [], 0, 0, 0) && events == []
    {
      this.self := self;
      this.cfg := cfg;
      routingTable := new RoutingTable(cfg.deletePeriod);
      rreqIdCache := new IdCache(cfg.pathDiscoveryTime);
      seqNo, requestId, rreqCount, events := 0, 0, 0, [];
    }

    /** Hand something to the socket or the scheduler; the routing table is not involved. */
    method Emit(e: Event)
      requires Valid()
      modifies this`events
      ensures events == old(events) + [e]
      ensures Valid() && View() == old(View())
    {
      events := events + [e];
    }

    method SendRequest(dst: Address, now: Time)
      requires Valid()
      modifies this`seqNo, this`requestId, this`rreqCount, this`events
      modifies routingTable`entries, rreqIdCache.ids, rreqIdCache.ids.data
      ensures Valid()
      ensures View() == Nodes.SendRequest(old(View()), dst, now).0
      ensures events == old(events) + Nodes.SendRequest(old(View()), dst, now).1
    {
      hide View, DestinationFields, OriginatorFields, SearchTable, Remember, Tables.Purge;
      SameNode();
      if rreqCount == cfg.rreqRateLimit {
        Emit(Deferred(dst));
        return;
      }
      var rreqHeader := HeaderOf(Rreq(0, 0, 0, 0, NULL_ADDRESS, 0, NULL_ADDRESS, 0, 0));
      CountRequest();
      SearchFor(rreqHeader, dst, now);
      Stamp(rreqHeader);
      var _ := SeenBefore(self, rreqHeader.requestId, now);
      var h := rreqHeader.Value();
      Emit(Broadcast(h));
      Emit(ScheduleRetry(dst));
      assert events == old(events) + [Broadcast(h), ScheduleRetry(dst)];
    }

    /** The scalar fields of the node are those of its view. */
    lemma SameNode()
      requires Valid()
      ensures View().self == self && View().cfg == cfg && View().rreqCount == rreqCount
      ensures View().seqNo == seqNo && View().requestId == requestId
    {
    }

    /** A local header object; creating it leaves the node as it is. */
    method HeaderOf(p: Rreq) returns (rreqHeader: RreqHeader)
      requires Valid()
      ensures fresh(rreqHeader) && rreqHeader.Value() == p
      ensures Valid() && View() == old(View())
    {
      rreqHeader := new RreqHeader.Received(p);
    }

    method CountRequest()
      requires Valid()
      modifies this`rreqCount
      ensures Valid() && View() == old(View()).(rreqCount := (old(rreqCount) + 1) % TWO16)
    {
      rreqCount := (rreqCount + 1) % TWO16;
    }

    /** Flags, fresh sequence number, fresh request id, hop count zero, and the originator's address. */
    method Stamp(rreqHeader: RreqHeader)
      requires Valid()
      modifies this`seqNo, this`requestId, rreqHeader
      ensures Valid()
      ensures View() == old(View()).(seqNo := (old(seqNo) + 1) % TWO32, requestId := (old(requestId) + 1) % TWO32)
      ensures rreqHeader.requestId == View().requestId
      ensures rreqHeader.Value()
           == OriginatorFields(old(rreqHeader.Value()).(hopCount := 0), self, cfg, View().seqNo, View().requestId)
    {
      hide OriginatorFields;
      seqNo := (seqNo + 1) % TWO32;
      requestId := (requestId + 1) % TWO32;
      FillOriginator(rreqHeader);
    }

    method FillOriginator(rreqHeader: RreqHeader)
      modifies rreqHeader
      ensures rreqHeader.requestId == requestId
      ensures rreqHeader.Value()
           == OriginatorFields(old(rreqHeader.Value()).(hopCount := 0), self, cfg, seqNo, requestId)
    {
      hide SetFlag;
      if cfg.gratuitousReply {
        rreqHeader.WriteFlag(GratuitousRrep, true);
      }
      if cfg.destinationOnly {
        rreqHeader.WriteFlag(DestinationOnly, true);
      }
      rreqHeader.originSeqNo := seqNo;
      rreqHeader.requestId := requestId;
      rreqHeader.hopCount := 0;
      rreqHeader.origin := self;
    }

    method SeenBefore(origin: Address, id: uint32, now: Time) returns (duplicate: bool)
      requires Valid()
      modifies rreqIdCache.ids, rreqIdCache.ids.data
      ensures Valid()
      ensures duplicate == Duplicate(old(View()).cache, origin, id, now)
      ensures View() == old(View()).(cache := Remember(old(View()).cache, origin, id, now, cfg.pathDiscoveryTime))
    {
      hide Remember, Duplicate;
      duplicate := rreqIdCache.IsDuplicate(origin, id, now);
    }

    /** The first part of `SendRequest`: destination fields of the header, and the entry marked IN_SEARCH. */
    method SearchFor(rreqHeader: RreqHeader, dst: Address, now: Time)
      requires Valid()
      requires rreqHeader.Value() == Rreq(0, 0, 0, 0, NULL_ADDRESS, 0, NULL_ADDRESS, 0, 0)
      modifies rreqHeader, routingTable`entries
      ensures Valid()
      ensures View() == old(View()).(table := SearchTable(old(View()).Purged(now), dst, cfg.deletePeriod, now))
      ensures rreqHeader.Value().(hopCount := 0) == DestinationFields(old(View()).Purged(now), dst)
    {
      hide View, SetFlag, SearchTable, Tables.Purge;
      SameNode();
      rreqHeader.dst := dst;
      var rt := Lookup(dst, now);
      FillDestination(rreqHeader, rt);
      MarkInSearch(dst, rt, now);
    }

    method MarkInSearch(dst: Address, rt: Option<RouteEntry>, now: Time)
      requires Valid()
      requires rt == if dst in routingTable.entries then Some(routingTable.entries[dst]) else None
      modifies routingTable`entries
      ensures Valid()
      ensures View() == old(View()).(table := SearchTable(old(View()).table, dst, cfg.deletePeriod, now))
    {
      hide Tables.Purge, ViewOf, AddRoute, Update;
      ViewHasSameKeys(routingTable.entries);
      if rt.Some? {
        EntryInView(routingTable, dst);
        var _ := routingTable.Update(rt.value.(flag := IN_SEARCH));
      } else {
        var newEntry := NewEntry(dst, false, 0, 0, 0, NULL_ADDRESS, 0, now);
        var _ := routingTable.AddRoute(newEntry.(flag := IN_SEARCH), now);
      }
    }

    method FillDestination(rreqHeader: RreqHeader, rt: Option<RouteEntry>)
      modifies rreqHeader
      ensures rreqHeader.Value().(hopCount := 0) == old(rreqHeader.Value().(hopCount := 0)).Knowing(
                if rt.Some? && rt.value.validSeqNo then Known(rt.value.seqNo) else Unknown)
    {
      hide SetFlag;
      if rt.Some? {
        rreqHeader.hopCount := rt.value.hops % TWO8;
        if rt.value.validSeqNo {
          rreqHeader.dstSeqNo := rt.value.seqNo;
        } else {
          rreqHeader.WriteFlag(UnknownSeqno, true);
        }
      } else {
        rreqHeader.WriteFlag(UnknownSeqno, true);
      }
    }

    method RecvRReq(p: Rreq, src: Address, now: Time)
      requires Valid()
      modifies this`events, routingTable`entries, routingTable.Routes(), rreqIdCache.ids, rreqIdCache.ids.data
      ensures Valid()
      ensures View() == RecvRreq(old(View()), p, src, now).0
      ensures events == old(events) + RecvRreq(old(View()), p, src, now).1
    {
      hide View, RecordReverseRoute, Respond, Tables.Purge, Duplicate, Remember, Node.Ignores, Node.Purged;
      assert events == old(events) + [];
      SameNode();
      var blackListed := InBlackList(src, now);
      if blackListed {
        return;
      }
      var duplicate := SeenBefore(p.origin, p.requestId, now);
      if duplicate {
        return;
      }
      Process(p, src, now);
    }

    /** The request is new: one hop more, the reverse route, and the answer. */
    method Process(p: Rreq, src: Address, now: Time)
      requires Valid()
      modifies this`events, routingTable`entries, routingTable.Routes()
      ensures Valid()
      ensures var (t, toOrigin) := RecordReverseRoute(old(View()).table, Hopped(p), src, cfg, now);
              var r := Respond(self, t, toOrigin, Hopped(p), src, cfg, now);
              View() == old(View()).(table := r.0) && events == old(events) + r.1
    {
      hide View, RecordReverseRoute, Respond;
      var rreqHeader := HeaderOf(p);
      rreqHeader.hopCount := (rreqHeader.hopCount + 1) % TWO8;
      var toOrigin := UpdateReverseRoute(rreqHeader.Value(), src, now);
      Answer(rreqHeader, toOrigin, src, now);
    }

    /** `LookupRoute`, with the entry found described by the node's table. */
    method Lookup(id: Address, now: Time) returns (rt: Option<RouteEntry>)
      requires Valid()
      modifies routingTable`entries
      ensures Valid() && routingTable.Routes() <= old(routingTable.Routes())
      ensures View() == old(View()).(table := old(View()).Purged(now))
      ensures rt == if id in routingTable.entries then Some(routingTable.entries[id]) else None
      ensures rt.Some? <==> id in View().table
      ensures rt.Some? ==> Resolve(rt.value) == View().table[id]
    {
      hide Tables.Purge;
      rt := routingTable.LookupRoute(id, now);
    }

    method InBlackList(src: Address, now: Time) returns (blackListed: bool)
      requires Valid()
      modifies routingTable`entries
      ensures Valid() && routingTable.Routes() <= old(routingTable.Routes())
      ensures View() == old(View()).(table := old(View()).Purged(now))
      ensures blackListed == old(View()).Ignores(src, now)
    {
      hide View, Tables.Purge;
      var toPrev := Lookup(src, now);
      blackListed := toPrev.Some? && toPrev.value.blackListed;
    }

    /** The reverse route is created, or written through the looked-up copy and its shared route. */
    method UpdateReverseRoute(h: Rreq, src: Address, now: Time) returns (toOrigin: RouteEntry)
      requires Valid()
      modifies routingTable`entries, routingTable.Routes()
      ensures Valid()
      ensures View() == old(View()).(table := RecordReverseRoute(old(View()).table, h, src, cfg, now).0)
      ensures Resolve(toOrigin) == RecordReverseRoute(old(View()).table, h, src, cfg, now).1
    {
      hide Tables.Purge, ViewOf;
      SameNode();
      var found := Lookup(h.origin, now);
      if found.None? {
        toOrigin := Create(h, src, now);
      } else {
        toOrigin := Refresh(found.value, h, src, now);
      }
    }

    method Create(h: Rreq, src: Address, now: Time) returns (toOrigin: RouteEntry)
      requires Valid()
      modifies routingTable`entries
      ensures Valid() && Resolve(toOrigin) == DefaultRow(now)
      ensures View() == old(View()).(table :=
                          AddRoute(old(View()).table, h.origin, ReverseRow(h, src, cfg, now), cfg.deletePeriod, now))
    {
      hide Tables.Purge, ViewOf, AddRoute;
      toOrigin := NewEntry(NULL_ADDRESS, false, 0, 0, 0, NULL_ADDRESS, now, now);
      var newEntry := NewEntry(h.origin, true, h.originSeqNo, h.hopCount, h.amount, src,
                               2 * cfg.netTraversalTime - 2 * h.hopCount * cfg.nodeTraversalTime, now);
      var _ := routingTable.AddRoute(newEntry, now);
    }

    method Refresh(rt: RouteEntry, h: Rreq, src: Address, now: Time) returns (toOrigin: RouteEntry)
      requires Valid() && h.origin in routingTable.entries && rt == routingTable.entries[h.origin]
      modifies routingTable`entries, rt.via
      ensures Valid() && Resolve(toOrigin) == RefreshedRow(old(Resolve(rt)), h, src, cfg, now)
      ensures View() == old(View()).(table := Update(old(View()).table, h.origin, Resolve(toOrigin)))
    {
      hide ViewOf;
      ghost var t := View().table;
      EntryInView(routingTable, h.origin);
      toOrigin := ApplySetters(rt, h, src, now);
      ghost var row := Resolve(toOrigin);
      var _ := routingTable.Update(toOrigin);
      PutTwice(t, h.origin, old(Resolve(rt)).(via := src), row.Settled());
    }

    /** The setters called on the looked-up copy; only `SetNextHop` reaches the table before `Update`. */
    method ApplySetters(rt: RouteEntry, h: Rreq, src: Address, now: Time) returns (toOrigin: RouteEntry)
      requires Valid() && h.origin in routingTable.entries && rt == routingTable.entries[h.origin]
      modifies rt.via
      ensures Valid() && toOrigin.via == rt.via
      ensures Resolve(toOrigin) == RefreshedRow(old(Resolve(rt)), h, src, cfg, now)
      ensures View() == old(View()).(table := old(View()).table[h.origin := old(Resolve(rt)).(via := src)])
    {
      toOrigin := rt;
      if toOrigin.validSeqNo {
        if Difference(h.originSeqNo, toOrigin.seqNo) > 0 {
          toOrigin := toOrigin.(seqNo := h.originSeqNo);
        }
      } else {
        toOrigin := toOrigin.(seqNo := h.originSeqNo);
      }
      toOrigin := toOrigin.(validSeqNo := true);
      ghost var before := routingTable.View();
      OthersKeepRoutes(routingTable, h.origin);
      SetNextHop(toOrigin, src);
      ViewAfterNextHop(routingTable, before, h.origin);
      toOrigin := toOrigin.(hops := h.hopCount, amount := h.amount);
      toOrigin := toOrigin.(lifeTime := Max(2 * cfg.netTraversalTime - 2 * h.hopCount * cfg.nodeTraversalTime,
                                            toOrigin.lifeTime - now) + now);
    }

    /** Reply as the destination, reply for it, drop, or rebroadcast. */
    method Answer(rreqHeader: RreqHeader, toOrigin: RouteEntry, src: Address, now: Time)
      requires Valid()
      modifies this`events, rreqHeader, routingTable`entries
      ensures Valid()
      ensures var r := Respond(self, old(View()).table, old(Resolve(toOrigin)), old(rreqHeader.Value()), src, cfg, now);
              View() == old(View()).(table := r.0) && events == old(events) + r.1
    {
      hide View, Tables.Purge, SetFlag, Difference;
      SameNode();
      assert events == old(events) + [];
      var h := rreqHeader.Value();
      if rreqHeader.dst == self {
        var found := LookupOrKeep(h.origin, toOrigin, now);
        Emit(Reply(h, Resolve(found)));
        return;
      }
      var toDst := Lookup(rreqHeader.dst, now);
      if toDst.Some? {
        if toDst.value.via.gateway == src {
          return;
        }
        if (h.Has(UnknownSeqno) || Difference(toDst.value.seqNo, rreqHeader.dstSeqNo) >= 0) && toDst.value.validSeqNo {
          if !h.Has(DestinationOnly) && toDst.value.flag == VALID {
            var found := LookupOrKeep(h.origin, toOrigin, now);
            Emit(IntermediateReply(Resolve(toDst.value), Resolve(found), h.Has(GratuitousRrep)));
            return;
          }
          rreqHeader.dstSeqNo := toDst.value.seqNo;
          rreqHeader.WriteFlag(UnknownSeqno, false);
        }
      }
      Emit(Broadcast(rreqHeader.Value()));
    }

    /** `LookupRoute (id, rt)` overwrites `rt` only when it finds an entry. */
    method LookupOrKeep(id: Address, rt: RouteEntry, now: Time) returns (r: RouteEntry)
      requires Valid()
      modifies routingTable`entries
      ensures Valid() && View() == old(View()).(table := old(View()).Purged(now))
      ensures Resolve(r) == Found(View().table, id, Resolve(rt))
    {
      hide View, Tables.Purge;
      var found := Lookup(id, now);
      r := if found.Some? then found.value else rt;
    }
  }

  lemma OthersKeepRoutes(t: RoutingTable, d: Address)
    requires t.Valid() && d in t.entries
    ensures forall b :: b in t.entries && b != d ==> t.entries[b].via != t.entries[d].via
    ensures t.View().Keys == t.entries.Keys && forall b :: b in t.entries ==> t.View()[b] == Resolve(t.entries[b])
  {
  }

  /** The view when only the next hop of `d` has changed since it was `before`. */
  lemma ViewAfterNextHop(t: RoutingTable, before: Table, d: Address)
    requires t.Valid() && d in t.entries && before.Keys == t.entries.Keys
    requires forall b :: b in t.entries && b != d ==> before[b] == Resolve(t.entries[b])
    requires before[d].(via := t.entries[d].via.gateway) == Resolve(t.entries[d])
    ensures t.View() == before[d := before[d].(via := t.entries[d].via.gateway)]
  {
  }

  lemma PutTwice(t: Table, d: Address, a: Row, b: Row)
    ensures t[d := a][d := b] == t[d := b]
  {
  }

  lemma EntryInView(t: RoutingTable, d: Address)
    requires d in t.entries
    ensures d in t.View() && t.View()[d] == Resolve(t.entries[d])
  {
  }
}
