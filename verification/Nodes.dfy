/**
 What route discovery does to one node (model/offchain-routing.cc): `SendRequest`
 and `RecvRReq` as functions of the node's state, the message and the clock.
 */
module Nodes {
  import opened Types
  import opened SerialNumbers
  import opened Vectors
  import opened IdCaches
  import opened Tables
  import opened Packets

  // ---------- timing ----------

  datatype Config = Config(
    netDiameter: nat,
    nodeTraversalTime: Time,
    netTraversalTime: Time,
    pathDiscoveryTime: Time,
    deletePeriod: Time,
    rreqRateLimit: uint16,
    destinationOnly: bool,
    gratuitousReply: bool)

  function Max(a: Time, b: Time): Time {
    if a < b then b else a
  }

  /** The constants of the `RoutingProtocol` constructor, derived from one another as there. */
  function DefaultConfig(): Config {
    var activeRouteTimeout, helloInterval, netDiameter, nodeTraversalTime := 3_000, 60_000, 35, 40;
    var netTraversalTime := 2 * netDiameter * nodeTraversalTime;
    Config(netDiameter, nodeTraversalTime, netTraversalTime, 2 * netTraversalTime,
           5 * Max(activeRouteTimeout, helloInterval), 10, false, true)
  }

  // ---------- state and messages ----------

  datatype Node = Node(
    self: Address,
    cfg: Config,
    table: Table,
    cache: seq<UniqueId>,
    seqNo: uint32,
    requestId: uint32,
    rreqCount: uint16)
  {
    /** The table after the purge at the start of a lookup. */
    function Purged(now: Time): Table {
      Purge(table, cfg.deletePeriod, now)
    }

    /** The sender is marked as reachable one way only. */
    predicate Ignores(src: Address, now: Time) {
      src in Purged(now) && Purged(now)[src].blackListed
    }

    /** The request gets past the blacklist and the id cache. */
    predicate Accepts(h: Rreq, src: Address, now: Time) {
      !Ignores(src, now) && !Duplicate(cache, h.origin, h.requestId, now)
    }
  }

  /** What a node hands to its socket or scheduler. */
  datatype Event =
    | Broadcast(h: Rreq)
    | Reply(h: Rreq, toOrigin: Row)
    | IntermediateReply(toDst: Row, toOrigin: Row, gratuitous: bool)
    | Deferred(dst: Address)
    | ScheduleRetry(dst: Address)

  // ---------- originating a request ----------

  /** The header as filled in from what is known about the destination. */
  function DestinationFields(t: Table, dst: Address): Rreq {
    Rreq(0, 0, 0, 0, dst, 0, NULL_ADDRESS, 0, 0).Knowing(
      if dst in t && t[dst].validSeqNo then Known(t[dst].seqNo) else Unknown)
  }

  /** The flags, numbers and address of the originator; the hop count starts at zero. */
  function OriginatorFields(h: Rreq, self: Address, cfg: Config, seqNo: uint32, requestId: uint32): Rreq {
    var h1 := if cfg.gratuitousReply then h.With(GratuitousRrep, true) else h;
    var h2 := if cfg.destinationOnly then h1.With(DestinationOnly, true) else h1;
    h2.(originSeqNo := seqNo, requestId := requestId, hopCount := 0, origin := self)
  }

  /** The table marks the destination as searched for. */
  function SearchTable(t: Table, dst: Address, bad: Time, now: Time): Table {
    if dst in t then Update(t, dst, t[dst].(flag := IN_SEARCH))
    else AddRoute(t, dst, NewRow(false, 0, 0, 0, NULL_ADDRESS, 0, now).(flag := IN_SEARCH), bad, now)
  }

  function SendRequest(n: Node, dst: Address, now: Time): (Node, seq<Event>) {
    if n.rreqCount == n.cfg.rreqRateLimit then (n, [Deferred(dst)])
    else
      var t := n.Purged(now);
      var seqNo, requestId := (n.seqNo + 1) % TWO32, (n.requestId + 1) % TWO32;
      var h := OriginatorFields(DestinationFields(t, dst), n.self, n.cfg, seqNo, requestId);
      (n.(rreqCount := (n.rreqCount + 1) % TWO16,
          table := SearchTable(t, dst, n.cfg.deletePeriod, now),
          seqNo := seqNo,
          requestId := requestId,
          cache := Remember(n.cache, n.self, requestId, now, n.cfg.pathDiscoveryTime)),
       [Broadcast(h), ScheduleRetry(dst)])
  }

  // ---------- receiving a request ----------

  /** The hop count is an unsigned byte. */
  function Hopped(h: Rreq): Rreq {
    h.(hopCount := (h.hopCount + 1) % TWO8)
  }

  function MinimalLifetime(cfg: Config, hop: uint8): Time {
    2 * cfg.netTraversalTime - 2 * hop * cfg.nodeTraversalTime
  }

  /** The existing entry for the originator, brought up to date; its flag is not written. */
  function RefreshedRow(r: Row, h: Rreq, src: Address, cfg: Config, now: Time): Row {
    r.(seqNo := if !r.validSeqNo || Newer(h.originSeqNo, r.seqNo) then h.originSeqNo else r.seqNo,
       validSeqNo := true,
       via := src,
       hops := h.hopCount,
       amount := h.amount,
       lifeTime := Max(MinimalLifetime(cfg, h.hopCount), r.lifeTime - now) + now)
  }

  function ReverseRow(h: Rreq, src: Address, cfg: Config, now: Time): Row {
    NewRow(true, h.originSeqNo, h.hopCount, h.amount, src, MinimalLifetime(cfg, h.hopCount), now)
  }

  /** A default-constructed `RoutingTableEntry`. */
  function DefaultRow(now: Time): Row {
    NewRow(false, 0, 0, 0, NULL_ADDRESS, now, now)
  }

  /** The table with the reverse route, and the local entry `toOrigin`. */
  function RecordReverseRoute(t: Table, h: Rreq, src: Address, cfg: Config, now: Time): (Table, Row) {
    var t1 := Purge(t, cfg.deletePeriod, now);
    if h.origin !in t1 then
      (AddRoute(t1, h.origin, ReverseRow(h, src, cfg, now), cfg.deletePeriod, now), DefaultRow(now))
    else
      var r := RefreshedRow(t1[h.origin], h, src, cfg, now);
      (Update(t1, h.origin, r), r)
  }

  /** `LookupRoute` writes its result only when it finds an entry. */
  function Found(t: Table, d: Address, otherwise: Row): Row {
    if d in t then t[d] else otherwise
  }

  /** The node may answer for the destination, or at least knows a number as fresh as the request's. */
  predicate KnowsFresher(toDst: Row, h: Rreq) {
    (h.Has(UnknownSeqno) || AtLeastAsNew(toDst.seqNo, h.dstSeqNo)) && toDst.validSeqNo
  }

  /** Reply, drop or rebroadcast: the events, and the table after the lookups made. */
  function Respond(self: Address, t: Table, toOrigin: Row, h: Rreq, src: Address, cfg: Config, now: Time)
    : (Table, seq<Event>)
  {
    var p := Purge(t, cfg.deletePeriod, now);
    if h.dst == self then
      (p, [Reply(h, Found(p, h.origin, toOrigin))])
    else if h.dst !in p then
      (p, [Broadcast(h)])
    else if p[h.dst].via == src then
      (p, [])
    else if !KnowsFresher(p[h.dst], h) then
      (p, [Broadcast(h)])
    else if !h.Has(DestinationOnly) && p[h.dst].flag == VALID then
      var p' := Purge(p, cfg.deletePeriod, now);
      (p', [IntermediateReply(p[h.dst], Found(p', h.origin, toOrigin), h.Has(GratuitousRrep))])
    else
      (p, [Broadcast(h.(dstSeqNo := p[h.dst].seqNo).With(UnknownSeqno, false))])
  }

  function RecvRreq(n: Node, p: Rreq, src: Address, now: Time): (Node, seq<Event>) {
    var t := n.Purged(now);
    if n.Ignores(src, now) then (n.(table := t), [])
    else
      var cache := Remember(n.cache, p.origin, p.requestId, now, n.cfg.pathDiscoveryTime);
      if Duplicate(n.cache, p.origin, p.requestId, now) then (n.(table := t, cache := cache), [])
      else
        var (t', toOrigin) := RecordReverseRoute(t, Hopped(p), src, n.cfg, now);
        var (t'', events) := Respond(n.self, t', toOrigin, Hopped(p), src, n.cfg, now);
        (n.(table := t'', cache := cache), events)
  }

  // ---------- the table after an accepted request ----------

  /** The entry for the originator that an accepted request leaves in the purged table `t`. */
  function ReverseEntry(t: Table, h: Rreq, src: Address, cfg: Config, now: Time): Row {
    (if h.origin in t then RefreshedRow(t[h.origin], h, src, cfg, now) else ReverseRow(h, src, cfg, now)).Settled()
  }

  /** For a non-negative bad-link lifetime no branch of the response does more than purge. */
  lemma RespondOnlyPurges(self: Address, t: Table, toOrigin: Row, h: Rreq, src: Address, cfg: Config, now: Time)
    requires cfg.deletePeriod >= 0
    ensures Respond(self, t, toOrigin, h, src, cfg, now).0 == Purge(t, cfg.deletePeriod, now)
  {
    PurgeIdempotentExactly(t, cfg.deletePeriod, now);
  }

  lemma RecordWritesOneEntry(t: Table, h: Rreq, src: Address, cfg: Config, now: Time)
    requires cfg.deletePeriod >= 0
    ensures var p := Purge(t, cfg.deletePeriod, now);
            RecordReverseRoute(p, h, src, cfg, now).0 == p[h.origin := ReverseEntry(p, h, src, cfg, now)]
  {
    PurgeIdempotentExactly(t, cfg.deletePeriod, now);
  }

  /** An accepted request changes one entry of the purged table, whatever the response. */
  lemma AcceptedTable(n: Node, p: Rreq, src: Address, now: Time)
    requires n.cfg.deletePeriod >= 0 && n.Accepts(p, src, now)
    ensures var t := n.Purged(now);
            var e := ReverseEntry(t, Hopped(p), src, n.cfg, now);
            RecvRreq(n, p, src, now).0.table == t[p.origin := e.Purged(n.cfg.deletePeriod, now)]
  {
    hide Respond;
    var bad, t, h := n.cfg.deletePeriod, n.Purged(now), Hopped(p);
    RecordWritesOneEntry(n.table, h, src, n.cfg, now);
    var (t', toOrigin) := RecordReverseRoute(t, h, src, n.cfg, now);
    RespondOnlyPurges(n.self, t', toOrigin, h, src, n.cfg, now);
    PutThenPurge(n.table, p.origin, ReverseEntry(t, h, src, n.cfg, now), bad, now);
    ReverseEntryStays(n.table, h, src, n.cfg, now);
  }

  lemma PutThenPurge(t: Table, d: Address, e: Row, bad: Time, now: Time)
    requires bad >= 0 && !e.PurgeDeletes(now)
    ensures Purge(Purge(t, bad, now)[d := e], bad, now) == Purge(t, bad, now)[d := e.Purged(bad, now)]
  {
    PurgeIdempotentExactly(t, bad, now);
  }

  lemma ReverseEntryStays(t: Table, h: Rreq, src: Address, cfg: Config, now: Time)
    requires cfg.deletePeriod >= 0
    ensures !ReverseEntry(Purge(t, cfg.deletePeriod, now), h, src, cfg, now).PurgeDeletes(now)
  {
    var p := Purge(t, cfg.deletePeriod, now);
    if h.origin in p {
      PurgeLeavesNothingExpired(t, cfg.deletePeriod, now, h.origin);
    }
  }

  // ---------- the reverse route is there when it is needed ----------

  /**
   With a non-negative bad-link lifetime, whatever entry the table held before and
   however old it was, the purges and lookups after the reverse route is recorded
   leave it in place, with the sender as next hop and the incremented hop count.
   */
  lemma ReverseRouteRecorded(n: Node, p: Rreq, src: Address, now: Time)
    requires n.cfg.deletePeriod >= 0 && n.Accepts(p, src, now)
    ensures p.origin in RecvRreq(n, p, src, now).0.table
    ensures var r := RecvRreq(n, p, src, now).0.table[p.origin];
            && r.via == src
            && r.hops == (p.hopCount + 1) % TWO8
            && r.validSeqNo
            && r.amount == p.amount
            && (MinimalLifetime(n.cfg, Hopped(p).hopCount) >= 0 ==>
                  r.lifeTime >= now + MinimalLifetime(n.cfg, Hopped(p).hopCount))
            && (p.origin in n.Purged(now) ==> r.lifeTime >= n.Purged(now)[p.origin].lifeTime)
  {
    hide RecvRreq, Node.Accepts;
    AcceptedTable(n, p, src, now);
    var t := n.Purged(now);
    if p.origin in t {
      PurgeLeavesNothingExpired(n.table, n.cfg.deletePeriod, now, p.origin);
    }
  }

  /**
   The rest of the reverse route. Its lifetime is exactly the larger of the minimal
   lifetime from now and what an existing entry had; an existing entry keeps its flag and
   its mark, and a new one starts without a mark.
   */
  lemma ReverseRouteExactly(n: Node, p: Rreq, src: Address, now: Time)
    requires n.cfg.deletePeriod >= 0 && n.Accepts(p, src, now)
    ensures p.origin in RecvRreq(n, p, src, now).0.table
    ensures var r := RecvRreq(n, p, src, now).0.table[p.origin];
            var hop := (p.hopCount + 1) % 256;
            var minimal := now + 2 * n.cfg.netTraversalTime - 2 * hop * n.cfg.nodeTraversalTime;
            if p.origin in n.Purged(now) then
              var was := n.Purged(now)[p.origin];
              && r.lifeTime == (if minimal < was.lifeTime then was.lifeTime else minimal)
              && r.flag == was.flag && r.reqCount == (if was.flag == IN_SEARCH then was.reqCount else 0)
              && r.blackListed == was.blackListed && r.blackListTimeout == was.blackListTimeout
            else
              && r.reqCount == 0 && !r.blackListed && r.blackListTimeout == now && r.seqNo == p.originSeqNo
              && (minimal >= now ==> r.flag == VALID && r.lifeTime == minimal)
              && (minimal < now ==> r.flag == INVALID && r.lifeTime == now + n.cfg.deletePeriod)
  {
    hide RecvRreq, Node.Accepts;
    AcceptedTable(n, p, src, now);
    if p.origin in n.Purged(now) {
      PurgeLeavesNothingExpired(n.table, n.cfg.deletePeriod, now, p.origin);
    }
  }

  /**
   Which answer a request gets. One that is not accepted gets none; the destination
   itself replies; a node whose route to the destination leads back to the sender
   drops the request, and so does every node when the originator looks for itself,
   because the reverse route just recorded is that route; a node with a VALID route and a valid number no older than the
   request's replies unless only the destination may; any other node rebroadcasts.
   */
  lemma ResponseExactly(n: Node, p: Rreq, src: Address, now: Time)
    requires n.cfg.deletePeriod >= 0
    ensures var events, t, d := RecvRreq(n, p, src, now).1, n.Purged(now), p.dst;
            var loop := d != n.self && (d == p.origin || (d in t && t[d].via == src));
            var upToDate := d in t && t[d].validSeqNo && (p.Has(UnknownSeqno) || AtLeastAsNew(t[d].seqNo, p.dstSeqNo));
            && |events| <= 1
            && (events == [] <==> !n.Accepts(p, src, now) || loop)
            && ((events != [] && events[0].Reply?) <==> n.Accepts(p, src, now) && d == n.self)
            && ((events != [] && events[0].IntermediateReply?) <==>
                  n.Accepts(p, src, now) && d != n.self && !loop && upToDate
                  && t[d].flag == VALID && !p.Has(DestinationOnly))
            && ((events != [] && events[0].Broadcast?) <==>
                  n.Accepts(p, src, now) && d != n.self && !loop
                  && !(upToDate && t[d].flag == VALID && !p.Has(DestinationOnly)))
  {
    var bad, t, h := n.cfg.deletePeriod, n.Purged(now), Hopped(p);
    RecordWritesOneEntry(n.table, h, src, n.cfg, now);
    PurgeIdempotentExactly(n.table, bad, now);
    ReverseEntryStays(n.table, h, src, n.cfg, now);
    PutThenPurge(n.table, p.origin, ReverseEntry(t, h, src, n.cfg, now), bad, now);
    hide RecordReverseRoute, AtLeastAsNew, GetFlag;
  }

  /** A pair looked up is a duplicate from then on: for the lifetime given now, or still for that given before. */
  lemma RememberedAfterwards(cache: seq<UniqueId>, context: Address, id: uint32, now: Time, lifetime: Time)
    ensures var cache' := Remember(cache, context, id, now, lifetime);
            if Duplicate(cache, context, id, now) then Duplicate(cache', context, id, now)
            else forall t :: t >= now || t <= now + lifetime ==>
              (Duplicate(cache', context, id, t) <==> t <= now + lifetime)
  {
    var cache' := Remember(cache, context, id, now, lifetime);
    KeepMembers(cache, IsExpired(now));
    if Duplicate(cache, context, id, now) {
      KeepMembers(cache', IsExpired(now));
    } else {
      var u := UniqueId(context, id, lifetime + now);
      assert u in cache';
      forall t | t >= now || t <= now + lifetime ensures Duplicate(cache', context, id, t) <==> t <= now + lifetime {
        KeepMembers(cache', IsExpired(t));
        if t <= now + lifetime {
          assert u in Live(cache', t);
        }
      }
    }
  }

  /**
   A request that is originated: the next sequence number and request id, its own
   address, no hops yet, and its destination searched for. The originator remembers
   the pair for the path discovery time, so its own request is a duplicate to it.
   */
  lemma RequestOriginated(n: Node, dst: Address, now: Time)
    requires n.rreqCount != n.cfg.rreqRateLimit && n.cfg.deletePeriod >= 0
    ensures var (n', events) := SendRequest(n, dst, now);
            && events[0].Broadcast?
            && events[0].h.origin == n.self && events[0].h.dst == dst && events[0].h.hopCount == 0
            && events[0].h.originSeqNo == n'.seqNo && events[0].h.requestId == n'.requestId
            && Newer(n'.seqNo, n.seqNo) && n'.requestId == (n.requestId + 1) % TWO32
            && (Duplicate(n.cache, n.self, n'.requestId, now)
                || forall t :: t <= now + n.cfg.pathDiscoveryTime ==> Duplicate(n'.cache, n.self, n'.requestId, t))
            && (Duplicate(n.cache, n.self, n'.requestId, now) ==> Duplicate(n'.cache, n.self, n'.requestId, now))
            && (!Duplicate(n.cache, n.self, n'.requestId, now) ==>
                  forall t :: t > now + n.cfg.pathDiscoveryTime && t >= now ==>
                    !Duplicate(n'.cache, n.self, n'.requestId, t))
            && events == [events[0], ScheduleRetry(dst)] && n'.rreqCount == (n.rreqCount + 1) % TWO16
            && events[0].h.Has(GratuitousRrep) == n.cfg.gratuitousReply
            && events[0].h.Has(DestinationOnly) == n.cfg.destinationOnly
            && events[0].h.amount == 0 && events[0].h.reserved == 0
            && dst in n'.table && n'.table[dst].flag == IN_SEARCH
            && (dst in n.Purged(now) ==> n'.table[dst] == n.Purged(now)[dst].(flag := IN_SEARCH))
            && (dst !in n.Purged(now) ==>
                  !n'.table[dst].validSeqNo && !n'.table[dst].blackListed && n'.table[dst].lifeTime == now)
            && (forall d :: d != dst ==> (d in n'.table <==> d in n.Purged(now)))
            && (forall d :: d != dst && d in n'.table ==> n'.table[d] == n.Purged(now)[d])
  {
    hide Duplicate, Remember, Newer, SearchTable, DestinationFields, OriginatorFields, GetFlag, Purge;
    SearchChangesOne(n.table, dst, n.cfg.deletePeriod, now);
    RememberedAfterwards(n.cache, n.self, (n.requestId + 1) % TWO32, now, n.cfg.pathDiscoveryTime);
    NextIsNewer(n.seqNo);
    HeaderAsOriginated(n.Purged(now), dst, n.self, n.cfg, (n.seqNo + 1) % TWO32, (n.requestId + 1) % TWO32);
  }

  lemma NextIsNewer(x: uint32)
    ensures Newer((x + 1) % TWO32, x)
  {
    hide Newer;
    NewerExactly(x + 1, x);
  }

  /** Searching for a destination changes its entry of the purged table and no other. */
  lemma SearchChangesOne(t: Table, dst: Address, bad: Time, now: Time)
    requires bad >= 0
    ensures var p := Purge(t, bad, now);
            var s := SearchTable(p, dst, bad, now);
            && dst in s && s[dst].flag == IN_SEARCH
            && (dst in p ==> s[dst] == p[dst].(flag := IN_SEARCH))
            && (dst !in p ==> !s[dst].validSeqNo && !s[dst].blackListed && s[dst].lifeTime == now)
            && forall d :: d != dst ==> (d in s <==> d in p) && (d in s ==> s[d] == p[d])
  {
    PurgeIdempotentExactly(t, bad, now);
  }

  lemma HeaderAsOriginated(t: Table, dst: Address, self: Address, cfg: Config, seqNo: uint32, requestId: uint32)
    ensures var h := OriginatorFields(DestinationFields(t, dst), self, cfg, seqNo, requestId);
            && h.origin == self && h.dst == dst && h.hopCount == 0
            && h.originSeqNo == seqNo && h.requestId == requestId
            && h.Has(GratuitousRrep) == cfg.gratuitousReply && h.Has(DestinationOnly) == cfg.destinationOnly
            && h.amount == 0 && h.reserved == 0
  {
    var h0 := DestinationFields(t, dst);
    var g := if cfg.gratuitousReply then h0.With(GratuitousRrep, true) else h0;
    SetThenGet(0, UnknownSeqno, true, GratuitousRrep);
    SetThenGet(h0.flags, GratuitousRrep, true, GratuitousRrep);
    SetThenGet(g.flags, DestinationOnly, true, GratuitousRrep);
    SetThenGet(0, UnknownSeqno, true, DestinationOnly);
    SetThenGet(h0.flags, GratuitousRrep, true, DestinationOnly);
    SetThenGet(g.flags, DestinationOnly, true, DestinationOnly);
  }

  /** At the rate limit nothing is sent and nothing changes, and the request is put off. */
  lemma RequestDeferred(n: Node, dst: Address, now: Time)
    ensures n.rreqCount == n.cfg.rreqRateLimit <==> SendRequest(n, dst, now) == (n, [Deferred(dst)])
  {
    hide DestinationFields, OriginatorFields, SearchTable;
  }

  /** The sender is ignored exactly if the purge leaves an entry for it, and that is marked. */
  lemma IgnoresExactly(n: Node, src: Address, now: Time)
    ensures n.Ignores(src, now) <==>
              && src in n.table && n.table[src].blackListed
              && !(n.table[src].flag == INVALID && n.table[src].lifeTime < now)
  {
    PurgeExactly(n.table, n.cfg.deletePeriod, now, src);
  }

  /** A request from an ignored sender changes no more than a purge; a duplicate also purges the cache. */
  lemma RejectedOnlyPurges(n: Node, p: Rreq, src: Address, now: Time)
    requires !n.Accepts(p, src, now)
    ensures RecvRreq(n, p, src, now).1 == []
    ensures RecvRreq(n, p, src, now).0
         == n.(table := n.Purged(now), cache := if n.Ignores(src, now) then n.cache else Live(n.cache, now))
  {
    hide RecordReverseRoute, Respond;
  }

  /** What each branch of the answer puts into it. */
  lemma RespondContents(self: Address, t: Table, toOrigin: Row, h: Rreq, src: Address, cfg: Config, now: Time, e: Event)
    requires e in Respond(self, t, toOrigin, h, src, cfg, now).1
    ensures e.Reply? || e.Broadcast? || e.IntermediateReply?
    ensures e.Reply? ==> e.h == h
    ensures e.IntermediateReply? ==> e.gratuitous == h.Has(GratuitousRrep)
    ensures e.Broadcast? ==> e.h == h || exists x :: e.h == h.(dstSeqNo := x).With(UnknownSeqno, false)
  {
    hide AtLeastAsNew, GetFlag, Purge, SetFlag;
  }

  /**
   What is in an answer. A destination replies to the request one hop on; an intermediate
   reply asks for a gratuitous one if and only if the request does; a request sent on keeps
   everything but its hop count and the destination number with its flag.
   */
  lemma AnswerContents(n: Node, p: Rreq, src: Address, now: Time, e: Event)
    requires e in RecvRreq(n, p, src, now).1
    ensures e.Reply? || e.Broadcast? || e.IntermediateReply?
    ensures e.Reply? ==> e.h == p.(hopCount := (p.hopCount + 1) % 256)
    ensures e.IntermediateReply? ==> e.gratuitous == p.Has(GratuitousRrep)
    ensures e.Broadcast? ==>
              && e.h.hopCount == (p.hopCount + 1) % 256
              && e.h.origin == p.origin && e.h.originSeqNo == p.originSeqNo && e.h.requestId == p.requestId
              && e.h.dst == p.dst && e.h.amount == p.amount && e.h.reserved == p.reserved
              && e.h.Has(GratuitousRrep) == p.Has(GratuitousRrep)
              && e.h.Has(DestinationOnly) == p.Has(DestinationOnly)
  {
    hide Respond, RecordReverseRoute, GetFlag, SetFlag, Node.Ignores, Duplicate;
    var (t, toOrigin) := RecordReverseRoute(n.Purged(now), Hopped(p), src, n.cfg, now);
    if n.Accepts(p, src, now) {
      RespondContents(n.self, t, toOrigin, Hopped(p), src, n.cfg, now, e);
    }
    SetThenGet(p.flags, UnknownSeqno, false, GratuitousRrep);
    SetThenGet(p.flags, UnknownSeqno, false, DestinationOnly);
  }

  /** The lookup of the originator before a reply finds that entry, so replies go to the sender. */
  lemma RepliesUseReverseRoute(n: Node, p: Rreq, src: Address, now: Time, e: Event)
    requires n.cfg.deletePeriod >= 0 && n.Accepts(p, src, now)
    requires e in RecvRreq(n, p, src, now).1 && (e.Reply? || e.IntermediateReply?)
    ensures p.origin in RecvRreq(n, p, src, now).0.table
    ensures e.toOrigin == RecvRreq(n, p, src, now).0.table[p.origin]
    ensures e.toOrigin.via == src && e.toOrigin.hops == (p.hopCount + 1) % TWO8
  {
    ReverseRouteRecorded(n, p, src, now);
  }

  /**
   The reverse route can carry traffic only if it is VALID, and the code never
   makes an existing entry VALID: it is afterwards exactly when the purged table
   had a VALID entry, or none while the hop count leaves a lifetime to live.
   */
  lemma ReverseRouteValidExactly(n: Node, p: Rreq, src: Address, now: Time)
    requires n.cfg.deletePeriod >= 0 && n.Accepts(p, src, now)
    ensures p.origin in RecvRreq(n, p, src, now).0.table
    ensures RecvRreq(n, p, src, now).0.table[p.origin].flag == VALID <==>
              if p.origin in n.Purged(now) then n.Purged(now)[p.origin].flag == VALID
              else MinimalLifetime(n.cfg, Hopped(p).hopCount) >= 0
  {
    hide RecvRreq, Node.Accepts;
    AcceptedTable(n, p, src, now);
    if p.origin in n.Purged(now) {
      PurgeLeavesNothingExpired(n.table, n.cfg.deletePeriod, now, p.origin);
    }
  }
}
