/**
 Route requests in a network of nodes. Each broadcast puts copies of the request
 in flight, one for every node that happens to hear it; copies are delivered in
 any order, at any time, are lost, or are duplicated. Between deliveries nodes
 originate requests of their own, and anything else that runs on a node may
 rewrite its routing table.
 */
module Flood {
  import opened Types
  import opened Vectors
  import opened IdCaches
  import opened Tables
  import opened Packets
  import opened Nodes

  // ---------- the network ----------

  /** A flood is identified by its originator and request id. */
  type FloodId = (Address, uint32)

  function FloodOf(h: Rreq): FloodId {
    (h.origin, h.requestId)
  }

  datatype Copy = Copy(h: Rreq, sender: Address, receiver: Address)

  /**
   What a node's table says about the originator right after it accepted a request
   of the flood, how many hops the copy it accepted had really made, and when.
   */
  datatype Acceptance = Acceptance(nextHop: Address, hops: uint16, depth: nat, at: Time)

  /** The acceptances of one flood. */
  type Acceptances = map<Address, Acceptance>

  /**
   `started` and `accepted` record the history of every flood. A flood is `stale`
   once one of its copies is delivered later than `lifetime` after its start, or
   once its request id is used again.
   */
  datatype Net = Net(
    now: Time,
    lifetime: Time,
    nodes: map<Address, Node>,
    inFlight: map<FloodId, multiset<Copy>>,
    started: map<FloodId, Time>,
    accepted: map<FloodId, Acceptances>,
    stale: set<FloodId>)
  {
    function Copies(f: FloodId): multiset<Copy> {
      if f in inFlight then inFlight[f] else multiset{}
    }

    function AcceptancesOf(f: FloodId): Acceptances {
      if f in accepted then accepted[f] else map[]
    }
  }

  datatype Step =
    | Wait(duration: nat)
    | Originate(n: Address, dst: Address, hearers: set<Address>)
    | Deliver(c: Copy, hearers: set<Address>)
    | Lose(c: Copy)
    | Duplicate(c: Copy)
    | Interfere(n: Address, table: Table, rreqCount: uint16)

  predicate Enabled(s: Net, step: Step) {
    match step
    case Wait(_) => true
    case Originate(n, _, hearers) => n in s.nodes && hearers <= s.nodes.Keys
    case Deliver(c, hearers) => c in s.Copies(FloodOf(c.h)) && c.receiver in s.nodes && hearers <= s.nodes.Keys
    case Lose(c) => c in s.Copies(FloodOf(c.h))
    case Duplicate(c) => c in s.Copies(FloodOf(c.h))
    case Interfere(n, _, _) => n in s.nodes
  }

  /** One copy for every node that hears the broadcast. */
  function Fanout(h: Rreq, sender: Address, hearers: set<Address>): set<Copy> {
    set r | r in hearers :: Copy(h, sender, r)
  }

  /** The copies that a node's events put in flight. */
  function Sent(events: seq<Event>, sender: Address, hearers: set<Address>): multiset<Copy> {
    if events != [] && events[0].Broadcast? then multiset(Fanout(events[0].h, sender, hearers)) else multiset{}
  }

  /** The hops a copy sent by `m` has made when it leaves `m`. */
  function DepthOf(acc: Acceptances, origin: Address, m: Address): nat {
    if m != origin && m in acc then acc[m].depth else 0
  }

  /** The acceptance, read from the table the receiver is left with. */
  function RecordOf(n: Node, c: Copy, acc: Acceptances, now: Time): Acceptance {
    var row := Found(RecvRreq(n, c.h, c.sender, now).0.table, c.h.origin, DefaultRow(now));
    Acceptance(row.via, row.hops, DepthOf(acc, c.h.origin, c.sender) + 1, now)
  }

  function Originated(s: Net, n: Address, dst: Address, hearers: set<Address>): Net
    requires n in s.nodes
  {
    var (node, events) := SendRequest(s.nodes[n], dst, s.now);
    var s' := s.(nodes := s.nodes[n := node]);
    if events[0].Deferred? then s'
    else
      var f := FloodOf(events[0].h);
      s'.(inFlight := s.inFlight[f := s.Copies(f) + Sent(events, n, hearers)],
          started := s.started[f := s.now],
          accepted := s.accepted[f := s.AcceptancesOf(f)],
          stale := if f in s.started then s.stale + {f} else s.stale)
  }

  function Delivered(s: Net, c: Copy, hearers: set<Address>): Net
    requires c.receiver in s.nodes
  {
    var f, m := FloodOf(c.h), c.receiver;
    var (node, events) := RecvRreq(s.nodes[m], c.h, c.sender, s.now);
    var acc := s.AcceptancesOf(f);
    s.(nodes := s.nodes[m := node],
       inFlight := s.inFlight[f := s.Copies(f) - multiset{c} + Sent(events, m, hearers)],
       accepted := s.accepted[f := if s.nodes[m].Accepts(c.h, c.sender, s.now)
                                      then acc[m := RecordOf(s.nodes[m], c, acc, s.now)] else acc],
       stale := if f in s.started && s.now <= s.started[f] + s.lifetime then s.stale else s.stale + {f})
  }

  function Apply(s: Net, step: Step): Net
    requires Enabled(s, step)
  {
    match step
    case Wait(d) => s.(now := s.now + d)
    case Originate(n, dst, hearers) => Originated(s, n, dst, hearers)
    case Deliver(c, hearers) => Delivered(s, c, hearers)
    case Lose(c) => s.(inFlight := s.inFlight[FloodOf(c.h) := s.Copies(FloodOf(c.h)) - multiset{c}])
    case Duplicate(c) => s.(inFlight := s.inFlight[FloodOf(c.h) := s.Copies(FloodOf(c.h)) + multiset{c}])
    case Interfere(n, table, count) => s.(nodes := s.nodes[n := s.nodes[n].(table := table, rreqCount := count)])
  }

  /** A network at rest: any tables, nothing remembered, nothing in flight. */
  ghost predicate Initial(s: Net) {
    && s.inFlight == map[] && s.started == map[] && s.accepted == map[] && s.stale == {}
    && forall n :: n in s.nodes ==>
         && s.nodes[n].self == n && s.nodes[n].cache == []
         && s.nodes[n].cfg.deletePeriod >= 0 && s.lifetime <= s.nodes[n].cfg.pathDiscoveryTime
  }

  // ---------- what one node does to a flood ----------

  lemma ReceiveEvents(n: Node, p: Rreq, src: Address, now: Time)
    ensures var (n', events) := RecvRreq(n, p, src, now);
            && n'.self == n.self && n'.cfg == n.cfg
            && n'.cache == (if n.Ignores(src, now) then n.cache
                            else Remember(n.cache, p.origin, p.requestId, now, n.cfg.pathDiscoveryTime))
            && (events != [] ==> n.Accepts(p, src, now))
            && (events != [] && events[0].Broadcast? ==>
                  FloodOf(events[0].h) == FloodOf(p) && events[0].h.hopCount == (p.hopCount + 1) % TWO8
                  && events[0].h.originSeqNo == p.originSeqNo)
  {
  }

  lemma RequestEvents(n: Node, dst: Address, now: Time)
    ensures var (n', events) := SendRequest(n, dst, now);
            && n'.self == n.self && n'.cfg == n.cfg && events != []
            && (events[0].Deferred? ==> n' == n)
            && (!events[0].Deferred? ==>
                  && events[0].Broadcast?
                  && FloodOf(events[0].h) == (n.self, n'.requestId) && events[0].h.hopCount == 0
                  && events[0].h.originSeqNo == n'.seqNo == (n.seqNo + 1) % TWO32
                  && n'.cache == Remember(n.cache, n.self, n'.requestId, now, n.cfg.pathDiscoveryTime))
  {
  }

  // ---------- the invariant ----------

  /** Some record of the flood in the cache is good until `until`. */
  ghost predicate Remembers(cache: seq<UniqueId>, f: FloodId, until: Time) {
    exists u :: u in cache && u.context == f.0 && u.id == f.1 && u.expire >= until
  }

  /** An acceptance is one hop deeper than that of its next hop, and no deeper than there are acceptances. */
  ghost predicate BelowNextHop(acc: Acceptances, origin: Address, a: Acceptance) {
    && (a.nextHop == origin || a.nextHop in acc)
    && a.depth == DepthOf(acc, origin, a.nextHop) + 1
    && a.depth <= |acc|
    && a.hops == a.depth % TWO8
  }

  ghost predicate TreeShaped(acc: Acceptances, origin: Address) {
    && origin !in acc
    && forall m :: m in acc ==> BelowNextHop(acc, origin, acc[m])
  }

  /** A copy comes from the originator or an accepting node and carries that node's hop count. */
  ghost predicate CopyFits(c: Copy, acc: Acceptances, f: FloodId) {
    && (c.sender == f.0 || c.sender in acc)
    && c.h.hopCount == DepthOf(acc, f.0, c.sender) % TWO8
  }

  ghost predicate CopiesFit(copies: multiset<Copy>, acc: Acceptances, f: FloodId) {
    forall c :: c in copies ==> CopyFits(c, acc, f)
  }

  /** The originator and every accepting node remember the flood for its lifetime. */
  ghost predicate AllRemember(nodes: map<Address, Node>, acc: Acceptances, f: FloodId, until: Time) {
    forall m :: m in nodes && (m == f.0 || m in acc) ==> Remembers(nodes[m].cache, f, until)
  }

  /** The state of a flood that has not gone stale. */
  ghost predicate FloodOk(nodes: map<Address, Node>, acc: Acceptances, copies: multiset<Copy>,
                          f: FloodId, now: Time, until: Time)
  {
    && f.0 in nodes
    && acc.Keys <= nodes.Keys
    && TreeShaped(acc, f.0)
    && CopiesFit(copies, acc, f)
    && (now <= until ==> AllRemember(nodes, acc, f, until))
  }

  ghost predicate FloodInv(s: Net, f: FloodId)
    requires f in s.started
  {
    FloodOk(s.nodes, s.AcceptancesOf(f), s.Copies(f), f, s.now, s.started[f] + s.lifetime)
  }

  /** A node remembers only floods that were started. */
  ghost predicate NodeInv(a: Address, n: Node, lifetime: Time, started: set<FloodId>) {
    && n.self == a
    && n.cfg.deletePeriod >= 0
    && lifetime <= n.cfg.pathDiscoveryTime
    && forall u :: u in n.cache ==> (u.context, u.id) in started
  }

  ghost predicate NodesInv(s: Net) {
    forall a :: a in s.nodes ==> NodeInv(a, s.nodes[a], s.lifetime, s.started.Keys)
  }

  ghost predicate Filed(copies: multiset<Copy>, f: FloodId, started: set<FloodId>) {
    forall c :: c in copies ==> FloodOf(c.h) == f && f in started
  }

  /** Copies belong to the flood they are filed under, and only started floods have any. */
  ghost predicate CopiesInv(s: Net) {
    && (forall f :: Filed(s.Copies(f), f, s.started.Keys))
    && (forall f :: f in s.started ==> s.started[f] <= s.now)
    && (forall f :: f in s.accepted ==> f in s.started)
  }

  ghost predicate Inv(s: Net) {
    && NodesInv(s)
    && CopiesInv(s)
    && forall f :: f in s.started && f !in s.stale ==> FloodInv(s, f)
  }

  // ---------- caches ----------

  lemma RememberFrom(cache: seq<UniqueId>, context: Address, id: uint32, now: Time, lifetime: Time, u: UniqueId)
    requires u in Remember(cache, context, id, now, lifetime)
    ensures u in cache || (u.context == context && u.id == id)
  {
    KeepMembers(cache, IdCaches.IsExpired(now));
  }

  /** Looking up one pair does not make the cache forget another that is still in force. */
  lemma StillRemembers(cache: seq<UniqueId>, context: Address, id: uint32, now: Time, lifetime: Time,
                       f: FloodId, until: Time)
    requires Remembers(cache, f, until) && now <= until
    ensures Remembers(Remember(cache, context, id, now, lifetime), f, until)
  {
    KeepMembers(cache, IdCaches.IsExpired(now));
    var u :| u in cache && u.context == f.0 && u.id == f.1 && u.expire >= until;
    assert u in Remember(cache, context, id, now, lifetime);
  }

  lemma RememberedIsDuplicate(cache: seq<UniqueId>, f: FloodId, until: Time, now: Time)
    requires Remembers(cache, f, until) && now <= until
    ensures IdCaches.Duplicate(cache, f.0, f.1, now)
  {
    KeepMembers(cache, IdCaches.IsExpired(now));
    var u :| u in cache && u.context == f.0 && u.id == f.1 && u.expire >= until;
    assert u in Live(cache, now);
  }

  lemma NewlyRemembered(cache: seq<UniqueId>, f: FloodId, now: Time, lifetime: Time)
    requires !IdCaches.Duplicate(cache, f.0, f.1, now)
    ensures Remembers(Remember(cache, f.0, f.1, now, lifetime), f, now + lifetime)
  {
    assert UniqueId(f.0, f.1, lifetime + now) in Remember(cache, f.0, f.1, now, lifetime);
  }

  lemma UnknownIsNotDuplicate(cache: seq<UniqueId>, f: FloodId, now: Time)
    requires forall u :: u in cache ==> (u.context, u.id) != f
    ensures !IdCaches.Duplicate(cache, f.0, f.1, now)
  {
    KeepMembers(cache, IdCaches.IsExpired(now));
  }

  // ---------- every step keeps the invariant ----------

  lemma SentFits(events: seq<Event>, sender: Address, hearers: set<Address>, c: Copy)
    requires c in Sent(events, sender, hearers)
    ensures events != [] && events[0].Broadcast? && c.h == events[0].h && c.sender == sender && c.receiver in hearers
  {
  }

  lemma NodeInvGrows(a: Address, n: Node, lifetime: Time, started: set<FloodId>, started': set<FloodId>)
    requires NodeInv(a, n, lifetime, started) && started <= started'
    ensures NodeInv(a, n, lifetime, started')
  {
  }

  lemma RequestKeepsNode(a: Address, n: Node, dst: Address, now: Time, lifetime: Time, started: set<FloodId>)
    requires NodeInv(a, n, lifetime, started)
    ensures var (n', events) := SendRequest(n, dst, now);
            && events != [] && (events[0].Deferred? ==> n' == n)
            && (!events[0].Deferred? ==>
                  events[0].Broadcast? && NodeInv(a, n', lifetime, started + {FloodOf(events[0].h)}))
  {
    hide SendRequest, Remember;
    RequestEvents(n, dst, now);
    var (n', events) := SendRequest(n, dst, now);
    if !events[0].Deferred? {
      forall u | u in n'.cache ensures (u.context, u.id) in started + {FloodOf(events[0].h)} {
        RememberFrom(n.cache, n.self, n'.requestId, now, n.cfg.pathDiscoveryTime, u);
      }
    }
  }

  lemma ReceiveKeepsNode(a: Address, n: Node, p: Rreq, src: Address, now: Time, lifetime: Time, started: set<FloodId>)
    requires NodeInv(a, n, lifetime, started) && FloodOf(p) in started
    ensures NodeInv(a, RecvRreq(n, p, src, now).0, lifetime, started)
  {
    hide RecvRreq, Remember;
    ReceiveEvents(n, p, src, now);
    var n' := RecvRreq(n, p, src, now).0;
    forall u | u in n'.cache ensures (u.context, u.id) in started {
      if u !in n.cache {
        RememberFrom(n.cache, p.origin, p.requestId, now, n.cfg.pathDiscoveryTime, u);
      }
    }
  }

  /** If one node is in order after the step, and the others are untouched, all are. */
  lemma NodesReplaced(s: Net, s': Net, m: Address, n: Node)
    requires NodesInv(s) && m in s.nodes
    requires s'.nodes == s.nodes[m := n] && s'.lifetime == s.lifetime && s.started.Keys <= s'.started.Keys
    requires NodeInv(m, n, s.lifetime, s'.started.Keys)
    ensures NodesInv(s') && s'.nodes.Keys == s.nodes.Keys
  {
    hide NodeInv;
    forall a | a in s'.nodes ensures NodeInv(a, s'.nodes[a], s'.lifetime, s'.started.Keys) {
      if a != m {
        NodeInvGrows(a, s.nodes[a], s.lifetime, s.started.Keys, s'.started.Keys);
      }
    }
  }

  lemma OriginationKeepsNodes(s: Net, n: Address, dst: Address, hearers: set<Address>)
    requires NodesInv(s) && n in s.nodes
    ensures NodesInv(Originated(s, n, dst, hearers)) && Originated(s, n, dst, hearers).nodes.Keys == s.nodes.Keys
  {
    hide SendRequest, NodeInv, Sent;
    var s' := Originated(s, n, dst, hearers);
    var (node, events) := SendRequest(s.nodes[n], dst, s.now);
    RequestKeepsNode(n, s.nodes[n], dst, s.now, s.lifetime, s.started.Keys);
    if !events[0].Deferred? {
      assert s'.started.Keys == s.started.Keys + {FloodOf(events[0].h)};
    }
    NodesReplaced(s, s', n, node);
  }

  lemma DeliveryKeepsNodes(s: Net, c: Copy, hearers: set<Address>)
    requires NodesInv(s) && CopiesInv(s) && Enabled(s, Deliver(c, hearers))
    ensures NodesInv(Delivered(s, c, hearers)) && Delivered(s, c, hearers).nodes.Keys == s.nodes.Keys
  {
    hide RecvRreq, NodeInv, Sent;
    assert Filed(s.Copies(FloodOf(c.h)), FloodOf(c.h), s.started.Keys);
    ReceiveKeepsNode(c.receiver, s.nodes[c.receiver], c.h, c.sender, s.now, s.lifetime, s.started.Keys);
    NodesReplaced(s, Delivered(s, c, hearers), c.receiver, RecvRreq(s.nodes[c.receiver], c.h, c.sender, s.now).0);
  }

  lemma NodesKept(s: Net, step: Step)
    requires Inv(s) && Enabled(s, step)
    ensures NodesInv(Apply(s, step)) && Apply(s, step).nodes.Keys == s.nodes.Keys
  {
    hide CopiesInv, FloodInv, Originated, Delivered;
    match step {
      case Originate(n, dst, hearers) => OriginationKeepsNodes(s, n, dst, hearers);
      case Deliver(c, hearers) => DeliveryKeepsNodes(s, c, hearers);
      case Interfere(n, table, count) =>
        NodesReplaced(s, Apply(s, step), n, s.nodes[n].(table := table, rreqCount := count));
      case _ =>
    }
  }

  /** Replacing the copies of one flood, all of them its own, keeps every copy with its flood. */
  lemma CopiesReplaced(s: Net, s': Net, f: FloodId, copies: multiset<Copy>)
    requires CopiesInv(s)
    requires s'.inFlight == s.inFlight[f := copies]
    requires s.now <= s'.now
    requires s.accepted.Keys <= s'.accepted.Keys <= s'.started.Keys && s.started.Keys <= s'.started.Keys
    requires forall g :: g in s'.started ==> s'.started[g] <= s'.now
    requires forall c :: c in copies ==> FloodOf(c.h) == f && f in s'.started
    ensures CopiesInv(s')
  {
    forall g ensures Filed(s'.Copies(g), g, s'.started.Keys) {
      assert Filed(s.Copies(g), g, s.started.Keys);
      assert s'.Copies(g) == if g == f then copies else s.Copies(g);
    }
  }

  lemma OriginationKeepsCopies(s: Net, n: Address, dst: Address, hearers: set<Address>)
    requires NodesInv(s) && CopiesInv(s) && Enabled(s, Originate(n, dst, hearers))
    ensures CopiesInv(Originated(s, n, dst, hearers))
  {
    hide SendRequest, Sent;
    var events := SendRequest(s.nodes[n], dst, s.now).1;
    RequestEvents(s.nodes[n], dst, s.now);
    var s' := Originated(s, n, dst, hearers);
    if events[0].Deferred? {
      assert s'.inFlight == s.inFlight && s'.started == s.started && s'.accepted == s.accepted;
      forall g ensures Filed(s'.Copies(g), g, s'.started.Keys) {
        assert Filed(s.Copies(g), g, s.started.Keys);
        assert s'.Copies(g) == s.Copies(g);
      }
    } else {
      var f := FloodOf(events[0].h);
      assert Filed(s.Copies(f), f, s.started.Keys);
      forall c | c in s'.Copies(f) ensures FloodOf(c.h) == f {
        if c !in s.Copies(f) {
          SentFits(events, n, hearers, c);
        }
      }
      CopiesReplaced(s, s', f, s'.Copies(f));
    }
  }

  lemma DeliveryKeepsCopies(s: Net, d: Copy, hearers: set<Address>)
    requires CopiesInv(s) && Enabled(s, Deliver(d, hearers))
    ensures CopiesInv(Delivered(s, d, hearers))
  {
    hide RecvRreq, Sent, Node.Accepts;
    var events := RecvRreq(s.nodes[d.receiver], d.h, d.sender, s.now).1;
    ReceiveEvents(s.nodes[d.receiver], d.h, d.sender, s.now);
    var s' := Delivered(s, d, hearers);
    var f := FloodOf(d.h);
    assert Filed(s.Copies(f), f, s.started.Keys);
    forall c | c in s'.Copies(f) ensures FloodOf(c.h) == f {
      if c !in s.Copies(f) {
        SentFits(events, d.receiver, hearers, c);
      }
    }
    CopiesReplaced(s, s', f, s'.Copies(f));
  }

  lemma QuietStepKeepsCopies(s: Net, step: Step)
    requires CopiesInv(s) && Enabled(s, step) && !step.Originate? && !step.Deliver?
    ensures CopiesInv(Apply(s, step))
  {
    var s' := Apply(s, step);
    forall g ensures Filed(s'.Copies(g), g, s'.started.Keys) {
      assert Filed(s.Copies(g), g, s.started.Keys);
      QuietStepCopies(s, step, g);
    }
  }

  lemma CopiesKept(s: Net, step: Step)
    requires Inv(s) && Enabled(s, step)
    ensures CopiesInv(Apply(s, step))
  {
    hide CopiesInv, NodesInv, FloodInv, Originated, Delivered;
    match step {
      case Originate(n, dst, hearers) => OriginationKeepsCopies(s, n, dst, hearers);
      case Deliver(d, hearers) => DeliveryKeepsCopies(s, d, hearers);
      case _ => QuietStepKeepsCopies(s, step);
    }
  }

  /** Adding the acceptance of a new node keeps the tree, and all depths already recorded. */
  lemma TreeGrows(acc: Acceptances, origin: Address, m: Address, a: Acceptance)
    requires TreeShaped(acc, origin) && m != origin && m !in acc
    requires a.nextHop == origin || a.nextHop in acc
    requires a.depth == DepthOf(acc, origin, a.nextHop) + 1 && a.hops == a.depth % TWO8
    ensures TreeShaped(acc[m := a], origin)
  {
    var acc' := acc[m := a];
    assert acc'.Keys == acc.Keys + {m};
    assert |acc'| == |acc| + 1;
    assert DepthOf(acc, origin, a.nextHop) <= |acc| by {
      if a.nextHop in acc {
        assert BelowNextHop(acc, origin, acc[a.nextHop]);
      }
    }
    forall x | x in acc' ensures BelowNextHop(acc', origin, acc'[x]) {
      if x in acc {
        assert BelowNextHop(acc, origin, acc[x]);
      }
    }
  }

  /** Copies already in flight still fit after a new node has accepted. */
  lemma CopiesStillFit(copies: multiset<Copy>, acc: Acceptances, f: FloodId, m: Address, a: Acceptance)
    requires CopiesFit(copies, acc, f) && m != f.0 && m !in acc
    ensures CopiesFit(copies, acc[m := a], f)
  {
    forall c | c in copies ensures CopyFits(c, acc[m := a], f) {
      assert CopyFits(c, acc, f);
    }
  }

  /** What remains of the copies, and what the node sends, fit when both do. */
  lemma CopiesFitTogether(copies: multiset<Copy>, c: Copy, events: seq<Event>, m: Address, hearers: set<Address>,
                          acc: Acceptances, f: FloodId)
    requires CopiesFit(copies, acc, f)
    requires events != [] && events[0].Broadcast? ==>
               (m == f.0 || m in acc) && events[0].h.hopCount == DepthOf(acc, f.0, m) % TWO8
    ensures CopiesFit(copies - multiset{c} + Sent(events, m, hearers), acc, f)
  {
    hide Sent;
    forall d | d in copies - multiset{c} + Sent(events, m, hearers) ensures CopyFits(d, acc, f) {
      if d !in copies {
        SentFits(events, m, hearers, d);
      }
    }
  }

  lemma DepthWraps(d: nat)
    ensures (d % TWO8 + 1) % TWO8 == (d + 1) % TWO8
  {
  }

  /** A node that remembers the flood does not accept it again. */
  lemma AcceptsOnlyNew(n: Node, c: Copy, now: Time, until: Time)
    requires n.Accepts(c.h, c.sender, now) && now <= until
    ensures !Remembers(n.cache, FloodOf(c.h), until)
  {
    if Remembers(n.cache, FloodOf(c.h), until) {
      RememberedIsDuplicate(n.cache, FloodOf(c.h), until, now);
    }
  }

  /** What the receiver remembers after a delivery. */
  lemma CacheAfterDelivery(n: Node, c: Copy, now: Time, g: FloodId, until: Time)
    requires now <= until
    ensures var cache' := RecvRreq(n, c.h, c.sender, now).0.cache;
            && (Remembers(n.cache, g, until) ==> Remembers(cache', g, until))
            && (n.Accepts(c.h, c.sender, now) && until <= now + n.cfg.pathDiscoveryTime ==>
                  Remembers(cache', FloodOf(c.h), until))
  {
    hide RecvRreq, Remember;
    ReceiveEvents(n, c.h, c.sender, now);
    if Remembers(n.cache, g, until) {
      StillRemembers(n.cache, c.h.origin, c.h.requestId, now, n.cfg.pathDiscoveryTime, g, until);
    }
    if n.Accepts(c.h, c.sender, now) {
      NewlyRemembered(n.cache, FloodOf(c.h), now, n.cfg.pathDiscoveryTime);
    }
  }

  lemma RecordIsOneHopOn(n: Node, c: Copy, acc: Acceptances, now: Time)
    requires n.cfg.deletePeriod >= 0 && n.Accepts(c.h, c.sender, now)
    requires CopyFits(c, acc, FloodOf(c.h))
    ensures var a := RecordOf(n, c, acc, now);
            && a.nextHop == c.sender
            && a.depth == DepthOf(acc, c.h.origin, c.sender) + 1
            && a.hops == a.depth % TWO8 == (c.h.hopCount + 1) % TWO8 && a.at == now
  {
    hide RecvRreq, Node.Accepts;
    ReverseRouteRecorded(n, c.h, c.sender, now);
    DepthWraps(DepthOf(acc, c.h.origin, c.sender));
  }

  /** Delivering a copy of a flood that is not stale, in terms of that flood alone. */
  lemma DeliveryKeepsFloodOk(nodes: map<Address, Node>, acc: Acceptances, copies: multiset<Copy>,
                             c: Copy, hearers: set<Address>, now: Time, until: Time)
    requires FloodOk(nodes, acc, copies, FloodOf(c.h), now, until) && now <= until && c in copies
    requires c.receiver in nodes && nodes[c.receiver].cfg.deletePeriod >= 0
    requires until <= now + nodes[c.receiver].cfg.pathDiscoveryTime
    ensures var n := nodes[c.receiver];
            var (n', events) := RecvRreq(n, c.h, c.sender, now);
            FloodOk(nodes[c.receiver := n'],
                    if n.Accepts(c.h, c.sender, now) then acc[c.receiver := RecordOf(n, c, acc, now)] else acc,
                    copies - multiset{c} + Sent(events, c.receiver, hearers), FloodOf(c.h), now, until)
  {
    hide RecvRreq, Sent, Remembers, Node.Accepts, TreeShaped, CopiesFit, RecordOf, DepthOf;
    var f, m, n := FloodOf(c.h), c.receiver, nodes[c.receiver];
    var (n', events) := RecvRreq(n, c.h, c.sender, now);
    ReceiveEvents(n, c.h, c.sender, now);
    CacheAfterDelivery(n, c, now, f, until);
    assert CopyFits(c, acc, f) by { CopyOfFlood(copies, c, acc, f); }
    if n.Accepts(c.h, c.sender, now) {
      AcceptsOnlyNew(n, c, now, until);
      var a := RecordOf(n, c, acc, now);
      RecordIsOneHopOn(n, c, acc, now);
      TreeGrows(acc, f.0, m, a);
      CopiesStillFit(copies, acc, f, m, a);
      DepthOfNew(acc, f.0, m, a);
      CopiesFitTogether(copies, c, events, m, hearers, acc[m := a], f);
    } else {
      CopiesFitTogether(copies, c, events, m, hearers, acc, f);
    }
  }

  lemma CopyOfFlood(copies: multiset<Copy>, c: Copy, acc: Acceptances, f: FloodId)
    requires CopiesFit(copies, acc, f) && c in copies
    ensures CopyFits(c, acc, f)
  {
  }

  lemma DepthOfNew(acc: Acceptances, origin: Address, m: Address, a: Acceptance)
    requires m != origin
    ensures DepthOf(acc[m := a], origin, m) == a.depth
  {
  }

  /** Other floods only see the receiver's cache change. */
  lemma DeliveryKeepsOthers(nodes: map<Address, Node>, acc: Acceptances, copies: multiset<Copy>,
                            c: Copy, now: Time, g: FloodId, until: Time)
    requires FloodOk(nodes, acc, copies, g, now, until) && c.receiver in nodes
    ensures FloodOk(nodes[c.receiver := RecvRreq(nodes[c.receiver], c.h, c.sender, now).0], acc, copies, g, now, until)
  {
    hide RecvRreq, Remembers, TreeShaped, CopiesFit;
    if now <= until {
      CacheAfterDelivery(nodes[c.receiver], c, now, g, until);
    }
  }

  lemma DeliveryKeepsInv(s: Net, c: Copy, hearers: set<Address>, g: FloodId)
    requires Inv(s) && Enabled(s, Deliver(c, hearers))
    requires g in s.started && g !in Delivered(s, c, hearers).stale
    ensures FloodInv(Delivered(s, c, hearers), g)
  {
    if g == FloodOf(c.h) {
      DeliveryKeepsOwnFlood(s, c, hearers);
    } else {
      DeliveryKeepsOtherFlood(s, c, hearers, g);
    }
  }

  lemma DeliveryKeepsOwnFlood(s: Net, c: Copy, hearers: set<Address>)
    requires Inv(s) && Enabled(s, Deliver(c, hearers))
    requires FloodOf(c.h) in s.started && FloodOf(c.h) !in Delivered(s, c, hearers).stale
    ensures FloodOf(c.h) in Delivered(s, c, hearers).started && FloodInv(Delivered(s, c, hearers), FloodOf(c.h))
  {
    hide RecvRreq, Sent, FloodOk, Node.Accepts, CopiesInv, NodesInv, RecordOf, Delivered, Net.Copies, Net.AcceptancesOf;
    var g := FloodOf(c.h);
    RecordOfDelivery(s, c, hearers);
    FloodInOrder(s, g);
    StartedBefore(s, g);
    ConfigOf(s, c.receiver);
    DeliveryKeepsFloodOk(s.nodes, s.AcceptancesOf(g), s.Copies(g), c, hearers, s.now, s.started[g] + s.lifetime);
  }

  lemma DeliveryKeepsOtherFlood(s: Net, c: Copy, hearers: set<Address>, g: FloodId)
    requires Inv(s) && Enabled(s, Deliver(c, hearers)) && g != FloodOf(c.h)
    requires g in s.started && g !in Delivered(s, c, hearers).stale
    ensures g in Delivered(s, c, hearers).started && FloodInv(Delivered(s, c, hearers), g)
  {
    hide RecvRreq, Sent, FloodOk, Node.Accepts, CopiesInv, NodesInv, RecordOf, Delivered, Net.Copies, Net.AcceptancesOf;
    RecordOfDelivery(s, c, hearers);
    FloodInOrder(s, g);
    DeliveryKeepsOthers(s.nodes, s.AcceptancesOf(g), s.Copies(g), c, s.now, g, s.started[g] + s.lifetime);
  }

  lemma ConfigOf(s: Net, n: Address)
    requires NodesInv(s) && n in s.nodes
    ensures s.nodes[n].cfg.deletePeriod >= 0 && s.lifetime <= s.nodes[n].cfg.pathDiscoveryTime
  {
  }

  /** The parts of the network after a delivery, by flood. */
  lemma RecordOfDelivery(s: Net, c: Copy, hearers: set<Address>)
    requires c.receiver in s.nodes
    ensures var f, m := FloodOf(c.h), c.receiver;
            var s', n, acc := Delivered(s, c, hearers), s.nodes[m], s.AcceptancesOf(f);
            var (n', events) := RecvRreq(n, c.h, c.sender, s.now);
            && s'.nodes == s.nodes[m := n'] && s'.now == s.now && s'.lifetime == s.lifetime && s'.started == s.started
            && s'.Copies(f) == s.Copies(f) - multiset{c} + Sent(events, m, hearers)
            && s'.AcceptancesOf(f) == (if n.Accepts(c.h, c.sender, s.now)
                                          then acc[m := RecordOf(n, c, acc, s.now)] else acc)
            && (f !in s'.stale ==> f !in s.stale && f in s.started && s.now <= s.started[f] + s.lifetime)
            && forall g :: g != f ==> s'.Copies(g) == s.Copies(g) && s'.AcceptancesOf(g) == s.AcceptancesOf(g)
                                      && (g in s'.stale <==> g in s.stale)
  {
    hide RecvRreq, Sent, Node.Accepts;
  }

  lemma StartedBefore(s: Net, g: FloodId)
    requires CopiesInv(s) && g in s.started
    ensures s.started[g] <= s.now
  {
  }

  /** A new flood starts with an empty tree, remembered by its originator. */
  lemma NewFloodOk(nodes: map<Address, Node>, n: Address, dst: Address, hearers: set<Address>, now: Time,
                   lifetime: Time)
    requires n in nodes && nodes[n].self == n && lifetime <= nodes[n].cfg.pathDiscoveryTime
    requires !SendRequest(nodes[n], dst, now).1[0].Deferred?
    requires forall u :: u in nodes[n].cache ==> (u.context, u.id) != FloodOf(SendRequest(nodes[n], dst, now).1[0].h)
    ensures var (n', events) := SendRequest(nodes[n], dst, now);
            FloodOk(nodes[n := n'], map[], Sent(events, n, hearers), FloodOf(events[0].h), now, now + lifetime)
  {
    hide SendRequest, Remember, Sent, Remembers;
    var node := nodes[n];
    var (n', events) := SendRequest(node, dst, now);
    RequestEvents(node, dst, now);
    var f := FloodOf(events[0].h);
    UnknownIsNotDuplicate(node.cache, f, now);
    NewlyRemembered(node.cache, f, now, node.cfg.pathDiscoveryTime);
    RemembersLess(n'.cache, f, now + node.cfg.pathDiscoveryTime, now + lifetime);
    forall c | c in Sent(events, n, hearers) ensures CopyFits(c, map[], f) {
      SentFits(events, n, hearers, c);
    }
  }

  lemma OriginationKeepsOthers(nodes: map<Address, Node>, acc: Acceptances, copies: multiset<Copy>,
                               n: Address, dst: Address, now: Time, g: FloodId, until: Time)
    requires FloodOk(nodes, acc, copies, g, now, until) && n in nodes
    ensures FloodOk(nodes[n := SendRequest(nodes[n], dst, now).0], acc, copies, g, now, until)
  {
    hide SendRequest, Remember, Remembers, TreeShaped, CopiesFit;
    var node := nodes[n];
    var n' := SendRequest(node, dst, now).0;
    RequestEvents(node, dst, now);
    if now <= until && Remembers(node.cache, g, until) {
      StillRemembers(node.cache, node.self, n'.requestId, now, node.cfg.pathDiscoveryTime, g, until);
    }
  }

  lemma RemembersLess(cache: seq<UniqueId>, f: FloodId, later: Time, until: Time)
    requires Remembers(cache, f, later) && until <= later
    ensures Remembers(cache, f, until)
  {
  }

  lemma NotStarted(s: Net, g: FloodId)
    requires CopiesInv(s) && g !in s.started
    ensures s.Copies(g) == multiset{} && s.AcceptancesOf(g) == map[]
  {
    assert Filed(s.Copies(g), g, s.started.Keys);
    assert s.Copies(g) == multiset{};
  }

  /** The parts of the network after a request is originated, by flood. */
  lemma OriginatedParts(s: Net, n: Address, dst: Address, hearers: set<Address>, g: FloodId)
    requires n in s.nodes
    ensures var (n', events) := SendRequest(s.nodes[n], dst, s.now);
            var s' := Originated(s, n, dst, hearers);
            && events != [] && s'.nodes == s.nodes[n := n'] && s'.now == s.now && s'.lifetime == s.lifetime
            && (g !in s'.stale ==> g !in s.stale)
            && (if !events[0].Deferred? && events[0].Broadcast? && g == FloodOf(events[0].h)
                then g in s'.started && s'.started[g] == s.now
                     && s'.Copies(g) == s.Copies(g) + Sent(events, n, hearers)
                     && s'.AcceptancesOf(g) == s.AcceptancesOf(g)
                     && (g in s.started ==> g in s'.stale)
                else s'.Copies(g) == s.Copies(g) && s'.AcceptancesOf(g) == s.AcceptancesOf(g)
                     && (g in s'.started <==> g in s.started) && (g in s.started ==> s'.started[g] == s.started[g]))
  {
    hide SendRequest, Sent;
    RequestEvents(s.nodes[n], dst, s.now);
  }

  lemma NotRemembered(s: Net, n: Address, g: FloodId)
    requires NodesInv(s) && n in s.nodes && g !in s.started
    ensures s.nodes[n].self == n && s.lifetime <= s.nodes[n].cfg.pathDiscoveryTime
    ensures forall u :: u in s.nodes[n].cache ==> (u.context, u.id) != g
  {
  }

  lemma OriginationKeepsInv(s: Net, n: Address, dst: Address, hearers: set<Address>, g: FloodId)
    requires Inv(s) && Enabled(s, Originate(n, dst, hearers))
    requires g in Originated(s, n, dst, hearers).started && g !in Originated(s, n, dst, hearers).stale
    ensures FloodInv(Originated(s, n, dst, hearers), g)
  {
    hide SendRequest, Sent, FloodOk, NodesInv, CopiesInv;
    var (n', events) := SendRequest(s.nodes[n], dst, s.now);
    RequestEvents(s.nodes[n], dst, s.now);
    OriginatedParts(s, n, dst, hearers, g);
    hide Originated, Net.Copies, Net.AcceptancesOf;
    if !events[0].Deferred? && g == FloodOf(events[0].h) {
      assert g !in s.started;
      NotStarted(s, g);
      NotRemembered(s, n, g);
      assert multiset{} + Sent(events, n, hearers) == Sent(events, n, hearers);
      NewFloodOk(s.nodes, n, dst, hearers, s.now, s.lifetime);
    } else {
      OriginationKeepsOthers(s.nodes, s.AcceptancesOf(g), s.Copies(g), n, dst, s.now, g, s.started[g] + s.lifetime);
    }
  }

  /** Time passing, lost or repeated copies, and changes that touch no cache keep a flood in order. */
  lemma QuietFloodOk(nodes: map<Address, Node>, acc: Acceptances, copies: multiset<Copy>, f: FloodId, now: Time,
                     until: Time, nodes': map<Address, Node>, copies': multiset<Copy>, now': Time)
    requires FloodOk(nodes, acc, copies, f, now, until)
    requires nodes'.Keys == nodes.Keys && forall n :: n in nodes ==> nodes'[n].cache == nodes[n].cache
    requires forall c :: c in copies' ==> c in copies
    requires now <= now'
    ensures FloodOk(nodes', acc, copies', f, now', until)
  {
    hide Remembers, TreeShaped, CopyFits;
  }

  lemma QuietStepCopies(s: Net, step: Step, g: FloodId)
    requires Enabled(s, step) && !step.Originate? && !step.Deliver?
    ensures forall c :: c in Apply(s, step).Copies(g) ==> c in s.Copies(g)
  {
  }

  lemma FloodInOrder(s: Net, g: FloodId)
    requires Inv(s) && g in s.started && g !in s.stale
    ensures FloodInv(s, g)
  {
  }

  lemma QuietStepNodes(s: Net, step: Step, g: FloodId)
    requires Enabled(s, step) && !step.Originate? && !step.Deliver?
    ensures var s' := Apply(s, step);
            && s'.nodes.Keys == s.nodes.Keys && (forall n :: n in s.nodes ==> s'.nodes[n].cache == s.nodes[n].cache)
            && s'.now >= s.now && s'.lifetime == s.lifetime && s'.started == s.started && s'.stale == s.stale
            && s'.AcceptancesOf(g) == s.AcceptancesOf(g)
  {
  }

  /** The remaining steps touch no cache, and take away or repeat copies at most. */
  lemma QuietStepKeepsInv(s: Net, step: Step, g: FloodId)
    requires Inv(s) && Enabled(s, step) && !step.Originate? && !step.Deliver?
    requires g in s.started && g !in s.stale
    ensures Apply(s, step).started == s.started && Apply(s, step).stale == s.stale && FloodInv(Apply(s, step), g)
  {
    hide FloodOk, Inv, Net.Copies, Net.AcceptancesOf, Apply;
    var s' := Apply(s, step);
    FloodInOrder(s, g);
    QuietStepCopies(s, step, g);
    QuietStepNodes(s, step, g);
    QuietFloodOk(s.nodes, s.AcceptancesOf(g), s.Copies(g), g, s.now, s.started[g] + s.lifetime,
                 s'.nodes, s'.Copies(g), s'.now);
  }

  lemma DeliveredHistory(s: Net, c: Copy, hearers: set<Address>)
    requires c.receiver in s.nodes
    ensures Delivered(s, c, hearers).started == s.started && s.stale <= Delivered(s, c, hearers).stale
  {
  }

  lemma StepKeepsInv(s: Net, step: Step)
    requires Inv(s) && Enabled(s, step)
    ensures Inv(Apply(s, step))
  {
    NodesKept(s, step);
    CopiesKept(s, step);
    var s' := Apply(s, step);
    hide *;
    forall g | g in s'.started && g !in s'.stale ensures FloodInv(s', g) {
      StepKeepsFlood(s, step, g);
    }
    InvFromParts(s');
  }

  lemma InvFromParts(s: Net)
    requires NodesInv(s) && CopiesInv(s)
    requires forall f :: f in s.started && f !in s.stale ==> FloodInv(s, f)
    ensures Inv(s)
  {
  }

  lemma StepKeepsFlood(s: Net, step: Step, g: FloodId)
    requires Inv(s) && Enabled(s, step)
    requires g in Apply(s, step).started && g !in Apply(s, step).stale
    ensures FloodInv(Apply(s, step), g)
  {
    hide Inv, FloodInv, Originated, Delivered;
    match step {
      case Originate(n, dst, hearers) => OriginationKeepsInv(s, n, dst, hearers, g);
      case Deliver(c, hearers) =>
        DeliveredHistory(s, c, hearers);
        DeliveryKeepsInv(s, c, hearers, g);
      case _ => QuietStepKeepsInv(s, step, g);
    }
  }
}
