/** What holds of one node's routing table over every run of the operations that touch it. */
module NodeRuns {
  import opened Types
  import opened IdCaches
  import opened Tables
  import opened Packets
  import opened Nodes

  // ---------- runs ----------

  datatype Op =
    | Receive(h: Rreq, src: Address)
    | Send(dst: Address)
    | Lookup
    | Invalidate(unreachable: set<Address>)
    | Delete(dst: Address)
    | SetState(dst: Address, state: RouteFlag)
    | BlackList(neighbor: Address, timeout: Time)
    | SetRreqCount(count: uint16)

  datatype TimedOp = At(now: Time, op: Op)

  function Step(n: Node, o: TimedOp): Node {
    var bad := n.cfg.deletePeriod;
    match o.op
    case Receive(h, src) => RecvRreq(n, h, src, o.now).0
    case Send(dst) => SendRequest(n, dst, o.now).0
    case Lookup => n.(table := n.Purged(o.now))
    case Invalidate(ds) => n.(table := InvalidateRoutes(n.table, ds, bad, o.now))
    case Delete(dst) => n.(table := DeleteRoute(n.table, dst, bad, o.now))
    case SetState(dst, state) => n.(table := SetEntryState(n.table, dst, state))
    case BlackList(neighbor, timeout) => n.(table := MarkUnidirectional(n.table, neighbor, timeout))
    case SetRreqCount(count) => n.(rreqCount := count)
  }

  function Exec(n: Node, ops: seq<TimedOp>): Node {
    if ops == [] then n else Step(Exec(n, ops[..|ops| - 1]), ops[|ops| - 1])
  }

  /** The operation is a request from `d` that gets past the blacklist and the id cache. */
  predicate AcceptsFrom(n: Node, o: TimedOp, d: Address) {
    o.op.Receive? && o.op.h.origin == d && n.Accepts(o.op.h, o.op.src, o.now)
  }

  lemma StepConfig(n: Node, o: TimedOp)
    ensures Step(n, o).cfg == n.cfg && Step(n, o).self == n.self
  {
    hide RecordReverseRoute, Respond, SearchTable;
  }

  lemma {:induction false} RunConfig(n: Node, ops: seq<TimedOp>)
    ensures Exec(n, ops).cfg == n.cfg
  {
    hide Step;
    if ops != [] {
      RunConfig(n, ops[..|ops| - 1]);
      StepConfig(Exec(n, ops[..|ops| - 1]), ops[|ops| - 1]);
    }
  }

  /** A request received leaves every entry but the originator's as the purge left it. */
  lemma ReceiveKeepsOthers(n: Node, h: Rreq, src: Address, now: Time, d: Address)
    requires n.cfg.deletePeriod >= 0 && !(n.Accepts(h, src, now) && h.origin == d)
    ensures var t := RecvRreq(n, h, src, now).0.table;
            (d in t <==> d in n.Purged(now)) && (d in t ==> t[d] == n.Purged(now)[d])
  {
    if n.Accepts(h, src, now) {
      hide RecvRreq;
      AcceptedTable(n, h, src, now);
    }
  }

  /** Marking a destination as searched for keeps every next hop, sequence number and lifetime. */
  lemma SendKeepsRoutes(n: Node, dst: Address, now: Time, d: Address)
    requires n.cfg.deletePeriod >= 0 && d in SendRequest(n, dst, now).0.table
    ensures var r := SendRequest(n, dst, now).0.table[d];
            || n.rreqCount == n.cfg.rreqRateLimit
            || (d in n.Purged(now) && r == n.Purged(now)[d])
            || (d == dst && r.flag == IN_SEARCH
                && (if d in n.Purged(now) then r == n.Purged(now)[d].(flag := IN_SEARCH) else !r.validSeqNo))
  {
    PurgeIdempotentExactly(n.table, n.cfg.deletePeriod, now);
  }

  lemma SendKeepsKeys(n: Node, dst: Address, now: Time)
    requires n.cfg.deletePeriod >= 0
    ensures n.Purged(now).Keys <= SendRequest(n, dst, now).0.table.Keys
  {
    PurgeIdempotentExactly(n.table, n.cfg.deletePeriod, now);
  }

  // ---------- an unexpired route stays ----------

  /** No newer request is accepted from `d`, and its entry is not deleted. */
  predicate LeavesAlone(n: Node, o: TimedOp, d: Address) {
    !AcceptsFrom(n, o, d) && !(o.op.Delete? && o.op.dst == d)
  }

  /** If the entry for `d` goes down, the bad-link lifetime keeps it until `until`. */
  predicate OutlivedBy(o: TimedOp, d: Address, bad: Time, until: Time) {
    o.op.Invalidate? && d in o.op.unreachable ==> until <= o.now + bad
  }

  ghost predicate AllLeaveAlone(n: Node, ops: seq<TimedOp>, d: Address, until: Time) {
    forall k :: 0 <= k < |ops| ==>
      ops[k].now <= until && LeavesAlone(Exec(n, ops[..k]), ops[k], d)
      && OutlivedBy(ops[k], d, n.cfg.deletePeriod, until)
  }

  lemma StepKeepsUnexpired(n: Node, o: TimedOp, d: Address, until: Time)
    requires n.cfg.deletePeriod >= 0 && LeavesAlone(n, o, d) && OutlivedBy(o, d, n.cfg.deletePeriod, until)
    requires d in n.table && o.now <= until <= n.table[d].lifeTime
    ensures d in Step(n, o).table
    ensures Step(n, o).table[d].via == n.table[d].via && Step(n, o).table[d].hops == n.table[d].hops
    ensures until <= Step(n, o).table[d].lifeTime
    ensures !o.op.Invalidate? ==> Step(n, o).table[d].lifeTime == n.table[d].lifeTime
  {
    PurgeKeepsUnexpired(n.table, n.cfg.deletePeriod, o.now, d);
    match o.op {
      case Receive(h, src) =>
        hide RecvRreq, Node.Accepts;
        ReceiveKeepsOthers(n, h, src, o.now, d);
      case Send(dst) =>
        SendKeepsKeys(n, dst, o.now);
        hide SendRequest;
        SendKeepsRoutes(n, dst, o.now, d);
        SendAtLimit(n, dst, o.now);
      case _ =>
    }
  }

  lemma SendAtLimit(n: Node, dst: Address, now: Time)
    ensures n.rreqCount == n.cfg.rreqRateLimit ==> SendRequest(n, dst, now).0 == n
  {
  }

  /**
   Up to its expiry an entry that is neither replaced nor deleted keeps its next hop
   and hop count, whatever else happens at the node. It may even be invalidated, as
   long as the bad-link lifetime lasts.
   */
  lemma {:induction false} RunKeepsUnexpired(n: Node, ops: seq<TimedOp>, d: Address, until: Time)
    requires n.cfg.deletePeriod >= 0 && AllLeaveAlone(n, ops, d, until)
    requires d in n.table && until <= n.table[d].lifeTime
    ensures d in Exec(n, ops).table
    ensures Exec(n, ops).table[d].via == n.table[d].via && Exec(n, ops).table[d].hops == n.table[d].hops
    ensures until <= Exec(n, ops).table[d].lifeTime
    ensures (forall o :: o in ops ==> !o.op.Invalidate?) ==> Exec(n, ops).table[d].lifeTime == n.table[d].lifeTime
  {
    hide Step, LeavesAlone, OutlivedBy;
    if ops != [] {
      var front, last := ops[..|ops| - 1], ops[|ops| - 1];
      forall k | 0 <= k < |front|
        ensures front[k].now <= until && LeavesAlone(Exec(n, front[..k]), front[k], d)
                && OutlivedBy(front[k], d, n.cfg.deletePeriod, until)
      {
        assert front[..k] == ops[..k];
      }
      RunKeepsUnexpired(n, front, d, until);
      RunConfig(n, front);
      StepKeepsUnexpired(Exec(n, front), last, d, until);
    }
  }

  // ---------- the reply finds its way back ----------

  /** The timing constants are derived as in the constructor. */
  predicate Derived(cfg: Config) {
    && cfg.netTraversalTime == 2 * cfg.netDiameter * cfg.nodeTraversalTime
    && cfg.nodeTraversalTime >= 0 && cfg.deletePeriod >= 0
  }

  /** The time `hops` hops out and back take at most. */
  function RoundTrip(cfg: Config, hops: int): Time {
    2 * hops * cfg.nodeTraversalTime
  }

  /** The reverse-route lifetime and the bad-link lifetime both last for the round trip over `m` hops. */
  predicate RoundTripCovered(cfg: Config, m: nat) {
    && cfg.nodeTraversalTime >= 0
    && m * cfg.nodeTraversalTime <= cfg.netTraversalTime
    && RoundTrip(cfg, m) <= cfg.deletePeriod
  }

  /** The constructor's constants are derived so; they cover paths of twice the network diameter, and no longer ones. */
  lemma DefaultIsDerived()
    ensures Derived(DefaultConfig())
    ensures DefaultConfig().netTraversalTime == 2_800 && DefaultConfig().pathDiscoveryTime == 5_600
    ensures DefaultConfig().deletePeriod == 300_000 && DefaultConfig().netDiameter == 35
    ensures DefaultConfig().nodeTraversalTime == 40 && DefaultConfig().rreqRateLimit == 10
    ensures !DefaultConfig().destinationOnly && DefaultConfig().gratuitousReply
    ensures forall m: nat :: RoundTripCovered(DefaultConfig(), m) <==> m <= 2 * DefaultConfig().netDiameter
  {
  }

  /**
   The lifetime given to a reverse route `i` hops out covers the rest of the way out
   to `m` hops and the way back, exactly when one way fits the net traversal time.
   */
  lemma LifetimeCoversRoundTrip(cfg: Config, i: uint8, m: nat)
    ensures RoundTrip(cfg, m - i) <= MinimalLifetime(cfg, i)
            <==> m * cfg.nodeTraversalTime <= cfg.netTraversalTime
  {
    var t := cfg.nodeTraversalTime;
    assert 2 * (m - i) * t == 2 * (m * t) - 2 * (i * t);
    assert 2 * i * t == 2 * (i * t);
  }

  /** With constants derived as in the constructor that is the case up to twice the network diameter. */
  lemma DerivedCovers(cfg: Config, m: nat)
    requires Derived(cfg) && cfg.nodeTraversalTime > 0
    ensures m * cfg.nodeTraversalTime <= cfg.netTraversalTime <==> m <= 2 * cfg.netDiameter
  {
    var t, d := cfg.nodeTraversalTime, 2 * cfg.netDiameter;
    if m <= d {
      assert d * t == m * t + (d - m) * t;
    } else {
      assert m * t == d * t + (m - d) * t;
    }
  }

  lemma ShorterPath(cfg: Config, k: nat, m: nat)
    requires cfg.nodeTraversalTime >= 0 && k <= m
    ensures 0 <= RoundTrip(cfg, k) <= RoundTrip(cfg, m)
  {
    var t := cfg.nodeTraversalTime;
    assert 2 * m * t == 2 * k * t + 2 * ((m - k) * t);
  }

  /** In `[from, until]` no newer request of `d` is accepted and its entry is not deleted; it may be invalidated. */
  ghost predicate Undisturbed(n: Node, ops: seq<TimedOp>, d: Address, from: Time, until: Time) {
    forall k :: 0 <= k < |ops| ==> from <= ops[k].now <= until && LeavesAlone(Exec(n, ops[..k]), ops[k], d)
  }

  /** An interval no longer than the bad-link lifetime makes every invalidation in it harmless. */
  lemma UndisturbedIsAlone(n: Node, ops: seq<TimedOp>, d: Address, from: Time, until: Time)
    requires Undisturbed(n, ops, d, from, until) && until <= from + n.cfg.deletePeriod
    ensures AllLeaveAlone(n, ops, d, until)
  {
    hide LeavesAlone, Exec;
  }

  /**
   A node `i` hops out on a path of `m` hops still routes to the originator through
   the node it heard the request from at any time up to `2 (m - i)` hop times later,
   unless it accepts a newer request from there or the entry is deleted.
   */
  lemma ReverseRouteOutlivesRoundTrip(n: Node, p: Rreq, src: Address, t: Time, m: nat, ops: seq<TimedOp>, r: Time)
    requires RoundTripCovered(n.cfg, m) && n.Accepts(p, src, t)
    requires p.hopCount + 1 < TWO8 && p.hopCount + 1 <= m
    requires r <= t + RoundTrip(n.cfg, m - (p.hopCount + 1))
    requires Undisturbed(RecvRreq(n, p, src, t).0, ops, p.origin, t, r)
    ensures p.origin in Exec(RecvRreq(n, p, src, t).0, ops).Purged(r)
    ensures Exec(RecvRreq(n, p, src, t).0, ops).Purged(r)[p.origin].via == src
  {
    hide Undisturbed, AllLeaveAlone, Node.Accepts, RecvRreq, RoundTrip;
    var i := p.hopCount + 1;
    LifetimeCoversRoundTrip(n.cfg, i, m);
    ShorterPath(n.cfg, m - i, m);
    ReverseRouteRecorded(n, p, src, t);
    ReceivedConfig(n, p, src, t);
    var n' := RecvRreq(n, p, src, t).0;
    UndisturbedIsAlone(n', ops, p.origin, t, r);
    RunKeepsUnexpired(n', ops, p.origin, r);
    RunConfig(n', ops);
    PurgeKeepsUnexpired(Exec(n', ops).table, n.cfg.deletePeriod, r, p.origin);
  }

  lemma ReceivedConfig(n: Node, p: Rreq, src: Address, t: Time)
    ensures RecvRreq(n, p, src, t).0.cfg == n.cfg
  {
    StepConfig(n, At(t, Receive(p, src)));
  }

  /** One node on the way out: its state, the request it accepts, and what it does until the reply is back. */
  datatype Relay = Relay(n: Node, p: Rreq, src: Address, arrivedAt: Time, ops: seq<TimedOp>, repliedAt: Time) {
    /** The table that the reply is routed by. */
    function TableAtReply(): Table {
      Exec(RecvRreq(n, p, src, arrivedAt).0, ops).Purged(repliedAt)
    }
  }

  /** The relay accepts the request of `origin` and then leaves its route there alone until the reply is back. */
  ghost predicate RelayOk(x: Relay, cfg: Config, origin: Address, i: nat) {
    && x.n.cfg == cfg && x.p.origin == origin && x.p.hopCount == i
    && x.n.Accepts(x.p, x.src, x.arrivedAt)
    && Undisturbed(RecvRreq(x.n, x.p, x.src, x.arrivedAt).0, x.ops, origin, x.arrivedAt, x.repliedAt)
  }

  /** The node that relay `i` hears the request from. */
  function Before(path: seq<Relay>, origin: Address, i: nat): Address
    requires i < |path|
  {
    if i == 0 then origin else path[i - 1].n.self
  }

  /**
   Relay `i` is `i + 1` hops out, and hears the request from the relay before it. No
   hop, out or back, takes longer than the node traversal time, and the last relay
   answers on arrival.
   */
  ghost predicate TimelyPath(path: seq<Relay>, cfg: Config, origin: Address) {
    && (forall i :: 0 <= i < |path| ==> RelayOk(path[i], cfg, origin, i))
    && (forall i, j :: 0 <= i < j < |path| && j == i + 1 ==>
          && path[j].src == path[i].n.self
          && path[j].arrivedAt <= path[i].arrivedAt + cfg.nodeTraversalTime
          && path[i].repliedAt <= path[j].repliedAt + cfg.nodeTraversalTime)
    && (path != [] ==> path[0].src == origin && path[|path| - 1].repliedAt <= path[|path| - 1].arrivedAt)
  }

  lemma {:induction false} RoundTripTime(path: seq<Relay>, cfg: Config, origin: Address, i: nat)
    requires TimelyPath(path, cfg, origin) && i < |path|
    ensures path[i].repliedAt <= path[i].arrivedAt + RoundTrip(cfg, |path| - (i + 1))
    decreases |path| - i
  {
    hide RelayOk, Before, RoundTrip;
    NoTime(cfg);
    if i + 1 < |path| {
      RoundTripTime(path, cfg, origin, i + 1);
      OneMoreHop(cfg, |path| - (i + 2));
    }
  }

  lemma NoTime(cfg: Config)
    ensures RoundTrip(cfg, 0) == 0
  {
  }

  lemma OneMoreHop(cfg: Config, rest: nat)
    ensures RoundTrip(cfg, rest + 1) == RoundTrip(cfg, rest) + 2 * cfg.nodeTraversalTime
  {
  }

  /** At relay `i` the route to the originator is still there, and leads to the relay before. */
  lemma RouteAtReply(path: seq<Relay>, cfg: Config, origin: Address, i: nat)
    requires TimelyPath(path, cfg, origin) && i < |path| < TWO8 && RoundTripCovered(cfg, |path|)
    ensures origin in path[i].TableAtReply() && path[i].TableAtReply()[origin].via == Before(path, origin, i)
  {
    hide *;
    RoundTripTime(path, cfg, origin, i);
    RelayAt(path, cfg, origin, i);
    RouteOfRelay(path[i], cfg, origin, i, |path|);
  }

  lemma RelayAt(path: seq<Relay>, cfg: Config, origin: Address, i: nat)
    requires TimelyPath(path, cfg, origin) && i < |path|
    ensures RelayOk(path[i], cfg, origin, i) && path[i].src == Before(path, origin, i)
  {
    hide RelayOk;
    if i > 0 {
      assert path[i].src == path[i - 1].n.self;
    }
  }

  lemma RouteOfRelay(x: Relay, cfg: Config, origin: Address, i: nat, m: nat)
    requires RelayOk(x, cfg, origin, i) && i < m < TWO8 && RoundTripCovered(cfg, m)
    requires x.repliedAt <= x.arrivedAt + RoundTrip(cfg, m - (i + 1))
    ensures origin in x.TableAtReply() && x.TableAtReply()[origin].via == x.src
  {
    hide Undisturbed, RecvRreq, Node.Accepts, Exec, Node.Purged, RoundTripCovered, RoundTrip;
    ReverseRouteOutlivesRoundTrip(x.n, x.p, x.src, x.arrivedAt, m, x.ops, x.repliedAt);
  }

  /**
   The nodes a reply passes from relay `i` on. Each relay sends it to the next hop its
   own table then has for the originator; it stops where there is none, and where it
   leaves the path.
   */
  function ReplyTrail(path: seq<Relay>, origin: Address, i: nat): seq<Address>
    requires i < |path|
  {
    var x := path[i];
    if origin !in x.TableAtReply() then [x.n.self]
    else
      var next := x.TableAtReply()[origin].via;
      if i == 0 || next != path[i - 1].n.self then [x.n.self, next]
      else [x.n.self] + ReplyTrail(path, origin, i - 1)
  }

  lemma OneHopBack(path: seq<Relay>, origin: Address, i: nat)
    requires i < |path| && origin in path[i].TableAtReply()
    requires path[i].TableAtReply()[origin].via == Before(path, origin, i)
    ensures ReplyTrail(path, origin, i)
         == [path[i].n.self] + if i == 0 then [origin] else ReplyTrail(path, origin, i - 1)
  {
    hide Relay.TableAtReply;
  }

  /**
   A reply that travels back as fast as the request came out passes every relay of
   the path in reverse order and ends at the originator, each relay routing it by its
   own table at that moment, if the round trip is covered; in between, the relays may
   do anything but accept a newer request of the originator or delete its entry.
   */
  lemma {:induction false} ReplyFindsItsWayBack(path: seq<Relay>, cfg: Config, origin: Address, i: nat)
    requires TimelyPath(path, cfg, origin) && i < |path| < TWO8 && RoundTripCovered(cfg, |path|)
    ensures |ReplyTrail(path, origin, i)| == i + 2
    ensures ReplyTrail(path, origin, i)[i + 1] == origin
    ensures forall k :: 0 <= k <= i ==> ReplyTrail(path, origin, i)[k] == path[i - k].n.self
    decreases i
  {
    hide *;
    RouteAtReply(path, cfg, origin, i);
    OneHopBack(path, origin, i);
    if i > 0 {
      ReplyFindsItsWayBack(path, cfg, origin, i - 1);
    }
  }

  /** A relay that has done nothing before, and nothing until the reply. */
  function FreshRelay(self: Address, src: Address, hopCount: uint8): Relay {
    Relay(Node(self, DefaultConfig(), map[], [], 0, 0, 0), Rreq(0, 0, hopCount, 1, 9, 0, 1, 1, 0), src, 0, [], 0)
  }

  lemma FreshRelayOk(self: Address, src: Address, hopCount: uint8)
    ensures RelayOk(FreshRelay(self, src, hopCount), DefaultConfig(), 1, hopCount)
  {
    hide RecvRreq;
    var x := FreshRelay(self, src, hopCount);
    assert x.n.Purged(0) == map[];
  }

  /** Such a path: nodes 2 and 3 on the way out from node 1, and the reply of node 3 on its way back. */
  lemma ReplyOverTwoHops()
    ensures var path := [FreshRelay(2, 1, 0), FreshRelay(3, 2, 1)];
            TimelyPath(path, DefaultConfig(), 1) && ReplyTrail(path, 1, 1) == [3, 2, 1]
  {
    hide RelayOk, ReplyTrail, RoundTripCovered;
    var path := [FreshRelay(2, 1, 0), FreshRelay(3, 2, 1)];
    FreshRelayOk(2, 1, 0);
    FreshRelayOk(3, 2, 1);
    DefaultIsDerived();
    ReplyFindsItsWayBack(path, DefaultConfig(), 1, 1);
    var trail := ReplyTrail(path, 1, 1);
    assert trail[0] == path[1].n.self && trail[1] == path[0].n.self;
  }

  // ---------- how long an invalid route is kept ----------

  /** The table is changed by the protocol alone: no state is set and no entry deleted by hand. */
  predicate Ordinary(o: TimedOp) {
    !o.op.SetState? && !o.op.Delete?
  }

  predicate HasFlag(n: Node, d: Address, flag: RouteFlag) {
    d in n.table && n.table[d].flag == flag
  }

  /** How the entry for `d` may differ between the table before and the table `t` after an operation at `now`. */
  predicate MayBecome(n: Node, now: Time, t: Table, d: Address)
    requires d in n.table
  {
    var r := n.table[d];
    && (r.flag == IN_SEARCH ==> d in t && t[d].flag == IN_SEARCH)
    && (r.flag == VALID ==> d in t)
    && (r.flag == VALID && d in t && t[d].flag == INVALID ==> t[d].lifeTime >= now + n.cfg.deletePeriod)
    && (r.flag == INVALID && d in t && t[d].flag == INVALID ==> t[d].lifeTime >= r.lifeTime)
    && (r.flag == INVALID ==> now > r.lifeTime || (d in t && t[d].flag != VALID))
  }

  lemma PurgeAndFlags(n: Node, now: Time, t: Table, d: Address)
    requires n.cfg.deletePeriod >= 0 && d in n.table
    requires (d in t <==> d in n.Purged(now)) && (d in t ==> t[d] == n.Purged(now)[d])
    ensures MayBecome(n, now, t, d)
  {
  }

  lemma AcceptAndFlags(n: Node, h: Rreq, src: Address, now: Time)
    requires n.cfg.deletePeriod >= 0 && n.Accepts(h, src, now) && h.origin in n.table
    ensures MayBecome(n, now, RecvRreq(n, h, src, now).0.table, h.origin)
  {
    hide RecvRreq, Node.Accepts;
    AcceptedTable(n, h, src, now);
  }

  lemma SendAndFlags(n: Node, dst: Address, now: Time, d: Address)
    requires n.cfg.deletePeriod >= 0 && d in n.table
    ensures MayBecome(n, now, SendRequest(n, dst, now).0.table, d)
  {
    SendKeepsKeys(n, dst, now);
    hide SendRequest;
    if d in SendRequest(n, dst, now).0.table {
      SendKeepsRoutes(n, dst, now, d);
    }
    SendAtLimit(n, dst, now);
  }

  lemma StepMayBecome(n: Node, o: TimedOp, d: Address)
    requires n.cfg.deletePeriod >= 0 && Ordinary(o) && d in n.table
    ensures MayBecome(n, o.now, Step(n, o).table, d)
  {
    hide RecvRreq, SendRequest, Node.Accepts;
    match o.op {
      case Receive(h, src) =>
        if n.Accepts(h, src, o.now) && h.origin == d {
          AcceptAndFlags(n, h, src, o.now);
        } else {
          ReceiveKeepsOthers(n, h, src, o.now, d);
          PurgeAndFlags(n, o.now, Step(n, o).table, d);
        }
      case Send(dst) => SendAndFlags(n, dst, o.now, d);
      case Lookup => PurgeAndFlags(n, o.now, Step(n, o).table, d);
      case _ =>
    }
  }

  /** What one ordinary operation can do to an entry, by its state. */
  lemma StepAndFlags(n: Node, o: TimedOp, d: Address)
    requires n.cfg.deletePeriod >= 0 && Ordinary(o) && d in n.table
    ensures n.table[d].flag == IN_SEARCH ==> HasFlag(Step(n, o), d, IN_SEARCH)
    ensures n.table[d].flag == VALID ==> d in Step(n, o).table
    ensures n.table[d].flag == VALID && HasFlag(Step(n, o), d, INVALID) ==>
              Step(n, o).table[d].lifeTime >= o.now + n.cfg.deletePeriod
    ensures n.table[d].flag == INVALID && HasFlag(Step(n, o), d, INVALID) ==>
              Step(n, o).table[d].lifeTime >= n.table[d].lifeTime
    ensures n.table[d].flag == INVALID ==>
              o.now > n.table[d].lifeTime || HasFlag(Step(n, o), d, INVALID) || HasFlag(Step(n, o), d, IN_SEARCH)
  {
    hide Step, Ordinary;
    StepMayBecome(n, o, d);
  }

  /**
   A search for a destination whose own request arrives in the meantime: the reverse
   route is recorded, but its entry stays IN_SEARCH and so cannot carry traffic.
   */
  lemma CrossingRequestsStayInSearch(n: Node, d: Address, t0: Time, h: Rreq, src: Address, t1: Time)
    requires n.rreqCount != n.cfg.rreqRateLimit && n.cfg.deletePeriod >= 0
    requires h.origin == d && SendRequest(n, d, t0).0.Accepts(h, src, t1)
    ensures var n' := RecvRreq(SendRequest(n, d, t0).0, h, src, t1).0;
            HasFlag(n', d, IN_SEARCH) && n'.table[d].via == src && n'.table[d].validSeqNo
  {
    var n1 := SendRequest(n, d, t0).0;
    RequestOriginated(n, d, t0);
    StepConfig(n, At(t0, Send(d)));
    StepAndFlags(n1, At(t1, Receive(h, src)), d);
    ReverseRouteRecorded(n1, h, src, t1);
    hide RecvRreq, SendRequest, Node.Accepts, Node.Purged;
  }

  /** It happens: node 1 searches for node 2, and hears node 2 search for node 1. */
  lemma CrossingRequestsOccur()
    ensures var n := Node(1, DefaultConfig(), map[], [], 0, 0, 0);
            var h := Rreq(0, 0, 0, 1, 1, 0, 2, 1, 0);
            && SendRequest(n, 2, 0).0.Accepts(h, 2, 0)
            && HasFlag(RecvRreq(SendRequest(n, 2, 0).0, h, 2, 0).0, 2, IN_SEARCH)
  {
    var n := Node(1, DefaultConfig(), map[], [], 0, 0, 0);
    var h := Rreq(0, 0, 0, 1, 1, 0, 2, 1, 0);
    var n1 := SendRequest(n, 2, 0).0;
    assert n1.cache == [UniqueId(1, 1, 5_600)] && n1.cfg == n.cfg && !n1.Ignores(2, 0) by {
      hide OriginatorFields, DestinationFields, RecvRreq;
    }
    assert !Duplicate(n1.cache, 2, 1, 0);
    hide SendRequest, RecvRreq, Node.Ignores;
    CrossingRequestsStayInSearch(n, 2, 0, h, 2, 0);
  }

  /** From when it goes down an entry stays, until after the bad-link lifetime, or until searched for again. */
  lemma {:induction false} DownEntryDeadline(n: Node, ops: seq<TimedOp>, d: Address, i: nat, j: nat)
    requires n.cfg.deletePeriod >= 0 && i < j <= |ops| && forall k :: 0 <= k < |ops| ==> Ordinary(ops[k])
    requires HasFlag(Exec(n, ops[..i]), d, VALID)
    requires forall k :: i < k <= j ==> HasFlag(Exec(n, ops[..k]), d, INVALID)
    ensures HasFlag(Exec(n, ops[..j]), d, INVALID)
    ensures Exec(n, ops[..j]).table[d].lifeTime >= ops[i].now + n.cfg.deletePeriod
    decreases j
  {
    hide Step;
    assert ops[..j][..j - 1] == ops[..j - 1];
    var before := Exec(n, ops[..j - 1]);
    RunConfig(n, ops[..j - 1]);
    StepAndFlags(before, ops[j - 1], d);
    if i < j - 1 {
      DownEntryDeadline(n, ops, d, i, j - 1);
    }
  }

  /**
   Over every run of ordinary operations: a route that went from VALID to INVALID in
   operation `i`, stayed INVALID, and is deleted by the purge at operation `j`, or is
   anything but INVALID or searched for after it, is so strictly later than the
   bad-link lifetime after it was invalidated. This covers the search for a
   destination whose entry has aged out, where one operation deletes and adds it.
   */
  lemma InvalidRouteKept(n: Node, ops: seq<TimedOp>, d: Address, i: nat, j: nat)
    requires n.cfg.deletePeriod >= 0 && i < j < |ops| && forall k :: 0 <= k < |ops| ==> Ordinary(ops[k])
    requires HasFlag(Exec(n, ops[..i]), d, VALID)
    requires forall k :: i < k <= j ==> HasFlag(Exec(n, ops[..k]), d, INVALID)
    requires || d !in Exec(n, ops[..j]).Purged(ops[j].now)
             || !(HasFlag(Exec(n, ops[..j + 1]), d, INVALID) || HasFlag(Exec(n, ops[..j + 1]), d, IN_SEARCH))
    ensures ops[j].now > ops[i].now + n.cfg.deletePeriod
  {
    hide Step;
    DownEntryDeadline(n, ops, d, i, j);
    assert ops[..j + 1][..j] == ops[..j];
    RunConfig(n, ops[..j]);
    StepAndFlags(Exec(n, ops[..j]), ops[j], d);
  }

  /** A VALID entry leaves the table only after being INVALID, and one being searched for never leaves. */
  lemma ValidNeverJustVanishes(n: Node, ops: seq<TimedOp>, d: Address, k: nat)
    requires n.cfg.deletePeriod >= 0 && k < |ops| && forall j :: 0 <= j < |ops| ==> Ordinary(ops[j])
    requires d in Exec(n, ops[..k]).table && d !in Exec(n, ops[..k + 1]).table
    ensures HasFlag(Exec(n, ops[..k]), d, INVALID)
  {
    hide Step;
    assert ops[..k + 1][..k] == ops[..k];
    RunConfig(n, ops[..k]);
    StepAndFlags(Exec(n, ops[..k]), ops[k], d);
  }
}
