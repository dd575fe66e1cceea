/**
 Where the hop count stops being the distance: nodes in a line, each hearing only the
 one before. The 257th node is 256 hops out and records none.
 */
module LineNetworks {
  import opened Types
  import opened IdCaches
  import opened Packets
  import opened Nodes
  import opened SequenceRuns
  import opened Flood
  import opened FloodRuns
  import LiveRoutes
  import NodeRuns
  import ProtocolRuns

  /** A node that has done nothing yet. */
  function Fresh(a: Address): Node {
    Node(a, DefaultConfig(), map[], [], 0, 0, 0)
  }

  /** Nodes 1 to `size`. */
  function FreshNodes(size: uint32): map<Address, Node> {
    if size == 0 then map[] else FreshNodes(size - 1)[size := Fresh(size)]
  }

  lemma {:induction false} NodesOfLine(size: uint32)
    ensures |FreshNodes(size)| == size
    ensures forall a: Address :: a in FreshNodes(size) <==> 1 <= a <= size
    ensures forall a :: a in FreshNodes(size) ==> FreshNodes(size)[a] == Fresh(a)
  {
    if size > 0 {
      NodesOfLine(size - 1);
    }
  }

  function Line(size: uint32): Net {
    Net(0, DefaultConfig().pathDiscoveryTime, FreshNodes(size), map[], map[], map[], {})
  }

  /** The first request of node 1, for node 0, as node `k + 1` sends it on. */
  function HeaderAfter(k: nat): Rreq {
    SendRequest(Fresh(1), 0, 0).1[0].h.(hopCount := k % TWO8)
  }

  function CopyTo(k: nat): Copy
    requires 1 <= k < TWO32 - 1
  {
    Copy(HeaderAfter(k - 1), k, k + 1)
  }

  function Hearers(k: nat, size: uint32): set<Address>
    requires k < size
  {
    if k + 1 < size then {k + 2} else {}
  }

  /** The request is originated and heard once by each of the next `k` nodes in turn. */
  function DownTheLine(k: nat, size: uint32): seq<Step>
    requires k < size
  {
    if k == 0 then [Originate(1, 0, Hearers(0, size))]
    else DownTheLine(k - 1, size) + [Deliver(CopyTo(k), Hearers(k, size))]
  }

  const FLOOD: FloodId := (1, 1)

  /** The state when the request has come `k` hops down the line. */
  ghost predicate Arrived(s: Net, k: nat, size: uint32)
    requires k < size
  {
    && s.now == 0 && s.lifetime == DefaultConfig().pathDiscoveryTime
    && s.started == map[FLOOD := 0] && s.stale == {}
    && (forall a: Address :: a in s.nodes <==> 1 <= a <= size)
    && (forall a: Address :: k + 1 < a <= size ==> s.nodes[a] == Fresh(a))
    && (k + 1 < size ==> CopyTo(k + 1) in s.Copies(FLOOD))
    && (k > 0 ==> k + 1 in s.AcceptancesOf(FLOOD)
                  && s.AcceptancesOf(FLOOD)[k + 1].depth == k && s.AcceptancesOf(FLOOD)[k + 1].hops == k % TWO8
                  && s.AcceptancesOf(FLOOD)[k + 1].at == 0)
  }

  lemma FirstRequest()
    ensures var (n, events) := SendRequest(Fresh(1), 0, 0);
            && |events| == 2 && events[0] == Broadcast(HeaderAfter(0))
            && FloodOf(HeaderAfter(0)) == FLOOD && HeaderAfter(0).dst == 0
  {
    hide DestinationFields, OriginatorFields, SearchTable, Remember;
    RequestOriginated(Fresh(1), 0, 0);
    hide SendRequest;
  }

  /** A fresh node sends a request for node 0 on, one hop further. */
  lemma FreshNodeForwards(a: Address, h: Rreq, src: Address)
    requires h.dst == 0 && FloodOf(h) == FLOOD && a > 1
    ensures Fresh(a).Accepts(h, src, 0)
    ensures RecvRreq(Fresh(a), h, src, 0).1 == [Broadcast(Hopped(h))]
  {
    var n := Fresh(a);
    assert n.Purged(0) == map[];
    assert n.Accepts(h, src, 0);
    ResponseExactly(n, h, src, 0);
    hide RecvRreq, Node.Accepts;
    var e := RecvRreq(n, h, src, 0).1[0];
    ForwardedHeader(n, h, src, 0, e);
    assert e == Broadcast(e.h);
  }

  lemma FirstStep(size: uint32)
    requires size >= 2
    ensures Enabled(Line(size), Originate(1, 0, Hearers(0, size)))
    ensures Arrived(Apply(Line(size), Originate(1, 0, Hearers(0, size))), 0, size)
  {
    hide SendRequest, HeaderAfter, Sent, FreshNodes, Originated, CopyTo, Fresh, DefaultConfig, Net.Copies;
    NodesOfLine(size);
    SendsNext(0, size);
    FirstNet(Line(size), Hearers(0, size));
    SentFirst(Hearers(0, size));
  }

  lemma SentFirst(hearers: set<Address>)
    ensures var events := SendRequest(Fresh(1), 0, 0).1;
            Sent(events, 1, hearers) == Sent([Broadcast(HeaderAfter(0))], 1, hearers)
  {
    FirstRequest();
    hide SendRequest, HeaderAfter;
  }

  lemma FirstNet(s: Net, hearers: set<Address>)
    requires 1 in s.nodes && s.nodes[1] == Fresh(1) && s.now == 0
    requires s.inFlight == map[] && s.started == map[] && s.accepted == map[] && s.stale == {}
    ensures var s', (n, events) := Originated(s, 1, 0, hearers), SendRequest(Fresh(1), 0, 0);
            && s' == s.(nodes := s.nodes[1 := n], inFlight := s'.inFlight,
                        started := map[FLOOD := 0], accepted := map[FLOOD := map[]])
            && s'.Copies(FLOOD) == Sent(events, 1, hearers)
  {
    FirstRequest();
    hide SendRequest, HeaderAfter, Sent;
  }

  lemma ArrivedFirst(size: uint32)
    requires size >= 2
    ensures IsRun(Line(size), DownTheLine(0, size))
    ensures Arrived(Exec(Line(size), DownTheLine(0, size)), 0, size)
  {
    NoStep(Line(size));
    FirstInLine(size);
    hide *;
    FirstStep(size);
    RunExtends(Line(size), [], Originate(1, 0, Hearers(0, size)));
  }

  lemma NoStep(s: Net)
    ensures IsRun(s, []) && Exec(s, []) == s
  {
  }

  lemma FirstInLine(size: uint32)
    requires size >= 2
    ensures DownTheLine(0, size) == [] + [Originate(1, 0, Hearers(0, size))]
  {
  }

  lemma SendsNext(k: nat, size: uint32)
    requires k + 1 < size
    ensures CopyTo(k + 1) in Sent([Broadcast(HeaderAfter(k))], k + 1, Hearers(k, size))
  {
    assert CopyTo(k + 1) in Fanout(HeaderAfter(k), k + 1, {k + 2});
  }

  /** What node `k + 1` does with the copy that reaches it. */
  lemma NodeForwards(k: nat)
    requires 0 < k < TWO32 - 1
    ensures var n, c := Fresh(k + 1), CopyTo(k);
            && FloodOf(c.h) == FLOOD && c.h.hopCount == (k - 1) % TWO8
            && n.Accepts(c.h, k, 0)
            && RecvRreq(n, c.h, k, 0).1 == [Broadcast(HeaderAfter(k))]
  {
    FirstRequest();
    NextHeader(k);
    if k > 1 {
      NextHeader(k - 1);
    }
    hide HeaderAfter, Node.Accepts;
    FreshNodeForwards(k + 1, HeaderAfter(k - 1), k);
    hide RecvRreq;
  }

  /** Who is where before the copy is delivered to node `k + 1`, and the copy fits. */
  lemma BeforeDelivery(s: Net, k: nat, size: uint32)
    requires 0 < k < size && Arrived(s, k - 1, size)
    ensures Enabled(s, Deliver(CopyTo(k), Hearers(k, size)))
    ensures s.nodes[k + 1] == Fresh(k + 1) && CopyFits(CopyTo(k), s.AcceptancesOf(FLOOD), FLOOD)
    ensures DepthOf(s.AcceptancesOf(FLOOD), 1, k) == k - 1
  {
    NodeForwards(k);
    hide HeaderAfter, RecvRreq, Node.Accepts;
  }

  lemma ArrivedNext(s: Net, k: nat, size: uint32)
    requires 0 < k < size && Arrived(s, k - 1, size)
    ensures Enabled(s, Deliver(CopyTo(k), Hearers(k, size)))
    ensures Arrived(Apply(s, Deliver(CopyTo(k), Hearers(k, size))), k, size)
  {
    hide RecvRreq, Node.Accepts, HeaderAfter, Flood.RecordOf, Delivered, Sent, Hearers, Enabled, CopyFits, DepthOf;
    var c := CopyTo(k);
    BeforeDelivery(s, k, size);
    NodeForwards(k);
    RecordOfDelivery(s, c, Hearers(k, size));
    RecordIsOneHopOn(s.nodes[k + 1], c, s.AcceptancesOf(FLOOD), 0);
    DeliveredOnTime(s, c, Hearers(k, size));
    if k + 1 < size {
      SendsNext(k, size);
    }
  }

  lemma DeliveredOnTime(s: Net, c: Copy, hearers: set<Address>)
    requires c.receiver in s.nodes && FloodOf(c.h) in s.started && s.now <= s.started[FloodOf(c.h)] + s.lifetime
    ensures Delivered(s, c, hearers).stale == s.stale
  {
    hide RecvRreq, Sent;
  }

  lemma NextHeader(k: nat)
    requires k > 0
    ensures Hopped(HeaderAfter(k - 1)) == HeaderAfter(k)
    ensures HeaderAfter(k).dst == HeaderAfter(0).dst && FloodOf(HeaderAfter(k)) == FloodOf(HeaderAfter(0))
    ensures HeaderAfter(k).hopCount == k % TWO8
  {
    hide SendRequest;
    DepthWraps(k - 1);
  }

  lemma {:induction false} DownTheLineArrives(k: nat, size: uint32)
    requires k < size && size >= 2
    ensures IsRun(Line(size), DownTheLine(k, size))
    ensures Arrived(Exec(Line(size), DownTheLine(k, size)), k, size)
  {
    hide *;
    if k == 0 {
      ArrivedFirst(size);
    } else {
      var front, step := DownTheLine(k - 1, size), Deliver(CopyTo(k), Hearers(k, size));
      DownTheLineArrives(k - 1, size);
      ArrivedNext(Exec(Line(size), front), k, size);
      RunExtends(Line(size), front, step);
      OneFurther(k, size);
    }
  }

  lemma OneFurther(k: nat, size: uint32)
    requires 0 < k < size
    ensures DownTheLine(k, size) == DownTheLine(k - 1, size) + [Deliver(CopyTo(k), Hearers(k, size))]
  {
  }

  lemma LineAtRest(size: uint32)
    ensures |Line(size).nodes| == size && Initial(Line(size))
  {
    NodesOfLine(size);
  }

  /** In a network of this size every recorded hop count is the distance to the originator, in every reachable state. */
  ghost predicate HopCountsExact(size: nat) {
    forall s0, steps, f, m ::
      Initial(s0) && |s0.nodes| == size && IsRun(s0, steps)
      && f in Exec(s0, steps).started && f !in Exec(s0, steps).stale && m in Exec(s0, steps).AcceptancesOf(f) ==>
        PathOfLength(Exec(s0, steps).AcceptancesOf(f), f.0, m, Exec(s0, steps).AcceptancesOf(f)[m].hops)
  }

  /**
   The hop count is the distance in every run of every network of a given size, if and
   only if the network has at most 256 nodes: in a line of 257 the hop count wraps.
   */
  lemma HopCountsExactIffSmall(size: uint32)
    ensures HopCountsExact(size) <==> size <= TWO8
  {
    if size <= TWO8 {
      forall s0, steps, f, m |
        && Initial(s0) && |s0.nodes| == size && IsRun(s0, steps)
        && f in Exec(s0, steps).started && f !in Exec(s0, steps).stale && m in Exec(s0, steps).AcceptancesOf(f)
        ensures PathOfLength(Exec(s0, steps).AcceptancesOf(f), f.0, m, Exec(s0, steps).AcceptancesOf(f)[m].hops)
      {
        hide *;
        HopCountIsDistance(s0, steps, f, m);
      }
    } else {
      HopCountWraps(size);
      LineAtRest(size);
      hide Line, Exec, IsRun, Initial, DownTheLine, PathOfLength, Net.AcceptancesOf;
    }
  }

  /** The 257th node is not the originator, but says it is no hops away. */
  lemma HopCountWraps(size: uint32)
    requires size > TWO8
    ensures IsRun(Line(size), DownTheLine(TWO8, size))
    ensures var s := Exec(Line(size), DownTheLine(TWO8, size));
            && FLOOD in s.started && FLOOD !in s.stale && 257 in s.AcceptancesOf(FLOOD)
            && s.AcceptancesOf(FLOOD)[257].depth == 256 && s.AcceptancesOf(FLOOD)[257].hops == 0
            && !PathOfLength(s.AcceptancesOf(FLOOD), FLOOD.0, 257, s.AcceptancesOf(FLOOD)[257].hops)
  {
    DownTheLineArrives(TWO8, size);
    hide Line, Exec, IsRun, DownTheLine;
  }

  // ---------- there and back ----------

  function ThereActions(): seq<ProtocolRuns.Action> {
    [ProtocolRuns.Network(Originate(1, 0, {2})), ProtocolRuns.Network(Deliver(CopyTo(1), {}))]
  }

  lemma ThereIsRun()
    ensures ProtocolRuns.IsRun(Line(2), ThereActions())
    ensures Arrived(ProtocolRuns.Perform(Line(2), ThereActions()), 1, 2)
    ensures LiveRoutes.Undisturbed(Line(2), ThereActions(), FLOOD)
  {
    hide Arrived, Apply, Enabled, CopyTo, Line, FreshNodes, Hearers;
    var s0, acts := Line(2), ThereActions();
    FirstStep(2);
    assert Hearers(0, 2) == {2} && Hearers(1, 2) == {} by { LineEnds(); }
    var s1 := Apply(s0, Originate(1, 0, {2}));
    ArrivedNext(s1, 1, 2);
    assert acts[..1] == [acts[0]] && acts[..1][..0] == [];
    CopyOfFirst();
    ThereLeavesFlood(s0, s1);
  }

  lemma LineEnds()
    ensures Hearers(0, 2) == {2} && Hearers(1, 2) == {}
  {
  }

  lemma CopyOfFirst()
    ensures FloodOf(CopyTo(1).h) == FLOOD
  {
    hide SendRequest;
    FirstRequest();
  }

  lemma ThereLeavesFlood(s0: Net, s1: Net)
    ensures LiveRoutes.LeavesFlood(s0, ThereActions()[0], FLOOD)
    ensures LiveRoutes.LeavesFlood(s1, ThereActions()[1], FLOOD)
  {
    hide Node.Accepts, CopyTo;
    CopyOfFirst();
  }

  lemma ThereIsTimely()
    ensures LiveRoutes.TimelyTrip(Line(2), ThereActions(), FLOOD, 2, [2], DefaultConfig())
  {
    hide Line, ProtocolRuns.IsRun, ProtocolRuns.Perform, LiveRoutes.Undisturbed, FreshNodes, CopyTo, Initial;
    ThereIsRun();
    LineAtRest(2);
    LineConfig(2);
    NodeRuns.DefaultIsDerived();
    assert ThereActions()[..2] == ThereActions();
  }

  lemma LineConfig(size: uint32)
    ensures forall a :: a in Line(size).nodes ==> Line(size).nodes[a].cfg == DefaultConfig()
  {
    NodesOfLine(size);
  }

  /** Two nodes: the request reaches node 2, and a reply sent there and then is led back to node 1. */
  lemma ThereAndBack()
    ensures LiveRoutes.TimelyTrip(Line(2), ThereActions(), FLOOD, 2, [2], DefaultConfig())
    ensures LiveRoutes.ReplyAt(Line(2), ThereActions(), FLOOD.0, 2, [2], 1) == 1
  {
    hide Line, ThereActions, DefaultConfig;
    ThereIsTimely();
    LiveRoutes.LiveTablesLeadBack(Line(2), ThereActions(), FLOOD, 2, [2], DefaultConfig());
  }
}
