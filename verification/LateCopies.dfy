/**
 Why the tree of a flood needs its copies to be delivered within the lifetime of the id
 cache: one copy that is a millisecond later makes a cycle of the recorded next hops.
 */
module LateCopies {
  import opened Types
  import opened IdCaches
  import opened Nodes
  import opened Flood
  import opened FloodRuns
  import opened LineNetworks

  /** What node 3 sends back to node 2. */
  function BackCopy(): Copy {
    Copy(HeaderAfter(2), 3, 2)
  }

  /** Node 1 asks, node 2 passes it on, and node 2 hears node 3 pass it on after everybody has forgotten it. */
  function LateRun(): seq<Step> {
    [Originate(1, 0, {2}), Deliver(CopyTo(1), {3}), Deliver(CopyTo(2), {2}),
     Wait(DefaultConfig().pathDiscoveryTime + 1),
     Deliver(BackCopy(), {})]
  }

  /** Node 2 after it has first accepted the request. */
  function Second(): Node {
    RecvRreq(Fresh(2), HeaderAfter(0), 1, 0).0
  }

  /** The state when both other nodes have accepted, and the copy of node 3 is on its way back to node 2. */
  ghost predicate BothAccepted(s: Net) {
    && s.lifetime == DefaultConfig().pathDiscoveryTime && s.started == map[FLOOD := 0] && s.stale == {}
    && 2 in s.nodes && s.nodes[2] == Second()
    && BackCopy() in s.Copies(FLOOD)
    && 3 in s.AcceptancesOf(FLOOD) && s.AcceptancesOf(FLOOD)[3].nextHop == 2
  }

  lemma SecondAccepts(s: Net)
    requires Arrived(s, 0, 3)
    ensures Enabled(s, Deliver(CopyTo(1), {3}))
    ensures var s' := Apply(s, Deliver(CopyTo(1), {3})); Arrived(s', 1, 3) && s'.nodes[2] == Second()
  {
    hide Delivered, CopyTo, HeaderAfter, RecvRreq;
    LineOfThree();
    ArrivedNext(s, 1, 3);
    BeforeDelivery(s, 1, 3);
    CopyOne();
    RecordOfDelivery(s, CopyTo(1), {3});
  }

  lemma LineOfThree()
    ensures Hearers(0, 3) == {2} && Hearers(1, 3) == {3}
  {
  }

  lemma CopyOne()
    ensures CopyTo(1) == Copy(HeaderAfter(0), 1, 2) && CopyTo(2) == Copy(HeaderAfter(1), 2, 3)
    ensures FloodOf(CopyTo(1).h) == FloodOf(CopyTo(2).h) == FloodOf(BackCopy().h) == FLOOD
    ensures HeaderAfter(2).origin == 1 && HeaderAfter(2).requestId == 1
  {
    hide SendRequest;
    FirstRequest();
  }

  lemma ThirdAccepts(s: Net)
    requires Arrived(s, 1, 3) && s.nodes[2] == Second()
    ensures Enabled(s, Deliver(CopyTo(2), {2}))
    ensures var s' := Apply(s, Deliver(CopyTo(2), {2})); BothAccepted(s') && s'.now == 0
  {
    hide Delivered, CopyTo, HeaderAfter, RecvRreq, Second, Sent, Flood.RecordOf, Node.Accepts, CopyFits;
    BeforeDelivery(s, 2, 3);
    CopyOne();
    NodeForwards(2);
    RecordOfDelivery(s, CopyTo(2), {2});
    RecordIsOneHopOn(s.nodes[3], CopyTo(2), s.AcceptancesOf(FLOOD), 0);
    DeliveredOnTime(s, CopyTo(2), {2});
    BackIsSent();
  }

  lemma BackIsSent()
    ensures BackCopy() in Sent([Broadcast(HeaderAfter(2))], 3, {2})
  {
    hide HeaderAfter;
    assert BackCopy() in Fanout(HeaderAfter(2), 3, {2});
  }

  /** What node 2 remembers and stores after the first time. */
  lemma AfterFirst()
    ensures Second().cache == [UniqueId(1, 1, DefaultConfig().pathDiscoveryTime)]
    ensures Second().table.Keys == {1} && Second().cfg == DefaultConfig()
  {
    hide HeaderAfter, RecvRreq, Node.Accepts, ReverseEntry;
    CopyOne();
    FreshIsEmpty();
    FreshNodeForwards(2, HeaderAfter(0), 1);
    ReceiveEvents(Fresh(2), HeaderAfter(0), 1, 0);
    AcceptedTable(Fresh(2), HeaderAfter(0), 1, 0);
  }

  lemma FreshIsEmpty()
    ensures Fresh(2).Purged(0) == map[] && HeaderAfter(0).dst == 0
    ensures Remember([], 1, 1, 0, DefaultConfig().pathDiscoveryTime)
            == [UniqueId(1, 1, DefaultConfig().pathDiscoveryTime)]
  {
    hide SendRequest;
    FirstRequest();
    assert !IdCaches.Duplicate([], 1, 1, 0);
  }

  /** A millisecond after the lifetime has run out node 2 has forgotten the request. */
  lemma SecondForgets()
    ensures Second().Accepts(HeaderAfter(2), 3, DefaultConfig().pathDiscoveryTime + 1)
    ensures Second().cfg == DefaultConfig()
  {
    hide HeaderAfter, Second, RecvRreq;
    CopyOne();
    AfterFirst();
    assert Live(Second().cache, DefaultConfig().pathDiscoveryTime + 1) == [];
  }

  /** The last delivery: node 2 accepts again, from node 3, and the flood is stale. */
  lemma SecondAcceptsAgain(s: Net)
    requires BothAccepted(s) && s.now == DefaultConfig().pathDiscoveryTime + 1
    ensures Enabled(s, Deliver(BackCopy(), {}))
    ensures var s' := Apply(s, Deliver(BackCopy(), {}));
            && FLOOD in s'.started && FLOOD in s'.stale && 2 in s'.AcceptancesOf(FLOOD) && 3 in s'.AcceptancesOf(FLOOD)
            && s'.AcceptancesOf(FLOOD)[2].nextHop == 3 && s'.AcceptancesOf(FLOOD)[3].nextHop == 2
  {
    hide Delivered, HeaderAfter, RecvRreq, Second, Sent, Flood.RecordOf, Node.Accepts;
    CopyOne();
    SecondForgets();
    RecordOfDelivery(s, BackCopy(), {});
    LateIsStale(s, BackCopy(), {});
    RecordNextHop(s.nodes[2], BackCopy(), s.AcceptancesOf(FLOOD), s.now);
  }

  lemma LateIsStale(s: Net, c: Copy, hearers: set<Address>)
    requires c.receiver in s.nodes && FloodOf(c.h) in s.started && s.now > s.started[FloodOf(c.h)] + s.lifetime
    ensures FloodOf(c.h) in Delivered(s, c, hearers).stale
  {
    hide RecvRreq, Sent;
  }

  lemma RecordNextHop(n: Node, c: Copy, acc: Acceptances, now: Time)
    requires n.cfg.deletePeriod >= 0 && n.Accepts(c.h, c.sender, now)
    ensures Flood.RecordOf(n, c, acc, now).nextHop == c.sender
  {
    hide RecvRreq, Node.Accepts;
    ReverseRouteRecorded(n, c.h, c.sender, now);
  }

  lemma {:induction false} CycleNeverLeads(acc: Acceptances, m: Address, k: nat)
    requires 2 in acc && 3 in acc && acc[2].nextHop == 3 && acc[3].nextHop == 2 && (m == 2 || m == 3)
    ensures Follow(acc, m, k) == 2 || Follow(acc, m, k) == 3
    decreases k
  {
    if k > 0 {
      CycleNeverLeads(acc, acc[m].nextHop, k - 1);
    }
  }

  lemma LateIsRun()
    ensures IsRun(Line(3), LateRun())
    ensures var s := Exec(Line(3), LateRun());
            && FLOOD in s.started && FLOOD in s.stale && 2 in s.AcceptancesOf(FLOOD) && 3 in s.AcceptancesOf(FLOOD)
            && s.AcceptancesOf(FLOOD)[2].nextHop == 3 && s.AcceptancesOf(FLOOD)[3].nextHop == 2
  {
    hide IsRun, Exec, Apply, Enabled, Arrived, BothAccepted, Line, CopyTo, BackCopy, Net.AcceptancesOf, Second;
    var s0, run := Line(3), LateRun();
    LineOfThree();
    NoStep(s0);
    FirstStep(3);
    RunExtends(s0, [], run[0]);
    var s1 := Exec(s0, [] + [run[0]]);
    SecondAccepts(s1);
    RunExtends(s0, [] + [run[0]], run[1]);
    var s2 := Exec(s0, [] + [run[0]] + [run[1]]);
    ThirdAccepts(s2);
    RunExtends(s0, [] + [run[0]] + [run[1]], run[2]);
    var s3 := Exec(s0, [] + [run[0]] + [run[1]] + [run[2]]);
    Waits(s3);
    RunExtends(s0, [] + [run[0]] + [run[1]] + [run[2]], run[3]);
    var s4 := Exec(s0, [] + [run[0]] + [run[1]] + [run[2]] + [run[3]]);
    SecondAcceptsAgain(s4);
    RunExtends(s0, [] + [run[0]] + [run[1]] + [run[2]] + [run[3]], run[4]);
    assert [] + [run[0]] + [run[1]] + [run[2]] + [run[3]] + [run[4]] == run;
  }

  lemma Waits(s: Net)
    requires BothAccepted(s) && s.now == 0
    ensures var step := Wait(DefaultConfig().pathDiscoveryTime + 1);
            Enabled(s, step) && BothAccepted(Apply(s, step))
            && Apply(s, step).now == DefaultConfig().pathDiscoveryTime + 1
  {
    hide BackCopy, Second;
  }

  /**
   A run of three nodes in which a single copy is delivered one millisecond after the
   id-cache lifetime, and the recorded next hops then never lead to the originator.
   */
  lemma LateCopyMakesCycle()
    ensures Initial(Line(3)) && IsRun(Line(3), LateRun())
    ensures var s := Exec(Line(3), LateRun());
            && FLOOD in s.started && FLOOD in s.stale && 2 in s.AcceptancesOf(FLOOD)
            && forall k: nat :: Follow(s.AcceptancesOf(FLOOD), 2, k) != FLOOD.0
  {
    hide Line, IsRun, Exec, LateRun, Net.AcceptancesOf, Initial;
    LineAtRest(3);
    LateIsRun();
    var acc := Exec(Line(3), LateRun()).AcceptancesOf(FLOOD);
    forall k: nat ensures Follow(acc, 2, k) != FLOOD.0 {
      CycleNeverLeads(acc, 2, k);
    }
  }
}
