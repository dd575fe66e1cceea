/**
 The reverse path of a flood as the nodes' tables hold it, and not only as it was
 recorded: a reply that is not too slow is led back to the originator by the tables the
 nodes have when it passes, while the network goes on running.
 */
module LiveRoutes {
  import opened Types
  import opened Tables
  import opened Nodes
  import opened Flood
  import opened ProtocolRuns
  import FloodRuns
  import NodeRuns

  // ---------- what an action does to a flood ----------

  /** The action is the delivery of a copy of the flood to a node that accepts it. */
  predicate AcceptsCopy(s: Net, a: Action, f: FloodId) {
    && a.Network? && a.step.Deliver? && FloodOf(a.step.c.h) == f && a.step.c.receiver in s.nodes
    && s.nodes[a.step.c.receiver].Accepts(a.step.c.h, a.step.c.sender, s.now)
  }

  /** The acceptances of a flood after an action: one more, by a node that had none, or the same. */
  lemma AcceptancesAfter(s: Net, a: Action, f: FloodId)
    requires Inv(s) && Allowed(s, a) && f !in Apply(s, AsStep(s, a)).stale
    ensures f !in s.stale
    ensures var acc, acc' := s.AcceptancesOf(f), Apply(s, AsStep(s, a)).AcceptancesOf(f);
            if AcceptsCopy(s, a, f) then
              var c := a.step.c;
              c.receiver !in acc && acc' == acc[c.receiver := Flood.RecordOf(s.nodes[c.receiver], c, acc, s.now)]
            else acc' == acc
  {
    hide Inv, RecvRreq, SendRequest, Delivered, Originated, Node.Accepts, LocalStep, Net.AcceptancesOf;
    hide Flood.RecordOf, FloodRuns.Unseen;
    match a {
      case Local(n, op) => QuietStepNodes(s, AsStep(s, a), f);
      case Network(step) =>
        match step {
          case Originate(n, dst, hearers) => OriginatedParts(s, n, dst, hearers, f);
          case Deliver(c, hearers) =>
            RecordOfDelivery(s, c, hearers);
            if AcceptsCopy(s, a, f) {
              FloodRuns.AcceptingNodeWasUnseen(s, c, hearers);
              UnseenHasNot(s, f, c.receiver);
            }
          case _ => QuietStepNodes(s, step, f);
        }
    }
  }

  lemma UnseenHasNot(s: Net, f: FloodId, m: Address)
    requires m in FloodRuns.Unseen(s, f)
    ensures m !in s.AcceptancesOf(f)
  {
  }

  // ---------- the live entry ----------

  /** Until when the entry an acceptance wrote is sure to stay, even if it is invalidated meanwhile. */
  function Deadline(cfg: Config, a: Acceptance): Time {
    var lifetime := MinimalLifetime(cfg, a.hops % TWO8);
    a.at + if lifetime < cfg.deletePeriod then lifetime else cfg.deletePeriod
  }

  /** The table still holds what the acceptance recorded, until the deadline at least. */
  predicate LiveRow(n: Node, origin: Address, a: Acceptance) {
    && origin in n.table
    && n.table[origin].via == a.nextHop && n.table[origin].hops == a.hops
    && Deadline(n.cfg, a) <= n.table[origin].lifeTime
  }

  ghost predicate LiveUntilDeadline(n: Node, origin: Address, a: Acceptance, now: Time) {
    a.at <= now && (now <= Deadline(n.cfg, a) ==> LiveRow(n, origin, a))
  }

  ghost predicate LiveInv(s: Net, f: FloodId) {
    forall m :: m in s.AcceptancesOf(f) ==>
      m in s.nodes && LiveUntilDeadline(s.nodes[m], f.0, s.AcceptancesOf(f)[m], s.now)
  }

  /** No node accepts another flood of the same originator, or deletes its entry. */
  predicate LeavesFlood(s: Net, a: Action, f: FloodId) {
    && !(a.Local? && a.op == NodeRuns.Delete(f.0))
    && (a.Network? && a.step.Deliver? && a.step.c.h.origin == f.0 && FloodOf(a.step.c.h) != f ==>
          !AcceptsCopy(s, a, FloodOf(a.step.c.h)))
  }

  /** An operation at a node that has accepted the flood keeps its entry until the deadline. */
  lemma OperationKeepsLive(n: Node, o: NodeRuns.TimedOp, origin: Address, a: Acceptance)
    requires n.cfg.deletePeriod >= 0 && LiveUntilDeadline(n, origin, a, o.now) && NodeRuns.LeavesAlone(n, o, origin)
    ensures NodeRuns.Step(n, o).cfg == n.cfg && LiveUntilDeadline(NodeRuns.Step(n, o), origin, a, o.now)
  {
    hide NodeRuns.Step, NodeRuns.LeavesAlone, MinimalLifetime;
    NodeRuns.StepConfig(n, o);
    if o.now <= Deadline(n.cfg, a) {
      NodeRuns.StepKeepsUnexpired(n, o, origin, Deadline(n.cfg, a));
    }
  }

  lemma AcceptanceIsLive(n: Node, c: Copy, acc: Acceptances, now: Time)
    requires n.cfg.deletePeriod >= 0 && n.Accepts(c.h, c.sender, now)
    ensures var n' := RecvRreq(n, c.h, c.sender, now).0;
            n'.cfg == n.cfg && LiveUntilDeadline(n', c.h.origin, Flood.RecordOf(n, c, acc, now), now)
  {
    hide RecvRreq, Node.Accepts, MinimalLifetime;
    NodeRuns.ReceivedConfig(n, c.h, c.sender, now);
    ReverseRouteRecorded(n, c.h, c.sender, now);
  }

  /** What a node that had accepted the flood does in an action leaves the flood's entry alone. */
  lemma OperationLeavesAlone(s: Net, a: Action, f: FloodId, m: Address)
    requires Allowed(s, a) && LeavesFlood(s, a, f) && m in s.nodes && OpAt(s, a, m) != []
    requires !(AcceptsCopy(s, a, f) && a.step.c.receiver == m)
    ensures NodeRuns.LeavesAlone(s.nodes[m], OpAt(s, a, m)[0], f.0) && OpAt(s, a, m)[0].now == s.now
  {
    hide Node.Accepts;
  }

  lemma LiveKept(s: Net, a: Action, f: FloodId)
    requires Inv(s) && Allowed(s, a) && LiveInv(s, f) && LeavesFlood(s, a, f) && f !in Apply(s, AsStep(s, a)).stale
    ensures LiveInv(Apply(s, AsStep(s, a)), f)
  {
    hide Inv, Apply, AsStep, LiveUntilDeadline, LeavesFlood, Node.Accepts, Flood.RecordOf, RecvRreq, OpAt;
    hide Net.AcceptancesOf, NodeRuns.Step;
    var s' := Apply(s, AsStep(s, a));
    AcceptancesAfter(s, a, f);
    NowAfter(s, a);
    forall m | m in s'.AcceptancesOf(f)
      ensures m in s'.nodes && LiveUntilDeadline(s'.nodes[m], f.0, s'.AcceptancesOf(f)[m], s'.now)
    {
      if AcceptsCopy(s, a, f) && a.step.c.receiver == m {
        LiveAtAcceptor(s, a, f);
      } else {
        LiveElsewhere(s, a, f, m);
      }
    }
  }

  lemma NowAfter(s: Net, a: Action)
    requires Allowed(s, a)
    ensures Apply(s, AsStep(s, a)).now >= s.now
    ensures a.Network? && a.step.Deliver? ==> Apply(s, AsStep(s, a)).now == s.now
  {
    hide RecvRreq, SendRequest, Sent, Flood.RecordOf, LocalStep;
  }

  lemma LiveLater(n: Node, origin: Address, a: Acceptance, now: Time, later: Time)
    requires LiveUntilDeadline(n, origin, a, now) && now <= later
    ensures LiveUntilDeadline(n, origin, a, later)
  {
  }

  lemma LiveAtAcceptor(s: Net, a: Action, f: FloodId)
    requires Inv(s) && Allowed(s, a) && AcceptsCopy(s, a, f) && f !in Apply(s, AsStep(s, a)).stale
    ensures var s', m := Apply(s, AsStep(s, a)), a.step.c.receiver;
            && m in s'.nodes && m in s'.AcceptancesOf(f)
            && LiveUntilDeadline(s'.nodes[m], f.0, s'.AcceptancesOf(f)[m], s'.now)
  {
    hide Inv, Apply, AsStep, LiveUntilDeadline, Flood.RecordOf, RecvRreq, Net.AcceptancesOf;
    var c := a.step.c;
    AcceptancesAfter(s, a, f);
    NowAfter(s, a);
    ActionAtNode(s, a, c.receiver);
    ConfigHere(s, c.receiver);
    AcceptanceIsLive(s.nodes[c.receiver], c, s.AcceptancesOf(f), s.now);
  }

  lemma ConfigHere(s: Net, m: Address)
    requires Inv(s) && m in s.nodes
    ensures s.nodes[m].cfg.deletePeriod >= 0
  {
    ConfigOf(s, m);
  }

  lemma LiveElsewhere(s: Net, a: Action, f: FloodId, m: Address)
    requires Inv(s) && Allowed(s, a) && LiveInv(s, f) && LeavesFlood(s, a, f) && m in s.AcceptancesOf(f)
    requires !(AcceptsCopy(s, a, f) && a.step.c.receiver == m)
    ensures var s' := Apply(s, AsStep(s, a));
            m in s'.nodes && LiveUntilDeadline(s'.nodes[m], f.0, s.AcceptancesOf(f)[m], s'.now)
  {
    hide Inv, Allowed, Apply, AsStep, LiveUntilDeadline, LeavesFlood, AcceptsCopy, OpAt, Net.AcceptancesOf;
    hide NodeRuns.Step, NodeRuns.LeavesAlone;
    var x := s.AcceptancesOf(f)[m];
    ActionAtNode(s, a, m);
    ConfigHere(s, m);
    NowAfter(s, a);
    if OpAt(s, a, m) != [] {
      OperationLeavesAlone(s, a, f, m);
      OperationKeepsLive(s.nodes[m], OpAt(s, a, m)[0], f.0, x);
    }
    LiveLater(Apply(s, AsStep(s, a)).nodes[m], f.0, x, s.now, Apply(s, AsStep(s, a)).now);
  }

  // ---------- over a run ----------

  /** Nothing in the run replaces or deletes an entry that the flood wrote. */
  predicate Undisturbed(s: Net, acts: seq<Action>, f: FloodId)
    requires ProtocolRuns.IsRun(s, acts)
  {
    acts == []
    || (Undisturbed(s, acts[..|acts| - 1], f) && LeavesFlood(Perform(s, acts[..|acts| - 1]), acts[|acts| - 1], f))
  }

  /** The network after the first `i` actions. */
  function StateAt(s: Net, acts: seq<Action>, i: nat): Net
    requires ProtocolRuns.IsRun(s, acts) && i <= |acts|
  {
    PrefixIsRun(s, acts, i);
    Perform(s, acts[..i])
  }

  lemma StateAtFront(s: Net, acts: seq<Action>, i: nat)
    requires ProtocolRuns.IsRun(s, acts) && acts != [] && i < |acts|
    ensures ProtocolRuns.IsRun(s, acts[..|acts| - 1])
    ensures StateAt(s, acts, i) == StateAt(s, acts[..|acts| - 1], i)
    ensures StateAt(s, acts, |acts|) == Perform(s, acts)
  {
    hide Allowed, Perform;
    assert acts[..|acts| - 1][..i] == acts[..i] && acts[..|acts|] == acts;
  }

  lemma AtRestIsLive(s: Net, f: FloodId)
    requires Initial(s)
    ensures LiveInv(s, f) && s.AcceptancesOf(f) == map[]
  {
  }

  /** While the flood is not stale and nothing disturbs it, its live entries are good until their deadlines. */
  lemma {:induction false} RunKeepsLive(s0: Net, acts: seq<Action>, f: FloodId)
    requires Initial(s0) && ProtocolRuns.IsRun(s0, acts) && Undisturbed(s0, acts, f) && f !in Perform(s0, acts).stale
    ensures LiveInv(Perform(s0, acts), f) && Inv(Perform(s0, acts))
  {
    hide Initial, Allowed, Apply, AsStep, LiveInv, LeavesFlood, Inv;
    ReachableInv(s0, acts);
    if acts == [] {
      AtRestIsLive(s0, f);
    } else {
      var front, last := acts[..|acts| - 1], acts[|acts| - 1];
      ReachableInv(s0, front);
      AcceptancesAfter(Perform(s0, front), last, f);
      RunKeepsLive(s0, front, f);
      LiveKept(Perform(s0, front), last, f);
    }
  }

  lemma {:induction false} ConfigsKept(s0: Net, acts: seq<Action>, m: Address)
    requires ProtocolRuns.IsRun(s0, acts) && m in s0.nodes
    ensures m in Perform(s0, acts).nodes && Perform(s0, acts).nodes[m].cfg == s0.nodes[m].cfg
  {
    hide Allowed, Apply, AsStep, OpAt, NodeRuns.Step;
    if acts != [] {
      var front, last := acts[..|acts| - 1], acts[|acts| - 1];
      ConfigsKept(s0, front, m);
      ActionAtNode(Perform(s0, front), last, m);
      if OpAt(Perform(s0, front), last, m) != [] {
        NodeRuns.StepConfig(Perform(s0, front).nodes[m], OpAt(Perform(s0, front), last, m)[0]);
      }
    }
  }

  /** What was accepted stays accepted as it was. */
  ghost predicate Extends(acc: Acceptances, acc': Acceptances) {
    forall m :: m in acc ==> m in acc' && acc'[m] == acc[m]
  }

  /** Earlier states of the run are reachable, undisturbed, not stale, and their acceptances are kept. */
  lemma {:induction false} EarlierStates(s0: Net, acts: seq<Action>, f: FloodId, i: nat)
    requires Initial(s0) && ProtocolRuns.IsRun(s0, acts) && Undisturbed(s0, acts, f) && f !in Perform(s0, acts).stale
    requires i <= |acts|
    ensures LiveInv(StateAt(s0, acts, i), f) && Inv(StateAt(s0, acts, i)) && f !in StateAt(s0, acts, i).stale
    ensures Extends(StateAt(s0, acts, i).AcceptancesOf(f), Perform(s0, acts).AcceptancesOf(f))
  {
    hide Initial, Allowed, Apply, AsStep, LiveInv, LeavesFlood, Inv, Net.AcceptancesOf, Flood.RecordOf;
    RunKeepsLive(s0, acts, f);
    if i == |acts| {
      assert acts[..i] == acts;
    } else {
      var front, last := acts[..|acts| - 1], acts[|acts| - 1];
      ReachableInv(s0, front);
      AcceptancesAfter(Perform(s0, front), last, f);
      StateAtFront(s0, acts, i);
      EarlierStates(s0, front, f, i);
    }
  }

  lemma {:induction false} UndisturbedPrefix(s: Net, acts: seq<Action>, f: FloodId, j: nat)
    requires ProtocolRuns.IsRun(s, acts) && Undisturbed(s, acts, f) && j <= |acts|
    ensures ProtocolRuns.IsRun(s, acts[..j]) && Undisturbed(s, acts[..j], f)
  {
    hide Allowed, LeavesFlood, Perform;
    PrefixIsRun(s, acts, j);
    if j < |acts| {
      assert acts[..|acts| - 1][..j] == acts[..j];
      UndisturbedPrefix(s, acts[..|acts| - 1], f, j);
    } else {
      assert acts[..j] == acts;
    }
  }

  lemma AcceptedStays(s0: Net, acts: seq<Action>, f: FloodId, i: nat, j: nat)
    requires Initial(s0) && ProtocolRuns.IsRun(s0, acts) && Undisturbed(s0, acts, f) && f !in Perform(s0, acts).stale
    requires i <= j <= |acts|
    ensures Extends(StateAt(s0, acts, i).AcceptancesOf(f), StateAt(s0, acts, j).AcceptancesOf(f))
  {
    hide Initial, Allowed, Undisturbed, Extends, Perform, Net.AcceptancesOf;
    EarlierStates(s0, acts, f, j);
    UndisturbedPrefix(s0, acts, f, j);
    assert acts[..j][..i] == acts[..i];
    EarlierStates(s0, acts[..j], f, i);
  }

  // ---------- the reply ----------

  /** Where a node sends a reply for `origin`: its next hop after a purge, or nowhere. */
  function NextHop(s: Net, m: Address, origin: Address): Address {
    if m in s.nodes && origin in s.nodes[m].Purged(s.now) then s.nodes[m].Purged(s.now)[origin].via else m
  }

  /** The reply makes its hop number `i` after `when[i]` actions of the run. */
  predicate InTheRun(acts: seq<Action>, when: seq<nat>) {
    && (forall i :: 0 <= i < |when| ==> when[i] <= |acts|)
    && (forall i, j :: 0 <= i < j < |when| ==> when[i] <= when[j])
  }

  /** Where a reply that starts at `m` is after `i` hops, each by the table its node has at that moment. */
  function ReplyAt(s0: Net, acts: seq<Action>, origin: Address, m: Address, when: seq<nat>, i: nat): Address
    requires ProtocolRuns.IsRun(s0, acts) && InTheRun(acts, when) && i <= |when|
  {
    if i == 0 then m
    else NextHop(StateAt(s0, acts, when[i - 1]), ReplyAt(s0, acts, origin, m, when, i - 1), origin)
  }

  /** Each hop out to `m` took at most the node traversal time. */
  ghost predicate TimelyOut(acc: Acceptances, m: Address, cfg: Config)
    requires m in acc
  {
    forall i: nat ::
      (i + 1 < acc[m].depth && FloodRuns.Follow(acc, m, i) in acc && FloodRuns.Follow(acc, m, i + 1) in acc)
      ==> acc[FloodRuns.Follow(acc, m, i)].at <= acc[FloodRuns.Follow(acc, m, i + 1)].at + cfg.nodeTraversalTime
  }

  /** The reply leaves when the request arrives, and waits at most the node traversal time at each hop. */
  predicate TimelyBack(s0: Net, acts: seq<Action>, when: seq<nat>, start: Time, cfg: Config)
    requires ProtocolRuns.IsRun(s0, acts) && InTheRun(acts, when)
  {
    && (|when| > 0 ==> StateAt(s0, acts, when[0]).now <= start)
    && forall i :: 0 <= i < |when| - 1 ==>
         StateAt(s0, acts, when[i + 1]).now <= StateAt(s0, acts, when[i]).now + cfg.nodeTraversalTime
  }

  lemma {:induction false} FollowOneMore(acc: Acceptances, m: Address, k: nat)
    requires FloodRuns.Follow(acc, m, k) in acc
    ensures FloodRuns.Follow(acc, m, k + 1) == acc[FloodRuns.Follow(acc, m, k)].nextHop
    decreases k
  {
    if k > 0 && m in acc {
      FollowOneMore(acc, acc[m].nextHop, k - 1);
    }
  }

  /** One hop of a reply that is in time. */
  lemma HopBack(s: Net, f: FloodId, m: Address)
    requires Inv(s) && LiveInv(s, f) && m in s.AcceptancesOf(f)
    requires m in s.nodes && s.now <= Deadline(s.nodes[m].cfg, s.AcceptancesOf(f)[m])
    ensures NextHop(s, m, f.0) == s.AcceptancesOf(f)[m].nextHop
  {
    hide Inv, Net.AcceptancesOf, Deadline, Purge;
    PurgeKeepsUnexpired(s.nodes[m].table, s.nodes[m].cfg.deletePeriod, s.now, f.0);
  }

  /** `k` hops from the end of the way out, the deadline leaves time for the rest of the way out and back. */
  lemma DeadlineCovers(cfg: Config, a: Acceptance, depth: nat, k: nat)
    requires NodeRuns.RoundTripCovered(cfg, depth) && k < depth < TWO8 && a.hops == depth - k
    ensures a.at + NodeRuns.RoundTrip(cfg, k) <= Deadline(cfg, a)
  {
    hide MinimalLifetime, NodeRuns.RoundTrip;
    NodeRuns.LifetimeCoversRoundTrip(cfg, depth - k, depth);
    NodeRuns.ShorterPath(cfg, k, depth);
  }

  /**
   A request that reaches `m` in time and a reply that starts there at once: the flood
   is not stale and nothing else of the originator is accepted or deleted, every node
   has the same timing constants, and these cover the round trip.
   */
  ghost predicate TimelyTrip(s0: Net, acts: seq<Action>, f: FloodId, m: Address, when: seq<nat>, cfg: Config) {
    && Initial(s0) && ProtocolRuns.IsRun(s0, acts) && InTheRun(acts, when)
    && Undisturbed(s0, acts, f) && f !in Perform(s0, acts).stale
    && (forall a :: a in s0.nodes ==> s0.nodes[a].cfg == cfg)
    && var acc := Perform(s0, acts).AcceptancesOf(f);
       && m in acc && |when| == acc[m].depth < TWO8 && NodeRuns.RoundTripCovered(cfg, acc[m].depth)
       && (when != [] ==> m in StateAt(s0, acts, when[0]).AcceptancesOf(f))
       && TimelyOut(acc, m, cfg) && TimelyBack(s0, acts, when, acc[m].at, cfg)
  }

  /** The final tree of the flood, and what it says of the node `i` hops back from `m`. */
  lemma OnTheWayBack(s0: Net, acts: seq<Action>, f: FloodId, m: Address, i: nat)
    requires Initial(s0) && ProtocolRuns.IsRun(s0, acts) && f !in Perform(s0, acts).stale
    requires m in Perform(s0, acts).AcceptancesOf(f) && i <= Perform(s0, acts).AcceptancesOf(f)[m].depth < TWO8
    ensures var acc := Perform(s0, acts).AcceptancesOf(f);
            var x := FloodRuns.Follow(acc, m, i);
            if i == acc[m].depth then x == f.0
            else x in acc && x != f.0 && acc[x].hops == acc[m].depth - i
                 && FloodRuns.Follow(acc, m, i + 1) == acc[x].nextHop
  {
    hide Initial, Allowed, ProtocolRuns.IsRun, Perform, Net.AcceptancesOf, Inv;
    ReachableInv(s0, acts);
    var s := Perform(s0, acts);
    var acc := s.AcceptancesOf(f);
    AcceptedIsStarted(s, f, m);
    FloodRuns.TreeOf(s, f);
    PathBack(acc, f.0, m, i);
  }

  lemma PathBack(acc: Acceptances, origin: Address, m: Address, i: nat)
    requires TreeShaped(acc, origin) && m in acc && i <= acc[m].depth < TWO8
    ensures var x := FloodRuns.Follow(acc, m, i);
            if i == acc[m].depth then x == origin
            else x in acc && x != origin && acc[x].hops == acc[m].depth - i
                 && FloodRuns.Follow(acc, m, i + 1) == acc[x].nextHop
  {
    hide FloodRuns.Follow;
    FloodRuns.OriginNeverAccepts(acc, origin);
    FloodRuns.FollowDescends(acc, origin, m, i);
    var x := FloodRuns.Follow(acc, m, i);
    if i < acc[m].depth {
      FloodRuns.HopsOfAcceptance(acc, origin, x);
      FollowOneMore(acc, m, i);
    }
  }

  lemma AcceptedIsStarted(s: Net, f: FloodId, m: Address)
    requires Inv(s) && m in s.AcceptancesOf(f)
    ensures f in s.started
  {
  }

  lemma NextHopAccepted(s: Net, f: FloodId, x: Address)
    requires Inv(s) && f !in s.stale && x in s.AcceptancesOf(f)
    ensures s.AcceptancesOf(f)[x].nextHop == f.0 || s.AcceptancesOf(f)[x].nextHop in s.AcceptancesOf(f)
  {
    hide Inv;
    AcceptedIsStarted(s, f, x);
    FloodRuns.TreeOf(s, f);
    assert BelowNextHop(s.AcceptancesOf(f), f.0, s.AcceptancesOf(f)[x]);
  }

  /** After `i` hops the reply is `i` hops back along the recorded path, at a node whose deadline it meets. */
  ghost predicate InPlace(s0: Net, acts: seq<Action>, f: FloodId, m: Address, when: seq<nat>, cfg: Config, i: nat)
    requires ProtocolRuns.IsRun(s0, acts) && InTheRun(acts, when) && i < |when|
  {
    var acc, s := Perform(s0, acts).AcceptancesOf(f), StateAt(s0, acts, when[i]);
    var x := FloodRuns.Follow(acc, m, i);
    && ReplyAt(s0, acts, f.0, m, when, i) == x
    && x in s.AcceptancesOf(f) && x in acc && s.AcceptancesOf(f)[x] == acc[x]
    && s.now <= acc[x].at + NodeRuns.RoundTrip(cfg, i)
  }

  /** From a node whose deadline it meets, the reply is sent to the recorded next hop. */
  lemma SentOn(s0: Net, acts: seq<Action>, f: FloodId, m: Address, when: seq<nat>, cfg: Config, i: nat)
    requires TimelyTrip(s0, acts, f, m, when, cfg) && i < |when| && InPlace(s0, acts, f, m, when, cfg, i)
    ensures ReplyAt(s0, acts, f.0, m, when, i + 1) == FloodRuns.Follow(Perform(s0, acts).AcceptancesOf(f), m, i + 1)
  {
    hide Initial, Allowed, ProtocolRuns.IsRun, Perform, StateAt, Net.AcceptancesOf, Inv, LiveInv, Undisturbed;
    hide NextHop, TimelyOut, TimelyBack, NodeRuns.RoundTripCovered, NodeRuns.RoundTrip, Deadline, Extends;
    hide FloodRuns.Follow;
    var acc, s := Perform(s0, acts).AcceptancesOf(f), StateAt(s0, acts, when[i]);
    var x := FloodRuns.Follow(acc, m, i);
    OnTheWayBack(s0, acts, f, m, i);
    EarlierStates(s0, acts, f, when[i]);
    SameConfig(s0, acts, f, when[i], x, cfg);
    DeadlineCovers(cfg, acc[x], acc[m].depth, i);
    HopBack(s, f, x);
  }

  lemma SameConfig(s0: Net, acts: seq<Action>, f: FloodId, i: nat, x: Address, cfg: Config)
    requires ProtocolRuns.IsRun(s0, acts) && i <= |acts| && (forall a :: a in s0.nodes ==> s0.nodes[a].cfg == cfg)
    requires Initial(s0) && LiveInv(StateAt(s0, acts, i), f) && x in StateAt(s0, acts, i).AcceptancesOf(f)
    ensures x in StateAt(s0, acts, i).nodes && StateAt(s0, acts, i).nodes[x].cfg == cfg
  {
    hide Initial, Allowed, Perform, Net.AcceptancesOf, LiveUntilDeadline;
    PrefixIsRun(s0, acts, i);
    ReachableInv(s0, acts[..i]);
    ConfigsKept(s0, acts[..i], x);
  }

  lemma {:induction false} ReplyInPlace(s0: Net, acts: seq<Action>, f: FloodId, m: Address, when: seq<nat>,
                                        cfg: Config, i: nat)
    requires TimelyTrip(s0, acts, f, m, when, cfg) && i < |when|
    ensures InPlace(s0, acts, f, m, when, cfg, i)
    decreases i
  {
    hide Initial, Allowed, ProtocolRuns.IsRun, Perform, StateAt, Net.AcceptancesOf, Inv, LiveInv, Undisturbed, NextHop;
    hide NodeRuns.RoundTripCovered, NodeRuns.RoundTrip;
    EarlierStates(s0, acts, f, when[i]);
    if i == 0 {
      NodeRuns.NoTime(cfg);
    } else {
      var acc := Perform(s0, acts).AcceptancesOf(f);
      var x := FloodRuns.Follow(acc, m, i - 1);
      ReplyInPlace(s0, acts, f, m, when, cfg, i - 1);
      SentOn(s0, acts, f, m, when, cfg, i - 1);
      OnTheWayBack(s0, acts, f, m, i - 1);
      OnTheWayBack(s0, acts, f, m, i);
      EarlierStates(s0, acts, f, when[i - 1]);
      NextHopAccepted(StateAt(s0, acts, when[i - 1]), f, x);
      AcceptedStays(s0, acts, f, when[i - 1], when[i]);
      NodeRuns.OneMoreHop(cfg, i - 1);
    }
  }

  /**
   The live tables, not only the recorded acceptances, lead a timely reply back. Of an
   originator with no second accepted flood: if every hop out and back takes at most the
   node traversal time and the timing constants cover the round trip, a reply that each
   node sends on by the table it has at that moment visits the recorded path and ends
   at the originator, whatever else happens in the network meanwhile.
   */
  lemma LiveTablesLeadBack(s0: Net, acts: seq<Action>, f: FloodId, m: Address, when: seq<nat>, cfg: Config)
    requires TimelyTrip(s0, acts, f, m, when, cfg)
    ensures forall i :: 0 <= i <= |when| ==>
              ReplyAt(s0, acts, f.0, m, when, i) == FloodRuns.Follow(Perform(s0, acts).AcceptancesOf(f), m, i)
    ensures ReplyAt(s0, acts, f.0, m, when, |when|) == f.0
  {
    hide Initial, Allowed, ProtocolRuns.IsRun, Perform, StateAt, Net.AcceptancesOf, NextHop, Undisturbed, TimelyOut;
    hide TimelyBack;
    hide NodeRuns.RoundTripCovered, NodeRuns.RoundTrip;
    var acc := Perform(s0, acts).AcceptancesOf(f);
    forall i | 0 <= i <= |when| ensures ReplyAt(s0, acts, f.0, m, when, i) == FloodRuns.Follow(acc, m, i) {
      if i > 0 {
        ReplyInPlace(s0, acts, f, m, when, cfg, i - 1);
        SentOn(s0, acts, f, m, when, cfg, i - 1);
      }
    }
    OnTheWayBack(s0, acts, f, m, |when|);
  }
}
