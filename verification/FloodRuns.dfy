/** What holds of a flood in every run of the network. */
module FloodRuns {
  import opened Types
  import opened Packets
  import opened Nodes
  import opened Flood

  // ---------- runs ----------

  predicate IsRun(s: Net, steps: seq<Step>)
    decreases |steps|, 0
  {
    steps == [] || (IsRun(s, steps[..|steps| - 1]) && Enabled(Exec(s, steps[..|steps| - 1]), steps[|steps| - 1]))
  }

  /** The network after the steps of a run. */
  function Exec(s: Net, steps: seq<Step>): Net
    requires IsRun(s, steps)
    decreases |steps|, 1
  {
    if steps == [] then s else Apply(Exec(s, steps[..|steps| - 1]), steps[|steps| - 1])
  }

  lemma RunExtends(s: Net, front: seq<Step>, step: Step)
    requires IsRun(s, front) && Enabled(Exec(s, front), step)
    ensures IsRun(s, front + [step]) && Exec(s, front + [step]) == Apply(Exec(s, front), step)
  {
    hide Enabled, Apply;
    assert (front + [step])[..|front|] == front;
  }

  lemma {:induction false} RunKeepsInv(s: Net, steps: seq<Step>)
    requires Inv(s) && IsRun(s, steps)
    ensures Inv(Exec(s, steps)) && Exec(s, steps).nodes.Keys == s.nodes.Keys
  {
    hide Inv, Apply, Enabled;
    if steps != [] {
      var front := steps[..|steps| - 1];
      RunKeepsInv(s, front);
      StepKeepsInv(Exec(s, front), steps[|steps| - 1]);
      NodesKept(Exec(s, front), steps[|steps| - 1]);
    }
  }

  lemma InitialInv(s: Net)
    requires Initial(s)
    ensures Inv(s)
  {
  }

  // ---------- reverse paths ----------

  /** Follow `k` recorded next hops from `m`. */
  function Follow(acc: Acceptances, m: Address, k: nat): Address
    decreases k
  {
    if k == 0 || m !in acc then m else Follow(acc, acc[m].nextHop, k - 1)
  }

  /** Every hop followed brings the depth down by one, and depth zero is the originator. */
  lemma {:induction false} FollowDescends(acc: Acceptances, origin: Address, m: Address, k: nat)
    requires TreeShaped(acc, origin) && (m == origin || m in acc) && k <= DepthOf(acc, origin, m)
    ensures Follow(acc, m, k) == origin || Follow(acc, m, k) in acc
    ensures DepthOf(acc, origin, Follow(acc, m, k)) == DepthOf(acc, origin, m) - k
    ensures Follow(acc, m, k) == origin <==> k == DepthOf(acc, origin, m)
    decreases k
  {
    if m in acc {
      assert BelowNextHop(acc, origin, acc[m]);
      if k > 0 {
        FollowDescends(acc, origin, acc[m].nextHop, k - 1);
      }
    }
  }

  /** The path from `m` to the originator that the recorded next hops make. */
  ghost predicate PathOfLength(acc: Acceptances, origin: Address, m: Address, length: nat) {
    && Follow(acc, m, length) == origin
    && (forall k: nat :: k < length ==> Follow(acc, m, k) in acc && Follow(acc, m, k) != origin)
    && (forall i: nat, j: nat :: i < j <= length ==> Follow(acc, m, i) != Follow(acc, m, j))
  }

  lemma PathToOrigin(acc: Acceptances, origin: Address, m: Address)
    requires TreeShaped(acc, origin) && m in acc
    ensures PathOfLength(acc, origin, m, acc[m].depth)
  {
    hide TreeShaped;
    forall k: nat | k <= acc[m].depth
      ensures DepthOf(acc, origin, Follow(acc, m, k)) == acc[m].depth - k
      ensures Follow(acc, m, k) == origin <==> k == acc[m].depth
      ensures Follow(acc, m, k) == origin || Follow(acc, m, k) in acc
    {
      assert m != origin by { OriginNeverAccepts(acc, origin); }
      FollowDescends(acc, origin, m, k);
    }
    hide DepthOf, Follow;
  }

  lemma OriginNeverAccepts(acc: Acceptances, origin: Address)
    requires TreeShaped(acc, origin)
    ensures origin !in acc
  {
  }

  lemma HopsOfAcceptance(acc: Acceptances, origin: Address, m: Address)
    requires TreeShaped(acc, origin) && m in acc
    ensures acc[m].hops == acc[m].depth % TWO8
    ensures acc[m].hops == acc[m].depth <==> acc[m].depth < TWO8
    ensures 0 < acc[m].depth <= |acc|
  {
    var a := acc[m];
    assert BelowNextHop(acc, origin, a);
    hide TreeShaped, DepthOf;
    ByteExactly(a.depth);
  }

  lemma ByteExactly(d: nat)
    ensures d % TWO8 == d <==> d < TWO8
  {
  }

  /**
   In every reachable state, from any node that accepted a flood which is not
   stale, the recorded next hops lead to the originator in exactly `depth` hops,
   visiting no node twice. The recorded hop count is that depth modulo 256, so it
   is the length of the path exactly when the path is shorter than 256 hops.
   */
  lemma ReversePathsFormTree(s0: Net, steps: seq<Step>, f: FloodId, m: Address)
    requires Initial(s0) && IsRun(s0, steps)
    requires f in Exec(s0, steps).started && f !in Exec(s0, steps).stale
    requires m in Exec(s0, steps).AcceptancesOf(f)
    ensures var acc := Exec(s0, steps).AcceptancesOf(f);
            && PathOfLength(acc, f.0, m, acc[m].depth)
            && acc[m].hops == acc[m].depth % TWO8
            && (acc[m].hops == acc[m].depth <==> acc[m].depth < TWO8)
            && 0 < acc[m].depth <= |acc|
  {
    hide Inv, Initial, IsRun, Exec, PathOfLength, TreeShaped, Net.AcceptancesOf;
    InitialInv(s0);
    RunKeepsInv(s0, steps);
    var acc := Exec(s0, steps).AcceptancesOf(f);
    TreeOf(Exec(s0, steps), f);
    PathToOrigin(acc, f.0, m);
    HopsOfAcceptance(acc, f.0, m);
  }

  lemma TreeOf(s: Net, f: FloodId)
    requires Inv(s) && f in s.started && f !in s.stale
    ensures TreeShaped(s.AcceptancesOf(f), f.0)
    ensures s.AcceptancesOf(f).Keys <= s.nodes.Keys && f.0 in s.nodes
  {
    assert FloodInv(s, f);
  }

  lemma SmallerSet<T>(a: set<T>, b: set<T>)
    requires a <= b
    ensures |a| <= |b|
  {
    assert b == a + (b - a);
  }

  /**
   With at most 256 nodes the hop count never wraps: following the next hops as
   many times as the recorded hop count says reaches the originator, and no sooner.
   */
  lemma HopCountIsDistance(s0: Net, steps: seq<Step>, f: FloodId, m: Address)
    requires Initial(s0) && IsRun(s0, steps) && |s0.nodes| <= TWO8
    requires f in Exec(s0, steps).started && f !in Exec(s0, steps).stale
    requires m in Exec(s0, steps).AcceptancesOf(f)
    ensures var acc := Exec(s0, steps).AcceptancesOf(f);
            PathOfLength(acc, f.0, m, acc[m].hops)
  {
    hide Inv, Initial, IsRun, Exec, PathOfLength, TreeShaped, Net.AcceptancesOf;
    ReversePathsFormTree(s0, steps, f, m);
    InitialInv(s0);
    RunKeepsInv(s0, steps);
    var s := Exec(s0, steps);
    TreeOf(s, f);
    var acc := s.AcceptancesOf(f);
    OriginNeverAccepts(acc, f.0);
    SmallerSet(acc.Keys + {f.0}, s0.nodes.Keys);
    assert |acc.Keys + {f.0}| == |acc.Keys| + 1;
    assert |acc| == |acc.Keys| && |s0.nodes| == |s0.nodes.Keys|;
  }

  // ---------- termination ----------

  /** The nodes that may still accept the flood. */
  function Unseen(s: Net, f: FloodId): set<Address> {
    s.nodes.Keys - s.AcceptancesOf(f).Keys - {f.0}
  }

  predicate Consumes(step: Step, f: FloodId) {
    (step.Deliver? || step.Lose?) && FloodOf(step.c.h) == f
  }

  predicate Repeats(step: Step, f: FloodId) {
    step.Duplicate? && FloodOf(step.c.h) == f
  }

  lemma {:induction false} FanoutSize(h: Rreq, sender: Address, hearers: set<Address>)
    ensures |Fanout(h, sender, hearers)| == |hearers|
  {
    if hearers != {} {
      var r :| r in hearers;
      FanoutSize(h, sender, hearers - {r});
      assert Fanout(h, sender, hearers) == Fanout(h, sender, hearers - {r}) + {Copy(h, sender, r)};
    }
  }

  lemma SentSize(events: seq<Event>, sender: Address, hearers: set<Address>, all: set<Address>)
    requires hearers <= all
    ensures |Sent(events, sender, hearers)| <= |all|
    ensures events == [] ==> Sent(events, sender, hearers) == multiset{}
  {
    if events != [] && events[0].Broadcast? {
      FanoutSize(events[0].h, sender, hearers);
      SmallerSet(hearers, all);
    }
  }

  /** In a flood that is not stale a node accepts only if it was unseen. */
  lemma AcceptingNodeWasUnseen(s: Net, c: Copy, hearers: set<Address>)
    requires Inv(s) && Enabled(s, Deliver(c, hearers)) && FloodOf(c.h) !in Delivered(s, c, hearers).stale
    requires s.nodes[c.receiver].Accepts(c.h, c.sender, s.now)
    ensures c.receiver in Unseen(s, FloodOf(c.h))
  {
    hide RecvRreq, Sent, Node.Accepts, Inv, Delivered, TreeShaped, CopiesFit, Remembers;
    var f := FloodOf(c.h);
    RecordOfDelivery(s, c, hearers);
    FloodInOrder(s, f);
    AcceptsOnlyNew(s.nodes[c.receiver], c, s.now, s.started[f] + s.lifetime);
  }

  lemma OneLess(a: set<Address>, b: set<Address>, m: Address)
    requires m in a && b == a - {m}
    ensures |b| == |a| - 1
  {
  }

  lemma UnseenAfterDelivery(s: Net, c: Copy, hearers: set<Address>)
    requires Inv(s) && Enabled(s, Deliver(c, hearers))
    ensures var f, s' := FloodOf(c.h), Delivered(s, c, hearers);
            Unseen(s', f) == if s.nodes[c.receiver].Accepts(c.h, c.sender, s.now)
                             then Unseen(s, f) - {c.receiver} else Unseen(s, f)
  {
    RecordOfDelivery(s, c, hearers);
    NodesKept(s, Deliver(c, hearers));
    hide RecvRreq, Sent, Node.Accepts, Inv, Delivered, Net.Copies, Net.AcceptancesOf;
  }

  lemma UnseenProgress(s: Net, c: Copy, hearers: set<Address>)
    requires Inv(s) && Enabled(s, Deliver(c, hearers)) && FloodOf(c.h) !in Delivered(s, c, hearers).stale
    ensures var f, s' := FloodOf(c.h), Delivered(s, c, hearers);
            if s.nodes[c.receiver].Accepts(c.h, c.sender, s.now) then |Unseen(s', f)| == |Unseen(s, f)| - 1
            else Unseen(s', f) == Unseen(s, f)
  {
    hide Inv, Delivered, Node.Accepts, Unseen;
    var f, s' := FloodOf(c.h), Delivered(s, c, hearers);
    UnseenAfterDelivery(s, c, hearers);
    if s.nodes[c.receiver].Accepts(c.h, c.sender, s.now) {
      AcceptingNodeWasUnseen(s, c, hearers);
      OneLess(Unseen(s, f), Unseen(s', f), c.receiver);
    }
  }

  lemma TakenAndSent(copies: multiset<Copy>, c: Copy, sent: multiset<Copy>)
    requires c in copies
    ensures |copies - multiset{c} + sent| == |copies| - 1 + |sent|
  {
  }

  lemma CopiesProgress(s: Net, c: Copy, hearers: set<Address>)
    requires Enabled(s, Deliver(c, hearers))
    ensures var f, s' := FloodOf(c.h), Delivered(s, c, hearers);
            if s.nodes[c.receiver].Accepts(c.h, c.sender, s.now)
            then |s'.Copies(f)| <= |s.Copies(f)| - 1 + |s.nodes|
            else |s'.Copies(f)| == |s.Copies(f)| - 1
  {
    var f, n := FloodOf(c.h), s.nodes[c.receiver];
    var events := RecvRreq(n, c.h, c.sender, s.now).1;
    ReceiveEvents(n, c.h, c.sender, s.now);
    RecordOfDelivery(s, c, hearers);
    hide RecvRreq, Sent, Node.Accepts, Delivered, Net.Copies, Net.AcceptancesOf;
    SentSize(events, c.receiver, hearers, s.nodes.Keys);
    TakenAndSent(s.Copies(f), c, Sent(events, c.receiver, hearers));
    assert |s.nodes| == |s.nodes.Keys|;
  }

  /** `n` for each of `u` nodes. */
  function Times(u: nat, n: nat): nat {
    if u == 0 then 0 else n + Times(u - 1, n)
  }

  /** Each unseen node is worth one more than all the copies it could send. */
  function Potential(s: Net, f: FloodId): nat {
    Times(|Unseen(s, f)|, |s.nodes| + 1) + |s.Copies(f)|
  }

  lemma PotentialFalls(u: nat, u': nat, n: nat, c: nat, c': nat)
    requires (u' == u - 1 && c' <= c - 1 + n) || (u' == u && c' < c)
    ensures Times(u', n + 1) + c' < Times(u, n + 1) + c
  {
  }

  lemma DeliveryDecreases(s: Net, c: Copy, hearers: set<Address>)
    requires Inv(s) && Enabled(s, Deliver(c, hearers)) && FloodOf(c.h) !in Delivered(s, c, hearers).stale
    ensures var f, s' := FloodOf(c.h), Delivered(s, c, hearers);
            && Potential(s', f) < Potential(s, f)
            && (|Unseen(s', f)| < |Unseen(s, f)| || (Unseen(s', f) == Unseen(s, f) && |s'.Copies(f)| < |s.Copies(f)|))
  {
    hide Inv, Delivered, Node.Accepts, Unseen, Net.Copies, Times;
    var f, s' := FloodOf(c.h), Delivered(s, c, hearers);
    UnseenProgress(s, c, hearers);
    CopiesProgress(s, c, hearers);
    SameSizeDelivered(s, c, hearers);
    PotentialFalls(|Unseen(s, f)|, |Unseen(s', f)|, |s.nodes|, |s.Copies(f)|, |s'.Copies(f)|);
  }

  lemma SameSizeDelivered(s: Net, c: Copy, hearers: set<Address>)
    requires Inv(s) && Enabled(s, Deliver(c, hearers))
    ensures |Delivered(s, c, hearers).nodes| == |s.nodes|
  {
    SameSize(s, Deliver(c, hearers));
  }

  /**
   Every delivery or loss of a copy of a flood that is not stale makes the pair
   (unseen nodes, copies in flight) lexicographically smaller.
   */
  lemma ConsumingStepDecreases(s: Net, step: Step, f: FloodId)
    requires Inv(s) && Enabled(s, step) && Consumes(step, f) && f !in Apply(s, step).stale
    ensures var s' := Apply(s, step);
            || |Unseen(s', f)| < |Unseen(s, f)|
            || (Unseen(s', f) == Unseen(s, f) && |s'.Copies(f)| < |s.Copies(f)|)
    ensures Potential(Apply(s, step), f) < Potential(s, f)
  {
    hide Inv, Delivered, Unseen, Times, Net.Copies;
    match step {
      case Deliver(c, hearers) => DeliveryDecreases(s, c, hearers);
      case Lose(c) => LossProgress(s, c);
    }
  }

  lemma LossProgress(s: Net, c: Copy)
    requires Enabled(s, Lose(c))
    ensures var f, s' := FloodOf(c.h), Apply(s, Lose(c));
            Unseen(s', f) == Unseen(s, f) && |s'.Copies(f)| == |s.Copies(f)| - 1 && s'.nodes == s.nodes
  {
    assert |s.Copies(FloodOf(c.h)) - multiset{c}| == |s.Copies(FloodOf(c.h))| - 1;
  }

  lemma SameSize(s: Net, step: Step)
    requires Inv(s) && Enabled(s, step)
    ensures |Apply(s, step).nodes| == |s.nodes|
  {
    hide Inv, Apply;
    NodesKept(s, step);
    assert |s.nodes| == |s.nodes.Keys| && |Apply(s, step).nodes| == |Apply(s, step).nodes.Keys|;
  }

  /** No step makes the potential grow, except that a duplicated copy adds one. */
  lemma OtherStepPotential(s: Net, step: Step, f: FloodId)
    requires Inv(s) && Enabled(s, step) && !Consumes(step, f)
    requires f in s.started && f !in Apply(s, step).stale
    ensures Potential(Apply(s, step), f) == Potential(s, f) + if Repeats(step, f) then 1 else 0
  {
    SameSize(s, step);
    NodesKept(s, step);
    OtherStepKeepsFlood(s, step, f);
    hide Inv, Apply, Enabled, Consumes, Repeats, Net.AcceptancesOf, Net.Copies;
  }

  lemma OtherStepKeepsFlood(s: Net, step: Step, f: FloodId)
    requires Enabled(s, step) && !Consumes(step, f)
    requires f in s.started && f !in Apply(s, step).stale
    ensures Apply(s, step).AcceptancesOf(f) == s.AcceptancesOf(f)
    ensures Apply(s, step).Copies(f) == if Repeats(step, f) then s.Copies(f) + multiset{step.c} else s.Copies(f)
  {
    hide Delivered, Originated, RecvRreq, SendRequest, Sent, Node.Accepts;
    match step {
      case Deliver(c, hearers) => RecordOfDelivery(s, c, hearers);
      case Originate(n, dst, hearers) => OriginationHistory(s, n, dst, hearers, f);
      case _ =>
    }
  }

  /** Originating a request leaves every other flood alone, and reusing an id makes a flood stale. */
  lemma OriginationHistory(s: Net, n: Address, dst: Address, hearers: set<Address>, f: FloodId)
    requires n in s.nodes && f in s.started
    ensures var s' := Originated(s, n, dst, hearers);
            && f in s'.started && s.stale <= s'.stale
            && (f !in s'.stale ==> s'.AcceptancesOf(f) == s.AcceptancesOf(f) && s'.Copies(f) == s.Copies(f))
  {
    hide SendRequest, Sent;
    RequestEvents(s.nodes[n], dst, s.now);
  }

  function Count(steps: seq<Step>, p: Step -> bool): nat {
    if steps == [] then 0
    else Count(steps[..|steps| - 1], p) + if p(steps[|steps| - 1]) then 1 else 0
  }

  lemma HistoryGrows(s: Net, step: Step, f: FloodId)
    requires Enabled(s, step) && f in s.started && f !in Apply(s, step).stale
    ensures f in Apply(s, step).started && f !in s.stale
  {
    hide Delivered, Originated, RecvRreq, SendRequest;
    match step {
      case Deliver(c, hearers) => DeliveredHistory(s, c, hearers);
      case Originate(n, dst, hearers) => OriginationHistory(s, n, dst, hearers, f);
      case _ =>
    }
  }

  lemma {:induction false} RunHistory(s: Net, steps: seq<Step>, f: FloodId)
    requires IsRun(s, steps) && f in s.started && f !in Exec(s, steps).stale
    ensures f !in s.stale && f in Exec(s, steps).started
  {
    hide Apply, Enabled;
    if steps != [] {
      var front := steps[..|steps| - 1];
      StartedStays(s, front, f);
      HistoryGrows(Exec(s, front), steps[|steps| - 1], f);
      RunHistory(s, front, f);
    }
  }

  lemma StepStartedStays(s: Net, step: Step, f: FloodId)
    requires Enabled(s, step) && f in s.started
    ensures f in Apply(s, step).started
  {
    hide RecvRreq, SendRequest;
  }

  lemma {:induction false} StartedStays(s: Net, steps: seq<Step>, f: FloodId)
    requires IsRun(s, steps) && f in s.started
    ensures f in Exec(s, steps).started
  {
    hide Apply, Enabled;
    if steps != [] {
      StartedStays(s, steps[..|steps| - 1], f);
      StepStartedStays(Exec(s, steps[..|steps| - 1]), steps[|steps| - 1], f);
    }
  }

  /**
   Every flood ends. From any state with the invariant, in any run after which the
   flood is not stale, the deliveries and losses of its copies number at most the
   potential used up plus the duplications, whatever else the network does.
   */
  lemma {:induction false} FloodTerminates(s: Net, steps: seq<Step>, f: FloodId)
    requires Inv(s) && IsRun(s, steps) && f in s.started && f !in Exec(s, steps).stale
    ensures Count(steps, (st: Step) => Consumes(st, f)) + Potential(Exec(s, steps), f)
         <= Potential(s, f) + Count(steps, (st: Step) => Repeats(st, f))
  {
    hide Apply, Enabled, Inv, Potential, Consumes, Repeats;
    if steps != [] {
      var front, last := steps[..|steps| - 1], steps[|steps| - 1];
      StartedStays(s, front, f);
      HistoryGrows(Exec(s, front), last, f);
      FloodTerminates(s, front, f);
      RunKeepsInv(s, front);
      if Consumes(last, f) {
        ConsumingStepDecreases(Exec(s, front), last, f);
        assert !Repeats(last, f) by { NotBoth(last, f); }
      } else {
        OtherStepPotential(Exec(s, front), last, f);
      }
    }
  }

  lemma NotBoth(step: Step, f: FloodId)
    ensures !(Consumes(step, f) && Repeats(step, f))
  {
  }

  // ---------- at most one rebroadcast per node ----------

  /** The step makes node `m` send the flood on. */
  predicate Rebroadcasts(s: Net, step: Step, f: FloodId, m: Address) {
    && step.Deliver? && step.c.receiver == m && FloodOf(step.c.h) == f && m in s.nodes
    && RecvRreq(s.nodes[m], step.c.h, step.c.sender, s.now).1 != []
    && RecvRreq(s.nodes[m], step.c.h, step.c.sender, s.now).1[0].Broadcast?
  }

  function RebroadcastCount(s: Net, steps: seq<Step>, f: FloodId, m: Address): nat
    requires IsRun(s, steps)
  {
    if steps == [] then 0
    else
      var front := steps[..|steps| - 1];
      RebroadcastCount(s, front, f, m) + if Rebroadcasts(Exec(s, front), steps[|steps| - 1], f, m) then 1 else 0
  }

  lemma RebroadcastIsFirst(s: Net, step: Step, f: FloodId, m: Address)
    requires Inv(s) && Enabled(s, step) && f in s.started && f !in Apply(s, step).stale
    ensures s.AcceptancesOf(f).Keys <= Apply(s, step).AcceptancesOf(f).Keys
    ensures Rebroadcasts(s, step, f, m) ==> m in Unseen(s, f) && m in Apply(s, step).AcceptancesOf(f)
  {
    hide Inv, RecvRreq, Sent, Node.Accepts, Delivered;
    if Consumes(step, f) {
      match step {
        case Deliver(c, hearers) =>
          ReceiveEvents(s.nodes[c.receiver], c.h, c.sender, s.now);
          RecordOfDelivery(s, c, hearers);
          if s.nodes[c.receiver].Accepts(c.h, c.sender, s.now) {
            AcceptingNodeWasUnseen(s, c, hearers);
          }
        case Lose(c) =>
      }
    } else {
      OtherStepKeepsFlood(s, step, f);
    }
  }

  /** In any run after which the flood is not stale, a node sends it on at most once; the originator never. */
  lemma {:induction false} RebroadcastAtMostOnce(s: Net, steps: seq<Step>, f: FloodId, m: Address)
    requires Inv(s) && IsRun(s, steps) && f in s.started && f !in Exec(s, steps).stale
    ensures RebroadcastCount(s, steps, f, m) <= if m in Unseen(s, f) then 1 else 0
    ensures RebroadcastCount(s, steps, f, m) == 1 ==> m in Exec(s, steps).AcceptancesOf(f)
    ensures s.AcceptancesOf(f).Keys <= Exec(s, steps).AcceptancesOf(f).Keys
  {
    hide Apply, Enabled, Inv, Rebroadcasts;
    if steps != [] {
      var front, last := steps[..|steps| - 1], steps[|steps| - 1];
      StartedStays(s, front, f);
      HistoryGrows(Exec(s, front), last, f);
      RebroadcastAtMostOnce(s, front, f, m);
      RunKeepsInv(s, front);
      RebroadcastIsFirst(Exec(s, front), last, f, m);
    }
  }
}
