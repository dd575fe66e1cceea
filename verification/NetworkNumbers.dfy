/**
 Sequence numbers across the network. That the numbers a node receives are truncated
 counters, and close enough to compare, is derived here from how the originators of the
 requests number them.
 */
module NetworkNumbers {
  import opened Types
  import opened SerialNumbers
  import opened Packets
  import opened Nodes
  import opened Flood
  import opened SequenceRuns
  import opened ProtocolRuns
  import NodeRuns

  // ---------- the originator's counter ----------

  /** The action makes `a` originate a request. */
  predicate Originates(s: Net, act: Action, a: Address) {
    && act.Network? && act.step.Originate? && act.step.n == a && a in s.nodes
    && !SendRequest(s.nodes[a], act.step.dst, s.now).1[0].Deferred?
  }

  /** The unbounded counter behind the sequence number of `a`: where it started, and one for each request since. */
  function Counter(s0: Net, acts: seq<Action>, a: Address): int
    requires ProtocolRuns.IsRun(s0, acts) && a in s0.nodes
  {
    if acts == [] then s0.nodes[a].seqNo
    else
      var front := acts[..|acts| - 1];
      Counter(s0, front, a) + if Originates(Perform(s0, front), acts[|acts| - 1], a) then 1 else 0
  }

  /** The counter of `base` onwards that a received number truncates. */
  function CounterBehind(base: int, seqNo: uint32): int {
    base + (seqNo - base) % TWO32
  }

  lemma CounterBehindExact(base: int, x: int)
    requires base <= x < base + TWO32
    ensures CounterBehind(base, Truncate(x)) == x
  {
    var q := x / TWO32;
    assert Truncate(x) - base == x - base - q * TWO32;
  }

  // ---------- numbers in flight ----------

  /** The number is one that `origin` has given to a request since the start. */
  ghost predicate Issued(base: map<Address, int>, counters: map<Address, int>, origin: Address, seqNo: uint32) {
    && origin in base && origin in counters
    && exists x :: base[origin] < x <= counters[origin] && seqNo == Truncate(x)
  }

  ghost predicate CopiesIssued(s: Net, base: map<Address, int>, counters: map<Address, int>) {
    forall f, c :: c in s.Copies(f) ==> Issued(base, counters, c.h.origin, c.h.originSeqNo)
  }

  /** Every node stands at its counter, and every copy in flight carries a number its originator has issued. */
  ghost predicate Numbered(s: Net, base: map<Address, int>, counters: map<Address, int>) {
    && base.Keys == counters.Keys == s.nodes.Keys
    && (forall a :: a in s.nodes ==>
          s.nodes[a].self == a && base[a] <= counters[a] && s.nodes[a].seqNo == Truncate(counters[a]))
    && CopiesIssued(s, base, counters)
  }

  function Counters(s0: Net, acts: seq<Action>): map<Address, int>
    requires ProtocolRuns.IsRun(s0, acts)
  {
    map a | a in s0.nodes :: Counter(s0, acts, a)
  }

  lemma IssuedLater(base: map<Address, int>, counters: map<Address, int>, later: map<Address, int>, origin: Address,
                    seqNo: uint32)
    requires Issued(base, counters, origin, seqNo) && counters.Keys == later.Keys
    requires forall a :: a in counters ==> counters[a] <= later[a]
    ensures Issued(base, later, origin, seqNo)
  {
  }

  /** Every copy in flight after an action was in flight before, was sent on by its receiver, or is new. */
  lemma HeadersAfter(s: Net, act: Action, f: FloodId, c: Copy)
    requires Allowed(s, act) && c in Apply(s, AsStep(s, act)).Copies(f)
    ensures || c in s.Copies(f)
            || (act.Network? && act.step.Deliver? && act.step.c in s.Copies(FloodOf(act.step.c.h))
                && act.step.c.receiver in s.nodes
                && var d := act.step.c;
                   Broadcast(c.h) in RecvRreq(s.nodes[d.receiver], d.h, d.sender, s.now).1
                   && c.h == RecvRreq(s.nodes[d.receiver], d.h, d.sender, s.now).1[0].h)
            || (act.Network? && act.step.Originate? && Originates(s, act, act.step.n)
                && c.h == SendRequest(s.nodes[act.step.n], act.step.dst, s.now).1[0].h)
  {
    hide RecvRreq, SendRequest, Sent, Delivered, Originated, Node.Accepts, LocalStep, Flood.RecordOf;
    match act {
      case Local(n, op) => QuietStepCopies(s, AsStep(s, act), f);
      case Network(step) =>
        match step {
          case Originate(n, dst, hearers) =>
            OriginatedParts(s, n, dst, hearers, f);
            RequestEvents(s.nodes[n], dst, s.now);
            if c !in s.Copies(f) {
              SentFits(SendRequest(s.nodes[n], dst, s.now).1, n, hearers, c);
            }
          case Deliver(d, hearers) =>
            RecordOfDelivery(s, d, hearers);
            if c !in s.Copies(f) {
              var events := RecvRreq(s.nodes[d.receiver], d.h, d.sender, s.now).1;
              SentFits(events, d.receiver, hearers, c);
              assert events[0] == Broadcast(c.h);
            }
          case _ => QuietStepCopies(s, step, f);
        }
    }
  }

  /** A copy sent on keeps the number of its originator, and a new one carries the next. */
  lemma CopiesAfter(s: Net, act: Action, f: FloodId, c: Copy)
    requires Allowed(s, act) && c in Apply(s, AsStep(s, act)).Copies(f)
    ensures || c in s.Copies(f)
            || (act.Network? && act.step.Deliver? && act.step.c in s.Copies(FloodOf(act.step.c.h))
                && c.h.origin == act.step.c.h.origin && c.h.originSeqNo == act.step.c.h.originSeqNo)
            || (act.Network? && act.step.Originate? && Originates(s, act, act.step.n)
                && c.h.origin == s.nodes[act.step.n].self
                && c.h.originSeqNo == (s.nodes[act.step.n].seqNo + 1) % TWO32)
  {
    hide RecvRreq, SendRequest, Apply, AsStep, Net.Copies, Node.Accepts;
    HeadersAfter(s, act, f, c);
    if c !in s.Copies(f) {
      if act.step.Deliver? {
        var d := act.step.c;
        ReceiveEvents(s.nodes[d.receiver], d.h, d.sender, s.now);
        EventsAtMostOne(s.nodes[d.receiver], d.h, d.sender, s.now);
      } else {
        RequestEvents(s.nodes[act.step.n], act.step.dst, s.now);
      }
    }
  }

  lemma EventsAtMostOne(n: Node, p: Rreq, src: Address, now: Time)
    ensures |RecvRreq(n, p, src, now).1| <= 1
  {
    hide RecordReverseRoute;
  }

  /** An action leaves every sequence number but that of an originating node, which it raises by one. */
  lemma NumbersAfter(s: Net, act: Action, a: Address)
    requires Allowed(s, act) && a in s.nodes
    ensures var s' := Apply(s, AsStep(s, act));
            && s'.nodes.Keys == s.nodes.Keys && s'.nodes[a].self == s.nodes[a].self
            && s'.nodes[a].seqNo == if Originates(s, act, a) then (s.nodes[a].seqNo + 1) % TWO32 else s.nodes[a].seqNo
  {
    hide Allowed, Apply, AsStep, NodeRuns.Step, SendRequest;
    ActionAtNode(s, act, a);
    NodesAfter(s, act);
    if OpAt(s, act, a) != [] {
      NodeRuns.StepConfig(s.nodes[a], OpAt(s, act, a)[0]);
      OperationNumber(s.nodes[a], OpAt(s, act, a)[0]);
    }
    OpSends(s, act, a);
  }

  lemma NodesAfter(s: Net, act: Action)
    requires Allowed(s, act)
    ensures Apply(s, AsStep(s, act)).nodes.Keys == s.nodes.Keys
  {
    hide RecvRreq, SendRequest, Delivered, Originated, LocalStep;
    match act {
      case Local(n, op) => LocalIsInterference(s, n, op);
      case Network(step) =>
        match step {
          case Originate(n, dst, hearers) => OriginatedParts(s, n, dst, hearers, (n, 0));
          case Deliver(c, hearers) => RecordOfDelivery(s, c, hearers);
          case _ =>
        }
    }
  }

  lemma OpSends(s: Net, act: Action, a: Address)
    requires Allowed(s, act) && a in s.nodes
    ensures Originates(s, act, a) <==>
              && OpAt(s, act, a) != [] && OpAt(s, act, a)[0].op.Send?
              && !SendRequest(s.nodes[a], OpAt(s, act, a)[0].op.dst, OpAt(s, act, a)[0].now).1[0].Deferred?
  {
    hide SendRequest;
  }

  lemma OperationNumber(n: Node, o: NodeRuns.TimedOp)
    ensures NodeRuns.Step(n, o).seqNo ==
              if o.op.Send? && !SendRequest(n, o.op.dst, o.now).1[0].Deferred? then (n.seqNo + 1) % TWO32 else n.seqNo
  {
    hide RecvRreq, SendRequest;
    match o.op {
      case Receive(h, src) => ReceiveKeepsNumber(n, h, src, o.now);
      case Send(dst) => RequestEvents(n, dst, o.now);
      case _ =>
    }
  }

  lemma ReceiveKeepsNumber(n: Node, p: Rreq, src: Address, now: Time)
    ensures RecvRreq(n, p, src, now).0.seqNo == n.seqNo && RecvRreq(n, p, src, now).0.self == n.self
  {
    hide RecordReverseRoute, Respond;
  }

  function CountersAfter(s: Net, act: Action, counters: map<Address, int>): map<Address, int> {
    map a | a in counters :: counters[a] + if Originates(s, act, a) then 1 else 0
  }

  lemma TruncateNext(x: int)
    ensures (Truncate(x) + 1) % TWO32 == Truncate(x + 1)
  {
  }

  lemma StillNumbered(s: Net, act: Action, base: map<Address, int>, counters: map<Address, int>)
    requires Allowed(s, act) && Numbered(s, base, counters)
    ensures Numbered(Apply(s, AsStep(s, act)), base, CountersAfter(s, act, counters))
  {
    hide Allowed, Apply, AsStep, Originates, Truncate, Net.Copies, Issued;
    var s', counters' := Apply(s, AsStep(s, act)), CountersAfter(s, act, counters);
    NodesAfter(s, act);
    forall a | a in s.nodes
      ensures s'.nodes[a].self == a && base[a] <= counters'[a] && s'.nodes[a].seqNo == Truncate(counters'[a])
    {
      NumbersAfter(s, act, a);
      TruncateNext(counters[a]);
    }
    forall f, c | c in s'.Copies(f) ensures Issued(base, counters', c.h.origin, c.h.originSeqNo) {
      CopiesAfter(s, act, f, c);
      CopyIssued(s, act, base, counters, f, c);
    }
  }

  lemma CopyIssued(s: Net, act: Action, base: map<Address, int>, counters: map<Address, int>, f: FloodId, c: Copy)
    requires Allowed(s, act) && Numbered(s, base, counters) && c in Apply(s, AsStep(s, act)).Copies(f)
    ensures Issued(base, CountersAfter(s, act, counters), c.h.origin, c.h.originSeqNo)
  {
    hide Allowed, Apply, AsStep, Originates, Truncate, Net.Copies;
    CopiesAfter(s, act, f, c);
    var counters' := CountersAfter(s, act, counters);
    if c in s.Copies(f) {
      IssuedLater(base, counters, counters', c.h.origin, c.h.originSeqNo);
    } else if act.step.Deliver? {
      assert act.step.c in s.Copies(FloodOf(act.step.c.h));
      IssuedLater(base, counters, counters', c.h.origin, c.h.originSeqNo);
    } else {
      var a := act.step.n;
      OriginatesHere(s, act, a);
      TruncateNext(counters[a]);
      assert counters'[a] == counters[a] + 1;
    }
  }

  lemma OriginatesHere(s: Net, act: Action, a: Address)
    requires Originates(s, act, a)
    ensures a in s.nodes
  {
    hide SendRequest;
  }

  function StartNumbers(s0: Net): map<Address, int> {
    map a | a in s0.nodes :: s0.nodes[a].seqNo
  }

  lemma NumberedAtRest(s0: Net)
    requires Initial(s0)
    ensures Numbered(s0, StartNumbers(s0), StartNumbers(s0))
  {
  }

  /** In every reachable state, whatever was lost, duplicated, delayed or went stale. */
  lemma {:induction false} RunNumbered(s0: Net, acts: seq<Action>)
    requires Initial(s0) && ProtocolRuns.IsRun(s0, acts)
    ensures Numbered(Perform(s0, acts), StartNumbers(s0), Counters(s0, acts))
  {
    hide Initial, Allowed, Apply, AsStep, Originates, Numbered;
    if acts == [] {
      NumberedAtRest(s0);
      assert Counters(s0, acts) == StartNumbers(s0);
    } else {
      var front, last := acts[..|acts| - 1], acts[|acts| - 1];
      RunNumbered(s0, front);
      StillNumbered(Perform(s0, front), last, StartNumbers(s0), Counters(s0, front));
      assert Counters(s0, acts) == CountersAfter(Perform(s0, front), last, Counters(s0, front));
    }
  }

  // ---------- what arrives at one node ----------

  /** The counter behind a received request, by where its originator's number started. */
  function CounterOf(s0: Net, o: NodeRuns.TimedOp): int {
    if !o.op.Receive? then 0
    else CounterBehind(if o.op.h.origin in s0.nodes then s0.nodes[o.op.h.origin].seqNo else 0, o.op.h.originSeqNo)
  }

  function Counted(s0: Net, ops: seq<NodeRuns.TimedOp>): seq<Arrival> {
    seq(|ops|, i requires 0 <= i < |ops| => Arrival(ops[i], CounterOf(s0, ops[i])))
  }

  /** Everything node `m` does in the run, with the counters behind the requests it receives. */
  function ArrivalsAt(s0: Net, acts: seq<Action>, m: Address): seq<Arrival>
    requires ProtocolRuns.IsRun(s0, acts)
  {
    if acts == [] then []
    else
      var front := acts[..|acts| - 1];
      ArrivalsAt(s0, front, m) + Counted(s0, OpAt(Perform(s0, front), acts[|acts| - 1], m))
  }

  /** Received requests come from nodes of the network, whose counters had not yet passed `hi` when they were issued. */
  ghost predicate ArrivalOk(a: Arrival, lo: map<Address, int>, hi: map<Address, int>) {
    && Authentic(a)
    && (a.o.op.Receive? ==>
          && a.o.op.h.origin in lo && a.o.op.h.origin in hi
          && lo[a.o.op.h.origin] < a.counter <= hi[a.o.op.h.origin])
  }

  ghost predicate ArrivalsOk(run: seq<Arrival>, lo: map<Address, int>, hi: map<Address, int>) {
    forall k :: 0 <= k < |run| ==> ArrivalOk(run[k], lo, hi)
  }

  /** No originator has issued so many numbers that they wrap past half the range. */
  ghost predicate FewRequests(lo: map<Address, int>, hi: map<Address, int>) {
    lo.Keys == hi.Keys && forall a :: a in lo ==> hi[a] - lo[a] < TWO31
  }

  lemma ArrivalIssued(s0: Net, s: Net, act: Action, m: Address, hi: map<Address, int>)
    requires Allowed(s, act) && Numbered(s, StartNumbers(s0), hi) && FewRequests(StartNumbers(s0), hi)
    ensures ArrivalsOk(Counted(s0, OpAt(s, act, m)), StartNumbers(s0), hi)
  {
    hide Truncate, CounterBehind, Net.Copies, FloodOf;
    if act.Network? && act.step.Deliver? {
      var c := act.step.c;
      assert c in s.Copies(FloodOf(c.h));
      assert Issued(StartNumbers(s0), hi, c.h.origin, c.h.originSeqNo);
      var x :| StartNumbers(s0)[c.h.origin] < x <= hi[c.h.origin] && c.h.originSeqNo == Truncate(x);
      CounterBehindExact(s0.nodes[c.h.origin].seqNo, x);
    } else {
    }
  }

  lemma CountersGrow(s0: Net, acts: seq<Action>, a: Address)
    requires ProtocolRuns.IsRun(s0, acts) && a in s0.nodes && acts != []
    ensures Counter(s0, acts[..|acts| - 1], a) <= Counter(s0, acts, a)
  {
    hide Originates;
  }

  lemma FewerBefore(s0: Net, acts: seq<Action>)
    requires ProtocolRuns.IsRun(s0, acts) && acts != [] && FewRequests(StartNumbers(s0), Counters(s0, acts))
    ensures var front := acts[..|acts| - 1];
            && FewRequests(StartNumbers(s0), Counters(s0, front))
            && forall a :: a in Counters(s0, front) ==> Counters(s0, front)[a] <= Counters(s0, acts)[a]
  {
    hide Counter, Perform, Allowed;
    var front := acts[..|acts| - 1];
    forall a | a in s0.nodes ensures Counter(s0, front, a) <= Counter(s0, acts, a) {
      CountersGrow(s0, acts, a);
    }
  }

  /** Everything a node receives in a run was issued by its originator, and close to everything else it issued. */
  lemma {:induction false} ArrivalsIssued(s0: Net, acts: seq<Action>, m: Address)
    requires Initial(s0) && ProtocolRuns.IsRun(s0, acts) && FewRequests(StartNumbers(s0), Counters(s0, acts))
    ensures ArrivalsOk(ArrivalsAt(s0, acts, m), StartNumbers(s0), Counters(s0, acts))
  {
    hide Initial, Allowed, Perform, Numbered, FewRequests, Counters, ArrivalOk, Counted, OpAt;
    if acts != [] {
      var front, last := acts[..|acts| - 1], acts[|acts| - 1];
      FewerBefore(s0, acts);
      ArrivalsIssued(s0, front, m);
      RunNumbered(s0, front);
      LastAllowed(s0, acts);
      ArrivalIssued(s0, Perform(s0, front), last, m, Counters(s0, front));
      ArrivalsLater(ArrivalsAt(s0, acts, m), StartNumbers(s0), Counters(s0, front), Counters(s0, acts));
    }
  }

  lemma LastAllowed(s0: Net, acts: seq<Action>)
    requires ProtocolRuns.IsRun(s0, acts) && acts != []
    ensures Allowed(Perform(s0, acts[..|acts| - 1]), acts[|acts| - 1])
  {
    hide Allowed;
  }

  lemma ArrivalsLater(run: seq<Arrival>, lo: map<Address, int>, hi: map<Address, int>, later: map<Address, int>)
    requires ArrivalsOk(run, lo, hi) && FewRequests(lo, hi) && FewRequests(lo, later)
    requires forall a :: a in hi ==> hi[a] <= later[a]
    ensures ArrivalsOk(run, lo, later)
  {
    forall k | 0 <= k < |run| ensures ArrivalOk(run[k], lo, later) {
      assert ArrivalOk(run[k], lo, hi);
    }
  }

  // ---------- the node's history ----------

  /** The counters in a history lie between where the originator's number started and where it is now. */
  ghost predicate Within(hist: History, lo: map<Address, int>, hi: map<Address, int>) {
    forall d, x :: d in hist && x in hist[d] ==> d in lo && d in hi && lo[d] < x <= hi[d]
  }

  lemma NextWithin(n: Node, hist: History, a: Arrival, lo: map<Address, int>, hi: map<Address, int>)
    requires Within(hist, lo, hi) && ArrivalOk(a, lo, hi)
    ensures Within(NextHistory(n, hist, a), lo, hi)
  {
    hide NodeRuns.Step, Node.Accepts, ValidNumber, Authentic;
  }

  lemma {:induction false} HistoryWithin(n: Node, run: seq<Arrival>, lo: map<Address, int>, hi: map<Address, int>)
    requires ArrivalsOk(run, lo, hi)
    ensures Within(HistoryOf(n, run), lo, hi)
  {
    hide ArrivalOk, Within, NextHistory, NodeRuns.Exec, Ops;
    if run == [] {
      assert Within(map[], lo, hi) by { NothingYet(lo, hi); }
    } else {
      var front := run[..|run| - 1];
      HistoryWithin(n, front, lo, hi);
      NextWithin(NodeRuns.Exec(n, Ops(front)), HistoryOf(n, front), run[|run| - 1], lo, hi);
    }
  }

  lemma NothingYet(lo: map<Address, int>, hi: map<Address, int>)
    ensures Within(map[], lo, hi)
  {
  }

  lemma WithinWindow(n: Node, hist: History, a: Arrival, lo: map<Address, int>, hi: map<Address, int>)
    requires Within(hist, lo, hi) && ArrivalOk(a, lo, hi) && FewRequests(lo, hi)
    ensures InWindow(n, hist, a)
  {
    hide Node.Accepts, ValidNumber, Authentic;
    forall d | NodeRuns.AcceptsFrom(n, a.o, d) && CountersOf(hist, d) != []
      ensures -TWO31 <= a.counter - MaxOf(CountersOf(hist, d)) < TWO31
    {
      assert MaxOf(CountersOf(hist, d)) in hist[d];
    }
  }

  lemma ArrivalsAreWindowed(n: Node, run: seq<Arrival>, lo: map<Address, int>, hi: map<Address, int>)
    requires ArrivalsOk(run, lo, hi) && FewRequests(lo, hi)
    ensures WindowedRun(n, run)
  {
    hide Authentic, Within, InWindow, HistoryOf, FewRequests, NodeRuns.Exec, Ops;
    forall k | 0 <= k < |run|
      ensures Authentic(run[k]) && InWindow(NodeRuns.Exec(n, Ops(run[..k])), HistoryOf(n, run[..k]), run[k])
    {
      assert ArrivalOk(run[k], lo, hi);
      assert ArrivalsOk(run[..k], lo, hi);
      HistoryWithin(n, run[..k], lo, hi);
      WithinWindow(NodeRuns.Exec(n, Ops(run[..k])), HistoryOf(n, run[..k]), run[k], lo, hi);
    }
  }

  // ---------- each node of the network ----------

  lemma CountedOps(s0: Net, run: seq<Arrival>, ops: seq<NodeRuns.TimedOp>)
    ensures Ops(run + Counted(s0, ops)) == Ops(run) + ops
  {
  }

  lemma ExecOneMore(n: Node, ops: seq<NodeRuns.TimedOp>, more: seq<NodeRuns.TimedOp>)
    requires |more| <= 1
    ensures NodeRuns.Exec(n, ops + more) == After(NodeRuns.Exec(n, ops), more)
  {
    hide NodeRuns.Step;
    if more == [] {
      assert ops + more == ops;
    } else {
      assert (ops + more)[..|ops|] == ops;
    }
  }

  lemma OneAtMost(s: Net, a: Action, m: Address)
    ensures |OpAt(s, a, m)| <= 1
  {
  }

  /** What happens to a node in a run of the network is the run of its own arrivals. */
  lemma {:induction false} NodeRunsAlone(s0: Net, acts: seq<Action>, m: Address)
    requires ProtocolRuns.IsRun(s0, acts) && m in s0.nodes
    ensures m in Perform(s0, acts).nodes
    ensures Perform(s0, acts).nodes[m] == NodeRuns.Exec(s0.nodes[m], Ops(ArrivalsAt(s0, acts, m)))
  {
    hide Allowed, Apply, AsStep, OpAt, After, NodeRuns.Step, Ops, Counted;
    if acts == [] {
      NoOps();
    } else {
      var front, last := acts[..|acts| - 1], acts[|acts| - 1];
      var before := Perform(s0, front);
      NodeRunsAlone(s0, front, m);
      ActionAtNode(before, last, m);
      OneAtMost(before, last, m);
      CountedOps(s0, ArrivalsAt(s0, front, m), OpAt(before, last, m));
      ExecOneMore(s0.nodes[m], Ops(ArrivalsAt(s0, front, m)), OpAt(before, last, m));
    }
  }

  lemma NoOps()
    ensures Ops([]) == []
  {
  }

  /**
   In every reachable state of the network in which no originator has issued 2^31
   numbers or more, with nothing assumed of the requests delivered: each valid number
   that a node stores for another is the truncated maximum of the counters it received
   from there since its entry became valid, and each of these the originator had issued.
   */
  lemma NetworkNumbersAreMaxima(s0: Net, acts: seq<Action>, m: Address)
    requires Initial(s0) && ProtocolRuns.IsRun(s0, acts) && FewRequests(StartNumbers(s0), Counters(s0, acts))
    requires m in s0.nodes && forall d :: d in s0.nodes[m].table ==> !s0.nodes[m].table[d].validSeqNo
    ensures var hist := HistoryOf(s0.nodes[m], ArrivalsAt(s0, acts, m));
            && m in Perform(s0, acts).nodes && StoresMaxima(Perform(s0, acts).nodes[m], hist)
            && Within(hist, StartNumbers(s0), Counters(s0, acts))
  {
    hide *;
    var run, n := ArrivalsAt(s0, acts, m), s0.nodes[m];
    NodeRunsAlone(s0, acts, m);
    ArrivalsIssued(s0, acts, m);
    HistoryWithin(n, run, StartNumbers(s0), Counters(s0, acts));
    ArrivalsAreWindowed(n, run, StartNumbers(s0), Counters(s0, acts));
    NoNegativePeriod(s0, m);
    StoredNumbersAreMaxima(n, run);
  }

  lemma NoNegativePeriod(s0: Net, m: Address)
    requires Initial(s0) && m in s0.nodes
    ensures s0.nodes[m].cfg.deletePeriod >= 0
  {
  }

  /**
   No node ever holds a number for another that is newer than that node's own: the
   originator's number is at least as new, by the comparison the protocol makes.
   */
  lemma NoNumberFromTheFuture(s0: Net, acts: seq<Action>, m: Address, d: Address)
    requires Initial(s0) && ProtocolRuns.IsRun(s0, acts) && FewRequests(StartNumbers(s0), Counters(s0, acts))
    requires m in s0.nodes && forall e :: e in s0.nodes[m].table ==> !s0.nodes[m].table[e].validSeqNo
    requires var s := Perform(s0, acts); m in s.nodes && d in s.nodes[m].table && s.nodes[m].table[d].validSeqNo
    ensures var s := Perform(s0, acts);
            d in s.nodes && AtLeastAsNew(s.nodes[d].seqNo, s.nodes[m].table[d].seqNo)
  {
    hide Initial, Allowed, ProtocolRuns.IsRun, Perform, HistoryOf, ArrivalsAt, Truncate, MaxOf, AtLeastAsNew;
    hide Counter, CopiesIssued;
    NetworkNumbersAreMaxima(s0, acts, m);
    RunNumbered(s0, acts);
    var xs := CountersOf(HistoryOf(s0.nodes[m], ArrivalsAt(s0, acts, m)), d);
    assert MaxOf(xs) in xs;
    NewerExactly(Counter(s0, acts, d), MaxOf(xs));
  }
}
