/**
 Destination sequence numbers across the network: every number that a table stores, a
 request carries or an intermediate reply gives for a destination was issued by that
 destination, so none is newer than its own. Nothing is assumed of the requests delivered.
 */
module DestinationNumbers {
  import opened Types
  import opened SerialNumbers
  import opened Tables
  import opened Packets
  import opened Nodes
  import opened Flood
  import opened SequenceRuns
  import opened ProtocolRuns
  import opened NetworkNumbers
  import NodeRuns

  // ---------- what one node stores and sends ----------

  /** Every valid number in the table was issued by the entry's destination. */
  ghost predicate TableIssued(n: Node, base: map<Address, int>, counters: map<Address, int>) {
    forall d :: d in n.table && n.table[d].validSeqNo ==> Issued(base, counters, d, n.table[d].seqNo)
  }

  /** The destination number of a request is unknown, or was issued by the destination. */
  ghost predicate HeaderIssued(h: Rreq, base: map<Address, int>, counters: map<Address, int>) {
    h.Has(UnknownSeqno) || Issued(base, counters, h.dst, h.dstSeqNo)
  }

  /** A valid number that a node stores after an operation was stored before, or is that of a request just accepted. */
  lemma StoredAfter(n: Node, o: NodeRuns.TimedOp, d: Address)
    requires n.cfg.deletePeriod >= 0 && d in NodeRuns.Step(n, o).table && NodeRuns.Step(n, o).table[d].validSeqNo
    ensures || (d in n.table && n.table[d].validSeqNo && n.table[d].seqNo == NodeRuns.Step(n, o).table[d].seqNo)
            || (o.op.Receive? && o.op.h.origin == d && NodeRuns.Step(n, o).table[d].seqNo == o.op.h.originSeqNo)
  {
    hide RecvRreq, SendRequest, Node.Accepts, ValidNumber, Newer;
    if NodeRuns.AcceptsFrom(n, o, d) {
      AcceptedSeqNo(n, o.op.h, o.op.src, o.now);
    } else {
      SeqNoKept(n, o, d);
    }
  }

  lemma OperationKeepsIssued(n: Node, o: NodeRuns.TimedOp, base: map<Address, int>, counters: map<Address, int>)
    requires n.cfg.deletePeriod >= 0 && TableIssued(n, base, counters)
    requires o.op.Receive? ==> Issued(base, counters, o.op.h.origin, o.op.h.originSeqNo)
    ensures TableIssued(NodeRuns.Step(n, o), base, counters)
  {
    hide NodeRuns.Step, Issued;
    var n' := NodeRuns.Step(n, o);
    forall d | d in n'.table && n'.table[d].validSeqNo ensures Issued(base, counters, d, n'.table[d].seqNo) {
      StoredAfter(n, o, d);
    }
  }

  /** What a node holds about a destination was issued there. */
  lemma HeldIsIssued(n: Node, dst: Address, now: Time, base: map<Address, int>, counters: map<Address, int>)
    requires TableIssued(n, base, counters)
    ensures Held(n, dst, now).Known? ==> Issued(base, counters, dst, Held(n, dst, now).seqNo)
  {
    hide Issued;
  }

  lemma OriginatedIssued(n: Node, dst: Address, now: Time, base: map<Address, int>, counters: map<Address, int>)
    requires TableIssued(n, base, counters) && !SendRequest(n, dst, now).1[0].Deferred?
    ensures HeaderIssued(SendRequest(n, dst, now).1[0].h, base, counters)
  {
    hide SendRequest, Issued, Held, GetFlag;
    HeldIsIssued(n, dst, now, base, counters);
    NotAtLimit(n, dst, now);
    var k := Held(n, dst, now);
    var xs: seq<int> := if k.Known? then [k.seqNo] else [];
    OneCounter(k);
    OriginatorCarries(n, dst, now, xs);
  }

  lemma NotAtLimit(n: Node, dst: Address, now: Time)
    requires !SendRequest(n, dst, now).1[0].Deferred?
    ensures n.rreqCount != n.cfg.rreqRateLimit
  {
    hide DestinationFields, OriginatorFields, SearchTable;
  }

  lemma OneCounter(k: Knowledge)
    ensures Behind(if k.Known? then [k.seqNo] else [], k)
    ensures k.Known? ==> Truncate(MaxOf([k.seqNo])) == k.seqNo
  {
  }

  /** A request sent on, and an intermediate reply, give only numbers that the destination issued. */
  lemma AnswerIssued(n: Node, p: Rreq, src: Address, now: Time, e: Event, base: map<Address, int>,
                     counters: map<Address, int>)
    requires n.cfg.deletePeriod >= 0 && e in RecvRreq(n, p, src, now).1
    requires TableIssued(n, base, counters) && HeaderIssued(p, base, counters)
    ensures e.Broadcast? ==> HeaderIssued(e.h, base, counters)
    ensures e.IntermediateReply? ==> Issued(base, counters, p.dst, e.toDst.seqNo)
  {
    hide RecvRreq, Issued, Held, SetFlag, GetFlag, AtLeastAsNew;
    ForwardedHeader(n, p, src, now, e);
    HeldIsIssued(n, p.dst, now, base, counters);
  }

  // ---------- every run of the network ----------

  ghost predicate HeadersIssued(s: Net, base: map<Address, int>, counters: map<Address, int>) {
    forall f, c :: c in s.Copies(f) ==> HeaderIssued(c.h, base, counters)
  }

  ghost predicate AllIssued(s: Net, base: map<Address, int>, counters: map<Address, int>) {
    && (forall a :: a in s.nodes ==> s.nodes[a].cfg.deletePeriod >= 0 && TableIssued(s.nodes[a], base, counters))
    && HeadersIssued(s, base, counters)
  }

  lemma TableIssuedLater(n: Node, base: map<Address, int>, counters: map<Address, int>, later: map<Address, int>)
    requires TableIssued(n, base, counters) && counters.Keys == later.Keys
    requires forall a :: a in counters ==> counters[a] <= later[a]
    ensures TableIssued(n, base, later)
  {
    hide Issued;
    forall d | d in n.table && n.table[d].validSeqNo ensures Issued(base, later, d, n.table[d].seqNo) {
      IssuedLater(base, counters, later, d, n.table[d].seqNo);
    }
  }

  lemma HeaderIssuedLater(h: Rreq, base: map<Address, int>, counters: map<Address, int>, later: map<Address, int>)
    requires HeaderIssued(h, base, counters) && counters.Keys == later.Keys
    requires forall a :: a in counters ==> counters[a] <= later[a]
    ensures HeaderIssued(h, base, later)
  {
    hide Issued, Rreq.Has;
    if !h.Has(UnknownSeqno) {
      IssuedLater(base, counters, later, h.dst, h.dstSeqNo);
    }
  }

  lemma TableStaysIssued(s: Net, act: Action, base: map<Address, int>, counters: map<Address, int>, a: Address)
    requires Allowed(s, act) && CopiesIssued(s, base, counters) && a in s.nodes
    requires s.nodes[a].cfg.deletePeriod >= 0 && TableIssued(s.nodes[a], base, counters)
    ensures var s' := Apply(s, AsStep(s, act));
            a in s'.nodes && s'.nodes[a].cfg.deletePeriod >= 0 && TableIssued(s'.nodes[a], base, counters)
  {
    hide Apply, AsStep, NodeRuns.Step, Issued, TableIssued, Net.Copies, FloodOf;
    ActionAtNode(s, act, a);
    if OpAt(s, act, a) != [] {
      var o := OpAt(s, act, a)[0];
      if o.op.Receive? {
        assert act.step.c in s.Copies(FloodOf(act.step.c.h));
      }
      NodeRuns.StepConfig(s.nodes[a], o);
      OperationKeepsIssued(s.nodes[a], o, base, counters);
    }
  }

  lemma HeaderStaysIssued(s: Net, act: Action, base: map<Address, int>, counters: map<Address, int>, f: FloodId,
                          c: Copy)
    requires Allowed(s, act) && AllIssued(s, base, counters) && c in Apply(s, AsStep(s, act)).Copies(f)
    ensures HeaderIssued(c.h, base, counters)
  {
    hide Allowed, Apply, AsStep, RecvRreq, SendRequest, TableIssued, HeaderIssued, Net.Copies, FloodOf;
    HeadersAfter(s, act, f, c);
    if c in s.Copies(f) {
    } else if act.step.Deliver? {
      var d := act.step.c;
      assert d in s.Copies(FloodOf(d.h));
      AnswerIssued(s.nodes[d.receiver], d.h, d.sender, s.now, Broadcast(c.h), base, counters);
    } else {
      OriginatedIssued(s.nodes[act.step.n], act.step.dst, s.now, base, counters);
    }
  }

  lemma StepKeepsIssued(s: Net, act: Action, base: map<Address, int>, counters: map<Address, int>)
    requires Allowed(s, act) && Numbered(s, base, counters) && AllIssued(s, base, counters)
    ensures AllIssued(Apply(s, AsStep(s, act)), base, CountersAfter(s, act, counters))
  {
    hide Allowed, Apply, AsStep, Originates, TableIssued, HeaderIssued, CopiesIssued, Net.Copies;
    var s', counters' := Apply(s, AsStep(s, act)), CountersAfter(s, act, counters);
    NodesAfter(s, act);
    forall a | a in s'.nodes ensures s'.nodes[a].cfg.deletePeriod >= 0 && TableIssued(s'.nodes[a], base, counters') {
      TableStaysIssued(s, act, base, counters, a);
      TableIssuedLater(s'.nodes[a], base, counters, counters');
    }
    forall f, c | c in s'.Copies(f) ensures HeaderIssued(c.h, base, counters') {
      HeaderStaysIssued(s, act, base, counters, f, c);
      HeaderIssuedLater(c.h, base, counters, counters');
    }
  }

  /** No node of the network holds a valid number yet. */
  ghost predicate NoNumbers(s0: Net) {
    forall a, d :: a in s0.nodes && d in s0.nodes[a].table ==> !s0.nodes[a].table[d].validSeqNo
  }

  lemma NothingIssued(s0: Net)
    requires Initial(s0) && NoNumbers(s0)
    ensures AllIssued(s0, StartNumbers(s0), StartNumbers(s0))
  {
  }

  /** In every reachable state everything stored or carried for a destination was issued there. */
  lemma {:induction false} RunIssued(s0: Net, acts: seq<Action>)
    requires Initial(s0) && NoNumbers(s0) && ProtocolRuns.IsRun(s0, acts)
    ensures AllIssued(Perform(s0, acts), StartNumbers(s0), Counters(s0, acts))
  {
    hide Initial, NoNumbers, Allowed, Apply, AsStep, Originates, Numbered, AllIssued;
    if acts == [] {
      NothingIssued(s0);
      assert Counters(s0, acts) == StartNumbers(s0);
    } else {
      var front, last := acts[..|acts| - 1], acts[|acts| - 1];
      RunIssued(s0, front);
      RunNumbered(s0, front);
      StepKeepsIssued(Perform(s0, front), last, StartNumbers(s0), Counters(s0, front));
      assert Counters(s0, acts) == CountersAfter(Perform(s0, front), last, Counters(s0, front));
    }
  }

  // ---------- not newer than the destination's own ----------

  lemma IssuedIsNotAhead(s: Net, base: map<Address, int>, counters: map<Address, int>, d: Address, x: uint32)
    requires Numbered(s, base, counters) && FewRequests(base, counters) && Issued(base, counters, d, x)
    ensures d in s.nodes && AtLeastAsNew(s.nodes[d].seqNo, x)
  {
    hide CopiesIssued, Truncate, AtLeastAsNew;
    var y :| base[d] < y <= counters[d] && x == Truncate(y);
    NewerExactly(counters[d], y);
  }

  /**
   No request in flight, and no intermediate reply to one delivered now, gives a number
   for its destination that is newer than the destination's own, by the comparison the
   protocol makes.
   */
  lemma NoDestinationFromTheFuture(s0: Net, acts: seq<Action>, c: Copy)
    requires Initial(s0) && NoNumbers(s0) && ProtocolRuns.IsRun(s0, acts)
    requires FewRequests(StartNumbers(s0), Counters(s0, acts)) && c in Perform(s0, acts).Copies(FloodOf(c.h))
    ensures var s := Perform(s0, acts);
            && (!c.h.Has(UnknownSeqno) ==> c.h.dst in s.nodes && AtLeastAsNew(s.nodes[c.h.dst].seqNo, c.h.dstSeqNo))
            && (c.receiver in s.nodes ==>
                  forall e :: e in RecvRreq(s.nodes[c.receiver], c.h, c.sender, s.now).1 && e.IntermediateReply? ==>
                    c.h.dst in s.nodes && AtLeastAsNew(s.nodes[c.h.dst].seqNo, e.toDst.seqNo))
  {
    hide Initial, NoNumbers, Allowed, ProtocolRuns.IsRun, Perform, Counters, StartNumbers, Numbered, FewRequests;
    hide TableIssued, Issued, RecvRreq, AtLeastAsNew, Rreq.Has, Net.Copies, FloodOf;
    RunNumbered(s0, acts);
    RunIssued(s0, acts);
    var s, base, counters := Perform(s0, acts), StartNumbers(s0), Counters(s0, acts);
    assert c in s.Copies(FloodOf(c.h));
    if !c.h.Has(UnknownSeqno) {
      IssuedIsNotAhead(s, base, counters, c.h.dst, c.h.dstSeqNo);
    }
    if c.receiver in s.nodes {
      var n := s.nodes[c.receiver];
      forall e | e in RecvRreq(n, c.h, c.sender, s.now).1 && e.IntermediateReply?
        ensures c.h.dst in s.nodes && AtLeastAsNew(s.nodes[c.h.dst].seqNo, e.toDst.seqNo)
      {
        AnswerIssued(n, c.h, c.sender, s.now, e, base, counters);
        IssuedIsNotAhead(s, base, counters, c.h.dst, e.toDst.seqNo);
      }
    }
  }

  // ---------- the carried number as a counter ----------

  /** The counters behind a number that was issued, or none. */
  function CounterIf(base: map<Address, int>, known: bool, d: Address, x: uint32): seq<int> {
    if known && d in base then [CounterBehind(base[d], x)] else []
  }

  /** What a request says about its destination, as counters of the destination. */
  function Carried(base: map<Address, int>, h: Rreq): seq<int> {
    CounterIf(base, !h.Has(UnknownSeqno), h.dst, h.dstSeqNo)
  }

  /** What a node holds about a destination, as counters of the destination. */
  function HeldCounter(base: map<Address, int>, n: Node, dst: Address, now: Time): seq<int> {
    var k := Held(n, dst, now);
    CounterIf(base, k.Known?, dst, if k.Known? then k.seqNo else 0)
  }

  lemma IssuedCounter(base: map<Address, int>, counters: map<Address, int>, d: Address, x: uint32)
    requires FewRequests(base, counters) && Issued(base, counters, d, x)
    ensures d in base && base[d] < CounterBehind(base[d], x) <= counters[d] && Truncate(CounterBehind(base[d], x)) == x
  {
    hide CounterBehind, Truncate;
    var y :| base[d] < y <= counters[d] && x == Truncate(y);
    CounterBehindExact(base[d], y);
  }

  /** The larger of what two sides know, or what one of them knows. */
  function Larger(xs: seq<int>, ys: seq<int>): seq<int> {
    if xs + ys == [] then [] else [MaxOf(xs + ys)]
  }

  lemma CarriedBehind(base: map<Address, int>, counters: map<Address, int>, h: Rreq)
    requires FewRequests(base, counters) && HeaderIssued(h, base, counters)
    ensures CarriesMax(h, Carried(base, h)) && |Carried(base, h)| <= 1
    ensures forall x :: x in Carried(base, h) ==>
              h.dst in base && h.dst in counters && base[h.dst] < x <= counters[h.dst]
  {
    hide Issued, CounterBehind, Truncate, MaxOf, GetFlag;
    if !h.Has(UnknownSeqno) {
      IssuedCounter(base, counters, h.dst, h.dstSeqNo);
      assert h.dst in base by { IssuedCounter(base, counters, h.dst, h.dstSeqNo); }
      MaxOfOne(CounterBehind(base[h.dst], h.dstSeqNo));
    }
  }

  lemma HeldBehind(base: map<Address, int>, counters: map<Address, int>, n: Node, dst: Address, now: Time)
    requires FewRequests(base, counters) && TableIssued(n, base, counters)
    ensures Behind(HeldCounter(base, n, dst, now), Held(n, dst, now)) && |HeldCounter(base, n, dst, now)| <= 1
    ensures forall x :: x in HeldCounter(base, n, dst, now) ==>
              dst in base && dst in counters && base[dst] < x <= counters[dst]
  {
    hide Issued, CounterBehind, Truncate, Held, TableIssued;
    HeldIsIssued(n, dst, now, base, counters);
    var k := Held(n, dst, now);
    if k.Known? {
      IssuedCounter(base, counters, dst, k.seqNo);
    }
  }

  lemma CloseBecauseFew(base: map<Address, int>, counters: map<Address, int>, d: Address, xs: seq<int>, ys: seq<int>)
    requires FewRequests(base, counters)
    requires forall x :: x in xs || x in ys ==> d in base && d in counters && base[d] < x <= counters[d]
    ensures Close(xs + ys)
  {
  }

  /** What the receiver of a copy in flight holds and what the copy carries are counters, close enough to compare. */
  lemma CountersAtDelivery(s0: Net, acts: seq<Action>, c: Copy)
    requires Initial(s0) && NoNumbers(s0) && ProtocolRuns.IsRun(s0, acts)
    requires FewRequests(StartNumbers(s0), Counters(s0, acts)) && c in Perform(s0, acts).Copies(FloodOf(c.h))
    requires c.receiver in Perform(s0, acts).nodes
    ensures var s, base, counters := Perform(s0, acts), StartNumbers(s0), Counters(s0, acts);
            var n := s.nodes[c.receiver];
            var soFar, xs := Carried(base, c.h), HeldCounter(base, n, c.h.dst, s.now);
            && n.cfg.deletePeriod >= 0
            && CarriesMax(c.h, soFar) && Behind(xs, Held(n, c.h.dst, s.now)) && Close(soFar + xs)
            && |soFar| <= 1 && |xs| <= 1
            && forall x :: x in soFar || x in xs ==>
                 c.h.dst in base && c.h.dst in counters && base[c.h.dst] < x <= counters[c.h.dst]
  {
    hide *;
    RunIssued(s0, acts);
    AtDelivery(Perform(s0, acts), StartNumbers(s0), Counters(s0, acts), c);
  }

  lemma AtDelivery(s: Net, base: map<Address, int>, counters: map<Address, int>, c: Copy)
    requires AllIssued(s, base, counters) && FewRequests(base, counters)
    requires c in s.Copies(FloodOf(c.h)) && c.receiver in s.nodes
    ensures var n := s.nodes[c.receiver];
            var soFar, xs := Carried(base, c.h), HeldCounter(base, n, c.h.dst, s.now);
            && n.cfg.deletePeriod >= 0
            && CarriesMax(c.h, soFar) && Behind(xs, Held(n, c.h.dst, s.now)) && Close(soFar + xs)
            && |soFar| <= 1 && |xs| <= 1
            && forall x :: x in soFar || x in xs ==>
                 c.h.dst in base && c.h.dst in counters && base[c.h.dst] < x <= counters[c.h.dst]
  {
    hide FewRequests, Carried, HeldCounter, TableIssued, HeaderIssued, CarriesMax, Behind, Held, Close, Net.Copies;
    hide FloodOf;
    var n := s.nodes[c.receiver];
    assert c in s.Copies(FloodOf(c.h));
    CarriedBehind(base, counters, c.h);
    HeldBehind(base, counters, n, c.h.dst, s.now);
    CloseBecauseFew(base, counters, c.h.dst, Carried(base, c.h), HeldCounter(base, n, c.h.dst, s.now));
  }

  lemma CarriedIsMaximum(base: map<Address, int>, counters: map<Address, int>, h: Rreq, xs: seq<int>)
    requires FewRequests(base, counters) && CarriesMax(h, xs)
    requires forall x :: x in xs ==> h.dst in base && h.dst in counters && base[h.dst] < x <= counters[h.dst]
    ensures Carried(base, h) == if xs == [] then [] else [MaxOf(xs)]
  {
    hide Truncate, CounterBehind, GetFlag;
    if xs != [] {
      CounterBehindExact(base[h.dst], MaxOf(xs));
    }
  }

  /**
   In every reachable state, with nothing assumed of what is delivered: what a request
   sent on carries, as a counter of its destination, is the larger of what it brought and
   what the node holds, and unknown exactly if neither is known.
   */
  lemma NetworkCarriesMaximum(s0: Net, acts: seq<Action>, c: Copy, h: Rreq)
    requires Initial(s0) && NoNumbers(s0) && ProtocolRuns.IsRun(s0, acts)
    requires FewRequests(StartNumbers(s0), Counters(s0, acts)) && c in Perform(s0, acts).Copies(FloodOf(c.h))
    requires var s := Perform(s0, acts);
             c.receiver in s.nodes && Broadcast(h) in RecvRreq(s.nodes[c.receiver], c.h, c.sender, s.now).1
    ensures var s, base := Perform(s0, acts), StartNumbers(s0);
            Carried(base, h) == Larger(Carried(base, c.h), HeldCounter(base, s.nodes[c.receiver], c.h.dst, s.now))
  {
    hide Initial, NoNumbers, Allowed, ProtocolRuns.IsRun, Perform, Counters, StartNumbers, Counter, FewRequests;
    hide RecvRreq, Carried, HeldCounter, Held, Behind, Close, CarriesMax, Net.Copies, FloodOf;
    CountersAtDelivery(s0, acts, c);
    var s, base, counters := Perform(s0, acts), StartNumbers(s0), Counters(s0, acts);
    var n := s.nodes[c.receiver];
    var soFar, xs := Carried(base, c.h), HeldCounter(base, n, c.h.dst, s.now);
    ForwardTakesMaximum(n, c.h, c.sender, s.now, h, soFar, xs);
    CarriedIsMaximum(base, counters, h, soFar + xs);
  }

  /** A request that is originated carries exactly what its originator holds, as a counter of the destination. */
  lemma NetworkOriginatorCarries(s0: Net, acts: seq<Action>, a: Address, dst: Address)
    requires Initial(s0) && NoNumbers(s0) && ProtocolRuns.IsRun(s0, acts)
    requires FewRequests(StartNumbers(s0), Counters(s0, acts)) && a in Perform(s0, acts).nodes
    requires var s := Perform(s0, acts); !SendRequest(s.nodes[a], dst, s.now).1[0].Deferred?
    ensures var s, base := Perform(s0, acts), StartNumbers(s0);
            Carried(base, SendRequest(s.nodes[a], dst, s.now).1[0].h) == HeldCounter(base, s.nodes[a], dst, s.now)
  {
    hide Initial, NoNumbers, Allowed, ProtocolRuns.IsRun, Perform, Counters, StartNumbers, Counter, FewRequests;
    hide SendRequest, Carried, HeldCounter, Held, Behind, CarriesMax, TableIssued;
    RunIssued(s0, acts);
    var s, base, counters := Perform(s0, acts), StartNumbers(s0), Counters(s0, acts);
    var xs := HeldCounter(base, s.nodes[a], dst, s.now);
    HeldBehind(base, counters, s.nodes[a], dst, s.now);
    NotAtLimit(s.nodes[a], dst, s.now);
    RequestEvents(s.nodes[a], dst, s.now);
    OriginatorCarries(s.nodes[a], dst, s.now, xs);
    CarriedIsMaximum(base, counters, SendRequest(s.nodes[a], dst, s.now).1[0].h, xs);
    if xs != [] {
      assert xs == [xs[0]];
      MaxOfOne(xs[0]);
    }
  }

  /**
   In every reachable state an intermediate reply comes from an unexpired VALID entry
   whose number, as a counter of the destination, is one the destination has issued and
   at least what the request carries.
   */
  lemma NetworkReplyIsFresh(s0: Net, acts: seq<Action>, c: Copy, e: Event)
    requires Initial(s0) && NoNumbers(s0) && ProtocolRuns.IsRun(s0, acts)
    requires FewRequests(StartNumbers(s0), Counters(s0, acts)) && c in Perform(s0, acts).Copies(FloodOf(c.h))
    requires var s := Perform(s0, acts);
             && c.receiver in s.nodes && e in RecvRreq(s.nodes[c.receiver], c.h, c.sender, s.now).1
             && e.IntermediateReply?
    ensures var s, base, counters := Perform(s0, acts), StartNumbers(s0), Counters(s0, acts);
            && c.h.dst in base && c.h.dst in counters
            && var x := CounterBehind(base[c.h.dst], e.toDst.seqNo);
               && base[c.h.dst] < x <= counters[c.h.dst]
               && (forall y :: y in Carried(base, c.h) ==> y <= x)
               && e.toDst.flag == VALID && !e.toDst.Expired(s.now) && e.toDst.via != c.sender
  {
    hide Initial, NoNumbers, Allowed, ProtocolRuns.IsRun, Perform, Counters, StartNumbers, Counter, FewRequests;
    hide RecvRreq, Carried, CounterBehind, Close, CarriesMax, Behind, Held, Net.Copies, FloodOf, HeldCounter;
    CountersAtDelivery(s0, acts, c);
    var s, base, counters := Perform(s0, acts), StartNumbers(s0), Counters(s0, acts);
    var n := s.nodes[c.receiver];
    ForwardedHeader(n, c.h, c.sender, s.now, e);
    var xs := HeldCounter(base, n, c.h.dst, s.now);
    KnownCounter(base, n, c.h.dst, s.now, e.toDst.seqNo);
    assert xs[0] in xs;
    IntermediateReplyIsFresh(n, c.h, c.sender, s.now, e, Carried(base, c.h), xs[0]);
  }

  lemma KnownCounter(base: map<Address, int>, n: Node, dst: Address, now: Time, x: uint32)
    requires Held(n, dst, now) == Known(x) && Behind(HeldCounter(base, n, dst, now), Held(n, dst, now))
    ensures dst in base && HeldCounter(base, n, dst, now) == [CounterBehind(base[dst], x)]
  {
    hide Held, CounterBehind;
  }
}
