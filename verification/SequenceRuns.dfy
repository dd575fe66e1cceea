/**
 Sequence numbers over whole runs and paths: the 32-bit values that are stored and
 carried are the truncations of maxima of unbounded counters.
 */
module SequenceRuns {
  import opened Types
  import opened SerialNumbers
  import opened Tables
  import opened Packets
  import opened Nodes
  import opened NodeRuns

  // ---------- the stored number of an originator ----------

  /** An operation, and for a received request the counter its originator truncated. */
  datatype Arrival = Arrival(o: TimedOp, counter: int)

  predicate Authentic(a: Arrival) {
    a.o.op.Receive? ==> a.o.op.h.originSeqNo == Truncate(a.counter)
  }

  /** Per destination, the counters received since its entry last became valid. */
  type History = map<Address, seq<int>>

  /** The entry has a valid sequence number when the operation looks it up. */
  predicate ValidNumber(n: Node, d: Address, now: Time) {
    d in n.Purged(now) && n.Purged(now)[d].validSeqNo
  }

  function CountersOf(hist: History, d: Address): seq<int> {
    if d in hist then hist[d] else []
  }

  function NextHistory(n: Node, hist: History, a: Arrival): History {
    var t := Step(n, a.o).table;
    map d | d in t && t[d].validSeqNo ::
      if AcceptsFrom(n, a.o, d) then
        (if ValidNumber(n, d, a.o.now) then CountersOf(hist, d) else []) + [a.counter]
      else CountersOf(hist, d)
  }

  /** Every valid stored number is the truncated maximum of the counters in its history. */
  ghost predicate StoresMaxima(n: Node, hist: History) {
    forall d :: d in n.table && n.table[d].validSeqNo ==>
      CountersOf(hist, d) != [] && n.table[d].seqNo == Truncate(MaxOf(CountersOf(hist, d)))
  }

  /** A counter that is compared lies less than half the number range from the largest so far. */
  ghost predicate InWindow(n: Node, hist: History, a: Arrival) {
    forall d :: AcceptsFrom(n, a.o, d) && ValidNumber(n, d, a.o.now) && CountersOf(hist, d) != [] ==>
      -TWO31 <= a.counter - MaxOf(CountersOf(hist, d)) < TWO31
  }

  /** Nothing but an accepted request from `d` itself touches the sequence number stored for `d`. */
  lemma SeqNoKept(n: Node, o: TimedOp, d: Address)
    requires n.cfg.deletePeriod >= 0 && !AcceptsFrom(n, o, d)
    requires d in Step(n, o).table && Step(n, o).table[d].validSeqNo
    ensures d in n.table && n.table[d].validSeqNo && n.table[d].seqNo == Step(n, o).table[d].seqNo
  {
    match o.op {
      case Receive(h, src) =>
        hide RecvRreq, Node.Accepts;
        ReceiveKeepsOthers(n, h, src, o.now, d);
      case Send(dst) =>
        hide SendRequest;
        SendKeepsRoutes(n, dst, o.now, d);
        SendAtLimit(n, dst, o.now);
      case _ =>
    }
  }

  /** An accepted request stores its own number, or the larger of it and a valid stored one. */
  lemma AcceptedSeqNo(n: Node, h: Rreq, src: Address, now: Time)
    requires n.cfg.deletePeriod >= 0 && n.Accepts(h, src, now)
    ensures h.origin in RecvRreq(n, h, src, now).0.table
    ensures RecvRreq(n, h, src, now).0.table[h.origin].seqNo ==
              if ValidNumber(n, h.origin, now) && !Newer(h.originSeqNo, n.Purged(now)[h.origin].seqNo)
              then n.Purged(now)[h.origin].seqNo else h.originSeqNo
    ensures ValidNumber(n, h.origin, now) ==>
              && h.origin in n.table && n.table[h.origin].validSeqNo
              && n.table[h.origin].seqNo == n.Purged(now)[h.origin].seqNo
  {
    hide RecvRreq, Node.Accepts, Newer;
    AcceptedTable(n, h, src, now);
  }

  /**
   A request whose number is not newer than the stored one leaves that number, but
   redirects the route all the same: exactly when it is accepted, and comes from another
   node than the next hop so far. This is why reverse paths are ordered per flood and
   not across floods.
   */
  lemma OlderRequestRedirects(n: Node, h: Rreq, src: Address, now: Time)
    requires n.cfg.deletePeriod >= 0
    requires ValidNumber(n, h.origin, now) && !Newer(h.originSeqNo, n.Purged(now)[h.origin].seqNo)
    ensures h.origin in RecvRreq(n, h, src, now).0.table
    ensures RecvRreq(n, h, src, now).0.table[h.origin].seqNo == n.Purged(now)[h.origin].seqNo
    ensures RecvRreq(n, h, src, now).0.table[h.origin].via != n.Purged(now)[h.origin].via
            <==> n.Accepts(h, src, now) && src != n.Purged(now)[h.origin].via
    ensures n.Accepts(h, src, now) ==> RecvRreq(n, h, src, now).0.table[h.origin].via == src
  {
    hide RecvRreq, Node.Accepts, Newer;
    if n.Accepts(h, src, now) {
      AcceptedSeqNo(n, h, src, now);
      ReverseRouteRecorded(n, h, src, now);
    } else {
      ReceiveKeepsOthers(n, h, src, now, h.origin);
    }
  }

  /** It happens: a request numbered 3 moves the route numbered 5 from node 3 to node 4. */
  lemma OlderRequestOccurs()
    ensures var r := Row.Entry(3, true, 5, 1, 0, 1_000, VALID, 0, false, 0);
            var n := Node(1, DefaultConfig(), map[2 := r], [], 0, 0, 0);
            var h := Rreq(0, 0, 0, 1, 9, 0, 2, 3, 0);
            var t := RecvRreq(n, h, 4, 0).0.table;
            && n.Accepts(h, 4, 0) && Newer(r.seqNo, h.originSeqNo)
            && 2 in t && t[2].via == 4 && t[2].seqNo == 5
  {
    var r := Row.Entry(3, true, 5, 1, 0, 1_000, VALID, 0, false, 0);
    var n := Node(1, DefaultConfig(), map[2 := r], [], 0, 0, 0);
    var h := Rreq(0, 0, 0, 1, 9, 0, 2, 3, 0);
    assert n.Purged(0) == map[2 := r];
    assert n.Accepts(h, 4, 0);
    hide RecvRreq, Node.Accepts, Node.Purged;
    OlderRequestRedirects(n, h, 4, 0);
  }

  lemma StepStoresMaxima(n: Node, hist: History, a: Arrival)
    requires n.cfg.deletePeriod >= 0 && StoresMaxima(n, hist) && Authentic(a) && InWindow(n, hist, a)
    ensures StoresMaxima(Step(n, a.o), NextHistory(n, hist, a))
  {
    hide Step, Newer, MaxOf, Node.Accepts, Node.Purged;
    var n', hist' := Step(n, a.o), NextHistory(n, hist, a);
    forall d | d in n'.table && n'.table[d].validSeqNo
      ensures CountersOf(hist', d) != [] && n'.table[d].seqNo == Truncate(MaxOf(CountersOf(hist', d)))
    {
      if AcceptsFrom(n, a.o, d) {
        StoresNewMaximum(n, hist, a, d);
      } else {
        SeqNoKept(n, a.o, d);
      }
    }
  }

  lemma StoresNewMaximum(n: Node, hist: History, a: Arrival, d: Address)
    requires n.cfg.deletePeriod >= 0 && StoresMaxima(n, hist) && Authentic(a) && InWindow(n, hist, a)
    requires AcceptsFrom(n, a.o, d)
    ensures d in Step(n, a.o).table
    ensures Step(n, a.o).table[d].seqNo ==
              Truncate(MaxOf((if ValidNumber(n, d, a.o.now) then CountersOf(hist, d) else []) + [a.counter]))
  {
    var h := a.o.op.h;
    AcceptedSeqNo(n, h, a.o.op.src, a.o.now);
    hide RecvRreq, Newer, MaxOf, Node.Accepts, Node.Purged, Truncate;
    if ValidNumber(n, d, a.o.now) {
      var soFar := CountersOf(hist, d);
      NewerExactly(a.counter, MaxOf(soFar));
      MaxOfAppend(soFar, a.counter);
    } else {
      assert [] + [a.counter] == [a.counter];
      MaxOfOne(a.counter);
    }
  }

  lemma MaxOfOne(x: int)
    ensures MaxOf([x]) == x
  {
  }

  function Ops(run: seq<Arrival>): seq<TimedOp> {
    seq(|run|, i requires 0 <= i < |run| => run[i].o)
  }

  function HistoryOf(n: Node, run: seq<Arrival>): History {
    if run == [] then map[]
    else
      var front := run[..|run| - 1];
      NextHistory(Exec(n, Ops(front)), HistoryOf(n, front), run[|run| - 1])
  }

  ghost predicate WindowedRun(n: Node, run: seq<Arrival>) {
    forall k :: 0 <= k < |run| ==>
      Authentic(run[k]) && InWindow(Exec(n, Ops(run[..k])), HistoryOf(n, run[..k]), run[k])
  }

  /**
   Over every run of a node that starts with no valid number, as long as the
   counters compared stay within half the number range of each other, each valid
   stored number is the truncated maximum of the counters received from that
   originator since the entry became valid: the wrapping comparison does over whole
   runs what the ordinary one would.
   */
  lemma {:induction false} StoredNumbersAreMaxima(n: Node, run: seq<Arrival>)
    requires n.cfg.deletePeriod >= 0 && WindowedRun(n, run)
    requires forall d :: d in n.table ==> !n.table[d].validSeqNo
    ensures StoresMaxima(Exec(n, Ops(run)), HistoryOf(n, run))
  {
    hide InWindow, StoresMaxima, Step, NextHistory;
    if run == [] {
      assert StoresMaxima(n, map[]) by { NothingStored(n); }
    } else {
      var front, last := run[..|run| - 1], run[|run| - 1];
      WindowedPrefix(n, run);
      assert front == run[..|front|];
      hide WindowedRun;
      StoredNumbersAreMaxima(n, front);
      ExecLast(n, run);
      RunConfig(n, Ops(front));
      hide Exec, HistoryOf, Ops;
      StepStoresMaxima(Exec(n, Ops(front)), HistoryOf(n, front), last);
    }
  }

  lemma WindowedPrefix(n: Node, run: seq<Arrival>)
    requires run != [] && WindowedRun(n, run)
    ensures WindowedRun(n, run[..|run| - 1])
    ensures Authentic(run[|run| - 1])
    ensures InWindow(Exec(n, Ops(run[..|run| - 1])), HistoryOf(n, run[..|run| - 1]), run[|run| - 1])
  {
    hide InWindow, Authentic, Exec, HistoryOf;
    var front := run[..|run| - 1];
    forall k | 0 <= k < |front|
      ensures Authentic(front[k]) && InWindow(Exec(n, Ops(front[..k])), HistoryOf(n, front[..k]), front[k])
    {
      assert front[..k] == run[..k];
    }
  }

  lemma ExecLast(n: Node, run: seq<Arrival>)
    requires run != []
    ensures var front, last := run[..|run| - 1], run[|run| - 1];
            Exec(n, Ops(run)) == Step(Exec(n, Ops(front)), last.o)
            && HistoryOf(n, run) == NextHistory(Exec(n, Ops(front)), HistoryOf(n, front), last)
  {
    hide Step, NextHistory;
    assert Ops(run)[..|run| - 1] == Ops(run[..|run| - 1]);
  }

  lemma NothingStored(n: Node)
    requires forall d :: d in n.table ==> !n.table[d].validSeqNo
    ensures StoresMaxima(n, map[])
  {
  }

  // ---------- the carried number of the destination ----------

  /** What a node holds about the destination when it looks it up. */
  function Held(n: Node, dst: Address, now: Time): Knowledge {
    if ValidNumber(n, dst, now) then Known(n.Purged(now)[dst].seqNo) else Unknown
  }

  /** The counters behind what a node holds: none or one. */
  ghost predicate Behind(xs: seq<int>, k: Knowledge) {
    match k
    case Unknown => xs == []
    case Known(s) => |xs| == 1 && s == Truncate(xs[0])
  }

  /** The header knows a number exactly when there are counters, and it is then their maximum, truncated. */
  ghost predicate CarriesMax(h: Rreq, xs: seq<int>) {
    && (h.Has(UnknownSeqno) <==> xs == [])
    && (xs != [] ==> h.dstSeqNo == Truncate(MaxOf(xs)))
  }

  ghost predicate Close(xs: seq<int>) {
    forall x, y :: x in xs && y in xs ==> -TWO31 < x - y < TWO31
  }

  /** A request as it is originated. */
  lemma OriginatorCarries(n: Node, dst: Address, now: Time, xs: seq<int>)
    requires n.rreqCount != n.cfg.rreqRateLimit && Behind(xs, Held(n, dst, now))
    ensures var h := SendRequest(n, dst, now).1[0].h;
            CarriesMax(h, xs) && h.dst == dst && h.origin == n.self
            && h.Has(DestinationOnly) == n.cfg.destinationOnly
  {
    var base := Rreq(0, 0, 0, 0, dst, 0, NULL_ADDRESS, 0, 0);
    var h0 := DestinationFields(n.Purged(now), dst);
    SetThenGet(0, UnknownSeqno, true, UnknownSeqno);
    SetThenGet(0, UnknownSeqno, true, DestinationOnly);
    var g := if n.cfg.gratuitousReply then h0.With(GratuitousRrep, true) else h0;
    SetThenGet(h0.flags, GratuitousRrep, true, UnknownSeqno);
    SetThenGet(h0.flags, GratuitousRrep, true, DestinationOnly);
    SetThenGet(g.flags, DestinationOnly, true, UnknownSeqno);
    SetThenGet(g.flags, DestinationOnly, true, DestinationOnly);
  }

  /** The table a request is answered from holds, for any destination but the originator, the purged entry. */
  lemma AnsweredFrom(n: Node, p: Rreq, src: Address, now: Time)
    requires n.cfg.deletePeriod >= 0 && p.dst != p.origin
    ensures var bad, h := n.cfg.deletePeriod, Hopped(p);
            var t := Purge(RecordReverseRoute(n.Purged(now), h, src, n.cfg, now).0, bad, now);
            (p.dst in t <==> p.dst in n.Purged(now)) && (p.dst in t ==> t[p.dst] == n.Purged(now)[p.dst])
  {
    RecordWritesOneEntry(n.table, Hopped(p), src, n.cfg, now);
    PurgeIdempotentExactly(n.table, n.cfg.deletePeriod, now);
  }

  /** What a node may do with a request for a destination other than itself, by what it holds. */
  lemma ForwardedHeader(n: Node, p: Rreq, src: Address, now: Time, e: Event)
    requires n.cfg.deletePeriod >= 0 && e in RecvRreq(n, p, src, now).1
    ensures e.Broadcast? || e.IntermediateReply? ==> p.dst != p.origin
    ensures var k := Held(n, p.dst, now);
            && (e.Broadcast? && k.Unknown? ==> e.h == Hopped(p))
            && (e.Broadcast? && k.Known? ==>
                  e.h == if p.Has(UnknownSeqno) || AtLeastAsNew(k.seqNo, p.dstSeqNo)
                         then Hopped(p).(dstSeqNo := k.seqNo).With(UnknownSeqno, false) else Hopped(p))
            && (e.IntermediateReply? ==>
                  && k == Known(e.toDst.seqNo) && e.toDst.validSeqNo && e.toDst.flag == VALID && e.toDst.via != src
                  && e.toDst == n.Purged(now)[p.dst]
                  && !p.Has(DestinationOnly)
                  && (p.Has(UnknownSeqno) || AtLeastAsNew(k.seqNo, p.dstSeqNo)))
  {
    if p.dst == p.origin {
      ResponseExactly(n, p, src, now);
      hide RecvRreq;
    } else {
      AnsweredFrom(n, p, src, now);
      hide RecordReverseRoute, Purge, Rreq.With, AtLeastAsNew;
    }
  }

  /** One hop of a forwarded request takes the maximum with what the node holds. */
  lemma ForwardTakesMaximum(n: Node, p: Rreq, src: Address, now: Time, h: Rreq, soFar: seq<int>, xs: seq<int>)
    requires n.cfg.deletePeriod >= 0 && Broadcast(h) in RecvRreq(n, p, src, now).1
    requires CarriesMax(p, soFar) && Behind(xs, Held(n, p.dst, now)) && Close(soFar + xs)
    ensures CarriesMax(h, soFar + xs) && h.dst == p.dst && h.origin == p.origin
  {
    hide RecvRreq, Held, Truncate, AtLeastAsNew, MaxOf, SetFlag, GetFlag, Close;
    ForwardedHeader(n, p, src, now, Broadcast(h));
    if xs == [] {
      assert soFar + xs == soFar;
    } else {
      assert xs == [xs[0]];
      TakesMaximum(Hopped(p), xs[0], soFar);
    }
  }

  /** Taking the fresher of the carried number and a held one is taking the maximum. */
  lemma TakesMaximum(h: Rreq, x: int, soFar: seq<int>)
    requires CarriesMax(h, soFar) && Close(soFar + [x])
    ensures CarriesMax(if h.Has(UnknownSeqno) || AtLeastAsNew(Truncate(x), h.dstSeqNo)
                       then h.(dstSeqNo := Truncate(x)).With(UnknownSeqno, false) else h, soFar + [x])
  {
    hide Truncate, AtLeastAsNew, MaxOf, SetFlag, GetFlag;
    SetThenGet(h.flags, UnknownSeqno, false, UnknownSeqno);
    if soFar == [] {
      assert soFar + [x] == [x];
      MaxOfOne(x);
    } else {
      assert x in soFar + [x] && MaxOf(soFar) in soFar + [x];
      NewerExactly(x, MaxOf(soFar));
      MaxOfAppend(soFar, x);
    }
  }

  /**
   An intermediate node replies only from a VALID entry whose number is at least as
   fresh as everything the request has seen, and never when only the destination may.
   */
  lemma IntermediateReplyIsFresh(n: Node, p: Rreq, src: Address, now: Time, e: Event, soFar: seq<int>, x: int)
    requires n.cfg.deletePeriod >= 0
    requires e in RecvRreq(n, p, src, now).1 && e.IntermediateReply?
    requires CarriesMax(p, soFar) && Behind([x], Held(n, p.dst, now)) && Close(soFar + [x])
    ensures e.toDst.flag == VALID && e.toDst.validSeqNo && e.toDst.seqNo == Truncate(x)
    ensures !e.toDst.Expired(now) && !p.Has(DestinationOnly) && e.toDst.via != src
    ensures forall y :: y in soFar ==> y <= x
  {
    ForwardedHeader(n, p, src, now, e);
    PurgeLeavesNothingExpired(n.table, n.cfg.deletePeriod, now, p.dst);
    if soFar != [] {
      assert x in soFar + [x] && MaxOf(soFar) in soFar + [x];
      NewerExactly(x, MaxOf(soFar));
    }
  }

  /** A forwarding node does not modify what it holds itself about the destination. */
  lemma ForwarderKeepsOwnNumber(n: Node, p: Rreq, src: Address, now: Time)
    requires n.cfg.deletePeriod >= 0 && p.dst != p.origin
    ensures var t := RecvRreq(n, p, src, now).0.table;
            (p.dst in t <==> p.dst in n.Purged(now)) && (p.dst in t ==> t[p.dst] == n.Purged(now)[p.dst])
  {
    ReceiveKeepsOthers(n, p, src, now, p.dst);
  }

  /** A node on the path of a request, the counters behind what it holds, and the header it sends on. */
  datatype Forwarder = Forwarder(n: Node, src: Address, now: Time, xs: seq<int>, sent: Rreq)

  /** The header that arrives at forwarder `i`, or leaves the last one. */
  function HeaderAt(h0: Rreq, path: seq<Forwarder>, i: nat): Rreq
    requires i <= |path|
  {
    if i == 0 then h0 else path[i - 1].sent
  }

  /** All counters held by the originator and the first `i` forwarders. */
  function Seen(xs0: seq<int>, path: seq<Forwarder>, i: nat): seq<int>
    requires i <= |path|
  {
    if i == 0 then xs0 else Seen(xs0, path, i - 1) + path[i - 1].xs
  }

  ghost predicate IsForwardingPath(h0: Rreq, path: seq<Forwarder>) {
    forall i :: 0 <= i < |path| ==>
      var f, p := path[i], HeaderAt(h0, path, i);
      && f.n.cfg.deletePeriod >= 0
      && Broadcast(f.sent) in RecvRreq(f.n, p, f.src, f.now).1
      && Behind(f.xs, Held(f.n, h0.dst, f.now))
  }

  lemma {:induction false} SeenGrows(xs0: seq<int>, path: seq<Forwarder>, i: nat, j: nat)
    requires i <= j <= |path|
    ensures forall x :: x in Seen(xs0, path, i) ==> x in Seen(xs0, path, j)
    decreases j
  {
    if i < j {
      SeenGrows(xs0, path, i, j - 1);
    }
  }

  /**
   Along every forwarding path the destination number a request carries is the
   running maximum of what the originator and the nodes passed hold: unknown while
   none of them holds a valid number, and otherwise the largest, truncated.
   */
  lemma CarriedNumberIsRunningMaximum(n0: Node, dst: Address, now0: Time, xs0: seq<int>,
                                      path: seq<Forwarder>, i: nat)
    requires n0.rreqCount != n0.cfg.rreqRateLimit && Behind(xs0, Held(n0, dst, now0))
    requires i <= |path| && IsForwardingPath(SendRequest(n0, dst, now0).1[0].h, path)
    requires Close(Seen(xs0, path, |path|))
    ensures var h0 := SendRequest(n0, dst, now0).1[0].h;
            CarriesMax(HeaderAt(h0, path, i), Seen(xs0, path, i))
            && HeaderAt(h0, path, i).dst == dst && HeaderAt(h0, path, i).origin == n0.self
  {
    OriginatorCarries(n0, dst, now0, xs0);
    var h0 := SendRequest(n0, dst, now0).1[0].h;
    hide SendRequest, RecvRreq, Held, Behind;
    PathCarriesMaxima(h0, dst, n0.self, xs0, path, i);
  }

  lemma {:induction false} PathCarriesMaxima(h0: Rreq, dst: Address, origin: Address, xs0: seq<int>,
                                             path: seq<Forwarder>, i: nat)
    requires CarriesMax(h0, xs0) && h0.dst == dst && h0.origin == origin
    requires i <= |path| && IsForwardingPath(h0, path) && Close(Seen(xs0, path, |path|))
    ensures CarriesMax(HeaderAt(h0, path, i), Seen(xs0, path, i))
    ensures HeaderAt(h0, path, i).dst == dst && HeaderAt(h0, path, i).origin == origin
    decreases i
  {
    hide RecvRreq, CarriesMax, Held, Behind;
    if i > 0 {
      PathCarriesMaxima(h0, dst, origin, xs0, path, i - 1);
      var f, p := path[i - 1], HeaderAt(h0, path, i - 1);
      CloseUpTo(xs0, path, i);
      hide Close;
      ForwardTakesMaximum(f.n, p, f.src, f.now, f.sent, Seen(xs0, path, i - 1), f.xs);
    }
  }

  lemma CloseUpTo(xs0: seq<int>, path: seq<Forwarder>, i: nat)
    requires i <= |path| && Close(Seen(xs0, path, |path|))
    ensures Close(Seen(xs0, path, i))
  {
    hide Seen;
    SeenGrows(xs0, path, i, |path|);
  }
}
