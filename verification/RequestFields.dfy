/**
 What a request keeps on its way through the network: the flags its originator is
 configured with, and no transaction amount, which nothing ever sets.
 */
module RequestFields {
  import opened Types
  import opened Packets
  import opened Nodes
  import opened Flood
  import opened SequenceRuns
  import opened ProtocolRuns
  import opened NetworkNumbers
  import LiveRoutes

  /** The header says what the node that originated it is configured to say. */
  ghost predicate AsConfigured(h: Rreq, nodes: map<Address, Node>) {
    && h.origin in nodes
    && h.Has(GratuitousRrep) == nodes[h.origin].cfg.gratuitousReply
    && h.Has(DestinationOnly) == nodes[h.origin].cfg.destinationOnly
    && h.amount == 0 && h.reserved == 0
  }

  ghost predicate AllAsConfigured(s: Net, nodes: map<Address, Node>) {
    forall f, c :: c in s.Copies(f) ==> AsConfigured(c.h, nodes)
  }

  lemma OriginatedAsConfigured(n: Node, dst: Address, now: Time)
    requires !SendRequest(n, dst, now).1[0].Deferred?
    ensures AsConfigured(SendRequest(n, dst, now).1[0].h, map[n.self := n])
  {
    hide DestinationFields, OriginatorFields, SearchTable, GetFlag;
    HeaderAsOriginated(n.Purged(now), dst, n.self, n.cfg, (n.seqNo + 1) % TWO32, (n.requestId + 1) % TWO32);
  }

  /** `nodes` are the nodes as they were at the start: addresses and configurations do not change. */
  lemma StepKeepsFields(s: Net, act: Action, nodes: map<Address, Node>)
    requires Allowed(s, act) && AllAsConfigured(s, nodes)
    requires forall a :: a in s.nodes ==> s.nodes[a].self == a && a in nodes && nodes[a].cfg == s.nodes[a].cfg
    ensures AllAsConfigured(Apply(s, AsStep(s, act)), nodes)
  {
    hide Apply, AsStep, RecvRreq, SendRequest, Net.Copies, FloodOf, Rreq.Has;
    var s' := Apply(s, AsStep(s, act));
    forall f, c | c in s'.Copies(f) ensures AsConfigured(c.h, nodes) {
      HeadersAfter(s, act, f, c);
      if c in s.Copies(f) {
      } else if act.step.Deliver? {
        var d := act.step.c;
        assert d in s.Copies(FloodOf(d.h));
        AnswerContents(s.nodes[d.receiver], d.h, d.sender, s.now, Broadcast(c.h));
      } else {
        OriginatedAsConfigured(s.nodes[act.step.n], act.step.dst, s.now);
      }
    }
  }

  lemma NothingInFlight(s0: Net)
    requires Initial(s0)
    ensures AllAsConfigured(s0, s0.nodes)
  {
  }

  lemma SameNodes(s0: Net, acts: seq<Action>)
    requires Initial(s0) && ProtocolRuns.IsRun(s0, acts)
    ensures var s := Perform(s0, acts);
            forall a :: a in s.nodes ==> s.nodes[a].self == a && a in s0.nodes && s0.nodes[a].cfg == s.nodes[a].cfg
  {
    hide Initial, Allowed, ProtocolRuns.IsRun, Perform, CopiesIssued;
    RunNumbered(s0, acts);
    ReachableInv(s0, acts);
    forall a | a in Perform(s0, acts).nodes ensures a in s0.nodes && s0.nodes[a].cfg == Perform(s0, acts).nodes[a].cfg {
      LiveRoutes.ConfigsKept(s0, acts, a);
    }
  }

  /** In every reachable state every request in flight is as its originator is configured. */
  lemma {:induction false} RunKeepsFields(s0: Net, acts: seq<Action>)
    requires Initial(s0) && ProtocolRuns.IsRun(s0, acts)
    ensures AllAsConfigured(Perform(s0, acts), s0.nodes)
  {
    hide Initial, Allowed, Apply, AsStep, AllAsConfigured;
    if acts == [] {
      NothingInFlight(s0);
    } else {
      var front := acts[..|acts| - 1];
      RunKeepsFields(s0, front);
      SameNodes(s0, front);
      StepKeepsFields(Perform(s0, front), acts[|acts| - 1], s0.nodes);
    }
  }

  /**
   In every reachable state an intermediate reply asks for a gratuitous one if and only
   if the originator of the request is configured for it, and there is none at all if the
   originator wants the destination alone to reply; a destination replies to the request
   as it arrived, one hop on.
   */
  lemma AnswersAsConfigured(s0: Net, acts: seq<Action>, c: Copy, e: Event)
    requires Initial(s0) && ProtocolRuns.IsRun(s0, acts) && c in Perform(s0, acts).Copies(FloodOf(c.h))
    requires var s := Perform(s0, acts);
             c.receiver in s.nodes && e in RecvRreq(s.nodes[c.receiver], c.h, c.sender, s.now).1
    ensures c.h.origin in s0.nodes
    ensures e.IntermediateReply? ==>
              e.gratuitous == s0.nodes[c.h.origin].cfg.gratuitousReply && !s0.nodes[c.h.origin].cfg.destinationOnly
    ensures e.Reply? ==> e.h == c.h.(hopCount := (c.h.hopCount + 1) % 256) && e.h.amount == 0
  {
    hide *;
    RunKeepsFields(s0, acts);
    InFlight(Perform(s0, acts), s0.nodes, c);
    ReachableInv(s0, acts);
    AnswerFields(Perform(s0, acts), s0.nodes, c, e);
  }

  lemma InFlight(s: Net, nodes: map<Address, Node>, c: Copy)
    requires AllAsConfigured(s, nodes) && c in s.Copies(FloodOf(c.h))
    ensures AsConfigured(c.h, nodes)
  {
    hide AsConfigured;
  }

  lemma AnswerFields(s: Net, nodes: map<Address, Node>, c: Copy, e: Event)
    requires Inv(s) && AsConfigured(c.h, nodes) && c.receiver in s.nodes
    requires e in RecvRreq(s.nodes[c.receiver], c.h, c.sender, s.now).1
    ensures c.h.origin in nodes
    ensures e.IntermediateReply? ==>
              e.gratuitous == nodes[c.h.origin].cfg.gratuitousReply && !nodes[c.h.origin].cfg.destinationOnly
    ensures e.Reply? ==> e.h == c.h.(hopCount := (c.h.hopCount + 1) % 256) && e.h.amount == 0
  {
    hide RecvRreq, Rreq.Has;
    ConfigOf(s, c.receiver);
    AnswerContents(s.nodes[c.receiver], c.h, c.sender, s.now, e);
    ForwardedHeader(s.nodes[c.receiver], c.h, c.sender, s.now, e);
  }
}
