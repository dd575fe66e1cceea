/**
 Runs of the network in which routing tables change only by the protocol and by the
 table's own operations, at any node and any time. What such a run does to one node is
 a run of that node as in `NodeRuns`.
 */
module ProtocolRuns {
  import opened Types
  import opened Nodes
  import opened Flood
  import FloodRuns
  import NodeRuns

  /** A step of the network, or an operation on the table of one node. */
  datatype Action = Network(step: Step) | Local(n: Address, op: NodeRuns.Op)

  predicate Allowed(s: Net, a: Action) {
    match a
    case Network(step) => Enabled(s, step) && !step.Interfere?
    case Local(n, op) => n in s.nodes && !op.Receive? && !op.Send?
  }

  /** The node after an operation that involves no message. */
  function LocalStep(s: Net, n: Address, op: NodeRuns.Op): Node
    requires n in s.nodes
  {
    NodeRuns.Step(s.nodes[n], NodeRuns.At(s.now, op))
  }

  function AsStep(s: Net, a: Action): (step: Step)
    requires Allowed(s, a)
    ensures Enabled(s, step)
  {
    match a
    case Network(step) => step
    case Local(n, op) => Interfere(n, LocalStep(s, n, op).table, LocalStep(s, n, op).rreqCount)
  }

  predicate IsRun(s: Net, acts: seq<Action>)
    decreases |acts|, 0
  {
    acts == [] || (IsRun(s, acts[..|acts| - 1]) && Allowed(Perform(s, acts[..|acts| - 1]), acts[|acts| - 1]))
  }

  /** The network after the actions of a run. */
  function Perform(s: Net, acts: seq<Action>): Net
    requires IsRun(s, acts)
    decreases |acts|, 1
  {
    if acts == [] then s
    else
      var before := Perform(s, acts[..|acts| - 1]);
      Apply(before, AsStep(before, acts[|acts| - 1]))
  }

  /** The run as steps of the network. */
  function Steps(s: Net, acts: seq<Action>): seq<Step>
    requires IsRun(s, acts)
  {
    if acts == [] then []
    else
      var front := acts[..|acts| - 1];
      Steps(s, front) + [AsStep(Perform(s, front), acts[|acts| - 1])]
  }

  lemma {:induction false} RunsAgree(s: Net, acts: seq<Action>)
    requires IsRun(s, acts)
    ensures FloodRuns.IsRun(s, Steps(s, acts)) && FloodRuns.Exec(s, Steps(s, acts)) == Perform(s, acts)
  {
    hide Apply, Enabled, AsStep, Allowed;
    if acts != [] {
      var front, last := acts[..|acts| - 1], acts[|acts| - 1];
      RunsAgree(s, front);
      FloodRuns.RunExtends(s, Steps(s, front), AsStep(Perform(s, front), last));
    }
  }

  /** Everything proved of floods holds of these runs. */
  lemma ReachableInv(s0: Net, acts: seq<Action>)
    requires Initial(s0) && IsRun(s0, acts)
    ensures Inv(Perform(s0, acts)) && Perform(s0, acts).nodes.Keys == s0.nodes.Keys
  {
    hide *;
    RunsAgree(s0, acts);
    FloodRuns.InitialInv(s0);
    FloodRuns.RunKeepsInv(s0, Steps(s0, acts));
  }

  lemma {:induction false} PrefixIsRun(s: Net, acts: seq<Action>, k: nat)
    requires IsRun(s, acts) && k <= |acts|
    ensures IsRun(s, acts[..k])
  {
    hide Allowed, Perform;
    if k < |acts| {
      assert acts[..|acts| - 1][..k] == acts[..k];
      PrefixIsRun(s, acts[..|acts| - 1], k);
    } else {
      assert acts[..k] == acts;
    }
  }

  // ---------- what a run does to one node ----------

  /** What an action makes node `m` do, if anything. */
  function OpAt(s: Net, a: Action, m: Address): seq<NodeRuns.TimedOp> {
    match a
    case Network(Originate(n, dst, _)) => if n == m then [NodeRuns.At(s.now, NodeRuns.Send(dst))] else []
    case Network(Deliver(c, _)) => if c.receiver == m then [NodeRuns.At(s.now, NodeRuns.Receive(c.h, c.sender))] else []
    case Network(_) => []
    case Local(n, op) => if n == m then [NodeRuns.At(s.now, op)] else []
  }

  /** The node after no operation or one. */
  function After(n: Node, ops: seq<NodeRuns.TimedOp>): Node
    requires |ops| <= 1
  {
    if ops == [] then n else NodeRuns.Step(n, ops[0])
  }

  lemma LocalIsInterference(s: Net, n: Address, op: NodeRuns.Op)
    requires n in s.nodes && !op.Receive? && !op.Send?
    ensures Apply(s, Interfere(n, LocalStep(s, n, op).table, LocalStep(s, n, op).rreqCount))
         == s.(nodes := s.nodes[n := LocalStep(s, n, op)])
  {
  }

  /** An action does to each node what that node's own operation does. */
  lemma ActionAtNode(s: Net, a: Action, m: Address)
    requires Allowed(s, a) && m in s.nodes
    ensures var s' := Apply(s, AsStep(s, a));
            m in s'.nodes && s'.nodes[m] == After(s.nodes[m], OpAt(s, a, m))
  {
    hide RecvRreq, SendRequest, Sent, Flood.RecordOf;
    match a {
      case Local(n, op) =>
        LocalIsInterference(s, n, op);
      case Network(step) =>
        match step {
          case Originate(n, dst, hearers) => OriginatedParts(s, n, dst, hearers, (n, 0));
          case Deliver(c, hearers) => RecordOfDelivery(s, c, hearers);
          case _ =>
        }
    }
  }
}
