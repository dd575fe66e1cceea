/**
 The payment network as a whole. Packets once sent may be handed to any node, at
 any time and any number of times, so they may be delayed, reordered, overheard,
 duplicated or lost. Every packet carries its true sender. The ranking behind the
 relationships is fixed.
 */
module Dissemination {
  import opened Types
  import opened Payments

  datatype World = World(
    nodes: map<Address, Node>,
    sent: set<Packet>,
    originated: set<Interest>)

  datatype Step =
    | Request(n: Address, content: Address)
    | Start(n: Address)
    | SayHello(n: Address)
    | Deliver(n: Address, p: Packet, asKnown: bool)

  /**
   A node starts fewer than 2^32 requests. An interest packet that names a provider
   may go to either interest handler.
   */
  predicate Enabled(w: World, s: Step) {
    && s.n in w.nodes
    && match s
       case Request(_, _) => true
       case Start(n) => w.nodes[n].broadcastId + 1 < TWO32
       case SayHello(_) => true
       case Deliver(_, p, asKnown) => p in w.sent && (asKnown ==> p.InterestPacket? && p.provider.Named?)
  }

  function Handle(rel: Relationship, n: Node, p: Packet, asKnown: bool): (Node, seq<Packet>)
    requires asKnown ==> p.InterestPacket? && p.provider.Named?
  {
    match p
    case Data(_, _, _) => (HandleData(n, p), [])
    case InterestPacket(_, _, _, _) =>
      if asKnown then HandleInterestKnownContentProvider(n, p) else HandleInterestUnknownContentProvider(n, p)
    case Hello(_) => HandleHello(n, rel, p)
    case Digest(_, _, _) => (HandleDigest(n, p), [])
  }

  ghost function Apply(w: World, rel: Relationship, s: Step): World
    requires Enabled(w, s)
  {
    var n := w.nodes[s.n];
    match s
    case Request(a, content) => w.(nodes := w.nodes[a := RequestContent(n, content)])
    case Start(a) =>
      w.(nodes := w.nodes[a := StartApplication(n)],
         originated := if n.requestedContent == NULL_ADDRESS then w.originated else w.originated + {OwnInterest(n)})
    case SayHello(a) => w.(sent := w.sent + {Hello(a)})
    case Deliver(a, p, asKnown) =>
      var (n', packets) := Handle(rel, n, p, asKnown);
      w.(nodes := w.nodes[a := n'], sent := w.sent + set q | q in packets)
  }

  ghost predicate Initial(w: World) {
    && w.sent == {} && w.originated == {}
    && NULL_ADDRESS !in w.nodes
    && forall a :: a in w.nodes ==> w.nodes[a] == NewNode(a)
  }

  ghost predicate IsRun(w: World, rel: Relationship, steps: seq<Step>)
    decreases |steps|, 0
  {
    steps == [] || (IsRun(w, rel, steps[..|steps| - 1])
                    && Enabled(Exec(w, rel, steps[..|steps| - 1]), steps[|steps| - 1]))
  }

  ghost function Exec(w: World, rel: Relationship, steps: seq<Step>): World
    requires IsRun(w, rel, steps)
    decreases |steps|, 1
  {
    if steps == [] then w else Apply(Exec(w, rel, steps[..|steps| - 1]), rel, steps[|steps| - 1])
  }

  // ---------- causality ----------

  /** The interests that the owner of their content has recorded. */
  ghost function Recorded(w: World): set<Interest> {
    set i | i in w.originated && i.content in w.nodes && i in w.nodes[i.content].interests
  }

  /** An interest packet carries an interest that was originated; data answers one its owner recorded. */
  ghost predicate PacketOk(p: Packet, originated: set<Interest>, recorded: set<Interest>) {
    && (p.Data? ==> p.interest in recorded)
    && (p.InterestPacket? ==>
          p.interest in originated && (p.provider.Named? ==> p.provider.address == p.interest.content))
  }

  /** No two pending data entries for the same requester and broadcast id. */
  predicate DataUnique(s: seq<Pending>) {
    forall i, j :: 0 <= i < j < |s| ==>
      (s[i].interest.requester, s[i].interest.broadcastId) != (s[j].interest.requester, s[j].interest.broadcastId)
  }

  ghost predicate NodeOk(n: Node, originated: set<Interest>, recorded: set<Interest>) {
    && (forall e :: e in n.pendingData ==> e.interest in recorded)
    && (forall e :: e in n.pendingUnknown ==> e.interest in originated)
    && (forall e :: e in n.pendingKnown ==> e.interest in originated && e.contentProvider == e.interest.content)
    && DataUnique(n.pendingData)
  }

  /** A requester's broadcast id determines the content it asked for. */
  ghost predicate IdsUnique(originated: set<Interest>) {
    forall i, j ::
      (i in originated && j in originated && i.requester == j.requester && i.broadcastId == j.broadcastId)
      ==> i == j
  }

  ghost predicate Inv(w: World) {
    && (forall a :: a in w.nodes ==> w.nodes[a].self == a && NodeOk(w.nodes[a], w.originated, Recorded(w)))
    && (forall p :: p in w.sent ==> PacketOk(p, w.originated, Recorded(w)))
    && (forall i :: i in w.originated ==> i.requester in w.nodes && i.broadcastId < w.nodes[i.requester].broadcastId)
    && IdsUnique(w.originated)
  }

  lemma NodeOkGrows(n: Node, o: set<Interest>, r: set<Interest>, o': set<Interest>, r': set<Interest>)
    requires NodeOk(n, o, r) && o <= o' && r <= r'
    ensures NodeOk(n, o', r')
  {
  }

  /**
   An interest seen for the first time by its owner has no data pending there: data
   for it exists only once the owner has recorded it.
   */
  lemma FirstServe(n: Node, p: Packet, o: set<Interest>, r: set<Interest>, r': set<Interest>)
    requires p.InterestPacket? && n.self == p.interest.content && p.interest !in n.interests
    requires NodeOk(n, o, r) && PacketOk(p, o, r) && IdsUnique(o) && r <= o
    requires forall i :: i in r && i.content == n.self ==> i in n.interests
    requires r <= r' && p.interest in r'
    ensures NodeOk(n.(interests := n.interests + {p.interest},
                      pendingData := n.pendingData + [Pending(NULL_ADDRESS, p.interest)]), o, r')
  {
    forall e | e in n.pendingData
      ensures (e.interest.requester, e.interest.broadcastId) != (p.interest.requester, p.interest.broadcastId)
    {
      assert e.interest in r;
    }
    forall i | 0 <= i < |n.pendingData| ensures n.pendingData[i] in n.pendingData {
    }
  }

  /** What handling an interest leaves behind, whichever handler it is. */
  lemma HandleInterestOk(rel: Relationship, n: Node, p: Packet, asKnown: bool, o: set<Interest>, r: set<Interest>,
                         r': set<Interest>)
    requires p.InterestPacket? && (asKnown ==> p.provider.Named?)
    requires NodeOk(n, o, r) && PacketOk(p, o, r) && IdsUnique(o) && r <= o
    requires forall i :: i in r && i.content == n.self ==> i in n.interests
    requires r <= r' && (p.dst == n.self == p.interest.content ==> p.interest in r')
    ensures var (n', packets) := Handle(rel, n, p, asKnown);
            NodeOk(n', o, r') && forall q :: q in packets ==> PacketOk(q, o, r')
  {
    NodeOkGrows(n, o, r, o, r');
    if p.dst == n.self && p.interest !in n.interests && n.self == p.interest.content {
      FirstServe(n, p, o, r, r');
    }
  }

  lemma HandleDataOk(n: Node, p: Packet, o: set<Interest>, r: set<Interest>)
    requires p.Data? && NodeOk(n, o, r) && PacketOk(p, o, r)
    ensures NodeOk(HandleData(n, p), o, r)
  {
    forall i | 0 <= i < |n.pendingData| ensures n.pendingData[i] in n.pendingData {
    }
  }

  lemma MeetDataKeeps(rel: Relationship, self: Address, met: Address, e: Pending)
    ensures MeetData(rel, self, met, e).0.interest == e.interest
    ensures forall p :: p in MeetData(rel, self, met, e).1 ==> p == Data(self, met, e.interest)
  {
  }

  lemma MeetKnownKeeps(rel: Relationship, self: Address, met: Address, e: PendingKnown)
    ensures MeetKnown(rel, self, met, e).0.interest == e.interest
    ensures MeetKnown(rel, self, met, e).0.contentProvider == e.contentProvider
    ensures forall p :: p in MeetKnown(rel, self, met, e).1 ==>
              p == InterestPacket(self, met, e.interest, Named(e.contentProvider))
  {
  }

  lemma MeetUnknownKeeps(rel: Relationship, self: Address, met: Address, e: Pending)
    ensures MeetUnknown(rel, self, met, e).0.interest == e.interest
    ensures forall p :: p in MeetUnknown(rel, self, met, e).1 ==> p == InterestPacket(self, met, e.interest, Unset)
  {
  }

  lemma DataPassOk(rel: Relationship, self: Address, met: Address, s: seq<Pending>, o: set<Interest>, r: set<Interest>)
    requires (forall e :: e in s ==> e.interest in r) && DataUnique(s)
    ensures var (s', packets) := Pass(s, DataPass(rel, self, met));
            && |s'| == |s| && (forall i :: 0 <= i < |s| ==> s'[i].interest == s[i].interest)
            && (forall e :: e in s' ==> e.interest in r) && DataUnique(s')
            && forall p :: p in packets ==> p.Data? && PacketOk(p, o, r)
  {
    hide Pass, MeetData;
    var meet := DataPass(rel, self, met);
    PassElementwise(s, meet);
    var (s', packets) := Pass(s, meet);
    forall i | 0 <= i < |s| ensures s'[i].interest == s[i].interest && s[i] in s {
      MeetDataKeeps(rel, self, met, s[i]);
    }
    forall p | p in packets ensures p.Data? && p.interest in r {
      var i :| 0 <= i < |s| && p in meet(s[i]).1;
      MeetDataKeeps(rel, self, met, s[i]);
      assert p == Data(self, met, s[i].interest);
    }
  }

  lemma KnownPassOk(rel: Relationship, self: Address, met: Address, s: seq<PendingKnown>, o: set<Interest>,
                    r: set<Interest>)
    requires forall e :: e in s ==> e.interest in o && e.contentProvider == e.interest.content
    ensures var (s', packets) := Pass(s, KnownPass(rel, self, met));
            && (forall e :: e in s' ==> e.interest in o && e.contentProvider == e.interest.content)
            && forall p :: p in packets ==> p.InterestPacket? && PacketOk(p, o, r)
  {
    hide Pass, MeetKnown;
    var meet := KnownPass(rel, self, met);
    PassElementwise(s, meet);
    var (s', packets) := Pass(s, meet);
    forall i | 0 <= i < |s|
      ensures s'[i].interest == s[i].interest && s'[i].contentProvider == s[i].contentProvider && s[i] in s
    {
      MeetKnownKeeps(rel, self, met, s[i]);
    }
    forall p | p in packets ensures p.InterestPacket? && PacketOk(p, o, r) {
      var i :| 0 <= i < |s| && p in meet(s[i]).1;
      MeetKnownKeeps(rel, self, met, s[i]);
      assert s[i] in s && p == InterestPacket(self, met, s[i].interest, Named(s[i].contentProvider));
    }
  }

  lemma UnknownPassOk(rel: Relationship, self: Address, met: Address, s: seq<Pending>, o: set<Interest>,
                      r: set<Interest>)
    requires forall e :: e in s ==> e.interest in o
    ensures var (s', packets) := Pass(s, UnknownPass(rel, self, met));
            && (forall e :: e in s' ==> e.interest in o)
            && forall p :: p in packets ==> p.InterestPacket? && PacketOk(p, o, r)
  {
    hide Pass, MeetUnknown;
    var meet := UnknownPass(rel, self, met);
    PassElementwise(s, meet);
    var (s', packets) := Pass(s, meet);
    forall i | 0 <= i < |s| ensures s'[i].interest == s[i].interest && s[i] in s {
      MeetUnknownKeeps(rel, self, met, s[i]);
    }
    forall p | p in packets ensures p.InterestPacket? && PacketOk(p, o, r) {
      var i :| 0 <= i < |s| && p in meet(s[i]).1;
      MeetUnknownKeeps(rel, self, met, s[i]);
      assert s[i] in s && p == InterestPacket(self, met, s[i].interest, Unset);
    }
  }

  lemma HandleHelloOk(rel: Relationship, n: Node, p: Packet, o: set<Interest>, r: set<Interest>)
    requires p.Hello? && NodeOk(n, o, r)
    ensures var (n', packets) := HandleHello(n, rel, p);
            NodeOk(n', o, r) && forall q :: q in packets ==> PacketOk(q, o, r)
  {
    hide Pass, DataUnique;
    DataPassOk(rel, n.self, p.src, n.pendingData, o, r);
    KnownPassOk(rel, n.self, p.src, n.pendingKnown, o, r);
    UnknownPassOk(rel, n.self, p.src, n.pendingUnknown, o, r);
  }

  /** Handlers never forget an interest, a broadcast id or who they are. */
  lemma HandleGrows(rel: Relationship, n: Node, p: Packet, asKnown: bool)
    requires asKnown ==> p.InterestPacket? && p.provider.Named?
    ensures var n' := Handle(rel, n, p, asKnown).0;
            n'.self == n.self && n.interests <= n'.interests && n'.broadcastId == n.broadcastId
            && (p.InterestPacket? && p.dst == n.self ==> p.interest in n'.interests)
  {
    hide Pass;
  }

  lemma RecordedGrows(w: World, w': World)
    requires w.originated <= w'.originated && w.nodes.Keys == w'.nodes.Keys
    requires forall a :: a in w.nodes ==> w.nodes[a].interests <= w'.nodes[a].interests
    ensures Recorded(w) <= Recorded(w')
  {
  }

  lemma HandleOk(w: World, rel: Relationship, a: Address, p: Packet, asKnown: bool)
    requires Inv(w) && Enabled(w, Deliver(a, p, asKnown))
    ensures var w' := Apply(w, rel, Deliver(a, p, asKnown));
            var (n', packets) := Handle(rel, w.nodes[a], p, asKnown);
            Recorded(w) <= Recorded(w') && NodeOk(n', w.originated, Recorded(w'))
            && forall q :: q in packets ==> PacketOk(q, w.originated, Recorded(w'))
  {
    var n, o, r := w.nodes[a], w.originated, Recorded(w);
    var w' := Apply(w, rel, Deliver(a, p, asKnown));
    HandleGrows(rel, n, p, asKnown);
    hide HandleHello, HandleInterestKnownContentProvider, HandleInterestUnknownContentProvider, HandleDigest;
    hide NodeOk, IdsUnique;
    RecordedGrows(w, w');
    match p {
      case Data(_, _, _) =>
        HandleDataOk(n, p, o, r);
        NodeOkGrows(HandleData(n, p), o, r, o, Recorded(w'));
      case InterestPacket(_, _, _, _) => HandleInterestOk(rel, n, p, asKnown, o, r, Recorded(w'));
      case Hello(_) =>
        HandleHelloOk(rel, n, p, o, r);
        NodeOkGrows(HandleHello(n, rel, p).0, o, r, o, Recorded(w'));
      case Digest(_, _, _) =>
        DigestOk(n, p, o, r);
        NodeOkGrows(HandleDigest(n, p), o, r, o, Recorded(w'));
    }
  }

  lemma DigestOk(n: Node, p: Packet, o: set<Interest>, r: set<Interest>)
    requires p.Digest? && NodeOk(n, o, r)
    ensures NodeOk(HandleDigest(n, p), o, r)
  {
  }

  lemma PacketsStayOk(w: World, w': World)
    requires (forall p :: p in w.sent ==> PacketOk(p, w.originated, Recorded(w)))
    requires w.originated <= w'.originated && Recorded(w) <= Recorded(w')
    ensures forall p :: p in w.sent ==> PacketOk(p, w'.originated, Recorded(w'))
  {
    hide Recorded;
  }

  lemma DeliverKeepsInv(w: World, rel: Relationship, a: Address, p: Packet, asKnown: bool)
    requires Inv(w) && Enabled(w, Deliver(a, p, asKnown))
    ensures Inv(Apply(w, rel, Deliver(a, p, asKnown)))
  {
    hide Handle, NodeOk, Recorded, IdsUnique, PacketOk;
    HandleOk(w, rel, a, p, asKnown);
    HandleGrows(rel, w.nodes[a], p, asKnown);
    var w' := Apply(w, rel, Deliver(a, p, asKnown));
    PacketsStayOk(w, w');
    forall b | b in w'.nodes ensures w'.nodes[b].self == b && NodeOk(w'.nodes[b], w'.originated, Recorded(w')) {
      if b != a {
        NodeOkGrows(w.nodes[b], w.originated, Recorded(w), w'.originated, Recorded(w'));
      }
    }
  }

  /** A new interest has a broadcast id its requester has not used. */
  lemma StartIds(w: World, rel: Relationship, a: Address)
    requires Inv(w) && Enabled(w, Start(a))
    ensures var w' := Apply(w, rel, Start(a));
            && IdsUnique(w'.originated)
            && forall i :: i in w'.originated ==>
                 i.requester in w'.nodes && i.broadcastId < w'.nodes[i.requester].broadcastId
  {
    hide NodeOk, Recorded, PacketOk;
  }

  lemma StartOk(n: Node, o: set<Interest>, r: set<Interest>)
    requires NodeOk(n, o, r) && (n.requestedContent != NULL_ADDRESS ==> OwnInterest(n) in o)
    ensures NodeOk(StartApplication(n), o, r) && StartApplication(n).self == n.self
  {
    hide DataUnique;
  }

  lemma StartKeepsInv(w: World, rel: Relationship, a: Address)
    requires Inv(w) && Enabled(w, Start(a))
    ensures Inv(Apply(w, rel, Start(a)))
  {
    hide Recorded, NodeOk, IdsUnique, PacketOk;
    var w' := Apply(w, rel, Start(a));
    var n := w.nodes[a];
    RecordedGrows(w, w');
    StartIds(w, rel, a);
    PacketsStayOk(w, w');
    forall b | b in w'.nodes ensures w'.nodes[b].self == b && NodeOk(w'.nodes[b], w'.originated, Recorded(w')) {
      NodeOkGrows(w.nodes[b], w.originated, Recorded(w), w'.originated, Recorded(w'));
      if b == a {
        StartOk(n, w'.originated, Recorded(w'));
      }
    }
  }

  lemma StepKeepsInv(w: World, rel: Relationship, s: Step)
    requires Inv(w) && Enabled(w, s)
    ensures Inv(Apply(w, rel, s)) && Apply(w, rel, s).nodes.Keys == w.nodes.Keys
  {
    match s {
      case Start(a) => StartKeepsInv(w, rel, a);
      case Deliver(a, p, asKnown) => DeliverKeepsInv(w, rel, a, p, asKnown);
      case Request(a, content) =>
        var w' := Apply(w, rel, s);
        assert Recorded(w') == Recorded(w);
      case SayHello(a) =>
        var w' := Apply(w, rel, s);
        assert Recorded(w') == Recorded(w);
    }
  }

  lemma {:induction false} RunKeepsInv(w: World, rel: Relationship, steps: seq<Step>)
    requires Inv(w) && IsRun(w, rel, steps)
    ensures Inv(Exec(w, rel, steps)) && Exec(w, rel, steps).nodes.Keys == w.nodes.Keys
  {
    hide Inv, Apply, Enabled;
    if steps != [] {
      RunKeepsInv(w, rel, steps[..|steps| - 1]);
      StepKeepsInv(Exec(w, rel, steps[..|steps| - 1]), rel, steps[|steps| - 1]);
    }
  }

  /**
   In every reachable state, data in flight or pending anywhere answers an interest
   that its requester originated and that the content's owner recorded.
   */
  lemma DataIsCaused(w0: World, rel: Relationship, steps: seq<Step>, i: Interest)
    requires Initial(w0) && IsRun(w0, rel, steps)
    requires var w := Exec(w0, rel, steps);
             || (exists p :: p in w.sent && p.Data? && p.interest == i)
             || (exists a, e :: a in w.nodes && e in w.nodes[a].pendingData && e.interest == i)
    ensures var w := Exec(w0, rel, steps);
            i in w.originated && i.requester in w.nodes && i.content in w.nodes && i in w.nodes[i.content].interests
  {
    InitialInv(w0);
    hide *;
    RunKeepsInv(w0, rel, steps);
    CausedIn(Exec(w0, rel, steps), i);
  }

  lemma InitialInv(w: World)
    requires Initial(w)
    ensures Inv(w)
  {
  }

  lemma CausedIn(w: World, i: Interest)
    requires Inv(w)
    requires || (exists p :: p in w.sent && p.Data? && p.interest == i)
             || (exists a, e :: a in w.nodes && e in w.nodes[a].pendingData && e.interest == i)
    ensures i in w.originated && i.requester in w.nodes && i.content in w.nodes && i in w.nodes[i.content].interests
  {
    hide DataUnique, IdsUnique;
    if p :| p in w.sent && p.Data? && p.interest == i {
      assert PacketOk(p, w.originated, Recorded(w));
    } else {
      var a, e :| a in w.nodes && e in w.nodes[a].pendingData && e.interest == i;
      assert NodeOk(w.nodes[a], w.originated, Recorded(w));
    }
    assert i in Recorded(w);
  }

  /**
   In every reachable state no node holds two pending data entries for the same
   requester and broadcast id, although the interest handlers do not look for one,
   and the provider of a known-provider entry or packet is the content itself.
   */
  lemma PendingDataUnique(w0: World, rel: Relationship, steps: seq<Step>, a: Address)
    requires Initial(w0) && IsRun(w0, rel, steps) && a in Exec(w0, rel, steps).nodes
    ensures DataUnique(Exec(w0, rel, steps).nodes[a].pendingData)
    ensures forall e :: e in Exec(w0, rel, steps).nodes[a].pendingKnown ==> e.contentProvider == e.interest.content
    ensures forall p :: p in Exec(w0, rel, steps).sent && p.InterestPacket? && p.provider.Named? ==>
              p.provider.address == p.interest.content
  {
    RunKeepsInv(w0, rel, steps);
    var w := Exec(w0, rel, steps);
    hide IsRun, Exec, Recorded, IdsUnique;
    assert NodeOk(w.nodes[a], w.originated, Recorded(w));
    forall p | p in w.sent && p.InterestPacket? && p.provider.Named? ensures p.provider.address == p.interest.content {
      assert PacketOk(p, w.originated, Recorded(w));
    }
  }
}
