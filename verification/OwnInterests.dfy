/**
 The exception to relaying only upward: a node's own interest for a content whose
 provider is unknown can come back to it, and is then relayed a second time afresh.
 When a copy goes below an earlier relay is read off the pending list exactly.
 */
module OwnInterests {
  import opened Types
  import opened Payments
  import opened Dissemination
  import opened TieRouting

  // ---------- the exact condition ----------

  /** The last relay of every entry was sent its copy, and was not the entry's target. */
  ghost predicate LastSent(kind: Kind, a: Address, s: seq<Entry>, sent: set<Packet>) {
    forall e :: e in s && e.last != NULL_ADDRESS ==>
      PacketFor(kind, a, e.last, e) in sent && (kind != UnknownKind ==> e.last != e.target)
  }

  ghost predicate MemoryInv(w: World, kind: Kind) {
    forall a :: a in w.nodes ==> w.nodes[a].self == a && LastSent(kind, a, Entries(kind, w.nodes[a]), w.sent)
  }

  /** A meeting changes the last relay only to the node met, and only if that is sent a copy short of the target. */
  lemma MeetRemembers(rel: Relationship, kind: Kind, self: Address, met: Address, e: Entry)
    ensures var (e', send) := Meet(rel, kind, self, met, e);
            && e'.interest == e.interest && e'.target == e.target
            && (e'.last == e.last || (e'.last == met && send && !(kind != UnknownKind && met == e.target)))
  {
    hide Higher;
  }

  lemma HelloRemembers(rel: Relationship, kind: Kind, n: Node, p: Packet, sent: set<Packet>)
    requires p.Hello? && LastSent(kind, n.self, Entries(kind, n), sent)
    ensures var (n', packets) := HandleHello(n, rel, p);
            n'.self == n.self && LastSent(kind, n.self, Entries(kind, n'), sent + set q | q in packets)
  {
    hide HandleHello, Entries, Meet, IsKind;
    HelloRelays(rel, n, p, kind);
    HelloKeepsNode(rel, n, p);
    var (n', packets) := HandleHello(n, rel, p);
    var s, s' := Entries(kind, n), Entries(kind, n');
    forall e | e in s' && e.last != NULL_ADDRESS
      ensures PacketFor(kind, n.self, e.last, e) in sent + set q | q in packets
      ensures kind != UnknownKind ==> e.last != e.target
    {
      var i :| 0 <= i < |s'| && s'[i] == e;
      MeetRemembers(rel, kind, n.self, p.src, s[i]);
      assert s[i] in s;
    }
  }

  lemma GrownRemembers(kind: Kind, n: Node, n': Node, sent: set<Packet>, sent': set<Packet>)
    requires Grown(kind, n, n') && LastSent(kind, n.self, Entries(kind, n), sent) && sent <= sent'
    ensures LastSent(kind, n.self, Entries(kind, n'), sent')
  {
    hide Entries, PacketFor, Own;
  }

  lemma StepRemembers(w: World, rel: Relationship, kind: Kind, s: Step)
    requires MemoryInv(w, kind) && Enabled(w, s)
    ensures MemoryInv(Apply(w, rel, s), kind)
  {
    hide Entries, Grown, HandleHello, HandleData, HandleDigest, StartApplication, LastSent;
    hide HandleInterestKnownContentProvider, HandleInterestUnknownContentProvider;
    var w', n := Apply(w, rel, s), w.nodes[s.n];
    match s {
      case Deliver(a, p, asKnown) =>
        if p.Hello? {
          HelloRemembers(rel, kind, n, p, w.sent);
        } else {
          OtherHandlers(rel, n, p, asKnown, kind);
          GrownSelf(kind, n, w'.nodes[a]);
          GrownRemembers(kind, n, w'.nodes[a], w.sent, w'.sent);
        }
      case Start(a) =>
        StartGrows(kind, n);
        GrownSelf(kind, n, w'.nodes[a]);
        GrownRemembers(kind, n, w'.nodes[a], w.sent, w'.sent);
      case Request(a, content) =>
        RequestGrows(kind, n, content);
        GrownRemembers(kind, n, w'.nodes[a], w.sent, w'.sent);
      case SayHello(a) =>
        SameGrows(kind, n);
        GrownRemembers(kind, n, w'.nodes[a], w.sent, w'.sent);
    }
    forall b | b in w'.nodes && b != s.n ensures LastSent(kind, b, Entries(kind, w'.nodes[b]), w'.sent) {
      SameGrows(kind, w.nodes[b]);
      GrownRemembers(kind, w.nodes[b], w.nodes[b], w.sent, w'.sent);
    }
  }

  lemma GrownSelf(kind: Kind, n: Node, n': Node)
    requires Grown(kind, n, n')
    ensures n'.self == n.self
  {
    hide Entries;
  }

  lemma {:induction false} RunRemembers(w: World, rel: Relationship, kind: Kind, steps: seq<Step>)
    requires MemoryInv(w, kind) && IsRun(w, rel, steps)
    ensures MemoryInv(Exec(w, rel, steps), kind)
  {
    hide Apply, Enabled, MemoryInv;
    if steps != [] {
      RunRemembers(w, rel, kind, steps[..|steps| - 1]);
      StepRemembers(Exec(w, rel, steps[..|steps| - 1]), rel, kind, steps[|steps| - 1]);
    }
  }

  lemma NothingRemembered(w: World, kind: Kind)
    requires Initial(w)
    ensures MemoryInv(w, kind)
  {
  }

  /** `met` is ranked at least as high as the last relay of every pending entry for the interest. */
  ghost predicate AboveLastRelays(ranks: Ranks, kind: Kind, s: seq<Entry>, i: Interest, met: Address) {
    forall x :: x in s && x.interest == i && x.last != NULL_ADDRESS ==>
      RankOf(ranks, kind, met, x.target) >= RankOf(ranks, kind, x.last, x.target)
  }

  /**
   When a copy goes below an earlier relay, for every kind and every interest, the
   sender's own included. In every reachable state a copy that does not go to its target
   is ranked at least as high as every earlier relay of the request, if and only if the
   node met is ranked at least as high as the last relays in the pending list, as they
   are before the encounter.
   */
  lemma RelaysUpwardExactly(w0: World, rel: Relationship, ranks: Ranks, steps: seq<Step>, kind: Kind,
                            a: Address, hello: Packet, q: Packet)
    requires Initial(w0) && Respects(rel, ranks) && IsRun(w0, rel, steps)
    requires var w := Exec(w0, rel, steps); a in w.nodes && hello in w.sent && hello.Hello?
    requires IsKind(kind, q) && q in HandleHello(Exec(w0, rel, steps).nodes[a], rel, hello).1
    ensures var w := Exec(w0, rel, steps);
            NeverBelow(w, ranks, kind, q)
            <==> Final(kind, q) || AboveLastRelays(ranks, kind, Entries(kind, w.nodes[a]), q.interest, hello.src)
  {
    hide *;
    ReachableInv(w0, rel, ranks, kind, steps);
    NothingRemembered(w0, kind);
    RunRemembers(w0, rel, kind, steps);
    ExactlyIn(Exec(w0, rel, steps), rel, ranks, kind, a, hello, q);
  }

  lemma ExactlyIn(w: World, rel: Relationship, ranks: Ranks, kind: Kind, a: Address, hello: Packet, q: Packet)
    requires Inv(w) && RelayInv(w, ranks, kind) && MemoryInv(w, kind) && Respects(rel, ranks)
    requires a in w.nodes && hello in w.sent && hello.Hello?
    requires IsKind(kind, q) && q in HandleHello(w.nodes[a], rel, hello).1
    ensures NeverBelow(w, ranks, kind, q)
            <==> Final(kind, q) || AboveLastRelays(ranks, kind, Entries(kind, w.nodes[a]), q.interest, hello.src)
  {
    hide HandleHello, Respects, Inv, Entries, RelaysLike, Upward, OnceOnly, Covered;
    var n := w.nodes[a];
    var (n', packets) := HandleHello(n, rel, hello);
    HelloRelays(rel, n, hello, kind);
    EntriesAimed(kind, n);
    var e := RelayedFrom(rel, ranks, kind, a, hello.src, Entries(kind, n), Entries(kind, n'), packets, q);
    EntryOriginated(w, kind, a, e);
    if !Final(kind, q) {
      if NeverBelow(w, ranks, kind, q) {
        forall x | x in Entries(kind, n) && x.interest == q.interest && x.last != NULL_ADDRESS
          ensures RankOf(ranks, kind, hello.src, x.target) >= RankOf(ranks, kind, x.last, x.target)
        {
          EntryOriginated(w, kind, a, x);
          assert AlsoRelayed(w, kind, PacketFor(kind, a, x.last, x), q);
        }
      }
      if AboveLastRelays(ranks, kind, Entries(kind, n), q.interest, hello.src) {
        forall p | AlsoRelayed(w, kind, p, q)
          ensures RankOf(ranks, kind, q.dst, Target(kind, q)) >= RankOf(ranks, kind, p.dst, Target(kind, q))
        {
          SameRequestSameInterest(w, kind, p, e.interest);
          var x := CoveredBy(w, ranks, kind, p);
          EntryOriginated(w, kind, a, x);
        }
      }
    }
  }

  /** The entry of its sender that remembers a copy sent short of its target. */
  lemma CoveredBy(w: World, ranks: Ranks, kind: Kind, p: Packet) returns (x: Entry)
    requires RelayInv(w, ranks, kind) && p in w.sent && IsKind(kind, p) && !Final(kind, p)
    ensures p.src in w.nodes && x in Entries(kind, w.nodes[p.src]) && Remembers(ranks, kind, x, p.interest, p.dst)
  {
    hide Entries, Upward, OnceOnly, Remembers;
    assert CopyOk(ranks, kind, p, w.nodes);
    x :| x in Entries(kind, w.nodes[p.src]) && Remembers(ranks, kind, x, p.interest, p.dst);
  }

  // ---------- an input ----------

  lemma RunExtends(w0: World, rel: Relationship, steps: seq<Step>, s: Step)
    requires IsRun(w0, rel, steps) && Enabled(Exec(w0, rel, steps), s)
    ensures IsRun(w0, rel, steps + [s])
    ensures Exec(w0, rel, steps + [s]) == Apply(Exec(w0, rel, steps), rel, s)
  {
    hide Enabled, Apply;
    assert (steps + [s])[..|steps|] == steps;
  }

  /** Nodes 1 and 2 stand at level 0, node 3 at level 1, node 4 at level 2; nobody is more central or closely tied. */
  function FourLevels(): Ranks {
    Ranks((a, t) => 0, (a: Address) => if a == 4 then 2 else if a == 3 then 1 else 0)
  }

  function ByLevel(): Relationship {
    var level := FourLevels().level;
    Relationship((a, b, t) => a, (a, b) => if level(a) > level(b) then a else b, (a, b) => a)
  }

  lemma ByLevelRespects()
    ensures Respects(ByLevel(), FourLevels())
  {
  }

  function FourNodes(): World {
    World(map[1 := NewNode(1), 2 := NewNode(2), 3 := NewNode(3), 4 := NewNode(4)], {}, {})
  }

  /** What node 1 asks for. */
  const OWN: Interest := Interest(1, 0, 9)

  function Ask(to: Address): Packet {
    InterestPacket(1, to, OWN, Unset)
  }

  /** A state in which nodes 1 and 2 are as given, and at least `sent` has been sent. */
  ghost predicate Stage(w: World, n1: Node, n2: Node, sent: set<Packet>) {
    && w.nodes.Keys == {1, 2, 3, 4} && w.nodes[1] == n1 && w.nodes[2] == n2
    && n1.broadcastId < 2 && sent <= w.sent
  }

  function SetOf(packets: seq<Packet>): set<Packet> {
    set q | q in packets
  }

  /** The run `steps` leads from the four nodes at rest to such a state. */
  ghost predicate Leads(steps: seq<Step>, n1: Node, n2: Node, sent: set<Packet>) {
    IsRun(FourNodes(), ByLevel(), steps) && Stage(Exec(FourNodes(), ByLevel(), steps), n1, n2, sent)
  }

  lemma Extended(steps: seq<Step>, s: Step, n1: Node, n2: Node, sent: set<Packet>)
    requires IsRun(FourNodes(), ByLevel(), steps) && Enabled(Exec(FourNodes(), ByLevel(), steps), s)
    requires Stage(Apply(Exec(FourNodes(), ByLevel(), steps), ByLevel(), s), n1, n2, sent)
    ensures Leads(steps + [s], n1, n2, sent)
  {
    hide Enabled, Apply, Exec, IsRun, Stage, FourNodes, ByLevel;
    RunExtends(FourNodes(), ByLevel(), steps, s);
  }

  lemma Greet(steps: seq<Step>, a: Address, n1: Node, n2: Node, sent: set<Packet>)
    requires Leads(steps, n1, n2, sent) && 1 <= a <= 4
    ensures Leads(steps + [SayHello(a)], n1, n2, sent + {Hello(a)})
  {
    hide Exec, IsRun, FourNodes, ByLevel;
    Extended(steps, SayHello(a), n1, n2, sent + {Hello(a)});
  }

  lemma DeliverTo(steps: seq<Step>, a: Address, p: Packet, n1: Node, n2: Node, sent: set<Packet>)
    requires Leads(steps, n1, n2, sent) && (a == 1 || a == 2) && p in sent
    ensures var (n', packets) := Handle(ByLevel(), if a == 1 then n1 else n2, p, false);
            n'.broadcastId < 2 ==>
              Leads(steps + [Deliver(a, p, false)],
                    if a == 1 then n' else n1, if a == 1 then n2 else n', sent + SetOf(packets))
  {
    hide Exec, IsRun, FourNodes, ByLevel, Handle;
    var (n', packets) := Handle(ByLevel(), if a == 1 then n1 else n2, p, false);
    if n'.broadcastId < 2 {
      Extended(steps, Deliver(a, p, false),
               if a == 1 then n' else n1, if a == 1 then n2 else n', sent + SetOf(packets));
    }
  }

  /** A node with one pending interest and nothing else passes it up. */
  lemma PassesUp(n: Node, met: Address)
    requires n.pendingData == [] && n.pendingKnown == [] && |n.pendingUnknown| == 1 && met != n.self
    requires ByLevel().higherPaymentLevel(n.self, met) == met
    requires var last := n.pendingUnknown[0].lastRelayNode;
             last == NULL_ADDRESS || ByLevel().higherPaymentLevel(met, last) == met
    ensures var i := n.pendingUnknown[0].interest;
            Handle(ByLevel(), n, Hello(met), false)
            == (n.(pendingUnknown := [Pending(met, i)]), [InterestPacket(n.self, met, i, Unset)])
  {
    hide Pass;
    var e := n.pendingUnknown[0];
    assert n.pendingUnknown == [e];
    PassSingle(e, UnknownPass(ByLevel(), n.self, met));
    PassEmpty(DataPass(ByLevel(), n.self, met));
    PassEmpty(KnownPass(ByLevel(), n.self, met));
    var packets := [InterestPacket(n.self, met, e.interest, Unset)];
    assert [] + [] + [] + packets == packets;
  }

  lemma PassEmpty<E>(meet: E -> (E, seq<Packet>))
    ensures Pass([], meet) == ([], [])
  {
  }

  /** Node 1 once it has asked, and last relayed its interest to `relay`. */
  function Asking(relay: Address): Node {
    NewNode(1).(requestedContent := 9, contents := {1}, pendingUnknown := [Pending(relay, OWN)], broadcastId := 1)
  }

  /** Node 2 once it has been asked. */
  function Asked(relay: Address): Node {
    NewNode(2).(interests := {OWN}, pendingUnknown := [Pending(relay, OWN)])
  }

  /** Node 1 once its own interest is back: it is pending twice. */
  function Twice(): Node {
    Asking(4).(interests := {OWN}, pendingUnknown := [Pending(4, OWN), Pending(NULL_ADDRESS, OWN)])
  }

  lemma AtRest()
    ensures Leads([], NewNode(1), NewNode(2), {})
  {
  }

  lemma Starts() returns (steps: seq<Step>)
    ensures Leads(steps, Asking(NULL_ADDRESS), NewNode(2), {})
  {
    hide IsRun, Exec, ByLevel, FourNodes;
    AtRest();
    Extended([], Request(1, 9), NewNode(1).(requestedContent := 9), NewNode(2), {});
    steps := [] + [Request(1, 9)];
    assert [] + [Pending(NULL_ADDRESS, OWN)] == [Pending(NULL_ADDRESS, OWN)];
    Extended(steps, Start(1), Asking(NULL_ADDRESS), NewNode(2), {});
    steps := steps + [Start(1)];
  }

  lemma Fewer(steps: seq<Step>, n1: Node, n2: Node, sent: set<Packet>, fewer: set<Packet>)
    requires Leads(steps, n1, n2, sent) && fewer <= sent
    ensures Leads(steps, n1, n2, fewer)
  {
    hide Exec, IsRun, FourNodes, ByLevel;
  }

  /** Node 1 meets a node that stands no lower than itself and its last relay. */
  lemma Meets(before: seq<Step>, met: Address, last: Address, sent: set<Packet>) returns (steps: seq<Step>)
    requires Leads(before, Asking(last), NewNode(2), sent) && 1 < met <= 4
    requires last == NULL_ADDRESS || ByLevel().higherPaymentLevel(met, last) == met
    ensures Leads(steps, Asking(met), NewNode(2), sent + {Ask(met)})
  {
    hide Leads, Handle;
    Greet(before, met, Asking(last), NewNode(2), sent);
    steps := before + [SayHello(met)];
    PassesUp(Asking(last), met);
    DeliverTo(steps, 1, Hello(met), Asking(last), NewNode(2), sent + {Hello(met)});
    steps := steps + [Deliver(1, Hello(met), false)];
    Fewer(steps, Asking(met), NewNode(2), sent + {Hello(met)} + SetOf([Ask(met)]), sent + {Ask(met)});
  }

  /** Node 2 is asked, and passes the interest back to node 1, which stands no lower. */
  lemma IsAsked(before: seq<Step>, sent: set<Packet>) returns (steps: seq<Step>)
    requires Leads(before, Asking(4), NewNode(2), sent) && Ask(2) in sent
    ensures Leads(steps, Asking(4), Asked(1), sent + {InterestPacket(2, 1, OWN, Unset)})
  {
    hide Leads, Handle;
    TakesUp();
    DeliverTo(before, 2, Ask(2), Asking(4), NewNode(2), sent);
    steps := before + [Deliver(2, Ask(2), false)];
    Fewer(steps, Asking(4), Asked(NULL_ADDRESS), sent + SetOf([]), sent);
    Greet(steps, 1, Asking(4), Asked(NULL_ADDRESS), sent);
    steps := steps + [SayHello(1)];
    PassesUp(Asked(NULL_ADDRESS), 1);
    DeliverTo(steps, 2, Hello(1), Asking(4), Asked(NULL_ADDRESS), sent + {Hello(1)});
    steps := steps + [Deliver(2, Hello(1), false)];
    var back := InterestPacket(2, 1, OWN, Unset);
    Fewer(steps, Asking(4), Asked(1), sent + {Hello(1)} + SetOf([back]), sent + {back});
  }

  lemma TakesUp()
    ensures Handle(ByLevel(), NewNode(2), Ask(2), false) == (Asked(NULL_ADDRESS), [])
    ensures Handle(ByLevel(), Asking(4), InterestPacket(2, 1, OWN, Unset), false) == (Twice(), [])
  {
    assert [] + [Pending(NULL_ADDRESS, OWN)] == [Pending(NULL_ADDRESS, OWN)] && {} + {OWN} == {OWN};
    assert [Pending(4, OWN)] + [Pending(NULL_ADDRESS, OWN)] == Twice().pendingUnknown;
  }

  /** Node 1 asks, meets node 2 and then node 4, gets its own interest back from node 2, and hears node 3. */
  lemma GetsBack() returns (steps: seq<Step>)
    ensures Leads(steps, Twice(), Asked(1), {Ask(4), Hello(3)})
  {
    hide Leads, Handle;
    var back := InterestPacket(2, 1, OWN, Unset);
    steps := Starts();
    steps := Meets(steps, 2, NULL_ADDRESS, {});
    steps := Meets(steps, 4, 2, {} + {Ask(2)});
    steps := IsAsked(steps, {} + {Ask(2)} + {Ask(4)});
    TakesUp();
    var sent := {} + {Ask(2)} + {Ask(4)} + {back};
    DeliverTo(steps, 1, back, Asking(4), Asked(1), sent);
    steps := steps + [Deliver(1, back, false)];
    Greet(steps, 3, Twice(), Asked(1), sent + SetOf([]));
    steps := steps + [SayHello(3)];
    Fewer(steps, Twice(), Asked(1), sent + SetOf([]) + {Hello(3)}, {Ask(4), Hello(3)});
  }

  /**
   `StartApplication` does not record a node's own interest as seen. So it can come
   back and become pending a second time, with no memory of the relays so far: node 1,
   having relayed it to node 4, would relay it to node 3, which stands lower.
   */
  lemma OwnInterestRelayedLower() returns (steps: seq<Step>)
    ensures Initial(FourNodes()) && Respects(ByLevel(), FourLevels()) && IsRun(FourNodes(), ByLevel(), steps)
    ensures var w := Exec(FourNodes(), ByLevel(), steps);
            && 1 in w.nodes && Ask(4) in w.sent && Hello(3) in w.sent
            && Pending(4, OWN) in w.nodes[1].pendingUnknown
            && Ask(3) in HandleHello(w.nodes[1], ByLevel(), Hello(3)).1
            && FourLevels().level(3) < FourLevels().level(4)
  {
    ByLevelRespects();
    steps := GetsBack();
    NextRelay();
    hide IsRun, Exec, ByLevel, HandleHello;
  }

  lemma NextRelay()
    ensures Ask(3) in HandleHello(Twice(), ByLevel(), Hello(3)).1
  {
    hide HandleHello;
    HelloRelays(ByLevel(), Twice(), Hello(3), UnknownKind);
    var e := Entries(UnknownKind, Twice())[1];
    assert Meet(ByLevel(), UnknownKind, 1, 3, e).1 && PacketFor(UnknownKind, 1, 3, e) == Ask(3);
  }
}
