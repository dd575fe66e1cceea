/**
 Everything a node of the payment network holds came to it under its own address: data and
 interests overheard on the way to others leave no trace. Nothing is assumed of delivery.
 */
module Deliveries {
  import opened Types
  import opened Payments
  import opened Dissemination

  ghost predicate DataSentTo(sent: set<Packet>, a: Address, i: Interest) {
    exists p :: p in sent && p.Data? && p.dst == a && p.interest == i
  }

  ghost predicate InterestSentTo(sent: set<Packet>, a: Address, i: Interest) {
    exists p :: p in sent && p.InterestPacket? && p.dst == a && p.interest == i
  }

  ghost predicate ContentSentTo(sent: set<Packet>, a: Address, c: Address) {
    exists p :: p in sent && p.Digest? && p.dst == a && c in p.contents
  }

  /** Each pending data entry is served by the node as the content's owner, or was sent to it. */
  ghost predicate DataAddressed(n: Node, sent: set<Packet>) {
    forall e :: e in n.pendingData ==>
      (e.interest.content == n.self && e.interest in n.interests) || DataSentTo(sent, n.self, e.interest)
  }

  /** Each interest recorded or pending was sent to the node, or is its own. */
  ghost predicate InterestsAddressed(n: Node, sent: set<Packet>) {
    && (forall i :: i in n.interests ==> InterestSentTo(sent, n.self, i))
    && (forall e :: e in n.pendingKnown ==> InterestSentTo(sent, n.self, e.interest))
    && (forall e :: e in n.pendingUnknown ==>
          e.interest.requester == n.self || InterestSentTo(sent, n.self, e.interest))
  }

  /** Each content a node knows is its own, or was in a digest sent to it. */
  ghost predicate ContentsAddressed(n: Node, sent: set<Packet>) {
    forall c :: c in n.contents ==> c == n.self || ContentSentTo(sent, n.self, c)
  }

  /** Success means that data was sent to the node for a content it had asked for. */
  ghost predicate SuccessEarned(n: Node, sent: set<Packet>, asked: set<Address>) {
    && (n.requestedContent != NULL_ADDRESS ==> n.requestedContent in asked)
    && (n.firstSuccess ==> exists i :: DataSentTo(sent, n.self, i) && i.content in asked)
  }

  ghost predicate Addressed(n: Node, sent: set<Packet>, asked: set<Address>) {
    DataAddressed(n, sent) && InterestsAddressed(n, sent) && ContentsAddressed(n, sent) && SuccessEarned(n, sent, asked)
  }

  lemma AddressedLater(n: Node, sent: set<Packet>, asked: set<Address>, sent': set<Packet>, asked': set<Address>)
    requires Addressed(n, sent, asked) && sent <= sent' && asked <= asked'
    ensures Addressed(n, sent', asked')
  {
  }

  // ---------- one packet ----------

  lemma DataHandled(n: Node, p: Packet, sent: set<Packet>, asked: set<Address>)
    requires p.Data? && p in sent && p.interest.content != NULL_ADDRESS && Addressed(n, sent, asked)
    ensures Addressed(HandleData(n, p), sent, asked)
  {
    hide HandleData;
    DataKeptOrSatisfies(n, p);
    if p.dst == n.self {
      assert DataSentTo(sent, n.self, p.interest);
    }
    hide DataSentTo, InterestSentTo, ContentSentTo;
  }

  lemma InterestHandled(n: Node, p: Packet, asKnown: bool, sent: set<Packet>, asked: set<Address>)
    requires p.InterestPacket? && p in sent && (asKnown ==> p.provider.Named?) && Addressed(n, sent, asked)
    ensures Addressed(if asKnown then HandleInterestKnownContentProvider(n, p).0
                      else HandleInterestUnknownContentProvider(n, p).0, sent, asked)
  {
    hide HandleInterestKnownContentProvider, HandleInterestUnknownContentProvider;
    InterestServedOnce(n, p, asKnown);
    if p.dst == n.self {
      assert InterestSentTo(sent, n.self, p.interest);
    }
    hide DataSentTo, InterestSentTo, ContentSentTo;
  }

  lemma DigestHandled(n: Node, p: Packet, sent: set<Packet>, asked: set<Address>)
    requires p.Digest? && p in sent && Addressed(n, sent, asked)
    ensures Addressed(HandleDigest(n, p), sent, asked)
  {
    hide HandleDigest;
    DigestMerged(n, p);
  }

  lemma DataInterestsStay(rel: Relationship, self: Address, met: Address, s: seq<Pending>)
    ensures forall e' :: e' in Pass(s, DataPass(rel, self, met)).0 ==> exists e :: e in s && e.interest == e'.interest
  {
    hide Pass, MeetData;
    PassElementwise(s, DataPass(rel, self, met));
    var s' := Pass(s, DataPass(rel, self, met)).0;
    forall e' | e' in s' ensures exists e :: e in s && e.interest == e'.interest {
      var i :| 0 <= i < |s'| && s'[i] == e';
      MeetDataKeeps(rel, self, met, s[i]);
      assert s[i] in s && s[i].interest == e'.interest;
    }
  }

  lemma KnownInterestsStay(rel: Relationship, self: Address, met: Address, s: seq<PendingKnown>)
    ensures forall e' :: e' in Pass(s, KnownPass(rel, self, met)).0 ==> exists e :: e in s && e.interest == e'.interest
  {
    hide Pass, MeetKnown;
    PassElementwise(s, KnownPass(rel, self, met));
    var s' := Pass(s, KnownPass(rel, self, met)).0;
    forall e' | e' in s' ensures exists e :: e in s && e.interest == e'.interest {
      var i :| 0 <= i < |s'| && s'[i] == e';
      MeetKnownKeeps(rel, self, met, s[i]);
      assert s[i] in s && s[i].interest == e'.interest;
    }
  }

  lemma UnknownInterestsStay(rel: Relationship, self: Address, met: Address, s: seq<Pending>)
    ensures forall e' :: e' in Pass(s, UnknownPass(rel, self, met)).0 ==>
              exists e :: e in s && e.interest == e'.interest
  {
    hide Pass, MeetUnknown;
    PassElementwise(s, UnknownPass(rel, self, met));
    var s' := Pass(s, UnknownPass(rel, self, met)).0;
    forall e' | e' in s' ensures exists e :: e in s && e.interest == e'.interest {
      var i :| 0 <= i < |s'| && s'[i] == e';
      MeetUnknownKeeps(rel, self, met, s[i]);
      assert s[i] in s && s[i].interest == e'.interest;
    }
  }

  lemma HelloHandled(rel: Relationship, n: Node, p: Packet, sent: set<Packet>, asked: set<Address>)
    requires p.Hello? && Addressed(n, sent, asked)
    ensures Addressed(HandleHello(n, rel, p).0, sent, asked)
  {
    hide Pass, DataPass, KnownPass, UnknownPass, DataSentTo, InterestSentTo, ContentSentTo;
    DataInterestsStay(rel, n.self, p.src, n.pendingData);
    KnownInterestsStay(rel, n.self, p.src, n.pendingKnown);
    UnknownInterestsStay(rel, n.self, p.src, n.pendingUnknown);
  }

  lemma Handled(rel: Relationship, n: Node, p: Packet, asKnown: bool, sent: set<Packet>, asked: set<Address>)
    requires p in sent && (asKnown ==> p.InterestPacket? && p.provider.Named?) && Addressed(n, sent, asked)
    requires p.Data? ==> p.interest.content != NULL_ADDRESS
    ensures Addressed(Handle(rel, n, p, asKnown).0, sent, asked)
  {
    hide Addressed, HandleHello, HandleData, HandleDigest;
    hide HandleInterestKnownContentProvider, HandleInterestUnknownContentProvider;
    match p {
      case Data(_, _, _) => DataHandled(n, p, sent, asked);
      case InterestPacket(_, _, _, _) => InterestHandled(n, p, asKnown, sent, asked);
      case Hello(_) => HelloHandled(rel, n, p, sent, asked);
      case Digest(_, _, _) => DigestHandled(n, p, sent, asked);
    }
  }

  lemma Started(n: Node, sent: set<Packet>, asked: set<Address>)
    requires Addressed(n, sent, asked)
    ensures Addressed(StartApplication(n), sent, asked)
  {
    hide DataSentTo, InterestSentTo, ContentSentTo, StartApplication;
    StartsAsking(n);
  }

  // ---------- every run ----------

  /** The contents that `a` has been told to ask for in the run. */
  function AskedBy(steps: seq<Step>, a: Address): set<Address> {
    if steps == [] then {}
    else
      var last := steps[|steps| - 1];
      AskedBy(steps[..|steps| - 1], a) + if last.Request? && last.n == a then {last.content} else {}
  }

  ghost predicate AllAddressed(w: World, asked: Address -> set<Address>) {
    && (forall i :: i in w.originated ==> i.content != NULL_ADDRESS)
    && forall a :: a in w.nodes ==> w.nodes[a].self == a && Addressed(w.nodes[a], w.sent, asked(a))
  }

  lemma StepKeepsAddressed(w: World, rel: Relationship, s: Step, asked: Address -> set<Address>,
                           asked': Address -> set<Address>)
    requires Inv(w) && Enabled(w, s) && AllAddressed(w, asked)
    requires forall a :: asked'(a) == asked(a) + if s.Request? && s.n == a then {s.content} else {}
    ensures AllAddressed(Apply(w, rel, s), asked')
  {
    hide Addressed, Handle, StartApplication;
    var w', n := Apply(w, rel, s), w.nodes[s.n];
    forall a | a in w'.nodes ensures w'.nodes[a].self == a && Addressed(w'.nodes[a], w'.sent, asked'(a)) {
      AddressedLater(w.nodes[a], w.sent, asked(a), w'.sent, asked'(a));
      if a == s.n {
        match s {
          case Deliver(_, p, asKnown) =>
            DataHasContent(w, p);
            Handled(rel, n, p, asKnown, w'.sent, asked'(a));
            HandleGrows(rel, n, p, asKnown);
          case Start(_) =>
            Started(n, w'.sent, asked'(a));
            StartedSelf(n);
          case Request(_, content) => Asked(n, content, w'.sent, asked'(a));
          case SayHello(_) =>
        }
      }
    }
    ContentsStayReal(w, rel, s);
  }

  lemma StartedSelf(n: Node)
    ensures StartApplication(n).self == n.self
  {
  }

  lemma Asked(n: Node, content: Address, sent: set<Packet>, asked: set<Address>)
    requires Addressed(n, sent, asked) && content in asked
    ensures Addressed(RequestContent(n, content), sent, asked) && RequestContent(n, content).self == n.self
  {
    hide DataSentTo, InterestSentTo, ContentSentTo;
  }

  lemma DataHasContent(w: World, p: Packet)
    requires Inv(w) && p in w.sent && forall i :: i in w.originated ==> i.content != NULL_ADDRESS
    ensures p.Data? ==> p.interest.content != NULL_ADDRESS
  {
    assert PacketOk(p, w.originated, Recorded(w));
  }

  lemma ContentsStayReal(w: World, rel: Relationship, s: Step)
    requires Enabled(w, s) && forall i :: i in w.originated ==> i.content != NULL_ADDRESS
    ensures forall i :: i in Apply(w, rel, s).originated ==> i.content != NULL_ADDRESS
  {
    hide Handle, StartApplication;
  }

  lemma {:induction false} RunKeepsAddressed(w0: World, rel: Relationship, steps: seq<Step>)
    requires Initial(w0) && IsRun(w0, rel, steps)
    ensures AllAddressed(Exec(w0, rel, steps), a => AskedBy(steps, a))
  {
    hide Apply, Enabled, Inv, Initial, Addressed;
    InitialInv(w0);
    if steps == [] {
      NothingHeld(w0);
    } else {
      var front, last := steps[..|steps| - 1], steps[|steps| - 1];
      RunKeepsAddressed(w0, rel, front);
      RunKeepsInv(w0, rel, front);
      StepKeepsAddressed(Exec(w0, rel, front), rel, last, a => AskedBy(front, a), a => AskedBy(steps, a));
    }
  }

  lemma NothingHeld(w: World)
    requires Initial(w)
    ensures (forall i :: i in w.originated ==> i.content != NULL_ADDRESS)
    ensures forall a :: a in w.nodes ==> w.nodes[a].self == a && Addressed(w.nodes[a], w.sent, {})
  {
  }

  /**
   In every reachable state, whoever overhears what: each pending data entry of a node is
   for its own content and an interest it recorded, or was sent to the node as data; each
   interest it recorded or holds was sent to the node, or is its own; each content it
   knows of is its own, or was in a digest sent to the node.
   */
  lemma HeldWasAddressed(w0: World, rel: Relationship, steps: seq<Step>, a: Address)
    requires Initial(w0) && IsRun(w0, rel, steps) && a in Exec(w0, rel, steps).nodes
    ensures var w := Exec(w0, rel, steps);
            var n := w.nodes[a];
            && (forall e :: e in n.pendingData ==>
                  || (e.interest.content == a && e.interest in n.interests)
                  || exists p :: p in w.sent && p.Data? && p.dst == a && p.interest == e.interest)
            && (forall i :: i in n.interests ==> InterestSentTo(w.sent, a, i))
            && (forall e :: e in n.pendingKnown ==> InterestSentTo(w.sent, a, e.interest))
            && (forall e :: e in n.pendingUnknown ==>
                  e.interest.requester == a || InterestSentTo(w.sent, a, e.interest))
            && (forall c :: c in n.contents ==> c == a || ContentSentTo(w.sent, a, c))
  {
    hide Initial, IsRun, Exec, InterestSentTo, ContentSentTo;
    RunKeepsAddressed(w0, rel, steps);
  }

  /**
   In every reachable state, a node that has succeeded was sent data for a content that it
   had been told to ask for.
   */
  lemma SuccessWasAskedFor(w0: World, rel: Relationship, steps: seq<Step>, a: Address)
    requires Initial(w0) && IsRun(w0, rel, steps)
    requires a in Exec(w0, rel, steps).nodes && Exec(w0, rel, steps).nodes[a].firstSuccess
    ensures exists p, k: nat ::
              && p in Exec(w0, rel, steps).sent && p.Data? && p.dst == a
              && k < |steps| && steps[k] == Request(a, p.interest.content)
  {
    hide Initial, IsRun, Exec;
    RunKeepsAddressed(w0, rel, steps);
    var sent := Exec(w0, rel, steps).sent;
    var i :| DataSentTo(sent, a, i) && i.content in AskedBy(steps, a);
    var p :| p in sent && p.Data? && p.dst == a && p.interest == i;
    var k := RequestOf(steps, a, i.content);
    assert steps[k] == Request(a, p.interest.content);
  }

  lemma {:induction false} RequestOf(steps: seq<Step>, a: Address, content: Address) returns (k: nat)
    requires content in AskedBy(steps, a)
    ensures k < |steps| && steps[k] == Request(a, content)
  {
    var front, last := steps[..|steps| - 1], steps[|steps| - 1];
    if last == Request(a, content) {
      k := |steps| - 1;
    } else {
      k := RequestOf(front, a, content);
    }
  }
}
