/**
 What one node of the payment network does with contents, interests and data
 (model/payment-network.cc), as functions of its state and the packet handled.

 `InterestManager` and `ContentManager` are sets here. `Relationship` is the three
 choices the handlers ask of it.
 */
module Payments {
  import opened Types

  /** Which of two nodes is closer to a third, stands at a higher level, or is more central. */
  datatype Relationship = Relationship(
    higherPaymentTie: (Address, Address, Address) -> Address,
    higherPaymentLevel: (Address, Address) -> Address,
    higherCentrality: (Address, Address) -> Address)

  /** An interest is identified by its requester, the requester's broadcast id, and the content. */
  datatype Interest = Interest(requester: Address, broadcastId: uint32, content: Address)

  /** A pending data or unknown-provider entry; the null address means no relay yet. */
  datatype Pending = Pending(lastRelayNode: Address, interest: Interest)

  /** A pending interest whose content provider is known. */
  datatype PendingKnown = PendingKnown(lastRelayNode: Address, interest: Interest, contentProvider: Address)

  /** The provider field is written only for interests sent on from a known-provider entry. */
  datatype Provider = Unset | Named(address: Address)

  datatype Packet =
    | Data(src: Address, dst: Address, interest: Interest)
    | InterestPacket(src: Address, dst: Address, interest: Interest, provider: Provider)
    | Hello(src: Address)
    | Digest(src: Address, dst: Address, contents: set<Address>)

  datatype Node = Node(
    self: Address,
    requestedContent: Address,
    contents: set<Address>,
    interests: set<Interest>,
    pendingData: seq<Pending>,
    pendingKnown: seq<PendingKnown>,
    pendingUnknown: seq<Pending>,
    firstSuccess: bool,
    broadcastId: uint32)

  /** As constructed, before the application starts. */
  function NewNode(self: Address): Node {
    Node(self, NULL_ADDRESS, {}, {}, [], [], [], false, 0)
  }

  // ---------- starting, and requesting content ----------

  function RequestContent(n: Node, content: Address): Node {
    n.(requestedContent := content)
  }

  /** The interest that `StartApplication` originates, if any content is requested. */
  function OwnInterest(n: Node): Interest {
    Interest(n.self, n.broadcastId, n.requestedContent)
  }

  function StartApplication(n: Node): Node {
    var n' := n.(contents := n.contents + {n.self});
    if n.requestedContent == NULL_ADDRESS then n'
    else n'.(pendingUnknown := n.pendingUnknown + [Pending(NULL_ADDRESS, OwnInterest(n))],
             broadcastId := (n.broadcastId + 1) % TWO32)
  }

  // ---------- receiving ----------

  predicate HasPendingData(s: seq<Pending>, requester: Address, broadcastId: uint32) {
    exists e :: e in s && e.interest.requester == requester && e.interest.broadcastId == broadcastId
  }

  function HandleData(n: Node, p: Packet): Node
    requires p.Data?
  {
    if p.dst != n.self then n
    else if n.requestedContent == p.interest.content then n.(firstSuccess := true)
    else if HasPendingData(n.pendingData, p.interest.requester, p.interest.broadcastId) then n
    else n.(pendingData := n.pendingData + [Pending(NULL_ADDRESS, p.interest)])
  }

  /** What the content's owner does with an interest seen for the first time. */
  function Serve(n: Node, p: Packet): (Node, seq<Packet>)
    requires p.InterestPacket?
  {
    if p.src == p.interest.requester then (n, [Data(n.self, p.src, p.interest)])
    else (n.(pendingData := n.pendingData + [Pending(NULL_ADDRESS, p.interest)]), [])
  }

  function HandleInterestKnownContentProvider(n: Node, p: Packet): (Node, seq<Packet>)
    requires p.InterestPacket? && p.provider.Named?
  {
    if p.dst != n.self || p.interest in n.interests then (n, [])
    else
      var n' := n.(interests := n.interests + {p.interest});
      if n.self == p.interest.content then Serve(n', p)
      else (n'.(pendingKnown := n.pendingKnown + [PendingKnown(NULL_ADDRESS, p.interest, p.provider.address)]), [])
  }

  function HandleInterestUnknownContentProvider(n: Node, p: Packet): (Node, seq<Packet>)
    requires p.InterestPacket?
  {
    if p.dst != n.self || p.interest in n.interests then (n, [])
    else
      var n' := n.(interests := n.interests + {p.interest});
      if n.self == p.interest.content then Serve(n', p)
      else if p.interest.content in n.contents then
        (n'.(pendingKnown := n.pendingKnown + [PendingKnown(NULL_ADDRESS, p.interest, p.interest.content)]), [])
      else
        (n'.(pendingUnknown := n.pendingUnknown + [Pending(NULL_ADDRESS, p.interest)]), [])
  }

  function HandleDigest(n: Node, p: Packet): Node
    requires p.Digest?
  {
    if p.dst == n.self then n.(contents := n.contents + p.contents) else n
  }

  // ---------- an encounter ----------

  /** The last relay after meeting `met`, and whether the entry is sent to `met` as a relay. */
  function Relay(higher: (Address, Address) -> Address, self: Address, met: Address, last: Address): (Address, bool) {
    if higher(self, met) != met then (last, false)
    else if last == NULL_ADDRESS || higher(met, last) == met then (met, true)
    else (last, false)
  }

  /** The choice between two nodes by their tie toward a third. */
  function TieToward(rel: Relationship, target: Address): (Address, Address) -> Address {
    (a: Address, b: Address) => rel.higherPaymentTie(a, b, target)
  }

  function MeetData(rel: Relationship, self: Address, met: Address, e: Pending): (Pending, seq<Packet>) {
    var packet := Data(self, met, e.interest);
    if e.interest.requester == met then (e, [packet])
    else
      var (last, send) := Relay(TieToward(rel, e.interest.requester), self, met, e.lastRelayNode);
      (e.(lastRelayNode := last), if send then [packet] else [])
  }

  function MeetKnown(rel: Relationship, self: Address, met: Address, e: PendingKnown): (PendingKnown, seq<Packet>) {
    var packet := InterestPacket(self, met, e.interest, Named(e.contentProvider));
    if e.contentProvider == met then (e, [packet])
    else
      var (last, send) := Relay(TieToward(rel, e.contentProvider), self, met, e.lastRelayNode);
      (e.(lastRelayNode := last), if send then [packet] else [])
  }

  function MeetUnknown(rel: Relationship, self: Address, met: Address, e: Pending): (Pending, seq<Packet>) {
    var (last, send) := Relay(rel.higherPaymentLevel, self, met, e.lastRelayNode);
    (e.(lastRelayNode := last), if send then [InterestPacket(self, met, e.interest, Unset)] else [])
  }

  /** One pass over a pending list: the entries after it, and what is sent, in order. */
  function Pass<E>(entries: seq<E>, meet: E -> (E, seq<Packet>)): (r: (seq<E>, seq<Packet>))
    ensures |r.0| == |entries|
  {
    if entries == [] then ([], [])
    else
      var (front, sent) := Pass(entries[..|entries| - 1], meet);
      var (last, more) := meet(entries[|entries| - 1]);
      (front + [last], sent + more)
  }

  function DataPass(rel: Relationship, self: Address, met: Address): Pending -> (Pending, seq<Packet>) {
    (e: Pending) => MeetData(rel, self, met, e)
  }

  function KnownPass(rel: Relationship, self: Address, met: Address): PendingKnown -> (PendingKnown, seq<Packet>) {
    (e: PendingKnown) => MeetKnown(rel, self, met, e)
  }

  function UnknownPass(rel: Relationship, self: Address, met: Address): Pending -> (Pending, seq<Packet>) {
    (e: Pending) => MeetUnknown(rel, self, met, e)
  }

  /** The digest of contents goes to a node at least as central. */
  function DigestFor(n: Node, rel: Relationship, met: Address): seq<Packet> {
    if rel.higherCentrality(n.self, met) == met then [Digest(n.self, met, n.contents)] else []
  }

  function HandleHello(n: Node, rel: Relationship, p: Packet): (Node, seq<Packet>)
    requires p.Hello?
  {
    var (data, sentData) := Pass(n.pendingData, DataPass(rel, n.self, p.src));
    var (known, sentKnown) := Pass(n.pendingKnown, KnownPass(rel, n.self, p.src));
    var (unknown, sentUnknown) := Pass(n.pendingUnknown, UnknownPass(rel, n.self, p.src));
    (n.(pendingData := data, pendingKnown := known, pendingUnknown := unknown),
     DigestFor(n, rel, p.src) + sentData + sentKnown + sentUnknown)
  }

  // ---------- nothing is dropped silently ----------

  /**
   Data for another node is ignored. Data addressed to this one either satisfies its own
   request, or is pending there afterwards: as it was if it was already pending, and
   otherwise as a new last entry that nobody has been sent. Nothing else changes.
   */
  lemma DataKeptOrSatisfies(n: Node, p: Packet)
    requires p.Data?
    ensures var n' := HandleData(n, p);
            var kept := exists e :: e in n.pendingData && e.interest.requester == p.interest.requester
                                    && e.interest.broadcastId == p.interest.broadcastId;
            && (p.dst != n.self ==> n' == n)
            && (p.dst == n.self && n.requestedContent == p.interest.content ==> n' == n.(firstSuccess := true))
            && (p.dst == n.self && n.requestedContent != p.interest.content ==>
                  n' == if kept then n else n.(pendingData := n.pendingData + [Pending(0, p.interest)]))
    ensures p.dst == n.self && n.requestedContent != p.interest.content ==>
              HasPendingData(HandleData(n, p).pendingData, p.interest.requester, p.interest.broadcastId)
  {
    if p.dst == n.self && n.requestedContent != p.interest.content
       && !HasPendingData(n.pendingData, p.interest.requester, p.interest.broadcastId)
    {
      assert Pending(NULL_ADDRESS, p.interest) in HandleData(n, p).pendingData;
    }
  }

  /**
   An interest that is addressed to another node, or already recorded, changes nothing.
   Any other is recorded, and then leads to exactly one of: data sent to the requester,
   data pending, the interest pending for a known provider, the interest pending for an
   unknown one. What is pending is the interest itself, as the last entry, not yet
   relayed to anyone; the provider is the one the packet names, or the content.
   */
  lemma InterestServedOnce(n: Node, p: Packet, asKnown: bool)
    requires p.InterestPacket? && (asKnown ==> p.provider.Named?)
    ensures var (n', packets) := if asKnown then HandleInterestKnownContentProvider(n, p)
                                 else HandleInterestUnknownContentProvider(n, p);
            var n1, i := n.(interests := n.interests + {p.interest}), p.interest;
            var owned, known := n.self == i.content, asKnown || i.content in n.contents;
            if p.dst != n.self || i in n.interests then n' == n && packets == []
            else if owned && p.src == i.requester then n' == n1 && packets == [Data(n.self, i.requester, i)]
            else
              && packets == []
              && (owned ==> n' == n1.(pendingData := n.pendingData + [Pending(0, i)]))
              && (!owned && known ==>
                    n' == n1.(pendingKnown := n.pendingKnown
                              + [PendingKnown(0, i, if asKnown then p.provider.address else i.content)]))
              && (!owned && !known ==> n' == n1.(pendingUnknown := n.pendingUnknown + [Pending(0, i)]))
  {
  }

  /** A node that starts owns its content, and asks for the requested one, if any, under the next broadcast id. */
  lemma StartsAsking(n: Node)
    ensures var n' := StartApplication(n);
            && n'.contents == n.contents + {n.self}
            && (n.requestedContent == 0 ==> n' == n.(contents := n'.contents))
            && (n.requestedContent != 0 ==>
                  n' == n.(contents := n'.contents, broadcastId := (n.broadcastId + 1) % 0x1_0000_0000,
                           pendingUnknown := n.pendingUnknown
                             + [Pending(0, Interest(n.self, n.broadcastId, n.requestedContent))]))
  {
  }

  /** A digest addressed to a node adds its contents to those the node knows; any other is ignored. */
  lemma DigestMerged(n: Node, p: Packet)
    requires p.Digest?
    ensures HandleDigest(n, p) == if p.dst == n.self then n.(contents := n.contents + p.contents) else n
  {
  }

  /** Each entry after a pass is the meeting of the entry before it; each packet sent comes from one of them. */
  lemma {:induction false} PassElementwise<E>(entries: seq<E>, meet: E -> (E, seq<Packet>))
    ensures var (after, sent) := Pass(entries, meet);
            && (forall i :: 0 <= i < |entries| ==> after[i] == meet(entries[i]).0)
            && (forall p :: p in sent ==> exists i :: 0 <= i < |entries| && p in meet(entries[i]).1)
            && (forall i, p :: 0 <= i < |entries| && p in meet(entries[i]).1 ==> p in sent)
  {
    if entries != [] {
      var front := entries[..|entries| - 1];
      PassElementwise(front, meet);
      forall p | p in Pass(entries, meet).1 ensures exists i :: 0 <= i < |entries| && p in meet(entries[i]).1 {
        if p in Pass(front, meet).1 {
          var i :| 0 <= i < |front| && p in meet(front[i]).1;
          assert p in meet(entries[i]).1;
        } else {
          assert p in meet(entries[|entries| - 1]).1;
        }
      }
    }
  }

  /** A pass goes through the entries in order: on a list it does what it does on its parts, one after the other. */
  lemma {:induction false} PassAppend<E>(a: seq<E>, b: seq<E>, meet: E -> (E, seq<Packet>))
    ensures Pass(a + b, meet).0 == Pass(a, meet).0 + Pass(b, meet).0
    ensures Pass(a + b, meet).1 == Pass(a, meet).1 + Pass(b, meet).1
  {
    if b == [] {
      assert a + b == a;
    } else {
      assert (a + b)[..|a + b| - 1] == a + b[..|b| - 1];
      PassAppend(a, b[..|b| - 1], meet);
      var more := meet(b[|b| - 1]).1;
      var x, y := Pass(a, meet).1, Pass(b[..|b| - 1], meet).1;
      assert x + y + more == x + (y + more);
    }
  }

  lemma PassSingle<E>(e: E, meet: E -> (E, seq<Packet>))
    ensures Pass([e], meet) == ([meet(e).0], meet(e).1)
  {
    assert [e][..0] == [];
    assert [] + [meet(e).0] == [meet(e).0] && [] + meet(e).1 == meet(e).1;
  }
}
