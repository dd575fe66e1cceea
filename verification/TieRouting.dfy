/**
 Where data and interests are relayed: data never away from its requester, interests
 with a known provider never away from that provider, by the fixed ranking of payment
 ties, and interests with an unknown provider never down the fixed ranking of levels.
 */
module TieRouting {
  import opened Types
  import opened Payments
  import opened Dissemination

  /** How closely a node is tied toward another, and at which level it stands. */
  datatype Ranks = Ranks(tie: (Address, Address) -> int, level: Address -> int)

  /** Each choice returns one of its two arguments, and one ranked at least as high as the other. */
  ghost predicate Respects(rel: Relationship, ranks: Ranks) {
    && (forall a, b, t ::
          && (rel.higherPaymentTie(a, b, t) == a || rel.higherPaymentTie(a, b, t) == b)
          && ranks.tie(rel.higherPaymentTie(a, b, t), t) >= ranks.tie(a, t)
          && ranks.tie(rel.higherPaymentTie(a, b, t), t) >= ranks.tie(b, t))
    && (forall a, b ::
          && (rel.higherPaymentLevel(a, b) == a || rel.higherPaymentLevel(a, b) == b)
          && ranks.level(rel.higherPaymentLevel(a, b)) >= ranks.level(a)
          && ranks.level(rel.higherPaymentLevel(a, b)) >= ranks.level(b))
  }

  // ---------- the three pending lists alike ----------

  /** What an encounter relays, by the pending list it comes from. */
  datatype Kind = DataKind | KnownKind | UnknownKind

  predicate IsKind(kind: Kind, p: Packet) {
    match kind
    case DataKind => p.Data?
    case KnownKind => p.InterestPacket? && p.provider.Named?
    case UnknownKind => p.InterestPacket? && p.provider.Unset?
  }

  /** The node a packet is to reach in the end; no node for an interest with an unknown provider. */
  function Target(kind: Kind, p: Packet): Address
    requires IsKind(kind, p)
  {
    match kind
    case DataKind => p.interest.requester
    case KnownKind => p.provider.address
    case UnknownKind => NULL_ADDRESS
  }

  function RankOf(ranks: Ranks, kind: Kind, a: Address, target: Address): int {
    if kind == UnknownKind then ranks.level(a) else ranks.tie(a, target)
  }

  /** An entry of any of the three lists. */
  datatype Entry = Entry(last: Address, target: Address, interest: Interest)

  function Views<E>(s: seq<E>, view: E -> Entry): seq<Entry> {
    seq(|s|, i requires 0 <= i < |s| => view(s[i]))
  }

  function DataView(): Pending -> Entry {
    (e: Pending) => Entry(e.lastRelayNode, e.interest.requester, e.interest)
  }

  function KnownView(): PendingKnown -> Entry {
    (e: PendingKnown) => Entry(e.lastRelayNode, e.contentProvider, e.interest)
  }

  function UnknownView(): Pending -> Entry {
    (e: Pending) => Entry(e.lastRelayNode, NULL_ADDRESS, e.interest)
  }

  function Entries(kind: Kind, n: Node): seq<Entry> {
    match kind
    case DataKind => Views(n.pendingData, DataView())
    case KnownKind => Views(n.pendingKnown, KnownView())
    case UnknownKind => Views(n.pendingUnknown, UnknownView())
  }

  function PacketFor(kind: Kind, self: Address, met: Address, e: Entry): Packet {
    match kind
    case DataKind => Data(self, met, e.interest)
    case KnownKind => InterestPacket(self, met, e.interest, Named(e.target))
    case UnknownKind => InterestPacket(self, met, e.interest, Unset)
  }

  function Higher(rel: Relationship, kind: Kind, target: Address): (Address, Address) -> Address {
    if kind == UnknownKind then rel.higherPaymentLevel else TieToward(rel, target)
  }

  /** The entry after meeting `met`, and whether it is sent to `met`. */
  function Meet(rel: Relationship, kind: Kind, self: Address, met: Address, e: Entry): (Entry, bool) {
    if kind != UnknownKind && e.target == met then (e, true)
    else
      var (last, send) := Relay(Higher(rel, kind, e.target), self, met, e.last);
      (e.(last := last), send)
  }

  /** One pass meets every entry, and sends exactly what those meetings send. */
  ghost predicate RelaysLike(rel: Relationship, kind: Kind, self: Address, met: Address,
                             s: seq<Entry>, s': seq<Entry>, packets: seq<Packet>)
  {
    && |s'| == |s|
    && (forall i :: 0 <= i < |s| ==> s'[i] == Meet(rel, kind, self, met, s[i]).0)
    && (forall q :: q in packets && IsKind(kind, q) ==>
          exists i :: 0 <= i < |s| && Meet(rel, kind, self, met, s[i]).1 && q == PacketFor(kind, self, met, s[i]))
    && (forall i :: 0 <= i < |s| && Meet(rel, kind, self, met, s[i]).1 ==> PacketFor(kind, self, met, s[i]) in packets)
  }

  /** The packets of one meeting. */
  function SentTo(rel: Relationship, kind: Kind, self: Address, met: Address, e: Entry): seq<Packet> {
    if Meet(rel, kind, self, met, e).1 then [PacketFor(kind, self, met, e)] else []
  }

  lemma PassRelays<E(!new)>(rel: Relationship, kind: Kind, self: Address, met: Address,
                            s: seq<E>, view: E -> Entry, meet: E -> (E, seq<Packet>))
    requires forall e :: view(meet(e).0) == Meet(rel, kind, self, met, view(e)).0
    requires forall e :: meet(e).1 == SentTo(rel, kind, self, met, view(e))
    ensures var (s', packets) := Pass(s, meet);
            && RelaysLike(rel, kind, self, met, Views(s, view), Views(s', view), packets)
            && forall q :: q in packets ==> IsKind(kind, q)
  {
    hide Pass, Meet, SentTo, PacketFor, IsKind;
    PassElementwise(s, meet);
    var packets := Pass(s, meet).1;
    var v := Views(s, view);
    forall q | q in packets
      ensures IsKind(kind, q) &&
              exists i :: 0 <= i < |v| && Meet(rel, kind, self, met, v[i]).1 && q == PacketFor(kind, self, met, v[i])
    {
      var i :| 0 <= i < |s| && q in meet(s[i]).1;
      assert v[i] == view(s[i]);
      SentIs(rel, kind, self, met, v[i], q);
    }
    forall i | 0 <= i < |v| && Meet(rel, kind, self, met, v[i]).1 ensures PacketFor(kind, self, met, v[i]) in packets {
      SentIs(rel, kind, self, met, v[i], PacketFor(kind, self, met, v[i]));
      assert PacketFor(kind, self, met, v[i]) in meet(s[i]).1;
    }
  }

  lemma SentIs(rel: Relationship, kind: Kind, self: Address, met: Address, e: Entry, q: Packet)
    ensures q in SentTo(rel, kind, self, met, e)
            <==> Meet(rel, kind, self, met, e).1 && q == PacketFor(kind, self, met, e)
    ensures IsKind(kind, PacketFor(kind, self, met, e))
  {
    hide Meet;
  }

  /** An encounter makes one such pass over each list, and the packets of each kind come from its own list. */
  lemma HelloRelays(rel: Relationship, n: Node, p: Packet, kind: Kind)
    requires p.Hello?
    ensures var (n', packets) := HandleHello(n, rel, p);
            RelaysLike(rel, kind, n.self, p.src, Entries(kind, n), Entries(kind, n'), packets)
    ensures forall q :: q in HandleHello(n, rel, p).1 ==> !q.Hello?
  {
    hide Pass, Meet, SentTo, Views, PacketFor, DataPass, KnownPass, UnknownPass, DataView, KnownView, UnknownView;
    PassesMeet(rel, n.self, p.src);
    PassRelays(rel, DataKind, n.self, p.src, n.pendingData, DataView(), DataPass(rel, n.self, p.src));
    PassRelays(rel, KnownKind, n.self, p.src, n.pendingKnown, KnownView(), KnownPass(rel, n.self, p.src));
    PassRelays(rel, UnknownKind, n.self, p.src, n.pendingUnknown, UnknownView(), UnknownPass(rel, n.self, p.src));
  }

  /** The three meetings of the source are one, seen through their entries. */
  lemma PassesMeet(rel: Relationship, self: Address, met: Address)
    ensures forall e :: DataView()(DataPass(rel, self, met)(e).0) == Meet(rel, DataKind, self, met, DataView()(e)).0
    ensures forall e :: DataPass(rel, self, met)(e).1 == SentTo(rel, DataKind, self, met, DataView()(e))
    ensures forall e :: KnownView()(KnownPass(rel, self, met)(e).0) == Meet(rel, KnownKind, self, met, KnownView()(e)).0
    ensures forall e :: KnownPass(rel, self, met)(e).1 == SentTo(rel, KnownKind, self, met, KnownView()(e))
    ensures forall e ::
              UnknownView()(UnknownPass(rel, self, met)(e).0) == Meet(rel, UnknownKind, self, met, UnknownView()(e)).0
    ensures forall e :: UnknownPass(rel, self, met)(e).1 == SentTo(rel, UnknownKind, self, met, UnknownView()(e))
  {
  }

  // ---------- one meeting ----------

  /** The copy goes to its target, or to a node ranked at least as high as the sender. */
  ghost predicate Upward(ranks: Ranks, kind: Kind, p: Packet)
    requires IsKind(kind, p)
  {
    var t := Target(kind, p);
    (kind != UnknownKind && p.dst == t) || RankOf(ranks, kind, p.dst, t) >= RankOf(ranks, kind, p.src, t)
  }

  /** The entry's last relay ranks at least as high as `relay`, to which it was sent. */
  ghost predicate Remembers(ranks: Ranks, kind: Kind, e: Entry, i: Interest, relay: Address) {
    && e.interest == i
    && e.last != NULL_ADDRESS
    && RankOf(ranks, kind, e.last, e.target) >= RankOf(ranks, kind, relay, e.target)
  }

  ghost predicate Covered(ranks: Ranks, kind: Kind, s: seq<Entry>, i: Interest, relay: Address) {
    exists e :: e in s && Remembers(ranks, kind, e, i, relay)
  }

  /** What meeting `met` does to one entry and its last relay. */
  lemma MeetRanks(rel: Relationship, ranks: Ranks, kind: Kind, self: Address, met: Address, e: Entry)
    requires Respects(rel, ranks) && met != NULL_ADDRESS
    ensures var (e', send) := Meet(rel, kind, self, met, e);
            && e'.interest == e.interest && e'.target == e.target
            && (e.last != NULL_ADDRESS ==>
                  e'.last != NULL_ADDRESS
                  && RankOf(ranks, kind, e'.last, e.target) >= RankOf(ranks, kind, e.last, e.target))
            && (send && !(kind != UnknownKind && met == e.target) ==>
                  && e'.last == met
                  && RankOf(ranks, kind, met, e.target) >= RankOf(ranks, kind, self, e.target)
                  && (e.last != NULL_ADDRESS ==>
                        RankOf(ranks, kind, met, e.target) >= RankOf(ranks, kind, e.last, e.target)))
  {
    HigherRanks(rel, ranks, kind, e.target, self, met);
    HigherRanks(rel, ranks, kind, e.target, met, e.last);
    hide Respects, Higher, RankOf;
  }

  lemma HigherRanks(rel: Relationship, ranks: Ranks, kind: Kind, target: Address, a: Address, b: Address)
    requires Respects(rel, ranks)
    ensures var c := Higher(rel, kind, target)(a, b);
            && (c == a || c == b)
            && RankOf(ranks, kind, c, target) >= RankOf(ranks, kind, a, target)
            && RankOf(ranks, kind, c, target) >= RankOf(ranks, kind, b, target)
  {
    assert TieToward(rel, target)(a, b) == rel.higherPaymentTie(a, b, target);
  }

  /**
   In an encounter every pending entry is sent to its target when that is met, and to
   any node ranked above the sender and above every relay so far.
   */
  lemma BetterNodeGetsIt(rel: Relationship, ranks: Ranks, n: Node, hello: Packet, kind: Kind, e: Entry)
    requires Respects(rel, ranks) && hello.Hello? && e in Entries(kind, n)
    requires || (kind != UnknownKind && hello.src == e.target)
             || (RankOf(ranks, kind, hello.src, e.target) > RankOf(ranks, kind, n.self, e.target)
                 && (e.last == NULL_ADDRESS
                     || RankOf(ranks, kind, hello.src, e.target) > RankOf(ranks, kind, e.last, e.target)))
    ensures PacketFor(kind, n.self, hello.src, e) in HandleHello(n, rel, hello).1
  {
    hide HandleHello, Respects, Higher, RankOf, Entries, PacketFor;
    HelloRelays(rel, n, hello, kind);
    HigherRanks(rel, ranks, kind, e.target, n.self, hello.src);
    HigherRanks(rel, ranks, kind, e.target, hello.src, e.last);
    var i :| 0 <= i < |Entries(kind, n)| && Entries(kind, n)[i] == e;
  }

  /** The tie or level choice that decides about an entry of this kind. */
  function Choice(rel: Relationship, kind: Kind, target: Address, a: Address, b: Address): Address {
    if kind == UnknownKind then rel.higherPaymentLevel(a, b) else rel.higherPaymentTie(a, b, target)
  }

  /** The entry is for the node met, or that is preferred to this node and to the last relay. */
  predicate Wanted(rel: Relationship, kind: Kind, self: Address, met: Address, e: Entry) {
    || (kind != UnknownKind && e.target == met)
    || (Choice(rel, kind, e.target, self, met) == met
        && (e.last == 0 || Choice(rel, kind, e.target, met, e.last) == met))
  }

  /**
   What an encounter sends, exactly: for every pending entry, a copy goes to the node met
   if and only if that is the target, or is preferred both to the node itself and to the
   entry's last relay. A node other than the target that is sent a copy is the last relay
   from then on; every other entry is as before.
   */
  lemma EncounterExactly(rel: Relationship, n: Node, hello: Packet, kind: Kind)
    requires hello.Hello?
    ensures var (n', packets) := HandleHello(n, rel, hello);
            var s, s' := Entries(kind, n), Entries(kind, n');
            && (forall q :: q in packets && IsKind(kind, q) ==>
                  exists e :: e in s && Wanted(rel, kind, n.self, hello.src, e)
                       && q == PacketFor(kind, n.self, hello.src, e))
            && (forall e :: e in s && Wanted(rel, kind, n.self, hello.src, e) ==>
                  PacketFor(kind, n.self, hello.src, e) in packets)
            && |s'| == |s|
            && forall i :: 0 <= i < |s| ==>
                 var toTarget := kind != UnknownKind && s[i].target == hello.src;
                 s'[i] == if !toTarget && Wanted(rel, kind, n.self, hello.src, s[i])
                          then s[i].(last := hello.src) else s[i]
  {
    hide HandleHello, Entries, Meet, Wanted, PacketFor, IsKind;
    HelloRelays(rel, n, hello, kind);
    var (n', packets) := HandleHello(n, rel, hello);
    var s := Entries(kind, n);
    forall e | e in s
      ensures var (e', send) := Meet(rel, kind, n.self, hello.src, e);
              && (send <==> Wanted(rel, kind, n.self, hello.src, e))
              && e' == if !(kind != UnknownKind && e.target == hello.src) && send then e.(last := hello.src) else e
    {
      MeetExactly(rel, kind, n.self, hello.src, e);
    }
    forall q | q in packets && IsKind(kind, q)
      ensures exists e :: e in s && Wanted(rel, kind, n.self, hello.src, e)
                && q == PacketFor(kind, n.self, hello.src, e)
    {
      var i :| 0 <= i < |s| && Meet(rel, kind, n.self, hello.src, s[i]).1
               && q == PacketFor(kind, n.self, hello.src, s[i]);
      assert s[i] in s;
    }
    forall e | e in s && Wanted(rel, kind, n.self, hello.src, e)
      ensures PacketFor(kind, n.self, hello.src, e) in packets
    {
      var i :| 0 <= i < |s| && s[i] == e;
    }
    forall i | 0 <= i < |s| ensures s[i] in s {
    }
  }

  lemma MeetExactly(rel: Relationship, kind: Kind, self: Address, met: Address, e: Entry)
    ensures var (e', send) := Meet(rel, kind, self, met, e);
            && (send <==> Wanted(rel, kind, self, met, e))
            && e' == if !(kind != UnknownKind && e.target == met) && send then e.(last := met) else e
  {
  }

  /** The contents of the pending lists themselves, and what the packets say, by kind. */
  lemma EntriesAndPackets(n: Node, self: Address, met: Address, e: Entry)
    ensures |Entries(DataKind, n)| == |n.pendingData| && |Entries(KnownKind, n)| == |n.pendingKnown|
    ensures |Entries(UnknownKind, n)| == |n.pendingUnknown|
    ensures forall i :: 0 <= i < |n.pendingData| ==>
              var x := n.pendingData[i];
              Entries(DataKind, n)[i] == Entry(x.lastRelayNode, x.interest.requester, x.interest)
    ensures forall i :: 0 <= i < |n.pendingKnown| ==>
              var x := n.pendingKnown[i];
              Entries(KnownKind, n)[i] == Entry(x.lastRelayNode, x.contentProvider, x.interest)
    ensures forall i :: 0 <= i < |n.pendingUnknown| ==>
              var x := n.pendingUnknown[i];
              Entries(UnknownKind, n)[i] == Entry(x.lastRelayNode, 0, x.interest)
    ensures PacketFor(DataKind, self, met, e) == Data(self, met, e.interest)
    ensures PacketFor(KnownKind, self, met, e) == InterestPacket(self, met, e.interest, Named(e.target))
    ensures PacketFor(UnknownKind, self, met, e) == InterestPacket(self, met, e.interest, Unset)
  {
  }

  lemma ByPart<T>(a: seq<T>, b: seq<T>, c: seq<T>, i: nat)
    requires i < |a + b + c|
    ensures if i < |a| then (a + b + c)[i] in a else if i < |a| + |b| then (a + b + c)[i] in b else (a + b + c)[i] in c
  {
  }

  /**
   An encounter sends the digest of contents exactly if the node met is at least as
   central, and sends it first; then come data, interests with a known provider, and
   interests with an unknown one, in this order and nothing else.
   */
  lemma DigestExactly(rel: Relationship, n: Node, hello: Packet)
    requires hello.Hello?
    ensures var (n', packets) := HandleHello(n, rel, hello);
            var central := rel.higherCentrality(n.self, hello.src) == hello.src;
            && (central <==> exists p :: p in packets && p.Digest?)
            && (central ==> packets[0] == Digest(n.self, hello.src, n.contents))
            && (forall i :: 1 <= i < |packets| ==> packets[i].Data? || packets[i].InterestPacket?)
            && (!central && packets != [] ==> packets[0].Data? || packets[0].InterestPacket?)
            && n'.contents == n.contents && n'.interests == n.interests
            && forall i, j :: 0 <= i < j < |packets| ==>
                 && (packets[j].Data? ==> !packets[i].InterestPacket?)
                 && (IsKind(KnownKind, packets[j]) ==> !IsKind(UnknownKind, packets[i]))
  {
    hide Pass, DataPass, KnownPass, UnknownPass, DataView, KnownView, UnknownView, RelaysLike;
    var self, met := n.self, hello.src;
    PassesMeet(rel, self, met);
    PassRelays(rel, DataKind, self, met, n.pendingData, DataView(), DataPass(rel, self, met));
    PassRelays(rel, KnownKind, self, met, n.pendingKnown, KnownView(), KnownPass(rel, self, met));
    PassRelays(rel, UnknownKind, self, met, n.pendingUnknown, UnknownView(), UnknownPass(rel, self, met));
    var data := Pass(n.pendingData, DataPass(rel, self, met)).1;
    var known := Pass(n.pendingKnown, KnownPass(rel, self, met)).1;
    var unknown := Pass(n.pendingUnknown, UnknownPass(rel, self, met)).1;
    var rest, packets := data + known + unknown, HandleHello(n, rel, hello).1;
    assert packets == DigestFor(n, rel, met) + rest;
    forall i, j | 0 <= i < j < |rest|
      ensures rest[j].Data? ==> !rest[i].InterestPacket?
      ensures IsKind(KnownKind, rest[j]) ==> !IsKind(UnknownKind, rest[i])
    {
      ByPart(data, known, unknown, i);
      ByPart(data, known, unknown, j);
    }
    forall i | 0 <= i < |rest| ensures rest[i].Data? || rest[i].InterestPacket? {
      assert rest[i] in data || rest[i] in known || rest[i] in unknown;
    }
    if rel.higherCentrality(self, met) == met {
      assert packets[0] in packets;
      forall i | 1 <= i < |packets| ensures packets[i] == rest[i - 1] {
      }
    } else {
      assert packets == rest;
    }
  }

  lemma PassRanks(rel: Relationship, ranks: Ranks, kind: Kind, self: Address, met: Address,
                  s: seq<Entry>, s': seq<Entry>, packets: seq<Packet>, i: Interest, relay: Address)
    requires Respects(rel, ranks) && met != NULL_ADDRESS && RelaysLike(rel, kind, self, met, s, s', packets)
    requires Covered(ranks, kind, s, i, relay)
    ensures Covered(ranks, kind, s', i, relay)
  {
    hide Respects, Meet, RankOf;
    var e :| e in s && Remembers(ranks, kind, e, i, relay);
    var k :| 0 <= k < |s| && s[k] == e;
    MeetRanks(rel, ranks, kind, self, met, e);
    assert s'[k] in s' && Remembers(ranks, kind, s'[k], i, relay);
  }

  /** Data is for its requester. */
  ghost predicate Aimed(kind: Kind, s: seq<Entry>) {
    kind == DataKind ==> forall e :: e in s ==> e.target == e.interest.requester
  }

  lemma EntriesAimed(kind: Kind, n: Node)
    ensures Aimed(kind, Entries(kind, n))
  {
  }

  /** Where a copy sent in an encounter comes from, where it goes, and what the entry then remembers. */
  lemma RelayedFrom(rel: Relationship, ranks: Ranks, kind: Kind, self: Address, met: Address,
                    s: seq<Entry>, s': seq<Entry>, packets: seq<Packet>, q: Packet) returns (e: Entry)
    requires Respects(rel, ranks) && met != NULL_ADDRESS && RelaysLike(rel, kind, self, met, s, s', packets)
    requires q in packets && IsKind(kind, q) && Aimed(kind, s)
    ensures e in s && q.src == self && q.dst == met && Upward(ranks, kind, q)
    ensures e.interest == q.interest && (kind != UnknownKind ==> e.target == Target(kind, q))
    ensures !(kind != UnknownKind && met == e.target) ==>
              && Covered(ranks, kind, s', q.interest, met)
              && (e.last != NULL_ADDRESS ==>
                    RankOf(ranks, kind, met, e.target) >= RankOf(ranks, kind, e.last, e.target))
  {
    hide Respects, Meet;
    var k :| 0 <= k < |s| && Meet(rel, kind, self, met, s[k]).1 && q == PacketFor(kind, self, met, s[k]);
    e := s[k];
    MeetRanks(rel, ranks, kind, self, met, e);
    if !(kind != UnknownKind && met == e.target) {
      assert s'[k] in s' && Remembers(ranks, kind, s'[k], q.interest, met);
    }
  }

  // ---------- every step ----------

  /** The copy has come to the node it was for. */
  predicate Final(kind: Kind, p: Packet)
    requires IsKind(kind, p)
  {
    kind != UnknownKind && p.dst == Target(kind, p)
  }

  ghost predicate CopyOk(ranks: Ranks, kind: Kind, p: Packet, nodes: map<Address, Node>)
    requires IsKind(kind, p)
  {
    && p.src in nodes
    && Upward(ranks, kind, p)
    && (!Final(kind, p) ==> Covered(ranks, kind, Entries(kind, nodes[p.src]), p.interest, p.dst))
  }

  /** The node's own interest: `StartApplication` does not record it as seen. */
  predicate Own(kind: Kind, n: Node, i: Interest) {
    kind == UnknownKind && i.requester == n.self
  }

  /** Every interest but a node's own is recorded when it becomes pending, so it is pending once per list. */
  ghost predicate OnceOnly(kind: Kind, s: seq<Entry>, n: Node) {
    kind != DataKind ==>
      && (forall e :: e in s && !Own(kind, n, e.interest) ==> e.interest in n.interests)
      && (forall i, j :: 0 <= i < j < |s| && !Own(kind, n, s[i].interest) ==> s[i].interest != s[j].interest)
  }

  ghost predicate RelayInv(w: World, ranks: Ranks, kind: Kind) {
    && NULL_ADDRESS !in w.nodes
    && (forall p :: p in w.sent && p.Hello? ==> p.src in w.nodes)
    && (forall p :: p in w.sent && IsKind(kind, p) ==> CopyOk(ranks, kind, p, w.nodes))
    && (forall a :: a in w.nodes ==> w.nodes[a].self == a && OnceOnly(kind, Entries(kind, w.nodes[a]), w.nodes[a]))
  }

  /** A list keeps what it covers and stays free of repetition. */
  ghost predicate ListKept(ranks: Ranks, kind: Kind, n: Node, n': Node) {
    && n'.self == n.self
    && (forall i, relay :: Covered(ranks, kind, Entries(kind, n), i, relay) ==>
          Covered(ranks, kind, Entries(kind, n'), i, relay))
    && (OnceOnly(kind, Entries(kind, n), n) ==> OnceOnly(kind, Entries(kind, n'), n'))
  }

  /** Outside encounters a list only grows at the end, by an interest new to the node or its own. */
  ghost predicate Grown(kind: Kind, n: Node, n': Node) {
    && n'.self == n.self && n.interests <= n'.interests
    && (Entries(kind, n') == Entries(kind, n)
        || exists e :: Entries(kind, n') == Entries(kind, n) + [e] && e.last == NULL_ADDRESS
             && (kind != DataKind ==>
                   Own(kind, n, e.interest) || (e.interest !in n.interests && e.interest in n'.interests)))
  }

  lemma GrownKept(ranks: Ranks, kind: Kind, n: Node, n': Node)
    requires Grown(kind, n, n')
    ensures ListKept(ranks, kind, n, n')
  {
    hide Entries, Remembers;
    var s, s' := Entries(kind, n), Entries(kind, n');
    forall i, relay | Covered(ranks, kind, s, i, relay) ensures Covered(ranks, kind, s', i, relay) {
      var x :| x in s && Remembers(ranks, kind, x, i, relay);
      assert x in s';
    }
    if s' != s && kind != DataKind && OnceOnly(kind, s, n) {
      var e :| s' == s + [e]
               && (Own(kind, n, e.interest) || (e.interest !in n.interests && e.interest in n'.interests));
      forall i | 0 <= i < |s| && !Own(kind, n, s[i].interest) ensures s[i].interest != e.interest {
        assert s[i] in s;
      }
    }
  }

  lemma StartGrows(kind: Kind, n: Node)
    ensures Grown(kind, n, StartApplication(n))
  {
    var n' := StartApplication(n);
    if n.requestedContent != NULL_ADDRESS && kind == UnknownKind {
      assert Entries(kind, n') == Entries(kind, n) + [Entry(NULL_ADDRESS, NULL_ADDRESS, OwnInterest(n))];
    } else {
      assert Entries(kind, n') == Entries(kind, n);
    }
  }

  /** Outside encounters data is sent only to its requester, and nothing else is sent. */
  lemma OtherHandlers(rel: Relationship, n: Node, p: Packet, asKnown: bool, kind: Kind)
    requires !p.Hello? && (asKnown ==> p.InterestPacket? && p.provider.Named?)
    ensures var (n', packets) := Handle(rel, n, p, asKnown);
            && Grown(kind, n, n')
            && forall q :: q in packets ==> q.Data? && q.src == n.self && q.dst == q.interest.requester
  {
    hide Views;
    var n' := Handle(rel, n, p, asKnown).0;
    if p.Data? || p.InterestPacket? {
      var e := Pending(NULL_ADDRESS, p.interest);
      ViewsAppend(n.pendingData, e, DataView());
      ViewsAppend(n.pendingUnknown, e, UnknownView());
    }
    if |n'.pendingKnown| != |n.pendingKnown| {
      ViewsAppend(n.pendingKnown, n'.pendingKnown[|n.pendingKnown|], KnownView());
    }
  }

  lemma ViewsAppend<E>(s: seq<E>, e: E, view: E -> Entry)
    ensures Views(s + [e], view) == Views(s, view) + [view(e)]
  {
  }

  lemma HelloKept(rel: Relationship, ranks: Ranks, kind: Kind, n: Node, p: Packet)
    requires Respects(rel, ranks) && p.Hello? && p.src != NULL_ADDRESS
    ensures ListKept(ranks, kind, n, HandleHello(n, rel, p).0)
  {
    hide HandleHello, Respects, Entries, Meet, Covered, Own;
    var (n', packets) := HandleHello(n, rel, p);
    var s, s' := Entries(kind, n), Entries(kind, n');
    HelloRelays(rel, n, p, kind);
    HelloKeepsNode(rel, n, p);
    forall i, relay | Covered(ranks, kind, s, i, relay) ensures Covered(ranks, kind, s', i, relay) {
      PassRanks(rel, ranks, kind, n.self, p.src, s, s', packets, i, relay);
    }
    forall i | 0 <= i < |s| ensures s'[i].interest == s[i].interest && s[i] in s {
      MeetRanks(rel, ranks, kind, n.self, p.src, s[i]);
    }
    OwnBySelf(kind, n, n');
  }

  lemma OwnBySelf(kind: Kind, n: Node, n': Node)
    requires n'.self == n.self
    ensures forall i :: Own(kind, n', i) <==> Own(kind, n, i)
  {
  }

  lemma HelloKeepsNode(rel: Relationship, n: Node, p: Packet)
    requires p.Hello?
    ensures HandleHello(n, rel, p).0.self == n.self && HandleHello(n, rel, p).0.interests == n.interests
  {
    hide Pass;
  }

  /** Whatever is handled, each list is kept, and each copy sent is in order. */
  lemma HandleRanks(rel: Relationship, ranks: Ranks, kind: Kind, n: Node, p: Packet, asKnown: bool,
                    nodes: map<Address, Node>)
    requires Respects(rel, ranks) && (asKnown ==> p.InterestPacket? && p.provider.Named?)
    requires p.Hello? ==> p.src != NULL_ADDRESS
    requires n.self in nodes && nodes[n.self] == Handle(rel, n, p, asKnown).0
    ensures ListKept(ranks, kind, n, Handle(rel, n, p, asKnown).0)
    ensures forall q :: q in Handle(rel, n, p, asKnown).1 ==>
              !q.Hello? && (IsKind(kind, q) ==> CopyOk(ranks, kind, q, nodes))
  {
    hide Respects, Covered, ListKept, Grown, HandleHello, HandleData, HandleDigest;
    hide HandleInterestKnownContentProvider, HandleInterestUnknownContentProvider, RelaysLike, Entries, RankOf;
    if p.Hello? {
      HelloKept(rel, ranks, kind, n, p);
      HelloRelays(rel, n, p, kind);
      EntriesAimed(kind, n);
      var (n', packets) := HandleHello(n, rel, p);
      forall q | q in packets && IsKind(kind, q) ensures CopyOk(ranks, kind, q, nodes) {
        var e := RelayedFrom(rel, ranks, kind, n.self, p.src, Entries(kind, n), Entries(kind, n'), packets, q);
      }
    } else {
      OtherHandlers(rel, n, p, asKnown, kind);
      GrownKept(ranks, kind, n, Handle(rel, n, p, asKnown).0);
    }
  }

  /** A copy stays in order when its sender's list is kept. */
  lemma CopyStaysOk(ranks: Ranks, kind: Kind, p: Packet, nodes: map<Address, Node>, a: Address, n': Node)
    requires IsKind(kind, p) && CopyOk(ranks, kind, p, nodes)
    requires a in nodes && ListKept(ranks, kind, nodes[a], n')
    ensures CopyOk(ranks, kind, p, nodes[a := n'])
  {
    hide Covered, Upward, Entries, OnceOnly;
  }

  /** If one node's list is kept, and new copies are in order, so is the network. */
  lemma NetworkKept(w: World, w': World, ranks: Ranks, kind: Kind, a: Address, n': Node)
    requires RelayInv(w, ranks, kind) && a in w.nodes && ListKept(ranks, kind, w.nodes[a], n')
    requires w'.nodes == w.nodes[a := n'] && w.sent <= w'.sent
    requires forall q :: q in w'.sent && q !in w.sent ==>
               && (q.Hello? ==> q.src in w.nodes)
               && (IsKind(kind, q) ==> CopyOk(ranks, kind, q, w'.nodes))
    ensures RelayInv(w', ranks, kind)
  {
    hide CopyOk, Entries, OnceOnly, Covered;
    forall p | p in w'.sent && IsKind(kind, p) ensures CopyOk(ranks, kind, p, w'.nodes) {
      if p in w.sent {
        CopyStaysOk(ranks, kind, p, w.nodes, a, n');
      }
    }
  }

  lemma StepKeepsRelayInv(w: World, rel: Relationship, ranks: Ranks, kind: Kind, s: Step)
    requires RelayInv(w, ranks, kind) && Respects(rel, ranks) && Enabled(w, s)
    ensures RelayInv(Apply(w, rel, s), ranks, kind)
  {
    hide Handle, CopyOk, Entries, OnceOnly, Covered, Respects, Grown, StartApplication;
    var w', n := Apply(w, rel, s), w.nodes[s.n];
    match s {
      case Deliver(a, p, asKnown) =>
        HandleRanks(rel, ranks, kind, n, p, asKnown, w'.nodes);
        NetworkKept(w, w', ranks, kind, a, Handle(rel, n, p, asKnown).0);
      case Start(a) =>
        StartGrows(kind, n);
        GrownKept(ranks, kind, n, StartApplication(n));
        NetworkKept(w, w', ranks, kind, a, StartApplication(n));
      case Request(a, content) =>
        RequestGrows(kind, n, content);
        GrownKept(ranks, kind, n, RequestContent(n, content));
        NetworkKept(w, w', ranks, kind, a, RequestContent(n, content));
      case SayHello(a) =>
        SameGrows(kind, n);
        GrownKept(ranks, kind, n, n);
        NetworkKept(w, w', ranks, kind, a, n);
    }
  }

  lemma RequestGrows(kind: Kind, n: Node, content: Address)
    ensures Grown(kind, n, RequestContent(n, content))
  {
  }

  lemma SameGrows(kind: Kind, n: Node)
    ensures Grown(kind, n, n)
  {
  }

  lemma {:induction false} RunKeepsRelayInv(w: World, rel: Relationship, ranks: Ranks, kind: Kind, steps: seq<Step>)
    requires RelayInv(w, ranks, kind) && Respects(rel, ranks) && IsRun(w, rel, steps)
    ensures RelayInv(Exec(w, rel, steps), ranks, kind)
  {
    hide Apply, Enabled, RelayInv, Respects;
    if steps != [] {
      RunKeepsRelayInv(w, rel, ranks, kind, steps[..|steps| - 1]);
      StepKeepsRelayInv(Exec(w, rel, steps[..|steps| - 1]), rel, ranks, kind, steps[|steps| - 1]);
    }
  }

  lemma ReachableInv(w0: World, rel: Relationship, ranks: Ranks, kind: Kind, steps: seq<Step>)
    requires Initial(w0) && Respects(rel, ranks) && IsRun(w0, rel, steps)
    ensures Inv(Exec(w0, rel, steps)) && RelayInv(Exec(w0, rel, steps), ranks, kind)
  {
    hide *;
    InitialInv(w0);
    InitialRelayInv(w0, ranks, kind);
    RunKeepsInv(w0, rel, steps);
    RunKeepsRelayInv(w0, rel, ranks, kind, steps);
  }

  lemma InitialRelayInv(w: World, ranks: Ranks, kind: Kind)
    requires Initial(w)
    ensures RelayInv(w, ranks, kind)
  {
  }

  // ---------- relays only go up ----------

  predicate SameRequest(i: Interest, j: Interest) {
    i.requester == j.requester && i.broadcastId == j.broadcastId
  }

  /** Two packets for the same request carry the same interest, as broadcast ids are not reused. */
  lemma SameRequestSameInterest(w: World, kind: Kind, p: Packet, i: Interest)
    requires Inv(w) && p in w.sent && IsKind(kind, p)
    requires i in w.originated && SameRequest(p.interest, i)
    ensures p.interest == i
  {
    assert PacketOk(p, w.originated, Recorded(w));
  }

  lemma EntryOriginated(w: World, kind: Kind, a: Address, e: Entry)
    requires Inv(w) && a in w.nodes && e in Entries(kind, w.nodes[a])
    ensures e.interest in w.originated
    ensures kind == KnownKind ==> e.target == e.interest.content
    ensures kind == DataKind ==> e.target == e.interest.requester
  {
    assert NodeOk(w.nodes[a], w.originated, Recorded(w));
  }

  ghost predicate NoRepeats(kind: Kind, s: seq<Entry>, n: Node) {
    forall i, j :: 0 <= i < j < |s| && !Own(kind, n, s[i].interest) ==> s[i].interest != s[j].interest
  }

  lemma ListsNeverRepeat(w: World, ranks: Ranks, kind: Kind, a: Address)
    requires Inv(w) && RelayInv(w, ranks, kind) && a in w.nodes
    ensures NoRepeats(kind, Entries(kind, w.nodes[a]), w.nodes[a])
  {
    hide CopyOk, Covered, Own, PacketOk, Recorded, IdsUnique;
    assert NodeOk(w.nodes[a], w.originated, Recorded(w));
    assert OnceOnly(kind, Entries(kind, w.nodes[a]), w.nodes[a]);
  }

  /** A pending entry for an interest that is not the node's own is the only one in its list. */
  lemma OnlyEntry(kind: Kind, s: seq<Entry>, n: Node, e: Entry, x: Entry)
    requires NoRepeats(kind, s, n) && e in s && x in s && e.interest == x.interest && !Own(kind, n, e.interest)
    ensures e == x
  {
    hide Own;
    var i :| 0 <= i < |s| && s[i] == e;
    var j :| 0 <= j < |s| && s[j] == x;
    if i < j {
    } else if j < i {
    }
  }

  /** `p` was relayed before by the sender of `q` for the same request, short of the target as `q` is. */
  ghost predicate AlsoRelayed(w: World, kind: Kind, p: Packet, q: Packet)
    requires IsKind(kind, q)
  {
    && p in w.sent && IsKind(kind, p) && p.src == q.src && SameRequest(p.interest, q.interest)
    && !Final(kind, p) && !Final(kind, q)
  }

  /** The copy goes to a node ranked at least as high as every node its sender relayed the request to before. */
  ghost predicate NeverBelow(w: World, ranks: Ranks, kind: Kind, q: Packet)
    requires IsKind(kind, q)
  {
    forall p :: AlsoRelayed(w, kind, p, q) ==>
      RankOf(ranks, kind, q.dst, Target(kind, q)) >= RankOf(ranks, kind, p.dst, Target(kind, q))
  }

  /**
   In every reachable state, when a node meets another, every copy it then sends of
   data or of an interest goes to its target, or to a node ranked at least as high as
   the sender; and at least as high as every node the sender relayed that data or
   interest to before, unless it is the sender's own unknown-provider interest.
   */
  lemma RelaysOnlyUpward(w0: World, rel: Relationship, ranks: Ranks, steps: seq<Step>, kind: Kind,
                         a: Address, hello: Packet, q: Packet)
    requires Initial(w0) && Respects(rel, ranks) && IsRun(w0, rel, steps)
    requires var w := Exec(w0, rel, steps); a in w.nodes && hello in w.sent && hello.Hello?
    requires IsKind(kind, q) && q in HandleHello(Exec(w0, rel, steps).nodes[a], rel, hello).1
    ensures q.src == a && q.dst == hello.src && Upward(ranks, kind, q)
    ensures !(kind == UnknownKind && q.interest.requester == a) ==> NeverBelow(Exec(w0, rel, steps), ranks, kind, q)
  {
    hide *;
    ReachableInv(w0, rel, ranks, kind, steps);
    MeetRanksAbove(Exec(w0, rel, steps), rel, ranks, kind, a, hello, q);
  }

  lemma MeetRanksAbove(w: World, rel: Relationship, ranks: Ranks, kind: Kind, a: Address, hello: Packet, q: Packet)
    requires Inv(w) && RelayInv(w, ranks, kind) && Respects(rel, ranks)
    requires a in w.nodes && hello in w.sent && hello.Hello?
    requires IsKind(kind, q) && q in HandleHello(w.nodes[a], rel, hello).1
    ensures q.src == a && q.dst == hello.src && Upward(ranks, kind, q)
    ensures !(kind == UnknownKind && q.interest.requester == a) ==> NeverBelow(w, ranks, kind, q)
  {
    hide HandleHello, Respects, Inv, Entries, RelaysLike, Upward, OnceOnly, NoRepeats;
    var n := w.nodes[a];
    var (n', packets) := HandleHello(n, rel, hello);
    HelloRelays(rel, n, hello, kind);
    EntriesAimed(kind, n);
    var e := RelayedFrom(rel, ranks, kind, a, hello.src, Entries(kind, n), Entries(kind, n'), packets, q);
    EntryOriginated(w, kind, a, e);
    ListsNeverRepeat(w, ranks, kind, a);
    forall p | AlsoRelayed(w, kind, p, q) && !(kind == UnknownKind && q.interest.requester == a)
      ensures RankOf(ranks, kind, q.dst, Target(kind, q)) >= RankOf(ranks, kind, p.dst, Target(kind, q))
    {
      SameRequestSameInterest(w, kind, p, e.interest);
      assert CopyOk(ranks, kind, p, w.nodes);
      var x :| x in Entries(kind, n) && Remembers(ranks, kind, x, p.interest, p.dst);
      OnlyEntry(kind, Entries(kind, n), n, e, x);
    }
  }

  /** A path of copies: each is sent by the node the one before was addressed to, short of the target. */
  ghost predicate IsRelayPath(w: World, kind: Kind, path: seq<Packet>, target: Address) {
    && (forall i :: 0 <= i < |path| ==> path[i] in w.sent && IsKind(kind, path[i]) && Target(kind, path[i]) == target)
    && (forall i :: 0 <= i < |path| - 1 ==> path[i + 1].src == path[i].dst && !Final(kind, path[i]))
  }

  lemma {:induction false} RankAlongPath(w: World, ranks: Ranks, kind: Kind, path: seq<Packet>, target: Address,
                                         i: nat, j: nat)
    requires RelayInv(w, ranks, kind) && IsRelayPath(w, kind, path, target) && i <= j < |path|
    ensures RankOf(ranks, kind, path[j].src, target) >= RankOf(ranks, kind, path[i].src, target)
    decreases j
  {
    hide Covered, Entries, OnceOnly, RankOf;
    if i < j {
      RankAlongPath(w, ranks, kind, path, target, i, j - 1);
      assert CopyOk(ranks, kind, path[j - 1], w.nodes);
    }
  }

  /**
   In every reachable state the rank never drops along a path of copies, up to the
   final hop: toward the requester for data, toward the provider for an interest whose
   provider is known, and by level for one whose provider is unknown.
   */
  lemma RankNeverDrops(w0: World, rel: Relationship, ranks: Ranks, steps: seq<Step>, kind: Kind,
                       path: seq<Packet>, target: Address, i: nat, j: nat)
    requires Initial(w0) && Respects(rel, ranks) && IsRun(w0, rel, steps)
    requires IsRelayPath(Exec(w0, rel, steps), kind, path, target) && i <= j < |path|
    ensures RankOf(ranks, kind, path[j].src, target) >= RankOf(ranks, kind, path[i].src, target)
    ensures !Final(kind, path[j]) ==>
              RankOf(ranks, kind, path[j].dst, target) >= RankOf(ranks, kind, path[i].src, target)
  {
    hide Initial, Respects, IsRun, Exec, Inv, Covered, Entries, OnceOnly, RankOf;
    ReachableInv(w0, rel, ranks, kind, steps);
    var w := Exec(w0, rel, steps);
    RankAlongPath(w, ranks, kind, path, target, i, j);
    assert CopyOk(ranks, kind, path[j], w.nodes);
  }
}
