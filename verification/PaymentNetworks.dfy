/** The payment application object (model/payment-network.cc, model/payment-network.h). */
module PaymentNetworks {
  import opened Types
  import opened Vectors
  import opened Payments

  class PaymentNetwork {
    const self: Address
    const relationship: Relationship
    var requestedContent: Address
    var contents: set<Address>
    var interests: set<Interest>
    const pendingData: Vector<Pending>
    const pendingKnown: Vector<PendingKnown>
    const pendingUnknown: Vector<Pending>
    var firstSuccess: bool
    var broadcastId: uint32
    /** The packets given to the socket so far. */
    var sent: seq<Packet>

    ghost predicate Valid()
      reads this, pendingData, pendingKnown, pendingUnknown
    {
      && pendingData.Valid() && pendingKnown.Valid() && pendingUnknown.Valid()
      && pendingData != pendingUnknown && pendingData.data != pendingUnknown.data
    }

    ghost function View(): Node
      requires Valid()
      reads this, pendingData, pendingKnown, pendingUnknown, pendingData.data, pendingKnown.data, pendingUnknown.data
    {
      Node(self, requestedContent, contents, interests, pendingData.Contents(), pendingKnown.Contents(),
           pendingUnknown.Contents(), firstSuccess, broadcastId)
    }

    constructor (self: Address, relationship: Relationship)
      ensures Valid() && View() == NewNode(self) && sent == [] && this.relationship == relationship
    {
      this.self, this.relationship := self, relationship;
      requestedContent, contents, interests := NULL_ADDRESS, {}, {};
      firstSuccess, broadcastId, sent := false, 0, [];
      pendingData := new Vector<Pending>();
      pendingKnown := new Vector<PendingKnown>();
      pendingUnknown := new Vector<Pending>();
    }

    method RequestContent(content: Address)
      requires Valid()
      modifies this`requestedContent
      ensures Valid() && View() == Payments.RequestContent(old(View()), content)
    {
      requestedContent := content;
    }

    method StartApplication()
      requires Valid()
      modifies this`contents, this`broadcastId, pendingUnknown, pendingUnknown.data
      ensures Valid() && View() == Payments.StartApplication(old(View()))
    {
      contents := contents + {self};
      if requestedContent != NULL_ADDRESS {
        pendingUnknown.PushBack(Pending(NULL_ADDRESS, Interest(self, broadcastId, requestedContent)));
        broadcastId := (broadcastId + 1) % TWO32;
      }
    }

    method SendPacket(p: Packet)
      modifies this`sent
      ensures sent == old(sent) + [p]
    {
      sent := sent + [p];
    }

    method HandleData(p: Packet)
      requires Valid() && p.Data?
      modifies this`firstSuccess, pendingData, pendingData.data
      ensures Valid() && View() == Payments.HandleData(old(View()), p)
    {
      if self != p.dst {
        return;
      }
      if requestedContent == p.interest.content {
        firstSuccess := true;
        return;
      }
      for i := 0 to pendingData.size
        invariant forall j :: 0 <= j < i ==>
                    !(pendingData.data[j].interest.requester == p.interest.requester
                      && pendingData.data[j].interest.broadcastId == p.interest.broadcastId)
      {
        if p.interest.requester == pendingData.data[i].interest.requester
          && p.interest.broadcastId == pendingData.data[i].interest.broadcastId
        {
          assert pendingData.data[i] in View().pendingData;
          return;
        }
      }
      pendingData.PushBack(Pending(NULL_ADDRESS, p.interest));
    }

    /** The owner sends the data back to a requester that asks itself, and keeps it pending otherwise. */
    method Serve(p: Packet)
      requires Valid() && p.InterestPacket?
      modifies this`sent, pendingData, pendingData.data
      ensures Valid() && View() == Payments.Serve(old(View()), p).0
      ensures sent == old(sent) + Payments.Serve(old(View()), p).1
    {
      if p.src == p.interest.requester {
        SendPacket(Data(self, p.src, p.interest));
      } else {
        pendingData.PushBack(Pending(NULL_ADDRESS, p.interest));
        assert sent == old(sent) + [];
      }
    }

    method HandleInterestKnownContentProvider(p: Packet)
      requires Valid() && p.InterestPacket? && p.provider.Named?
      modifies this`sent, this`interests, pendingData, pendingData.data, pendingKnown, pendingKnown.data
      ensures Valid() && View() == Payments.HandleInterestKnownContentProvider(old(View()), p).0
      ensures sent == old(sent) + Payments.HandleInterestKnownContentProvider(old(View()), p).1
    {
      assert sent == old(sent) + [];
      if self != p.dst || p.interest in interests {
        return;
      }
      interests := interests + {p.interest};
      if self == p.interest.content {
        Serve(p);
      } else {
        pendingKnown.PushBack(PendingKnown(NULL_ADDRESS, p.interest, p.provider.address));
      }
    }

    method HandleInterestUnknownContentProvider(p: Packet)
      requires Valid() && p.InterestPacket?
      modifies this`sent, this`interests, pendingData, pendingData.data
      modifies pendingKnown, pendingKnown.data, pendingUnknown, pendingUnknown.data
      ensures Valid() && View() == Payments.HandleInterestUnknownContentProvider(old(View()), p).0
      ensures sent == old(sent) + Payments.HandleInterestUnknownContentProvider(old(View()), p).1
    {
      assert sent == old(sent) + [];
      if self != p.dst || p.interest in interests {
        return;
      }
      interests := interests + {p.interest};
      if self == p.interest.content {
        Serve(p);
      } else if p.interest.content in contents {
        pendingKnown.PushBack(PendingKnown(NULL_ADDRESS, p.interest, p.interest.content));
      } else {
        pendingUnknown.PushBack(Pending(NULL_ADDRESS, p.interest));
      }
    }

    method HandleDigest(p: Packet)
      requires Valid() && p.Digest?
      modifies this`contents
      ensures Valid() && View() == Payments.HandleDigest(old(View()), p)
    {
      if self == p.dst {
        contents := contents + p.contents;
      }
    }

    method HandleHello(p: Packet)
      requires Valid() && p.Hello?
      modifies this`sent, pendingData.data, pendingKnown.data, pendingUnknown.data
      ensures Valid() && View() == Payments.HandleHello(old(View()), relationship, p).0
      ensures sent == old(sent) + Payments.HandleHello(old(View()), relationship, p).1
    {
      hide Pass;
      DecideWhetherToSendContentNameDigest(p.src);
      ProcessPendingData(p.src);
      ProcessPendingInterestKnownContentProvider(p.src);
      ProcessPendingInterestUnknownContentProvider(p.src);
    }

    method DecideWhetherToSendContentNameDigest(met: Address)
      requires Valid()
      modifies this`sent
      ensures Valid() && View() == old(View())
      ensures sent == old(sent) + DigestFor(old(View()), relationship, met)
    {
      assert sent == old(sent) + [];
      if relationship.higherCentrality(self, met) == met {
        SendPacket(Digest(self, met, contents));
      }
    }

    method ProcessPendingData(met: Address)
      requires Valid()
      modifies this`sent, pendingData.data
      ensures pendingData.Contents() == Pass(old(pendingData.Contents()), DataPass(relationship, self, met)).0
      ensures sent == old(sent) + Pass(old(pendingData.Contents()), DataPass(relationship, self, met)).1
    {
      hide Pass, Progress, SentBy, MeetData, DataPass;
      ghost var entries, meet := pendingData.Contents(), DataPass(relationship, self, met);
      PassBounds(entries, meet, old(sent));
      for i := 0 to pendingData.size
        modifies this`sent, pendingData.data
        invariant pendingData.Contents() == Progress(entries, i, meet)
        invariant sent == SentBy(entries, i, meet, old(sent))
      {
        PassStep(entries, i, meet, old(sent));
        DataPassMeets(relationship, self, met, entries[i]);
        ProcessDataEntry(i, met);
      }
    }

    /** One entry of the loop: sent to `met` or not, and its last relay brought up to date in place. */
    method ProcessDataEntry(i: nat, met: Address)
      requires Valid() && i < pendingData.size
      modifies this`sent, pendingData.data
      ensures var e := old(pendingData.Contents())[i];
              pendingData.Contents() == old(pendingData.Contents())[i := MeetData(relationship, self, met, e).0]
      ensures sent == old(sent) + MeetData(relationship, self, met, old(pendingData.Contents())[i]).1
    {
      assert sent == old(sent) + [];
      assert pendingData.Contents() == pendingData.Contents()[i := pendingData.Contents()[i]];
      var e := pendingData.data[i];
      if e.interest.requester == met {
        SendPacket(Data(self, met, e.interest));
      } else if relationship.higherPaymentTie(self, met, e.interest.requester) == met {
        if e.lastRelayNode == NULL_ADDRESS {
          pendingData.Set(i, e.(lastRelayNode := met));
          SendPacket(Data(self, met, e.interest));
        } else if relationship.higherPaymentTie(met, e.lastRelayNode, e.interest.requester) == met {
          pendingData.Set(i, e.(lastRelayNode := met));
          SendPacket(Data(self, met, e.interest));
        }
      }
    }

    method ProcessPendingInterestKnownContentProvider(met: Address)
      requires Valid()
      modifies this`sent, pendingKnown.data
      ensures pendingKnown.Contents() == Pass(old(pendingKnown.Contents()), KnownPass(relationship, self, met)).0
      ensures sent == old(sent) + Pass(old(pendingKnown.Contents()), KnownPass(relationship, self, met)).1
    {
      hide Pass, Progress, SentBy, MeetKnown, KnownPass;
      ghost var entries, meet := pendingKnown.Contents(), KnownPass(relationship, self, met);
      PassBounds(entries, meet, old(sent));
      for i := 0 to pendingKnown.size
        modifies this`sent, pendingKnown.data
        invariant pendingKnown.Contents() == Progress(entries, i, meet)
        invariant sent == SentBy(entries, i, meet, old(sent))
      {
        PassStep(entries, i, meet, old(sent));
        KnownPassMeets(relationship, self, met, entries[i]);
        ProcessKnownEntry(i, met);
      }
    }

    /** One entry of the loop: sent to `met` or not, and its last relay brought up to date in place. */
    method ProcessKnownEntry(i: nat, met: Address)
      requires Valid() && i < pendingKnown.size
      modifies this`sent, pendingKnown.data
      ensures var e := old(pendingKnown.Contents())[i];
              pendingKnown.Contents() == old(pendingKnown.Contents())[i := MeetKnown(relationship, self, met, e).0]
      ensures sent == old(sent) + MeetKnown(relationship, self, met, old(pendingKnown.Contents())[i]).1
    {
      assert sent == old(sent) + [];
      assert pendingKnown.Contents() == pendingKnown.Contents()[i := pendingKnown.Contents()[i]];
      var e := pendingKnown.data[i];
      if e.contentProvider == met {
        SendPacket(InterestPacket(self, met, e.interest, Named(e.contentProvider)));
      } else if relationship.higherPaymentTie(self, met, e.contentProvider) == met {
        if e.lastRelayNode == NULL_ADDRESS {
          pendingKnown.Set(i, e.(lastRelayNode := met));
          SendPacket(InterestPacket(self, met, e.interest, Named(e.contentProvider)));
        } else if relationship.higherPaymentTie(met, e.lastRelayNode, e.contentProvider) == met {
          pendingKnown.Set(i, e.(lastRelayNode := met));
          SendPacket(InterestPacket(self, met, e.interest, Named(e.contentProvider)));
        }
      }
    }

    method ProcessPendingInterestUnknownContentProvider(met: Address)
      requires Valid()
      modifies this`sent, pendingUnknown.data
      ensures pendingUnknown.Contents() == Pass(old(pendingUnknown.Contents()), UnknownPass(relationship, self, met)).0
      ensures sent == old(sent) + Pass(old(pendingUnknown.Contents()), UnknownPass(relationship, self, met)).1
    {
      hide Pass, Progress, SentBy, MeetUnknown, UnknownPass;
      ghost var entries, meet := pendingUnknown.Contents(), UnknownPass(relationship, self, met);
      PassBounds(entries, meet, old(sent));
      for i := 0 to pendingUnknown.size
        modifies this`sent, pendingUnknown.data
        invariant pendingUnknown.Contents() == Progress(entries, i, meet)
        invariant sent == SentBy(entries, i, meet, old(sent))
      {
        PassStep(entries, i, meet, old(sent));
        UnknownPassMeets(relationship, self, met, entries[i]);
        ProcessUnknownEntry(i, met);
      }
    }

    /** One entry of the loop: sent to `met` or not, and its last relay brought up to date in place. */
    method ProcessUnknownEntry(i: nat, met: Address)
      requires Valid() && i < pendingUnknown.size
      modifies this`sent, pendingUnknown.data
      ensures var e := old(pendingUnknown.Contents())[i];
              pendingUnknown.Contents()
              == old(pendingUnknown.Contents())[i := MeetUnknown(relationship, self, met, e).0]
      ensures sent == old(sent) + MeetUnknown(relationship, self, met, old(pendingUnknown.Contents())[i]).1
    {
      assert sent == old(sent) + [];
      assert pendingUnknown.Contents() == pendingUnknown.Contents()[i := pendingUnknown.Contents()[i]];
      var e := pendingUnknown.data[i];
      if relationship.higherPaymentLevel(self, met) == met {
        if e.lastRelayNode == NULL_ADDRESS {
          pendingUnknown.Set(i, e.(lastRelayNode := met));
          SendPacket(InterestPacket(self, met, e.interest, Unset));
        } else if relationship.higherPaymentLevel(met, e.lastRelayNode) == met {
          pendingUnknown.Set(i, e.(lastRelayNode := met));
          SendPacket(InterestPacket(self, met, e.interest, Unset));
        }
      }
    }
  }

  /** A pending list when the loop has reached entry `i`, and what it has sent by then. */
  ghost function Progress<E>(entries: seq<E>, i: nat, meet: E -> (E, seq<Packet>)): seq<E>
    requires i <= |entries|
  {
    Pass(entries[..i], meet).0 + entries[i..]
  }

  ghost function SentBy<E>(entries: seq<E>, i: nat, meet: E -> (E, seq<Packet>), before: seq<Packet>): seq<Packet>
    requires i <= |entries|
  {
    before + Pass(entries[..i], meet).1
  }

  lemma PassBounds<E>(entries: seq<E>, meet: E -> (E, seq<Packet>), before: seq<Packet>)
    ensures Progress(entries, 0, meet) == entries && SentBy(entries, 0, meet, before) == before
    ensures Progress(entries, |entries|, meet) == Pass(entries, meet).0
    ensures SentBy(entries, |entries|, meet, before) == before + Pass(entries, meet).1
  {
    assert entries[..|entries|] == entries;
  }

  lemma DataPassMeets(rel: Relationship, self: Address, met: Address, e: Pending)
    ensures DataPass(rel, self, met)(e) == MeetData(rel, self, met, e)
  {
  }

  lemma KnownPassMeets(rel: Relationship, self: Address, met: Address, e: PendingKnown)
    ensures KnownPass(rel, self, met)(e) == MeetKnown(rel, self, met, e)
  {
  }

  lemma UnknownPassMeets(rel: Relationship, self: Address, met: Address, e: Pending)
    ensures UnknownPass(rel, self, met)(e) == MeetUnknown(rel, self, met, e)
  {
  }

  /** One round of a pending-list loop. */
  lemma PassStep<E>(entries: seq<E>, i: nat, meet: E -> (E, seq<Packet>), before: seq<Packet>)
    requires i < |entries|
    ensures |Progress(entries, i, meet)| == |entries| && Progress(entries, i, meet)[i] == entries[i]
    ensures Progress(entries, i, meet)[i := meet(entries[i]).0] == Progress(entries, i + 1, meet)
    ensures SentBy(entries, i, meet, before) + meet(entries[i]).1 == SentBy(entries, i + 1, meet, before)
  {
    assert entries[..i + 1][..i] == entries[..i];
  }
}
