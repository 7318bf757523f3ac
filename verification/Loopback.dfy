/** The sender object and the receiver object at the two ends of a lossless, in-order channel: what
    the host gets is what was sent. */
module Loopback {
  import opened Wire
  import opened Fragmenter
  import opened Sending
  import opened Reassembly
  import opened Receiving
  import opened Delivery
  import opened Channel
  import opened Relay
  import opened Fifo
  import opened ReceiverClass

  /** The packet that comes next never makes the receiver copy out of bounds. */
  lemma NextCopyFits(l: Link, s: ValidState, k: nat, i: nat, deadline: int)
    requires OnLink(l, k, i) && s in Awaiting(l, k, i, deadline)
    ensures CopiesFit(s, PacketOf(l, k, i))
  {
    if i == 0 {
      assert Idle(l, s, k);
      FirstUnwraps(l, s, k);
      ReservedEnough(l.sent[k], No(l, k), l.mtu, i);
    } else {
      assert Holding(l, s, k, i - 1, deadline);
      FillFits(s.buckets[Slot0(l, k)], l.sent[k], No(l, k), l.mtu, i);
    }
  }

  /** The receiver reads the packet the sender wrote. */
  lemma ReadsBack(l: Link, k: nat, i: nat)
    requires OnLink(l, k, i)
    ensures var p := PacketOf(l, k, i);
            var cells := Encode(p);
            && |cells| >= HeaderSize(p.header) > 0 && cells[0] == Head(p.header, 0)
            && Announced(p.header) && Nibble(p.header.frameType) in {1, 2, 3}
            && Decode(cells) == Some(p)
  {
    var p := PacketOf(l, k, i);
    KindOf(l, k, i);
    DecodeInvertsEncode(Encode(p), p);
    assert Encode(p)[0] == HeaderCells(p.header)[0];
  }

  lemma KindOf(l: Link, k: nat, i: nat)
    requires OnLink(l, k, i)
    ensures var h := PacketOf(l, k, i).header;
            Announced(h) && Nibble(h.frameType) in {1, 2, 3} && HeaderSize(h) > 0
  {
    FragmentLabels(l.sent[k], No(l, k), l.mtu, i);
  }

  /** What one call of the sender puts on the link. */
  lemma SentIs(l: Link, k: nat, i: nat)
    requires k < |l.sent|
    ensures l.sent[k] in l.sent && |Sent(l.sent[k], No(l, k), l.mtu)| == Count(l, k)
    ensures i < Count(l, k) ==> OnLink(l, k, i) && Sent(l.sent[k], No(l, k), l.mtu)[i] == Encode(PacketOf(l, k, i))
  {
  }

  /** One call of the object with a packet of the link. */
  method ReceivePacket(r: Receiver, l: Link, k: nat, i: nat, cells: seq<Cell>, arrives: int, checks: int)
    returns (msg: Message, delivered: seq<Delivery>)
    requires r.Valid() && OnLink(l, k, i) && cells == Encode(PacketOf(l, k, i))
    requires CopiesFit(r.Model(), PacketOf(l, k, i))
    modifies r, r.streams, r.buckets, Owned(r.buckets)
    ensures r.Valid() && forall o :: o in Owned(r.buckets) ==> o in old(Owned(r.buckets)) || fresh(o)
    ensures Leg(r.Model(), [msg], delivered) == Receive(l, old(r.Model()), k, i, arrives, checks)
  {
    ReadsBack(l, k, i);
    msg, delivered := r.ReceiveFragmentFromPtr(cells, l.source, RunToCompletion, false, arrives, checks);
  }

  /** The packet that comes next goes through. */
  method ReceiveOne(r: Receiver, l: Link, k: nat, i: nat, cells: seq<Cell>, arrives: int, checks: int,
                    ghost deadline: int)
    returns (msg: Message, delivered: seq<Delivery>)
    requires r.Valid() && OnLink(l, k, i) && cells == Encode(PacketOf(l, k, i))
    requires r.Model() in Awaiting(l, k, i, deadline)
    modifies r, r.streams, r.buckets, Owned(r.buckets)
    ensures r.Valid() && forall o :: o in Owned(r.buckets) ==> o in old(Owned(r.buckets)) || fresh(o)
    ensures Leg(r.Model(), [msg], delivered) == Receive(l, old(r.Model()), k, i, arrives, checks)
  {
    NextCopyFits(l, r.Model(), k, i, deadline);
    msg, delivered := ReceivePacket(r, l, k, i, cells, arrives, checks);
  }

  /** Superframe k comes next, and its fragments come in time. */
  ghost predicate Awaits(l: Link, c: Clock, k: nat, s: ValidState) {
    k < |l.sent| && s in Awaiting(l, k, 0, 0) && FrameInTime(l, c, Allowance(s), k)
  }

  ghost function Ready(l: Link, c: Clock, k: nat): iset<ValidState> {
    iset s: ValidState | Awaits(l, c, k, s)
  }

  /** And it is sent in these packets. */
  ghost predicate ComesNext(l: Link, c: Clock, s: ValidState, k: nat, wire: seq<seq<Cell>>) {
    && k < |l.sent| && l.sent[k] in l.sent && wire == Sent(l.sent[k], No(l, k), l.mtu)
    && Awaits(l, c, k, s)
  }

  ghost function Wires(l: Link, c: Clock, s: ValidState, k: nat): iset<seq<seq<Cell>>> {
    iset wire | ComesNext(l, c, s, k, wire)
  }

  /** One more packet of a superframe whose first i packets went through goes through. Takes and
      returns all answers and deliveries so far. */
  method ReceiveNext(r: Receiver, l: Link, c: Clock, k: nat, i: nat, wire: seq<seq<Cell>>,
                     answers: seq<Message>, delivered: seq<Delivery>, ghost s: ValidState)
    returns (answers': seq<Message>, delivered': seq<Delivery>)
    requires i < |wire| && wire in Wires(l, c, s, k)
    requires r.Valid() && Leg(r.Model(), answers, delivered) in FedTo(l, c, s, k, i)
    modifies r, r.streams, r.buckets, Owned(r.buckets)
    ensures r.Valid() && forall o :: o in Owned(r.buckets) ==> o in old(Owned(r.buckets)) || fresh(o)
    ensures Leg(r.Model(), answers', delivered') in FedTo(l, c, s, k, i + 1)
  {
    assert ComesNext(l, c, s, k, wire);
    SentIs(l, k, i);
    ghost var deadline := c.arrives(k, 0) + Micros(s.bucketTimeoutMs);
    ghost var before := QuietUntil(l, c, s, k, i, deadline);
    OnlyOneFedTo(l, c, s, k, i, before, Leg(r.Model(), answers, delivered));
    var msg, ds := ReceiveOne(r, l, k, i, wire[i], c.arrives(k, i), c.checks(k, i), deadline);
    answers', delivered' := answers + [msg], delivered + ds;
    FeedFrameGrows(l, c, s, k, i, before, Leg(r.Model(), answers', delivered'));
  }

  /** So all of them go through. */
  method ReceiveAll(r: Receiver, l: Link, c: Clock, k: nat, wire: seq<seq<Cell>>, ghost s: ValidState)
    returns (answers: seq<Message>, delivered: seq<Delivery>)
    requires r.Valid() && r.Model() == s && wire in Wires(l, c, s, k)
    modifies r, r.streams, r.buckets, Owned(r.buckets)
    ensures r.Valid() && forall o :: o in Owned(r.buckets) ==> o in old(Owned(r.buckets)) || fresh(o)
    ensures Leg(r.Model(), answers, delivered) in FedTo(l, c, s, k, |wire|)
  {
    answers, delivered := [], [];
    NothingFed(l, c, s, k);
    for i := 0 to |wire|
      invariant r.Valid() && forall o :: o in Owned(r.buckets) ==> o in old(Owned(r.buckets)) || fresh(o)
      invariant Leg(r.Model(), answers, delivered) in FedTo(l, c, s, k, i)
    {
      answers, delivered := ReceiveNext(r, l, c, k, i, wire, answers, delivered, s);
    }
  }

  /** All packets of one superframe go through. */
  method ReceiveFrame(r: Receiver, l: Link, c: Clock, k: nat, wire: seq<seq<Cell>>)
    returns (answers: seq<Message>, delivered: seq<Delivery>)
    requires r.Valid() && k < |l.sent| && wire == Sent(l.sent[k], No(l, k), l.mtu)
    requires r.Model() in Ready(l, c, k)
    modifies r, r.streams, r.buckets, Owned(r.buckets)
    ensures r.Valid() && forall o :: o in Owned(r.buckets) ==> o in old(Owned(r.buckets)) || fresh(o)
    ensures Leg(r.Model(), answers, delivered) == FeedFrame(l, c, old(r.Model()), k, Count(l, k))
  {
    ghost var s: ValidState := r.Model();
    SentIs(l, k, 0);
    assert Awaits(l, c, k, s);
    assert ComesNext(l, c, s, k, wire);
    answers, delivered := ReceiveAll(r, l, c, k, wire, s);
    FedToIs(l, c, s, k, Count(l, k), Leg(r.Model(), answers, delivered));
  }

  lemma SentIsAccepted(l: Link, k: nat)
    requires k < |l.sent|
    ensures Verdict(l.sent[k], l.mtu) == NoError && No(l, k + 1) == Next16(No(l, k))
  {
    NoCounts(l, k);
    assert l.sent[k] in l.sent;
  }

  /** Sending leaves a receiver alone. */
  method SendBeside(sender: Sender, r: Receiver, f: Media) returns (wire: seq<seq<Cell>>)
    requires sender.Valid() && Verdict(f, sender.mtu) == NoError && r.Valid()
    modifies sender, sender.sendBufferFixed
    ensures sender.superFrameNoGenerator == Next16(old(sender.superFrameNoGenerator))
    ensures wire == Sent(f, old(sender.superFrameNoGenerator), sender.mtu)
    ensures r.Valid() && r.Model() == old(r.Model()) && Owned(r.buckets) == old(Owned(r.buckets))
  {
    var msg;
    msg, wire := sender.PackAndSendFromPtr(f);
    r.Untouched();
  }

  /** Sends one superframe and receives it. */
  method TransmitNext(sender: Sender, r: Receiver, l: Link, c: Clock, k: nat)
    returns (answers: seq<Message>, delivered: seq<Delivery>)
    requires sender.Valid() && sender.mtu == l.mtu && sender.superFrameNoGenerator == No(l, k)
    requires r.Valid() && k < |l.sent|
    requires r.Model() in Ready(l, c, k)
    modifies sender, sender.sendBufferFixed, r, r.streams, r.buckets, Owned(r.buckets)
    ensures sender.Valid() && sender.superFrameNoGenerator == No(l, k + 1)
    ensures r.Valid() && forall o :: o in Owned(r.buckets) ==> o in old(Owned(r.buckets)) || fresh(o)
    ensures Leg(r.Model(), answers, delivered) == FeedFrame(l, c, old(r.Model()), k, Count(l, k))
  {
    SentIsAccepted(l, k);
    var wire := SendBeside(sender, r, l.sent[k]);
    answers, delivered := ReceiveFrame(r, l, c, k, wire);
  }

  /** Setting the number the sender goes on from leaves a receiver alone. */
  method StartBeside(sender: Sender, r: Receiver, no: u16)
    requires sender.Valid() && r.Valid()
    modifies sender
    ensures sender.Valid() && sender.superFrameNoGenerator == no
    ensures r.Valid() && r.Model() == old(r.Model()) && Owned(r.buckets) == old(Owned(r.buckets))
  {
    sender.SetSuperFrameNo(no);
    r.Untouched();
  }

  /** Superframe after superframe. */
  method TransmitAll(sender: Sender, r: Receiver, l: Link, c: Clock)
    returns (answers: seq<Message>, delivered: seq<Delivery>)
    requires sender.Valid() && sender.mtu == l.mtu && sender.superFrameNoGenerator == No(l, 0)
    requires r.Valid() && r.Model() == Initial(r.bucketTimeoutMs, r.holTimeoutMs)
    requires NoTimeOut(l, c, Allowance(r.Model()))
    modifies sender, sender.sendBufferFixed, r, r.streams, r.buckets, Owned(r.buckets)
    ensures InOrder(l, delivered, |l.sent|) && AllFine(answers)
    ensures sender.superFrameNoGenerator == (l.first + |l.sent|) % TWO16
  {
    ghost var s0: ValidState := r.Model();
    answers, delivered := [], [];
    StartsCaught(l, s0);
    for k := 0 to |l.sent|
      invariant sender.Valid() && sender.superFrameNoGenerator == No(l, k)
      invariant r.Valid() && forall o :: o in Owned(r.buckets) ==> o in old(Owned(r.buckets)) || fresh(o)
      invariant Leg(r.Model(), answers, delivered) in CaughtUp(l, s0, k)
    {
      ghost var before: Call := Leg(r.Model(), answers, delivered);
      CatchesUp(l, c, s0, k, before);
      assert Caught(l, s0, k, before);
      assert FrameInTime(l, c, Allowance(s0), k) && Allowance(before.s) == Allowance(s0);
      assert Awaits(l, c, k, before.s);
      var msgs, ds := TransmitNext(sender, r, l, c, k);
      answers, delivered := answers + msgs, delivered + ds;
    }
    assert Caught(l, s0, |l.sent|, Leg(r.Model(), answers, delivered));
  }

  /** From whatever number the sender is set to: everything sent comes out, in order and intact, and no
      packet is refused. */
  method Transmit(sender: Sender, r: Receiver, l: Link, c: Clock)
    returns (answers: seq<Message>, delivered: seq<Delivery>)
    requires sender.Valid() && sender.mtu == l.mtu
    requires r.Valid() && r.Model() == Initial(r.bucketTimeoutMs, r.holTimeoutMs)
    requires NoTimeOut(l, c, Allowance(r.Model()))
    modifies sender, sender.sendBufferFixed, r, r.streams, r.buckets, Owned(r.buckets)
    ensures InOrder(l, delivered, |l.sent|) && AllFine(answers)
    ensures sender.superFrameNoGenerator == (l.first + |l.sent|) % TWO16
  {
    StartBeside(sender, r, No(l, 0));
    answers, delivered := TransmitAll(sender, r, l, c);
  }
}
