/**
 The sender in the main loop and the receive callback that interrupts it, sharing `ack_num`: the acknowledgements the
 sender waits for are datagrams.
 */
module TftpJoint {
  import opened Basics
  import opened Text
  import opened Commands
  import opened TftpSpec
  import opened TftpTheorems
  import opened TftpSender

  // ---- what an acknowledgement is, byte by byte ---------------------------------------------------------------------

  function Octet(c: Ch): nat {
    c as int % 256
  }

  /** Opcode 4 in the first two bytes, in one piece. */
  predicate IsAck(p: Datagram)
    requires |p.mem| >= 4
  {
    p.len == p.total && Octet(p.mem[0]) == 0 && Octet(p.mem[1]) == 4
  }

  /** The number in the next two bytes, high byte first. */
  function AckNumber(p: Datagram): Half
    requires |p.mem| >= 4
  {
    256 * Octet(p.mem[2]) + Octet(p.mem[3])
  }

  /** An acknowledgement of four bytes or more sets `ack_num` to its number and does nothing else. */
  lemma AckSetsNumber(aton: AddrParser, s: Server, a: Arrival)
    requires a.p.Ok() && a.p.len >= 4 && IsAck(a.p) && s.status == Running
    ensures Deliver(aton, s, a) == s.(ackNum := AckNumber(a.p))
  {
  }

  /** No other datagram changes `ack_num`; a shorter acknowledgement sets it too, once it is told off. */
  lemma AckNumExact(aton: AddrParser, s: Server, a: Arrival)
    requires a.p.Ok()
    ensures Deliver(aton, s, a).ackNum == if s.status == Running && IsAck(a.p) then AckNumber(a.p) else s.ackNum
  {
    if s.status == Running && a.p.len == a.p.total {
      DispatchAckNum(aton, Checked(s, a.p, a.from), a);
    }
  }

  lemma DispatchAckNum(aton: AddrParser, s: Server, a: Arrival)
    requires a.p.Ok()
    ensures Dispatch(aton, s, a.p, a.from, a.saved).ackNum
      == if Octet(a.p.mem[0]) == 0 && Octet(a.p.mem[1]) == 4 then AckNumber(a.p) else s.ackNum
  {
    if a.p.Opcode() == DATA { DataKeepsAckNum(aton, s, a); }
  }

  lemma DataKeepsAckNum(aton: AddrParser, s: Server, a: Arrival)
    requires a.p.Ok()
    ensures ReceiveData(aton, s, a.p, a.from, a.saved).ackNum == s.ackNum
  {
  }

  // ---- both together ------------------------------------------------------------------------------------------------

  datatype Joint = Joint(server: Server, sender: Sender)

  /** The sender runs one step, the timer ticks, or a datagram comes in. */
  datatype Action = Step | Millisecond | Datagram(a: Arrival)

  /** What a datagram is to the sender: an acknowledgement, or nothing. */
  function Seen(a: Arrival): seq<TftpSender.Event>
    requires a.p.Ok()
  {
    if IsAck(a.p) then [AckIn(AckNumber(a.p))] else []
  }

  function Act(aton: AddrParser, j: Joint, x: Action): Joint
    requires x.Datagram? ==> x.a.p.Ok()
  {
    match x
    case Step => j.(sender := StepOn(j.sender, Run))
    case Millisecond => j.(sender := StepOn(j.sender, Tick))
    case Datagram(a) => Joint(Deliver(aton, j.server, a), TftpSender.StepAll(j.sender, Seen(a)))
  }

  ghost predicate Whole(xs: seq<Action>) {
    forall i :: 0 <= i < |xs| && xs[i].Datagram? ==> xs[i].a.p.Ok()
  }

  function ActAll(aton: AddrParser, j: Joint, xs: seq<Action>): Joint
    requires Whole(xs)
    decreases |xs|
  {
    if xs == [] then j else ActAll(aton, Act(aton, j, xs[0]), xs[1..])
  }

  /** The sender begins by setting `ack_num` to 1; a read is pending meanwhile. */
  function Start(server: Server, text: seq<Ch>, millisec: Word): Joint {
    Joint(server.(ackNum := 1), Begin(text, millisec))
  }

  /** One variable: what the callback writes is what the sender reads. */
  predicate Shared(j: Joint) {
    j.server.sending && j.server.status == Running && j.server.ackNum == j.sender.ackNum
  }

  lemma ActKeepsShared(aton: AddrParser, j: Joint, x: Action)
    requires Shared(j) && (x.Datagram? ==> x.a.p.Ok())
    ensures Shared(Act(aton, j, x))
  {
    if x.Datagram? {
      AckNumExact(aton, j.server, x.a);
      PendingReadStep(aton, j.server, x.a);
      SeenSets(j.sender, x.a);
    }
  }

  lemma SeenSets(s: Sender, a: Arrival)
    requires a.p.Ok()
    ensures TftpSender.StepAll(s, Seen(a)).ackNum == if IsAck(a.p) then AckNumber(a.p) else s.ackNum
  {
    if IsAck(a.p) { assert Seen(a)[1..] == []; }
  }

  /** The events the sender meets in a run of both. */
  function Events(xs: seq<Action>): seq<TftpSender.Event>
    requires Whole(xs)
    decreases |xs|
  {
    if xs == [] then []
    else (match xs[0] case Step => [Run] case Millisecond => [Tick] case Datagram(a) => Seen(a)) + Events(xs[1..])
  }

  lemma {:induction false} StepAllAppends(s: Sender, xs: seq<TftpSender.Event>, ys: seq<TftpSender.Event>)
    ensures TftpSender.StepAll(s, xs + ys) == TftpSender.StepAll(TftpSender.StepAll(s, xs), ys)
    decreases |xs|
  {
    if xs == [] {
      assert xs + ys == ys;
    } else {
      assert (xs + ys)[1..] == xs[1..] + ys;
      StepAllAppends(TftpSender.StepOn(s, xs[0]), xs[1..], ys);
    }
  }

  lemma {:induction false} JointRefines(aton: AddrParser, j: Joint, xs: seq<Action>)
    requires Shared(j) && Whole(xs)
    ensures var r := ActAll(aton, j, xs); Shared(r) && r.sender == TftpSender.StepAll(j.sender, Events(xs))
    decreases |xs|
  {
    if xs != [] {
      ActKeepsShared(aton, j, xs[0]);
      JointRefines(aton, Act(aton, j, xs[0]), xs[1..]);
      var first := match xs[0] case Step => [Run] case Millisecond => [Tick] case Datagram(a) => Seen(a);
      StepAllAppends(j.sender, first, Events(xs[1..]));
      OneEvent(aton, j, xs[0], first);
    }
  }

  lemma OneEvent(aton: AddrParser, j: Joint, x: Action, es: seq<TftpSender.Event>)
    requires x.Datagram? ==> x.a.p.Ok()
    requires es == match x case Step => [Run] case Millisecond => [Tick] case Datagram(a) => Seen(a)
    ensures Act(aton, j, x).sender == TftpSender.StepAll(j.sender, es)
  {
    if es != [] { assert es[1..] == []; }
  }

  lemma {:induction false} AcksWereDatagrams(s: Sender, xs: seq<Action>, k: Half)
    requires Whole(xs) && k !in s.acks && k in TftpSender.StepAll(s, Events(xs)).acks
    ensures exists i :: 0 <= i < |xs| && xs[i].Datagram? && IsAck(xs[i].a.p) && AckNumber(xs[i].a.p) == k
    decreases |xs|
  {
    var first := match xs[0] case Step => [Run] case Millisecond => [Tick] case Datagram(a) => Seen(a);
    StepAllAppends(s, first, Events(xs[1..]));
    var next := TftpSender.StepAll(s, first);
    if k in next.acks {
      FirstAck(s, xs[0], first, k);
      assert xs[0].Datagram?;
    } else {
      AcksWereDatagrams(next, xs[1..], k);
      var i :| 0 <= i < |xs[1..]| && xs[1..][i].Datagram? && IsAck(xs[1..][i].a.p) && AckNumber(xs[1..][i].a.p) == k;
      assert xs[i + 1] == xs[1..][i];
    }
  }

  lemma FirstAck(s: Sender, x: Action, es: seq<TftpSender.Event>, k: Half)
    requires x.Datagram? ==> x.a.p.Ok()
    requires es == match x case Step => [Run] case Millisecond => [Tick] case Datagram(a) => Seen(a)
    requires k !in s.acks && k in TftpSender.StepAll(s, es).acks
    ensures x.Datagram? && IsAck(x.a.p) && AckNumber(x.a.p) == k
  {
    if es != [] { assert es[1..] == []; }
  }

  /**
   Stop and wait, down to the bytes. While a text is sent, whatever datagrams come in between: for k >= 2, block k + 1
   goes out only after a datagram has come in whose bytes say 0, 4 and the number k.
   */
  lemma StopAndWaitOnDatagrams(aton: AddrParser, server: Server, text: seq<Ch>, now: Word, xs: seq<Action>, k: nat)
    requires server.sending && server.status == Running && Whole(xs) && |text| < BLOCK * 0xFFFF && 2 <= k
    ensures k < |ActAll(aton, Start(server, text, now), xs).sender.emitted| ==>
      exists i :: 0 <= i < |xs| && xs[i].Datagram? && IsAck(xs[i].a.p) && AckNumber(xs[i].a.p) == k
  {
    var j := Start(server, text, now);
    JointRefines(aton, j, xs);
    if k < |ActAll(aton, j, xs).sender.emitted| {
      StopAndWaitFromStart(text, now, Events(xs), k);
      AcksWereDatagrams(j.sender, xs, k);
    }
  }

  // ---- a read from beginning to end ---------------------------------------------------------------------------------

  lemma {:induction false} SendingKeepsServer(aton: AddrParser, j: Joint, xs: seq<Action>)
    requires Shared(j) && Whole(xs)
    ensures Undisturbed(j.server, ActAll(aton, j, xs).server)
    decreases |xs|
  {
    if xs != [] {
      if xs[0].Datagram? { PendingReadStep(aton, j.server, xs[0].a); }
      ActKeepsShared(aton, j, xs[0]);
      SendingKeepsServer(aton, Act(aton, j, xs[0]), xs[1..]);
    }
  }

  /** The main loop clears the flag once the text has been sent, or given up. */
  function EndRead(j: Joint): Server {
    j.server.(sending := false)
  }

  /**
   A read leaves no trace. From the request on, through the sending with whatever datagrams come in between, to its end:
   buffer, settings and interface are as they were, the parser has not been called, the server can take requests again,
   and a transfer in progress at most has been abandoned.
   */
  lemma ReadLeavesNoTrace(aton: AddrParser, s: Server, from: Peer, text: seq<Ch>, now: Word, xs: seq<Action>)
    requires s.status == Running && Whole(xs)
    ensures var taken := s.(last := from, sending := true); var r := EndRead(ActAll(aton, Start(taken, text, now), xs));
      && r.file == s.file && r.parsed == s.parsed && r.settings == s.settings && r.net == s.net
      && r.last == from && !r.sending && r.status == Running && (r.currBlock == s.currBlock || r.currBlock == 0)
  {
    SendingKeepsServer(aton, Start(s.(last := from, sending := true), text, now), xs);
  }
}
