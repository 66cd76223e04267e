/**
 The acquisition loop of main.c with its interrupts. The loop is taken apart where an interrupt can make a
 difference: testing a flag, starting a transfer, clearing the flag, numbering the packet and sending it.
 */
module Acquisition {
  import opened Basics

  const NUM_TC := 4

  datatype Source = Tc | Adc0 | Adc1

  /** One value for each source. */
  datatype Each<T> = Each(tc: T, adc0: T, adc1: T) {
    function Of(s: Source): T {
      match s
      case Tc => tc
      case Adc0 => adc0
      case Adc1 => adc1
    }

    function With(s: Source, v: T): (r: Each<T>)
      ensures forall t :: r.Of(t) == if t == s then v else Of(t)
    {
      match s
      case Tc => this.(tc := v)
      case Adc0 => this.(adc0 := v)
      case Adc1 => this.(adc1 := v)
    }
  }

  /** A packet as sent: its stream and its sequence number. */
  datatype Packet = Packet(source: Source, seqNum: Word)

  /** Where the main loop is: at the test of a source, or inside the handling of one. */
  datatype Pc = Test(s: Source) | Transfer(s: Source) | Clear(s: Source) | Number(s: Source)
    | Send(s: Source, seqNum: Word)

  /**
   The globals: the three flags, the sequence number and `tc_index`, with what has been sent. `irqs`, `lost` and
   `receives` count interrupts, interrupts that found their flag set, and thermocouple transfers.
   */
  datatype State = State(pc: Pc, flag: Each<bool>, sequenceNumber: Word, tcIndex: nat, sent: seq<Packet>,
                         irqs: Each<nat>, lost: Each<nat>, receives: nat)

  /** One step of the loop, with whether the bus it may ask about is busy; or an interrupt of one source. */
  datatype Event = Loop(busy: bool) | Irq(s: Source)

  function AfterTest(s: Source): Source {
    match s
    case Tc => Adc0
    case Adc0 => Adc1
    case Adc1 => Tc
  }

  function LoopStep(st: State, busy: bool): (r: State)
  {
    match st.pc
    case Test(s) => if st.flag.Of(s) && !busy then st.(pc := Transfer(s)) else st.(pc := Test(AfterTest(s)))
    case Transfer(Tc) =>
      // one thermocouple is read per round; the packet is due when all four are
      if st.tcIndex + 1 < NUM_TC then st.(tcIndex := st.tcIndex + 1, receives := st.receives + 1, pc := Test(Adc0))
      else st.(tcIndex := 0, receives := st.receives + 1, pc := Clear(Tc))
    case Transfer(s) => st.(pc := Clear(s))
    case Clear(s) => st.(flag := st.flag.With(s, false), pc := Number(s))
    case Number(s) =>
      st.(pc := Send(s, st.sequenceNumber), sequenceNumber := (st.sequenceNumber + 1) % 0x1_0000_0000)
    case Send(s, n) => st.(sent := st.sent + [Packet(s, n)], pc := Test(AfterTest(s)))
  }

  function StepOn(st: State, e: Event): (r: State)
  {
    match e
    case Loop(busy) => LoopStep(st, busy)
    case Irq(s) =>
      st.(flag := st.flag.With(s, true), irqs := st.irqs.With(s, st.irqs.Of(s) + 1),
          lost := if st.flag.Of(s) then st.lost.With(s, st.lost.Of(s) + 1) else st.lost)
  }

  function StepAll(st: State, es: seq<Event>): (r: State)
    decreases |es|
  {
    if es == [] then st else StepAll(StepOn(st, es[0]), es[1..])
  }

  function Start(): (st: State)
  {
    State(Test(Tc), Each(false, false, false), 0, 0, [], Each(0, 0, 0), Each(0, 0, 0), 0)
  }

  // ---- accounting ---------------------------------------------------------------------------------------------------

  /** Packets of one stream. */
  function Count(sent: seq<Packet>, s: Source): nat {
    if sent == [] then 0 else Count(sent[..|sent| - 1], s) + if sent[|sent| - 1].source == s then 1 else 0
  }

  lemma CountSnoc(sent: seq<Packet>, p: Packet, s: Source)
    ensures Count(sent + [p], s) == Count(sent, s) + if p.source == s then 1 else 0
  {
    assert (sent + [p])[..|sent|] == sent;
  }

  /** A packet of the stream is on its way: the flag is cleared, the packet not yet sent. */
  predicate Underway(pc: Pc, s: Source) {
    (pc.Number? || pc.Send?) && pc.s == s
  }

  predicate FlagTaken(pc: Pc, s: Source) {
    (pc.Transfer? || pc.Clear?) && pc.s == s
  }

  /** Every interrupt has become a packet, is becoming one, is pending, or found an earlier one still pending. */
  ghost predicate Conserved(st: State, s: Source)
  {
    && st.irqs.Of(s) == Count(st.sent, s) + (if Underway(st.pc, s) then 1 else 0)
         + (if st.flag.Of(s) then 1 else 0) + st.lost.Of(s)
    && (FlagTaken(st.pc, s) ==> st.flag.Of(s))
  }

  /** The k-th packet over all streams carries k, and the counter is ahead by the packet being sent. */
  ghost predicate Numbered(st: State) {
    && (forall k :: 0 <= k < |st.sent| ==> st.sent[k].seqNum == k % 0x1_0000_0000)
    && (if st.pc.Send? then st.pc.seqNum == |st.sent| % 0x1_0000_0000
           && st.sequenceNumber == (|st.sent| + 1) % 0x1_0000_0000
        else st.sequenceNumber == |st.sent| % 0x1_0000_0000)
  }

  /** `tc_index` counts the transfers modulo four, and every fourth makes a packet. */
  ghost predicate TcCounted(st: State) {
    && st.tcIndex == st.receives % NUM_TC
    && (st.pc == Clear(Tc) || Underway(st.pc, Tc) ==> st.tcIndex == 0 && st.receives > 0)
    && Count(st.sent, Tc) + (if st.pc == Clear(Tc) || Underway(st.pc, Tc) then 1 else 0) == st.receives / NUM_TC
  }

  lemma IrqConserves(st: State, at: Source, s: Source)
    requires Conserved(st, s)
    ensures Conserved(StepOn(st, Irq(at)), s)
  {
  }

  lemma LoopConserves(st: State, busy: bool, s: Source)
    requires Conserved(st, s) && !st.pc.Send?
    ensures Conserved(LoopStep(st, busy), s)
  {
    match st.pc
    case Test(_) =>
    case Transfer(_) =>
    case Clear(_) =>
    case Number(_) =>
  }

  lemma SendConserves(st: State, busy: bool, s: Source)
    requires Conserved(st, s) && st.pc.Send?
    ensures Conserved(LoopStep(st, busy), s)
  {
    var p := Packet(st.pc.s, st.pc.seqNum);
    var next := LoopStep(st, busy);
    assert next == st.(sent := st.sent + [p], pc := Test(AfterTest(st.pc.s)));
    CountSnoc(st.sent, p, s);
    assert next.irqs.Of(s) == st.irqs.Of(s) && next.lost.Of(s) == st.lost.Of(s) && next.flag.Of(s) == st.flag.Of(s);
    assert !Underway(next.pc, s) && !FlagTaken(next.pc, s);
  }

  lemma StepConserves(st: State, e: Event, s: Source)
    requires Conserved(st, s)
    ensures Conserved(StepOn(st, e), s)
  {
    match e
    case Irq(at) => IrqConserves(st, at, s);
    case Loop(busy) => if st.pc.Send? { SendConserves(st, busy, s); } else { LoopConserves(st, busy, s); }
  }

  lemma StepNumbers(st: State, e: Event)
    requires Numbered(st)
    ensures Numbered(StepOn(st, e))
  {
  }

  lemma StepCountsTc(st: State, e: Event)
    requires TcCounted(st)
    ensures TcCounted(StepOn(st, e))
  {
    if e.Loop? && st.pc.Send? { CountSnoc(st.sent, Packet(st.pc.s, st.pc.seqNum), Tc); }
  }

  /**
   Accounting over every interleaving of interrupts and loop steps: packets are numbered consecutively from 0
   modulo 2^32 across the three streams, `tc_index` and the thermocouple packets follow from the number of
   transfers, and for each source the interrupts seen are conserved.
   */
  lemma {:induction false} Accounting(st: State, es: seq<Event>, s: Source)
    requires Conserved(st, s) && Numbered(st) && TcCounted(st)
    ensures var r := StepAll(st, es); Conserved(r, s) && Numbered(r) && TcCounted(r)
    decreases |es|
  {
    if es != [] {
      StepConserves(st, es[0], s);
      StepNumbers(st, es[0]);
      StepCountsTc(st, es[0]);
      Accounting(StepOn(st, es[0]), es[1..], s);
    }
  }

  lemma AccountingFromStart(es: seq<Event>, s: Source)
    ensures var r := StepAll(Start(), es);
      && (forall k :: 0 <= k < |r.sent| ==> r.sent[k].seqNum == k % 0x1_0000_0000)
      && r.tcIndex == r.receives % NUM_TC && Count(r.sent, Tc) <= r.receives / NUM_TC <= Count(r.sent, Tc) + 1
      && Count(r.sent, s) + (if r.flag.Of(s) then 1 else 0) <= r.irqs.Of(s)
      && r.irqs.Of(s) <= Count(r.sent, s) + 2 + r.lost.Of(s)
  {
    Accounting(Start(), es, s);
  }
}
