/** The acquisition loop gets to every source: order of the tests, transfers only on a free bus, and packets in time. */
module AcquisitionProgress {
  import opened Acquisition

  // ---- one step -----------------------------------------------------------------------------------------------------

  /** The thermocouples are tested first, then ADC0, then ADC1, and so on round; handling a source comes in between. */
  lemma TestsInTurn(st: State, busy: bool)
    ensures var r := LoopStep(st, busy);
      if !r.pc.Test? then r.pc.s == st.pc.s
      else r.pc.s == (match st.pc.s case Tc => Adc0 case Adc0 => Adc1 case Adc1 => Tc)
  {
  }

  /** A transfer starts exactly when a flagged source is tested while its bus is free. */
  lemma TransferStartsIff(st: State, busy: bool)
    ensures LoopStep(st, busy).pc.Transfer? <==> st.pc.Test? && st.flag.Of(st.pc.s) && !busy
  {
  }

  /** Testing a source on a busy bus changes nothing but the source to be tested next. */
  lemma BusyStartsNothing(st: State)
    requires st.pc.Test?
    ensures var r := LoopStep(st, true); r.pc.Test? && r == st.(pc := r.pc)
  {
  }

  // ---- how long it takes --------------------------------------------------------------------------------------------

  /** The place of a program counter in a round of fifteen: five for each source. */
  function Place(pc: Pc): nat {
    var phase :=
      if pc.Test? then 0 else if pc.Transfer? then 1 else if pc.Clear? then 2 else if pc.Number? then 3 else 4;
    var first := if pc.s == Tc then 0 else if pc.s == Adc0 then 5 else 10;
    first + phase
  }

  /** The place at which a packet of `s` is sent. */
  function SendPlace(s: Source): nat {
    match s
    case Tc => 4
    case Adc0 => 9
    case Adc1 => 14
  }

  /** Loop steps after which a packet of `s` has been sent at the latest, if its flag is set and its bus free. */
  function Wait(st: State, s: Source): nat
    requires st.tcIndex < NUM_TC
  {
    var place, goal := Place(st.pc), SendPlace(s);
    var rounds := if s == Tc && !(Place(Clear(Tc)) <= place <= 4) then 3 - st.tcIndex else 0;
    15 * rounds + (if place <= goal then goal - place else goal + 15 - place) + 1
  }

  /** A packet of `s` is due: its flag is set, or it has been cleared and the packet is being made. */
  predicate Due(st: State, s: Source) {
    st.tcIndex < NUM_TC && (st.flag.Of(s) || Underway(st.pc, s))
  }

  /** One round for an ADC; for the thermocouples, of which one is read in each round, four. */
  function Bound(s: Source): nat {
    if s == Tc then 60 else 15
  }

  lemma WaitIsBounded(st: State, s: Source)
    requires st.tcIndex < NUM_TC
    ensures 1 <= Wait(st, s) <= Bound(s)
  {
  }

  /** Each step on a free bus sends a packet of `s` or brings it nearer. */
  lemma StepBringsNearer(st: State, s: Source)
    requires Due(st, s)
    ensures var r := LoopStep(st, false);
      Sends(st, s) || (Due(r, s) && Wait(r, s) < Wait(st, s))
  {
  }

  /** The next step of the loop sends a packet of `s`. */
  predicate Sends(st: State, s: Source) {
    st.pc.Send? && st.pc.s == s
  }

  /** Packets of `s` sent by a step. */
  lemma StepCounts(st: State, busy: bool, s: Source)
    ensures Count(LoopStep(st, busy).sent, s) == Count(st.sent, s) + if Sends(st, s) then 1 else 0
  {
    if st.pc.Send? {
      var p := Packet(st.pc.s, st.pc.seqNum);
      assert LoopStep(st, busy).sent == st.sent + [p];
      CountSnoc(st.sent, p, s);
    } else {
      assert LoopStep(st, busy).sent == st.sent;
    }
  }

  /** An interrupt takes nothing away. */
  lemma IrqKeepsDue(st: State, at: Source, s: Source)
    requires Due(st, s)
    ensures var r := StepOn(st, Irq(at)); Due(r, s) && r.sent == st.sent && Wait(r, s) == Wait(st, s)
  {
  }

  predicate BusFree(es: seq<Event>) {
    forall i :: 0 <= i < |es| && es[i].Loop? ==> !es[i].busy
  }

  function LoopSteps(es: seq<Event>): nat {
    if es == [] then 0 else (if es[0].Loop? then 1 else 0) + LoopSteps(es[1..])
  }

  lemma {:induction false} SentOnlyGrows(st: State, es: seq<Event>, s: Source, c: nat)
    requires Count(st.sent, s) >= c
    ensures Count(StepAll(st, es).sent, s) >= c
    decreases |es|
  {
    if es != [] {
      if es[0].Loop? { StepCounts(st, es[0].busy, s); }
      SentOnlyGrows(StepOn(st, es[0]), es[1..], s, c);
    }
  }

  lemma {:induction false} ServedInTime(st: State, es: seq<Event>, s: Source, c: nat)
    requires Due(st, s) && BusFree(es) && LoopSteps(es) >= Wait(st, s) && Count(st.sent, s) >= c
    ensures Count(StepAll(st, es).sent, s) >= c + 1
    decreases |es|
  {
    var next := StepOn(st, es[0]);
    match es[0]
    case Irq(at) =>
      IrqKeepsDue(st, at, s);
      ServedInTime(next, es[1..], s, c);
    case Loop(busy) =>
      StepBringsNearer(st, s);
      StepCounts(st, busy, s);
      if Sends(st, s) {
        SentOnlyGrows(next, es[1..], s, c + 1);
      } else {
        ServedInTime(next, es[1..], s, c);
      }
  }

  /**
   Nothing starves. From every state in which a source's flag is set, and with interrupts of all sources anywhere,
   fifteen loop steps on a free bus send a packet of that source; for the thermocouples it takes four rounds, sixty.
   */
  lemma FlaggedIsServed(st: State, es: seq<Event>, s: Source)
    requires st.tcIndex < NUM_TC && st.flag.Of(s) && BusFree(es) && LoopSteps(es) >= Bound(s)
    ensures Count(StepAll(st, es).sent, s) > Count(st.sent, s)
  {
    WaitIsBounded(st, s);
    ServedInTime(st, es, s, Count(st.sent, s));
  }

  /** In particular from power-up, whatever has happened before. */
  lemma InterruptIsServed(before: seq<Event>, s: Source, after: seq<Event>)
    requires BusFree(after) && LoopSteps(after) >= Bound(s)
    ensures var st := StepOn(StepAll(Start(), before), Irq(s));
      Count(StepAll(st, after).sent, s) > Count(st.sent, s)
  {
    Accounting(Start(), before, s);
    FlaggedIsServed(StepOn(StepAll(Start(), before), Irq(s)), after, s);
  }
}
