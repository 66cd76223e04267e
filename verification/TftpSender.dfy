/** The block sender of main.c step by step, with acknowledgements and the millisecond timer interrupting anywhere. */
module TftpSender {
  import opened Basics
  import opened Text
  import opened TftpSpec
  import opened TftpTheorems
  import opened Commands
  import opened TftpTransfer

  const TIMEOUT := 2000

  /** About to send; testing the acknowledgement; testing the clock; or done either way. */
  datatype Pc = Emit | TestAck(start: Word) | TestClock(start: Word) | Finished | TimedOut

  /**
   `rest` is what is left of the text and `blockNum` the C counter, already advanced while waiting. `emitted` is
   what has gone out, `acks` the acknowledgement numbers that have arrived since the start, and `waited` the
   number of timer ticks since the current wait began.
   */
  datatype Sender = Sender(rest: seq<Ch>, blockNum: Half, ackNum: Half, millisec: Word, pc: Pc,
                           emitted: seq<Reply>, acks: set<Half>, waited: nat)

  /** The sender runs one step, an acknowledgement comes in, or the timer ticks. */
  datatype Event = Run | AckIn(n: Half) | Tick

  function Begin(text: seq<Ch>, millisec: Word): Sender {
    Sender(text, 1, 1, millisec, Emit, [], {}, 0)
  }

  /** What is left once the block just sent is dropped; a wait only ever follows a full block. */
  function Unsent(rest: seq<Ch>): seq<Ch> {
    if |rest| >= BLOCK then rest[BLOCK..] else []
  }

  function RunStep(s: Sender): Sender {
    match s.pc
    case Emit =>
      var next := (s.blockNum + 1) % 0x1_0000;
      if |s.rest| > 511 then
        s.(emitted := s.emitted + [Data(s.blockNum, s.rest[..BLOCK])], blockNum := next,
           pc := TestAck(s.millisec), waited := 0)
      else
        s.(emitted := s.emitted + [Data(s.blockNum, s.rest)], blockNum := next, pc := Finished)
    case TestAck(start) =>
      // the comparison is in int, so a counter that has wrapped to 0 asks for -1
      if s.ackNum as int == s.blockNum as int - 1 then s.(rest := Unsent(s.rest), pc := Emit)
      else s.(pc := TestClock(start))
    case TestClock(start) =>
      if (s.millisec - start) % 0x1_0000_0000 > TIMEOUT then s.(pc := TimedOut) else s.(pc := TestAck(start))
    case _ => s
  }

  function StepOn(s: Sender, e: Event): Sender {
    match e
    case Run => RunStep(s)
    case AckIn(n) => s.(ackNum := n, acks := s.acks + {n})
    case Tick => s.(millisec := (s.millisec + 1) % 0x1_0000_0000, waited := s.waited + 1)
  }

  function StepAll(s: Sender, es: seq<Event>): Sender
    decreases |es|
  {
    if es == [] then s else StepAll(StepOn(s, es[0]), es[1..])
  }

  predicate Waiting(s: Sender) {
    s.pc.TestAck? || s.pc.TestClock?
  }

  /**
   What has gone out and what will, together the packets of the text; every block from 3 on has its predecessor
   acknowledged.
   */
  ghost predicate SenderInv(text: seq<Ch>, s: Sender) {
    && (Waiting(s) ==> |s.rest| > 511)
    && s.blockNum == (|s.emitted| + 1) % 0x1_0000
    && (match s.pc
        case Finished => s.emitted == Packets(text, 1)
        case Emit => s.emitted + Packets(s.rest, s.blockNum) == Packets(text, 1)
        case TestAck(_) => |s.emitted| > 0 && s.emitted + Packets(s.rest[BLOCK..], s.blockNum) == Packets(text, 1)
        case TestClock(_) => |s.emitted| > 0 && s.emitted + Packets(s.rest[BLOCK..], s.blockNum) == Packets(text, 1)
        case TimedOut => s.emitted != [] && s.emitted < Packets(text, 1))
  }

  lemma StepKeepsPackets(text: seq<Ch>, s: Sender, e: Event)
    requires SenderInv(text, s)
    ensures SenderInv(text, StepOn(s, e))
  {
    if e.Run? && s.pc.Emit? {
      EmitKeepsPackets(text, s);
    } else if e.Run? {
      WaitKeepsPackets(text, s);
    }
  }

  lemma EmitKeepsPackets(text: seq<Ch>, s: Sender)
    requires SenderInv(text, s) && s.pc.Emit?
    ensures SenderInv(text, RunStep(s))
  {
    var ps := Packets(s.rest, s.blockNum);
    assert ps == [ps[0]] + ps[1..];
    assert s.emitted + ([ps[0]] + ps[1..]) == s.emitted + [ps[0]] + ps[1..];
  }

  lemma WaitKeepsPackets(text: seq<Ch>, s: Sender)
    requires SenderInv(text, s) && !s.pc.Emit?
    ensures SenderInv(text, RunStep(s))
  {
  }

  /** At every moment what has gone out is a prefix of the packets of the text, and all of them at the end. */
  lemma {:induction false} SendsPackets(text: seq<Ch>, s: Sender, es: seq<Event>)
    requires SenderInv(text, s)
    ensures var r := StepAll(s, es); SenderInv(text, r) && r.emitted <= Packets(text, 1)
    decreases |es|
  {
    if es != [] {
      StepKeepsPackets(text, s, es[0]);
      SendsPackets(text, StepOn(s, es[0]), es[1..]);
    }
  }

  /** The outcomes of the waits when the one for block `i + 1` is the first to fail. */
  function FailsAfter(i: nat): (waits: seq<bool>)
    ensures |waits| == i + 1 && !waits[i] && forall j :: 0 <= j < i ==> waits[j]
  {
    seq(i, _ => true) + [false]
  }

  /**
   The step-by-step sender does what `TftpSendData` does: whatever the interleaving, what has gone out at its end, with
   the error text a timeout adds, is what goes out for some outcomes of the waits.
   */
  lemma SenderRefines(text: seq<Ch>, now: Word, es: seq<Event>)
    ensures var r := StepAll(Begin(text, now), es);
      && (r.pc.Finished? ==> r.emitted == Outgoing(text, 1, []))
      && (r.pc.TimedOut? ==>
            && |r.emitted| > 0
            && r.emitted + [Err("timed out waiting for acknowledgment")]
                 == Outgoing(text, 1, FailsAfter(|r.emitted| - 1)))
  {
    var r := StepAll(Begin(text, now), es);
    SendsPackets(text, Begin(text, now), es);
    if r.pc.Finished? {
      OutgoingIsPackets(text, 1, []);
    } else if r.pc.TimedOut? {
      var i := |r.emitted| - 1;
      OutgoingStops(text, 1, FailsAfter(i), i);
      assert r.emitted == Packets(text, 1)[..i + 1];
    }
  }

  // ---- stop and wait ------------------------------------------------------------------------------------------------

  /** The block the sender would wait for, or past which it is, has been acknowledged, but for the first. */
  ghost predicate Acknowledged(s: Sender) {
    && (s.ackNum == 1 || s.ackNum in s.acks)
    && s.blockNum == (|s.emitted| + 1) % 0x1_0000
    && (forall k :: 2 <= k < |s.emitted| && k < 0xFFFF ==> k in s.acks)
    && (s.pc.Emit? && 2 <= |s.emitted| < 0xFFFF ==> |s.emitted| in s.acks)
  }

  lemma StepKeepsAcknowledged(s: Sender, e: Event)
    requires Acknowledged(s) && |s.emitted| < 0xFFFF
    ensures Acknowledged(StepOn(s, e))
  {
  }

  /**
   Stop and wait, in every interleaving: by the time block k + 1 has gone out, for k >= 2, an acknowledgement
   numbered k has come in since the transfer began.
   */
  lemma {:induction false} StopAndWait(text: seq<Ch>, s: Sender, es: seq<Event>)
    requires SenderInv(text, s) && Acknowledged(s) && |text| < BLOCK * 0xFFFF
    ensures Acknowledged(StepAll(s, es))
    decreases |es|
  {
    if es != [] {
      PacketsMeaning(text, 1);
      SendsPackets(text, s, []);
      if s.pc.Finished? || s.pc.TimedOut? {
        DoneKeepsAcknowledged(s, es[0]);
      } else {
        StepKeepsAcknowledged(s, es[0]);
      }
      StepKeepsPackets(text, s, es[0]);
      StopAndWait(text, StepOn(s, es[0]), es[1..]);
    }
  }

  lemma DoneKeepsAcknowledged(s: Sender, e: Event)
    requires Acknowledged(s) && (s.pc.Finished? || s.pc.TimedOut?)
    ensures Acknowledged(StepOn(s, e))
  {
  }

  lemma StopAndWaitFromStart(text: seq<Ch>, now: Word, es: seq<Event>, k: nat)
    requires |text| < BLOCK * 0xFFFF && 2 <= k
    ensures var r := StepAll(Begin(text, now), es); k < |r.emitted| ==> k < 0x1_0000 && k in r.acks
  {
    var s := Begin(text, now);
    assert s.emitted + Packets(s.rest, s.blockNum) == Packets(text, 1);
    StopAndWait(text, s, es);
    SendsPackets(text, s, es);
    PacketsMeaning(text, 1);
  }

  /** The first wait does not wait: with no acknowledgement at all, block 2 follows block 1 in three steps. */
  lemma FirstWaitIsOpen(text: seq<Ch>, now: Word)
    requires |text| > 511
    ensures var r := StepAll(Begin(text, now), [Run, Run, Run]); |r.emitted| == 2 && r.acks == {}
  {
    var s1 := RunStep(Begin(text, now));
    var s2 := RunStep(s1);
    assert [Run, Run, Run][1..] == [Run, Run];
    assert [Run, Run][1..] == [Run];
    assert StepAll(s2, [Run]) == RunStep(s2);
  }

  /** After 65535 full blocks the counter has wrapped, and no acknowledgement ends the wait. */
  lemma WrappedWaitNeverEnds(s: Sender, e: Event)
    requires Waiting(s) && s.blockNum == 0
    ensures var r := StepOn(s, e); (Waiting(r) || r.pc.TimedOut?) && r.blockNum == 0 && r.emitted == s.emitted
  {
  }

  // ---- the timeout --------------------------------------------------------------------------------------------------

  /** The clock reads the start of the wait plus the ticks since, modulo 2^32. */
  ghost predicate ClockInv(s: Sender) {
    Waiting(s) ==> s.millisec == (s.pc.start + s.waited) % 0x1_0000_0000
  }

  lemma StepKeepsClock(s: Sender, e: Event)
    requires ClockInv(s)
    ensures ClockInv(StepOn(s, e))
  {
  }

  lemma {:induction false} RunKeepsClock(s: Sender, es: seq<Event>)
    requires ClockInv(s)
    ensures ClockInv(StepAll(s, es))
    decreases |es|
  {
    if es != [] {
      StepKeepsClock(s, es[0]);
      RunKeepsClock(StepOn(s, es[0]), es[1..]);
    }
  }

  /**
   Over every interleaving, and across the clock's wrap-around, a test of the clock gives up after 2001 ticks and not
   before.
   */
  lemma TimeoutExact(text: seq<Ch>, now: Word, es: seq<Event>)
    requires var s := StepAll(Begin(text, now), es); s.pc.TestClock? && s.waited < 0x1_0000_0000
    ensures var s := StepAll(Begin(text, now), es); RunStep(s).pc.TimedOut? <==> s.waited >= 2001
  {
    var s := StepAll(Begin(text, now), es);
    RunKeepsClock(Begin(text, now), es);
    ElapsedIsWaited(s.pc.start, s.waited, s.millisec);
  }

  lemma ElapsedIsWaited(start: Word, waited: nat, now: Word)
    requires waited < 0x1_0000_0000 && now == (start + waited) % 0x1_0000_0000
    ensures (now - start) % 0x1_0000_0000 == waited
  {
  }

  // ---- an acknowledgement in the course of a wait -------------------------------------------------------------------

  function Runs(es: seq<Event>): nat {
    if es == [] then 0 else (if es[0].Run? then 1 else 0) + Runs(es[1..])
  }

  function Ticks(es: seq<Event>): nat {
    if es == [] then 0 else (if es[0].Tick? then 1 else 0) + Ticks(es[1..])
  }

  /** Own steps until the next block is out, if the acknowledgement awaited has come. */
  function StepsToBlock(s: Sender): nat {
    match s.pc
    case Emit => 1
    case TestAck(_) => 2
    case _ => 3
  }

  lemma {:induction false} EmittedOnlyGrows(s: Sender, es: seq<Event>)
    ensures |StepAll(s, es).emitted| >= |s.emitted|
    decreases |es|
  {
    if es != [] { EmittedOnlyGrows(StepOn(s, es[0]), es[1..]); }
  }

  lemma {:induction false} AckMovesOn(s: Sender, es: seq<Event>, k: Half)
    requires ClockInv(s) && (s.pc.Emit? || (Waiting(s) && s.blockNum == k + 1 && s.ackNum == k))
    requires s.waited + Ticks(es) <= 2000 || s.pc.Emit?
    requires forall i :: 0 <= i < |es| && es[i].AckIn? ==> es[i].n == k
    requires Runs(es) >= StepsToBlock(s)
    ensures |StepAll(s, es).emitted| > |s.emitted|
    decreases |es|
  {
    var next := StepOn(s, es[0]);
    if es[0].Run? && s.pc.Emit? {
      EmittedOnlyGrows(next, es[1..]);
    } else {
      StepKeepsClock(s, es[0]);
      if s.pc.TestClock? { ElapsedIsWaited(s.pc.start, s.waited, s.millisec); }
      AckMovesOn(next, es[1..], k);
    }
  }

  /**
   An acknowledgement ends its wait whenever it comes. In every interleaving in which the sender has come to a wait, if
   the number awaited then arrives, no other arrives after it, and the wait lasts no more than 2000 ticks, three further
   steps of the sender send the next block.
   */
  lemma LateAckIsSeen(text: seq<Ch>, now: Word, before: seq<Event>, after: seq<Event>)
    requires var s := StepAll(Begin(text, now), before);
      && Waiting(s) && s.blockNum >= 1 && s.waited + Ticks(after) <= 2000
      && forall i :: 0 <= i < |after| && after[i].AckIn? ==> after[i].n == s.blockNum - 1
    requires Runs(after) >= 3
    ensures var s := StepAll(Begin(text, now), before);
      |StepAll(StepOn(s, AckIn(s.blockNum - 1)), after).emitted| > |s.emitted|
  {
    var s := StepAll(Begin(text, now), before);
    RunKeepsClock(Begin(text, now), before);
    AckMovesOn(StepOn(s, AckIn(s.blockNum - 1)), after, s.blockNum - 1);
  }

  lemma {:induction false} TimedOutStays(s: Sender, es: seq<Event>)
    requires s.pc.TimedOut?
    ensures var r := StepAll(s, es); r.pc.TimedOut? && r.emitted == s.emitted
    decreases |es|
  {
    if es != [] { TimedOutStays(StepOn(s, es[0]), es[1..]); }
  }

  lemma {:induction false} ClockEndsWait(s: Sender, es: seq<Event>)
    requires ClockInv(s) && Waiting(s) && s.ackNum as int != s.blockNum as int - 1
    requires 2001 <= s.waited && s.waited + Ticks(es) < 0x1_0000_0000
    requires forall i :: 0 <= i < |es| && es[i].AckIn? ==> es[i].n as int != s.blockNum as int - 1
    requires Runs(es) >= if s.pc.TestAck? then 2 else 1
    ensures var r := StepAll(s, es); r.pc.TimedOut? && r.emitted == s.emitted
    decreases |es|
  {
    var next := StepOn(s, es[0]);
    if es[0].Run? && s.pc.TestClock? {
      ElapsedIsWaited(s.pc.start, s.waited, s.millisec);
      TimedOutStays(next, es[1..]);
    } else {
      StepKeepsClock(s, es[0]);
      ClockEndsWait(next, es[1..]);
    }
  }

  /**
   A wait ends without its acknowledgement too. In every interleaving in which the sender has waited 2001 ticks or more,
   and neither the last number in nor any that follows is the one awaited, two further steps of the sender give up, with
   nothing more sent.
   */
  lemma WaitTimesOut(text: seq<Ch>, now: Word, before: seq<Event>, after: seq<Event>)
    requires var s := StepAll(Begin(text, now), before);
      && Waiting(s) && s.ackNum as int != s.blockNum as int - 1
      && 2001 <= s.waited && s.waited + Ticks(after) < 0x1_0000_0000
      && forall i :: 0 <= i < |after| && after[i].AckIn? ==> after[i].n as int != s.blockNum as int - 1
    requires Runs(after) >= 2
    ensures var s := StepAll(Begin(text, now), before); var r := StepAll(s, after);
      r.pc.TimedOut? && r.emitted == s.emitted
  {
    RunKeepsClock(Begin(text, now), before);
    ClockEndsWait(StepAll(Begin(text, now), before), after);
  }

  // ---- all acknowledgements arriving --------------------------------------------------------------------------------

  /** The schedule in which each full block is acknowledged while the sender waits for it. */
  function Prompt(rest: seq<Ch>, k: Half): seq<Event>
    decreases |rest|
  {
    if |rest| > 511 then [Run, AckIn(k), Run] + Prompt(rest[BLOCK..], (k + 1) % 0x1_0000) else [Run]
  }

  /** With every acknowledgement arriving, the whole text is sent. */
  lemma {:induction false} PromptSendsAll(s: Sender)
    requires s.pc.Emit? && s.blockNum >= 1 && s.blockNum + |s.rest| / BLOCK < 0x1_0000
    ensures var r := StepAll(s, Prompt(s.rest, s.blockNum));
      r.pc.Finished? && r.emitted == s.emitted + Packets(s.rest, s.blockNum)
    decreases |s.rest|
  {
    if |s.rest| > 511 {
      var more := Prompt(s.rest[BLOCK..], s.blockNum + 1);
      var sent := StepOn(StepOn(StepOn(s, Run), AckIn(s.blockNum)), Run);
      ThreeSteps(s, Run, AckIn(s.blockNum), Run, more);
      assert sent.pc.Emit? && sent.rest == s.rest[BLOCK..] && sent.blockNum == s.blockNum + 1;
      PromptSendsAll(sent);
      assert Packets(s.rest, s.blockNum) == [Data(s.blockNum, s.rest[..BLOCK])] + Packets(sent.rest, sent.blockNum);
    } else {
      assert [Run][1..] == [];
    }
  }

  lemma OneStep(s: Sender, e: Event, more: seq<Event>)
    ensures StepAll(s, [e] + more) == StepAll(StepOn(s, e), more)
  {
    assert ([e] + more)[1..] == more;
  }

  lemma ThreeSteps(s: Sender, a: Event, b: Event, c: Event, more: seq<Event>)
    ensures StepAll(s, [a, b, c] + more) == StepAll(StepOn(StepOn(StepOn(s, a), b), c), more)
  {
    OneStep(s, a, [b, c] + more);
    OneStep(StepOn(s, a), b, [c] + more);
    OneStep(StepOn(StepOn(s, a), b), c, more);
    assert [a, b, c] + more == [a] + ([b, c] + more);
    assert [b, c] + more == [b] + ([c] + more);
  }

  /**
   Sender and receiver together: whatever the interleaving, if the sender finishes, the packets it sent make an
   idle receiver with an empty buffer parse exactly the text, once, given that the text is within the buffer.
   */
  lemma SenderToReceiver(aton: AddrParser, s: Server, name: seq<Ch>, text: seq<Ch>, now: Word, es: seq<Event>,
                         from: Peer, saved: bool)
    requires s.status == Running && !s.sending && s.currBlock == 0 && s.file == [] && NUL !in name
    requires |text| < BUFFER_SIZE
    requires StepAll(Begin(text, now), es).pc.Finished?
    ensures var packets := StepAll(Begin(text, now), es).emitted;
      && (forall i :: 0 <= i < |packets| ==> packets[i].Data?)
      && Feed(DeliverFrom(aton, from, saved), Deliver(aton, s, WriteRequest(name, from)), packets, 0).parsed
         == s.parsed + [text]
  {
    SendsPackets(text, Begin(text, now), es);
    RoundTrip(aton, s, name, text, from, saved);
    assert [] + text == text;
  }
}
