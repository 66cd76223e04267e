/** What the TFTP server keeps over every sequence of datagrams. */
module TftpTheorems {
  import opened Text
  import opened Commands
  import opened TftpSpec

  function Concat(parts: seq<seq<Ch>>): seq<Ch> {
    if parts == [] then [] else parts[0] + Concat(parts[1..])
  }

  lemma {:induction false} ConcatSnoc(parts: seq<seq<Ch>>, x: seq<Ch>)
    ensures Concat(parts + [x]) == Concat(parts) + x
  {
    if parts == [] {
      assert (parts + [x])[1..] == [];
    } else {
      assert (parts + [x])[1..] == parts[1..] + [x];
      ConcatSnoc(parts[1..], x);
    }
  }

  // ---- an arrival ---------------------------------------------------------------------------------------------------

  /** One datagram with its sender and the fate of the flash write it may lead to. */
  datatype Arrival = Arrival(p: Datagram, from: Peer, saved: bool)

  function Deliver(aton: AddrParser, s: Server, a: Arrival): Server
    requires a.p.Ok()
  {
    Receive(aton, s, a.p, a.from, a.saved)
  }

  function DeliverAll(aton: AddrParser, s: Server, as_: seq<Arrival>): Server
    requires forall i :: 0 <= i < |as_| ==> as_[i].p.Ok()
    decreases |as_|
  {
    if as_ == [] then s else DeliverAll(aton, Deliver(aton, s, as_[0]), as_[1..])
  }

  // ---- reassembly ---------------------------------------------------------------------------------------------------

  /** An observer of the block counter: what the buffer held when the request was accepted, and the blocks since. */
  datatype Observer = Observer(base: seq<Ch>, got: seq<seq<Ch>>)

  function Observe(m: Observer, before: Server, a: Arrival, after: Server): Observer
    requires a.p.Ok()
  {
    if before.currBlock == 0 && after.currBlock == 1 then Observer(before.file, [])
    else if before.currBlock > 0 && after.currBlock == before.currBlock + 1 then m.(got := m.got + [a.p.Body()])
    else m
  }

  /**
   During a transfer the buffer holds what it held at its start and then the accepted blocks in order; it never
   fills up completely and there are never more than eight blocks.
   */
  ghost predicate Reassembling(s: Server, m: Observer) {
    && |s.file| < BUFFER_SIZE && s.currBlock <= 8
    && (s.currBlock > 0 ==>
          && |m.got| == s.currBlock - 1
          && (forall i :: 0 <= i < |m.got| ==> |m.got[i]| == BLOCK)
          && s.file == m.base + Concat(m.got)
          && |s.file| == |m.base| + BLOCK * (s.currBlock - 1))
  }

  lemma DataKeepsReassembling(aton: AddrParser, s: Server, m: Observer, a: Arrival)
    requires a.p.Ok() && Reassembling(s, m) && s.status == Running
    requires DataError(s, a.p).None? && a.p.len - 4 == BLOCK
    ensures var r := ReceiveData(aton, s, a.p, a.from, a.saved);
      Reassembling(r, Observe(m, s, a, r)) && r.currBlock == s.currBlock + 1 && r.parsed == s.parsed
  {
    ConcatSnoc(m.got, a.p.Body());
  }

  lemma FinishKeeps(aton: AddrParser, s: Server, from: Peer, saved: bool)
    requires s.status == Running
    ensures var r := Finish(aton, s, from, saved);
      && r.parsed == s.parsed + [s.file]
      && r.settings == Parse(aton, s.file, s.settings, false).settings
      && (r.status == Running ==> r.file == [] && r.currBlock == 0)
      && (r.status != Running ==> r.file == s.file && r.currBlock == s.currBlock)
      && (forall i :: |s.out| <= i < |r.out| && r.out[i].reply.Ack? ==>
            r.out[i].reply.block == s.currBlock && r.out[i].held == |s.file|)
      && s.out <= r.out
  {
  }

  /** A datagram is a data packet in turn that fits. */
  predicate InTurn(s: Server, p: Datagram)
    requires p.Ok()
  {
    4 <= p.len == p.total && p.Opcode() == DATA && DataError(s, p).None?
  }

  /** The last block of a transfer: its text goes to the parser, and the server is idle again unless it resets. */
  lemma LastBlock(aton: AddrParser, s: Server, a: Arrival)
    requires a.p.Ok() && s.status == Running && InTurn(s, a.p) && |a.p.Body()| < BLOCK
    ensures var r := Deliver(aton, s, a);
      && r.parsed == s.parsed + [s.file + a.p.Body()]
      && r.settings == Parse(aton, s.file + a.p.Body(), s.settings, false).settings
      && (r.status == Running ==> r.file == [] && r.currBlock == 0)
  {
    FinishKeeps(aton, Tell(s.(file := s.file + a.p.Body()), a.from, Ack(s.currBlock)), a.from, a.saved);
  }

  /** What a datagram shorter than four bytes can do: be told off, end a transfer, or, as data in turn, anything. */
  predicate ShortEffect(s: Server, a: Arrival, r: Server) {
    && r.parsed == s.parsed && r.settings == s.settings && r.net == s.net && r.last == s.last && r.sending == s.sending
    && s.out <= r.out && (forall i :: |s.out| <= i < |r.out| ==> r.out[i].reply.Err? && r.out[i].to == a.from)
    && (r.status != s.status ==> r.status == Status.Undefined && s.currBlock > 0 && !s.sending)
    && ((r.file == s.file && (r.currBlock == s.currBlock || r.currBlock == 0))
        || (r.file == [] && r.currBlock == 0 && s.currBlock > 0 && !s.sending))
  }

  lemma ShortDatagram(aton: AddrParser, s: Server, a: Arrival)
    requires a.p.Ok() && a.p.len < 4
    ensures ShortEffect(s, a, Deliver(aton, s, a))
  {
    if s.status == Running && a.p.len == a.p.total { ShortDispatch(aton, Checked(s, a.p, a.from), a); }
  }

  lemma ShortDispatch(aton: AddrParser, s: Server, a: Arrival)
    requires a.p.Ok() && a.p.len < 4
    ensures ShortEffect(s, a, Dispatch(aton, s, a.p, a.from, a.saved))
  {
    if a.p.Opcode() == DATA { ShortData(aton, s, a); } else { ShortOther(aton, s, a); }
  }

  lemma ShortOther(aton: AddrParser, s: Server, a: Arrival)
    requires a.p.Ok() && a.p.len < 4 && a.p.Opcode() != DATA
    ensures ShortEffect(s, a, Dispatch(aton, s, a.p, a.from, a.saved))
  {
  }

  lemma ShortData(aton: AddrParser, s: Server, a: Arrival)
    requires a.p.Ok() && a.p.len < 4
    ensures ShortEffect(s, a, ReceiveData(aton, s, a.p, a.from, a.saved))
  {
  }

  /** Any other datagram leaves the parser uncalled. */
  lemma NotLastBlock(aton: AddrParser, s: Server, a: Arrival)
    requires a.p.Ok() && s.status == Running && !(InTurn(s, a.p) && |a.p.Body()| < BLOCK)
    ensures Deliver(aton, s, a).parsed == s.parsed
  {
    if a.p.len < 4 { ShortDatagram(aton, s, a); }
  }

  /** Every datagram keeps the reassembly invariant, as long as no reset has been started. */
  lemma ArrivalKeepsReassembling(aton: AddrParser, s: Server, m: Observer, a: Arrival)
    requires a.p.Ok() && Reassembling(s, m) && s.status == Running
    ensures var r := Deliver(aton, s, a);
      r.status == Running ==> Reassembling(r, Observe(m, s, a, r))
  {
    if InTurn(s, a.p) {
      if |a.p.Body()| < BLOCK { LastBlock(aton, s, a); } else { DataKeepsReassembling(aton, s, m, a); }
    } else {
      OtherKeepsReassembling(aton, s, m, a);
    }
  }

  lemma OtherKeepsReassembling(aton: AddrParser, s: Server, m: Observer, a: Arrival)
    requires a.p.Ok() && Reassembling(s, m) && s.status == Running && !InTurn(s, a.p)
    ensures var r := Deliver(aton, s, a); r.status == Running ==> Reassembling(r, Observe(m, s, a, r))
  {
    if a.p.len < 4 {
      ShortDatagram(aton, s, a);
    } else {
      OtherDatagram(aton, s, m, a);
    }
  }

  lemma OtherDatagram(aton: AddrParser, s: Server, m: Observer, a: Arrival)
    requires a.p.Ok() && a.p.len >= 4 && Reassembling(s, m) && s.status == Running && !InTurn(s, a.p)
    ensures var r := Deliver(aton, s, a); Reassembling(r, Observe(m, s, a, r))
  {
    if a.p.len == a.p.total && a.p.Opcode() == DATA {
      RefusedData(aton, s, m, a);
    } else if a.p.len == a.p.total && a.p.Opcode() == WRQ {
      WriteKeeps(s, m, a);
    }
  }

  lemma WriteKeeps(s: Server, m: Observer, a: Arrival)
    requires a.p.Ok() && a.p.len >= 4 && Reassembling(s, m)
    ensures var r := ReceiveWrite(s, a.p, a.from); Reassembling(r, Observe(m, s, a, r))
  {
  }

  lemma RefusedData(aton: AddrParser, s: Server, m: Observer, a: Arrival)
    requires a.p.Ok() && a.p.len >= 4 && Reassembling(s, m) && DataError(s, a.p).Some?
    ensures var r := ReceiveData(aton, s, a.p, a.from, a.saved); Reassembling(r, Observe(m, s, a, r))
  {
  }

  /** The text handed to the parser is the text at the start of the transfer, its full blocks, and the last block. */
  lemma ParsedIsReassembled(aton: AddrParser, s: Server, m: Observer, a: Arrival)
    requires a.p.Ok() && Reassembling(s, m) && s.status == Running
    ensures var r := Deliver(aton, s, a);
      r.parsed == s.parsed
      || (s.currBlock > 0 && |a.p.Body()| < BLOCK && r.parsed == s.parsed + [m.base + Concat(m.got + [a.p.Body()])])
  {
    if InTurn(s, a.p) && |a.p.Body()| < BLOCK {
      LastBlock(aton, s, a);
      FileWithLast(s, m, a.p.Body());
    } else {
      NotLastBlock(aton, s, a);
    }
  }

  lemma FileWithLast(s: Server, m: Observer, body: seq<Ch>)
    requires Reassembling(s, m) && s.currBlock > 0
    ensures s.file + body == m.base + Concat(m.got + [body])
  {
    ConcatSnoc(m.got, body);
    assert m.base + Concat(m.got) + body == m.base + (Concat(m.got) + body);
  }

  /**
   What `r` has acknowledged beyond `s` is block `s.currBlock`, with `body` already behind the buffer's old contents.
   */
  ghost predicate AcksStored(s: Server, body: seq<Ch>, r: Server) {
    forall i :: |s.out| <= i < |r.out| && r.out[i].reply.Ack? ==>
      r.out[i].reply.block == s.currBlock && r.out[i].held == |s.file| + |body|
  }

  /**
   An acknowledgement of block k >= 1 goes out only when data block k arrives in turn, and only after its bytes are in
   the buffer: at that moment the buffer is as long as it was with the block behind it, and those bytes are kept or
   parsed.
   */
  lemma AckFollowsStore(aton: AddrParser, s: Server, a: Arrival)
    requires a.p.Ok() && s.status == Running
    ensures var r := Deliver(aton, s, a);
      forall i :: |s.out| <= i < |r.out| && r.out[i].reply.Ack? && r.out[i].reply.block >= 1 ==>
        && InTurn(s, a.p) && a.p.Block() == s.currBlock == r.out[i].reply.block
        && r.out[i].held == |s.file| + |a.p.Body()|
        && (r.file == s.file + a.p.Body() || r.parsed == s.parsed + [s.file + a.p.Body()])
  {
    if InTurn(s, a.p) {
      DataAcks(aton, s, a);
    } else {
      OthersAckZero(aton, s, a);
    }
  }

  lemma DataAcks(aton: AddrParser, s: Server, a: Arrival)
    requires a.p.Ok() && s.status == Running && InTurn(s, a.p)
    ensures var r := ReceiveData(aton, s, a.p, a.from, a.saved);
      && AcksStored(s, a.p.Body(), r)
      && (r.file == s.file + a.p.Body() || r.parsed == s.parsed + [s.file + a.p.Body()])
  {
    var stored := Tell(s.(file := s.file + a.p.Body()), a.from, Ack(s.currBlock));
    TakenBlock(aton, s, a.p, a.from, a.saved);
    FinishKeeps(aton, stored, a.from, a.saved);
  }

  /** What becomes of a data packet that is not turned down. */
  lemma TakenBlock(aton: AddrParser, s: Server, p: Datagram, from: Peer, saved: bool)
    requires p.Ok() && p.len >= 4 && DataError(s, p).None?
    ensures var stored := Tell(s.(file := s.file + p.mem[4..p.len]), from, Ack(s.currBlock));
      ReceiveData(aton, s, p, from, saved)
      == if p.len - 4 < BLOCK then Finish(aton, stored, from, saved)
         else stored.(currBlock := (s.currBlock + 1) % 0x1_0000)
  {
  }

  lemma OthersAckZero(aton: AddrParser, s: Server, a: Arrival)
    requires a.p.Ok() && s.status == Running && !InTurn(s, a.p)
    ensures var r := Deliver(aton, s, a);
      forall i :: |s.out| <= i < |r.out| && r.out[i].reply.Ack? ==> r.out[i].reply.block == 0
  {
    if a.p.len < 4 { ShortDatagram(aton, s, a); }
  }

  /** In a transfer the buffer then holds what it held at the start, the full blocks before this one, and this one. */
  lemma AckCountsBytes(aton: AddrParser, s: Server, m: Observer, a: Arrival)
    requires a.p.Ok() && s.status == Running && Reassembling(s, m)
    ensures var r := Deliver(aton, s, a);
      forall i :: |s.out| <= i < |r.out| && r.out[i].reply.Ack? && r.out[i].reply.block >= 1 ==>
        r.out[i].held == |m.base| + BLOCK * (r.out[i].reply.block - 1) + |a.p.Body()|
  {
    AckFollowsStore(aton, s, a);
  }

  /**
   The system resets exactly if every line of the text is a good, newline-ended command and one of them is `reset`,
   whatever the flash write returned; and the parser reports success exactly if it was not reset, the text was
   good and the write succeeded.
   The network interface is set up anew exactly if the text is good, while the settings before a bad line stay.
   */
  lemma ResetIff(aton: AddrParser, s: Server, from: Peer, saved: bool)
    requires s.status == Running
    ensures var (r, ok) := RunCommands(aton, s, from, saved); var ls := Lines(s.file).0;
      && (r.status == Restarting <==> WholeGood(aton, s.file) && AnyReset(aton, ls))
      && (ok <==> WholeGood(aton, s.file) && !AnyReset(aton, ls) && saved)
      && r.settings == FoldLines(aton, ls[..FirstBad(aton, ls)], s.settings)
      && r.net == (if WholeGood(aton, s.file) then r.settings else s.net)
  {
    ParseOutcome(aton, s.file, s.settings);
  }

  /** What `r` has sent beyond `s` was all sent to `peer`. */
  ghost predicate OnlyTo(s: Server, r: Server, peer: Peer) {
    s.out <= r.out && forall i :: |s.out| <= i < |r.out| ==> r.out[i].to == peer
  }

  lemma FinishOnlyTo(aton: AddrParser, s: Server, from: Peer, saved: bool)
    ensures OnlyTo(s, Finish(aton, s, from, saved), from)
  {
  }

  lemma DataOnlyTo(aton: AddrParser, s: Server, a: Arrival)
    requires a.p.Ok()
    ensures OnlyTo(s, ReceiveData(aton, s, a.p, a.from, a.saved), a.from)
  {
    FinishOnlyTo(aton, Tell(s.(file := s.file + a.p.Body()), a.from, Ack(s.currBlock)), a.from, a.saved);
  }

  /** Everything a datagram makes the server send goes back to where the datagram came from. */
  lemma RepliesGoBack(aton: AddrParser, s: Server, a: Arrival)
    requires a.p.Ok()
    ensures OnlyTo(s, Deliver(aton, s, a), a.from)
  {
    if a.p.len < 4 {
      ShortDatagram(aton, s, a);
    } else if a.p.len == a.p.total && a.p.Opcode() == DATA {
      DataOnlyTo(aton, s, a);
    } else {
      OthersOnlyTo(aton, s, a);
    }
  }

  lemma OthersOnlyTo(aton: AddrParser, s: Server, a: Arrival)
    requires a.p.Ok() && a.p.len >= 4 && !(a.p.len == a.p.total && a.p.Opcode() == DATA)
    ensures OnlyTo(s, Deliver(aton, s, a), a.from)
  {
  }

  function ObserveAll(aton: AddrParser, s: Server, m: Observer, as_: seq<Arrival>): Observer
    requires forall i :: 0 <= i < |as_| ==> as_[i].p.Ok()
    decreases |as_|
  {
    if as_ == [] then m
    else var r := Deliver(aton, s, as_[0]); ObserveAll(aton, r, Observe(m, s, as_[0], r), as_[1..])
  }

  lemma {:induction false} HaltedStays(aton: AddrParser, s: Server, as_: seq<Arrival>)
    requires s.status != Running && forall i :: 0 <= i < |as_| ==> as_[i].p.Ok()
    ensures DeliverAll(aton, s, as_) == s
    decreases |as_|
  {
    if as_ != [] { HaltedStays(aton, s, as_[1..]); }
  }

  /** Reassembly over every sequence of datagrams. */
  lemma {:induction false} ReassemblyHolds(aton: AddrParser, s: Server, m: Observer, as_: seq<Arrival>)
    requires Reassembling(s, m) && s.status == Running && forall i :: 0 <= i < |as_| ==> as_[i].p.Ok()
    ensures var r := DeliverAll(aton, s, as_);
      r.status == Running ==> Reassembling(r, ObserveAll(aton, s, m, as_))
    decreases |as_|
  {
    if as_ != [] {
      var r := Deliver(aton, s, as_[0]);
      if r.status == Running {
        ArrivalKeepsReassembling(aton, s, m, as_[0]);
        ReassemblyHolds(aton, r, Observe(m, s, as_[0], r), as_[1..]);
      } else {
        HaltedStays(aton, r, as_[1..]);
      }
    }
  }

  // ---- reads exclude writes -----------------------------------------------------------------------------------------

  /** `r` differs from `s` in no way a pending read forbids. */
  predicate Undisturbed(s: Server, r: Server) {
    && r.file == s.file && r.parsed == s.parsed && r.settings == s.settings && r.net == s.net && r.last == s.last
    && r.sending && r.status == Running
    && (r.currBlock == s.currBlock || r.currBlock == 0)
  }

  lemma PendingReadStep(aton: AddrParser, s: Server, a: Arrival)
    requires s.sending && s.status == Running && a.p.Ok()
    ensures Undisturbed(s, Deliver(aton, s, a))
  {
    if a.p.len < 4 {
      ShortDatagram(aton, s, a);
    } else if a.p.Opcode() == DATA {
      PendingReadData(aton, s, a);
    } else {
      PendingReadOther(aton, s, a);
    }
  }

  lemma PendingReadOther(aton: AddrParser, s: Server, a: Arrival)
    requires s.sending && s.status == Running && a.p.Ok() && a.p.len >= 4 && a.p.Opcode() != DATA
    ensures Undisturbed(s, Deliver(aton, s, a))
  {
    PendingReadRequests(s, a);
  }

  lemma PendingReadRequests(s: Server, a: Arrival)
    requires s.sending && s.status == Running && a.p.Ok()
    ensures Undisturbed(s, ReceiveWrite(s, a.p, a.from)) && Undisturbed(s, ReceiveRead(s, a.p, a.from))
  {
  }

  lemma PendingReadData(aton: AddrParser, s: Server, a: Arrival)
    requires s.sending && a.p.Ok()
    ensures exists msg :: ReceiveData(aton, s, a.p, a.from, a.saved) == Tell(s, a.from, Err(msg))
  {
    var e := DataError(s, a.p);
    assert ReceiveData(aton, s, a.p, a.from, a.saved) == Tell(s, a.from, Err(e.value));
  }

  /** While a read is pending, no sequence of datagrams stores, parses, sets or redirects anything. */
  lemma {:induction false} ReadExcludesWrite(aton: AddrParser, s: Server, as_: seq<Arrival>)
    requires s.sending && s.status == Running && forall i :: 0 <= i < |as_| ==> as_[i].p.Ok()
    ensures Undisturbed(s, DeliverAll(aton, s, as_))
    decreases |as_|
  {
    if as_ != [] {
      PendingReadStep(aton, s, as_[0]);
      ReadExcludesWrite(aton, Deliver(aton, s, as_[0]), as_[1..]);
    }
  }

  // ---- the mode check -----------------------------------------------------------------------------------------------

  /** A request laid out as section 5 of RFC 1350 has it, with any memory after it. */
  function RequestMemory(op: seq<Ch>, name: seq<Ch>, mode: seq<Ch>, beyond: seq<Ch>): seq<Ch>
    requires |op| == 2
  {
    op + name + [NUL] + mode + [NUL] + beyond
  }

  /** A well laid out request is accepted exactly if its mode is "octet" up to letter case. */
  lemma OctetIff(op: seq<Ch>, name: seq<Ch>, mode: seq<Ch>, beyond: seq<Ch>)
    requires |op| == 2 && NUL !in name && NUL !in mode
    ensures var mem := RequestMemory(op, name, mode, beyond); var len := 4 + |name| + |mode|;
      OctetError(mem, len).None? <==>
        |mode| == |"octet"| && forall i :: 0 <= i < |mode| ==> SameLetter(mode[i], "octet"[i])
  {
    var mem := RequestMemory(op, name, mode, beyond);
    var len := 4 + |name| + |mode|;
    ModeFound(op, name, mode, beyond);
    LowerIsOctet(mode);
  }

  lemma ModeFound(op: seq<Ch>, name: seq<Ch>, mode: seq<Ch>, beyond: seq<Ch>)
    requires |op| == 2 && NUL !in name && NUL !in mode
    ensures var mem := RequestMemory(op, name, mode, beyond); var len := 4 + |name| + |mode|;
      Find(mem[2..len], NUL) == |name| && CStr(mem[2 + |name| + 1..]) == mode && mem[len - 1] == NUL
  {
    var mem := RequestMemory(op, name, mode, beyond);
    var len := 4 + |name| + |mode|;
    assert mem[2..len] == name + [NUL] + mode + [NUL];
    FindIs(mem[2..len], NUL, |name|);
    var tail := mem[3 + |name|..];
    assert tail == mode + [NUL] + beyond;
    FindIs(tail, NUL, |mode|);
    assert tail[..|mode|] == mode;
  }

  lemma LowerIsOctet(mode: seq<Ch>)
    ensures LowerAll(mode) == "octet" <==>
      |mode| == |"octet"| && forall i :: 0 <= i < |mode| ==> SameLetter(mode[i], "octet"[i])
  {
    if |mode| == |"octet"| {
      forall i | 0 <= i < |mode|
        ensures Lower(mode[i]) == "octet"[i] <==> SameLetter(mode[i], "octet"[i])
      {
      }
      if LowerAll(mode) == "octet" {
        forall i | 0 <= i < |mode|
          ensures SameLetter(mode[i], "octet"[i])
        {
          assert LowerAll(mode)[i] == "octet"[i];
        }
      }
    }
  }
}
