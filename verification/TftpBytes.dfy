/** What a datagram does, told by its bytes alone: a case for each opcode, every length, and the texts of refusals. */
module TftpBytes {
  import opened Basics
  import opened Text
  import opened Commands
  import opened TftpSpec
  import opened TftpTheorems
  import opened TftpMode

  /** The first two bytes in network order, of a datagram in one piece. */
  predicate HasOpcode(p: Datagram, n: nat)
    requires |p.mem| >= 4
  {
    p.len == p.total && p.mem[0] as int % 256 == n / 256 && p.mem[1] as int % 256 == n % 256
  }

  /** The next two bytes. */
  function NumberOf(p: Datagram): Half
    requires |p.mem| >= 4
  {
    256 * (p.mem[2] as int % 256) + p.mem[3] as int % 256
  }

  /** `r` is `s` after this reply to the sender of `a`. */
  predicate Replied(s: Server, a: Arrival, reply: Reply, r: Server) {
    r == s.(out := s.out + [Sent(a.from, reply, |s.file|)])
  }

  /** A datagram of less than four bytes is told so first. */
  function Warned(s: Server, a: Arrival): Server {
    if a.p.len < 4 then s.(out := s.out + [Sent(a.from, Err("packet too small"), |s.file|)]) else s
  }

  /** A datagram that comes in pieces is refused. */
  lemma FragmentOutcome(aton: AddrParser, s: Server, a: Arrival)
    requires a.p.Ok() && s.status == Running && a.p.len != a.p.total
    ensures Replied(s, a, Err("cannot fragment packets"), Deliver(aton, s, a))
  {
  }

  /** An opcode other than the four is refused. */
  lemma UnknownOutcome(aton: AddrParser, s: Server, a: Arrival)
    requires a.p.Ok() && s.status == Running && a.p.len == a.p.total
    requires !HasOpcode(a.p, 1) && !HasOpcode(a.p, 2) && !HasOpcode(a.p, 3) && !HasOpcode(a.p, 4)
    ensures Replied(Warned(s, a), a, Err("unsupported opcode"), Deliver(aton, s, a))
  {
  }

  /** What is missing in a request that is not an octet request. */
  function Missing(mem: seq<Ch>, len: nat): string
    requires 4 <= len <= |mem|
  {
    if forall j :: 2 <= j < len ==> mem[j] != NUL then "no filename given"
    else if mem[len - 1] != NUL then "mode string not null-terminated"
    else "only supported mode is octet"
  }

  lemma MissingIsTold(mem: seq<Ch>, len: nat)
    requires 4 <= len <= |mem| && NUL in mem[len..]
    ensures OctetError(mem, len) == if OctetRequest(mem, len) then None else Some(Missing(mem, len))
  {
    OctetExact(mem, len);
    var i := 2 + Find(mem[2..len], NUL);
    NameEnd(mem, len);
    assert forall j :: 2 <= j < len ==> mem[j] == mem[2..len][j - 2];
    if i < len { assert mem[i] == NUL; }
  }

  /** A read request: busy, silent if too short, taken with its sender as the one to send to, or refused. */
  lemma ReadRequestOutcome(aton: AddrParser, s: Server, a: Arrival)
    requires a.p.Ok() && s.status == Running && HasOpcode(a.p, 1)
    ensures var r := Deliver(aton, s, a);
      if s.sending then Replied(Warned(s, a), a, Err("server busy"), r)
      else if a.p.len < 4 then r == Warned(s, a)
      else if OctetRequest(a.p.mem, a.p.len) then r == s.(last := a.from, sending := true)
      else Replied(s, a, Err(Missing(a.p.mem, a.p.len)), r)
  {
    if a.p.len >= 4 { MissingIsTold(a.p.mem, a.p.len); }
  }

  /** A write request: it abandons the transfer in progress, or is busy, silent, refused, or opens a transfer. */
  lemma WriteRequestOutcome(aton: AddrParser, s: Server, a: Arrival)
    requires a.p.Ok() && s.status == Running && HasOpcode(a.p, 2)
    ensures var r := Deliver(aton, s, a); var idle := s.(currBlock := 0);
      if s.currBlock != 0 then
        Replied(Warned(idle, a), a, Err("write request already in progress, abandoning"), r)
      else if s.sending then Replied(Warned(s, a), a, Err("server busy"), r)
      else if a.p.len < 4 then r == Warned(s, a)
      else if OctetRequest(a.p.mem, a.p.len) then Replied(s.(currBlock := 1), a, Ack(0), r)
      else Replied(s, a, Err(Missing(a.p.mem, a.p.len)), r)
  {
    if a.p.len >= 4 { MissingIsTold(a.p.mem, a.p.len); }
  }

  /** Why a data packet is not taken. */
  function DataRefusal(s: Server, p: Datagram): Option<string>
    requires |p.mem| >= 4
  {
    if s.currBlock == 0 then Some("no write request in progress")
    else if s.sending then Some("server busy")
    else if p.len > 516 then Some("too much data in one packet")
    else if NumberOf(p) != s.currBlock then Some("unexpected block number")
    else None
  }

  /**
   A data packet that is not taken draws its error text and changes nothing. One in turn whose bytes do not fit empties
   the buffer and ends the transfer; a full one that fits is stored, acknowledged, and the next awaited.
   */
  lemma DataOutcome(aton: AddrParser, s: Server, a: Arrival)
    requires a.p.Ok() && s.status == Running && HasOpcode(a.p, 3)
    ensures var r := Deliver(aton, s, a); var why := DataRefusal(s, a.p);
      if why.Some? then Replied(Warned(s, a), a, Err(why.value), r)
      else if |s.file| + a.p.len < 4 || |s.file| + a.p.len >= 4100 then
        && r.file == [] && r.currBlock == 0
        && Replied(Warned(s, a), a, Err("file too large"), r.(file := s.file, currBlock := s.currBlock))
      else if a.p.len < 4 then r == Warned(s, a).(status := Status.Undefined)
      else if a.p.len == 516 then
        var stored := s.(file := s.file + a.p.mem[4..516]);
        Replied(stored.(currBlock := (s.currBlock + 1) % 0x1_0000), a, Ack(s.currBlock), r)
      else r.parsed == s.parsed + [s.file + a.p.mem[4..a.p.len]]
  {
    assert a.p.Block() == NumberOf(a.p);
    DataDispatch(aton, Checked(s, a.p, a.from), a);
    if InTurn(s, a.p) && a.p.len < 516 { LastBlock(aton, s, a); }
  }

  lemma DataDispatch(aton: AddrParser, s: Server, a: Arrival)
    requires a.p.Ok() && a.p.Block() == NumberOf(a.p)
    ensures var r := ReceiveData(aton, s, a.p, a.from, a.saved); var why := DataRefusal(s, a.p);
      if why.Some? then Replied(s, a, Err(why.value), r)
      else if |s.file| + a.p.len < 4 || |s.file| + a.p.len >= 4100 then
        && r.file == [] && r.currBlock == 0
        && Replied(s, a, Err("file too large"), r.(file := s.file, currBlock := s.currBlock))
      else if a.p.len < 4 then r == s.(status := Status.Undefined)
      else if a.p.len == 516 then
        var stored := s.(file := s.file + a.p.mem[4..516]);
        Replied(stored.(currBlock := (s.currBlock + 1) % 0x1_0000), a, Ack(s.currBlock), r)
      else true
  {
  }
}
