/** The TFTP configuration server of main.c as functions: one received datagram, one transfer sent. */
module TftpSpec {
  import opened Basics
  import opened Text
  import opened Commands

  const RRQ := 1
  const WRQ := 2
  const DATA := 3
  const ACK := 4
  const BUFFER_SIZE := 4096
  const BLOCK := 512

  datatype Peer = Peer(addr: Word, port: Half)

  /** What the server sends: acknowledgements, error texts and data blocks. */
  datatype Reply = Ack(block: Half) | Err(msg: string) | Data(block: Half, body: seq<Ch>)

  /** A reply as sent, with the number of bytes the receive buffer held at that moment. */
  datatype Sent = Sent(to: Peer, reply: Reply, held: nat)

  /** A received datagram: its length, the length of the whole chain, and the memory its payload lies in. */
  datatype Datagram = Datagram(len: nat, total: nat, mem: seq<Ch>) {

    /** The header can be read, past the payload if need be, and the memory past it holds a zero byte somewhere. */
    ghost predicate Ok() {
      4 <= |mem| && len <= |mem| && NUL in mem[len..]
    }

    function Opcode(): Half
      requires |mem| >= 4
    {
      Be16(mem[0], mem[1])
    }

    /** The block number of a data or acknowledgement packet. */
    function Block(): Half
      requires |mem| >= 4
    {
      Be16(mem[2], mem[3])
    }

    function Body(): seq<Ch>
      requires len <= |mem|
    {
      if len < 4 then [] else mem[4..len]
    }
  }

  /** ntohs of two header bytes. */
  function Be16(hi: Ch, lo: Ch): Half {
    256 * (hi as int % 256) + lo as int % 256
  }

  // ---- the mode check -----------------------------------------------------------------------------------------------

  /** Why a request is turned down, or nothing. */
  function OctetError(mem: seq<Ch>, len: nat): Option<string>
    requires 4 <= len <= |mem|
  {
    var i := 2 + Find(mem[2..len], NUL);
    if i == len then Some("no filename given")
    else if mem[len - 1] != NUL then Some("mode string not null-terminated")
    else if LowerAll(CStr(mem[i + 1..])) != "octet" then Some("only supported mode is octet")
    else None
  }

  // ---- receiving ----------------------------------------------------------------------------------------------------

  datatype Status = Running | Restarting | Undefined

  /**
   The server's globals: `file` is the filled part of the buffer. `net` is the configuration the network interface
   was last set up from. `out` and `parsed` record what was sent and which texts the command parser was called on.
   */
  datatype Server = Server(currBlock: Half, file: seq<Ch>, ackNum: Half, sending: bool, last: Peer,
                           settings: Settings, net: Settings, out: seq<Sent>, parsed: seq<seq<Ch>>, status: Status)

  function Tell(s: Server, to: Peer, r: Reply): Server {
    s.(out := s.out + [Sent(to, r, |s.file|)])
  }

  /** A write request. The mode check turns a packet shorter than four bytes down without a word. */
  function ReceiveWrite(s: Server, p: Datagram, from: Peer): Server
    requires p.Ok()
  {
    if s.currBlock != 0 then Tell(s, from, Err("write request already in progress, abandoning")).(currBlock := 0)
    else if s.sending then Tell(s, from, Err("server busy"))
    else if p.len < 4 then s
    else
      var e := OctetError(p.mem, p.len);
      if e.Some? then Tell(s, from, Err(e.value)) else Tell(s, from, Ack(0)).(currBlock := 1)
  }

  /**
   Parse what was stored, set up the interface, save, perhaps reset; with the value the parser returns. A reset never
   returns, and a command without its value has no defined effect.
   */
  function RunCommands(aton: AddrParser, s: Server, from: Peer, saved: bool): (Server, bool) {
    var r := Parse(aton, s.file, s.settings, false);
    var s1 := s.(settings := r.settings, parsed := s.parsed + [s.file]);
    match r.verdict
    case Undefined => (s1.(status := Status.Undefined), false)
    case Rejected(msg) => (Tell(s1, from, Err(msg)), false)
    case Accepted =>
      var s0 := s1.(net := r.settings);
      var s2 := if saved then s0 else Tell(s0, from, Err("failed to save configuration to flash"));
      if r.reset then (s2.(status := Restarting), false) else (s2, saved)
  }

  /** The end of a transfer: run the commands, acknowledge again if they succeeded, and be idle. */
  function Finish(aton: AddrParser, s: Server, from: Peer, saved: bool): Server {
    var (s1, ok) := RunCommands(aton, s, from, saved);
    if s1.status != Running then s1
    else (if ok then Tell(s1, from, Ack(s1.currBlock)) else s1).(file := [], currBlock := 0)
  }

  /** Why a data packet is turned down, or nothing. The size check is in unsigned arithmetic. */
  function DataError(s: Server, p: Datagram): Option<string>
    requires p.Ok()
  {
    if s.currBlock == 0 then Some("no write request in progress")
    else if s.sending then Some("server busy")
    else if p.len - 4 > BLOCK then Some("too much data in one packet")
    else if p.Block() != s.currBlock then Some("unexpected block number")
    else if |s.file| + p.len < 4 || |s.file| + p.len - 4 >= BUFFER_SIZE then Some("file too large")
    else None
  }

  /** A data packet; one of less than four bytes that is not turned down makes the length to copy wrap around. */
  function ReceiveData(aton: AddrParser, s: Server, p: Datagram, from: Peer, saved: bool): Server
    requires p.Ok()
  {
    var e := DataError(s, p);
    if e.Some? then
      var told := Tell(s, from, Err(e.value));
      if e.value == "file too large" then told.(file := [], currBlock := 0) else told
    else if p.len < 4 then s.(status := Status.Undefined)
    else
      var stored := Tell(s.(file := s.file + p.Body()), from, Ack(s.currBlock));
      if p.len - 4 < BLOCK then Finish(aton, stored, from, saved)
      else stored.(currBlock := (s.currBlock + 1) % 0x1_0000)
  }

  function ReceiveRead(s: Server, p: Datagram, from: Peer): Server
    requires p.Ok()
  {
    if s.sending then Tell(s, from, Err("server busy"))
    else if p.len < 4 then s
    else
      var e := OctetError(p.mem, p.len);
      if e.Some? then Tell(s, from, Err(e.value)) else s.(last := from, sending := true)
  }

  /** The size check at the start of the callback, which only tells the sender. */
  function Checked(s: Server, p: Datagram, from: Peer): Server {
    if p.len < 4 then Tell(s, from, Err("packet too small")) else s
  }

  /** The receive callback; `saved` is what a flash write, if it comes to one, returns. */
  function Receive(aton: AddrParser, s: Server, p: Datagram, from: Peer, saved: bool): Server
    requires p.Ok()
  {
    if s.status != Running then s
    else if p.len != p.total then Tell(s, from, Err("cannot fragment packets"))
    else Dispatch(aton, Checked(s, p, from), p, from, saved)
  }

  function Dispatch(aton: AddrParser, s: Server, p: Datagram, from: Peer, saved: bool): Server
    requires p.Ok()
  {
    if p.Opcode() == WRQ then ReceiveWrite(s, p, from)
    else if p.Opcode() == DATA then ReceiveData(aton, s, p, from, saved)
    else if p.Opcode() == RRQ then ReceiveRead(s, p, from)
    else if p.Opcode() == ACK then s.(ackNum := p.Block())
    else Tell(s, from, Err("unsupported opcode"))
  }

  // ---- sending ------------------------------------------------------------------------------------------------------

  /** The data packets of a text, the first numbered `k`: full blocks, then one that is not full. */
  function Packets(text: seq<Ch>, k: Half): (ps: seq<Reply>)
    ensures |ps| == |text| / BLOCK + 1 && forall i :: 0 <= i < |ps| ==> ps[i].Data?
    decreases |text|
  {
    if |text| > 511 then [Data(k, text[..BLOCK])] + Packets(text[BLOCK..], (k + 1) % 0x1_0000)
    else [Data(k, text)]
  }

  /** What goes out for a text, given which waits end with the acknowledgement; the first that does not ends it. */
  function Outgoing(text: seq<Ch>, k: Half, waits: seq<bool>): (r: seq<Reply>)
    ensures |r| > 0
    decreases |text|
  {
    if |text| <= 511 then [Data(k, text)]
    else if waits != [] && !waits[0] then [Data(k, text[..BLOCK]), Err("timed out waiting for acknowledgment")]
    else [Data(k, text[..BLOCK])] + Outgoing(text[BLOCK..], (k + 1) % 0x1_0000, if waits == [] then [] else waits[1..])
  }

  function Addressed(ps: seq<Reply>, to: Peer, held: nat): (r: seq<Sent>)
    ensures |r| == |ps| && forall i :: 0 <= i < |r| ==> r[i] == Sent(to, ps[i], held)
  {
    seq(|ps|, i requires 0 <= i < |ps| => Sent(to, ps[i], held))
  }

  /** With every wait acknowledged, exactly the packets of the text go out, in order. */
  lemma {:induction false} OutgoingIsPackets(text: seq<Ch>, k: Half, waits: seq<bool>)
    requires forall i :: 0 <= i < |waits| ==> waits[i]
    ensures Outgoing(text, k, waits) == Packets(text, k)
    decreases |text|
  {
    if |text| > 511 {
      OutgoingIsPackets(text[BLOCK..], (k + 1) % 0x1_0000, if waits == [] then [] else waits[1..]);
    }
  }

  /** When the wait for block `i` is the first to fail, the blocks up to it go out, then the error text, and no more. */
  lemma {:induction false} OutgoingStops(text: seq<Ch>, k: Half, waits: seq<bool>, i: nat)
    requires i < |waits| && !waits[i] && (forall j :: 0 <= j < i ==> waits[j]) && BLOCK * (i + 1) <= |text|
    ensures Outgoing(text, k, waits)
      == Packets(text, k)[..i + 1] + [Err("timed out waiting for acknowledgment")]
    decreases i
  {
    var rest := Packets(text[BLOCK..], (k + 1) % 0x1_0000);
    if i > 0 {
      OutgoingStops(text[BLOCK..], (k + 1) % 0x1_0000, waits[1..], i - 1);
      assert Packets(text, k)[..i + 1] == [Data(k, text[..BLOCK])] + rest[..i];
    } else {
      assert Packets(text, k)[..1] == [Data(k, text[..BLOCK])];
    }
  }
}
