/** Sending a text block by block and receiving it again; the sender's waits, step by step. */
module TftpTransfer {
  import opened Basics
  import opened Text
  import opened Commands
  import opened TftpSpec
  import opened TftpTheorems

  // ---- splitting ----------------------------------------------------------------------------------------------------

  function Bodies(ps: seq<Reply>): (r: seq<seq<Ch>>)
    requires forall i :: 0 <= i < |ps| ==> ps[i].Data?
    ensures |r| == |ps| && forall i :: 0 <= i < |r| ==> r[i] == ps[i].body
  {
    seq(|ps|, i requires 0 <= i < |ps| => ps[i].body)
  }

  /** The `i`-th of the `n` blocks of a text. */
  function BlockAt(text: seq<Ch>, i: nat, n: nat): seq<Ch>
    requires i < n == |text| / BLOCK + 1
  {
    if i < n - 1 then text[BLOCK * i..BLOCK * i + BLOCK] else text[BLOCK * i..]
  }

  lemma BlockAtTail(text: seq<Ch>, i: nat, n: nat)
    requires 1 <= i < n == |text| / BLOCK + 1
    ensures BlockAt(text[BLOCK..], i - 1, n - 1) == BlockAt(text, i, n)
  {
  }

  /** `ps` are the blocks of `text`, numbered from `k`: one more than its full blocks, only the last one not full. */
  ghost predicate BlocksOf(ps: seq<Reply>, text: seq<Ch>, k: Half) {
    && |ps| == |text| / BLOCK + 1
    && forall i :: 0 <= i < |ps| ==> ps[i] == Data((k + i) % 0x1_0000, BlockAt(text, i, |ps|))
  }

  lemma {:induction false} PacketsMeaning(text: seq<Ch>, k: Half)
    ensures BlocksOf(Packets(text, k), text, k)
    decreases |text|
  {
    if |text| > 511 {
      var next := (k + 1) % 0x1_0000;
      var ps, rest := Packets(text, k), Packets(text[BLOCK..], next);
      PacketsMeaning(text[BLOCK..], next);
      assert ps[0] == Data(k, BlockAt(text, 0, |ps|));
      forall i | 1 <= i < |ps|
        ensures ps[i] == Data((k + i) % 0x1_0000, BlockAt(text, i, |ps|))
      {
        LaterBlock(text, k, rest, i);
      }
    }
  }

  lemma LaterBlock(text: seq<Ch>, k: Half, rest: seq<Reply>, i: nat)
    requires |text| > 511 && BlocksOf(rest, text[BLOCK..], (k + 1) % 0x1_0000) && 1 <= i <= |rest|
    ensures rest[i - 1] == Data((k + i) % 0x1_0000, BlockAt(text, i, |rest| + 1))
  {
    BlockAtTail(text, i, |rest| + 1);
    NumberAfter(k, i);
  }

  lemma NumberAfter(k: Half, i: nat)
    requires i >= 1
    ensures ((k + 1) % 0x1_0000 + (i - 1)) % 0x1_0000 == (k + i) % 0x1_0000
  {
  }

  /** Joined again, their bodies are the text. */
  lemma {:induction false} PacketsJoin(text: seq<Ch>, k: Half)
    ensures Concat(Bodies(Packets(text, k))) == text
    decreases |text|
  {
    var ps := Packets(text, k);
    if |text| > 511 {
      var rest := Packets(text[BLOCK..], (k + 1) % 0x1_0000);
      PacketsJoin(text[BLOCK..], (k + 1) % 0x1_0000);
      assert Bodies(ps) == [text[..BLOCK]] + Bodies(rest);
      assert Bodies(ps)[1..] == Bodies(rest);
    } else {
      assert Bodies(ps) == [text];
      assert Bodies(ps)[1..] == [];
    }
  }

  // ---- the round trip -----------------------------------------------------------------------------------------------

  function Hi(h: Half): Ch {
    (h / 256) as char
  }

  function Lo(h: Half): Ch {
    (h % 256) as char
  }

  /** A data packet as it travels. */
  function DataArrival(d: Reply, from: Peer, saved: bool): (a: Arrival)
    requires d.Data?
    ensures a.p.Ok() && a.p.Opcode() == DATA && a.p.Block() == d.block && a.p.Body() == d.body && a.p.len == a.p.total
  {
    var mem := [Hi(DATA), Lo(DATA), Hi(d.block), Lo(d.block)] + d.body + [NUL];
    assert mem[4 + |d.body|..] == [NUL];
    Arrival(Datagram(4 + |d.body|, 4 + |d.body|, mem), from, saved)
  }

  /** How a receiver takes one packet. */
  type Taker = (Server, Reply) -> Server

  function DeliverFrom(aton: AddrParser, from: Peer, saved: bool): Taker {
    (s: Server, d: Reply) => if d.Data? then Deliver(aton, s, DataArrival(d, from, saved)) else s
  }

  /** The packets from the `i`-th on arriving one after the other. */
  function Feed(take: Taker, s: Server, ps: seq<Reply>, i: nat): Server
    requires i <= |ps|
    decreases |ps| - i
  {
    if i == |ps| then s else Feed(take, take(s, ps[i]), ps, i + 1)
  }

  function WriteRequest(name: seq<Ch>, from: Peer): (a: Arrival)
    ensures a.p.Ok() && a.p.Opcode() == WRQ && a.p.len == a.p.total
  {
    var mem := RequestMemory([Hi(WRQ), Lo(WRQ)], name, "octet", [NUL]);
    assert mem[9 + |name|..] == [NUL];
    Arrival(Datagram(9 + |name|, 9 + |name|, mem), from, true)
  }

  /** The server is waiting for block `s.currBlock`, with room left for the blocks before it at least. */
  predicate Expecting(s: Server) {
    s.status == Running && !s.sending && 1 <= s.currBlock && BLOCK * (s.currBlock - 1) <= |s.file| < BUFFER_SIZE
  }

  /** A full block in turn that fits is stored, and the next one awaited. */
  lemma FullBlock(aton: AddrParser, s: Server, d: Reply, from: Peer, saved: bool)
    requires Expecting(s) && d.Data? && |d.body| == BLOCK && d.block == s.currBlock && |s.file| + BLOCK < BUFFER_SIZE
    ensures var r := Deliver(aton, s, DataArrival(d, from, saved));
      && Expecting(r) && r.currBlock == s.currBlock + 1 && r.file == s.file + d.body
      && r.parsed == s.parsed && r.settings == s.settings
  {
  }

  /** A block in turn that does not fit empties the buffer and makes the server idle. */
  lemma TooLarge(aton: AddrParser, s: Server, d: Reply, from: Peer, saved: bool)
    requires Expecting(s) && d.Data? && |d.body| <= BLOCK && d.block == s.currBlock
    requires |s.file| + |d.body| >= BUFFER_SIZE
    ensures Emptied(s, Deliver(aton, s, DataArrival(d, from, saved)))
  {
  }

  lemma IdleIgnoresOne(aton: AddrParser, s: Server, d: Reply, from: Peer, saved: bool)
    requires s.currBlock == 0 && d.Data?
    ensures Ignored(s, Deliver(aton, s, DataArrival(d, from, saved)))
  {
  }

  /** Nothing was parsed or set; the server is as it was but for what it has sent. */
  predicate Ignored(s: Server, r: Server) {
    r == s.(out := r.out)
  }

  /** Nothing was parsed or set; the buffer is empty and the server idle. */
  predicate Emptied(s: Server, r: Server) {
    r == s.(out := r.out, file := [], currBlock := 0)
  }

  /** A transfer is over: unless the device restarts, the buffer is empty and the server idle. */
  predicate Over(s: Server, r: Server) {
    r.sending == s.sending && (r.status == Running ==> r.file == [] && r.currBlock == 0)
  }

  /** The parser's calls after one more on `whole`, which is made only if that is within the buffer. */
  function Called(s: Server, whole: seq<Ch>): seq<seq<Ch>> {
    if |whole| < BUFFER_SIZE then s.parsed + [whole] else s.parsed
  }

  /** What a text does to the settings. */
  type Effect = (seq<Ch>, Settings) -> Settings

  /** The settings after the parser's call, if it is made. */
  function SettingsAfter(effect: Effect, s: Server, whole: seq<Ch>): Settings {
    if |whole| < BUFFER_SIZE then effect(whole, s.settings) else s.settings
  }

  function EffectOf(aton: AddrParser): Effect {
    (text: seq<Ch>, settings: Settings) => Parse(aton, text, settings, false).settings
  }

  lemma LastPacket(aton: AddrParser, s: Server, text: seq<Ch>, from: Peer, saved: bool)
    requires Expecting(s) && |text| <= 511
    ensures var r := Deliver(aton, s, DataArrival(Data(s.currBlock, text), from, saved));
      && r.parsed == Called(s, s.file + text) && r.settings == SettingsAfter(EffectOf(aton), s, s.file + text)
      && Over(s, r) && (|s.file| + |text| >= BUFFER_SIZE ==> Emptied(s, r))
  {
    var d := Data(s.currBlock, text);
    if |s.file| + |text| < BUFFER_SIZE {
      LastBlock(aton, s, DataArrival(d, from, saved));
    } else {
      TooLarge(aton, s, d, from, saved);
    }
  }

  /** A full block that fits has been stored and the next is awaited. */
  predicate Took(s: Server, body: seq<Ch>, r: Server) {
    && Expecting(r) && r.currBlock == s.currBlock + 1 && r.file == s.file + body
    && r.parsed == s.parsed && r.settings == s.settings
  }

  /** What a transfer needs of the receiver: how it takes full blocks, the last block, and blocks it does not expect. */
  ghost predicate Receives(take: Taker, effect: Effect) {
    && (forall s: Server, body: seq<Ch> {:trigger take(s, Data(s.currBlock, body))} ::
          Expecting(s) && |body| == BLOCK && |s.file| + BLOCK < BUFFER_SIZE ==>
            Took(s, body, take(s, Data(s.currBlock, body))))
    && (forall s: Server, body: seq<Ch> {:trigger take(s, Data(s.currBlock, body))} ::
          Expecting(s) && |body| == BLOCK && |s.file| + BLOCK >= BUFFER_SIZE ==>
            Emptied(s, take(s, Data(s.currBlock, body))))
    && (forall s: Server, body: seq<Ch> {:trigger take(s, Data(s.currBlock, body))} ::
          Expecting(s) && |body| < BLOCK ==>
            var r := take(s, Data(s.currBlock, body));
            && r.parsed == Called(s, s.file + body) && r.settings == SettingsAfter(effect, s, s.file + body)
            && Over(s, r) && (|s.file| + |body| >= BUFFER_SIZE ==> Emptied(s, r)))
    && (forall s: Server, k: Half, body: seq<Ch> {:trigger take(s, Data(k, body))} ::
          s.currBlock == 0 ==> Ignored(s, take(s, Data(k, body))))
  }

  /** The server of main.c is such a receiver. */
  lemma ServerReceives(aton: AddrParser, from: Peer, saved: bool)
    ensures Receives(DeliverFrom(aton, from, saved), EffectOf(aton))
  {
    var take := DeliverFrom(aton, from, saved);
    forall s: Server, body: seq<Ch> | Expecting(s) && |body| == BLOCK && |s.file| + BLOCK < BUFFER_SIZE
      ensures Took(s, body, take(s, Data(s.currBlock, body)))
    {
      FullBlock(aton, s, Data(s.currBlock, body), from, saved);
    }
    forall s: Server, body: seq<Ch> | Expecting(s) && |body| == BLOCK && |s.file| + BLOCK >= BUFFER_SIZE
      ensures Emptied(s, take(s, Data(s.currBlock, body)))
    {
      TooLarge(aton, s, Data(s.currBlock, body), from, saved);
    }
    forall s: Server, body: seq<Ch> | Expecting(s) && |body| < BLOCK
      ensures var r := take(s, Data(s.currBlock, body));
        && r.parsed == Called(s, s.file + body) && r.settings == SettingsAfter(EffectOf(aton), s, s.file + body)
        && Over(s, r) && (|s.file| + |body| >= BUFFER_SIZE ==> Emptied(s, r))
    {
      LastPacket(aton, s, body, from, saved);
    }
    forall s: Server, k: Half, body: seq<Ch> | s.currBlock == 0
      ensures Ignored(s, take(s, Data(k, body)))
    {
      IdleIgnoresOne(aton, s, Data(k, body), from, saved);
    }
  }

  lemma {:induction false} IdleIgnoresData(take: Taker, effect: Effect, s: Server, ps: seq<Reply>, i: nat)
    requires Receives(take, effect) && s.currBlock == 0 && i <= |ps| && forall j :: 0 <= j < |ps| ==> ps[j].Data?
    ensures Ignored(s, Feed(take, s, ps, i))
    decreases |ps| - i
  {
    if i < |ps| {
      assert ps[i] == Data(ps[i].block, ps[i].body);
      IdleIgnoresData(take, effect, take(s, ps[i]), ps, i + 1);
    }
  }

  lemma JoinAt(base: seq<Ch>, text: seq<Ch>, file: seq<Ch>, p: nat, q: nat)
    requires p <= q <= |text| && file == base + text[..p]
    ensures file + text[p..q] == base + text[..q]
    ensures q == |text| ==> text[p..q] == text[p..] && text[..q] == text
  {
  }

  /** Block `i` in turn, after the first `i` blocks of `text` were stored behind `base`. */
  lemma BlockInTurn(take: Taker, effect: Effect, s: Server, ps: seq<Reply>, text: seq<Ch>, base: seq<Ch>, i: nat)
    requires Receives(take, effect) && Expecting(s) && BlocksOf(ps, text, 1) && i < |ps| - 1
    requires s.currBlock == i + 1 && s.file == base + text[..BLOCK * i]
    ensures var r := take(s, ps[i]);
      if |s.file| + BLOCK < BUFFER_SIZE then Took(s, ps[i].body, r) && r.file == base + text[..BLOCK * (i + 1)]
      else Emptied(s, r)
  {
    assert ps[i] == Data(s.currBlock, BlockAt(text, i, |ps|));
    JoinAt(base, text, s.file, BLOCK * i, BLOCK * i + BLOCK);
  }

  lemma FinalBlock(take: Taker, effect: Effect, s: Server, ps: seq<Reply>, text: seq<Ch>, base: seq<Ch>, i: nat)
    requires Receives(take, effect) && Expecting(s) && BlocksOf(ps, text, 1) && i == |ps| - 1
    requires s.currBlock == i + 1 && s.file == base + text[..BLOCK * i]
    ensures var r := take(s, ps[i]);
      && r.parsed == Called(s, base + text) && r.settings == SettingsAfter(effect, s, base + text)
      && Over(s, r) && (|base| + |text| >= BUFFER_SIZE ==> Emptied(s, r))
  {
    assert ps[i] == Data(s.currBlock, BlockAt(text, i, |ps|));
    JoinAt(base, text, s.file, BLOCK * i, |text|);
  }

  /**
   The packets of a text, sent to a server waiting for the first of them: the text is parsed whole and once, after
   what the buffer held already, if both fit together; otherwise nothing is parsed. Either way the buffer is empty and
   the server idle afterwards, unless the device restarts.
   */
  lemma {:induction false} PacketsParse(take: Taker, effect: Effect, s: Server, ps: seq<Reply>, text: seq<Ch>,
                                        base: seq<Ch>, i: nat)
    requires Receives(take, effect) && Expecting(s) && BlocksOf(ps, text, 1) && i < |ps|
    requires s.currBlock == i + 1 && s.file == base + text[..BLOCK * i]
    ensures var r := Feed(take, s, ps, i);
      && r.parsed == Called(s, base + text) && r.settings == SettingsAfter(effect, s, base + text)
      && Over(s, r) && (|base| + |text| >= BUFFER_SIZE ==> r.status == Running)
    decreases |ps| - i
  {
    var next := take(s, ps[i]);
    if i == |ps| - 1 {
      FinalBlock(take, effect, s, ps, text, base, i);
    } else {
      BlockInTurn(take, effect, s, ps, text, base, i);
      if |s.file| + BLOCK < BUFFER_SIZE {
        PacketsParse(take, effect, next, ps, text, base, i + 1);
      } else {
        IdleIgnoresData(take, effect, next, ps, i + 1);
      }
    }
  }

  /** A write request to an idle server is accepted; what is left in the buffer from an abandoned transfer stays. */
  lemma RequestAccepted(aton: AddrParser, s: Server, name: seq<Ch>, from: Peer)
    requires s.status == Running && !s.sending && s.currBlock == 0 && NUL !in name
    ensures Deliver(aton, s, WriteRequest(name, from)) == Tell(s, from, Ack(0)).(currBlock := 1)
  {
    OctetIff([Hi(WRQ), Lo(WRQ)], name, "octet", [NUL]);
  }

  /**
   The round trip. A text sent in packets after an accepted write request is handed to the parser exactly if it
   fits with what the buffer already held; what the parser gets is that remainder followed by the text.
   */
  lemma RoundTrip(aton: AddrParser, s: Server, name: seq<Ch>, text: seq<Ch>, from: Peer, saved: bool)
    requires s.status == Running && !s.sending && s.currBlock == 0 && |s.file| < BUFFER_SIZE && NUL !in name
    ensures var r := Feed(DeliverFrom(aton, from, saved), Deliver(aton, s, WriteRequest(name, from)),
                      Packets(text, 1), 0);
      && r.parsed == Called(s, s.file + text) && r.settings == SettingsAfter(EffectOf(aton), s, s.file + text)
      && Over(s, r) && (|s.file| + |text| >= BUFFER_SIZE ==> r.status == Running)
  {
    RequestAccepted(aton, s, name, from);
    var open := Tell(s, from, Ack(0)).(currBlock := 1);
    var take := DeliverFrom(aton, from, saved);
    ServerReceives(aton, from, saved);
    PacketsMeaning(text, 1);
    PacketsParse(take, EffectOf(aton), open, Packets(text, 1), text, s.file, 0);
  }

  lemma RequestAbandons(aton: AddrParser, s: Server, name: seq<Ch>, from: Peer)
    requires s.status == Running && s.currBlock > 0
    ensures var idle := Deliver(aton, s, WriteRequest(name, from));
      && idle == s.(out := idle.out, currBlock := 0)
  {
  }

  /** The round trip for a text that fits. */
  lemma FittingTrip(aton: AddrParser, s: Server, name: seq<Ch>, text: seq<Ch>, from: Peer, saved: bool)
    requires s.status == Running && !s.sending && s.currBlock == 0 && NUL !in name && |s.file| + |text| < BUFFER_SIZE
    ensures Feed(DeliverFrom(aton, from, saved), Deliver(aton, s, WriteRequest(name, from)), Packets(text, 1), 0).parsed
      == s.parsed + [s.file + text]
  {
    RoundTrip(aton, s, name, text, from, saved);
  }

  /**
   Abandoning a transfer keeps its blocks: a second write request in its course makes the server idle with the
   buffer as it was, so the next transfer's text is parsed after the abandoned one's.
   */
  lemma AbandonedBlocksStay(aton: AddrParser, s: Server, name: seq<Ch>, text: seq<Ch>, from: Peer, saved: bool)
    requires s.status == Running && !s.sending && s.currBlock > 0 && NUL !in name && |s.file| + |text| < BUFFER_SIZE
    ensures var idle := Deliver(aton, s, WriteRequest(name, from));
      Feed(DeliverFrom(aton, from, saved), Deliver(aton, idle, WriteRequest(name, from)), Packets(text, 1), 0).parsed
      == s.parsed + [s.file + text]
  {
    var idle := Deliver(aton, s, WriteRequest(name, from));
    RequestAbandons(aton, s, name, from);
    FittingTrip(aton, idle, name, text, from, saved);
  }

  /** An upload to an idle server: the write request and the packets of the text. */
  function Upload(aton: AddrParser, s: Server, name: seq<Ch>, text: seq<Ch>, from: Peer, saved: bool): Server {
    Feed(DeliverFrom(aton, from, saved), Deliver(aton, s, WriteRequest(name, from)), Packets(text, 1), 0)
  }

  /**
   After an upload the next one stands alone. Whether the first fitted or not, if the device has not restarted the next
   text is parsed as exactly itself; nothing of the first is left in the buffer.
   */
  lemma NextUploadStandsAlone(aton: AddrParser, s: Server, name: seq<Ch>, first: seq<Ch>, next: seq<Ch>,
                              from: Peer, saved: bool)
    requires s.status == Running && !s.sending && s.currBlock == 0 && |s.file| < BUFFER_SIZE && NUL !in name
    requires |next| < BUFFER_SIZE
    ensures var r := Upload(aton, s, name, first, from, saved);
      r.status == Running ==> Upload(aton, r, name, next, from, saved).parsed == r.parsed + [next]
  {
    var r := Upload(aton, s, name, first, from, saved);
    RoundTrip(aton, s, name, first, from, saved);
    if r.status == Running {
      RoundTrip(aton, r, name, next, from, saved);
      assert [] + next == next;
    }
  }

  /** An upload that does not fit leaves no trace but its error: nothing parsed, nothing set, the device running. */
  lemma TooLongLeavesNothing(aton: AddrParser, s: Server, name: seq<Ch>, text: seq<Ch>, from: Peer, saved: bool)
    requires s.status == Running && !s.sending && s.currBlock == 0 && |s.file| < BUFFER_SIZE && NUL !in name
    requires |s.file| + |text| >= BUFFER_SIZE
    ensures var r := Upload(aton, s, name, text, from, saved);
      && r.parsed == s.parsed && r.settings == s.settings && r.file == [] && r.currBlock == 0 && r.status == Running
  {
    RoundTrip(aton, s, name, text, from, saved);
  }
}
