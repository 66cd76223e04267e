/** What a client may conclude from the acknowledgements: the last block is acknowledged twice exactly on success. */
module TftpConfirm {
  import opened Text
  import opened Commands
  import opened TftpSpec
  import opened TftpTheorems
  import opened TftpTransfer

  predicate LastAck(out: seq<Sent>, k: nat) {
    |out| > 0 && out[|out| - 1].reply.Ack? && out[|out| - 1].reply.block == k
  }

  /** The last two things sent are acknowledgements of block `k`. */
  predicate AckedTwice(out: seq<Sent>, k: nat) {
    LastAck(out, k) && LastAck(out[..|out| - 1], k)
  }

  /** A text is carried out in full: good throughout, no reset, and saved. */
  predicate Succeeds(aton: AddrParser, text: seq<Ch>, saved: bool) {
    WholeGood(aton, text) && !AnyReset(aton, Lines(text).0) && saved
  }

  type Success = seq<Ch> -> bool

  function SuccessOf(aton: AddrParser, saved: bool): Success {
    (text: seq<Ch>) => Succeeds(aton, text, saved)
  }

  /** Running the commands sends at most an error text, and does so if they neither succeed nor stop the server. */
  lemma RunTells(aton: AddrParser, s: Server, from: Peer, saved: bool)
    requires s.status == Running
    ensures var (r, ok) := RunCommands(aton, s, from, saved);
      && r.currBlock == s.currBlock
      && (r.out == s.out || (|r.out| == |s.out| + 1 && r.out[..|s.out|] == s.out && r.out[|s.out|].reply.Err?))
      && (ok ==> r.out == s.out && r.status == Running)
      && (!ok && r.status == Running ==> r.out != s.out)
  {
  }

  /** The end of a transfer whose last block has just been acknowledged, the blocks before it once at most. */
  lemma FinishConfirms(aton: AddrParser, s: Server, from: Peer, saved: bool)
    requires s.status == Running && LastAck(s.out, s.currBlock) && !LastAck(s.out[..|s.out| - 1], s.currBlock)
    ensures AckedTwice(Finish(aton, s, from, saved).out, s.currBlock) <==> Succeeds(aton, s.file, saved)
  {
    ResetIff(aton, s, from, saved);
    FinishAcks(aton, s, from, saved);
  }

  lemma FinishAcks(aton: AddrParser, s: Server, from: Peer, saved: bool)
    requires s.status == Running && LastAck(s.out, s.currBlock) && !LastAck(s.out[..|s.out| - 1], s.currBlock)
    ensures AckedTwice(Finish(aton, s, from, saved).out, s.currBlock) <==> RunCommands(aton, s, from, saved).1
  {
    RunTells(aton, s, from, saved);
    var (s1, ok) := RunCommands(aton, s, from, saved);
    if ok {
      var out := Finish(aton, s, from, saved).out;
      assert out[..|out| - 1] == s.out;
    }
  }

  /**
   What the end of a transfer sends, besides the acknowledgement of its last block: that once more if the text succeeds,
   and otherwise an error text or nothing, never an acknowledgement.
   */
  lemma EndReplies(aton: AddrParser, s: Server, from: Peer, saved: bool)
    requires s.status == Running
    ensures var out := Finish(aton, s, from, saved).out;
      if Succeeds(aton, s.file, saved) then out == s.out + [Sent(from, Ack(s.currBlock), |s.file|)]
      else out == s.out || exists text :: out == s.out + [Sent(from, Err(text), |s.file|)]
  {
    ResetIff(aton, s, from, saved);
    RunReplies(aton, s, from, saved);
    EndAfterRun(aton, s, from, saved);
  }

  lemma RunReplies(aton: AddrParser, s: Server, from: Peer, saved: bool)
    requires s.status == Running
    ensures var (r, ok) := RunCommands(aton, s, from, saved);
      && r.currBlock == s.currBlock && r.file == s.file && (ok ==> r.out == s.out && r.status == Running)
      && (r.out == s.out || exists text :: r.out == s.out + [Sent(from, Err(text), |s.file|)])
  {
    RunTells(aton, s, from, saved);
    RunLeaves(aton, s, from, saved);
    var out := RunCommands(aton, s, from, saved).0.out;
    if out != s.out { assert out == s.out + [Sent(from, Err(out[|s.out|].reply.msg), |s.file|)]; }
  }

  lemma RunLeaves(aton: AddrParser, s: Server, from: Peer, saved: bool)
    requires s.status == Running
    ensures var r := RunCommands(aton, s, from, saved).0;
      && r.file == s.file
      && forall i :: |s.out| <= i < |r.out| ==> r.out[i].to == from && r.out[i].held == |s.file|
  {
  }

  lemma EndAfterRun(aton: AddrParser, s: Server, from: Peer, saved: bool)
    requires s.status == Running
    ensures var (r, ok) := RunCommands(aton, s, from, saved);
      Finish(aton, s, from, saved).out
      == r.out + if ok && r.status == Running then [Sent(from, Ack(r.currBlock), |r.file|)] else []
  {
  }

  /** How a receiver acknowledges: each full block once, and the last one twice exactly if its text succeeds. */
  ghost predicate Confirms(take: Taker, success: Success) {
    && (forall s: Server, body: seq<Ch> {:trigger take(s, Data(s.currBlock, body))} ::
          Expecting(s) && |body| == BLOCK && |s.file| + BLOCK < BUFFER_SIZE ==>
            LastAck(take(s, Data(s.currBlock, body)).out, s.currBlock))
    && (forall s: Server, body: seq<Ch> {:trigger take(s, Data(s.currBlock, body))} ::
          Expecting(s) && |body| < BLOCK && |s.file| + |body| < BUFFER_SIZE && LastAck(s.out, s.currBlock - 1) ==>
            (AckedTwice(take(s, Data(s.currBlock, body)).out, s.currBlock) <==> success(s.file + body)))
  }

  lemma FullConfirms(aton: AddrParser, s: Server, body: seq<Ch>, from: Peer, saved: bool)
    requires Expecting(s) && |body| == BLOCK && |s.file| + BLOCK < BUFFER_SIZE
    ensures LastAck(Deliver(aton, s, DataArrival(Data(s.currBlock, body), from, saved)).out, s.currBlock)
  {
  }

  lemma LastConfirms(aton: AddrParser, s: Server, body: seq<Ch>, from: Peer, saved: bool)
    requires Expecting(s) && |body| < BLOCK && |s.file| + |body| < BUFFER_SIZE && LastAck(s.out, s.currBlock - 1)
    ensures AckedTwice(Deliver(aton, s, DataArrival(Data(s.currBlock, body), from, saved)).out, s.currBlock)
      <==> Succeeds(aton, s.file + body, saved)
  {
    var stored := Tell(s.(file := s.file + body), from, Ack(s.currBlock));
    assert stored.out[..|stored.out| - 1] == s.out;
    FinishConfirms(aton, stored, from, saved);
  }

  lemma ServerConfirms(aton: AddrParser, from: Peer, saved: bool)
    ensures Confirms(DeliverFrom(aton, from, saved), SuccessOf(aton, saved))
  {
    var take := DeliverFrom(aton, from, saved);
    forall s: Server, body: seq<Ch> | Expecting(s) && |body| == BLOCK && |s.file| + BLOCK < BUFFER_SIZE
      ensures LastAck(take(s, Data(s.currBlock, body)).out, s.currBlock)
    {
      FullConfirms(aton, s, body, from, saved);
    }
    forall s: Server, body: seq<Ch> |
      Expecting(s) && |body| < BLOCK && |s.file| + |body| < BUFFER_SIZE && LastAck(s.out, s.currBlock - 1)
      ensures AckedTwice(take(s, Data(s.currBlock, body)).out, s.currBlock) <==> SuccessOf(aton, saved)(s.file + body)
    {
      LastConfirms(aton, s, body, from, saved);
    }
  }

  /** The packets of a text that fits: the last of them is acknowledged twice exactly if the whole text succeeds. */
  lemma {:induction false} PacketsConfirm(take: Taker, effect: Effect, success: Success, s: Server, ps: seq<Reply>,
                                          text: seq<Ch>, base: seq<Ch>, i: nat)
    requires Receives(take, effect) && Confirms(take, success) && Expecting(s) && BlocksOf(ps, text, 1) && i < |ps|
    requires s.currBlock == i + 1 && s.file == base + text[..BLOCK * i] && LastAck(s.out, i)
    requires |base| + |text| < BUFFER_SIZE
    ensures AckedTwice(Feed(take, s, ps, i).out, |ps|) <==> success(base + text)
    decreases |ps| - i
  {
    var next := take(s, ps[i]);
    assert ps[i] == Data(s.currBlock, BlockAt(text, i, |ps|));
    if i == |ps| - 1 {
      JoinAt(base, text, s.file, BLOCK * i, |text|);
      assert Feed(take, s, ps, i) == next;
    } else {
      BlockInTurn(take, effect, s, ps, text, base, i);
      PacketsConfirm(take, effect, success, next, ps, text, base, i + 1);
    }
  }

  /**
   An upload to an idle server of a text that fits behind what the buffer holds is acknowledged twice at its last
   block if and only if every line is a good, newline-ended command, none is `reset`, and the flash write succeeded.
   */
  lemma UploadConfirmed(aton: AddrParser, s: Server, name: seq<Ch>, text: seq<Ch>, from: Peer, saved: bool)
    requires s.status == Running && !s.sending && s.currBlock == 0 && NUL !in name && |s.file| + |text| < BUFFER_SIZE
    ensures var r := Feed(DeliverFrom(aton, from, saved), Deliver(aton, s, WriteRequest(name, from)),
                      Packets(text, 1), 0);
      AckedTwice(r.out, |Packets(text, 1)|) <==> Succeeds(aton, s.file + text, saved)
  {
    RequestAccepted(aton, s, name, from);
    var open := Tell(s, from, Ack(0)).(currBlock := 1);
    ServerReceives(aton, from, saved);
    ServerConfirms(aton, from, saved);
    PacketsMeaning(text, 1);
    PacketsConfirm(DeliverFrom(aton, from, saved), EffectOf(aton), SuccessOf(aton, saved), open, Packets(text, 1), text,
                   s.file, 0);
  }
}
