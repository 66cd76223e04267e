/** The polled full-duplex exchange of the SPI master: one word ahead, replies stored byte by byte. */
module SpiPolling {
  import opened Basics

  /** The channel and its slave: every word shifted out shifts a reply in, which waits to be read. */
  class Channel {
    /** The slave's reply to the i-th word. */
    const slave: (nat, Half) -> Half
    var sent: seq<Half>
    var waiting: seq<Half>

    constructor (slave: (nat, Half) -> Half)
      ensures this.slave == slave && sent == [] && waiting == []
    {
      this.slave := slave;
      sent, waiting := [], [];
    }

    method Put(w: Half)
      modifies this
      ensures sent == old(sent) + [w] && waiting == old(waiting) + [slave(|old(sent)|, w)]
    {
      waiting := waiting + [slave(|sent|, w)];
      sent := sent + [w];
    }

    /** Reading is only defined when a reply is there; the driver polls until one is. */
    method Get() returns (w: Half)
      requires waiting != []
      modifies this`waiting
      ensures w == old(waiting)[0] && waiting == old(waiting)[1..]
    {
      w := waiting[0];
      waiting := waiting[1..];
    }
  }

  function BytesPerWord(wide: bool): Pos {
    if wide then 2 else 1
  }

  /** The byte position of word `k`, as the shift by the word width computes it. */
  function At(wide: bool, k: nat): nat {
    if wide then 2 * k else k
  }

  /** The word at byte `at` of the transmit buffer, or the dummy word. */
  function WordAt(tx: seq<Byte>, at: nat, wide: bool, dummy: bool): Half
    requires dummy || at + BytesPerWord(wide) <= |tx|
  {
    if dummy then 0xFFFF
    else if wide then tx[at] as int + 256 * (tx[at + 1] as int) else tx[at]
  }

  function Low(w: Half): Byte {
    w % 256
  }

  function High(w: Half): Byte {
    w / 256
  }

  /** Byte `j` of received words stored low byte first. */
  function ByteOf(words: seq<Half>, j: nat, wide: bool): Byte
    requires j < At(wide, |words|)
  {
    if !wide then Low(words[j]) else if j % 2 == 0 then Low(words[j / 2]) else High(words[j / 2])
  }

  /** The first `n` words sent, and the replies to them. */
  function TxWords(tx: seq<Byte>, n: nat, wide: bool, dummy: bool): (ws: seq<Half>)
    requires dummy || At(wide, n) <= |tx|
    ensures |ws| == n && forall k :: 0 <= k < n ==> ws[k] == WordAt(tx, At(wide, k), wide, dummy)
  {
    seq(n, k requires 0 <= k < n => WordAt(tx, At(wide, k), wide, dummy))
  }

  function Replies(slave: (nat, Half) -> Half, ws: seq<Half>): (rs: seq<Half>)
    ensures |rs| == |ws| && forall k :: 0 <= k < |ws| ==> rs[k] == slave(k, ws[k])
  {
    seq(|ws|, k requires 0 <= k < |ws| => slave(k, ws[k]))
  }

  /** Send word `n`, which stands at byte `at` of the transmit buffer. */
  method SendWord(ch: Channel, tx: array<Byte>, at: nat, wide: bool, dummy: bool, ghost words: seq<Half>, ghost n: nat)
    requires dummy || At(wide, |words|) <= tx.Length
    requires words == TxWords(tx[..], |words|, wide, dummy) && n < |words|
    requires at == At(wide, n) && ch.sent == words[..n]
    modifies ch
    ensures ch.sent == words[..n + 1] && ch.waiting == old(ch.waiting) + [Replies(ch.slave, words)[n]]
  {
    ch.Put(WordAt(tx[..], at, wide, dummy));
  }

  /** Store reply `n`, which was just read, at `at`. */
  method StoreWord(rx: array<Byte>, at: nat, w: Half, wide: bool, ghost replies: seq<Half>, ghost n: nat)
    requires n < |replies| && at == At(wide, n) && w == replies[n] && at + BytesPerWord(wide) <= rx.Length
    modifies rx
    ensures forall j :: at <= j < At(wide, n + 1) ==> rx[j] == ByteOf(replies, j, wide)
    ensures forall j :: 0 <= j < rx.Length && !(at <= j < At(wide, n + 1)) ==> rx[j] == old(rx[j])
  {
    rx[at] := Low(w);
    if wide {
      rx[at + 1] := High(w);
    }
  }

  /**
   Send `count` words and store as many replies. The next word is always sent before a reply is read, so there is
   always one to read and never more than two are waiting; the words sent are those of the buffer in order, and
   the receive buffer holds the replies in order, its bytes past them untouched.
   */
  method ReceivePolling(ch: Channel, tx: array<Byte>, rx: array<Byte>, count: nat, wide: bool, dummy: bool)
    requires count >= 1 && ch.sent == [] && ch.waiting == [] && rx != tx
    requires At(wide, count) <= rx.Length && (dummy || At(wide, count) <= tx.Length)
    modifies ch, rx
    ensures ch.sent == TxWords(tx[..], count, wide, dummy) && ch.waiting == []
    ensures dummy ==> forall k :: 0 <= k < count ==> ch.sent[k] == 0xFFFF
    ensures forall j :: 0 <= j < At(wide, count) ==> rx[j] == ByteOf(Replies(ch.slave, ch.sent), j, wide)
    ensures forall j :: At(wide, count) <= j < rx.Length ==> rx[j] == old(rx[j])
  {
    var bytesPerWord := BytesPerWord(wide);
    var rxDataCount := At(wide, count);
    var rxDataIndex: nat, txDataIndex: nat := 0, 0;
    ghost var words, n := TxWords(tx[..], count, wide, dummy), 0;
    ghost var replies := Replies(ch.slave, words);
    SendWord(ch, tx, txDataIndex, wide, dummy, words, 0);
    txDataIndex := txDataIndex + bytesPerWord;
    while txDataIndex < rxDataCount
      invariant 0 <= n < count && rxDataIndex == At(wide, n) && txDataIndex == At(wide, n + 1)
      invariant ch.sent == words[..n + 1] && ch.waiting == [replies[n]]
      invariant forall j :: 0 <= j < rxDataIndex ==> rx[j] == ByteOf(replies, j, wide)
      invariant forall j :: rxDataIndex <= j < rx.Length ==> rx[j] == old(rx[j])
    {
      SendWord(ch, tx, txDataIndex, wide, dummy, words, n + 1);
      assert ch.waiting == [replies[n], replies[n + 1]];
      var data := ch.Get();
      StoreWord(rx, rxDataIndex, data, wide, replies, n);
      rxDataIndex := rxDataIndex + bytesPerWord;
      txDataIndex := txDataIndex + bytesPerWord;
      n := n + 1;
    }
    var data := ch.Get();
    StoreWord(rx, rxDataIndex, data, wide, replies, n);
    assert words[..count] == words;
  }

  /** A slave that echoes returns the transmit buffer. */
  lemma EchoReturns(tx: seq<Byte>, n: nat, wide: bool, j: nat)
    requires At(wide, n) <= |tx| && j < At(wide, n)
    ensures ByteOf(Replies((k, w) => w, TxWords(tx, n, wide, false)), j, wide) == tx[j]
  {
    if wide { EchoWord(tx, j / 2); }
  }

  lemma EchoWord(tx: seq<Byte>, k: nat)
    requires 2 * k + 1 < |tx|
    ensures Low(WordAt(tx, 2 * k, true, false)) == tx[2 * k] && High(WordAt(tx, 2 * k, true, false)) == tx[2 * k + 1]
  {
  }
}
