/** The interrupt-driven FIFO receive of the SPI master and its moving trigger limit. */
module SpiFifo {
  import opened Basics
  import opened SpiPolling

  // ---- the reception as a state machine -----------------------------------------------------------------------------

  /** What is fixed for one reception: the words asked for, the word width, and the driver's idea of the FIFO size. */
  datatype Job = Job(words: Pos, wide: bool, size: Pos)

  /** Words stored so far and words still in the FIFO, the trigger limit, and how often completion was signalled. */
  datatype Rx = Rx(stored: seq<Half>, fifo: seq<Half>, limit: nat, armed: bool, done: nat)

  /** The limit the driver programs for so many bytes to come; the FIFO raises its event when filled beyond it. */
  function LimitFor(j: Job, bytes: nat): nat
    requires bytes >= BytesPerWord(j.wide)
  {
    var words := if j.wide then bytes / 2 else bytes;
    if words <= j.size then words - 1 else j.size
  }

  function Begin(j: Job): Rx {
    Rx([], [], LimitFor(j, At(j.wide, j.words)), true, 0)
  }

  /** Read the FIFO until it is empty or the last word is stored, which is signalled. */
  function ReadFifo(j: Job, s: Rx): Rx
    requires |s.stored| < j.words
  {
    var n := if |s.fifo| < j.words - |s.stored| then |s.fifo| else j.words - |s.stored|;
    var r := s.(stored := s.stored + s.fifo[..n], fifo := s.fifo[n..]);
    if |r.stored| == j.words then r.(armed := false, done := s.done + 1) else r
  }

  function BytesLeft(j: Job, s: Rx): int {
    At(j.wide, j.words) - At(j.wide, |s.stored|)
  }

  /** One run of the receive handler. */
  function Handle(j: Job, s: Rx): Rx
    requires |s.stored| < j.words
  {
    var r := ReadFifo(j, s);
    if 0 < BytesLeft(j, r) <= j.size then
      assert BytesLeft(j, r) >= BytesPerWord(j.wide);
      r.(limit := LimitFor(j, BytesLeft(j, r)))
    else r
  }

  /** A word arrives, or the handler runs; the handler only while its event is enabled. */
  datatype Event = Arrive(w: Half) | Interrupt

  function StepOn(j: Job, s: Rx, e: Event): Rx {
    match e
    case Arrive(w) => if |s.stored| + |s.fifo| < j.words then s.(fifo := s.fifo + [w]) else s
    case Interrupt => if s.armed && |s.stored| < j.words then Handle(j, s) else s
  }

  function StepAll(j: Job, s: Rx, es: seq<Event>): Rx
    decreases |es|
  {
    if es == [] then s else StepAll(j, StepOn(j, s, es[0]), es[1..])
  }

  /** Nothing is stored past the request, completion is signalled once and on time, and only then is the event off. */
  ghost predicate RxInv(j: Job, s: Rx) {
    && |s.stored| + |s.fifo| <= j.words
    && s.done == (if |s.stored| == j.words then 1 else 0)
    && (s.armed <==> |s.stored| < j.words)
    && s.limit <= j.size
  }

  /** The event can still come: the limit is below the number of words still to be stored. */
  predicate Alive(j: Job, s: Rx) {
    s.armed ==> s.limit < j.words - |s.stored|
  }

  lemma BeginAlive(j: Job)
    ensures RxInv(j, Begin(j)) && Alive(j, Begin(j))
  {
  }

  lemma StepKeepsRx(j: Job, s: Rx, e: Event)
    requires RxInv(j, s)
    ensures RxInv(j, StepOn(j, s, e))
  {
  }

  /** No step loses, invents or reorders a word. */
  lemma StepKeepsWords(j: Job, s: Rx, e: Event)
    requires RxInv(j, s)
    ensures var r := StepOn(j, s, e);
      r.stored + r.fifo == s.stored + s.fifo + (if e.Arrive? && |s.stored| + |s.fifo| < j.words then [e.w] else [])
  {
  }

  /** In 8-bit mode every step leaves the event able to come. */
  lemma StepKeepsAlive8(j: Job, s: Rx, e: Event)
    requires RxInv(j, s) && !j.wide && Alive(j, s)
    ensures Alive(j, StepOn(j, s, e))
  {
  }

  /** A handler run stores, in either mode, as many words as the FIFO holds and the request has left, in their order. */
  lemma HandlerStores(j: Job, s: Rx)
    requires RxInv(j, s) && s.armed
    ensures var r := StepOn(j, s, Interrupt); var n := |r.stored| - |s.stored|;
      && (n == |s.fifo| || |r.stored| == j.words)
      && n <= |s.fifo| && |r.stored| <= j.words
      && r.stored == s.stored + s.fifo[..n] && r.fifo == s.fifo[n..]
  {
  }

  /** Once all words have arrived, one more handler run stores the last of them and completes. */
  lemma LastRunCompletes(j: Job, s: Rx)
    requires RxInv(j, s) && s.armed && |s.stored| + |s.fifo| == j.words
    ensures var r := StepOn(j, s, Interrupt);
      r.stored == s.stored + s.fifo && |r.stored| == j.words && r.fifo == [] && r.done == 1 && !r.armed
  {
    HandlerStores(j, s);
  }

  /** All words have arrived, some are not stored, and yet the FIFO is not filled beyond the limit. */
  predicate Stalled(j: Job, s: Rx) {
    s.armed && |s.stored| + |s.fifo| == j.words && |s.fifo| <= s.limit
  }

  /**
   In 8-bit mode, over every interleaving of arrivals and handler runs, the reception cannot stall: the limit stays
   below the words to come, nothing is stored past the request and completion is signalled exactly once.
   */
  lemma {:induction false} NoStall8(j: Job, s: Rx, es: seq<Event>)
    requires RxInv(j, s) && Alive(j, s) && !j.wide
    ensures var r := StepAll(j, s, es); RxInv(j, r) && Alive(j, r) && !Stalled(j, r)
    decreases |es|
  {
    if es != [] {
      StepKeepsRx(j, s, es[0]);
      StepKeepsAlive8(j, s, es[0]);
      NoStall8(j, StepOn(j, s, es[0]), es[1..]);
    }
  }

  /** The words that arrive in a run and are taken, as many as are still to come. */
  function Taken(j: Job, have: nat, es: seq<Event>): seq<Half>
    decreases |es|
  {
    if es == [] then []
    else if es[0].Arrive? && have < j.words then [es[0].w] + Taken(j, have + 1, es[1..])
    else Taken(j, have, es[1..])
  }

  lemma {:induction false} RunKeepsWords(j: Job, s: Rx, es: seq<Event>)
    requires RxInv(j, s)
    ensures var r := StepAll(j, s, es);
      RxInv(j, r) && r.stored + r.fifo == s.stored + s.fifo + Taken(j, |s.stored| + |s.fifo|, es)
    decreases |es|
  {
    if es != [] {
      var next := StepOn(j, s, es[0]);
      StepKeepsRx(j, s, es[0]);
      StepKeepsWords(j, s, es[0]);
      RunKeepsWords(j, next, es[1..]);
      assert |next.stored + next.fifo| == |next.stored| + |next.fifo|;
    }
  }

  /**
   In 8-bit mode a reception gets done. After any run from the start in which all words asked for have arrived, either
   they are all stored already, or the event is up and the interrupt it causes stores the rest; then the words stored
   are those that arrived, in order, and completion has been signalled once.
   */
  lemma Delivered8(j: Job, es: seq<Event>)
    requires !j.wide && |Taken(j, 0, es)| == j.words
    ensures var s := StepAll(j, Begin(j), es);
      && (s.armed ==> |s.fifo| > s.limit)
      && var r := if s.armed then StepOn(j, s, Interrupt) else s;
         r.stored == Taken(j, 0, es) && r.done == 1 && !r.armed
  {
    BeginAlive(j);
    NoStall8(j, Begin(j), es);
    RunKeepsWords(j, Begin(j), es);
    var s := StepAll(j, Begin(j), es);
    assert [] + [] + Taken(j, 0, es) == Taken(j, 0, es);
    assert s.stored + s.fifo == Taken(j, 0, es);
    assert |s.stored + s.fifo| == j.words;
    if s.armed {
      LastRunCompletes(j, s);
    } else {
      assert s.fifo == [] && s.stored + s.fifo == s.stored;
    }
  }

  /**
   In 16-bit mode it can. The driver compares bytes left with a size in words, so a handler run leaves the limit
   too high exactly if more bytes than that size, but no more words than the old limit, are left.
   */
  lemma WideHandlerDeadIff(j: Job, s: Rx)
    requires RxInv(j, s) && j.wide && s.armed && |ReadFifo(j, s).stored| < j.words
    ensures var r := Handle(j, s); var left := j.words - |r.stored|;
      !Alive(j, r) <==> j.size < 2 * left && left <= s.limit
  {
  }

  /**
   A run as the hardware allows it, from some state on: the event interrupts only when the FIFO is filled beyond its
   limit, and the FIFO holds at most `cap` words.
   */
  ghost predicate Genuine(j: Job, cap: nat, s: Rx, es: seq<Event>)
    decreases |es|
  {
    && |s.fifo| <= cap
    && (es == [] || ((es[0].Interrupt? ==> |s.fifo| > s.limit) && Genuine(j, cap, StepOn(j, s, es[0]), es[1..])))
  }

  /** Once dead, the reception never completes: the event does not come again, however many words arrive. */
  lemma {:induction false} DeadStays(j: Job, cap: nat, s: Rx, es: seq<Event>)
    requires RxInv(j, s) && !Alive(j, s) && Genuine(j, cap, s, es)
    ensures var r := StepAll(j, s, es); r.stored == s.stored && r.done == 0 && !Alive(j, r)
    decreases |es|
  {
    if es != [] {
      assert es[0].Arrive?;
      DeadStays(j, cap, StepOn(j, s, es[0]), es[1..]);
    }
  }

  /**
   `k` interrupts can leave a number of words at which the driver does not lower the limit although it should: each
   takes more words than the size and no more than the FIFO holds, and what is left is no more than the size but,
   counted in bytes, more.
   */
  predicate Dies(j: Job, cap: nat, k: nat) {
    k >= 1 && k * (j.size + 1) + j.size / 2 + 1 <= j.words <= j.size + k * cap
  }

  /** After `k` interrupts the limit is still the size, or it has been lowered to one below the words to come. */
  predicate OnTrack(j: Job, cap: nat, s: Rx, k: nat) {
    s.armed ==>
      || s.limit == j.words - |s.stored| - 1
      || (s.limit == j.size < j.words - |s.stored| && k * (j.size + 1) <= |s.stored| <= k * cap)
  }

  lemma StepKeepsTrack(j: Job, cap: nat, s: Rx, e: Event, k: nat)
    requires RxInv(j, s) && j.wide && OnTrack(j, cap, s, k) && |s.fifo| <= cap && cap > j.size
    requires e.Interrupt? ==> |s.fifo| > s.limit
    requires !Dies(j, cap, k + 1)
    ensures OnTrack(j, cap, StepOn(j, s, e), if e.Interrupt? then k + 1 else k)
  {
    assert (k + 1) * (j.size + 1) == k * (j.size + 1) + j.size + 1 && (k + 1) * cap == k * cap + cap;
  }

  lemma {:induction false} TrackStaysAlive(j: Job, cap: nat, s: Rx, es: seq<Event>, k: nat)
    requires RxInv(j, s) && j.wide && OnTrack(j, cap, s, k) && cap > j.size && Genuine(j, cap, s, es)
    requires forall i: nat :: !Dies(j, cap, i)
    ensures Alive(j, StepAll(j, s, es))
    decreases |es|
  {
    if es != [] {
      StepKeepsRx(j, s, es[0]);
      StepKeepsTrack(j, cap, s, es[0], k);
      TrackStaysAlive(j, cap, StepOn(j, s, es[0]), es[1..], if es[0].Interrupt? then k + 1 else k);
    }
  }

  function Arrivals(n: nat): (es: seq<Event>)
    ensures |es| == n && forall i :: 0 <= i < n ==> es[i] == Arrive(0)
  {
    seq(n, _ => Arrive(0))
  }

  /** `n` words arrive and then the event interrupts; `more` follows. */
  function Burst(n: nat, more: seq<Event>): seq<Event> {
    Arrivals(n) + [Interrupt] + more
  }

  lemma {:induction false} BurstRuns(j: Job, cap: nat, s: Rx, n: nat, more: seq<Event>)
    requires RxInv(j, s) && s.armed && s.limit < |s.fifo| + n <= cap && |s.stored| + |s.fifo| + n < j.words
    requires var after := Handle(j, s.(fifo := s.fifo + seq(n, _ => 0))); Genuine(j, cap, after, more)
    ensures Genuine(j, cap, s, Burst(n, more))
    ensures StepAll(j, s, Burst(n, more)) == StepAll(j, Handle(j, s.(fifo := s.fifo + seq(n, _ => 0))), more)
    decreases n
  {
    var es := Burst(n, more);
    if n == 0 {
      assert s.fifo + seq(0, _ => 0) == s.fifo;
      assert es == [Interrupt] + more && es[1..] == more;
    } else {
      var next := StepOn(j, s, Arrive(0));
      assert next.fifo + seq(n - 1, _ => 0) == s.fifo + seq(n, _ => 0);
      assert es[1..] == Burst(n - 1, more);
      BurstRuns(j, cap, next, n - 1, more);
    }
  }

  /** With an empty FIFO and the limit at the size, `k` bursts of the right length end in a dead reception. */
  lemma {:induction false} BurstsDie(j: Job, cap: nat, s: Rx, k: nat) returns (es: seq<Event>)
    requires RxInv(j, s) && j.wide && s.armed && s.fifo == [] && s.limit == j.size && cap > j.size && k >= 1
    requires k * (j.size + 1) + j.size / 2 + 1 <= j.words - |s.stored| <= j.size + k * cap
    ensures Genuine(j, cap, s, es) && !Alive(j, StepAll(j, s, es))
    decreases k
  {
    var left := j.words - |s.stored|;
    var n := BurstLength(j.size, cap, left, k);
    var after := Handle(j, s.(fifo := s.fifo + seq(n, _ => 0)));
    AfterBurst(j, s, n);
    var more := [];
    if k > 1 { more := BurstsDie(j, cap, after, k - 1); }
    BurstRuns(j, cap, s, n, more);
    es := Burst(n, more);
  }

  /** A first burst that leaves the right number of words for the others. */
  lemma BurstLength(size: Pos, cap: nat, left: nat, k: nat) returns (n: nat)
    requires cap > size && k >= 1 && k * (size + 1) + size / 2 + 1 <= left <= size + k * cap
    ensures size < n <= cap && n < left && 2 * (left - n) > size
    ensures (k - 1) * (size + 1) + size / 2 + 1 <= left - n <= size + (k - 1) * cap
  {
    OneLess(k, size + 1);
    OneLess(k, cap);
    TimesGrows(k - 1, size + 1, cap);
    n := FirstBurst(size, cap, left, (k - 1) * (size + 1), (k - 1) * cap);
  }

  lemma FirstBurst(size: Pos, cap: nat, left: nat, fewest: nat, most: nat) returns (n: nat)
    requires cap > size && fewest <= most && fewest + size + 1 + size / 2 + 1 <= left <= size + most + cap
    ensures size < n <= cap && n < left && 2 * (left - n) > size
    ensures fewest + size / 2 + 1 <= left - n <= size + most
  {
    n := if left - size - most > size + 1 then left - size - most else size + 1;
  }

  lemma OneLess(k: nat, a: nat)
    requires k >= 1
    ensures k * a == (k - 1) * a + a
  {
  }

  lemma {:induction false} TimesGrows(k: nat, a: nat, b: nat)
    requires a <= b
    ensures 0 <= k * a <= k * b
  {
    if k > 0 {
      OneLess(k, a);
      OneLess(k, b);
      TimesGrows(k - 1, a, b);
    }
  }

  lemma AfterBurst(j: Job, s: Rx, n: nat)
    requires RxInv(j, s) && j.wide && s.armed && s.fifo == [] && s.limit == j.size
    requires n > 0 && 2 * (j.words - |s.stored| - n) > j.size
    ensures var r := Handle(j, s.(fifo := s.fifo + seq(n, _ => 0)));
      RxInv(j, r) && r.armed && r.fifo == [] && r.limit == j.size && |r.stored| == |s.stored| + n
  {
  }

  /**
   In 16-bit mode it can stall, because the driver compares bytes left with a size in words. For a FIFO that holds
   more than that size: a request can go on in every run if and only if no number of interrupts dies on it.
   */
  lemma WideStallIff(j: Job, cap: nat)
    requires j.wide && cap > j.size
    ensures (exists es :: Genuine(j, cap, Begin(j), es) && !Alive(j, StepAll(j, Begin(j), es)))
      <==> exists k: nat :: Dies(j, cap, k)
  {
    if k: nat :| Dies(j, cap, k) {
      assert j.words > j.size by { assert k * (j.size + 1) >= j.size + 1; }
      var es := BurstsDie(j, cap, Begin(j), k);
    } else {
      forall es | Genuine(j, cap, Begin(j), es)
        ensures Alive(j, StepAll(j, Begin(j), es))
      {
        TrackStaysAlive(j, cap, Begin(j), es, 0);
      }
    }
  }

  /**
   For a FIFO of twice the size, as the hardware has, of three words or more: every run can go on if and only if the
   request is for no more words than one and a half times the size, and one.
   */
  lemma WideNoStallIff(j: Job, cap: nat)
    requires j.wide && j.size >= 3 && cap >= 2 * j.size
    ensures (forall es :: Genuine(j, cap, Begin(j), es) ==> Alive(j, StepAll(j, Begin(j), es)))
      <==> j.words <= j.size + j.size / 2 + 1
  {
    WideStallIff(j, cap);
    if j.words <= j.size + j.size / 2 + 1 {
      forall k: nat
        ensures !Dies(j, cap, k)
      {
        if k >= 1 { assert k * (j.size + 1) >= j.size + 1; }
      }
    } else {
      var k := SomeDies(j, cap, 1);
    }
  }

  /** With such a FIFO the lengths at which `k` and `k + 1` interrupts die overlap. */
  lemma {:induction false} SomeDies(j: Job, cap: nat, from: nat) returns (k: nat)
    requires j.size >= 3 && cap >= 2 * j.size && from >= 1 && from * (j.size + 1) + j.size / 2 + 1 <= j.words
    ensures Dies(j, cap, k)
    decreases j.words - from
  {
    if j.words <= j.size + from * cap {
      k := from;
    } else {
      TimesGrows(from, j.size + j.size, cap);
      OneLess(from + 1, j.size + 1);
      Enough(from, j.size);
      k := SomeDies(j, cap, from + 1);
    }
  }

  lemma {:induction false} Enough(k: nat, size: nat)
    requires k >= 1 && size >= 3
    ensures k * (size + 1) + size + 1 + size / 2 + 1 <= size + k * (size + size) + 1
  {
    OneLess(k, size + 1);
    OneLess(k, size + size);
    if k > 1 { Enough(k - 1, size); }
  }

  // ---- the driver's routines ----------------------------------------------------------------------------------------

  class Receiver {
    const job: Job
    const rxData: array<Byte>
    var rxDataCount: nat
    var rxDataIndex: nat
    var fifo: seq<Half>
    var limit: nat
    var eventEnabled: bool
    var completions: nat
    ghost var stored: seq<Half>

    ghost predicate Valid()
      reads this, rxData
    {
      && At(job.wide, job.words) <= rxData.Length
      && rxDataCount == At(job.wide, job.words)
      && |stored| <= job.words && rxDataIndex == At(job.wide, |stored|)
      && forall i :: 0 <= i < rxDataIndex ==> rxData[i] == ByteOf(stored, i, job.wide)
    }

    ghost function View(): Rx
      reads this
    {
      Rx(stored, fifo, limit, eventEnabled, completions)
    }

    /** Set up the reception: empty FIFO, limit for the whole request, event enabled. */
    constructor (job: Job, rxData: array<Byte>)
      requires At(job.wide, job.words) <= rxData.Length
      ensures this.job == job && this.rxData == rxData && Valid() && View() == Begin(job)
    {
      this.job, this.rxData := job, rxData;
      rxDataIndex, rxDataCount := 0, At(job.wide, job.words);
      fifo, stored := [], [];
      limit := LimitFor(job, At(job.wide, job.words));
      eventEnabled, completions := true, 0;
    }

    method StoreWord(data: Half)
      requires Valid() && |stored| < job.words
      modifies this`rxDataIndex, this`stored, rxData
      ensures Valid() && View() == old(View()).(stored := old(stored) + [data])
    {
      ghost var words := stored + [data];
      rxData[rxDataIndex] := Low(data);
      if job.wide {
        rxData[rxDataIndex + 1] := High(data);
      }
      rxDataIndex := rxDataIndex + BytesPerWord(job.wide);
      stored := words;
      assert forall i :: 0 <= i < At(job.wide, |words| - 1) ==>
        ByteOf(words, i, job.wide) == ByteOf(words[..|words| - 1], i, job.wide);
    }

    method LFIFORead()
      requires Valid() && |stored| < job.words
      modifies this`rxDataIndex, this`stored, this`fifo, this`eventEnabled, this`completions, rxData
      ensures Valid() && View() == ReadFifo(job, old(View()))
    {
      ghost var first, n := View(), 0;
      while fifo != []
        invariant Valid() && |stored| < job.words && n <= |first.fifo|
        invariant View() == first.(stored := first.stored + first.fifo[..n], fifo := first.fifo[n..])
        decreases |fifo|
      {
        var data := fifo[0];
        fifo := fifo[1..];
        StoreWord(data);
        n := n + 1;
        if rxDataIndex == rxDataCount {
          eventEnabled := false;
          completions := completions + 1;
          return;
        }
      }
    }

    method LReconfigureRxFIFO(dataSize: nat)
      requires dataSize == 0 || dataSize >= BytesPerWord(job.wide)
      modifies this`limit
      ensures limit == if dataSize > 0 then LimitFor(job, dataSize) else old(limit)
    {
      if dataSize > 0 {
        var size := if job.wide then dataSize / 2 else dataSize;
        limit := if size <= job.size then size - 1 else job.size;
      }
    }

    method LReceiveHandler()
      requires Valid() && |stored| < job.words
      modifies this`rxDataIndex, this`stored, this`fifo, this`eventEnabled, this`completions, this`limit, rxData
      ensures Valid() && View() == Handle(job, old(View()))
    {
      LFIFORead();
      if rxDataCount - rxDataIndex <= job.size {
        LReconfigureRxFIFO(rxDataCount - rxDataIndex);
      }
    }
  }
}
