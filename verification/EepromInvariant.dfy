/** The invariant of the store: what the flash satisfies at every moment, and what the RAM cursor knows about it. */
module EepromInvariant {
  import opened Basics
  import opened FlashChip
  import opened EepromSpec
  import opened EepromScan

  // ---- the flash alone, true even where the power fails --------------------------------------------------------

  /** A slot whose counter reads zero is physically erased. */
  ghost predicate WellFormed(cfg: Config, blocks: seq<Image>) {
    && |blocks| == cfg.Slots()
    && forall s :: 0 <= s < |blocks| ==> cfg.Fits(blocks[s]) && (blocks[s].count == 0 ==> blocks[s] == cfg.Blank())
  }

  /** A sector that holds anything holds something in its first slot. */
  ghost predicate Grounded(cfg: Config, blocks: seq<Image>)
    requires |blocks| == cfg.Slots()
  {
    forall s :: 0 <= s < |blocks| && blocks[s].count != 0 ==> blocks[cfg.Start(cfg.SectorOf(s))].count != 0
  }

  /** What is left of this when program errors may leave a slot blank. */
  ghost predicate Ordered(cfg: Config, blocks: seq<Image>) {
    WellFormed(cfg, blocks) && Rising(cfg, blocks)
  }

  ghost predicate FlashInv(cfg: Config, blocks: seq<Image>) {
    Ordered(cfg, blocks) && Grounded(cfg, blocks)
  }

  /** The latest good block of the whole flash. */
  function Latest(cfg: Config, blocks: seq<Image>): (d: Option<nat>)
    requires |blocks| == cfg.Slots()
    ensures d.Some? ==> d.value < cfg.Slots()
  {
    Newest(cfg, blocks, |blocks|)
  }

  // ---- the flash and the RAM of a running store ------------------------------------------------------------------

  /** `s` lies in the stretch from `next` round the ring up to `start`. */
  predicate InGap(next: nat, start: nat, s: nat) {
    if next <= start then next <= s < start else next <= s || s < start
  }

  /** The slots from the cursor round the ring to the start of the active sector are erased. */
  ghost predicate GapErased(cfg: Config, blocks: seq<Image>, ram: Ram)
    requires |blocks| == cfg.Slots() && ram.sector < 4
  {
    forall s :: 0 <= s < |blocks| && InGap(ram.next, cfg.Start(ram.sector), s) ==> blocks[s] == cfg.Blank()
  }

  ghost predicate AllBlank(cfg: Config, blocks: seq<Image>) {
    forall s :: 0 <= s < |blocks| ==> blocks[s] == cfg.Blank()
  }

  /** No good block carries a counter above the one in RAM. */
  ghost predicate Bounded(cfg: Config, blocks: seq<Image>, c: nat) {
    forall s :: 0 <= s < |blocks| && cfg.Good(blocks[s]) ==> blocks[s].count <= c
  }

  /** The first slot of the cursor's sector is filled unless the cursor stands on it. */
  ghost predicate CursorGrounded(cfg: Config, blocks: seq<Image>, next: nat)
    requires |blocks| == cfg.Slots() && next < cfg.Slots()
  {
    var first := cfg.Start(cfg.SectorOf(next));
    next == first || blocks[first].count != 0
  }

  /** What a save needs: room at the cursor, and no good block with a counter above the one in RAM. */
  ghost predicate Roomy(cfg: Config, blocks: seq<Image>, ram: Ram) {
    && Ordered(cfg, blocks)
    && ram.Fits(cfg) && ram.next < cfg.Slots() && ram.sector < 4
    && Bounded(cfg, blocks, ram.buffer.count)
    && GapErased(cfg, blocks, ram)
    && (ram.buffer.count == 0 ==> ram.next == 0 && ram.sector == 0 && AllBlank(cfg, blocks))
  }

  ghost predicate RamInv(cfg: Config, blocks: seq<Image>, ram: Ram)
    requires |blocks| == cfg.Slots()
  {
    && ram.Fits(cfg) && ram.next < cfg.Slots() && ram.sector < 4
    && ram.data == Latest(cfg, blocks)
    && Bounded(cfg, blocks, ram.buffer.count)
    && (ram.data.None? ==> ram.sector == 0)
    && GapErased(cfg, blocks, ram)
    && (ram.buffer.count == 0 ==> ram.next == 0 && ram.sector == 0 && AllBlank(cfg, blocks))
    && (ram.buffer.count != 0 ==> blocks[cfg.Start(ram.sector)].count != 0)
    && CursorGrounded(cfg, blocks, ram.next)
  }

  ghost predicate Inv(cfg: Config, blocks: seq<Image>, ram: Ram) {
    FlashInv(cfg, blocks) && RamInv(cfg, blocks, ram)
  }

  /** The latest good block lies outside the sector that is about to be reused. */
  predicate WrapSafe(cfg: Config, ram: Ram)
    requires ram.data.Some? ==> ram.data.value < cfg.Slots()
  {
    RingFull(cfg, ram) ==> HomeSector(cfg, ram.data) != ram.sector
  }

  // ---- erasing sectors --------------------------------------------------------------------------------------------

  /** Erasing whole sectors keeps the flash invariant, at whichever sector it stops. */
  lemma ErasedKeepsFlash(cfg: Config, blocks: seq<Image>, E: set<nat>)
    requires FlashInv(cfg, blocks)
    ensures FlashInv(cfg, Erased(cfg, blocks, E))
  {
    var r := Erased(cfg, blocks, E);
    ErasedKeepsOrdered(cfg, blocks, E);
    forall s | 0 <= s < |r| && r[s].count != 0
      ensures r[cfg.Start(cfg.SectorOf(s))].count != 0
    {
      StartIsHome(cfg, cfg.SectorOf(s));
    }
  }

  lemma ErasedKeepsOrdered(cfg: Config, blocks: seq<Image>, E: set<nat>)
    requires Ordered(cfg, blocks)
    ensures Ordered(cfg, Erased(cfg, blocks, E))
  {
    assert WellFormed(cfg, Erased(cfg, blocks, E));
    ErasedKeepsRising(cfg, blocks, E);
  }

  lemma StartIsHome(cfg: Config, j: nat)
    requires j < 4
    ensures cfg.Start(j) < cfg.Slots() && cfg.SectorOf(cfg.Start(j)) == j
  {
  }

  lemma ErasedKeepsRising(cfg: Config, blocks: seq<Image>, E: set<nat>)
    requires |blocks| == cfg.Slots() && Rising(cfg, blocks)
    ensures Rising(cfg, Erased(cfg, blocks, E))
  {
    var r := Erased(cfg, blocks, E);
    forall s, t | 0 <= s < t < |r| && cfg.SectorOf(s) == cfg.SectorOf(t) && cfg.Good(r[s]) && cfg.Good(r[t])
      ensures r[s].count < r[t].count
    {
      assert r[s] == blocks[s] && r[t] == blocks[t];
    }
  }

  /** Erasing sectors that do not hold the latest good block leaves it the latest. */
  lemma ErasedKeepsLatest(cfg: Config, blocks: seq<Image>, E: set<nat>)
    requires |blocks| == cfg.Slots()
    requires Latest(cfg, blocks).Some? ==> cfg.SectorOf(Latest(cfg, blocks).value) !in E
    ensures Latest(cfg, Erased(cfg, blocks, E)) == Latest(cfg, blocks)
  {
    var r := Erased(cfg, blocks, E);
    assert forall s :: 0 <= s < |r| && cfg.Good(r[s]) ==> r[s] == blocks[s];
    var d := Latest(cfg, blocks);
    if d.Some? {
      assert r[d.value] == blocks[d.value];
      NewestIs(cfg, r, |r|, d.value);
    } else {
      assert forall s :: 0 <= s < |r| ==> !cfg.Good(r[s]);
    }
  }

  // ---- writing one slot --------------------------------------------------------------------------------------------

  /** A slot in the gap, or any slot of a blank flash, and everything above it in its sector is erased. */
  lemma CursorErased(cfg: Config, blocks: seq<Image>, ram: Ram, s: nat)
    requires Roomy(cfg, blocks, ram) && !RingFull(cfg, ram)
    requires ram.next <= s < cfg.Slots() && cfg.SectorOf(s) == cfg.SectorOf(ram.next)
    ensures blocks[s] == cfg.Blank()
  {
    if ram.buffer.count != 0 { assert InGap(ram.next, cfg.Start(ram.sector), s); }
  }

  /** Filling the cursor's slot keeps first slots filled. */
  lemma FilledKeepsGrounded(cfg: Config, blocks: seq<Image>, next: nat, b: Image)
    requires |blocks| == cfg.Slots() && next < cfg.Slots() && b.count != 0
    requires Grounded(cfg, blocks) && CursorGrounded(cfg, blocks, next)
    ensures Grounded(cfg, blocks[next := b])
    ensures CursorGrounded(cfg, blocks[next := b], cfg.Succ(next))
  {
    var r := blocks[next := b];
    forall s | 0 <= s < |r| && r[s].count != 0
      ensures r[cfg.Start(cfg.SectorOf(s))].count != 0
    {
    }
  }

  /** A block with a counter above every good one keeps the counters rising and becomes the latest. */
  lemma NewBlockRises(cfg: Config, blocks: seq<Image>, ram: Ram, b: Image)
    requires Roomy(cfg, blocks, ram) && !RingFull(cfg, ram) && cfg.Good(b) && b.count > ram.buffer.count
    ensures Rising(cfg, blocks[ram.next := b])
    ensures Latest(cfg, blocks[ram.next := b]) == Some(ram.next)
  {
    var r := blocks[ram.next := b];
    NewestIs(cfg, r, |r|, ram.next);
    forall s, t | 0 <= s < t < |r| && cfg.SectorOf(s) == cfg.SectorOf(t) && cfg.Good(r[s]) && cfg.Good(r[t])
      ensures r[s].count < r[t].count
    {
      if s == ram.next { CursorErased(cfg, blocks, ram, t); }
    }
  }

  /** A block that fails the check changes neither the order of the good ones nor which is latest. */
  lemma BadBlockHides(cfg: Config, blocks: seq<Image>, ram: Ram, b: Image)
    requires Roomy(cfg, blocks, ram) && !RingFull(cfg, ram) && !cfg.Good(b)
    ensures Rising(cfg, blocks[ram.next := b])
    ensures Latest(cfg, blocks[ram.next := b]) == Latest(cfg, blocks)
  {
    CursorErased(cfg, blocks, ram, ram.next);
    BadForBad(cfg, blocks, ram.next, b);
  }

  /** Replacing one block that fails the check by another. */
  lemma BadForBad(cfg: Config, blocks: seq<Image>, p: nat, b: Image)
    requires |blocks| == cfg.Slots() && p < |blocks| && Rising(cfg, blocks) && !cfg.Good(blocks[p]) && !cfg.Good(b)
    ensures Rising(cfg, blocks[p := b])
    ensures Latest(cfg, blocks[p := b]) == Latest(cfg, blocks)
  {
    var r := blocks[p := b];
    assert forall s :: 0 <= s < |r| && cfg.Good(r[s]) ==> s != p && r[s] == blocks[s];
    var d := Latest(cfg, blocks);
    if d.Some? {
      assert r[d.value] == blocks[d.value];
      NewestIs(cfg, r, |r|, d.value);
    }
  }

  /** Moving the cursor one slot on shortens the gap by the slot just written. */
  lemma GapShrinks(cfg: Config, blocks: seq<Image>, ram: Ram, b: Image, moved: Ram)
    requires Roomy(cfg, blocks, ram) && !RingFull(cfg, ram)
    requires moved.sector == ram.sector && moved.next == cfg.Succ(ram.next)
    ensures GapErased(cfg, blocks[ram.next := b], moved)
  {
    forall s | 0 <= s < |blocks| && InGap(moved.next, cfg.Start(ram.sector), s)
      ensures blocks[ram.next := b][s] == cfg.Blank()
    {
      assert s != ram.next;
      if ram.buffer.count != 0 { assert InGap(ram.next, cfg.Start(ram.sector), s); }
    }
  }

  /** Where the active sector's first slot is the cursor, filling it fills that first slot. */
  lemma ActiveGrounded(cfg: Config, blocks: seq<Image>, ram: Ram, b: Image)
    requires Inv(cfg, blocks, ram) && b.count != 0
    ensures blocks[ram.next := b][cfg.Start(ram.sector)].count != 0
  {
  }

  /** Programming a fresh good block at the cursor keeps the invariant. */
  lemma GoodWriteKeeps(cfg: Config, blocks: seq<Image>, ram: Ram, b: Image)
    requires Inv(cfg, blocks, ram) && !RingFull(cfg, ram)
    requires cfg.Fits(b) && cfg.Good(b) && b.count > ram.buffer.count
    ensures FlashInv(cfg, blocks[ram.next := b])
    ensures RamInv(cfg, blocks[ram.next := b], ram.(buffer := b, next := cfg.Succ(ram.next), data := Some(ram.next)))
  {
    var moved := ram.(buffer := b, next := cfg.Succ(ram.next), data := Some(ram.next));
    NewBlockRises(cfg, blocks, ram, b);
    FilledKeepsGrounded(cfg, blocks, ram.next, b);
    GapShrinks(cfg, blocks, ram, b, moved);
    ActiveGrounded(cfg, blocks, ram, b);
  }

  /** So does leaving a block there that fails the check, with the RAM counter moved on. */
  lemma BadWriteKeeps(cfg: Config, blocks: seq<Image>, ram: Ram, b: Image, buffer: Image)
    requires Inv(cfg, blocks, ram) && !RingFull(cfg, ram)
    requires cfg.Fits(b) && b.count != 0 && !cfg.Good(b) && cfg.Fits(buffer) && buffer.count > ram.buffer.count
    ensures FlashInv(cfg, blocks[ram.next := b])
    ensures RamInv(cfg, blocks[ram.next := b], ram.(buffer := buffer, next := cfg.Succ(ram.next)))
  {
    var moved := ram.(buffer := buffer, next := cfg.Succ(ram.next));
    BadBlockHides(cfg, blocks, ram, b);
    FilledKeepsGrounded(cfg, blocks, ram.next, b);
    GapShrinks(cfg, blocks, ram, b, moved);
    ActiveGrounded(cfg, blocks, ram, b);
  }
}
