/** Where the store's promises end: the exact conditions, each with both directions. */
module EepromEdges {
  import opened Basics
  import opened FlashChip
  import opened EepromSpec
  import opened EepromScan
  import opened EepromEffects
  import opened EepromInvariant
  import opened EepromDurability
  import opened EepromRuns
  import opened EepromPasses

  // ---- a power cut in the middle of a block -------------------------------------------------------------------------

  lemma {:induction false} CutAfter(cfg: Config, chip: Chip, slot: nat, img: Image, k: nat, m: nat)
    requires chip.Fits(cfg) && cfg.Fits(img) && slot < cfg.Slots() && k + m < cfg.pages && chip.on
    requires chip.blocks[slot] == Torn(cfg, img, k) && chip.script == Dones(m) + [Cut]
    ensures var (c, ok) := WritePages(cfg, chip, slot, img, k);
      ok && !c.on && c.blocks == chip.blocks[slot := Torn(cfg, img, k + m)]
    decreases m
  {
    TornGrows(cfg, img, k);
    var c := ProgramPage(cfg, chip, slot, img, k).0;
    if m > 0 {
      DonesTail(m, [Cut]);
      CutAfter(cfg, c, slot, img, k + 1, m - 1);
    } else {
      NothingWritten(cfg, c, slot, img, k + 1);
    }
  }

  /** A save cut after the erasures it needs and `k` of its pages. */
  ghost predicate CutAt(cfg: Config, chip: Chip, ram: Ram, k: nat) {
    && chip.Fits(cfg) && chip.on && Current(cfg, chip.blocks, ram) && WrapSafe(cfg, ram)
    && ram.buffer.count < 0xFFFF_FFFF
    && k < cfg.pages && chip.script == Dones(Erasures(cfg, ram)) + (Dones(k) + [Cut])
  }

  /** It leaves what the reclaim left, with those pages at the cursor and nothing else. */
  lemma CutSave(cfg: Config, chip: Chip, ram: Ram, k: nat)
    requires CutAt(cfg, chip, ram, k)
    ensures var e := Reclaim(cfg, chip, ram);
      && Current(cfg, e.chip.blocks, e.ram) && !RingFull(cfg, e.ram)
      && Content(cfg, e.chip.blocks) == Content(cfg, chip.blocks)
      && Update(cfg, chip, ram).chip.blocks == e.chip.blocks[ram.next := Torn(cfg, Next(cfg, ram), k)]
  {
    ReclaimWorks(cfg, chip, ram, Dones(k) + [Cut]);
    var e := Reclaim(cfg, chip, ram);
    CursorErased(cfg, e.chip.blocks, e.ram, e.ram.next);
    assert Next(cfg, e.ram) == Next(cfg, ram);
    CutAfter(cfg, e.chip, ram.next, Next(cfg, ram), 0, k);
  }

  /**
   Atomicity of a cut save is exact: what the store then remembers is the old block or the new one if and only if
   the torn block is no checksum collision.
   */
  lemma CutSaveAtomicIff(cfg: Config, chip: Chip, ram: Ram, k: nat)
    requires CutAt(cfg, chip, ram, k)
    ensures var torn := Torn(cfg, Next(cfg, ram), k); var now := Content(cfg, Update(cfg, chip, ram).chip.blocks);
      now == Content(cfg, chip.blocks) || now == Some(Next(cfg, ram))
      <==> torn == Next(cfg, ram) || !cfg.Good(torn)
  {
    CutSave(cfg, chip, ram, k);
    var e := Reclaim(cfg, chip, ram);
    CutContent(cfg, e.chip.blocks, e.ram, k);
  }

  lemma CutContent(cfg: Config, blocks: seq<Image>, ram: Ram, k: nat)
    requires Current(cfg, blocks, ram) && !RingFull(cfg, ram) && k < cfg.pages && ram.buffer.count < 0xFFFF_FFFF
    ensures var torn := Torn(cfg, Next(cfg, ram), k); var now := Content(cfg, blocks[ram.next := torn]);
      now == Content(cfg, blocks) || now == Some(Next(cfg, ram))
      <==> torn == Next(cfg, ram) || !cfg.Good(torn)
  {
    var torn := Torn(cfg, Next(cfg, ram), k);
    if cfg.Good(torn) {
      NewBlockRises(cfg, blocks, ram, torn);
    } else {
      BadBlockHides(cfg, blocks, ram, torn);
      CursorErased(cfg, blocks, ram, ram.next);
    }
  }

  // ---- recovery status ----------------------------------------------------------------------------------------------

  /** Some non-empty slot lies above the latest good block in that block's own sector. */
  ghost predicate Overshadowed(cfg: Config, blocks: seq<Image>)
    requires |blocks| == cfg.Slots()
  {
    var d := Latest(cfg, blocks);
    d.Some? && AnyFilled(blocks, d.value + 1, cfg.Start(cfg.SectorOf(d.value)) + cfg.n)
  }

  /**
   A start-up that completes returns OldData exactly when the latest good block has a non-empty slot above it in
   its own sector, and Ok otherwise; torn blocks in other sectors make no difference.
   */
  lemma StatusExact(cfg: Config, chip: Chip)
    requires chip.Fits(cfg) && Rising(cfg, chip.blocks)
    ensures var r := Init(cfg, chip, FreshRam(cfg));
      r.status != EraseError ==> r.status == if Overshadowed(cfg, chip.blocks) then OldData else Ok
  {
    ScanStatus(cfg, chip);
    FoundStatus(cfg, chip.blocks);
  }

  lemma ScanStatus(cfg: Config, chip: Chip)
    requires chip.Fits(cfg)
    ensures var r := Init(cfg, chip, FreshRam(cfg)); var found := Scan(cfg, chip.blocks, FreshRam(cfg));
      r.status != EraseError ==>
        r.status == if found.data.Some? && found.next != found.data.value + 1 then OldData else Ok
  {
  }

  lemma FoundStatus(cfg: Config, blocks: seq<Image>)
    requires |blocks| == cfg.Slots() && Rising(cfg, blocks)
    ensures var found := Scan(cfg, blocks, FreshRam(cfg));
      found.data.Some? && found.next != found.data.value + 1 <==> Overshadowed(cfg, blocks)
  {
    ScanMeaning(cfg, blocks);
    var found := Scan(cfg, blocks, FreshRam(cfg));
    if found.data.Some? { TopAbove(cfg, blocks, found.data.value, found.next); }
  }

  lemma TopAbove(cfg: Config, blocks: seq<Image>, d: nat, top: nat)
    requires |blocks| == cfg.Slots() && d < cfg.Slots() && blocks[d].count != 0
    requires IsTop(blocks, cfg.Start(cfg.SectorOf(d)), cfg.Start(cfg.SectorOf(d)) + cfg.n, top)
    ensures top != d + 1 <==> AnyFilled(blocks, d + 1, cfg.Start(cfg.SectorOf(d)) + cfg.n)
  {
    if top > d + 1 { assert blocks[top - 1].count != 0; }
  }

  /**
   Starting up again changes nothing: the flash is left as the first start-up left it and the status is the same.
   A device whose start-up reports OldData therefore reports it at every later start-up.
   */
  lemma BootIdempotent(cfg: Config, chip: Chip, script: seq<Outcome>)
    requires chip.Fits(cfg) && Ordered(cfg, chip.blocks) && ScriptFits(cfg, script)
    requires var r := Init(cfg, chip, FreshRam(cfg)); r.chip.on && r.status != EraseError
    ensures var r := Init(cfg, chip, FreshRam(cfg)); var again := Init(cfg, Powered(r.chip, script), FreshRam(cfg));
      again.status == r.status && again.chip.blocks == r.chip.blocks
  {
    var r := Init(cfg, chip, FreshRam(cfg));
    var second := Powered(r.chip, script);
    InitSafe(cfg, chip);
    InitKeepsActive(cfg, chip);
    InitIdle(cfg, second);
    StatusExact(cfg, chip);
    StatusExact(cfg, second);
    SameShadow(cfg, chip.blocks, r.chip.blocks);
  }

  /** What a completed start-up leaves: the active sector as it was, every other sector erased. */
  lemma InitKeepsActive(cfg: Config, chip: Chip)
    requires chip.Fits(cfg) && Ordered(cfg, chip.blocks)
    requires var r := Init(cfg, chip, FreshRam(cfg)); r.chip.on && r.status != EraseError
    ensures var r := Init(cfg, chip, FreshRam(cfg)); var d := Latest(cfg, chip.blocks);
      && Latest(cfg, r.chip.blocks) == d
      && forall s :: 0 <= s < cfg.Slots() ==>
           r.chip.blocks[s] == if d.Some? && cfg.SectorOf(s) == cfg.SectorOf(d.value)
             then chip.blocks[s] else cfg.Blank()
  {
    ScanMeaning(cfg, chip.blocks);
    var E := InitErases(cfg, chip);
    var ram := Scan(cfg, chip.blocks, FreshRam(cfg));
    InitClears(cfg, chip, ram, ErasePass(cfg, chip, ram, 0), E);
  }

  /** Start-up on a flash with only the active sector filled erases nothing. */
  lemma InitIdle(cfg: Config, chip: Chip)
    requires chip.Fits(cfg) && Ordered(cfg, chip.blocks)
    requires var d := Latest(cfg, chip.blocks);
      forall s :: 0 <= s < cfg.Slots() && (d.None? || cfg.SectorOf(s) != cfg.SectorOf(d.value))
        ==> chip.blocks[s].count == 0
    ensures Init(cfg, chip, FreshRam(cfg)).chip == chip
    ensures Init(cfg, chip, FreshRam(cfg)).status != EraseError
  {
    ScanMeaning(cfg, chip.blocks);
    var found := Scan(cfg, chip.blocks, FreshRam(cfg));
    NothingStale(cfg, chip.blocks, found);
    ErasePassIdle(cfg, chip, found, 0);
  }

  lemma NothingStale(cfg: Config, blocks: seq<Image>, ram: Ram)
    requires |blocks| == cfg.Slots() && ram.Fits(cfg) && DirtyUpTo(cfg, blocks, 4, FreshRam(cfg), ram)
    requires forall s :: 0 <= s < cfg.Slots() && cfg.SectorOf(s) != ram.sector ==> blocks[s].count == 0
    ensures Stale(ram, 0) == {}
  {
    forall i | 0 <= i < 4 && i != ram.sector
      ensures !ram.dirty[i]
    {
      forall s | cfg.Start(i) <= s < cfg.Start(i) + cfg.n
        ensures blocks[s].count == 0
      {
        assert cfg.SectorOf(s) == i;
      }
    }
  }

  lemma {:induction false} ErasePassIdle(cfg: Config, chip: Chip, ram: Ram, j: nat)
    requires chip.Fits(cfg) && ram.Fits(cfg) && j <= 4 && Stale(ram, j) == {}
    ensures ErasePass(cfg, chip, ram, j) == Result(chip, ram, Ok)
    decreases 4 - j
  {
    if j < 4 {
      assert j !in Stale(ram, j);
      assert Stale(ram, j + 1) <= Stale(ram, j);
      ErasePassIdle(cfg, chip, ram, j + 1);
    }
  }

  lemma SameShadow(cfg: Config, a: seq<Image>, b: seq<Image>)
    requires |a| == |b| == cfg.Slots() && Latest(cfg, a) == Latest(cfg, b)
    requires Latest(cfg, a).Some? ==>
      forall s :: 0 <= s < cfg.Slots() && cfg.SectorOf(s) == cfg.SectorOf(Latest(cfg, a).value) ==> a[s] == b[s]
    ensures Overshadowed(cfg, a) == Overshadowed(cfg, b)
  {
    if Latest(cfg, a).Some? {
      var d := Latest(cfg, a).value;
      assert forall s :: d < s < cfg.Start(cfg.SectorOf(d)) + cfg.n ==> cfg.SectorOf(s) == cfg.SectorOf(d);
    }
  }

  /** A reclaim leaves the latest block overshadowed or not as it was. */
  lemma ReclaimKeepsShadow(cfg: Config, chip: Chip, ram: Ram, tail: seq<Outcome>)
    requires chip.Fits(cfg) && chip.on && Current(cfg, chip.blocks, ram) && WrapSafe(cfg, ram)
    requires chip.script == Dones(Erasures(cfg, ram)) + tail
    ensures Overshadowed(cfg, Reclaim(cfg, chip, ram).chip.blocks) <==> Overshadowed(cfg, chip.blocks)
  {
    if RingFull(cfg, ram) {
      var c, r := PassWorks(cfg, chip, ram, tail);
      ErasedKeepsLatest(cfg, chip.blocks, AllBut(HomeSector(cfg, ram.data)));
      SameShadow(cfg, chip.blocks, c.blocks);
    }
  }

  /**
   A save cut after `k` pages: the next start-up returns OldData exactly when the new block is incomplete and either
   the store would have returned it before, or the torn block is visible and shares the latest block's sector.
   */
  lemma TornSaveStatus(cfg: Config, chip: Chip, ram: Ram, k: nat, script: seq<Outcome>)
    requires CutAt(cfg, chip, ram, k) && ScriptFits(cfg, script)
    requires var torn := Torn(cfg, Next(cfg, ram), k); torn == Next(cfg, ram) || !cfg.Good(torn)
    ensures var cut := Update(cfg, chip, ram).chip; var r := Init(cfg, Powered(cut, script), FreshRam(cfg));
      r.status != EraseError ==>
        (r.status == OldData <==>
           && Torn(cfg, Next(cfg, ram), k) != Next(cfg, ram)
           && (Overshadowed(cfg, chip.blocks) || (k > 0 && SameSector(cfg, ram))))
  {
    CutSave(cfg, chip, ram, k);
    ReclaimWorks(cfg, chip, ram, Dones(k) + [Cut]);
    ReclaimKeepsShadow(cfg, chip, ram, Dones(k) + [Cut]);
    var e := Reclaim(cfg, chip, ram);
    CutShadow(cfg, e.chip.blocks, e.ram, k);
    StatusExact(cfg, Powered(Update(cfg, chip, ram).chip, script));
  }

  /** The cursor stands in the sector of the latest good block. */
  predicate SameSector(cfg: Config, ram: Ram)
    requires ram.next < cfg.Slots() && (ram.data.Some? ==> ram.data.value < cfg.Slots())
  {
    ram.data.Some? && cfg.SectorOf(ram.next) == cfg.SectorOf(ram.data.value)
  }

  lemma CutShadow(cfg: Config, blocks: seq<Image>, ram: Ram, k: nat)
    requires Current(cfg, blocks, ram) && !RingFull(cfg, ram) && k < cfg.pages && ram.buffer.count < 0xFFFF_FFFF
    requires var torn := Torn(cfg, Next(cfg, ram), k); torn == Next(cfg, ram) || !cfg.Good(torn)
    ensures var torn := Torn(cfg, Next(cfg, ram), k); var r := blocks[ram.next := torn];
      && Ordered(cfg, r)
      && (Overshadowed(cfg, r) <==>
            torn != Next(cfg, ram) && (Overshadowed(cfg, blocks) || (k > 0 && SameSector(cfg, ram))))
  {
    var torn := Torn(cfg, Next(cfg, ram), k);
    CutFlash(cfg, blocks, ram, k);
    if torn == Next(cfg, ram) {
      AboveCursor(cfg, blocks, ram);
      NoneAbove(cfg, blocks[ram.next := torn], ram.next);
    } else {
      BadBlockShadows(cfg, blocks, ram, torn);
    }
  }

  lemma NoneAbove(cfg: Config, blocks: seq<Image>, d: nat)
    requires |blocks| == cfg.Slots() && d < cfg.Slots() && Latest(cfg, blocks) == Some(d)
    requires forall s :: d < s < cfg.Start(cfg.SectorOf(d)) + cfg.n ==> blocks[s].count == 0
    ensures !Overshadowed(cfg, blocks)
  {
  }

  /** A block at the cursor that fails the check overshadows the latest block exactly if it is visible in its sector. */
  lemma BadBlockShadows(cfg: Config, blocks: seq<Image>, ram: Ram, b: Image)
    requires Current(cfg, blocks, ram) && !RingFull(cfg, ram) && !cfg.Good(b)
    ensures Overshadowed(cfg, blocks[ram.next := b])
      <==> Overshadowed(cfg, blocks) || (b.count != 0 && SameSector(cfg, ram))
  {
    BadBlockHides(cfg, blocks, ram, b);
    CursorErased(cfg, blocks, ram, ram.next);
    if ram.data.Some? {
      if SameSector(cfg, ram) { CursorAboveLatest(cfg, blocks, ram); }
      FilledAfter(cfg, blocks, ram.data.value, ram.next, b);
    }
  }

  lemma CursorAboveLatest(cfg: Config, blocks: seq<Image>, ram: Ram)
    requires Current(cfg, blocks, ram) && !RingFull(cfg, ram) && SameSector(cfg, ram)
    ensures ram.data.value < ram.next
  {
    if ram.next <= ram.data.value { CursorErased(cfg, blocks, ram, ram.data.value); }
  }

  lemma FilledAfter(cfg: Config, blocks: seq<Image>, d: nat, next: nat, b: Image)
    requires |blocks| == cfg.Slots() && d < cfg.Slots() && next < cfg.Slots() && blocks[next].count == 0
    requires cfg.SectorOf(next) == cfg.SectorOf(d) ==> d < next
    ensures var end := cfg.Start(cfg.SectorOf(d)) + cfg.n;
      AnyFilled(blocks[next := b], d + 1, end)
      <==> AnyFilled(blocks, d + 1, end) || (b.count != 0 && cfg.SectorOf(next) == cfg.SectorOf(d))
  {
    var end, r := cfg.Start(cfg.SectorOf(d)) + cfg.n, blocks[next := b];
    if s :| d + 1 <= s < end && blocks[s].count != 0 { assert r[s].count != 0; }
    if s :| d + 1 <= s < end && r[s].count != 0 { assert s == next || blocks[s].count != 0; }
    if b.count != 0 && cfg.SectorOf(next) == cfg.SectorOf(d) { assert r[next].count != 0; }
  }

  /** The flash after a save cut after `k` pages: in order, its latest block the new one or the old one. */
  lemma CutFlash(cfg: Config, blocks: seq<Image>, ram: Ram, k: nat)
    requires Current(cfg, blocks, ram) && !RingFull(cfg, ram) && k < cfg.pages && ram.buffer.count < 0xFFFF_FFFF
    requires var torn := Torn(cfg, Next(cfg, ram), k); torn == Next(cfg, ram) || !cfg.Good(torn)
    ensures var torn := Torn(cfg, Next(cfg, ram), k); var r := blocks[ram.next := torn];
      Ordered(cfg, r) && Latest(cfg, r) == if cfg.Good(torn) then Some(ram.next) else ram.data
  {
    var torn := Torn(cfg, Next(cfg, ram), k);
    if cfg.Good(torn) {
      NewBlockRises(cfg, blocks, ram, torn);
    } else {
      BadBlockHides(cfg, blocks, ram, torn);
    }
  }

  /** Above the cursor its sector is erased. */
  lemma AboveCursor(cfg: Config, blocks: seq<Image>, ram: Ram)
    requires Roomy(cfg, blocks, ram) && !RingFull(cfg, ram)
    ensures forall s :: ram.next < s < cfg.Start(cfg.SectorOf(ram.next)) + cfg.n ==> blocks[s].count == 0
  {
    forall s | ram.next < s < cfg.Start(cfg.SectorOf(ram.next)) + cfg.n
      ensures blocks[s].count == 0
    {
      assert cfg.SectorOf(s) == cfg.SectorOf(ram.next);
      CursorErased(cfg, blocks, ram, s);
    }
  }

  // ---- wrapping onto the last good sector ---------------------------------------------------------------------------

  lemma {:induction false} ClobberedStays(cfg: Config, chip: Chip, slot: nat, img: Image, k: nat)
    requires chip.Fits(cfg) && cfg.Fits(img) && slot < cfg.Slots() && k <= cfg.pages && chip.clobbered
    ensures WritePages(cfg, chip, slot, img, k).0.clobbered
    decreases cfg.pages - k
  {
    if k < cfg.pages { ClobberedStays(cfg, ProgramPage(cfg, chip, slot, img, k).0, slot, img, k + 1); }
  }

  /** With the power on and the first operation working, a save clobbers exactly if its slot is not erased. */
  lemma WriteClobbersIff(cfg: Config, chip: Chip, slot: nat, img: Image)
    requires chip.Fits(cfg) && WellFormed(cfg, chip.blocks) && cfg.Fits(img) && slot < cfg.Slots()
    requires chip.on && chip.Fate().Done? && !chip.clobbered
    ensures WritePages(cfg, chip, slot, img, 0).0.clobbered <==> chip.blocks[slot].count != 0
  {
    if chip.blocks[slot].count != 0 {
      ClobberedStays(cfg, ProgramPage(cfg, chip, slot, img, 0).0, slot, img, 1);
    } else {
      var k, junk := WriteShape(cfg, chip, slot, img, 0);
    }
  }

  /**
   Program-once at a wrap is exact: with no flash errors, the save of a full ring programs a page that is not
   erased if and only if the latest good block lies in the sector about to be reused.
   */
  lemma WrapClobbersIff(cfg: Config, chip: Chip, ram: Ram)
    requires chip.Fits(cfg) && chip.on && chip.script == [] && !chip.clobbered
    requires Inv(cfg, chip.blocks, ram) && RingFull(cfg, ram)
    ensures Update(cfg, chip, ram).chip.clobbered <==> !WrapSafe(cfg, ram)
  {
    var start := ram.(sector := HomeSector(cfg, ram.data), dirty := [true, true, true, true]);
    EraseNoTrouble(cfg, chip, start, 0);
    var E := EraseShape(cfg, chip, start, 0);
    ErasedKeepsFlash(cfg, chip.blocks, E);
    AllStale(start);
    StartIsHome(cfg, ram.sector);
    var e := Reclaim(cfg, chip, ram);
    WriteClobbersIff(cfg, e.chip, ram.next, Next(cfg, e.ram));
  }

  // ---- the counter at its maximum -----------------------------------------------------------------------------------

  /** A save without trouble is remembered if and only if the counter is not at its 32-bit maximum. */
  lemma CounterLimitIff(cfg: Config, chip: Chip, ram: Ram)
    requires chip.Fits(cfg) && chip.on && chip.script == []
    requires Inv(cfg, chip.blocks, ram) && WrapSafe(cfg, ram)
    ensures Content(cfg, Update(cfg, chip, ram).chip.blocks) == Some(Next(cfg, ram)) <==> ram.buffer.count < 0xFFFF_FFFF
  {
    if RingFull(cfg, ram) {
      EraseNoTrouble(cfg, chip, ram.(sector := HomeSector(cfg, ram.data), dirty := [true, true, true, true]), 0);
    }
    ReclaimKeeps(cfg, chip, ram);
    var e := Reclaim(cfg, chip, ram);
    assert Next(cfg, e.ram) == Next(cfg, ram);
    AppendLimit(cfg, e.chip, e.ram);
  }

  lemma AppendLimit(cfg: Config, chip: Chip, ram: Ram)
    requires chip.Fits(cfg) && chip.on && chip.script == []
    requires Inv(cfg, chip.blocks, ram) && !RingFull(cfg, ram)
    ensures Content(cfg, Append(cfg, chip, ram).chip.blocks) == Some(Next(cfg, ram)) <==> ram.buffer.count < 0xFFFF_FFFF
  {
    var img := Next(cfg, ram);
    CursorErased(cfg, chip.blocks, ram, ram.next);
    WriteNoTrouble(cfg, chip, ram.next, img, 0);
    if ram.buffer.count < 0xFFFF_FFFF {
      NewBlockRises(cfg, chip.blocks, ram, img);
    } else {
      assert !cfg.Good(img);
    }
  }

  /** The page loop with the power on and no trouble; on an erased slot it leaves the block there. */
  lemma {:induction false} WriteNoTrouble(cfg: Config, chip: Chip, slot: nat, img: Image, k: nat)
    requires chip.Fits(cfg) && cfg.Fits(img) && slot < cfg.Slots() && k <= cfg.pages && chip.on && chip.script == []
    ensures var (c, ok) := WritePages(cfg, chip, slot, img, k);
      && ok && c.on && c.script == [] && c.wear == chip.wear
      && (chip.blocks[slot] == Torn(cfg, img, k) ==> c == chip.(blocks := chip.blocks[slot := img]))
    decreases cfg.pages - k
  {
    if k < cfg.pages {
      TornGrows(cfg, img, k);
      WriteNoTrouble(cfg, ProgramPage(cfg, chip, slot, img, k).0, slot, img, k + 1);
    } else {
      TornGrows(cfg, img, cfg.pages - 1);
    }
  }
}
