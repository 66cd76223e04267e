/** Wear levelling: how the saves of an undisturbed store walk round the slots and spread the erasures. */
module EepromWear {
  import opened Basics
  import opened FlashChip
  import opened EepromSpec
  import opened EepromScan
  import opened EepromEffects
  import opened EepromInvariant
  import opened EepromDurability
  import opened EepromPasses
  import opened EepromEdges

  // ---- the reference schedule ---------------------------------------------------------------------------------------

  /** `passes` erase passes so far and `since` saves since the last one. */
  datatype Clock = Clock(passes: nat, since: nat)

  /** Saves from one pass to the next: the whole ring at first, then all but one sector. */
  function Lap(n: nat, passes: nat): nat {
    if passes == 0 then 4 * n else 3 * n
  }

  function Tick(n: nat, c: Clock): Clock {
    if c.since == Lap(n, c.passes) then Clock(c.passes + 1, 1) else Clock(c.passes, c.since + 1)
  }

  function ClockAt(n: nat, m: nat): Clock {
    if m == 0 then Clock(0, 0) else Tick(n, ClockAt(n, m - 1))
  }

  /** The sector kept by the last of `p` passes: 3, 2, 1, 0, 3 and so on downwards. */
  function ActiveAt(p: nat): (j: nat)
    ensures j < 4
  {
    (4 - p % 4) % 4
  }

  /** Erasures of sector `j` in the first `p` passes: every pass erases it but those that keep it. */
  function WearAt(p: nat, j: nat): nat {
    if p == 0 then 0 else WearAt(p - 1, j) + if j == ActiveAt(p) then 0 else 1
  }

  /** The slot the `m`-th save from the start goes to, counting from 0: one further round the ring each time. */
  function SlotAt(cfg: Config, m: nat): (s: nat)
    ensures s < cfg.Slots()
  {
    if m == 0 then 0 else cfg.Succ(SlotAt(cfg, m - 1))
  }

  /** Save `m` falls in the lap after pass `c.passes`, which came just before save 4n + 3n(c.passes - 1) + 1. */
  ghost predicate Timed(n: nat, m: nat, c: Clock) {
    if c.passes == 0 then m == c.since <= 4 * n
    else m == 4 * n + 3 * n * (c.passes - 1) + c.since && 1 <= c.since <= 3 * n
  }

  lemma {:induction false} ClockMeaning(n: Pos, m: nat)
    ensures Timed(n, m, ClockAt(n, m))
  {
    if m > 0 {
      ClockMeaning(n, m - 1);
      var c := ClockAt(n, m - 1);
      if c.passes > 0 && c.since == 3 * n { assert 3 * n * c.passes == 3 * n * (c.passes - 1) + 3 * n; }
    }
  }

  /** The pass number determines every sector's count up to one. */
  lemma {:induction false} WearBalanced(p: nat, i: nat, j: nat)
    requires i < 4 && j < 4
    ensures WearAt(p, i) <= WearAt(p, j) + 1
  {
    WearClosed(p, i);
    WearClosed(p, j);
  }

  lemma {:induction false} WearClosed(p: nat, j: nat)
    requires j < 4
    ensures WearAt(p, j) == p - p / 4 - if j + p % 4 >= 4 then 1 else 0
  {
    if p > 0 {
      WearClosed(p - 1, j);
      var q, r := (p - 1) / 4, (p - 1) % 4;
      assert if r == 3 then p / 4 == q + 1 && p % 4 == 0 else p / 4 == q && p % 4 == r + 1;
    }
  }

  // ---- one undisturbed save -----------------------------------------------------------------------------------------

  lemma {:induction false} EraseWear(cfg: Config, chip: Chip, ram: Ram, j: nat, i: nat)
    requires chip.Fits(cfg) && ram.Fits(cfg) && j <= 4 && i < 4 && chip.on && chip.script == []
    ensures ErasePass(cfg, chip, ram, j).chip.wear[i] == chip.wear[i] + if i in Stale(ram, j) then 1 else 0
    decreases 4 - j
  {
    if j < 4 {
      if ram.sector != j && ram.dirty[j] {
        EraseWear(cfg, EraseSector(cfg, chip, j).0, ram.(dirty := ram.dirty[j := false]), j + 1, i);
      } else {
        EraseWear(cfg, chip, ram, j + 1, i);
      }
    }
  }

  /** The state after `m` saves agrees with the schedule. */
  ghost predicate OnSchedule(cfg: Config, chip: Chip, ram: Ram, m: nat)
    requires chip.Fits(cfg)
  {
    var c := ClockAt(cfg.n, m);
    && chip.on && chip.script == []
    && ram.Fits(cfg)
    && ram.buffer.count == m
    && ram.next == SlotAt(cfg, m)
    && ram.sector == ActiveAt(c.passes)
    && (m == 0 ==> ram.data.None?)
    && (m > 0 ==> ram.data == Some(SlotAt(cfg, m - 1)))
    && (forall j :: 0 <= j < 4 ==> chip.wear[j] == WearAt(c.passes, j))
  }

  /** Where a lap begins: just past the sector last kept. */
  function LapStart(cfg: Config, p: nat): nat {
    if p == 0 then 0 else cfg.Start((ActiveAt(p) + 1) % 4)
  }

  /** Where the cursor stands: `since` slots on from the start of its lap. */
  function CursorAt(cfg: Config, c: Clock): int {
    var s := LapStart(cfg, c.passes) + c.since;
    if s >= cfg.Slots() then s - cfg.Slots() else s
  }

  /** A lap ends at the first slot of the sector last kept, which is where the next lap begins. */
  lemma LapEnds(cfg: Config, p: nat)
    ensures CursorAt(cfg, Clock(p, Lap(cfg.n, p))) == cfg.Start(ActiveAt(p)) == LapStart(cfg, p + 1)
    ensures LapStart(cfg, p) < cfg.Slots()
  {
    assert (ActiveAt(p + 1) + 1) % 4 == ActiveAt(p);
  }

  lemma {:induction false} SlotOfClock(cfg: Config, m: nat)
    ensures SlotAt(cfg, m) == CursorAt(cfg, ClockAt(cfg.n, m))
  {
    if m > 0 {
      SlotOfClock(cfg, m - 1);
      ClockMeaning(cfg.n, m - 1);
      CursorTicks(cfg, ClockAt(cfg.n, m - 1));
    }
  }

  lemma CursorTicks(cfg: Config, c: Clock)
    requires c.since <= Lap(cfg.n, c.passes)
    ensures CursorAt(cfg, Tick(cfg.n, c)) == cfg.Succ(CursorAt(cfg, c))
  {
    LapEnds(cfg, c.passes);
  }

  /** The ring is full exactly at the end of a lap, and the latest block then lies in the next sector to keep. */
  lemma FullAtLapEnd(cfg: Config, m: nat)
    requires m > 0
    ensures var c := ClockAt(cfg.n, m);
      && (SlotAt(cfg, m) == cfg.Start(ActiveAt(c.passes)) <==> c.since == Lap(cfg.n, c.passes))
      && (c.since == Lap(cfg.n, c.passes) ==> cfg.SectorOf(SlotAt(cfg, m - 1)) == ActiveAt(c.passes + 1))
  {
    SlotOfClock(cfg, m);
    ClockMeaning(cfg.n, m);
    LapGeometry(cfg, ClockAt(cfg.n, m), SlotAt(cfg, m - 1));
  }

  lemma LapGeometry(cfg: Config, c: Clock, last: nat)
    requires c.since <= Lap(cfg.n, c.passes) && c.since >= 1 && last < cfg.Slots() && cfg.Succ(last) == CursorAt(cfg, c)
    ensures CursorAt(cfg, c) == cfg.Start(ActiveAt(c.passes)) <==> c.since == Lap(cfg.n, c.passes)
    ensures c.since == Lap(cfg.n, c.passes) ==> cfg.SectorOf(last) == ActiveAt(c.passes + 1)
  {
    assert (c.passes + 1) % 4 == if c.passes % 4 == 3 then 0 else c.passes % 4 + 1;
  }

  /** An undisturbed pass over a full ring erases each sector but the active one, once. */
  lemma PassWear(cfg: Config, chip: Chip, ram: Ram)
    requires chip.Fits(cfg) && ram.Fits(cfg) && ram.dirty == [true, true, true, true] && chip.on && chip.script == []
    ensures var e := ErasePass(cfg, chip, ram, 0);
      && e.status == Ok && e.chip.on && e.chip.script == []
      && forall j :: 0 <= j < 4 ==> e.chip.wear[j] == chip.wear[j] + if j == ram.sector then 0 else 1
  {
    EraseNoTrouble(cfg, chip, ram, 0);
    AllStale(ram);
    forall j | 0 <= j < 4
      ensures ErasePass(cfg, chip, ram, 0).chip.wear[j] == chip.wear[j] + if j == ram.sector then 0 else 1
    {
      EraseWear(cfg, chip, ram, 0, j);
    }
  }

  /** One more save keeps to the schedule; its erase pass, if due, erases all but the latest block's sector. */
  lemma SaveOnSchedule(cfg: Config, chip: Chip, ram: Ram, m: nat)
    requires chip.Fits(cfg) && OnSchedule(cfg, chip, ram, m) && m < 0xFFFF_FFFF
    ensures var r := Update(cfg, chip, ram); r.status == Ok && OnSchedule(cfg, r.chip, r.ram, m + 1)
  {
    ReclaimOnSchedule(cfg, chip, ram, m);
    var e := Reclaim(cfg, chip, ram);
    WriteNoTrouble(cfg, e.chip, e.ram.next, Next(cfg, e.ram), 0);
  }

  /** The reclaim runs exactly when a lap has ended, and moves the active sector and the erase counts on by one pass. */
  lemma ReclaimOnSchedule(cfg: Config, chip: Chip, ram: Ram, m: nat)
    requires chip.Fits(cfg) && OnSchedule(cfg, chip, ram, m)
    ensures RingFull(cfg, ram) <==> ClockAt(cfg.n, m).since == Lap(cfg.n, ClockAt(cfg.n, m).passes)
    ensures var e := Reclaim(cfg, chip, ram); var p := ClockAt(cfg.n, m + 1).passes;
      && e.status == Ok && e.chip.on && e.chip.script == [] && e.ram.sector == ActiveAt(p)
      && forall j :: 0 <= j < 4 ==> e.chip.wear[j] == WearAt(p, j)
  {
    if m > 0 { FullAtLapEnd(cfg, m); }
    if RingFull(cfg, ram) {
      PassWear(cfg, chip, ram.(sector := HomeSector(cfg, ram.data), dirty := [true, true, true, true]));
    }
  }

  /** `Saves` of the given buffers one after the other. */
  function Saves(cfg: Config, chip: Chip, ram: Ram, buffers: seq<seq<Byte>>): (r: Result)
    requires chip.Fits(cfg) && ram.Fits(cfg) && ram.next < cfg.Slots()
    requires ram.data.Some? ==> ram.data.value < cfg.Slots()
    requires forall i :: 0 <= i < |buffers| ==> |buffers[i]| == cfg.DataSize()
    ensures r.chip.Fits(cfg) && r.ram.Fits(cfg) && r.ram.next < cfg.Slots()
    ensures r.ram.data.Some? ==> r.ram.data.value < cfg.Slots()
    decreases |buffers|
  {
    if |buffers| == 0 then Result(chip, ram, Ok)
    else
      var m := |buffers| - 1;
      var r := Saves(cfg, chip, ram, buffers[..m]);
      Update(cfg, r.chip, r.ram.(buffer := r.ram.buffer.(data := buffers[m])))
  }

  lemma {:induction false} SavesOnSchedule(cfg: Config, chip: Chip, ram: Ram, buffers: seq<seq<Byte>>)
    requires chip.Fits(cfg) && OnSchedule(cfg, chip, ram, 0) && |buffers| <= 0xFFFF_FFFF
    requires forall i :: 0 <= i < |buffers| ==> |buffers[i]| == cfg.DataSize()
    ensures var r := Saves(cfg, chip, ram, buffers); OnSchedule(cfg, r.chip, r.ram, |buffers|)
    decreases |buffers|
  {
    if |buffers| > 0 {
      var m := |buffers| - 1;
      SavesOnSchedule(cfg, chip, ram, buffers[..m]);
      var r := Saves(cfg, chip, ram, buffers[..m]);
      SaveOnSchedule(cfg, r.chip, r.ram.(buffer := r.ram.buffer.(data := buffers[m])), m);
    }
  }

  /** Start-up on an erased flash: nothing to erase, nothing found, the cursor at the first slot. */
  lemma EmptyInit(cfg: Config, chip: Chip)
    requires chip.Fits(cfg) && AllBlank(cfg, chip.blocks)
    ensures var r := Init(cfg, chip, FreshRam(cfg));
      r.chip == chip && r.status == Ok && r.ram.data.None? && r.ram.sector == 0
      && r.ram.next == 0 && r.ram.buffer.count == 0
  {
    assert Latest(cfg, chip.blocks).None?;
    InitIdle(cfg, chip);
    EmptyScan(cfg, chip.blocks);
  }

  lemma EmptyScan(cfg: Config, blocks: seq<Image>)
    requires FlashInv(cfg, blocks) && Latest(cfg, blocks).None?
    ensures var ram := Scan(cfg, blocks, FreshRam(cfg)); ram.data.None? && ram.buffer == cfg.Blank()
  {
    ScanMeaning(cfg, blocks);
  }

  /** The state start-up leaves on an erased flash is the first on the schedule. */
  lemma EmptyOnSchedule(cfg: Config, chip: Chip, ram: Ram)
    requires chip.Fits(cfg) && chip.on && chip.script == [] && chip.wear == [0, 0, 0, 0] && ram.Fits(cfg)
    requires ram.data.None? && ram.sector == 0 && ram.next == 0 && ram.buffer.count == 0
    ensures OnSchedule(cfg, chip, ram, 0)
  {
  }

  /** `boot` is the state after starting up on an erased, unworn flash. */
  ghost predicate FreshBoot(cfg: Config, chip: Chip, boot: Result) {
    && chip.Fits(cfg) && AllBlank(cfg, chip.blocks) && chip.on && chip.script == [] && chip.wear == [0, 0, 0, 0]
    && boot == Init(cfg, chip, FreshRam(cfg))
  }

  lemma FreshBootOnSchedule(cfg: Config, chip: Chip, boot: Result)
    requires FreshBoot(cfg, chip, boot)
    ensures boot.chip.Fits(cfg) && boot.ram.next < cfg.Slots() && OnSchedule(cfg, boot.chip, boot.ram, 0)
  {
    EmptyInit(cfg, chip);
    EmptyOnSchedule(cfg, boot.chip, boot.ram);
  }

  /**
   Wear levelling. From an erased flash, after any number of undisturbed saves: the saves have gone round the
   slots in order, an erase pass has come just before save 4n+1 and every 3n saves from there, and no two sectors
   have been erased a number of times that differs by more than one.
   */
  lemma WearLevelled(cfg: Config, chip: Chip, boot: Result, buffers: seq<seq<Byte>>, i: nat, j: nat)
    requires FreshBoot(cfg, chip, boot) && |buffers| <= 0xFFFF_FFFF && i < 4 && j < 4
    requires forall k :: 0 <= k < |buffers| ==> |buffers[k]| == cfg.DataSize()
    ensures boot.chip.Fits(cfg) && boot.ram.Fits(cfg) && boot.ram.next < cfg.Slots() && boot.ram.data.None?
    ensures Levelled(cfg, Saves(cfg, boot.chip, boot.ram, buffers), |buffers|, i, j)
  {
    FreshBootOnSchedule(cfg, chip, boot);
    SavesLevelled(cfg, boot.chip, boot.ram, buffers, i, j);
  }

  /** The cursor, the time of the last erase pass, and the balance of sectors `i` and `j` after `m` saves. */
  ghost predicate Levelled(cfg: Config, r: Result, m: nat, i: nat, j: nat)
    requires |r.chip.wear| == 4 && i < 4 && j < 4
  {
    var c := ClockAt(cfg.n, m);
    && r.ram.next == SlotAt(cfg, m)
    && Timed(cfg.n, m, c)
    && r.chip.wear[i] == WearAt(c.passes, i)
    && r.chip.wear[i] <= r.chip.wear[j] + 1
  }

  lemma SavesLevelled(cfg: Config, chip: Chip, ram: Ram, buffers: seq<seq<Byte>>, i: nat, j: nat)
    requires chip.Fits(cfg) && OnSchedule(cfg, chip, ram, 0) && |buffers| <= 0xFFFF_FFFF && i < 4 && j < 4
    requires forall k :: 0 <= k < |buffers| ==> |buffers[k]| == cfg.DataSize()
    ensures Levelled(cfg, Saves(cfg, chip, ram, buffers), |buffers|, i, j)
  {
    SavesOnSchedule(cfg, chip, ram, buffers);
    ClockMeaning(cfg.n, |buffers|);
    WearBalanced(ClockAt(cfg.n, |buffers|).passes, i, j);
  }
}
