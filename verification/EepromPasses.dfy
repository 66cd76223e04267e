/** Erase passes under a given script: those that work throughout, and those that meet an error at some sector. */
module EepromPasses {
  import opened FlashChip
  import opened EepromSpec
  import opened EepromEffects
  import opened EepromInvariant
  import opened EepromDurability
  import opened EepromRuns

  /** `m` operations that work. */
  function Dones(m: nat): (s: seq<Outcome>)
    ensures |s| == m && NoFaults(s)
  {
    seq(m, _ => Done)
  }

  lemma DonesTail(m: nat, tail: seq<Outcome>)
    requires m > 0
    ensures (Dones(m) + tail)[1..] == Dones(m - 1) + tail
  {
  }

  lemma {:induction false} EraseNoTrouble(cfg: Config, chip: Chip, ram: Ram, j: nat)
    requires chip.Fits(cfg) && ram.Fits(cfg) && j <= 4 && chip.on && chip.script == []
    ensures var e := ErasePass(cfg, chip, ram, j); e.status == Ok && e.chip.on && e.chip.script == []
    decreases 4 - j
  {
    if j < 4 {
      if ram.sector != j && ram.dirty[j] {
        EraseNoTrouble(cfg, EraseSector(cfg, chip, j).0, ram.(dirty := ram.dirty[j := false]), j + 1);
      } else {
        EraseNoTrouble(cfg, chip, ram, j + 1);
      }
    }
  }

  /** The sectors from `j` up to `f` that an erase pass is after, and how many they are. */
  function StaleIn(ram: Ram, j: nat, f: nat): set<nat>
    requires |ram.dirty| == 4
  {
    Stale(ram, j) - Stale(ram, f)
  }

  function StaleCount(ram: Ram, j: nat, f: nat): nat
    requires |ram.dirty| == 4 && j <= f <= 4
    decreases f - j
  {
    if j == f then 0 else (if ram.sector != j && ram.dirty[j] then 1 else 0) + StaleCount(ram, j + 1, f)
  }

  lemma {:induction false} StaleCountKept(ram: Ram, other: Ram, j: nat, f: nat)
    requires |ram.dirty| == |other.dirty| == 4 && j <= f <= 4 && ram.sector == other.sector
    requires forall i :: j <= i < f ==> ram.dirty[i] == other.dirty[i]
    ensures StaleCount(ram, j, f) == StaleCount(other, j, f)
    decreases f - j
  {
    if j < f { StaleCountKept(ram, other, j + 1, f); }
  }

  /** One sector erase that works, as the first of `m`. */
  lemma EraseWorks(cfg: Config, chip: Chip, j: nat, m: nat, tail: seq<Outcome>)
    requires chip.Fits(cfg) && j < 4 && chip.on && m > 0 && chip.script == Dones(m) + tail
    ensures var (c, ok) := EraseSector(cfg, chip, j);
      && ok && c.on && c.script == Dones(m - 1) + tail && c.clobbered == chip.clobbered
      && c.blocks == Erased(cfg, chip.blocks, {j})
  {
    DonesTail(m, tail);
  }

  lemma StaleInStep(ram: Ram, cleaned: Ram, j: nat, f: nat)
    requires |ram.dirty| == 4 && j < f <= 4 && cleaned == ram.(dirty := ram.dirty[j := false])
    ensures StaleIn(ram, j, f) == (if j in Stale(ram, j) then {j} else {}) + StaleIn(cleaned, j + 1, f)
  {
    assert Stale(cleaned, f) == Stale(ram, f);
    assert Stale(ram, j) == (if j in Stale(ram, j) then {j} else {}) + Stale(cleaned, j + 1);
  }

  /** An erase pass has come from one state to the next, with the sectors in `E` erased on the way. */
  ghost predicate ErasedTo(cfg: Config, chip: Chip, ram: Ram, E: set<nat>, tail: seq<Outcome>, c: Chip, r: Ram)
    requires |chip.blocks| == cfg.Slots()
  {
    && c.Fits(cfg) && r.Fits(cfg) && r == ram.(dirty := r.dirty)
    && c.on && c.script == tail && c.clobbered == chip.clobbered
    && c.blocks == Erased(cfg, chip.blocks, E)
  }

  /** While its erasures work, the pass gets to sector `f` with exactly the stale sectors below it erased. */
  lemma {:induction false} ErasesTo(cfg: Config, chip: Chip, ram: Ram, j: nat, f: nat, tail: seq<Outcome>)
    returns (c: Chip, r: Ram)
    requires chip.Fits(cfg) && ram.Fits(cfg) && j <= f <= 4 && chip.on
    requires chip.script == Dones(StaleCount(ram, j, f)) + tail
    ensures ErasedTo(cfg, chip, ram, StaleIn(ram, j, f), tail, c, r)
    ensures ErasePass(cfg, chip, ram, j) == ErasePass(cfg, c, r, f)
    ensures forall i :: f <= i < 4 ==> r.dirty[i] == ram.dirty[i]
    decreases f - j, 1
  {
    if j == f {
      ErasedNone(cfg, chip.blocks);
      c, r := chip, ram;
      assert StaleIn(ram, j, f) == {} && Dones(0) + tail == tail;
    } else if ram.sector != j && ram.dirty[j] {
      c, r := ErasesPast(cfg, chip, ram, j, f, tail);
    } else {
      c, r := ErasesTo(cfg, chip, ram, j + 1, f, tail);
      assert Stale(ram, j) == Stale(ram, j + 1);
    }
  }

  lemma {:induction false} ErasesPast(cfg: Config, chip: Chip, ram: Ram, j: nat, f: nat, tail: seq<Outcome>)
    returns (c: Chip, r: Ram)
    requires chip.Fits(cfg) && ram.Fits(cfg) && j < f <= 4 && chip.on && ram.sector != j && ram.dirty[j]
    requires chip.script == Dones(StaleCount(ram, j, f)) + tail
    ensures ErasedTo(cfg, chip, ram, StaleIn(ram, j, f), tail, c, r)
    ensures ErasePass(cfg, chip, ram, j) == ErasePass(cfg, c, r, f)
    ensures forall i :: f <= i < 4 ==> r.dirty[i] == ram.dirty[i]
    decreases f - j, 0
  {
    var cleaned := ram.(dirty := ram.dirty[j := false]);
    var erased := EraseSector(cfg, chip, j).0;
    EraseWorks(cfg, chip, j, StaleCount(ram, j, f), tail);
    StaleCountKept(ram, cleaned, j + 1, f);
    c, r := ErasesTo(cfg, erased, cleaned, j + 1, f, tail);
    StaleInStep(ram, cleaned, j, f);
    ErasedTwice(cfg, chip.blocks, {j}, StaleIn(cleaned, j + 1, f));
  }

  /** The sector erasures a save makes before it programs. */
  function Erasures(cfg: Config, ram: Ram): nat {
    if RingFull(cfg, ram) then 3 else 0
  }

  /**
   A reclaim whose erasures work leaves room, the latest block the latest, and the rest of the script to the page loop.
   */
  lemma ReclaimWorks(cfg: Config, chip: Chip, ram: Ram, tail: seq<Outcome>)
    requires chip.Fits(cfg) && chip.on && Current(cfg, chip.blocks, ram) && WrapSafe(cfg, ram)
    requires chip.script == Dones(Erasures(cfg, ram)) + tail
    ensures var e := Reclaim(cfg, chip, ram);
      && e.status == Ok && e.chip.on && e.chip.script == tail
      && Current(cfg, e.chip.blocks, e.ram) && !RingFull(cfg, e.ram)
      && e.ram == ram.(sector := e.ram.sector, dirty := e.ram.dirty) && e.chip.clobbered == chip.clobbered
      && Content(cfg, e.chip.blocks) == Content(cfg, chip.blocks)
  {
    var E := ReclaimErases(cfg, chip, ram);
    ErasedKeepsLatest(cfg, chip.blocks, E);
    if RingFull(cfg, ram) {
      var c, r := PassWorks(cfg, chip, ram, tail);
    } else {
      assert Dones(0) + tail == tail;
    }
  }

  /** The erase pass of a full ring, all of it. */
  lemma PassWorks(cfg: Config, chip: Chip, ram: Ram, tail: seq<Outcome>) returns (c: Chip, r: Ram)
    requires chip.Fits(cfg) && chip.on && ram.Fits(cfg) && RingFull(cfg, ram)
    requires ram.data.Some? ==> ram.data.value < cfg.Slots()
    requires chip.script == Dones(3) + tail
    ensures Reclaim(cfg, chip, ram) == Result(c, r, Ok)
    ensures ErasedTo(cfg, chip, ram.(sector := HomeSector(cfg, ram.data)),
                     AllBut(HomeSector(cfg, ram.data)), tail, c, r)
  {
    var start := ram.(sector := HomeSector(cfg, ram.data), dirty := [true, true, true, true]);
    CountOthers(start);
    c, r := ErasesTo(cfg, chip, start, 0, 4, tail);
  }

  lemma CountOthers(ram: Ram)
    requires ram.dirty == [true, true, true, true] && ram.sector < 4
    ensures StaleCount(ram, 0, 4) == 3 && StaleIn(ram, 0, 4) == AllBut(ram.sector)
  {
    AllStale(ram);
    assert Stale(ram, 4) == {};
    CountBelow(ram, 4);
  }

  // ---- the first error ----------------------------------------------------------------------------------------------

  /** An erase pass from sector `j` that meets its first error at sector `f`. */
  ghost predicate FailsAt(cfg: Config, chip: Chip, ram: Ram, j: nat, f: nat, junk: Image) {
    && chip.Fits(cfg) && ram.Fits(cfg) && j <= f < 4 && f in Stale(ram, j) && chip.on && !chip.clobbered
    && chip.script == Dones(StaleCount(ram, j, f)) + [Fault(junk)]
  }

  ghost predicate StoppedAt(cfg: Config, chip: Chip, E: set<nat>, e: Result)
    requires |chip.blocks| == cfg.Slots()
  {
    e.status == EraseError && !e.chip.clobbered && e.chip.blocks == Erased(cfg, chip.blocks, E)
  }

  /** It has erased exactly the stale sectors below `f`. */
  lemma EraseStopsAt(cfg: Config, chip: Chip, ram: Ram, j: nat, f: nat, junk: Image)
    requires FailsAt(cfg, chip, ram, j, f, junk)
    ensures StoppedAt(cfg, chip, StaleIn(ram, j, f), ErasePass(cfg, chip, ram, j))
  {
    var c, r := ErasesTo(cfg, chip, ram, j, f, [Fault(junk)]);
    assert r.sector != f && r.dirty[f];
    FailingErase(cfg, c, r, f);
  }

  lemma FailingErase(cfg: Config, chip: Chip, ram: Ram, j: nat)
    requires chip.Fits(cfg) && ram.Fits(cfg) && j < 4 && chip.on && chip.Fate().Fault? && ram.sector != j
    requires ram.dirty[j]
    ensures ErasePass(cfg, chip, ram, j) == Result(chip.Advance(), ram, EraseError)
  {
  }

  /** The sectors below `f`. */
  function Below(f: nat): set<nat>
    requires f < 4
  {
    if f == 0 then {} else if f == 1 then {0} else if f == 2 then {0, 1} else {0, 1, 2}
  }

  lemma StaleBelow(ram: Ram, f: nat)
    requires ram.dirty == [true, true, true, true] && ram.sector < 4 && f < 4 && f != ram.sector
    ensures f in Stale(ram, 0)
    ensures StaleIn(ram, 0, f) == Below(f) - {ram.sector}
    ensures StaleCount(ram, 0, f) == if f < ram.sector then f else f - 1
  {
    assert forall i :: 0 <= i < 4 ==> ram.dirty[i];
    CountBelow(ram, f);
  }

  lemma {:induction false} CountBelow(ram: Ram, f: nat)
    requires ram.dirty == [true, true, true, true] && f <= 4
    ensures StaleCount(ram, 0, f) == if f <= ram.sector then f else f - 1
  {
    if f > 0 {
      CountBelow(ram, f - 1);
      CountSnoc(ram, 0, f - 1);
    }
  }

  lemma {:induction false} CountSnoc(ram: Ram, j: nat, f: nat)
    requires |ram.dirty| == 4 && j <= f < 4
    ensures StaleCount(ram, j, f + 1) == StaleCount(ram, j, f) + if ram.sector != f && ram.dirty[f] then 1 else 0
    decreases f - j
  {
    if j < f { CountSnoc(ram, j + 1, f); }
  }
}
