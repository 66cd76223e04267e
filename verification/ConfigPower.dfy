/**
 Configurations that fit into the first page of a block, as that of main.c does. Their saves take effect with a single
 page program, so power cuts alone never leave a block that is not as intended, whatever the checksum.
 */
module ConfigPower {
  import opened Basics
  import opened FlashChip
  import opened EepromSpec
  import opened EepromEffects
  import opened EepromInvariant
  import opened EepromDurability
  import opened EepromRuns
  import opened EepromEdges
  import opened ConfigStore

  /** User bytes in the first page, behind checksum and counter. */
  const FIRST_PAGE := 248

  /** A block whose counter is at most `k` and whose data is zero past the first page. */
  predicate Small(cfg: Config, b: Image, k: nat) {
    cfg.Fits(b) && b.count <= k && b.data[FIRST_PAGE..] == Zeros(cfg.DataSize() - FIRST_PAGE)
  }

  /** Every slot that is not blank holds a good small block. */
  ghost predicate AllSmall(cfg: Config, blocks: seq<Image>, k: nat) {
    forall s :: 0 <= s < |blocks| && blocks[s].count != 0 ==> cfg.Good(blocks[s]) && Small(cfg, blocks[s], k)
  }

  ghost predicate SmallSys(cfg: Config, sys: System, k: nat) {
    && sys.Fits(cfg) && SysInv(cfg, sys) && AllSmall(cfg, sys.chip.blocks, k)
    && (sys.up ==> Tight(cfg, sys.ram) && Small(cfg, sys.ram.buffer, k))
  }

  /** Programming the first page of a small block programs all of it. */
  lemma TornSmall(cfg: Config, b: Image, k: nat, m: nat)
    requires Small(cfg, b, k) && m <= cfg.pages
    ensures Torn(cfg, b, m) == b || Torn(cfg, b, m) == cfg.Blank()
  {
    if m > 0 {
      var cut := 256 * m - 8;
      assert b.data == b.data[..FIRST_PAGE] + Zeros(cfg.DataSize() - FIRST_PAGE);
      forall i | cut <= i < |b.data|
        ensures b.data[i] == 0
      {
        assert b.data[i] == b.data[FIRST_PAGE..][i - FIRST_PAGE];
      }
      assert b.data[..cut] + Zeros(cfg.DataSize() - cut) == b.data;
    }
  }

  /** Each slot is as it was, blank, or holds `b`. */
  ghost predicate Replaced(cfg: Config, was: seq<Image>, now: seq<Image>, b: Image) {
    |was| == |now| && forall s :: 0 <= s < |was| ==> now[s] == was[s] || now[s] == cfg.Blank() || now[s] == b
  }

  /** Without flash errors a save leaves each slot as it was, blank, or holding the new block as intended. */
  lemma SlotsAfterSave(cfg: Config, chip: Chip, ram: Ram, k: nat)
    requires chip.Fits(cfg) && Inv(cfg, chip.blocks, ram) && Tight(cfg, ram) && NoFaults(chip.script)
    requires Small(cfg, ram.buffer, k) && k < 0xFFFF_FFFF
    ensures Replaced(cfg, chip.blocks, Update(cfg, chip, ram).chip.blocks, Next(cfg, ram))
    ensures var b := Update(cfg, chip, ram).chip.blocks[ram.next];
      Reached(cfg, chip, ram) ==> b == Next(cfg, ram) || b == cfg.Blank()
  {
    TightIsSafe(cfg, ram);
    ReclaimKeeps(cfg, chip, ram);
    SlotsAfterReclaim(cfg, chip, ram, Next(cfg, ram));
    var e := Reclaim(cfg, chip, ram);
    assert Next(cfg, e.ram) == Next(cfg, ram);
    if e.status == Ok {
      SlotAfterAppend(cfg, e.chip, e.ram, k);
      ReplacedTwice(cfg, chip.blocks, e.chip.blocks, Append(cfg, e.chip, e.ram).chip.blocks, Next(cfg, ram));
    }
  }

  lemma ReplacedTwice(cfg: Config, was: seq<Image>, mid: seq<Image>, now: seq<Image>, b: Image)
    requires Replaced(cfg, was, mid, b) && Replaced(cfg, mid, now, b)
    ensures Replaced(cfg, was, now, b)
  {
  }

  lemma SlotsAfterReclaim(cfg: Config, chip: Chip, ram: Ram, b: Image)
    requires chip.Fits(cfg) && ram.Fits(cfg) && (ram.data.Some? ==> ram.data.value < cfg.Slots())
    requires NoFaults(chip.script)
    ensures var e := Reclaim(cfg, chip, ram); NoFaults(e.chip.script) && Replaced(cfg, chip.blocks, e.chip.blocks, b)
  {
    if RingFull(cfg, ram) {
      var start := ram.(sector := HomeSector(cfg, ram.data), dirty := [true, true, true, true]);
      EraseNoFaults(cfg, chip, start, 0);
      var E := EraseShape(cfg, chip, start, 0);
    }
  }

  lemma SlotAfterAppend(cfg: Config, chip: Chip, ram: Ram, k: nat)
    requires chip.Fits(cfg) && ram.Fits(cfg) && ram.next < cfg.Slots() && NoFaults(chip.script)
    requires Small(cfg, ram.buffer, k)
    requires chip.on ==> Inv(cfg, chip.blocks, ram) && !RingFull(cfg, ram)
    ensures var r := Append(cfg, chip, ram);
      && Replaced(cfg, chip.blocks, r.chip.blocks, Next(cfg, ram))
      && (chip.on ==> var b := r.chip.blocks[ram.next]; b == Next(cfg, ram) || b == cfg.Blank())
  {
    var img := Next(cfg, ram);
    if chip.on {
      CursorErased(cfg, chip.blocks, ram, ram.next);
      var m, junk := WriteShape(cfg, chip, ram.next, img, 0);
      WriteNoFaults(cfg, chip, ram.next, img, 0);
      TornSmall(cfg, img, img.count, m);
    } else {
      NothingWritten(cfg, chip, ram.next, img, 0);
    }
  }

  /** So a save of a small configuration needs no assumption on the checksum, and leaves only small blocks. */
  lemma SmallSave(cfg: Config, sys: System, bytes: seq<Byte>, script: seq<Outcome>, k: nat)
    requires SmallSys(cfg, sys, k) && sys.up && k < 0xFFFF_FFFF && |bytes| <= FIRST_PAGE
    requires ScriptFits(cfg, script) && NoFaults(script)
    ensures SaveAdmissible(cfg, sys, bytes, script)
    ensures var c := SaveCall(cfg, sys, bytes, script); SmallSys(cfg, System(c.chip, c.ram, c.chip.on), k + 1)
  {
    var put := Stored0(sys.ram, bytes);
    var chip := Powered(sys.chip, script);
    PutSmall(cfg, sys.ram, bytes, k);
    assert RamInv(cfg, chip.blocks, put);
    if put.buffer.data != sys.ram.buffer.data {
      SmallDetected(cfg, chip, put, k);
      SmallUpdate(cfg, chip, put, k);
    }
  }

  lemma PutSmall(cfg: Config, ram: Ram, bytes: seq<Byte>, k: nat)
    requires Small(cfg, ram.buffer, k) && |bytes| <= FIRST_PAGE
    ensures Small(cfg, Stored0(ram, bytes).buffer, k)
  {
    assert Stored0(ram, bytes).buffer.data[FIRST_PAGE..] == ram.buffer.data[FIRST_PAGE..];
  }

  lemma SmallUpdate(cfg: Config, chip: Chip, ram: Ram, k: nat)
    requires chip.Fits(cfg) && Inv(cfg, chip.blocks, ram) && Tight(cfg, ram) && NoFaults(chip.script) && !chip.clobbered
    requires AllSmall(cfg, chip.blocks, k) && Small(cfg, ram.buffer, k) && k < 0xFFFF_FFFF
    ensures var r := Update(cfg, chip, ram);
      r.status == Ok && SmallSys(cfg, System(r.chip, r.ram, r.chip.on), k + 1)
  {
    var r := Update(cfg, chip, ram);
    SmallDetected(cfg, chip, ram, k);
    SysAfterSave(cfg, chip, ram);
    SmallAfter(cfg, chip.blocks, r.chip.blocks, ram, k);
    BufferAfterSave(cfg, chip, ram);
    assert Small(cfg, r.ram.buffer, k + 1);
  }

  lemma SysAfterSave(cfg: Config, chip: Chip, ram: Ram)
    requires chip.Fits(cfg) && Inv(cfg, chip.blocks, ram) && WrapSafe(cfg, ram) && !chip.clobbered
    requires ram.buffer.count < 0xFFFF_FFFF && Detected(cfg, chip, ram) && Update(cfg, chip, ram).status == Ok
    ensures var r := Update(cfg, chip, ram); SysInv(cfg, System(r.chip, r.ram, r.chip.on))
  {
    UpdateAtomic(cfg, chip, ram);
  }

  lemma SmallDetected(cfg: Config, chip: Chip, ram: Ram, k: nat)
    requires chip.Fits(cfg) && Inv(cfg, chip.blocks, ram) && Tight(cfg, ram) && NoFaults(chip.script)
    requires Small(cfg, ram.buffer, k) && k < 0xFFFF_FFFF
    ensures WrapSafe(cfg, ram) && Detected(cfg, chip, ram)
    ensures var r := Update(cfg, chip, ram);
      r.status == Ok && Tight(cfg, r.ram) && Replaced(cfg, chip.blocks, r.chip.blocks, Next(cfg, ram))
  {
    TightIsSafe(cfg, ram);
    SlotsAfterSave(cfg, chip, ram, k);
    UpdateNoFaults(cfg, chip, ram);
  }

  lemma BufferAfterSave(cfg: Config, chip: Chip, ram: Ram)
    requires chip.Fits(cfg) && ram.Fits(cfg) && ram.next < cfg.Slots()
    requires ram.data.Some? ==> ram.data.value < cfg.Slots()
    requires Update(cfg, chip, ram).status == Ok
    ensures Update(cfg, chip, ram).ram.buffer == Next(cfg, ram)
  {
  }

  lemma SmallAfter(cfg: Config, was: seq<Image>, now: seq<Image>, ram: Ram, k: nat)
    requires AllSmall(cfg, was, k) && Small(cfg, ram.buffer, k) && k < 0xFFFF_FFFF
    requires Replaced(cfg, was, now, Next(cfg, ram))
    ensures AllSmall(cfg, now, k + 1)
  {
  }

  // ---- start-up -----------------------------------------------------------------------------------------------------

  /** Where every block is good, none overshadows the latest. */
  lemma SmallIsClear(cfg: Config, blocks: seq<Image>, k: nat)
    requires FlashInv(cfg, blocks) && AllSmall(cfg, blocks, k)
    ensures !Overshadowed(cfg, blocks)
  {
    var d := Latest(cfg, blocks);
    if d.Some? {
      forall s | d.value < s < cfg.Start(cfg.SectorOf(d.value)) + cfg.n
        ensures blocks[s].count == 0
      {
        NoGoodAbove(cfg, blocks, d.value, s);
      }
    }
  }

  lemma NoGoodAbove(cfg: Config, blocks: seq<Image>, d: nat, s: nat)
    requires FlashInv(cfg, blocks) && Latest(cfg, blocks) == Some(d) && d < s < cfg.Start(cfg.SectorOf(d)) + cfg.n
    ensures !cfg.Good(blocks[s])
  {
    assert cfg.SectorOf(s) == cfg.SectorOf(d);
  }

  /** A start-up, cut short or not, reports Ok and leaves a small system; completed, it has the latest block in RAM. */
  lemma SmallBoot(cfg: Config, sys: System, boot: seq<Outcome>, k: nat)
    requires SmallSys(cfg, sys, k) && ScriptFits(cfg, boot) && NoFaults(boot)
    ensures var r := Init(cfg, Powered(sys.chip, boot), FreshRam(cfg));
      r.status == Ok && SmallSys(cfg, System(r.chip, r.ram, r.chip.on), k)
  {
    var chip := Powered(sys.chip, boot);
    var r := Init(cfg, chip, FreshRam(cfg));
    InitRecovers(cfg, chip);
    InitTight(cfg, chip);
    StatusExact(cfg, chip);
    SmallIsClear(cfg, chip.blocks, k);
    EraseNoFaults(cfg, chip, Scan(cfg, chip.blocks, FreshRam(cfg)), 0);
    var E := InitErases(cfg, chip);
    assert AllSmall(cfg, r.chip.blocks, k);
    if r.chip.on { BootBuffer(cfg, chip, k); }
  }

  lemma BootBuffer(cfg: Config, chip: Chip, k: nat)
    requires chip.Fits(cfg) && FlashInv(cfg, chip.blocks) && AllSmall(cfg, chip.blocks, k)
    requires var r := Init(cfg, chip, FreshRam(cfg)); r.chip.on && r.status != EraseError
    ensures Small(cfg, Init(cfg, chip, FreshRam(cfg)).ram.buffer, k)
  {
    InitRecovers(cfg, chip);
    InitTight(cfg, chip);
    var c := Content(cfg, chip.blocks);
    if c.Some? {
      assert c.value == chip.blocks[Latest(cfg, chip.blocks).value];
    } else {
      assert cfg.Blank().data[FIRST_PAGE..] == Zeros(cfg.DataSize() - FIRST_PAGE);
    }
  }

  // ---- runs ---------------------------------------------------------------------------------------------------------

  /** An act in which flash operations work or the power fails. */
  ghost predicate PowerOnly(cfg: Config, size: nat, a: Act) {
    && ActFits(cfg, size, a)
    && match a
       case Write(_, script) => NoFaults(script)
       case Restart(boot, load) => NoFaults(boot) && NoFaults(load)
  }

  lemma SmallAct(cfg: Config, defaults: seq<Byte>, node: Node, a: Act, k: nat)
    requires NodeFits(cfg, |defaults|, node) && |defaults| <= FIRST_PAGE && PowerOnly(cfg, |defaults|, a)
    requires SmallSys(cfg, node.sys, k) && k < 0xFFFF_FFFF
    ensures ActAdmissible(cfg, defaults, node, a)
    ensures SmallSys(cfg, Do(cfg, defaults, node, a).sys, k + 1)
  {
    match a
    case Write(bytes, script) =>
      if node.running { SmallSave(cfg, node.sys, bytes, script, k); }
    case Restart(boot, load) =>
      SmallBoot(cfg, node.sys, boot, k);
      var r := Init(cfg, Powered(node.sys.chip, boot), FreshRam(cfg));
      if r.chip.on && r.ram.data.None? { SmallSave(cfg, System(r.chip, r.ram, true), defaults, load, k); }
  }

  lemma {:induction false} SmallActs(cfg: Config, defaults: seq<Byte>, node: Node, acts: seq<Act>, k: nat)
    requires NodeFits(cfg, |defaults|, node) && |defaults| <= FIRST_PAGE && SmallSys(cfg, node.sys, k)
    requires (forall i :: 0 <= i < |acts| ==> PowerOnly(cfg, |defaults|, acts[i])) && k + |acts| <= 0xFFFF_FFFF
    ensures ActsFit(cfg, |defaults|, acts) && ActsAdmissible(cfg, defaults, node, acts)
    ensures SmallSys(cfg, DoAll(cfg, defaults, node, acts).sys, k + |acts|)
    decreases |acts|
  {
    if |acts| > 0 {
      SmallAct(cfg, defaults, node, acts[0], k);
      SmallActs(cfg, defaults, Do(cfg, defaults, node, acts[0]), acts[1..], k + 1);
    }
  }

  /**
   Power cuts are harmless. From a factory-fresh device, over every sequence of fewer than 2^32 calls and restarts in
   which the power fails wherever it likes and flash works otherwise: no page is programmed twice, and every start-up
   that completes reports Ok and brings back the configuration of the last call that counts. Nothing is assumed of
   the checksum.
   */
  lemma PowerCutsAreHarmless(cfg: Config, defaults: seq<Byte>, node: Node, acts: seq<Act>, boot: seq<Outcome>,
                             load: seq<Outcome>)
    requires NodeFits(cfg, |defaults|, node) && Factory(cfg, node.sys) && |defaults| <= FIRST_PAGE
    requires (forall i :: 0 <= i < |acts| ==> PowerOnly(cfg, |defaults|, acts[i])) && |acts| <= 0xFFFF_FFFF
    requires PowerOnly(cfg, |defaults|, Restart(boot, load))
    ensures ActsFit(cfg, |defaults|, acts)
    ensures var now := DoAll(cfg, defaults, node, acts); var last := LastOf(cfg, defaults, node, acts, None);
      && !now.sys.chip.clobbered
      && var r := Init(cfg, Powered(now.sys.chip, boot), FreshRam(cfg));
         var b := Do(cfg, defaults, now, Restart(boot, load));
         r.chip.on ==>
           && r.status == Ok
           && (last.Some? ==> b.running && b.config == last.value)
           && (last.None? ==> b.config == defaults)
  {
    RunSmall(cfg, defaults, node, acts);
    var now := DoAll(cfg, defaults, node, acts);
    SmallBoot(cfg, now.sys, boot, |acts|);
    var last := LastOf(cfg, defaults, node, acts, None);
    if Init(cfg, Powered(now.sys.chip, boot), FreshRam(cfg)).chip.on {
      RestartLoads(cfg, defaults, now, boot, load, last);
    }
  }

  lemma RunSmall(cfg: Config, defaults: seq<Byte>, node: Node, acts: seq<Act>)
    requires NodeFits(cfg, |defaults|, node) && Factory(cfg, node.sys) && |defaults| <= FIRST_PAGE
    requires (forall i :: 0 <= i < |acts| ==> PowerOnly(cfg, |defaults|, acts[i])) && |acts| <= 0xFFFF_FFFF
    ensures ActsFit(cfg, |defaults|, acts) && ActsAdmissible(cfg, defaults, node, acts)
    ensures var now := DoAll(cfg, defaults, node, acts);
      SmallSys(cfg, now.sys, |acts|)
      && Holds(cfg, |defaults|, now.sys.chip.blocks, LastOf(cfg, defaults, node, acts, None))
  {
    assert Content(cfg, node.sys.chip.blocks).None?;
    SmallActs(cfg, defaults, node, acts, 0);
    ActsKeep(cfg, defaults, node, acts, None);
  }

  lemma RestartLoads(cfg: Config, defaults: seq<Byte>, node: Node, boot: seq<Outcome>, load: seq<Outcome>,
                     last: Option<seq<Byte>>)
    requires NodeFits(cfg, |defaults|, node) && SysInv(cfg, node.sys) && ActFits(cfg, |defaults|, Restart(boot, load))
    requires Holds(cfg, |defaults|, node.sys.chip.blocks, last)
    requires var r := Init(cfg, Powered(node.sys.chip, boot), FreshRam(cfg)); r.chip.on && r.status == Ok
    ensures var b := Do(cfg, defaults, node, Restart(boot, load));
      && (last.Some? ==> b.running && b.config == last.value)
      && (last.None? ==> b.config == defaults)
  {
    InitRecovers(cfg, Powered(node.sys.chip, boot));
  }
}
