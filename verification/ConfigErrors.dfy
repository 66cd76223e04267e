/** Program errors as the user of the configuration meets them: what the call returns and what the next restart does. */
module ConfigErrors {
  import opened Basics
  import opened FlashChip
  import opened EepromSpec
  import opened EepromInvariant
  import opened EepromDurability
  import opened EepromRuns
  import opened EepromPasses
  import opened EepromEdges
  import opened EepromFaults
  import opened EepromErrors
  import opened EepromBlindSpot
  import opened ConfigStore
  import opened ConfigStuck

  // ---- one program error in a call ----------------------------------------------------------------------------------

  /** A cursor just above the latest block: nothing overshadows that block. */
  lemma JustAboveIsClear(cfg: Config, blocks: seq<Image>, ram: Ram)
    requires Current(cfg, blocks, ram) && JustAbove(cfg, ram) && WrapSafe(cfg, ram)
    ensures !Overshadowed(cfg, blocks)
  {
    if ram.data.Some? {
      var d := ram.data.value;
      if SameSector(cfg, ram) {
        assert !RingFull(cfg, ram) && ram.next == d + 1;
        AboveCursor(cfg, blocks, ram);
        CursorErased(cfg, blocks, ram, ram.next);
      } else {
        assert d + 1 == cfg.Start(cfg.SectorOf(d)) + cfg.n;
      }
    }
  }

  /** The save of a call on a running device fails in page `k`. */
  ghost predicate CallFails(cfg: Config, node: Node, bytes: seq<Byte>, script: seq<Outcome>, k: nat, junk: Image) {
    && node.sys.Fits(cfg) && node.running && node.sys.up && |bytes| <= cfg.DataSize() && ScriptFits(cfg, script)
    && var put := Stored0(node.sys.ram, bytes);
       && put.buffer.data != node.sys.ram.buffer.data
       && FailsAtPage(cfg, Powered(node.sys.chip, script), put, k, junk)
       && NotForged(cfg, put, Failed(cfg, put, k, junk))
  }

  /** What its slot then holds. */
  function Left(cfg: Config, node: Node, bytes: seq<Byte>, k: nat, junk: Image): Image
    requires node.sys.Fits(cfg) && node.sys.up && |bytes| <= cfg.DataSize() && k < cfg.pages && cfg.Fits(junk)
  {
    Failed(cfg, Stored0(node.sys.ram, bytes), k, junk)
  }

  /**
   One program error in a call, in any page, on a running device with its cursor just above the latest block: the call
   returns -1. The next start-up that completes runs if and only if what was left passes the check, or does not show, or
   the cursor was in another sector than the latest block; if it does not run, the device never runs again.
   */
  lemma FailedCallRunsIff(cfg: Config, defaults: seq<Byte>, node: Node, bytes: seq<Byte>, script: seq<Outcome>,
                          k: nat, junk: Image, boot: seq<Outcome>, load: seq<Outcome>, acts: seq<Act>)
    requires NodeFits(cfg, |defaults|, node) && |bytes| == |defaults| && CallFails(cfg, node, bytes, script, k, junk)
    requires ActFits(cfg, |defaults|, Restart(boot, load)) && ActsFit(cfg, |defaults|, acts)
    requires node.sys.ram.data.Some? && JustAbove(cfg, node.sys.ram)
    ensures var b := Left(cfg, node, bytes, k, junk); var w := Do(cfg, defaults, node, Write(bytes, script));
      var r := Init(cfg, Powered(w.sys.chip, boot), FreshRam(cfg));
      var again := Do(cfg, defaults, w, Restart(boot, load));
      && SaveCall(cfg, node.sys, bytes, script).ret == -1
      && (r.chip.on && r.status != EraseError ==>
            && (again.running <==> cfg.Good(b) || b.count == 0 || !SameSector(cfg, node.sys.ram))
            && (!again.running ==> !DoAll(cfg, defaults, again, acts).running))
  {
    var w := Do(cfg, defaults, node, Write(bytes, script));
    FailedCallStatus(cfg, node, bytes, script, k, junk, boot);
    var r := Init(cfg, Powered(w.sys.chip, boot), FreshRam(cfg));
    if r.chip.on && r.status == OldData { OldDataNeverRuns(cfg, defaults, w, boot, load, acts); }
  }

  lemma FailedCallStatus(cfg: Config, node: Node, bytes: seq<Byte>, script: seq<Outcome>, k: nat, junk: Image,
                         boot: seq<Outcome>)
    requires CallFails(cfg, node, bytes, script, k, junk) && ScriptFits(cfg, boot)
    requires node.sys.ram.data.Some? && JustAbove(cfg, node.sys.ram)
    ensures var b := Left(cfg, node, bytes, k, junk); var c := SaveCall(cfg, node.sys, bytes, script);
      var r := Init(cfg, Powered(c.chip, boot), FreshRam(cfg));
      && c.ret == -1 && c.chip.on
      && (r.status != EraseError ==>
            && r.ram.data.Some?
            && r.status == (if cfg.Good(b) || b.count == 0 || !SameSector(cfg, node.sys.ram) then Ok else OldData)
            && (r.status == OldData ==> Ordered(cfg, c.chip.blocks)))
  {
    var put := Stored0(node.sys.ram, bytes);
    var chip := Powered(node.sys.chip, script);
    JustAboveIsClear(cfg, chip.blocks, put);
    FailedFlash(cfg, chip, put, k, junk);
    FaultStatus(cfg, chip, put, k, junk, boot);
    FailedSave(cfg, chip, put, k, junk);
    var now := Powered(Update(cfg, chip, put).chip, boot);
    InitLoads(cfg, now);
    OkOrOld(cfg, now);
    if Left(cfg, node, bytes, k, junk).count != 0 { FailedContent(cfg, chip, put, k, junk); }
  }

  lemma OkOrOld(cfg: Config, chip: Chip)
    requires chip.Fits(cfg)
    ensures var s := Init(cfg, chip, FreshRam(cfg)).status; s == Ok || s == OldData || s == EraseError
  {
  }

  /**
   If it runs, it is with what was left if that passes the check, as if the call had succeeded, and otherwise with the
   configuration stored before.
   */
  lemma FailedCallLoads(cfg: Config, defaults: seq<Byte>, node: Node, bytes: seq<Byte>, script: seq<Outcome>,
                        k: nat, junk: Image, boot: seq<Outcome>, load: seq<Outcome>)
    requires NodeFits(cfg, |defaults|, node) && |bytes| == |defaults| && CallFails(cfg, node, bytes, script, k, junk)
    requires ActFits(cfg, |defaults|, Restart(boot, load)) && node.sys.ram.data.Some?
    ensures var b := Left(cfg, node, bytes, k, junk); var w := Do(cfg, defaults, node, Write(bytes, script));
      var again := Do(cfg, defaults, w, Restart(boot, load));
      var had := node.sys.chip.blocks[node.sys.ram.data.value];
      again.running ==> again.config == (if cfg.Good(b) then b else had).data[..|defaults|]
  {
    var put := Stored0(node.sys.ram, bytes);
    var chip := Powered(node.sys.chip, script);
    var w := Do(cfg, defaults, node, Write(bytes, script));
    FailedSave(cfg, chip, put, k, junk);
    FaultData(cfg, chip, put, k, junk, boot);
    assert Content(cfg, chip.blocks) == Some(node.sys.chip.blocks[node.sys.ram.data.value]);
  }

  // ---- the second call of a new device ------------------------------------------------------------------------------

  function Padded(cfg: Config, bytes: seq<Byte>): (data: seq<Byte>)
    requires |bytes| <= cfg.DataSize()
    ensures |data| == cfg.DataSize() && data[..|bytes|] == bytes
  {
    bytes + Zeros(cfg.DataSize() - |bytes|)
  }

  /** The block a new device writes in its first lap: counter, and configuration with zeros behind. */
  function Block(cfg: Config, count: Word, bytes: seq<Byte>): (b: Image)
    requires |bytes| <= cfg.DataSize()
    ensures cfg.Fits(b) && b.count == count
  {
    Image(cfg.crc(count, Padded(cfg, bytes)), count, Padded(cfg, bytes))
  }

  lemma EmptyBuffer(cfg: Config, chip: Chip)
    requires chip.Fits(cfg)
    ensures var r := Init(cfg, chip, FreshRam(cfg)); r.ram.data.None? ==> r.ram.buffer.data == Zeros(cfg.DataSize())
  {
  }

  /** The first start of a new device saves the defaults in slot 0. */
  lemma FirstStart(cfg: Config, defaults: seq<Byte>, node: Node)
    requires NodeFits(cfg, |defaults|, node) && Factory(cfg, node.sys) && defaults != Zeros(|defaults|)
    ensures var n := Do(cfg, defaults, node, Restart([], []));
      && n.running && SysInv(cfg, n.sys) && n.sys.ram.data == Some(0) && n.sys.ram.next == 1
      && n.sys.ram.buffer == Block(cfg, 1, defaults) == n.sys.chip.blocks[0]
  {
    var chip := Powered(node.sys.chip, []);
    FactoryInv(cfg, node.sys);
    FirstBoot(cfg, node.sys, cfg.Blank());
    EmptyBuffer(cfg, chip);
    InitRecovers(cfg, chip);
    InitTight(cfg, chip);
    StatusExact(cfg, chip);
    var r := Init(cfg, chip, FreshRam(cfg));
    FirstSave(cfg, Powered(r.chip, []), r.ram, defaults);
  }

  lemma FirstSave(cfg: Config, chip: Chip, ram: Ram, bytes: seq<Byte>)
    requires chip.Fits(cfg) && chip.on && chip.script == [] && !chip.clobbered && |bytes| <= cfg.DataSize()
    requires Inv(cfg, chip.blocks, ram) && ram.buffer.count == 0 && ram.data.None?
    requires ram.buffer.data == Zeros(cfg.DataSize()) && bytes != Zeros(|bytes|)
    ensures var c := WriteConfig(cfg, chip, ram, bytes);
      && c.chip.on && SysInv(cfg, System(c.chip, c.ram, true)) && c.ram.data == Some(0) && c.ram.next == 1
      && c.ram.buffer == Block(cfg, 1, bytes) == c.chip.blocks[0]
  {
    var put := Stored0(ram, bytes);
    assert put.buffer.data == Padded(cfg, bytes);
    assert put.buffer.data[..|bytes|] != ram.buffer.data[..|bytes|];
    assert RamInv(cfg, chip.blocks, put);
    CursorErased(cfg, chip.blocks, put, 0);
    WriteNoTrouble(cfg, chip, 0, Next(cfg, put), 0);
    UpdateAtomic(cfg, chip, put);
  }

  lemma EraseNoFaultsAtBoot(cfg: Config, chip: Chip)
    requires chip.Fits(cfg) && chip.on && chip.script == []
    ensures var r := Init(cfg, chip, FreshRam(cfg)); r.chip.on && r.status != EraseError
  {
    EraseNoTrouble(cfg, chip, Scan(cfg, chip.blocks, FreshRam(cfg)), 0);
  }

  /** What the second call of a new device leaves in slot 1 if it fails in page `k`. */
  function SecondLeft(cfg: Config, bytes: seq<Byte>, k: nat, junk: Image): (b: Image)
    requires |bytes| <= cfg.DataSize() && k < cfg.pages && cfg.Fits(junk)
    ensures cfg.Fits(b)
  {
    Overlay(cfg, Torn(cfg, Block(cfg, 2, bytes), k), junk, k)
  }

  /** A new device with two blocks or more in a sector; its defaults, and a different configuration to write. */
  ghost predicate NewDevice(cfg: Config, defaults: seq<Byte>, node: Node, bytes: seq<Byte>) {
    && NodeFits(cfg, |defaults|, node) && Factory(cfg, node.sys) && cfg.n >= 2
    && defaults != Zeros(|defaults|) && |bytes| == |defaults| && bytes != defaults
  }

  lemma SecondCallFails(cfg: Config, node: Node, defaults: seq<Byte>, bytes: seq<Byte>, k: nat, junk: Image)
    requires node.sys.Fits(cfg) && node.running && node.sys.up && SysInv(cfg, node.sys) && cfg.n >= 2
    requires |bytes| == |defaults| <= cfg.DataSize() && bytes != defaults && k < cfg.pages && cfg.Fits(junk)
    requires node.sys.ram.data == Some(0) && node.sys.ram.next == 1 && node.sys.ram.buffer == Block(cfg, 1, defaults)
    requires cfg.Good(SecondLeft(cfg, bytes, k, junk)) ==> SecondLeft(cfg, bytes, k, junk).count == 2
    ensures CallFails(cfg, node, bytes, Dones(k) + [Fault(junk)], k, junk)
    ensures Left(cfg, node, bytes, k, junk) == SecondLeft(cfg, bytes, k, junk)
    ensures JustAbove(cfg, node.sys.ram) && SameSector(cfg, node.sys.ram)
  {
    var script := Dones(k) + [Fault(junk)];
    SecondPut(cfg, node.sys.ram, defaults, bytes);
    PutIsCurrent(cfg, node.sys.chip.blocks, node.sys.ram, bytes);
    assert ScriptFits(cfg, script);
    SecondFails(cfg, Powered(node.sys.chip, script), Stored0(node.sys.ram, bytes), k, junk);
  }

  lemma SecondFails(cfg: Config, chip: Chip, ram: Ram, k: nat, junk: Image)
    requires chip.Fits(cfg) && chip.on && Current(cfg, chip.blocks, ram) && cfg.n >= 2
    requires ram.data == Some(0) && ram.next == 1 && ram.buffer.count == 1
    requires k < cfg.pages && cfg.Fits(junk) && chip.script == Dones(k) + [Fault(junk)]
    ensures FailsAtPage(cfg, chip, ram, k, junk) && JustAbove(cfg, ram) && SameSector(cfg, ram)
  {
    assert cfg.SectorOf(1) == 0 && cfg.SectorOf(0) == 0;
    assert Dones(0) + chip.script == chip.script;
  }

  lemma PutIsCurrent(cfg: Config, blocks: seq<Image>, ram: Ram, bytes: seq<Byte>)
    requires Current(cfg, blocks, ram) && |bytes| <= cfg.DataSize()
    ensures Current(cfg, blocks, Stored0(ram, bytes))
  {
  }

  lemma SecondPut(cfg: Config, ram: Ram, defaults: seq<Byte>, bytes: seq<Byte>)
    requires |bytes| == |defaults| <= cfg.DataSize() && bytes != defaults && ram.buffer == Block(cfg, 1, defaults)
    ensures var put := Stored0(ram, bytes); put.buffer.data != ram.buffer.data && Next(cfg, put) == Block(cfg, 2, bytes)
  {
    PadOver(cfg, defaults, bytes);
    NextBlock(cfg, Stored0(ram, bytes), bytes);
  }

  lemma NextBlock(cfg: Config, ram: Ram, bytes: seq<Byte>)
    requires |bytes| <= cfg.DataSize() && ram.buffer.data == Padded(cfg, bytes) && ram.buffer.count == 1
    ensures Next(cfg, ram) == Block(cfg, 2, bytes)
  {
  }

  lemma PadOver(cfg: Config, was: seq<Byte>, bytes: seq<Byte>)
    requires |was| == |bytes| <= cfg.DataSize()
    ensures Stored(Padded(cfg, was), 0, bytes) == Padded(cfg, bytes)
    ensures Padded(cfg, was) == Padded(cfg, bytes) ==> was == bytes
  {
    assert was == Padded(cfg, was)[..|was|];
  }

  /**
   One program error in the second call of a new device, in whichever page and whatever it leaves there: all that can
   come of it at the restart after that. The call itself returns -1.
   */
  lemma OneErrorOutcome(cfg: Config, defaults: seq<Byte>, node: Node, bytes: seq<Byte>, k: nat, junk: Image,
                        acts: seq<Act>)
    requires NewDevice(cfg, defaults, node, bytes) && k < cfg.pages && cfg.Fits(junk) && ActsFit(cfg, |defaults|, acts)
    requires cfg.Good(SecondLeft(cfg, bytes, k, junk)) ==> SecondLeft(cfg, bytes, k, junk).count == 2
    ensures var b := SecondLeft(cfg, bytes, k, junk); var script := Dones(k) + [Fault(junk)];
      var started := Do(cfg, defaults, node, Restart([], []));
      var again := Do(cfg, defaults, Do(cfg, defaults, started, Write(bytes, script)), Restart([], []));
      && started.running && ScriptFits(cfg, script) && SaveCall(cfg, started.sys, bytes, script).ret == -1
      && (cfg.Good(b) ==> again.running && again.config == b.data[..|bytes|])
      && (b.count == 0 ==> again.running && again.config == defaults)
      && (!cfg.Good(b) && b.count != 0 ==> !again.running && !DoAll(cfg, defaults, again, acts).running)
  {
    FirstStart(cfg, defaults, node);
    ErrorAfterStart(cfg, defaults, Do(cfg, defaults, node, Restart([], [])), bytes, k, junk, acts);
  }

  lemma ErrorAfterStart(cfg: Config, defaults: seq<Byte>, node: Node, bytes: seq<Byte>, k: nat, junk: Image,
                        acts: seq<Act>)
    requires NodeFits(cfg, |defaults|, node) && node.running && SysInv(cfg, node.sys) && cfg.n >= 2
    requires |bytes| == |defaults| && bytes != defaults && k < cfg.pages && cfg.Fits(junk)
    requires ActsFit(cfg, |defaults|, acts)
    requires node.sys.ram.data == Some(0) && node.sys.ram.next == 1
    requires node.sys.ram.buffer == Block(cfg, 1, defaults) == node.sys.chip.blocks[0]
    requires cfg.Good(SecondLeft(cfg, bytes, k, junk)) ==> SecondLeft(cfg, bytes, k, junk).count == 2
    ensures var b := SecondLeft(cfg, bytes, k, junk); var script := Dones(k) + [Fault(junk)];
      var again := Do(cfg, defaults, Do(cfg, defaults, node, Write(bytes, script)), Restart([], []));
      && ScriptFits(cfg, script) && SaveCall(cfg, node.sys, bytes, script).ret == -1
      && (cfg.Good(b) ==> again.running && again.config == b.data[..|bytes|])
      && (b.count == 0 ==> again.running && again.config == defaults)
      && (!cfg.Good(b) && b.count != 0 ==> !again.running && !DoAll(cfg, defaults, again, acts).running)
  {
    var script := Dones(k) + [Fault(junk)];
    SecondCallFails(cfg, node, defaults, bytes, k, junk);
    FailedCallRunsIff(cfg, defaults, node, bytes, script, k, junk, [], [], acts);
    FailedCallLoads(cfg, defaults, node, bytes, script, k, junk, [], []);
    var w := Do(cfg, defaults, node, Write(bytes, script));
    EraseNoFaultsAtBoot(cfg, Powered(w.sys.chip, []));
  }

  /**
   A failed call that is kept. If the configuration fits into the first page of a block, an error in any later page
   that leaves that page erased makes the call return -1, and the next restart runs with the new configuration.
   */
  lemma KeptAfterError(cfg: Config, defaults: seq<Byte>, node: Node, bytes: seq<Byte>, k: nat, junk: Image)
    requires NewDevice(cfg, defaults, node, bytes) && |bytes| <= 248
    requires 1 <= k < cfg.pages && cfg.Fits(junk) && PageErased(cfg, junk, k)
    ensures var script := Dones(k) + [Fault(junk)]; var started := Do(cfg, defaults, node, Restart([], []));
      var again := Do(cfg, defaults, Do(cfg, defaults, started, Write(bytes, script)), Restart([], []));
      && started.running && ScriptFits(cfg, script) && SaveCall(cfg, started.sys, bytes, script).ret == -1
      && again.running && again.config == bytes
  {
    SmallBlockKept(cfg, bytes, k, junk);
    OneErrorOutcome(cfg, defaults, node, bytes, k, junk, []);
  }

  lemma SmallBlockKept(cfg: Config, bytes: seq<Byte>, k: nat, junk: Image)
    requires |bytes| <= 248 && 1 <= k < cfg.pages && cfg.Fits(junk) && PageErased(cfg, junk, k)
    ensures SecondLeft(cfg, bytes, k, junk) == Block(cfg, 2, bytes)
  {
    assert Padded(cfg, bytes)[248..] == Zeros(cfg.DataSize() - 248);
    ErasedPageKeeps(cfg, Block(cfg, 2, bytes), k, junk);
  }

  /**
   A failed call after which nothing runs. An error in the first page that leaves a counter and fails the check, which
   there is for every checksum, makes the next start-up report OldData, and the device never runs again.
   */
  lemma StuckAfterOneError(cfg: Config, defaults: seq<Byte>, node: Node, bytes: seq<Byte>,
                           acts: seq<Act>) returns (junk: Image)
    requires NewDevice(cfg, defaults, node, bytes) && ActsFit(cfg, |defaults|, acts)
    ensures cfg.Fits(junk)
    ensures var started := Do(cfg, defaults, node, Restart([], [])); var script := Dones(0) + [Fault(junk)];
      && started.running && ScriptFits(cfg, script)
      && var again := Do(cfg, defaults, Do(cfg, defaults, started, Write(bytes, script)), Restart([], []));
         !again.running && !DoAll(cfg, defaults, again, acts).running
  {
    junk := SomethingSpoils(cfg);
    OneErrorOutcome(cfg, defaults, node, bytes, 0, junk, acts);
  }

  /**
   A failed call that breaks the program-once rule. An error in the first page that leaves a checksum word and a
   counter of 0: the next restart runs with the old configuration, and the first call that changes it programs a page
   that is not erased.
   */
  lemma ClobberAfterOneError(cfg: Config, defaults: seq<Byte>, node: Node, bytes: seq<Byte>) returns (junk: Image)
    requires NewDevice(cfg, defaults, node, bytes)
    ensures cfg.Fits(junk)
    ensures var started := Do(cfg, defaults, node, Restart([], [])); var script := Dones(0) + [Fault(junk)];
      && started.running && ScriptFits(cfg, script)
      && var again := Do(cfg, defaults, Do(cfg, defaults, started, Write(bytes, script)), Restart([], []));
         && again.running && !again.sys.chip.clobbered && again.config == defaults
         && Do(cfg, defaults, again, Write(bytes, [])).sys.chip.clobbered
  {
    junk := Image(1, 0, Zeros(cfg.DataSize()));
    FirstStart(cfg, defaults, node);
    OneErrorOutcome(cfg, defaults, node, bytes, 0, junk, []);
    BlindCall(cfg, defaults, Do(cfg, defaults, node, Restart([], [])), bytes, junk);
  }

  lemma BlindCall(cfg: Config, defaults: seq<Byte>, node: Node, bytes: seq<Byte>, junk: Image)
    requires NodeFits(cfg, |defaults|, node) && node.running && SysInv(cfg, node.sys) && cfg.n >= 2
    requires |bytes| == |defaults| && bytes != defaults && junk == Image(1, 0, Zeros(cfg.DataSize()))
    requires node.sys.ram.data == Some(0) && node.sys.ram.next == 1
    requires node.sys.ram.buffer == Block(cfg, 1, defaults) == node.sys.chip.blocks[0]
    requires var w := Do(cfg, defaults, node, Write(bytes, Dones(0) + [Fault(junk)]));
      var again := Do(cfg, defaults, w, Restart([], []));
      again.running && again.config == defaults
    ensures var w := Do(cfg, defaults, node, Write(bytes, Dones(0) + [Fault(junk)]));
      var again := Do(cfg, defaults, w, Restart([], []));
      !again.sys.chip.clobbered && Do(cfg, defaults, again, Write(bytes, [])).sys.chip.clobbered
  {
    var script := Dones(0) + [Fault(junk)];
    SecondCallFails(cfg, node, defaults, bytes, 0, junk);
    var w := Do(cfg, defaults, node, Write(bytes, script));
    var again := Do(cfg, defaults, w, Restart([], []));
    FailedCallStatus(cfg, node, bytes, script, 0, junk, []);
    EraseNoFaultsAtBoot(cfg, Powered(w.sys.chip, []));
    BootKeepsRule(cfg, Powered(node.sys.chip, script), Stored0(node.sys.ram, bytes), junk);
    BlindSave(cfg, Powered(node.sys.chip, script), Stored0(node.sys.ram, bytes), junk, bytes);
    WriteClobbers(cfg, defaults, again, bytes);
  }

  lemma WriteClobbers(cfg: Config, defaults: seq<Byte>, node: Node, bytes: seq<Byte>)
    requires NodeFits(cfg, |defaults|, node) && node.running && |bytes| == |defaults|
    requires node.sys.ram.buffer.data[..|bytes|] != bytes
    requires Update(cfg, Powered(node.sys.chip, []), Stored0(node.sys.ram, bytes)).chip.clobbered
    ensures Do(cfg, defaults, node, Write(bytes, [])).sys.chip.clobbered
  {
    assert Stored0(node.sys.ram, bytes).buffer.data[..|bytes|] == bytes;
  }

  lemma BlindSave(cfg: Config, chip: Chip, ram: Ram, junk: Image, bytes: seq<Byte>)
    requires FailsAtPage(cfg, chip, ram, 0, junk) && JustAbove(cfg, ram) && |bytes| <= cfg.DataSize()
    requires junk == Image(1, 0, Zeros(cfg.DataSize()))
    requires var r := Init(cfg, Powered(Update(cfg, chip, ram).chip, []), FreshRam(cfg));
      r.chip.on && r.status != EraseError
    ensures var r := Init(cfg, Powered(Update(cfg, chip, ram).chip, []), FreshRam(cfg));
      Update(cfg, Powered(r.chip, []), Stored0(r.ram, bytes)).chip.clobbered
  {
    var r := Init(cfg, Powered(Update(cfg, chip, ram).chip, []), FreshRam(cfg));
    ErrorBreaksRule(cfg, chip, ram, 0, junk, [], Stored0(r.ram, bytes), []);
  }

  lemma BootKeepsRule(cfg: Config, chip: Chip, ram: Ram, junk: Image)
    requires FailsAtPage(cfg, chip, ram, 0, junk) && !chip.clobbered
    ensures var r := Init(cfg, Powered(Update(cfg, chip, ram).chip, []), FreshRam(cfg));
      r.chip.on && r.status != EraseError && !r.chip.clobbered
  {
    FailedSave(cfg, chip, ram, 0, junk);
    EraseNoFaultsAtBoot(cfg, Powered(Update(cfg, chip, ram).chip, []));
    BootOpens(cfg, Powered(Update(cfg, chip, ram).chip, []));
  }
}
