/**
 Runs with program errors of every kind. A failed or interrupted call may be kept all the same, so what a restart loads
 is not always the configuration of the last call that returned 1; but it is never an older one, and never a mix.
 */
module ConfigOlder {
  import opened Basics
  import opened FlashChip
  import opened EepromSpec
  import opened EepromInvariant
  import opened EepromDurability
  import opened EepromRuns
  import opened EepromEdges
  import opened EepromSafety
  import opened ConfigStore

  /** The configurations a store may hold; None stands for holding nothing. */
  type Possible = set<Option<seq<Byte>>>

  /** Of the good blocks, those no older than the one RAM knows as latest hold a possible configuration. */
  ghost predicate Within(cfg: Config, size: nat, blocks: seq<Image>, data: Option<nat>, p: Possible) {
    && |blocks| == cfg.Slots() && size <= cfg.DataSize()
    && (data.Some? ==> data.value < |blocks| && cfg.Good(blocks[data.value]))
    && (data.None? ==> None in p)
    && forall s :: 0 <= s < |blocks| && cfg.Fits(blocks[s]) && cfg.Good(blocks[s])
         && (data.Some? ==> blocks[data.value].count <= blocks[s].count)
         ==> Some(blocks[s].data[..size]) in p
  }

  /** What the flash alone would give at a start-up is possible. */
  ghost predicate MayHold(cfg: Config, size: nat, blocks: seq<Image>, p: Possible) {
    && |blocks| == cfg.Slots() && WellFormed(cfg, blocks) && size <= cfg.DataSize()
    && var c := Content(cfg, blocks);
       if c.None? then None in p else Some(c.value.data[..size]) in p
  }

  ghost predicate NodeInv(cfg: Config, size: nat, node: Node, p: Possible) {
    && NodeFits(cfg, size, node) && !node.sys.chip.clobbered
    && Ordered(cfg, node.sys.chip.blocks) && MayHold(cfg, size, node.sys.chip.blocks, p)
    && (node.sys.up ==>
          && Roomy(cfg, node.sys.chip.blocks, node.sys.ram)
          && Within(cfg, size, node.sys.chip.blocks, node.sys.ram.data, p))
  }

  lemma WithinMayHold(cfg: Config, size: nat, blocks: seq<Image>, data: Option<nat>, p: Possible)
    requires Within(cfg, size, blocks, data, p) && WellFormed(cfg, blocks)
    ensures MayHold(cfg, size, blocks, p)
  {
    var d := Latest(cfg, blocks);
    if d.Some? { assert cfg.Good(blocks[d.value]); }
  }

  // ---- one call -----------------------------------------------------------------------------------------------------

  /** A call as the theorem allows it: no erase error, and the block it leaves is sound. */
  ghost predicate SaveSound(cfg: Config, sys: System, bytes: seq<Byte>, script: seq<Outcome>)
    requires sys.Fits(cfg) && sys.up && |bytes| <= cfg.DataSize() && ScriptFits(cfg, script)
  {
    var put := Stored0(sys.ram, bytes);
    var chip := Powered(sys.chip, script);
    put.buffer.data != sys.ram.buffer.data ==>
      && sys.ram.buffer.count < 0xFFFF_FFFF && WrapSafe(cfg, put) && Sound(cfg, chip, put)
      && Update(cfg, chip, put).status != EraseError
  }

  /**
   After a call: only its configuration if it returned 1; one more possibility if it did not but its block is there.
   */
  function After(cfg: Config, sys: System, bytes: seq<Byte>, script: seq<Outcome>, p: Possible): Possible
    requires sys.Fits(cfg) && sys.up && |bytes| <= cfg.DataSize() && ScriptFits(cfg, script)
  {
    var c := SaveCall(cfg, sys, bytes, script);
    if c.chip.on && c.ret == 1 then {Some(bytes)}
    else if SaveLanded(cfg, sys, bytes, script) then p + {Some(bytes)}
    else p
  }

  /** Good blocks after a save, in terms of those before. */
  lemma SurvivorsWithin(cfg: Config, size: nat, was: seq<Image>, now: seq<Image>, data: Option<nat>, p: Possible,
                        next: nat, landed: Option<Image>)
    requires Within(cfg, size, was, data, p) && Survivors(cfg, was, now, next, landed)
    requires data.Some? ==> now[data.value] == was[data.value]
    requires landed.Some? ==> cfg.Fits(landed.value)
    ensures Within(cfg, size, now, data, if landed.None? then p else p + {Some(landed.value.data[..size])})
  {
  }

  /** After a save that worked its block is the only one that recent. */
  lemma NewestWithin(cfg: Config, size: nat, was: seq<Image>, now: seq<Image>, c: Word, next: nat, img: Image)
    requires |was| == cfg.Slots() && size <= cfg.DataSize() && Survivors(cfg, was, now, next, Some(img))
    requires Bounded(cfg, was, c) && c < img.count && next < |now| && now[next] == img && cfg.Good(img) && cfg.Fits(img)
    ensures Within(cfg, size, now, Some(next), {Some(img.data[..size])})
  {
  }

  /** The save of a call, interrupted or not. */
  lemma UpdateWithin(cfg: Config, size: nat, chip: Chip, ram: Ram, p: Possible)
    requires chip.Fits(cfg) && Roomy(cfg, chip.blocks, ram) && Within(cfg, size, chip.blocks, ram.data, p)
    requires WrapSafe(cfg, ram) && ram.buffer.count < 0xFFFF_FFFF && Sound(cfg, chip, ram)
    ensures var r := Update(cfg, chip, ram); var bytes := ram.buffer.data[..size];
      Within(cfg, size, r.chip.blocks, ram.data, if Landed(cfg, chip, ram) then p + {Some(bytes)} else p)
  {
    UpdateSafe(cfg, chip, ram);
    SurvivorsWithin(cfg, size, chip.blocks, Update(cfg, chip, ram).chip.blocks, ram.data, p, ram.next,
                    LandedBlock(cfg, chip, ram));
  }

  /** What it tells: after a success only the new configuration is possible; otherwise RAM knows what it knew. */
  lemma UpdateLeaves(cfg: Config, size: nat, chip: Chip, ram: Ram)
    requires chip.Fits(cfg) && Roomy(cfg, chip.blocks, ram) && Anchored(cfg, chip.blocks, ram) && WrapSafe(cfg, ram)
    requires ram.buffer.count < 0xFFFF_FFFF && Sound(cfg, chip, ram) && size <= cfg.DataSize()
    ensures var r := Update(cfg, chip, ram); var bytes := ram.buffer.data[..size];
      && (r.chip.on && r.status == Ok ==> Within(cfg, size, r.chip.blocks, r.ram.data, {Some(bytes)}))
      && (r.status != Ok ==> r.ram.data == ram.data)
  {
    var r := Update(cfg, chip, ram);
    UpdateTells(cfg, chip, ram);
    if r.chip.on && r.status == Ok {
      UpdateSafe(cfg, chip, ram);
      NewestWithin(cfg, size, chip.blocks, r.chip.blocks, ram.buffer.count, ram.next, Next(cfg, ram));
    }
  }

  lemma SaveWithin(cfg: Config, sys: System, bytes: seq<Byte>, script: seq<Outcome>, config: seq<Byte>, run: bool,
                   p: Possible)
    requires NodeInv(cfg, |bytes|, Node(sys, config, run), p) && sys.up && ScriptFits(cfg, script)
    requires SaveSound(cfg, sys, bytes, script)
    ensures var c := SaveCall(cfg, sys, bytes, script);
      NodeInv(cfg, |bytes|, Node(System(c.chip, c.ram, c.chip.on), bytes, c.chip.on), After(cfg, sys, bytes, script, p))
  {
    var put := Stored0(sys.ram, bytes);
    var chip := Powered(sys.chip, script);
    if put.buffer.data != sys.ram.buffer.data {
      assert Roomy(cfg, chip.blocks, put);
      UpdateSafe(cfg, chip, put);
      UpdateWithin(cfg, |bytes|, chip, put, p);
      UpdateLeaves(cfg, |bytes|, chip, put);
      var r := Update(cfg, chip, put);
      WithinMayHold(cfg, |bytes|, r.chip.blocks, put.data, if Landed(cfg, chip, put) then p + {Some(bytes)} else p);
      if r.chip.on && r.status == Ok { WithinMayHold(cfg, |bytes|, r.chip.blocks, r.ram.data, {Some(bytes)}); }
    }
  }

  // ---- runs ---------------------------------------------------------------------------------------------------------

  ghost predicate ActSound(cfg: Config, defaults: seq<Byte>, node: Node, a: Act)
    requires NodeFits(cfg, |defaults|, node)
  {
    && ActFits(cfg, |defaults|, a)
    && var s := SaveOf(cfg, defaults, node, a);
       s.Some? ==> SaveSound(cfg, s.value.0, s.value.1, s.value.2)
  }

  function AfterAct(cfg: Config, defaults: seq<Byte>, node: Node, a: Act, p: Possible): Possible
    requires NodeFits(cfg, |defaults|, node) && ActFits(cfg, |defaults|, a)
  {
    var s := SaveOf(cfg, defaults, node, a);
    if s.Some? then After(cfg, s.value.0, s.value.1, s.value.2, p) else p
  }

  /** A start-up, wherever it stops, leaves what the flash may hold; completed, it has that in RAM. */
  lemma BootWithin(cfg: Config, size: nat, sys: System, boot: seq<Outcome>, p: Possible)
    requires sys.Fits(cfg) && ScriptFits(cfg, boot) && Ordered(cfg, sys.chip.blocks)
    requires MayHold(cfg, size, sys.chip.blocks, p)
    ensures var r := Init(cfg, Powered(sys.chip, boot), FreshRam(cfg));
      && Ordered(cfg, r.chip.blocks) && MayHold(cfg, size, r.chip.blocks, p) && r.chip.clobbered == sys.chip.clobbered
      && (r.chip.on && r.status != EraseError ==>
            && Roomy(cfg, r.chip.blocks, r.ram) && Within(cfg, size, r.chip.blocks, r.ram.data, p)
            && (if r.ram.data.None? then None in p else Some(r.ram.buffer.data[..size]) in p))
  {
    var chip := Powered(sys.chip, boot);
    InitSafe(cfg, chip);
    var r := Init(cfg, chip, FreshRam(cfg));
    if r.chip.on && r.status != EraseError {
      InitKeepsActive(cfg, chip);
      LatestWithin(cfg, size, r.chip.blocks, p);
    }
  }

  lemma LatestWithin(cfg: Config, size: nat, blocks: seq<Image>, p: Possible)
    requires Ordered(cfg, blocks) && MayHold(cfg, size, blocks, p)
    requires var d := Latest(cfg, blocks);
      forall s :: 0 <= s < cfg.Slots() && d.Some? && cfg.SectorOf(s) != cfg.SectorOf(d.value)
        ==> blocks[s] == cfg.Blank()
    ensures Within(cfg, size, blocks, Latest(cfg, blocks), p)
  {
    var d := Latest(cfg, blocks);
    if d.Some? {
      forall s | 0 <= s < |blocks| && cfg.Good(blocks[s]) && blocks[d.value].count <= blocks[s].count
        ensures s == d.value
      {
        assert cfg.SectorOf(s) == cfg.SectorOf(d.value);
      }
    }
  }

  lemma ActWithin(cfg: Config, defaults: seq<Byte>, node: Node, a: Act, p: Possible)
    requires NodeInv(cfg, |defaults|, node, p) && ActSound(cfg, defaults, node, a)
    ensures NodeInv(cfg, |defaults|, Do(cfg, defaults, node, a), AfterAct(cfg, defaults, node, a, p))
  {
    match a
    case Write(bytes, script) =>
      if node.running { SaveWithin(cfg, node.sys, bytes, script, node.config, node.running, p); }
    case Restart(boot, load) =>
      BootWithin(cfg, |defaults|, node.sys, boot, p);
      var r := Init(cfg, Powered(node.sys.chip, boot), FreshRam(cfg));
      if r.chip.on && r.status == Ok && r.ram.data.None? {
        SaveWithin(cfg, System(r.chip, r.ram, true), defaults, load, node.config, false, p);
      }
  }

  ghost predicate ActsSound(cfg: Config, defaults: seq<Byte>, node: Node, acts: seq<Act>)
    requires NodeFits(cfg, |defaults|, node) && ActsFit(cfg, |defaults|, acts)
    decreases |acts|
  {
    |acts| == 0 ||
    (ActSound(cfg, defaults, node, acts[0]) && ActsSound(cfg, defaults, Do(cfg, defaults, node, acts[0]), acts[1..]))
  }

  /** What the store may hold after a run. */
  function AfterAll(cfg: Config, defaults: seq<Byte>, node: Node, acts: seq<Act>, p: Possible): Possible
    requires NodeFits(cfg, |defaults|, node) && ActsFit(cfg, |defaults|, acts)
    decreases |acts|
  {
    if |acts| == 0 then p
    else AfterAll(cfg, defaults, Do(cfg, defaults, node, acts[0]), acts[1..], AfterAct(cfg, defaults, node, acts[0], p))
  }

  lemma {:induction false} ActsWithin(cfg: Config, defaults: seq<Byte>, node: Node, acts: seq<Act>, p: Possible)
    requires NodeInv(cfg, |defaults|, node, p)
    requires ActsFit(cfg, |defaults|, acts) && ActsSound(cfg, defaults, node, acts)
    ensures NodeInv(cfg, |defaults|, DoAll(cfg, defaults, node, acts), AfterAll(cfg, defaults, node, acts, p))
    decreases |acts|
  {
    if |acts| > 0 {
      ActWithin(cfg, defaults, node, acts[0], p);
      ActsWithin(cfg, defaults, Do(cfg, defaults, node, acts[0]), acts[1..], AfterAct(cfg, defaults, node, acts[0], p));
    }
  }

  /**
   Never older, never a mix. From a factory-fresh device, over every sequence of calls and restarts with power cuts and
   program errors in any page: no page is programmed unless erased, and a restart that gets to loading runs with the
   configuration of the last call that returned 1, or with one of a later call that failed or was interrupted with its
   block complete; or with the defaults, if no call has returned 1.
   */
  lemma NeverOlder(cfg: Config, defaults: seq<Byte>, node: Node, acts: seq<Act>, boot: seq<Outcome>, load: seq<Outcome>)
    requires NodeFits(cfg, |defaults|, node) && Factory(cfg, node.sys)
    requires ActsFit(cfg, |defaults|, acts) && ActsSound(cfg, defaults, node, acts)
    requires ActFits(cfg, |defaults|, Restart(boot, load))
    ensures var now := DoAll(cfg, defaults, node, acts); var p := AfterAll(cfg, defaults, node, acts, {None});
      var r := Do(cfg, defaults, now, Restart(boot, load));
      && !now.sys.chip.clobbered
      && (r.running ==> Some(r.config) in p || (None in p && r.config == defaults))
  {
    assert Content(cfg, node.sys.chip.blocks).None?;
    ActsWithin(cfg, defaults, node, acts, {None});
    BootWithin(cfg, |defaults|, DoAll(cfg, defaults, node, acts).sys, boot,
               AfterAll(cfg, defaults, node, acts, {None}));
  }

  /** A call that returned 1 leaves no other possibility. */
  lemma SuccessIsCertain(cfg: Config, defaults: seq<Byte>, node: Node, bytes: seq<Byte>, script: seq<Outcome>,
                         p: Possible)
    requires NodeFits(cfg, |defaults|, node) && node.running && ActFits(cfg, |defaults|, Write(bytes, script))
    requires var c := SaveCall(cfg, node.sys, bytes, script); c.chip.on && c.ret == 1
    ensures AfterAct(cfg, defaults, node, Write(bytes, script), p) == {Some(bytes)}
  {
  }
}
