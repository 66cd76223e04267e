/** The status OldData, which `main` takes for a failed initialisation: there is no way back from it. */
module ConfigStuck {
  import opened Basics
  import opened FlashChip
  import opened EepromSpec
  import opened EepromInvariant
  import opened EepromDurability
  import opened EepromRuns
  import opened EepromEdges
  import opened ConfigStore

  /** A flash whose start-up reports OldData and has nothing left to erase. */
  ghost predicate Stuck(cfg: Config, blocks: seq<Image>) {
    && Ordered(cfg, blocks) && Overshadowed(cfg, blocks)
    && forall s :: 0 <= s < cfg.Slots() && cfg.SectorOf(s) != cfg.SectorOf(Latest(cfg, blocks).value)
         ==> blocks[s].count == 0
  }

  lemma ReportedIsStuck(cfg: Config, chip: Chip)
    requires chip.Fits(cfg) && Ordered(cfg, chip.blocks)
    requires var r := Init(cfg, chip, FreshRam(cfg)); r.chip.on && r.status == OldData
    ensures Stuck(cfg, Init(cfg, chip, FreshRam(cfg)).chip.blocks)
  {
    InitKeepsActive(cfg, chip);
    InitSafe(cfg, chip);
    StatusExact(cfg, chip);
    SameShadow(cfg, chip.blocks, Init(cfg, chip, FreshRam(cfg)).chip.blocks);
  }

  lemma {:induction false} StuckStays(cfg: Config, defaults: seq<Byte>, node: Node, acts: seq<Act>)
    requires NodeFits(cfg, |defaults|, node) && Stuck(cfg, node.sys.chip.blocks) && !node.running
    requires ActsFit(cfg, |defaults|, acts)
    ensures var r := DoAll(cfg, defaults, node, acts); !r.running && r.sys.chip.blocks == node.sys.chip.blocks
    decreases |acts|
  {
    if |acts| > 0 {
      if acts[0].Restart? {
        var chip := Powered(node.sys.chip, acts[0].boot);
        InitIdle(cfg, chip);
        StatusExact(cfg, chip);
      }
      StuckStays(cfg, defaults, Do(cfg, defaults, node, acts[0]), acts[1..]);
    }
  }

  /**
   A device whose start-up once reported OldData never runs again: whatever restarts follow, cut short or not, with
   or without flash errors, each ends before the configuration is loaded, and the flash stays as it is.
   */
  lemma OldDataNeverRuns(cfg: Config, defaults: seq<Byte>, node: Node, boot: seq<Outcome>, load: seq<Outcome>,
                         acts: seq<Act>)
    requires NodeFits(cfg, |defaults|, node) && Ordered(cfg, node.sys.chip.blocks)
    requires ActFits(cfg, |defaults|, Restart(boot, load)) && ActsFit(cfg, |defaults|, acts)
    requires var r := Init(cfg, Powered(node.sys.chip, boot), FreshRam(cfg)); r.chip.on && r.status == OldData
    ensures var first := Do(cfg, defaults, node, Restart(boot, load)); var r := DoAll(cfg, defaults, first, acts);
      !r.running && r.sys.chip.blocks == first.sys.chip.blocks
  {
    ReportedIsStuck(cfg, Powered(node.sys.chip, boot));
    StuckStays(cfg, defaults, Do(cfg, defaults, node, Restart(boot, load)), acts);
  }
}
