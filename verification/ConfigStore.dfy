/** The configuration as main.c keeps it: saved through the EEPROM emulation, loaded once at boot. */
module ConfigStore {
  import opened Basics
  import opened FlashChip
  import opened EepromSpec
  import opened EepromInvariant
  import opened EepromDurability
  import opened EepromRuns

  /** What a call to `write_flash_config` leaves, and the value it returns: 1, or -1. */
  datatype Call = Call(chip: Chip, ram: Ram, ret: int)

  function Stored0(ram: Ram, bytes: seq<Byte>): (r: Ram)
    requires |bytes| <= |ram.buffer.data|
    ensures |r.buffer.data| == |ram.buffer.data| && r.buffer.data[..|bytes|] == bytes
  {
    ram.(buffer := ram.buffer.(data := Stored(ram.buffer.data, 0, bytes)))
  }

  /** Copy the configuration into the RAM buffer and save it, but only if that changed the buffer. */
  function WriteConfig(cfg: Config, chip: Chip, ram: Ram, bytes: seq<Byte>): (c: Call)
    requires chip.Fits(cfg) && ram.Fits(cfg) && ram.next < cfg.Slots()
    requires ram.data.Some? ==> ram.data.value < cfg.Slots()
    requires |bytes| <= cfg.DataSize()
    ensures c.ret == 1 || c.ret == -1
  {
    var put := Stored0(ram, bytes);
    if put.buffer.data != ram.buffer.data then
      var r := Update(cfg, chip, put);
      Call(r.chip, r.ram, if r.status == Ok then 1 else -1)
    else Call(chip, put, -1)
  }

  // ---- the device across calls and restarts -------------------------------------------------------------------------

  /** The EEPROM with the configuration in use; `running` once boot has got past the initialisation check. */
  datatype Node = Node(sys: System, config: seq<Byte>, running: bool)

  /** A call with the given configuration, or a restart; each with the fate of its flash operations. */
  datatype Act = Write(bytes: seq<Byte>, script: seq<Outcome>) | Restart(boot: seq<Outcome>, load: seq<Outcome>)

  ghost predicate NodeFits(cfg: Config, size: nat, node: Node) {
    node.sys.Fits(cfg) && size <= cfg.DataSize() && |node.config| == size && (node.running ==> node.sys.up)
  }

  ghost predicate ActFits(cfg: Config, size: nat, a: Act) {
    match a
    case Write(bytes, script) => |bytes| == size && ScriptFits(cfg, script)
    case Restart(boot, load) => ScriptFits(cfg, boot) && ScriptFits(cfg, load)
  }

  function SaveCall(cfg: Config, sys: System, bytes: seq<Byte>, script: seq<Outcome>): Call
    requires sys.Fits(cfg) && sys.up && |bytes| <= cfg.DataSize() && ScriptFits(cfg, script)
  {
    WriteConfig(cfg, Powered(sys.chip, script), sys.ram, bytes)
  }

  /**
   One act. A restart runs the start-up; main stays in its error loop unless the status is Ok. Otherwise the
   configuration is loaded, or, from an empty store, the defaults are taken and written.
   */
  function Do(cfg: Config, defaults: seq<Byte>, node: Node, a: Act): (r: Node)
    requires NodeFits(cfg, |defaults|, node) && ActFits(cfg, |defaults|, a)
    ensures NodeFits(cfg, |defaults|, r)
  {
    match a
    case Write(bytes, script) =>
      if !node.running then node else
      var c := SaveCall(cfg, node.sys, bytes, script);
      Node(System(c.chip, c.ram, c.chip.on), bytes, c.chip.on)
    case Restart(boot, load) =>
      var r := Init(cfg, Powered(node.sys.chip, boot), FreshRam(cfg));
      if !r.chip.on || r.status != Ok then
        Node(System(r.chip, r.ram, r.chip.on && r.status != EraseError), node.config, false)
      else if r.ram.data.Some? then Node(System(r.chip, r.ram, true), r.ram.buffer.data[..|defaults|], true)
      else
        var c := WriteConfig(cfg, Powered(r.chip, load), r.ram, defaults);
        Node(System(c.chip, c.ram, c.chip.on), defaults, c.chip.on)
  }

  /** The save made by an act, if it makes one: the state it starts from and the bytes it saves. */
  function SaveOf(cfg: Config, defaults: seq<Byte>, node: Node, a: Act): Option<(System, seq<Byte>, seq<Outcome>)>
    requires NodeFits(cfg, |defaults|, node) && ActFits(cfg, |defaults|, a)
  {
    match a
    case Write(bytes, script) => if node.running then Some((node.sys, bytes, script)) else None
    case Restart(boot, load) =>
      var r := Init(cfg, Powered(node.sys.chip, boot), FreshRam(cfg));
      if r.chip.on && r.status == Ok && r.ram.data.None? then Some((System(r.chip, r.ram, true), defaults, load))
      else None
  }

  /** The bytes were new and reached flash, whether or not the call lived to return. */
  predicate SaveLanded(cfg: Config, sys: System, bytes: seq<Byte>, script: seq<Outcome>)
    requires sys.Fits(cfg) && sys.up && |bytes| <= cfg.DataSize() && ScriptFits(cfg, script)
  {
    var put := Stored0(sys.ram, bytes);
    put.buffer.data != sys.ram.buffer.data && Landed(cfg, Powered(sys.chip, script), put)
  }

  /** Whether a call counts: one that returned, if it returned 1; one the power failed in, if its block landed. */
  predicate Counts(cfg: Config, sys: System, bytes: seq<Byte>, script: seq<Outcome>)
    requires sys.Fits(cfg) && sys.up && |bytes| <= cfg.DataSize() && ScriptFits(cfg, script)
  {
    var c := SaveCall(cfg, sys, bytes, script);
    if c.chip.on then c.ret == 1 else SaveLanded(cfg, sys, bytes, script)
  }

  /** The configuration of the last call that returned 1, or of a later interrupted one that landed. */
  function LastKept(cfg: Config, defaults: seq<Byte>, node: Node, a: Act, last: Option<seq<Byte>>): Option<seq<Byte>>
    requires NodeFits(cfg, |defaults|, node) && ActFits(cfg, |defaults|, a)
  {
    var s := SaveOf(cfg, defaults, node, a);
    if s.Some? && Counts(cfg, s.value.0, s.value.1, s.value.2) then Some(s.value.1) else last
  }

  /** A save as the theorems allow it: the power may fail in it; it meets no erase error; its faults are detected. */
  ghost predicate SaveAdmissible(cfg: Config, sys: System, bytes: seq<Byte>, script: seq<Outcome>)
    requires sys.Fits(cfg) && sys.up && |bytes| <= cfg.DataSize() && ScriptFits(cfg, script)
  {
    var put := Stored0(sys.ram, bytes);
    var chip := Powered(sys.chip, script);
    put.buffer.data != sys.ram.buffer.data ==>
      && sys.ram.buffer.count < 0xFFFF_FFFF && WrapSafe(cfg, put) && Detected(cfg, chip, put)
      && Update(cfg, chip, put).status != EraseError
  }

  ghost predicate ActAdmissible(cfg: Config, defaults: seq<Byte>, node: Node, a: Act)
    requires NodeFits(cfg, |defaults|, node)
  {
    && ActFits(cfg, |defaults|, a)
    && var s := SaveOf(cfg, defaults, node, a);
       s.Some? ==> SaveAdmissible(cfg, s.value.0, s.value.1, s.value.2)
  }

  /** Flash holds exactly the configuration `last`. */
  ghost predicate Holds(cfg: Config, size: nat, blocks: seq<Image>, last: Option<seq<Byte>>)
    requires |blocks| == cfg.Slots()
  {
    var c := Content(cfg, blocks);
    (c.None? <==> last.None?) && (c.Some? ==> size <= |c.value.data| && last == Some(c.value.data[..size]))
  }

  /** One save, interrupted or not: the store holds the new bytes if the call counts, and what it held otherwise. */
  lemma SaveKeeps(cfg: Config, sys: System, bytes: seq<Byte>, script: seq<Outcome>, last: Option<seq<Byte>>)
    requires sys.Fits(cfg) && sys.up && SysInv(cfg, sys) && |bytes| <= cfg.DataSize() && ScriptFits(cfg, script)
    requires SaveAdmissible(cfg, sys, bytes, script) && Holds(cfg, |bytes|, sys.chip.blocks, last)
    ensures var c := SaveCall(cfg, sys, bytes, script);
      && SysInv(cfg, System(c.chip, c.ram, c.chip.on))
      && Holds(cfg, |bytes|, c.chip.blocks, if Counts(cfg, sys, bytes, script) then Some(bytes) else last)
      && (Counts(cfg, sys, bytes, script) <==> SaveLanded(cfg, sys, bytes, script))
  {
    var put := Stored0(sys.ram, bytes);
    var chip := Powered(sys.chip, script);
    assert RamInv(cfg, chip.blocks, put);
    if put.buffer.data != sys.ram.buffer.data {
      UpdateAtomic(cfg, chip, put);
    }
  }

  /** A call that leaves the RAM image as it was returns -1 and programs nothing. */
  lemma UnchangedCallFails(cfg: Config, chip: Chip, ram: Ram, bytes: seq<Byte>)
    requires chip.Fits(cfg) && ram.Fits(cfg) && ram.next < cfg.Slots()
    requires ram.data.Some? ==> ram.data.value < cfg.Slots()
    requires |bytes| <= cfg.DataSize() && ram.buffer.data[..|bytes|] == bytes
    ensures WriteConfig(cfg, chip, ram, bytes) == Call(chip, ram, -1)
  {
    assert Stored(ram.buffer.data, 0, bytes) == ram.buffer.data;
  }

  /** So a call that is repeated, after a failed one as after any other, returns -1 without trying again. */
  lemma RepeatedCallFails(cfg: Config, defaults: seq<Byte>, node: Node, bytes: seq<Byte>, first: seq<Outcome>,
                          second: seq<Outcome>)
    requires NodeFits(cfg, |defaults|, node) && node.running
    requires ActFits(cfg, |defaults|, Write(bytes, first)) && ActFits(cfg, |defaults|, Write(bytes, second))
    ensures var w := Do(cfg, defaults, node, Write(bytes, first));
      w.running ==>
        var c := SaveCall(cfg, w.sys, bytes, second); c.ret == -1 && c.chip == Powered(w.sys.chip, second)
  {
    var w := Do(cfg, defaults, node, Write(bytes, first));
    if w.running {
      CallKeepsBuffer(cfg, Powered(node.sys.chip, first), node.sys.ram, bytes);
      UnchangedCallFails(cfg, Powered(w.sys.chip, second), w.sys.ram, bytes);
    }
  }

  lemma CallKeepsBuffer(cfg: Config, chip: Chip, ram: Ram, bytes: seq<Byte>)
    requires chip.Fits(cfg) && ram.Fits(cfg) && ram.next < cfg.Slots()
    requires ram.data.Some? ==> ram.data.value < cfg.Slots()
    requires |bytes| <= cfg.DataSize()
    ensures WriteConfig(cfg, chip, ram, bytes).ram.buffer.data[..|bytes|] == bytes
  {
  }

  lemma ActKeeps(cfg: Config, defaults: seq<Byte>, node: Node, a: Act, last: Option<seq<Byte>>)
    requires NodeFits(cfg, |defaults|, node) && SysInv(cfg, node.sys)
    requires ActAdmissible(cfg, defaults, node, a) && Holds(cfg, |defaults|, node.sys.chip.blocks, last)
    ensures var r := Do(cfg, defaults, node, a);
      SysInv(cfg, r.sys) && Holds(cfg, |defaults|, r.sys.chip.blocks, LastKept(cfg, defaults, node, a, last))
  {
    match a
    case Write(bytes, script) =>
      if node.running { SaveKeeps(cfg, node.sys, bytes, script, last); }
    case Restart(boot, load) =>
      var chip := Powered(node.sys.chip, boot);
      InitRecovers(cfg, chip);
      var r := Init(cfg, chip, FreshRam(cfg));
      if r.chip.on && r.status == Ok && r.ram.data.None? {
        SaveKeeps(cfg, System(r.chip, r.ram, true), defaults, load, last);
      }
  }

  /** A restart that reaches the load of a store that is not empty loads the last configuration kept. */
  lemma LoadIsLastKept(cfg: Config, defaults: seq<Byte>, node: Node, boot: seq<Outcome>, load: seq<Outcome>,
                       last: Option<seq<Byte>>)
    requires NodeFits(cfg, |defaults|, node) && SysInv(cfg, node.sys) && ActFits(cfg, |defaults|, Restart(boot, load))
    requires Holds(cfg, |defaults|, node.sys.chip.blocks, last)
    ensures var r := Do(cfg, defaults, node, Restart(boot, load));
      r.running ==> Some(r.config) == if last.Some? then last else Some(defaults)
  {
    InitRecovers(cfg, Powered(node.sys.chip, boot));
  }

  // ---- runs ---------------------------------------------------------------------------------------------------------

  ghost predicate ActsFit(cfg: Config, size: nat, acts: seq<Act>) {
    forall i :: 0 <= i < |acts| ==> ActFits(cfg, size, acts[i])
  }

  function DoAll(cfg: Config, defaults: seq<Byte>, node: Node, acts: seq<Act>): (r: Node)
    requires NodeFits(cfg, |defaults|, node) && ActsFit(cfg, |defaults|, acts)
    ensures NodeFits(cfg, |defaults|, r)
    decreases |acts|
  {
    if |acts| == 0 then node else DoAll(cfg, defaults, Do(cfg, defaults, node, acts[0]), acts[1..])
  }

  ghost predicate ActsAdmissible(cfg: Config, defaults: seq<Byte>, node: Node, acts: seq<Act>)
    requires NodeFits(cfg, |defaults|, node) && ActsFit(cfg, |defaults|, acts)
    decreases |acts|
  {
    |acts| == 0 ||
    (ActAdmissible(cfg, defaults, node, acts[0])
     && ActsAdmissible(cfg, defaults, Do(cfg, defaults, node, acts[0]), acts[1..]))
  }

  function LastOf(cfg: Config, defaults: seq<Byte>, node: Node, acts: seq<Act>,
                  last: Option<seq<Byte>>): Option<seq<Byte>>
    requires NodeFits(cfg, |defaults|, node) && ActsFit(cfg, |defaults|, acts)
    decreases |acts|
  {
    if |acts| == 0 then last
    else LastOf(cfg, defaults, Do(cfg, defaults, node, acts[0]), acts[1..],
                LastKept(cfg, defaults, node, acts[0], last))
  }

  lemma {:induction false} ActsKeep(cfg: Config, defaults: seq<Byte>, node: Node, acts: seq<Act>,
                                    last: Option<seq<Byte>>)
    requires NodeFits(cfg, |defaults|, node) && SysInv(cfg, node.sys)
    requires ActsFit(cfg, |defaults|, acts) && ActsAdmissible(cfg, defaults, node, acts)
    requires Holds(cfg, |defaults|, node.sys.chip.blocks, last)
    ensures var r := DoAll(cfg, defaults, node, acts);
      SysInv(cfg, r.sys) && Holds(cfg, |defaults|, r.sys.chip.blocks, LastOf(cfg, defaults, node, acts, last))
    decreases |acts|
  {
    if |acts| > 0 {
      ActKeeps(cfg, defaults, node, acts[0], last);
      ActsKeep(cfg, defaults, Do(cfg, defaults, node, acts[0]), acts[1..],
               LastKept(cfg, defaults, node, acts[0], last));
    }
  }

  /**
   Persistence. From a factory-fresh device, over every sequence of calls and restarts, each of them possibly cut by
   a power failure: a restart that gets to loading leaves in use the configuration of the last call that returned 1,
   or of a later interrupted one that landed, or the defaults if there is none.
   */
  lemma ConfigPersists(cfg: Config, defaults: seq<Byte>, node: Node, acts: seq<Act>, boot: seq<Outcome>,
                       load: seq<Outcome>)
    requires NodeFits(cfg, |defaults|, node) && Factory(cfg, node.sys)
    requires ActsFit(cfg, |defaults|, acts) && ActsAdmissible(cfg, defaults, node, acts)
    requires ActFits(cfg, |defaults|, Restart(boot, load))
    ensures var r := Do(cfg, defaults, DoAll(cfg, defaults, node, acts), Restart(boot, load));
      var last := LastOf(cfg, defaults, node, acts, None);
      r.running ==> r.config == if last.Some? then last.value else defaults
  {
    assert Content(cfg, node.sys.chip.blocks).None?;
    ActsKeep(cfg, defaults, node, acts, None);
    LoadIsLastKept(cfg, defaults, DoAll(cfg, defaults, node, acts), boot, load,
                   LastOf(cfg, defaults, node, acts, None));
  }
}
