/** The configuration functions of main.c on the driver, and the device run with them. */
module ConfigDriver {
  import opened Basics
  import opened FlashChip
  import opened EepromSpec
  import opened EepromRuns
  import opened EepromDriver
  import opened ConfigStore

  /**
   The defaults: four addresses as the address parser gives them, four bytes each at the start of the structure, and
   the ports and rates behind them.
   */
  datatype Defaults = Defaults(src: Option<seq<Byte>>, dst: Option<seq<Byte>>, gateway: Option<seq<Byte>>,
                               subnet: Option<seq<Byte>>, rest: seq<Byte>) {
    predicate Fits(size: nat) {
      && (src.Some? ==> |src.value| == 4) && (dst.Some? ==> |dst.value| == 4)
      && (gateway.Some? ==> |gateway.value| == 4) && (subnet.Some? ==> |subnet.value| == 4)
      && 16 + |rest| == size
    }

    /** How many addresses come before the first that does not parse. */
    function Taken(): (k: nat)
      ensures k <= 4
      ensures k > 0 ==> src.Some?
      ensures k > 1 ==> dst.Some?
      ensures k > 2 ==> gateway.Some?
      ensures k > 3 ==> subnet.Some?
    {
      if src.None? then 0 else if dst.None? then 1 else if gateway.None? then 2 else if subnet.None? then 3 else 4
    }

    function Bytes(): seq<Byte>
      requires Taken() == 4
    {
      src.value + dst.value + gateway.value + subnet.value + rest
    }

    /** All of them parse, and make up these bytes. */
    predicate Are(bytes: seq<Byte>) {
      Fits(|bytes|) && Taken() == 4 && Bytes() == bytes
    }
  }

  function WithAddress(bytes: seq<Byte>, addr: seq<Byte>, i: nat): (r: seq<Byte>)
    requires |addr| == 4 && 4 * i + 4 <= |bytes|
    ensures |r| == |bytes|
  {
    bytes[..4 * i] + addr + bytes[4 * i + 4..]
  }

  /** The structure with the first `k` addresses taken over. */
  function TakenOver(bytes: seq<Byte>, d: Defaults, k: nat): (r: seq<Byte>)
    requires d.Fits(|bytes|) && k <= d.Taken()
    ensures |r| == |bytes|
  {
    var b1 := if k > 0 then WithAddress(bytes, d.src.value, 0) else bytes;
    var b2 := if k > 1 then WithAddress(b1, d.dst.value, 1) else b1;
    var b3 := if k > 2 then WithAddress(b2, d.gateway.value, 2) else b2;
    if k > 3 then WithAddress(b3, d.subnet.value, 3) else b3
  }

  lemma AllTakenOver(bytes: seq<Byte>, d: Defaults)
    requires d.Fits(|bytes|) && d.Taken() == 4
    ensures TakenOver(bytes, d, 4)[..16] + d.rest == d.Bytes()
  {
    assert TakenOver(bytes, d, 4)[..16] == d.src.value + d.dst.value + d.gateway.value + d.subnet.value;
  }

  class ConfigKeeper {
    const eeprom: Eeprom
    /** The memory image of the configuration structure. */
    var flash: seq<Byte>

    constructor (eeprom: Eeprom, flash: seq<Byte>)
      ensures this.eeprom == eeprom && this.flash == flash
    {
      this.eeprom := eeprom;
      this.flash := flash;
    }

    ghost predicate Ready()
      reads this, eeprom, eeprom.device
    {
      eeprom.Valid() && eeprom.Wired() && eeprom.Positioned() && |flash| <= DATA_BYTES
    }

    method WriteFlashConfig() returns (ret: int)
      requires Ready()
      modifies eeprom, eeprom.device, eeprom.eepromData
      ensures Ready()
      ensures Call(eeprom.device.chip, eeprom.View(), ret)
        == WriteConfig(eeprom.device.cfg, old(eeprom.device.chip), old(eeprom.View()), flash)
    {
      ghost var ram := eeprom.View();
      var changed := eeprom.WriteArray(0, flash);
      assert eeprom.View() == Stored0(ram, flash);
      if changed {
        var status := eeprom.UpdateFlashContents();
        ret := if status != Ok then -1 else 1;
      } else {
        ret := -1;
      }
    }

    /** Take one default address over into the structure, if it parses. */
    method TakeAddress(addr: Option<seq<Byte>>, i: nat) returns (ok: bool)
      requires (addr.Some? ==> |addr.value| == 4) && 4 * i + 4 <= |flash|
      modifies this`flash
      ensures ok == addr.Some? && flash == if ok then WithAddress(old(flash), addr.value, i) else old(flash)
    {
      ok := addr.Some?;
      if ok {
        flash := flash[..4 * i] + addr.value + flash[4 * i + 4..];
      }
    }

    /**
     Take and save the defaults from an empty store or on demand; otherwise load the stored configuration. A default
     address that does not parse ends it, with the addresses before it taken over already.
     */
    method LoadFlashConfig(forceDefault: bool, defaults: Defaults) returns (ret: int)
      requires Ready() && defaults.Fits(|flash|)
      modifies this, eeprom, eeprom.device, eeprom.eepromData
      ensures Ready() && |flash| == |old(flash)|
      ensures (old(eeprom.View()).data.None? || forceDefault) && defaults.Taken() == 4 ==>
        && flash == defaults.Bytes()
        && Call(eeprom.device.chip, eeprom.View(), ret)
             == WriteConfig(eeprom.device.cfg, old(eeprom.device.chip), old(eeprom.View()), flash)
      ensures (old(eeprom.View()).data.None? || forceDefault) && defaults.Taken() < 4 ==>
        && flash == TakenOver(old(flash), defaults, defaults.Taken())
        && ret == -1 && eeprom.device.chip == old(eeprom.device.chip) && eeprom.View() == old(eeprom.View())
      ensures old(eeprom.View()).data.Some? && !forceDefault ==>
        && flash == old(eeprom.View()).buffer.data[..|flash|] && ret == 1
        && eeprom.device.chip == old(eeprom.device.chip) && eeprom.View() == old(eeprom.View())
    {
      var empty := eeprom.IsFlashEmpty();
      if empty || forceDefault {
        var ok := TakeDefaults(defaults);
        if !ok {
          return -1;
        }
        ret := WriteFlashConfig();
      } else {
        flash := eeprom.ReadArray(0, |flash|);
        ret := 1;
      }
    }

    /** The four addresses in turn, then the ports and rates. */
    method TakeDefaults(defaults: Defaults) returns (ok: bool)
      requires defaults.Fits(|flash|)
      modifies this`flash
      ensures ok == (defaults.Taken() == 4) && |flash| == |old(flash)|
      ensures flash == if ok then defaults.Bytes() else TakenOver(old(flash), defaults, defaults.Taken())
    {
      ok := TakeAddress(defaults.src, 0);
      if !ok {
        return;
      }
      ok := TakeAddress(defaults.dst, 1);
      if !ok {
        return;
      }
      ok := TakeAddress(defaults.gateway, 2);
      if !ok {
        return;
      }
      ok := TakeAddress(defaults.subnet, 3);
      if !ok {
        return;
      }
      AllTakenOver(old(flash), defaults);
      flash := flash[..16] + defaults.rest;
    }
  }

  // ---- the device over a whole run ----------------------------------------------------------------------------------

  ghost predicate Shipped(device: FlashDevice)
    reads device
  {
    device.cfg.n == 4 && device.cfg.pages == MAX_PAGES && device.chip.Fits(device.cfg)
  }

  /** The objects stand for the node: always its flash, and while it runs also its RAM and its configuration. */
  ghost predicate StandsFor(device: FlashDevice, keeper: ConfigKeeper, running: bool, size: nat, node: Node)
    reads device, keeper, keeper.eeprom, keeper.eeprom.device, keeper.eeprom.eepromData
  {
    && keeper.eeprom.device == device && Shipped(device) && device.chip == node.sys.chip
    && NodeFits(device.cfg, size, node) && running == node.running && |keeper.flash| == size
    && (running ==> keeper.Ready() && keeper.eeprom.View() == node.sys.ram && keeper.flash == node.config)
  }

  /** Reset: RAM as the C start-up code leaves it, then the EEPROM's start-up and, if that is well, the load. */
  method Reset(device: FlashDevice, d: Defaults, defaults: seq<Byte>, boot: seq<Outcome>, load: seq<Outcome>,
               ghost node: Node)
    returns (keeper: ConfigKeeper, running: bool)
    requires Shipped(device) && NodeFits(device.cfg, |defaults|, node) && device.chip == node.sys.chip
    requires d.Are(defaults)
    requires ActFits(device.cfg, |defaults|, Restart(boot, load))
    modifies device
    ensures fresh(keeper) && fresh(keeper.eeprom) && fresh(keeper.eeprom.eepromData)
    ensures StandsFor(device, keeper, running, |defaults|, Do(device.cfg, defaults, node, Restart(boot, load)))
  {
    device.chip := Powered(device.chip, boot);
    var eeprom := new Eeprom(device);
    keeper := new ConfigKeeper(eeprom, Zeros(|defaults|));
    running := false;
    var status := eeprom.Init();
    if status == Ok && device.chip.on {
      var empty := eeprom.IsFlashEmpty();
      if empty {
        device.chip := Powered(device.chip, load);
      }
      var ret := keeper.LoadFlashConfig(false, d);
      running := !empty || device.chip.on;
    }
  }

  /** One call of `write_flash_config` with a new configuration. */
  method Store(device: FlashDevice, keeper: ConfigKeeper, bytes: seq<Byte>, script: seq<Outcome>,
               ghost defaults: seq<Byte>, ghost node: Node)
    returns (running: bool)
    requires StandsFor(device, keeper, true, |defaults|, node) && ActFits(device.cfg, |defaults|, Write(bytes, script))
    modifies device, keeper, keeper.eeprom, keeper.eeprom.eepromData
    ensures StandsFor(device, keeper, running, |defaults|, Do(device.cfg, defaults, node, Write(bytes, script)))
  {
    device.chip := Powered(device.chip, script);
    keeper.flash := bytes;
    var ret := keeper.WriteFlashConfig();
    running := device.chip.on;
  }

  /** One act on the objects; a restart makes new ones. */
  method Perform(device: FlashDevice, was: ConfigKeeper, ran: bool, d: Defaults, defaults: seq<Byte>, a: Act,
                 ghost node: Node)
    returns (keeper: ConfigKeeper, running: bool)
    requires StandsFor(device, was, ran, |defaults|, node) && ActFits(device.cfg, |defaults|, a) && d.Are(defaults)
    modifies device, was, was.eeprom, was.eeprom.eepromData
    ensures keeper == was || (fresh(keeper) && fresh(keeper.eeprom) && fresh(keeper.eeprom.eepromData))
    ensures StandsFor(device, keeper, running, |defaults|, Do(device.cfg, defaults, node, a))
  {
    keeper, running := was, ran;
    match a {
      case Write(bytes, script) =>
        if ran {
          running := Store(device, keeper, bytes, script, defaults, node);
        }
      case Restart(boot, load) =>
        keeper, running := Reset(device, d, defaults, boot, load, node);
    }
  }

  /**
   The run of the device on the driver's own code: whatever calls and restarts come, what is in flash, whether the
   device runs and with which configuration is as the run theorems have it.
   */
  method RunDevice(device: FlashDevice, d: Defaults, defaults: seq<Byte>, acts: seq<Act>)
    returns (running: bool, config: seq<Byte>)
    requires Shipped(device) && d.Are(defaults) && |defaults| <= DATA_BYTES && ActsFit(device.cfg, |defaults|, acts)
    modifies device
    ensures Shipped(device)
    ensures var node := Node(System(old(device.chip), FreshRam(device.cfg), false), Zeros(|defaults|), false);
      var r := DoAll(device.cfg, defaults, node, acts);
      device.chip == r.sys.chip && running == r.running && (running ==> config == r.config)
  {
    var eeprom := new Eeprom(device);
    var keeper := new ConfigKeeper(eeprom, Zeros(|defaults|));
    running := false;
    ghost var node := Node(System(device.chip, FreshRam(device.cfg), false), Zeros(|defaults|), false);
    ghost var goal := DoAll(device.cfg, defaults, node, acts);
    var rest := acts;
    while rest != []
      invariant fresh(keeper) && fresh(keeper.eeprom) && fresh(keeper.eeprom.eepromData)
      invariant StandsFor(device, keeper, running, |defaults|, node)
      invariant ActsFit(device.cfg, |defaults|, rest) && DoAll(device.cfg, defaults, node, rest) == goal
      decreases |rest|
    {
      DoNext(device.cfg, defaults, node, rest, goal);
      keeper, running := Perform(device, keeper, running, d, defaults, rest[0], node);
      node := Do(device.cfg, defaults, node, rest[0]);
      rest := rest[1..];
    }
    config := keeper.flash;
  }

  lemma {:induction false} DoNext(cfg: Config, defaults: seq<Byte>, node: Node, acts: seq<Act>, goal: Node)
    requires NodeFits(cfg, |defaults|, node) && acts != [] && ActsFit(cfg, |defaults|, acts)
    requires DoAll(cfg, defaults, node, acts) == goal
    ensures ActFits(cfg, |defaults|, acts[0]) && ActsFit(cfg, |defaults|, acts[1..])
    ensures DoAll(cfg, defaults, Do(cfg, defaults, node, acts[0]), acts[1..]) == goal
  {
  }
}
