/** From end to end: a configuration printed, sent over TFTP, parsed, saved and loaded again at the next boot. */
module ConfigTransfer {
  import opened Basics
  import opened FlashChip
  import opened EepromSpec
  import opened EepromRuns
  import opened Text
  import opened Commands
  import opened ConfigText
  import opened TftpSpec
  import opened TftpTransfer
  import opened TftpConfirm
  import opened ConfigStore
  import opened ConfigPower

  ghost predicate Keys(keys: seq<seq<Ch>>) {
    |keys| == 10 && forall j :: 0 <= j < 10 ==> LowerAll(keys[j]) == Name(j)
  }

  predicate Idle(s: Server) {
    s.status == Running && !s.sending && s.currBlock == 0
  }

  /**
   A configuration printed with keys in any letter case and sent in one transfer to an idle server whose buffer is
   empty becomes the server's configuration, whatever that was before and whatever the flash write returns; and its
   last block is acknowledged twice if and only if the flash write succeeded.
   */
  lemma TransferConfigures(aton: AddrParser, ntoa: AddrPrinter, keys: seq<seq<Ch>>, c: Settings,
                           s: Server, name: seq<Ch>, from: Peer, saved: bool)
    requires Keys(keys) && Inverts(aton, ntoa) && Idle(s) && s.file == [] && NUL !in name
    requires |Print(ntoa, keys, c, 0)| < BUFFER_SIZE
    ensures var text := Print(ntoa, keys, c, 0); var r := Upload(aton, s, name, text, from, saved);
      r.settings == c && (AckedTwice(r.out, |Packets(text, 1)|) <==> saved)
  {
    var text := Print(ntoa, keys, c, 0);
    RoundTrip(aton, s, name, text, from, saved);
    UploadConfirmed(aton, s, name, text, from, saved);
    PrintedConfigRestores(aton, ntoa, keys, c, s.settings);
    ParseOutcome(aton, text, s.settings);
    assert s.file + text == text;
  }

  /** How the compiler lays the configuration out in memory: all that is assumed is that reading undoes it. */
  datatype Layout = Layout(size: nat, image: Settings -> seq<Byte>, read: seq<Byte> -> Settings) {
    ghost predicate Faithful() {
      forall s: Settings :: |image(s)| == size && read(image(s)) == s
    }
  }

  /** The device and its TFTP server at an upload: `saved` is what the flash write of the parsed settings returns. */
  ghost predicate WritesThrough(cfg: Config, layout: Layout, node: Node, settings: Settings, script: seq<Outcome>,
                                saved: bool)
    requires NodeFits(cfg, layout.size, node) && layout.Faithful()
  {
    && node.running && ScriptFits(cfg, script) && NoFaults(script)
    && var c := SaveCall(cfg, node.sys, layout.image(settings), script);
       c.chip.on && saved == (c.ret == 1)
  }

  /** The settings are written, and the restart after that, if its start-up completes, runs with them. */
  ghost predicate LoadedAfter(cfg: Config, layout: Layout, defaults: seq<Byte>, node: Node, settings: Settings,
                              script: seq<Outcome>, boot: seq<Outcome>, load: seq<Outcome>)
    requires NodeFits(cfg, |defaults|, node) && layout.Faithful() && layout.size == |defaults|
    requires ScriptFits(cfg, script) && ActFits(cfg, |defaults|, Restart(boot, load))
  {
    var after := Do(cfg, defaults, node, Write(layout.image(settings), script));
    var b := Do(cfg, defaults, after, Restart(boot, load));
    Init(cfg, Powered(after.sys.chip, boot), FreshRam(cfg)).chip.on ==> b.running && layout.read(b.config) == settings
  }

  /**
   What the client may rely on. Take a new device with a configuration that fits into the first page of a block, after
   any sequence of calls, restarts and power cuts without flash errors. If an upload that fits the buffer is then
   acknowledged twice at its last block, the next start-up that completes runs with exactly the settings the upload
   made. Nothing is assumed of the checksum.
   */
  lemma UploadPersists(cfg: Config, layout: Layout, defaults: seq<Byte>, node: Node, acts: seq<Act>,
                       aton: AddrParser, s: Server, name: seq<Ch>, text: seq<Ch>, from: Peer, saved: bool,
                       script: seq<Outcome>, boot: seq<Outcome>, load: seq<Outcome>)
    requires layout.Faithful() && layout.size == |defaults| <= FIRST_PAGE
    requires NodeFits(cfg, |defaults|, node) && Factory(cfg, node.sys)
    requires (forall i :: 0 <= i < |acts| ==> PowerOnly(cfg, |defaults|, acts[i])) && ActsFit(cfg, |defaults|, acts)
    requires |acts| < 0xFFFF_FFFF && PowerOnly(cfg, |defaults|, Restart(boot, load))
    requires Idle(s) && NUL !in name && |s.file| + |text| < BUFFER_SIZE
    ensures var r := Upload(aton, s, name, text, from, saved); var now := DoAll(cfg, defaults, node, acts);
      AckedTwice(r.out, |Packets(text, 1)|) && WritesThrough(cfg, layout, now, r.settings, script, saved) ==>
        LoadedAfter(cfg, layout, defaults, now, r.settings, script, boot, load)
  {
    var r := Upload(aton, s, name, text, from, saved);
    TwiceMeansSaved(aton, s, name, text, from, saved);
    if saved && WritesThrough(cfg, layout, DoAll(cfg, defaults, node, acts), r.settings, script, saved) {
      WritePersists(cfg, layout, defaults, node, acts, r.settings, script, boot, load);
    }
  }

  lemma TwiceMeansSaved(aton: AddrParser, s: Server, name: seq<Ch>, text: seq<Ch>, from: Peer, saved: bool)
    requires Idle(s) && NUL !in name && |s.file| + |text| < BUFFER_SIZE
    ensures AckedTwice(Upload(aton, s, name, text, from, saved).out, |Packets(text, 1)|) ==> saved
  {
    UploadConfirmed(aton, s, name, text, from, saved);
  }

  lemma WritePersists(cfg: Config, layout: Layout, defaults: seq<Byte>, node: Node, acts: seq<Act>, settings: Settings,
                      script: seq<Outcome>, boot: seq<Outcome>, load: seq<Outcome>)
    requires layout.Faithful() && layout.size == |defaults| <= FIRST_PAGE
    requires NodeFits(cfg, |defaults|, node) && Factory(cfg, node.sys)
    requires (forall i :: 0 <= i < |acts| ==> PowerOnly(cfg, |defaults|, acts[i])) && ActsFit(cfg, |defaults|, acts)
    requires |acts| < 0xFFFF_FFFF && PowerOnly(cfg, |defaults|, Restart(boot, load))
    requires WritesThrough(cfg, layout, DoAll(cfg, defaults, node, acts), settings, script, true)
    ensures LoadedAfter(cfg, layout, defaults, DoAll(cfg, defaults, node, acts), settings, script, boot, load)
  {
    RunSmall(cfg, defaults, node, acts);
    SavedIsLoaded(cfg, defaults, DoAll(cfg, defaults, node, acts), |acts|, LastOf(cfg, defaults, node, acts, None),
                  layout.image(settings), script, boot, load);
  }

  /** A call that returned 1, with a restart after it. */
  lemma SavedIsLoaded(cfg: Config, defaults: seq<Byte>, node: Node, k: nat, last: Option<seq<Byte>>, bytes: seq<Byte>,
                      script: seq<Outcome>, boot: seq<Outcome>, load: seq<Outcome>)
    requires NodeFits(cfg, |defaults|, node) && node.running && |bytes| == |defaults| <= FIRST_PAGE
    requires SmallSys(cfg, node.sys, k) && k < 0xFFFF_FFFF && Holds(cfg, |defaults|, node.sys.chip.blocks, last)
    requires ScriptFits(cfg, script) && NoFaults(script) && PowerOnly(cfg, |defaults|, Restart(boot, load))
    requires var c := SaveCall(cfg, node.sys, bytes, script); c.chip.on && c.ret == 1
    ensures var after := Do(cfg, defaults, node, Write(bytes, script));
      var b := Do(cfg, defaults, after, Restart(boot, load));
      Init(cfg, Powered(after.sys.chip, boot), FreshRam(cfg)).chip.on ==> b.running && b.config == bytes
  {
    SmallSave(cfg, node.sys, bytes, script, k);
    SaveKeeps(cfg, node.sys, bytes, script, last);
    var after := Do(cfg, defaults, node, Write(bytes, script));
    SmallBoot(cfg, after.sys, boot, k + 1);
    if Init(cfg, Powered(after.sys.chip, boot), FreshRam(cfg)).chip.on {
      RestartLoads(cfg, defaults, after, boot, load, Some(bytes));
    }
  }
}
