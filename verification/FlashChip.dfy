/**
 The flash as the EEPROM emulation sees it: four sectors of `n` block slots, each slot `pages` pages of 256
 bytes. Erasing clears a whole sector to zero; programming works one page at a time. Every operation consumes
 one entry of a script that says whether it works, fails, or is the moment at which the power goes.
 */
module FlashChip {
  import opened Basics

  /** What one slot holds, field by field as in the RAM buffer the driver copies it to and from. */
  datatype Image = Image(crc: Word, count: Word, data: seq<Byte>)

  /** Blocks per sector, pages per block, and the checksum over the counter and the data. */
  datatype Config = Config(n: Pos, pages: Pos, crc: (Word, seq<Byte>) -> Word) {

    /** Bytes of user data in a block: all of it but the checksum and the counter. */
    function DataSize(): nat {
      256 * pages - 8
    }

    function Slots(): nat {
      4 * n
    }

    function Blank(): Image {
      Image(0, 0, Zeros(DataSize()))
    }

    predicate Fits(b: Image) {
      |b.data| == DataSize()
    }

    /** The driver's test of a block: it carries a counter and the checksum agrees. */
    predicate Good(b: Image) {
      b.count != 0 && b.crc == crc(b.count, b.data)
    }

    /** First slot of sector `j`. */
    function Start(j: nat): nat
      requires j <= 4
    {
      if j == 0 then 0 else if j == 1 then n else if j == 2 then 2 * n else if j == 3 then 3 * n else 4 * n
    }

    function SectorOf(s: nat): (j: nat)
      requires s < Slots()
      ensures j < 4 && Start(j) <= s < Start(j) + n
    {
      if s < n then 0 else if s < 2 * n then 1 else if s < 3 * n then 2 else 3
    }

    /** The slot after `s`, wrapping from the end of the last sector to the start of the first. */
    function Succ(s: nat): nat {
      if s + 1 >= Slots() then 0 else s + 1
    }
  }

  /** `was` with page `k` replaced by page `k` of `src`. */
  function Overlay(cfg: Config, was: Image, src: Image, k: nat): (b: Image)
    requires cfg.Fits(was) && cfg.Fits(src) && k < cfg.pages
    ensures cfg.Fits(b)
  {
    if k == 0 then Image(src.crc, src.count, src.data[..248] + was.data[248..])
    else was.(data := was.data[..256 * k - 8] + src.data[256 * k - 8..256 * k + 248] + was.data[256 * k + 248..])
  }

  /** Page `k` of `b` is in the erased state. */
  predicate PageErased(cfg: Config, b: Image, k: nat)
    requires cfg.Fits(b) && k < cfg.pages
  {
    if k == 0 then b.crc == 0 && b.count == 0 && b.data[..248] == Zeros(248)
    else b.data[256 * k - 8..256 * k + 248] == Zeros(256)
  }

  /** What an erased slot holds after the first `k` pages of `b` were programmed. */
  function Torn(cfg: Config, b: Image, k: nat): (t: Image)
    requires cfg.Fits(b) && k <= cfg.pages
    ensures cfg.Fits(t)
  {
    if k == 0 then cfg.Blank()
    else Image(b.crc, b.count, b.data[..256 * k - 8] + Zeros(cfg.DataSize() - (256 * k - 8)))
  }

  /** Programming pages in order turns an erased slot into the block, one erased page at a time. */
  lemma TornGrows(cfg: Config, b: Image, k: nat)
    requires cfg.Fits(b) && k < cfg.pages
    ensures PageErased(cfg, Torn(cfg, b, k), k)
    ensures Overlay(cfg, Torn(cfg, b, k), b, k) == Torn(cfg, b, k + 1)
    ensures Torn(cfg, b, cfg.pages) == b
  {
    var t := Torn(cfg, b, k);
    if k == 0 {
      assert t.data[..248] == Zeros(248);
    } else {
      assert t.data[256 * k - 8..256 * k + 248] == Zeros(256);
    }
    assert Overlay(cfg, t, b, k).data == Torn(cfg, b, k + 1).data;
    assert Torn(cfg, b, cfg.pages).data == b.data;
  }

  /** How one flash operation goes: it works, it reports an error leaving `junk`, or the power fails before it. */
  datatype Outcome = Done | Fault(junk: Image) | Cut

  /** `wear[j]` counts the erasures of sector `j`; `clobbered` records any page programmed while not erased. */
  datatype Chip = Chip(blocks: seq<Image>, wear: seq<nat>, script: seq<Outcome>, on: bool, clobbered: bool) {

    ghost predicate Fits(cfg: Config) {
      && |blocks| == cfg.Slots()
      && |wear| == 4
      && (forall s :: 0 <= s < |blocks| ==> cfg.Fits(blocks[s]))
      && (forall i :: 0 <= i < |script| && script[i].Fault? ==> cfg.Fits(script[i].junk))
    }

    /** The fate of the next operation; a script that has run out means no more trouble. */
    function Fate(): Outcome {
      if |script| == 0 then Done else script[0]
    }

    function Advance(): Chip {
      if |script| == 0 then this else this.(script := script[1..])
    }
  }

  /** One page program, with the success flag the status register would show. Without power nothing happens. */
  function ProgramPage(cfg: Config, chip: Chip, slot: nat, src: Image, k: nat): (r: (Chip, bool))
    requires chip.Fits(cfg) && slot < cfg.Slots() && cfg.Fits(src) && k < cfg.pages
    ensures r.0.Fits(cfg)
  {
    if !chip.on then (chip, true) else
    var b := chip.blocks[slot];
    var c := chip.Advance();
    match chip.Fate()
    case Cut => (c.(on := false), true)
    case Done =>
      (c.(blocks := c.blocks[slot := Overlay(cfg, b, src, k)],
          clobbered := c.clobbered || !PageErased(cfg, b, k)), true)
    case Fault(junk) =>
      (c.(blocks := c.blocks[slot := Overlay(cfg, b, junk, k)],
          clobbered := c.clobbered || !PageErased(cfg, b, k)), false)
  }

  /** The blocks after erasing the sectors in `E`. */
  function Erased(cfg: Config, blocks: seq<Image>, E: set<nat>): (r: seq<Image>)
    requires |blocks| == cfg.Slots()
    ensures |r| == cfg.Slots()
    ensures forall s :: 0 <= s < |r| ==> r[s] == if cfg.SectorOf(s) in E then cfg.Blank() else blocks[s]
  {
    seq(cfg.Slots(), s requires 0 <= s < cfg.Slots() =>
      if cfg.SectorOf(s) in E then cfg.Blank() else blocks[s])
  }

  /** One sector erase; a failed one leaves the sector as it was. */
  function EraseSector(cfg: Config, chip: Chip, j: nat): (r: (Chip, bool))
    requires chip.Fits(cfg) && j < 4
    ensures r.0.Fits(cfg)
  {
    if !chip.on then (chip, true) else
    var c := chip.Advance();
    match chip.Fate()
    case Cut => (c.(on := false), true)
    case Done => (c.(blocks := Erased(cfg, c.blocks, {j}), wear := c.wear[j := c.wear[j] + 1]), true)
    case Fault(_) => (c, false)
  }
}
