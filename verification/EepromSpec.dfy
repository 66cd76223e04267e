/**
 The EEPROM emulation as functions from one state to the next, slot by slot and page by page in the order of the
 C code. `EepromDriver` proves its loops over addresses equal to these; the theorems are about these.
 */
module EepromSpec {
  import opened Basics
  import opened FlashChip

  datatype Status = Ok | OldData | WriteError | EraseError

  const NO_SECTOR: nat := 0xFFFF_FFFF

  /** The driver's RAM: the buffer, the write cursor, the latest good slot, the active sector and its dirty bits. */
  datatype Ram = Ram(buffer: Image, next: nat, data: Option<nat>, sector: nat, dirty: seq<bool>) {
    predicate Fits(cfg: Config) {
      cfg.Fits(buffer) && |dirty| == 4
    }
  }

  datatype Result = Result(chip: Chip, ram: Ram, status: Status)

  /** The RAM a reset leaves behind. */
  function FreshRam(cfg: Config): (ram: Ram)
    ensures ram.Fits(cfg)
  {
    Ram(cfg.Blank(), 0, None, NO_SECTOR, [false, false, false, false])
  }

  // ---- writing one block -------------------------------------------------------------------------------------

  function WritePages(cfg: Config, chip: Chip, slot: nat, img: Image, k: nat): (r: (Chip, bool))
    requires chip.Fits(cfg) && slot < cfg.Slots() && cfg.Fits(img) && k <= cfg.pages
    ensures r.0.Fits(cfg)
    decreases cfg.pages - k
  {
    if k == cfg.pages then (chip, true) else
    var (c, ok) := ProgramPage(cfg, chip, slot, img, k);
    if ok then WritePages(cfg, c, slot, img, k + 1) else (c, false)
  }

  /** The buffer with its checksum recomputed, as it is about to be programmed. */
  function Sealed(cfg: Config, b: Image): (img: Image)
    ensures img.count == b.count && img.data == b.data
    ensures b.count != 0 ==> cfg.Good(img)
  {
    b.(crc := cfg.crc(b.count, b.data))
  }

  // ---- erasing -----------------------------------------------------------------------------------------------

  /** The erase pass from sector `j` on: every dirty sector but the active one. */
  function ErasePass(cfg: Config, chip: Chip, ram: Ram, j: nat): (r: Result)
    requires chip.Fits(cfg) && ram.Fits(cfg) && j <= 4
    ensures r.chip.Fits(cfg) && r.ram == ram.(dirty := r.ram.dirty) && |r.ram.dirty| == 4
    ensures r.status == Ok || r.status == EraseError
    decreases 4 - j
  {
    if j == 4 then Result(chip, ram, Ok)
    else if ram.sector != j && ram.dirty[j] then
      var (c, ok) := EraseSector(cfg, chip, j);
      if ok then ErasePass(cfg, c, ram.(dirty := ram.dirty[j := false]), j + 1)
      else Result(c, ram, EraseError)
    else ErasePass(cfg, chip, ram, j + 1)
  }

  // ---- saving the RAM buffer ---------------------------------------------------------------------------------

  /** The cursor has come round to the start of the active sector: no erased slot is left. */
  predicate RingFull(cfg: Config, ram: Ram) {
    ram.sector < 4 && ram.next == cfg.Start(ram.sector) && ram.buffer.count != 0
  }

  /** The sector a flash address lies in by its address bits; the null address reads as sector 0. */
  function HomeSector(cfg: Config, data: Option<nat>): (j: nat)
    requires data.Some? ==> data.value < cfg.Slots()
    ensures j < 4
  {
    if data.None? then 0 else cfg.SectorOf(data.value)
  }

  /** The erase pass taken when the ring is full. */
  function Reclaim(cfg: Config, chip: Chip, ram: Ram): (r: Result)
    requires chip.Fits(cfg) && ram.Fits(cfg) && (ram.data.Some? ==> ram.data.value < cfg.Slots())
    ensures r.chip.Fits(cfg) && r.ram.Fits(cfg)
    ensures r.ram.next == ram.next && r.ram.data == ram.data && r.ram.buffer == ram.buffer
  {
    if RingFull(cfg, ram) then
      ErasePass(cfg, chip, ram.(sector := HomeSector(cfg, ram.data), dirty := [true, true, true, true]), 0)
    else Result(chip, ram, Ok)
  }

  function Bump(w: Word): Word {
    (w + 1) % 0x1_0000_0000
  }

  /** Count up, seal and program the buffer at the cursor, then move the cursor on whether or not it worked. */
  function Append(cfg: Config, chip: Chip, ram: Ram): (r: Result)
    requires chip.Fits(cfg) && ram.Fits(cfg) && ram.next < cfg.Slots()
    ensures r.chip.Fits(cfg) && r.ram.Fits(cfg) && r.ram.next < cfg.Slots()
    ensures r.ram.data == ram.data || r.ram.data == Some(ram.next)
  {
    var img := Sealed(cfg, ram.buffer.(count := Bump(ram.buffer.count)));
    var (c, ok) := WritePages(cfg, chip, ram.next, img, 0);
    Result(c,
           ram.(buffer := img, next := cfg.Succ(ram.next), data := if ok then Some(ram.next) else ram.data),
           if ok then Ok else WriteError)
  }

  function Update(cfg: Config, chip: Chip, ram: Ram): (r: Result)
    requires chip.Fits(cfg) && ram.Fits(cfg) && ram.next < cfg.Slots()
    requires ram.data.Some? ==> ram.data.value < cfg.Slots()
    ensures r.chip.Fits(cfg) && r.ram.Fits(cfg) && r.ram.next < cfg.Slots()
    ensures r.ram.data.Some? ==> r.ram.data.value < cfg.Slots()
  {
    var e := Reclaim(cfg, chip, ram);
    if e.status == Ok then Append(cfg, e.chip, e.ram) else e
  }

  // ---- start-up ----------------------------------------------------------------------------------------------

  /** The scan of sector `j` from slot `s` down; `free` is the slot above the highest non-empty one seen so far. */
  function ScanDown(cfg: Config, blocks: seq<Image>, j: nat, s: int, free: Option<nat>, ram: Ram): (r: Ram)
    requires |blocks| == cfg.Slots() && j < 4 && cfg.Start(j) - 1 <= s < cfg.Start(j) + cfg.n
    requires |ram.dirty| == 4
    ensures |r.dirty| == 4 && r.buffer == ram.buffer.(count := r.buffer.count)
    ensures r.data == ram.data || (r.data.Some? && r.data.value < cfg.Slots())
    decreases s + 1
  {
    if s < cfg.Start(j) then ram
    else
      var b := blocks[s];
      if b.count == 0 then ScanDown(cfg, blocks, j, s - 1, free, ram)
      else
        var marked := ram.(dirty := ram.dirty[j := true]);
        var top := if free.None? then Some(s + 1) else free;
        if b.crc == cfg.crc(b.count, b.data) && b.count > ram.buffer.count
        then marked.(buffer := ram.buffer.(count := b.count), sector := j, data := Some(s), next := top.value)
        else ScanDown(cfg, blocks, j, s - 1, top, marked)
  }

  /** The scan of the first `j` sectors, in ascending order. */
  function ScanSectors(cfg: Config, blocks: seq<Image>, j: nat, ram: Ram): (r: Ram)
    requires |blocks| == cfg.Slots() && j <= 4 && |ram.dirty| == 4
    ensures |r.dirty| == 4 && r.buffer == ram.buffer.(count := r.buffer.count)
    ensures r.data == ram.data || (r.data.Some? && r.data.value < cfg.Slots())
  {
    if j == 0 then ram
    else ScanDown(cfg, blocks, j - 1, cfg.Start(j - 1) + cfg.n - 1, None, ScanSectors(cfg, blocks, j - 1, ram))
  }

  /** What start-up does once the sectors are scanned and the stale ones erased. */
  function Settle(cfg: Config, chip: Chip, ram: Ram): (r: Result)
    requires chip.Fits(cfg) && ram.Fits(cfg) && (ram.data.Some? ==> ram.data.value < cfg.Slots())
    ensures r.chip == chip && r.ram.Fits(cfg) && r.ram.next < cfg.Slots() && r.ram.data == ram.data
    ensures r.status != EraseError
  {
    if ram.data.None? then Result(chip, ram.(sector := 0, next := 0), Ok)
    else
      Result(chip,
             ram.(buffer := chip.blocks[ram.data.value],
                  next := if ram.next >= cfg.Slots() then 0 else ram.next),
             if ram.next != ram.data.value + 1 then OldData else Ok)
  }

  function Scan(cfg: Config, blocks: seq<Image>, ram: Ram): (r: Ram)
    requires |blocks| == cfg.Slots() && |ram.dirty| == 4
    ensures |r.dirty| == 4 && r.buffer == ram.buffer.(count := r.buffer.count)
    ensures r.data.Some? ==> r.data.value < cfg.Slots()
  {
    ScanSectors(cfg, blocks, 4, ram.(buffer := ram.buffer.(count := 0), data := None))
  }

  /** Start-up from the RAM a reset left: scan, erase the sectors that hold nothing current, settle. */
  function Init(cfg: Config, chip: Chip, ram: Ram): (r: Result)
    requires chip.Fits(cfg) && ram.Fits(cfg)
    ensures r.chip.Fits(cfg) && r.ram.Fits(cfg)
    ensures r.ram.data.Some? ==> r.ram.data.value < cfg.Slots()
    ensures r.status != EraseError ==> r.ram.next < cfg.Slots()
  {
    var e := ErasePass(cfg, chip, Scan(cfg, chip.blocks, ram), 0);
    if e.status == Ok then Settle(cfg, e.chip, e.ram) else e
  }
}
