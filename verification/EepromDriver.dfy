/**
 The driver itself in the shipped configuration: four sectors of four 4096-byte blocks at absolute flash
 addresses, with the state the C file keeps in `e_eeprom_xmc4_sector_info` and `e_eeprom_xmc4_data_buffer`. Every
 method is proved to do what the functions of `EepromSpec` say.
 */
module EepromDriver {
  import opened Basics
  import opened FlashChip
  import opened EepromSpec

  const FLASH_BASE := 0x0C00_0000
  const SECTOR0_START := FLASH_BASE + 0x10000
  const SECTOR4_START := FLASH_BASE + 0x20000
  const SECTOR_SIZE := 0x4000
  const BLOCK_SIZE := 4096
  const PAGE_SIZE := 256
  const MAX_SECTORS := 4
  const MAX_PAGES := 16
  const MAX_WORDS := 1024
  const DATA_BYTES := 4088

  // ---- addresses and slots -----------------------------------------------------------------------------------------

  /** A block address, or the first address past the last sector. */
  predicate OnGrid(addr: int) {
    SECTOR0_START <= addr <= SECTOR4_START && (addr - SECTOR0_START) % BLOCK_SIZE == 0
  }

  function SlotOf(addr: int): int {
    (addr - SECTOR0_START) / BLOCK_SIZE
  }

  lemma SlotAddress(s: nat)
    requires s <= 16
    ensures OnGrid(SECTOR0_START + BLOCK_SIZE * s) && SlotOf(SECTOR0_START + BLOCK_SIZE * s) == s
  {
  }

  // ---- one step of the specification's recursions -------------------------------------------------------------------

  lemma ErasePassSkips(cfg: Config, chip: Chip, ram: Ram, j: nat, goal: Result)
    requires chip.Fits(cfg) && ram.Fits(cfg) && j < 4 && ErasePass(cfg, chip, ram, j) == goal
    requires ram.sector == j || !ram.dirty[j]
    ensures ErasePass(cfg, chip, ram, j + 1) == goal
  {
  }

  lemma ErasePassErases(cfg: Config, chip: Chip, ram: Ram, j: nat, goal: Result)
    requires chip.Fits(cfg) && ram.Fits(cfg) && j < 4 && ErasePass(cfg, chip, ram, j) == goal
    requires ram.sector != j && ram.dirty[j]
    ensures var (c, ok) := EraseSector(cfg, chip, j);
      if ok then ErasePass(cfg, c, ram.(dirty := ram.dirty[j := false]), j + 1) == goal
      else goal == Result(c, ram, EraseError)
  {
  }

  lemma ErasePassEnds(cfg: Config, chip: Chip, ram: Ram, goal: Result)
    requires chip.Fits(cfg) && ram.Fits(cfg) && ErasePass(cfg, chip, ram, 4) == goal
    ensures goal == Result(chip, ram, Ok)
  {
  }

  /** The dirty bit set and the free slot noted at a non-empty block. */
  function Noted(ram: Ram, j: nat): (r: Ram)
    requires |ram.dirty| == 4 && j < 4
  {
    ram.(dirty := ram.dirty[j := true])
  }

  function TopFrom(free: Option<nat>, s: nat): (top: Option<nat>)
    ensures top.Some?
  {
    if free.None? then Some(s + 1) else free
  }

  /** The address kept for the slot above the highest non-empty one, when slots down to `s` are still to come. */
  predicate FreeAt(free: Option<nat>, s: int, addr: int) {
    if free.None? then addr == 0 else s < free.value <= 16 && addr == SECTOR0_START + BLOCK_SIZE * free.value
  }

  lemma StartOfFour(cfg: Config, j: nat)
    requires cfg.n == 4 && j < 4
    ensures cfg.Start(j) == 4 * j && cfg.Slots() == 16
  {
  }

  lemma OneMoreSector(cfg: Config, blocks: seq<Image>, j: nat, ram: Ram)
    requires cfg.n == 4 && |blocks| == cfg.Slots() && j < 4 && |ram.dirty| == 4
    ensures ScanSectors(cfg, blocks, j + 1, ram)
      == ScanDown(cfg, blocks, j, 4 * j + 3, None, ScanSectors(cfg, blocks, j, ram))
  {
    StartOfFour(cfg, j);
  }

  lemma ScanDownEmpty(cfg: Config, blocks: seq<Image>, j: nat, s: nat, free: Option<nat>, ram: Ram, goal: Ram)
    requires |blocks| == cfg.Slots() && j < 4 && cfg.Start(j) <= s < cfg.Start(j) + cfg.n && |ram.dirty| == 4
    requires blocks[s].count == 0 && ScanDown(cfg, blocks, j, s, free, ram) == goal
    ensures ScanDown(cfg, blocks, j, s - 1, free, ram) == goal
  {
  }

  lemma ScanDownPast(cfg: Config, blocks: seq<Image>, j: nat, s: nat, free: Option<nat>, ram: Ram, goal: Ram)
    requires |blocks| == cfg.Slots() && j < 4 && cfg.Start(j) <= s < cfg.Start(j) + cfg.n && |ram.dirty| == 4
    requires blocks[s].count != 0 && ScanDown(cfg, blocks, j, s, free, ram) == goal
    requires blocks[s].crc != cfg.crc(blocks[s].count, blocks[s].data) || blocks[s].count <= ram.buffer.count
    ensures ScanDown(cfg, blocks, j, s - 1, TopFrom(free, s), Noted(ram, j)) == goal
  {
  }

  lemma ScanDownHit(cfg: Config, blocks: seq<Image>, j: nat, s: nat, free: Option<nat>, ram: Ram, goal: Ram)
    requires |blocks| == cfg.Slots() && j < 4 && cfg.Start(j) <= s < cfg.Start(j) + cfg.n && |ram.dirty| == 4
    requires blocks[s].count != 0 && ScanDown(cfg, blocks, j, s, free, ram) == goal
    requires blocks[s].crc == cfg.crc(blocks[s].count, blocks[s].data) && blocks[s].count > ram.buffer.count
    ensures goal == Ram(ram.buffer.(count := blocks[s].count), TopFrom(free, s).value, Some(s), j, Noted(ram, j).dirty)
  {
  }

  lemma ScanDownEnd(cfg: Config, blocks: seq<Image>, j: nat, s: int, free: Option<nat>, ram: Ram)
    requires |blocks| == cfg.Slots() && j < 4 && s == cfg.Start(j) - 1 && |ram.dirty| == 4
    ensures ScanDown(cfg, blocks, j, s, free, ram) == ram
  {
  }

  // ---- the flash hardware -------------------------------------------------------------------------------------------

  class FlashDevice {
    const cfg: Config
    var chip: Chip

    constructor (cfg: Config, chip: Chip)
      ensures this.cfg == cfg && this.chip == chip
    {
      this.cfg := cfg;
      this.chip := chip;
    }

    /** Program the page at `addr` from the RAM block `src` at byte `offset`. */
    method Program(addr: int, src: Image, offset: nat) returns (ok: bool)
      requires cfg.n == 4 && cfg.pages == MAX_PAGES && chip.Fits(cfg) && cfg.Fits(src)
      requires SECTOR0_START <= addr < SECTOR4_START && (addr - SECTOR0_START) % BLOCK_SIZE == offset
      requires offset % PAGE_SIZE == 0
      modifies this
      ensures (chip, ok) == ProgramPage(cfg, old(chip), SlotOf(addr), src, offset / PAGE_SIZE)
    {
      var r := ProgramPage(cfg, chip, SlotOf(addr), src, offset / PAGE_SIZE);
      chip := r.0;
      ok := r.1;
    }

    /** Erase the sector starting at `addr`. */
    method Erase(addr: int) returns (ok: bool)
      requires cfg.n == 4 && chip.Fits(cfg)
      requires SECTOR0_START <= addr < SECTOR4_START && (addr - SECTOR0_START) % SECTOR_SIZE == 0
      modifies this
      ensures (chip, ok) == EraseSector(cfg, old(chip), (addr - SECTOR0_START) / SECTOR_SIZE)
    {
      var r := EraseSector(cfg, chip, (addr - SECTOR0_START) / SECTOR_SIZE);
      chip := r.0;
      ok := r.1;
    }
  }

  // ---- the driver ---------------------------------------------------------------------------------------------------

  class Eeprom {
    const device: FlashDevice
    var crc: Word
    var blockCycleCount: Word
    const eepromData: array<Byte>
    var nextFreeStartAddr: int
    var flashDataAddr: int
    var currentSector: nat
    /** One flag per sector: bit j of the C field. */
    var eraseState: seq<bool>
    var initialized: bool

    /** The flash is of the shipped geometry. */
    ghost predicate Wired()
      reads device
    {
      device.cfg.n == 4 && device.cfg.pages == MAX_PAGES && device.chip.Fits(device.cfg)
    }

    /** The driver's own fields are in range. */
    ghost predicate Valid()
      reads this
    {
      && eepromData.Length == DATA_BYTES
      && (nextFreeStartAddr == 0 || OnGrid(nextFreeStartAddr))
      && (flashDataAddr == 0 || (OnGrid(flashDataAddr) && flashDataAddr < SECTOR4_START))
      && (currentSector < 4 || currentSector == NO_SECTOR)
      && (flashDataAddr != 0 ==> nextFreeStartAddr != 0)
      && |eraseState| == 4
    }

    /** The cursor stands on a block: a start-up has put it there. Address 0 means it has not. */
    ghost predicate Positioned()
      reads this
    {
      OnGrid(nextFreeStartAddr) && nextFreeStartAddr < SECTOR4_START
    }

    ghost function Buffer(): (b: Image)
      reads this, eepromData
    {
      Image(crc, blockCycleCount, eepromData[..])
    }

    /** The abstract state: slots for addresses, a sequence for the dirty bits. */
    ghost function View(): (v: Ram)
      requires Valid()
      reads this, eepromData
      ensures v.next <= 16 && (v.data.Some? ==> v.data.value < 16) && |v.dirty| == 4 && |v.buffer.data| == DATA_BYTES
    {
      Ram(Buffer(),
          if nextFreeStartAddr == 0 then 0 else SlotOf(nextFreeStartAddr),
          if flashDataAddr == 0 then None else Some(SlotOf(flashDataAddr)),
          currentSector,
          eraseState)
    }

    /** The static initial values, as a reset leaves them. */
    constructor (device: FlashDevice)
      requires device.cfg.n == 4 && device.cfg.pages == MAX_PAGES && device.chip.Fits(device.cfg)
      ensures this.device == device && fresh(eepromData)
      ensures Valid() && Wired() && View() == FreshRam(device.cfg) && !initialized
    {
      this.device := device;
      crc, blockCycleCount := 0, 0;
      eepromData := new Byte[DATA_BYTES](_ => 0);
      nextFreeStartAddr, flashDataAddr, currentSector, eraseState := 0, 0, 0xFFFF_FFFF, [false, false, false, false];
      initialized := false;
      new;
      assert eepromData[..] == Zeros(DATA_BYTES);
    }

    // ---- RAM buffer -------------------------------------------------------------------------------------------------

    method WriteByte(offset: nat, value: Byte) returns (changed: bool)
      requires Valid() && offset < DATA_BYTES
      modifies eepromData
      ensures changed <==> old(eepromData[offset]) != value
      ensures eepromData[..] == old(eepromData[..])[offset := value]
    {
      changed := eepromData[offset] != value;
      eepromData[offset] := value;
    }

    /** Copies `data` into the buffer and tells whether that changed anything. */
    method WriteArray(offset: nat, data: seq<Byte>) returns (changed: bool)
      requires Valid() && offset + |data| <= DATA_BYTES
      modifies eepromData
      ensures eepromData[..] == old(eepromData[..])[..offset] + data + old(eepromData[..])[offset + |data|..]
      ensures changed <==> eepromData[..] != old(eepromData[..])
    {
      ghost var was := eepromData[..];
      changed := eepromData[offset..offset + |data|] != data;
      var i := 0;
      while i < |data|
        invariant 0 <= i <= |data|
        invariant eepromData[..] == was[..offset] + data[..i] + was[offset + i..]
      {
        eepromData[offset + i] := data[i];
        i := i + 1;
      }
      assert data[..i] == data;
      assert was[offset..offset + |data|] == eepromData[offset..offset + |data|] <==> was == eepromData[..] by {
        assert was == was[..offset] + was[offset..offset + |data|] + was[offset + |data|..];
        assert eepromData[offset..offset + |data|] == data;
      }
    }

    method ReadByte(offset: nat) returns (value: Byte)
      requires Valid() && offset < DATA_BYTES
      ensures value == eepromData[offset]
    {
      value := eepromData[offset];
    }

    method ReadArray(offset: nat, length: nat) returns (data: seq<Byte>)
      requires Valid() && offset + length <= DATA_BYTES
      ensures data == eepromData[offset..offset + length]
    {
      data := [];
      var i := 0;
      while i < length
        invariant 0 <= i <= length
        invariant data == eepromData[offset..offset + i]
      {
        data := data + [eepromData[offset + i]];
        i := i + 1;
      }
    }

    method IsFlashEmpty() returns (empty: bool)
      requires Valid()
      ensures empty <==> View().data.None?
    {
      empty := flashDataAddr == 0;
    }

    // ---- saving -----------------------------------------------------------------------------------------------------

    /** Seal the buffer and program it page by page at the cursor, stopping at the first error. */
    method LWriteToFlash() returns (status: Status)
      requires Valid() && Wired() && Positioned()
      modifies this`crc, device
      ensures Valid() && Wired()
      ensures View() == old(View()).(buffer := Sealed(device.cfg, old(Buffer())))
      ensures (device.chip, status == Ok) == WritePages(device.cfg, old(device.chip), old(View().next), Buffer(), 0)
      ensures status == Ok || status == WriteError
    {
      status := Ok;
      var flashAddr := nextFreeStartAddr;
      var ramOffset := 0;
      crc := device.cfg.crc(blockCycleCount, eepromData[..]);
      ghost var img := Buffer();
      ghost var goal := WritePages(device.cfg, device.chip, SlotOf(nextFreeStartAddr), img, 0);
      var pageIndex := 0;
      while pageIndex < MAX_PAGES
        modifies device
        invariant 0 <= pageIndex <= MAX_PAGES && Wired()
        invariant ramOffset == PAGE_SIZE * pageIndex && flashAddr == nextFreeStartAddr + ramOffset
        invariant WritePages(device.cfg, device.chip, SlotOf(nextFreeStartAddr), img, pageIndex) == goal
      {
        assert SlotOf(flashAddr) == SlotOf(nextFreeStartAddr) && ramOffset / PAGE_SIZE == pageIndex;
        var ok := device.Program(flashAddr, Image(crc, blockCycleCount, eepromData[..]), ramOffset);
        if !ok {
          status := WriteError;
          return;
        }
        ramOffset := ramOffset + PAGE_SIZE;
        flashAddr := flashAddr + PAGE_SIZE;
        pageIndex := pageIndex + 1;
      }
    }

    /** Erase one dirty sector and clear its bit. */
    method EraseOne(j: nat, ghost goal: Result) returns (ok: bool)
      requires Valid() && Wired() && j < 4 && currentSector != j && eraseState[j]
      requires ErasePass(device.cfg, device.chip, View(), j) == goal
      modifies this`eraseState, device
      ensures Valid() && Wired()
      ensures ok ==> ErasePass(device.cfg, device.chip, View(), j + 1) == goal
      ensures !ok ==> Result(device.chip, View(), EraseError) == goal
    {
      ghost var ram := View();
      ErasePassErases(device.cfg, device.chip, ram, j, goal);
      ok := device.Erase(SECTOR0_START + SECTOR_SIZE * j);
      if ok {
        eraseState := eraseState[j := false];
        assert View() == ram.(dirty := ram.dirty[j := false]);
      }
    }

    /** Erase every dirty sector but the active one, stopping at the first error. */
    method LInitEraseStateMachine() returns (status: Status)
      requires Valid() && Wired()
      modifies this`eraseState, device
      ensures Valid() && Wired()
      ensures Result(device.chip, View(), status) == ErasePass(device.cfg, old(device.chip), old(View()), 0)
    {
      status := Ok;
      ghost var cfg := device.cfg;
      ghost var goal := ErasePass(cfg, device.chip, View(), 0);
      var sectorCount := 0;
      while sectorCount < MAX_SECTORS
        modifies this`eraseState, device
        invariant 0 <= sectorCount <= MAX_SECTORS && Valid() && Wired()
        invariant ErasePass(cfg, device.chip, View(), sectorCount) == goal
      {
        if currentSector != sectorCount && eraseState[sectorCount] {
          var ok := EraseOne(sectorCount, goal);
          if !ok {
            status := EraseError;
            return;
          }
        } else {
          ErasePassSkips(cfg, device.chip, View(), sectorCount, goal);
        }
        sectorCount := sectorCount + 1;
      }
      ErasePassEnds(cfg, device.chip, View(), goal);
    }

    /** The first half of a save: when the cursor has come round to the active sector, erase the stale sectors. */
    method ReclaimIfFull() returns (status: Status)
      requires Valid() && Wired() && Positioned()
      modifies this`currentSector, this`eraseState, device
      ensures Valid() && Wired()
      ensures Result(device.chip, View(), status) == Reclaim(device.cfg, old(device.chip), old(View()))
    {
      status := Ok;
      var sectorStartAddr := (SECTOR0_START + SECTOR_SIZE * currentSector) % 0x1_0000_0000;
      FullIsFull();
      HomeIsHome();
      if nextFreeStartAddr == sectorStartAddr && blockCycleCount != 0 {
        currentSector := flashDataAddr / SECTOR_SIZE % 4;
        eraseState := [true, true, true, true];
        status := LInitEraseStateMachine();
      }
    }

    /** Save the RAM buffer, reclaiming the stale sectors first when the ring is full. */
    method UpdateFlashContents() returns (status: Status)
      requires Valid() && Wired() && Positioned()
      modifies this, device
      ensures Valid() && Wired() && Positioned()
      ensures Result(device.chip, View(), status) == Update(device.cfg, old(device.chip), old(View()))
      ensures initialized == old(initialized)
    {
      status := ReclaimIfFull();
      if status == Ok {
        blockCycleCount := (blockCycleCount + 1) % 0x1_0000_0000;
        status := LWriteToFlash();
        if status == Ok {
          flashDataAddr := nextFreeStartAddr;
        }
        AdvanceCursor();
      }
    }

    /** The cursor moves one block on, from the end of the last sector back to the first. */
    method AdvanceCursor()
      requires Valid() && device.cfg.n == 4 && Positioned()
      modifies this`nextFreeStartAddr
      ensures Valid() && Positioned() && View() == old(View()).(next := device.cfg.Succ(old(View().next)))
    {
      SlotAddress(SlotOf(nextFreeStartAddr) + 1);
      nextFreeStartAddr := nextFreeStartAddr + BLOCK_SIZE;
      if nextFreeStartAddr >= SECTOR4_START {
        nextFreeStartAddr := SECTOR0_START;
      }
    }

    /** The address comparison that detects a full ring is the slot comparison. */
    lemma FullIsFull()
      requires Valid() && Wired() && Positioned()
      ensures nextFreeStartAddr == (SECTOR0_START + SECTOR_SIZE * currentSector) % 0x1_0000_0000 && blockCycleCount != 0
        <==> RingFull(device.cfg, View())
    {
    }

    /** Masking bits 14 and 15 of the latest block's address gives its sector, and 0 for the null address. */
    lemma HomeIsHome()
      requires Valid() && Wired()
      ensures flashDataAddr / SECTOR_SIZE % 4 == HomeSector(device.cfg, View().data)
    {
    }

    // ---- start-up ---------------------------------------------------------------------------------------------------

    /** Record a block as the latest one seen. */
    method Adopt(count: Word, sector: nat, blockAddr: int, freeAddr: int, ghost s: nat, ghost top: nat)
      requires Valid() && sector < 4 && s < top <= 16
      requires blockAddr == SECTOR0_START + BLOCK_SIZE * s && freeAddr == SECTOR0_START + BLOCK_SIZE * top
      modifies this`blockCycleCount, this`nextFreeStartAddr, this`flashDataAddr, this`currentSector
      ensures Valid()
      ensures View() == Ram(old(Buffer()).(count := count), top, Some(s), sector, eraseState)
    {
      SlotAddress(s);
      SlotAddress(top);
      blockCycleCount := count;
      currentSector := sector;
      flashDataAddr := blockAddr;
      nextFreeStartAddr := freeAddr;
    }

    /** Mark the sector dirty; the first non-empty block also fixes the free address above it. */
    method NoteNonEmpty(sector: nat, blockAddr: int, freeAddr: int) returns (free: int)
      requires Valid() && sector < 4
      modifies this`eraseState
      ensures Valid() && View() == Noted(old(View()), sector)
      ensures free == if freeAddr == 0 then blockAddr + BLOCK_SIZE else freeAddr
    {
      eraseState := eraseState[sector := true];
      free := if freeAddr == 0 then blockAddr + BLOCK_SIZE else freeAddr;
    }

    /** One block of the scan: adopt it, which ends the scan, or note it if it is not empty. */
    method ScanBlock(sector: nat, blockReadAddr: int, freeAddr: int,
                     ghost s: nat, ghost free: Option<nat>, ghost goal: Ram)
      returns (found: bool, freeNow: int, ghost top: Option<nat>)
      requires Valid() && sector < 4 && device.cfg.n == 4 && |device.chip.blocks| == 16
      requires 4 * sector <= s <= 4 * sector + 3 && blockReadAddr == SECTOR0_START + BLOCK_SIZE * s
      requires FreeAt(free, s, freeAddr)
      requires ScanDown(device.cfg, device.chip.blocks, sector, s, free, View()) == goal
      modifies this`blockCycleCount, this`nextFreeStartAddr, this`flashDataAddr, this`currentSector, this`eraseState
      ensures Valid()
      ensures found ==> View() == goal
      ensures !found ==> FreeAt(top, s - 1, freeNow)
      ensures !found ==> ScanDown(device.cfg, device.chip.blocks, sector, s - 1, top, View()) == goal
    {
      ghost var cfg, blocks, ram := device.cfg, device.chip.blocks, View();
      StartOfFour(cfg, sector);
      SlotAddress(s);
      found, freeNow, top := false, freeAddr, free;
      var block := device.chip.blocks[SlotOf(blockReadAddr)];
      if block.count != 0 {
        freeNow := NoteNonEmpty(sector, blockReadAddr, freeAddr);
        top := TopFrom(free, s);
        if device.cfg.crc(block.count, block.data) == block.crc {
          if block.count > blockCycleCount {
            ScanDownHit(cfg, blocks, sector, s, free, ram, goal);
            Adopt(block.count, sector, blockReadAddr, freeNow, s, top.value);
            found := true;
            return;
          }
        }
        ScanDownPast(cfg, blocks, sector, s, free, ram, goal);
      } else {
        ScanDownEmpty(cfg, blocks, sector, s, free, ram, goal);
      }
    }

    /** Scan one sector from its last block down to the first that improves on the blocks seen so far. */
    method LInitReadSectorInfo(sector: nat)
      requires Valid() && sector < 4 && device.cfg.n == 4 && |device.chip.blocks| == 16
      modifies this`blockCycleCount, this`nextFreeStartAddr, this`flashDataAddr, this`currentSector, this`eraseState
      ensures Valid()
      ensures View() == ScanDown(device.cfg, device.chip.blocks, sector, 4 * sector + 3, None, old(View()))
    {
      var sectorStartAddr := SECTOR0_START + SECTOR_SIZE * sector;
      var blockReadAddr := sectorStartAddr + SECTOR_SIZE - BLOCK_SIZE;
      var freeBlockAddr := 0;
      ghost var cfg, blocks, s := device.cfg, device.chip.blocks, 4 * sector + 3;
      ghost var free: Option<nat> := None;
      StartOfFour(cfg, sector);
      ghost var goal := ScanDown(cfg, blocks, sector, s, free, View());
      while blockReadAddr >= sectorStartAddr
        invariant Valid()
        invariant 4 * sector - 1 <= s <= 4 * sector + 3 && blockReadAddr == SECTOR0_START + BLOCK_SIZE * s
        invariant FreeAt(free, s, freeBlockAddr)
        invariant ScanDown(cfg, blocks, sector, s, free, View()) == goal
      {
        var found;
        found, freeBlockAddr, free := ScanBlock(sector, blockReadAddr, freeBlockAddr, s, free, goal);
        if found {
          return;
        }
        blockReadAddr := blockReadAddr - BLOCK_SIZE;
        s := s - 1;
      }
      ScanDownEnd(cfg, blocks, sector, s, free, View());
    }

    /** Copy the latest block to RAM word by word: checksum, counter, then four data bytes at a time. */
    method LCopyFlashToRam()
      requires Valid() && Wired() && flashDataAddr != 0
      modifies this`crc, this`blockCycleCount, eepromData
      ensures Valid()
      ensures View() == old(View()).(buffer := device.chip.blocks[SlotOf(flashDataAddr)])
    {
      var block := device.chip.blocks[SlotOf(flashDataAddr)];
      var w := 0;
      while w < MAX_WORDS
        invariant 0 <= w <= MAX_WORDS
        invariant w >= 1 ==> crc == block.crc
        invariant w >= 2 ==> blockCycleCount == block.count
        invariant forall i :: 0 <= i < 4 * (w - 2) ==> eepromData[i] == block.data[i]
      {
        if w == 0 {
          crc := block.crc;
        } else if w == 1 {
          blockCycleCount := block.count;
        } else {
          var b := 4 * (w - 2);
          eepromData[b] := block.data[b];
          eepromData[b + 1] := block.data[b + 1];
          eepromData[b + 2] := block.data[b + 2];
          eepromData[b + 3] := block.data[b + 3];
        }
        w := w + 1;
      }
      assert eepromData[..] == block.data;
    }

    /** The four sector scans. */
    method ScanAllSectors()
      requires Valid() && Wired()
      modifies this`blockCycleCount, this`nextFreeStartAddr, this`flashDataAddr, this`currentSector, this`eraseState
      ensures Valid()
      ensures View() == Scan(device.cfg, device.chip.blocks, old(View()))
    {
      blockCycleCount := 0;
      flashDataAddr := 0;
      ghost var cfg, blocks, first := device.cfg, device.chip.blocks, View();
      var sectorCount := 0;
      while sectorCount < MAX_SECTORS
        invariant 0 <= sectorCount <= MAX_SECTORS && Valid()
        invariant View() == ScanSectors(cfg, blocks, sectorCount, first)
      {
        OneMoreSector(cfg, blocks, sectorCount, first);
        LInitReadSectorInfo(sectorCount);
        sectorCount := sectorCount + 1;
      }
    }

    /** With the stale sectors erased: start at sector 0 if nothing was found, else load the latest block. */
    method SettleCursor() returns (status: Status)
      requires Valid() && Wired()
      modifies this`crc, this`blockCycleCount, this`nextFreeStartAddr, this`currentSector, eepromData
      ensures Valid() && Positioned()
      ensures Result(device.chip, View(), status) == Settle(device.cfg, device.chip, old(View()))
    {
      status := Ok;
      if flashDataAddr == 0 {
        currentSector := 0;
        nextFreeStartAddr := SECTOR0_START;
      } else {
        LCopyFlashToRam();
        if nextFreeStartAddr - flashDataAddr != BLOCK_SIZE {
          status := OldData;
        }
        if nextFreeStartAddr >= SECTOR4_START {
          nextFreeStartAddr := SECTOR0_START;
        }
      }
    }

    /** Start-up; a second call does nothing. */
    method Init() returns (status: Status)
      requires Valid() && Wired()
      modifies this, device, eepromData
      ensures Valid() && Wired() && initialized
      ensures old(initialized) ==> status == Ok && View() == old(View()) && device.chip == old(device.chip)
      ensures old(initialized) && old(Positioned()) ==> Positioned()
      ensures !old(initialized) && status != EraseError ==> Positioned()
      ensures !old(initialized) ==>
        Result(device.chip, View(), status) == EepromSpec.Init(device.cfg, old(device.chip), old(View()))
    {
      status := Ok;
      if !initialized {
        ScanAllSectors();
        status := LInitEraseStateMachine();
        if status == Ok {
          status := SettleCursor();
        }
        initialized := true;
      }
    }
  }
}
