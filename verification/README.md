# Verification of the Launch-DAQ firmware

A Dafny model of the parts of the data acquisition firmware that keep state across calls, interrupts and resets,
with proofs of what they keep. `dafny verify dfyconfig.toml` checks it all.

The four parts, in the order of how much there is to prove:

* **The flash-emulated EEPROM** (`FlashChip`, `Eeprom*`). Blocks with a counter and a checksum
  are appended round a ring of slots in four flash sectors; sectors are reclaimed when the ring is full; start-up
  finds the newest valid block again. `EepromSpec` gives every routine as a function on slots and pages, for any
  number of blocks per sector and pages per block; `EepromDriver` is the driver with its addresses, fields and loops
  in the shipped configuration, proved equal to it. Each flash operation takes one entry of a script: it works, it
  fails, or the power goes just before it; without power, operations do nothing. One invariant holds over array
  writes, saves, wraps, erasures, power cuts, program errors and restarts, and the flash refines a single register.
  `EepromEdges`, `EepromRetry`, `EepromErrors` and `EepromBlindSpot` give the exact conditions at which the promises
  end, `EepromFaults` a run that gets there.
* **The configuration store** (`ConfigStore`, `ConfigOlder`, `ConfigPower`, `ConfigStuck`, `ConfigErrors`), the two
  routines of `main.c` on top of it, over calls and restarts that may be cut short anywhere; `ConfigDriver` carries
  such runs out on the driver.
* **The TFTP server and command parser** (`Text`, `Commands`, `LineMeaning`, `ConfigText`, `Tftp*`): the receiver as a
  function of one datagram, told by its bytes alone in `TftpBytes`; the sender step by step with interrupts, and both
  together in `TftpJoint`; the parser against a fold over lines and letter by letter; and the routines themselves with
  the buffer they cut up in place (`TftpDriver`). `ConfigTransfer` goes from an upload to the next
  boot. Section numbers in the code refer to RFC 1350.
* **The acquisition loop** (`Acquisition`, `AcquisitionProgress`) and the **SPI transfer loops** (`SpiPolling`, `SpiFifo`).

## What the proofs assume

* A block that is not as intended fails the checksum (`TornFails`, `SoundBlock`). This is asked of the blocks a run
  actually leaves, not of all blocks: a checksum of 32 bits has collisions, and a block whose unprogrammed pages are
  all zero is not torn at all. `CutSaveAtomicIff` shows that the assumption is needed. It is not needed where only the
  power fails and the configuration fits into the first page, as that of `main.c` does: a save then takes effect with
  its first page (`PowerCutsAreHarmless`, `UploadPersists`).
* A failed page program leaves anything in its page. Two kinds of error the code does not cope with. One leaves the
  block complete: the call fails and is kept (`FaultData`, `KeptAfterError`); with these a restart may load the
  configuration of a later failed call, and never an older one (`NeverOlder`), while `DurableRun` and `ConfigPersists`,
  which give the exact register, assume that errors are detected (`Detected`). The other leaves a counter of 0 in a
  page that is not erased, and program-once fails then and only then (`ErrorBreaksRuleIff`, `ClobberAfterOneError`);
  the run theorems leave it out.
* A failed erase leaves its sector as it was; power fails between flash operations, not within one.
* The counter is below its 32-bit maximum (`CounterLimitIff`). With program errors, the latest good block is outside
  the sector about to be reused at each wrap (`WrapSafe`, `WrapClobbersIff`, `UnsafeWrapReached`); it is if never 3n
  saves in a row fail (`FewFailuresAreDurable`), and without program errors (`CleanStep`).
* `ipaddr_aton` is a parameter, undone by an address printer where that is said (`Inverts`). So is the layout of
  the configuration in memory, from which the settings can be read back (`Layout`).

## What the code does that its texts do not say

* A start-up that finds the latest block below a bad one returns `ERROR_OLD_DATA`, described in `e_eeprom_xmc4.h` as
  success with old data. `DAVE_Init` passes it on, and `main` (main.c:695-701) stays in its error loop; since start-up
  changes nothing further, it does so at every later reset (`OldDataNeverRuns`). Power cuts never lead there with the
  configuration of `main.c`, which fits into one page (`PowerCutsAreHarmless`). One program error does, in whichever
  page, exactly if what it leaves shows and does not pass the check and the cursor was in the sector of the latest
  block (`FailedCallRunsIff`, `StuckAfterOneError`).
* A failed call may be kept. With the configuration of `main.c` an error in any page but the first that leaves the page
  erased does no harm to the block: the client is told that saving failed, and the next reset uses the new settings
  (`KeptAfterError`).
* A program error that leaves a counter of 0 makes the next start-up take the slot for an empty one
  (`ClobberAfterOneError`).
* A call that saves what is in RAM already returns -1. So an upload of the settings in use is answered with a failed
  save, and an upload repeated after a failed save is not tried again (`RepeatedCallFails`, `UploadConfirmed`).
* After an erase error while reclaiming, a retry skips the erase, and some later save programs pages that are not erased
  unless the device restarts (`RetryAfterEraseError`, `EraseErrorCatchesUp`).
* A write request that abandons a transfer leaves the blocks already received in the buffer
  (`AbandonedBlocksStay`).
* The help text allows files of 4096 bytes; the code refuses more than 4095 (`RoundTrip`).
* The note above `tftp_send_data` says it does not wait for acknowledgements; it does, except after the first block
  (`FirstWaitIsOpen`, `StopAndWaitFromStart`).
* The comment in the lower-casing loop says everything is converted; the loop ends at the first `=`
  (`ValuesKeepCase`).
* `e_eeprom_xmc4.h` says start-up moves the latest block to a new sector when its own is full; the code does not.
* In 16-bit mode the FIFO receive can stall: with FIFOs of 8 words or more, for requests of more than
  size + size/2 + 1 words, where size is half the FIFO (`WideStallIff`, `WideNoStallIff`).

## Model

| member | source | states |
|---|---|---|
| `EepromSpec.Sealed` | Dave/Generated/E_EEPROM_XMC4/e_eeprom_xmc4.c:410-411 | A sealed block with a non-zero counter passes the start-up check; counter and data are untouched |
| `EepromScan.Newest` | Dave/Generated/E_EEPROM_XMC4/e_eeprom_xmc4.c:433-495 | Independent reference: exhaustive search for the good block with the highest counter, the lowest slot among equals |
| `EepromScan.ScanDownFinds` | Dave/Generated/E_EEPROM_XMC4/e_eeprom_xmc4.c:448-493 | The early-exit scan of one sector finds its top-most block better than those before, or nothing if there is none |
| `EepromScan.BetterInSector` | Dave/Generated/E_EEPROM_XMC4/e_eeprom_xmc4.c:471-484 | With counters rising inside the sector that top-most block is the newest of all slots so far |
| `EepromScan.ScanMeaning` | Dave/Generated/E_EEPROM_XMC4/e_eeprom_xmc4.c:199-202 | The four scans agree with the exhaustive search: same slot, its counter and sector, cursor just above the highest non-empty slot there, dirty bits exact |
| `EepromEffects.EraseShape` | Dave/Generated/E_EEPROM_XMC4/e_eeprom_xmc4.c:499-536 | Whatever its script, an erase pass clears whole sectors, only dirty ones other than the active one, and all of them if it finishes |
| `EepromEffects.WriteShape` | Dave/Generated/E_EEPROM_XMC4/e_eeprom_xmc4.c:413-428 | Whatever its script, the page loop programs erased pages only, changes one slot only, and leaves a prefix of the block or a spoilt page after it |
| `EepromInvariant.CursorErased` | Dave/Generated/E_EEPROM_XMC4/e_eeprom_xmc4.c:335-342 | While the ring is not full the cursor slot and all above it in its sector are erased |
| `EepromInvariant.NewBlockRises` | Dave/Generated/E_EEPROM_XMC4/e_eeprom_xmc4.c:357-364 | A block with a higher counter keeps counters rising in its sector and becomes the latest |
| `EepromInvariant.GoodWriteKeeps` | Dave/Generated/E_EEPROM_XMC4/e_eeprom_xmc4.c:355-375 | The full invariant, erased gap included, after a good block is written and the cursor moved |
| `EepromInvariant.BadWriteKeeps` | Dave/Generated/E_EEPROM_XMC4/e_eeprom_xmc4.c:355-375 | The same after a write error has left a bad block and the cursor has moved past it |
| `EepromDurability.ReclaimedGap` | Dave/Generated/E_EEPROM_XMC4/e_eeprom_xmc4.c:339-353 | After the erase pass of a full ring everything from the cursor round to the kept sector is erased |
| `EepromDurability.ReclaimKeeps` | Dave/Generated/E_EEPROM_XMC4/e_eeprom_xmc4.c:339-353 | Reclaiming, cut short or failing anywhere, keeps the flash invariant and what the store remembers |
| `EepromDurability.AppendKeeps` | Dave/Generated/E_EEPROM_XMC4/e_eeprom_xmc4.c:355-375 | Appending with cuts and program errors: invariant, no page programmed twice, latest block exactly as the outcome says |
| `EepromDurability.UpdateAtomic` | Dave/Generated/E_EEPROM_XMC4/e_eeprom_xmc4.c:328-378 | One save whose errors are detected is atomic: the store then remembers the new block if it landed and otherwise exactly what it did before; success means it landed |
| `EepromSafety.UpdateSafe` | Dave/Generated/E_EEPROM_XMC4/e_eeprom_xmc4.c:328-378 | One save with errors of every kind: no page programmed unless erased, good blocks only from before or from this save, RAM's latest block kept, room again for the next save |
| `EepromDurability.InitErases` | Dave/Generated/E_EEPROM_XMC4/e_eeprom_xmc4.c:214-214 | The start-up erase pass never touches the latest good block, wherever it stops |
| `EepromDurability.InitClears` | Dave/Generated/E_EEPROM_XMC4/e_eeprom_xmc4.c:211-214 | Completed, it leaves exactly the active sector filled |
| `EepromDurability.SettledInv` | Dave/Generated/E_EEPROM_XMC4/e_eeprom_xmc4.c:228-244 | The rebuilt cursor, wrapped at the end of the last sector, satisfies the run-time invariant |
| `EepromDurability.InitSafe` | Dave/Generated/E_EEPROM_XMC4/e_eeprom_xmc4.c:176-254 | Start-up from any flash in order, slots left blank by errors included: the remembered block in RAM and room at the cursor, or nothing forgotten where it stops |
| `EepromDurability.InitRecovers` | Dave/Generated/E_EEPROM_XMC4/e_eeprom_xmc4.c:176-254 | Start-up from any reachable flash: RAM holds exactly the remembered block, or the store is empty; nothing is forgotten even if it is cut short or an erase fails |
| `EepromRuns.StepRefines` | Dave/Generated/E_EEPROM_XMC4/e_eeprom_xmc4.c:176-378 | Every event keeps the invariant and moves flash and a one-value register in step |
| `EepromRuns.DurableRun` | Dave/Generated/E_EEPROM_XMC4/e_eeprom_xmc4.c:176-378 | Over every admissible run, with cuts, program errors and restarts: invariant, program-once, flash remembers the register |
| `EepromRuns.BootRestoresRegister` | Dave/Generated/E_EEPROM_XMC4/e_eeprom_xmc4.c:176-254 | After any such run from an erased flash a completed start-up leaves exactly the register value in RAM |
| `EepromRuns.UpdateNoFaults` | Dave/Generated/E_EEPROM_XMC4/e_eeprom_xmc4.c:328-378 | Without flash errors a save reports none and leaves the cursor just above its block |
| `EepromRuns.InitTight` | Dave/Generated/E_EEPROM_XMC4/e_eeprom_xmc4.c:219-244 | Start-up never leaves the cursor at the start of the active sector |
| `EepromRuns.CleanStep` | Dave/Generated/E_EEPROM_XMC4/e_eeprom_xmc4.c:335-353 | Without flash errors the latest block is never in the sector about to be reused |
| `EepromRuns.CleanRunsAreDurable` | Dave/Generated/E_EEPROM_XMC4/e_eeprom_xmc4.c:176-378 | Crash-safe durable register and program-once with power cuts anywhere and no hypothesis on wrapping |
| `EepromEdges.CutSaveAtomicIff` | Dave/Generated/E_EEPROM_XMC4/e_eeprom_xmc4.c:413-428 | A save cut after its erasures and k of its pages, from any state with room, leaves the old or the new block remembered if and only if the torn block is no checksum collision |
| `EepromEdges.StatusExact` | Dave/Generated/E_EEPROM_XMC4/e_eeprom_xmc4.c:233-237 | OldData is returned exactly when a non-empty slot lies above the latest good block in its own sector |
| `EepromEdges.BootIdempotent` | Dave/Generated/E_EEPROM_XMC4/e_eeprom_xmc4.c:176-254 | A second start-up changes no block and returns the same status |
| `EepromEdges.TornSaveStatus` | Dave/Generated/E_EEPROM_XMC4/e_eeprom_xmc4.c:233-237 | After a save cut at page k, reclaiming or not, the next start-up returns OldData exactly if the new block is incomplete and either it would have done so before or k > 0 and the cursor was in the sector of the latest block |
| `EepromEdges.BadBlockShadows` | Dave/Generated/E_EEPROM_XMC4/e_eeprom_xmc4.c:455-484 | A bad block at the cursor overshadows the latest block exactly if it is not blank and in the same sector |
| `EepromEdges.WrapClobbersIff` | Dave/Generated/E_EEPROM_XMC4/e_eeprom_xmc4.c:339-359 | With no flash errors, the save of a full ring programs a non-erased page if and only if the latest good block is in the sector to be reused |
| `EepromPasses.EraseStopsAt` | Dave/Generated/E_EEPROM_XMC4/e_eeprom_xmc4.c:508-533 | An erase pass whose first error is at sector f has erased exactly the stale sectors below f |
| `EepromPasses.ErasesTo` | Dave/Generated/E_EEPROM_XMC4/e_eeprom_xmc4.c:508-533 | While its erasures work an erase pass gets to any sector with exactly the stale sectors below it erased |
| `EepromRetry.RetryAfterEraseError` | Dave/Generated/E_EEPROM_XMC4/e_eeprom_xmc4.c:344-359 | After an erase error at sector f a second save skips the erase, and programs a non-erased page if and only if f is not above the sector being reused |
| `EepromRetry.EraseErrorCatchesUp` | Dave/Generated/E_EEPROM_XMC4/e_eeprom_xmc4.c:335-375 | Without a restart the error catches up for every f: with no sector empty, the first save to program a non-erased page is the one after as many as there are slots from the reused sector to f |
| `EepromEdges.CounterLimitIff` | Dave/Generated/E_EEPROM_XMC4/e_eeprom_xmc4.c:357-357 | An undisturbed save is remembered if and only if the 32-bit counter was below its maximum |
| `EepromFaults.UnsafeWrapReached` | Dave/Generated/E_EEPROM_XMC4/e_eeprom_xmc4.c:339-359 | The failing side is reached: a new device with a program error in every save of its first lap stands before an unsafe wrap after an otherwise admissible run, and its next save programs non-erased pages |
| `EepromStreak.FewFailuresAreDurable` | Dave/Generated/E_EEPROM_XMC4/e_eeprom_xmc4.c:328-378 | If never 3n saves in a row fail, every wrap is safe: the durable register and program-once with no hypothesis on wrapping |
| `EepromErrors.FaultStatus` | Dave/Generated/E_EEPROM_XMC4/e_eeprom_xmc4.c:233-237 | One program error in any page: the next start-up reports OldData exactly if the failed block does not pass the check and either it would have before, or the block shows and the cursor was in the sector of the latest block |
| `EepromErrors.FaultData` | Dave/Generated/E_EEPROM_XMC4/e_eeprom_xmc4.c:220-231 | It has the failed block in RAM if that passes the check, although the save reported an error, and otherwise exactly what was remembered before |
| `EepromErrors.ErasedPageIsWhole` | Dave/Generated/E_EEPROM_XMC4/e_eeprom_xmc4.c:413-426 | Data that fits into the first page, and an error in a later page that leaves it erased: the failed block is the block intended |
| `EepromBlindSpot.ErrorBreaksRuleIff` | Dave/Generated/E_EEPROM_XMC4/e_eeprom_xmc4.c:448-484 | After one program error the save after the next start-up programs a non-erased page if and only if the failed block has counter 0 and is not blank |
| `EepromWear.ClockMeaning` | Dave/Generated/E_EEPROM_XMC4/e_eeprom_xmc4.c:339-353 | Erase passes come just before save 4n+1 and every 3n saves from there |
| `EepromWear.WearClosed` | Dave/Generated/E_EEPROM_XMC4/e_eeprom_xmc4.c:511-529 | Closed form of the erasures of a sector after p passes |
| `EepromWear.WearBalanced` | Dave/Generated/E_EEPROM_XMC4/e_eeprom_xmc4.c:511-529 | Erase counts of two sectors differ by at most one |
| `EepromWear.FullAtLapEnd` | Dave/Generated/E_EEPROM_XMC4/e_eeprom_xmc4.c:339-346 | The ring is full exactly at the end of a lap, with the latest block in the next sector to keep |
| `EepromWear.ReclaimOnSchedule` | Dave/Generated/E_EEPROM_XMC4/e_eeprom_xmc4.c:339-353 | The pass runs exactly when the schedule says and keeps the sector the schedule says |
| `EepromWear.SavesOnSchedule` | Dave/Generated/E_EEPROM_XMC4/e_eeprom_xmc4.c:328-378 | After m saves counter, cursor, sector, latest slot and erase counts are those of the schedule |
| `EepromWear.WearLevelled` | Dave/Generated/E_EEPROM_XMC4/e_eeprom_xmc4.c:328-378 | From an erased flash: slots in cyclic order, passes on schedule, erase counts of any two sectors within one |
| `EepromDriver.Eeprom.constructor` | Dave/Generated/E_EEPROM_XMC4/e_eeprom_xmc4.c:125-134 | The static initial values are the state the theorems start from |
| `EepromDriver.Eeprom.WriteByte` | Dave/Generated/E_EEPROM_XMC4/e_eeprom_xmc4.c:259-271 | Stores one byte and tells whether it differed |
| `EepromDriver.Eeprom.WriteArray` | Dave/Generated/E_EEPROM_XMC4/e_eeprom_xmc4.c:276-294 | Stores the bytes and returns true exactly if the buffer changed |
| `EepromDriver.Eeprom.ReadArray` | Dave/Generated/E_EEPROM_XMC4/e_eeprom_xmc4.c:311-323 | Returns the bytes of the range |
| `EepromDriver.Eeprom.IsFlashEmpty` | Dave/Generated/E_EEPROM_XMC4/e_eeprom_xmc4.c:382-392 | True exactly if there is no latest block |
| `EepromDriver.Eeprom.LWriteToFlash` | Dave/Generated/E_EEPROM_XMC4/e_eeprom_xmc4.c:399-429 | The page loop over addresses does what the page recursion over slots does |
| `EepromDriver.Eeprom.LInitEraseStateMachine` | Dave/Generated/E_EEPROM_XMC4/e_eeprom_xmc4.c:499-536 | The erase loop does what the erase recursion does |
| `EepromDriver.Eeprom.ReclaimIfFull` | Dave/Generated/E_EEPROM_XMC4/e_eeprom_xmc4.c:335-353 | Address comparison and sector mask detect and reclaim a full ring as specified |
| `EepromDriver.Eeprom.UpdateFlashContents` | Dave/Generated/E_EEPROM_XMC4/e_eeprom_xmc4.c:328-378 | The whole save equals its specification, and leaves the cursor on a block, so that it can be called again |
| `EepromDriver.Eeprom.FullIsFull` | Dave/Generated/E_EEPROM_XMC4/e_eeprom_xmc4.c:336-341 | Comparing the cursor with the computed sector address is the full-ring test, for every sector value |
| `EepromDriver.Eeprom.HomeIsHome` | Dave/Generated/E_EEPROM_XMC4/e_eeprom_xmc4.c:344-346 | Bits 14 and 15 of the latest address are its sector, and 0 for the null address |
| `EepromDriver.Eeprom.LInitReadSectorInfo` | Dave/Generated/E_EEPROM_XMC4/e_eeprom_xmc4.c:433-495 | The scan loop of one sector does what the scan recursion does |
| `EepromDriver.Eeprom.LCopyFlashToRam` | Dave/Generated/E_EEPROM_XMC4/e_eeprom_xmc4.c:554-567 | The word-by-word copy leaves exactly the latest block in the buffer |
| `EepromDriver.Eeprom.SettleCursor` | Dave/Generated/E_EEPROM_XMC4/e_eeprom_xmc4.c:219-245 | Load, status and cursor wrap as specified; the cursor stands on a block |
| `EepromDriver.Eeprom.Init` | Dave/Generated/E_EEPROM_XMC4/e_eeprom_xmc4.c:176-254 | The whole start-up equals its specification and, unless an erase failed, leaves the cursor where a save can use it; a second call does nothing |
| `ConfigStore.SaveKeeps` | main.c:623-633 | A call whose errors are detected, cut by a power failure or not, leaves the new bytes in the store exactly if its block landed, and what was there otherwise; if it returned, that is exactly when it returned 1 |
| `ConfigStore.ActKeeps` | main.c:583-633 | Calls with detected errors and restarts, interrupted or not, keep flash equal to the last configuration kept |
| `ConfigStore.LoadIsLastKept` | main.c:583-621 | A restart that gets to loading loads that configuration, or the defaults from an empty store |
| `ConfigStore.ConfigPersists` | main.c:583-633 | Over every sequence of calls and restarts from a factory-fresh device, with cuts and detected program errors, a restart that gets to loading loads the configuration of the last call that returned 1, or of a later interrupted one that landed |
| `ConfigOlder.NeverOlder` | main.c:583-633 | The same with program errors of every kind: what is loaded is of the last call that returned 1, or of a later one that failed or was cut with its block complete, never older and never a mix; and no page is programmed unless erased |
| `ConfigStore.RepeatedCallFails` | main.c:623-633 | A call repeated after it failed returns -1 again and does nothing |
| `ConfigPower.SmallSave` | main.c:623-633 | A save of a configuration of at most 248 bytes without flash errors leaves each slot old, blank or exactly new, so it needs no assumption on the checksum |
| `ConfigPower.PowerCutsAreHarmless` | main.c:583-701 | For such configurations, from a factory-fresh device, over every sequence of calls and restarts cut anywhere: no page programmed twice, every completed start-up reports Ok and brings back the last configuration kept |
| `ConfigStuck.OldDataNeverRuns` | main.c:695-701 | A device whose start-up reported OldData never runs again, whatever restarts follow |
| `ConfigErrors.FailedCallRunsIff` | main.c:623-701 | One program error in a call, in any page: it returns -1, and the next completed start-up runs if and only if what was left passes the check, or has counter 0, or the cursor was in another sector than the latest block; if not, never again |
| `ConfigErrors.FailedCallLoads` | main.c:583-633 | If it runs, then with what was left if that passes the check, and otherwise with the configuration stored before |
| `ConfigErrors.OneErrorOutcome` | main.c:583-701 | From a new device to the restart after a failed second call: every outcome, by what the error left |
| `ConfigErrors.StuckAfterOneError` | main.c:623-701 | A failed call after which nothing runs: an error in the first page, there is one for every checksum, and the device never runs again |
| `ConfigErrors.KeptAfterError` | main.c:623-633 | A failed call that is kept: with a configuration of at most 248 bytes, an error in any later page that leaves it erased makes the call return -1, and the next restart runs with the new configuration |
| `ConfigErrors.ClobberAfterOneError` | main.c:623-633 | A failed call that breaks program-once: the next restart runs with the old configuration and the next changing call programs a non-erased page |
| `ConfigDriver.ConfigKeeper.WriteFlashConfig` | main.c:623-633 | The call on the driver equals its specification and can be repeated |
| `ConfigDriver.ConfigKeeper.LoadFlashConfig` | main.c:583-621 | Defaults are taken and saved from an empty store or on demand; -1 at the first default address that does not parse, those before it taken over; otherwise the stored bytes are loaded and nothing changes |
| `ConfigDriver.Reset` | main.c:691-704 | Reset, start-up and load on the driver do what one restart of the run theorems does |
| `ConfigDriver.RunDevice` | main.c:583-704 | Every sequence of calls and restarts carried out on the driver ends with the flash, the running state and the configuration of the run theorems |
| `Text.AtoiDecimal` | main.c:247-254 | The number parser undoes the decimal printer, for every number |
| `Text.AtoiReads` | main.c:247-254 | The number parser on every string: white space, a sign, digits, and a rest; the value is that of the digits, negative behind a minus |
| `Commands.LinesJoin` | main.c:182-193 | Splitting at newlines loses nothing and leaves no newline in a line |
| `Commands.ParseIsFold` | main.c:175-283 | The scanner equals folding command meanings over the lines up to the first bad one, whose predecessors stay applied |
| `Commands.ParseOutcome` | main.c:182-297 | Accepted exactly if every line is good and newline-ended; reset noted exactly if one is `reset` |
| `LineMeaning.ResetLineIff` | main.c:201-276 | A line is a reset if and only if its key, in any letter case, is `reset`, with a value or without |
| `LineMeaning.UnknownLineIsBad` | main.c:277-281 | A line with any other key than that and the ten names is refused |
| `LineMeaning.SettingLine` | main.c:211-274 | A line with one of the ten names sets exactly that setting if its value is good, is refused with its own text if not, and needs a value |
| `LineMeaning.FileOutcome` | main.c:175-310 | On the letters of the text: the device restarts exactly if every line is good and one is a reset, and reports success exactly if every line is good, none is a reset and the write worked |
| `LineMeaning.FirstErrorIsTold` | main.c:188-297 | The client is told the text for the first line that is not good, or that the last is not ended, or that saving failed, or nothing |
| `Commands.SettingsOrder` | main.c:211-274 | Settings of distinct keys commute; of one key the last wins |
| `ConfigText.MeaningOfPair` | main.c:201-209 | key=value: the key in lower case, the value as written |
| `ConfigText.ValuesKeepCase` | main.c:202-208 | Values are not lowered: either rate is accepted only as `fast` or `slow` |
| `ConfigText.PrintOne` | main.c:201-282 | Parsing one more printed line takes over one more setting |
| `ConfigText.PrintedConfigRestores` | main.c:175-283 | Every configuration printed with keys in any case parses back to itself over any other |
| `ConfigTransfer.TransferConfigures` | main.c:211-545 | Printed, sent in one transfer and parsed, a configuration becomes the one in use; its last block is acknowledged twice exactly if it was saved |
| `ConfigTransfer.UploadPersists` | main.c:285-704 | An upload acknowledged twice is the configuration the next completed start-up runs with, after any history of calls, restarts and power cuts |
| `TftpSpec.OutgoingIsPackets` | main.c:315-370 | With every wait acknowledged exactly the packets of the text go out |
| `TftpSpec.OutgoingStops` | main.c:339-346 | The first wait to fail ends the sending with an error text |
| `TftpTheorems.ArrivalKeepsReassembling` | main.c:458-545 | One datagram keeps: buffer = start + accepted blocks in order, index = base + 512(block - 1) below 4096, at most 8 blocks |
| `TftpTheorems.ReassemblyHolds` | main.c:458-545 | The same over every sequence of datagrams |
| `TftpTheorems.ParsedIsReassembled` | main.c:515-541 | The parser is only ever called on the start contents, the full blocks and the last block, in order |
| `TftpTheorems.AckFollowsStore` | main.c:524-544 | An ACK of block k >= 1 goes out only when block k arrives in turn and when the buffer has already grown by that block |
| `TftpTheorems.AckCountsBytes` | main.c:515-544 | In a transfer the buffer then holds base + 512(k - 1) bytes and the block |
| `TftpTheorems.ShortDatagram` | main.c:464-563 | What a packet shorter than four bytes, which is told off and handled all the same, can do: refusals, the end of a transfer, or an undefined copy |
| `TftpTheorems.RepliesGoBack` | main.c:458-567 | All replies go to the sender of the datagram |
| `TftpTheorems.ResetIff` | main.c:285-310 | Reset exactly if every line is good and one is `reset`, whatever the flash write returned; success exactly if not reset, good and saved; the interface is set up anew exactly if the text is good |
| `TftpTheorems.ReadExcludesWrite` | main.c:471-561 | While a read is pending no sequence of datagrams stores, parses, sets or redirects; the block number stays or drops to 0 |
| `TftpTheorems.OctetIff` | main.c:419-455 | In the plain layout of section 5 of RFC 1350 a request is accepted exactly if its mode is "octet" up to letter case |
| `TftpMode.OctetExact` | main.c:419-455 | For every packet of four bytes or more: accepted if and only if the file name ends inside it, its last byte is zero, and behind the name stands "octet" up to letter case, whatever follows; otherwise the first thing missing is told |
| `TftpBytes.ReadRequestOutcome` | main.c:546-561 | Every datagram with the bytes 0 1: busy, silent if too short, taken with its sender kept, or refused with what is missing |
| `TftpBytes.WriteRequestOutcome` | main.c:471-491 | Every datagram with the bytes 0 2: it abandons the transfer, or is busy, silent, refused, or opens a transfer |
| `TftpBytes.DataOutcome` | main.c:492-545 | Every datagram with the bytes 0 3: refused with nothing changed, too large with the buffer emptied, stored and acknowledged, or parsed |
| `TftpBytes.UnknownOutcome` | main.c:564-566 | Every other opcode is refused |
| `TftpBytes.FragmentOutcome` | main.c:459-462 | A datagram in pieces is refused |
| `TftpJoint.AckSetsNumber` | main.c:562-563 | An acknowledgement, bytes 0 4 and a number, sets `ack_num` to that number and does nothing else |
| `TftpJoint.AckNumExact` | main.c:458-567 | No other datagram changes `ack_num` |
| `TftpJoint.StopAndWaitOnDatagrams` | main.c:315-369 | With the callback interrupting the sender: for k >= 2, block k+1 goes out only after a datagram 0 4 with the number k came in |
| `TftpJoint.ReadLeavesNoTrace` | main.c:546-561 | From the read request through the sending to its end: buffer, settings and interface as before, nothing parsed, the server free again |
| `TftpTransfer.PacketsMeaning` | main.c:315-370 | L/512+1 packets numbered in turn modulo 2^16, block i being bytes 512i on, only the last not full |
| `TftpTransfer.PacketsJoin` | main.c:329-362 | Their bodies joined are the text |
| `TftpTransfer.ServerReceives` | main.c:492-545 | How the server takes full blocks, the last block, blocks that do not fit, which empty the buffer, and unexpected blocks |
| `TftpTransfer.RequestAccepted` | main.c:471-485 | An octet write request to an idle server is acknowledged with 0 and block 1 awaited |
| `TftpTransfer.PacketsParse` | main.c:492-545 | The packets of a text are parsed as one text, once, exactly if it fits behind what the buffer holds; afterwards the buffer is empty and the server idle |
| `TftpTransfer.RoundTrip` | main.c:315-545 | The same from the write request on, with the settings that result |
| `TftpTransfer.NextUploadStandsAlone` | main.c:471-545 | Whether an upload fitted or not, the next one is parsed as exactly its own text |
| `TftpTransfer.TooLongLeavesNothing` | main.c:515-522 | An upload that does not fit parses, sets and leaves nothing |
| `TftpTransfer.AbandonedBlocksStay` | main.c:486-491 | After an abandoned transfer the next text is parsed behind the abandoned blocks |
| `TftpConfirm.UploadConfirmed` | main.c:285-535 | The last block of an upload that fits is acknowledged twice if and only if every line is good, none is `reset` and the flash write succeeded |
| `TftpConfirm.EndReplies` | main.c:285-535 | The end of a transfer sends one more ACK exactly on success, and otherwise an error text or nothing |
| `TftpSender.SendsPackets` | main.c:324-369 | In every interleaving what has gone out is a prefix of the packets of the text, all of it at the end |
| `TftpSender.SenderRefines` | main.c:324-369 | In every interleaving the finished or timed-out sender has sent what `TftpSendData` sends for some outcomes of the waits |
| `TftpSender.StopAndWaitFromStart` | main.c:337-349 | In every interleaving, for k >= 2, block k+1 goes out only after an ACK numbered k arrived |
| `TftpSender.FirstWaitIsOpen` | main.c:316-346 | With no ACK at all block 2 follows block 1 |
| `TftpSender.TimeoutExact` | main.c:338-345 | A clock test gives up exactly from 2001 ticks on, across the wrap of the 32-bit clock |
| `TftpSender.LateAckIsSeen` | main.c:338-346 | In every interleaving an awaited ACK ends its wait whenever it comes within 2000 ticks: three steps later the next block is out |
| `TftpSender.WaitTimesOut` | main.c:338-345 | In every interleaving a wait without its ACK is given up two steps after 2001 ticks |
| `TftpSender.WrappedWaitNeverEnds` | main.c:325-339 | Once the block counter has wrapped to 0 no ACK ends the wait |
| `TftpSender.PromptSendsAll` | main.c:324-369 | With every ACK arriving in its wait the whole text is sent |
| `TftpSender.SenderToReceiver` | main.c:315-545 | If the sender finishes, its packets make an idle receiver parse exactly the text |
| `TftpDriver.LowerInPlace` | main.c:202-209 | The in-place lowering loop with its shrinking strlen: whole string lowered, or cut at the first `=` and left as it was behind |
| `TftpDriver.CutLine` | main.c:185-193 | Finds the newline and makes it a terminator, or reports that there is none |
| `TftpDriver.ReadLine` | main.c:201-281 | What the cut-up buffer shows is the meaning of the original line; later lines are intact |
| `TftpDriver.NextCommand` | main.c:182-281 | One round of the scanner: meaning of the next line and the untouched rest |
| `TftpDriver.Tftp.CommandLoop` | main.c:182-283 | The in-place loop leaves the settings, error and reset flag of the functional parse |
| `TftpDriver.Tftp.ParseConfigCommands` | main.c:175-310 | The whole routine equals its specification apart from the buffer it cuts up |
| `TftpDriver.Tftp.CheckOctetMode` | main.c:419-455 | The in-place check refuses and reports exactly as specified |
| `TftpDriver.Tftp.RecvData` | main.c:492-545 | The handling of data packets equals its specification |
| `TftpDriver.Tftp.TftpRecv` | main.c:458-567 | The receive callback equals its specification, for packets of every length |
| `TftpDriver.Tftp.TftpSendData` | main.c:315-370 | The sending loop sends what its specification says, given which waits succeed |
| `Acquisition.Accounting` | main.c:754-848 | All accounting laws over every interleaving of interrupts and loop steps |
| `Acquisition.AccountingFromStart` | main.c:751-848 | From power-up: k-th packet carries k mod 2^32; packets + pending never exceed interrupts |
| `AcquisitionProgress.FlaggedIsServed` | main.c:754-807 | Nothing starves: from every state, a flagged source has a packet sent within fifteen steps on a free bus, sixty for the thermocouples, with interrupts anywhere |
| `AcquisitionProgress.TestsInTurn` | main.c:754-807 | Thermocouples, ADC0 and ADC1 are tested in that order, round and round |
| `AcquisitionProgress.TransferStartsIff` | main.c:756-799 | A transfer starts exactly when a flagged source is tested on a free bus |
| `SpiPolling.ReceivePolling` | Dave/Generated/SPI_MASTER/spi_master.c:1245-1439 | Exactly count words sent in order and as many replies stored low byte first, nothing past them; a reply is always there to read |
| `SpiPolling.EchoReturns` | Dave/Generated/SPI_MASTER/spi_master.c:1281-1327 | An echoing slave returns the transmit buffer |
| `SpiFifo.BeginAlive` | Dave/Generated/SPI_MASTER/spi_master.c:1047-1062 | After setup the limit is below the words to come |
| `SpiFifo.StepKeepsWords` | Dave/Generated/SPI_MASTER/spi_master.c:1179-1207 | No step loses, invents or reorders a word |
| `SpiFifo.HandlerStores` | Dave/Generated/SPI_MASTER/spi_master.c:1170-1208 | A handler run stores, in either mode, as many words as the FIFO holds and the request has left, in order |
| `SpiFifo.NoStall8` | Dave/Generated/SPI_MASTER/spi_master.c:1081-1102 | 8-bit mode, every interleaving: no stall, nothing past the request, completion once |
| `SpiFifo.Delivered8` | Dave/Generated/SPI_MASTER/spi_master.c:1031-1103 | 8-bit mode: once all words have arrived they are stored, or the event is up and its interrupt stores the rest, in order, and completes |
| `SpiFifo.WideHandlerDeadIff` | Dave/Generated/SPI_MASTER/spi_master.c:1099-1102 | 16-bit mode: a handler run leaves the limit too high exactly if more bytes than the size but no more words than the old limit are left |
| `SpiFifo.WideStallIff` | Dave/Generated/SPI_MASTER/spi_master.c:1031-1102 | 16-bit mode, for every request, size and FIFO beyond the size: some run from the start, with interrupts only above the limit, comes to a dead state if and only if some number k of interrupts can take all but between size/2 + 1 and size words |
| `SpiFifo.WideNoStallIff` | Dave/Generated/SPI_MASTER/spi_master.c:1031-1102 | For a FIFO of twice a size of at least 3 that is: every run can go on if and only if at most size + size/2 + 1 words are asked for |
| `SpiFifo.DeadStays` | Dave/Generated/SPI_MASTER/spi_master.c:1228-1239 | Otherwise it can come to a state from which no run stores another word or completes |
| `SpiFifo.Receiver.LFIFORead` | Dave/Generated/SPI_MASTER/spi_master.c:1170-1208 | The read loop equals its specification, stored bytes included |
| `SpiFifo.Receiver.LReconfigureRxFIFO` | Dave/Generated/SPI_MASTER/spi_master.c:1213-1241 | The limit programmed for a number of bytes |
| `SpiFifo.Receiver.LReceiveHandler` | Dave/Generated/SPI_MASTER/spi_master.c:1081-1103 | The handler equals its specification |

## Left out

- FlashChip.ProgramPage: what a page holds that is programmed while not erased is not modelled; the attempt sets a
  flag that the theorems show is never set.
- EepromDriver: the bits of `erase_state` are a sequence of four flags, and words of a block are its checksum, its
  counter and groups of four data bytes; the shipped geometry only, while the specification and its theorems are for
  any geometry.
- EepromDriver.Eeprom.WriteArray: the debug assertion on offset and length is a precondition up to the size of the
  buffer, which is wider than the assertion.
- EepromDriver.Eeprom.UpdateFlashContents: called as main.c calls it, with the cursor set by a start-up.
- ConfigStore: the configuration structure is its memory image; forced defaults are in the method but not in the
  run theorems.
- EepromDurability.UpdateAtomic: program errors are detected ones; `EepromSafety.UpdateSafe` is for all that leave a
  block which does not read as empty.
- ConfigStore.SaveKeeps: program errors are detected ones; `ConfigErrors.FailedCallLoads` has the others.
- ConfigStore.ActKeeps: program errors are detected ones, as above.
- ConfigStore.ConfigPersists: program errors are detected ones; `ConfigOlder.NeverOlder` is for the others, with less
  to say, because a failed call may be kept.
- ConfigOlder.NeverOlder: no erase errors in calls, and no error that leaves a counter of 0 in a page not erased; for
  these `EepromRetry.EraseErrorCatchesUp` and `EepromBlindSpot.ErrorBreaksRuleIff` say what happens.
- TftpDriver.Tftp.TftpRecv: the copy with a length that has wrapped around, to which a data packet of less than four
  bytes can lead, ends the model.
- TftpDriver.Tftp.TftpRecv: a zero byte is assumed somewhere in memory after the packet, so that a mode string
  starting past its end is still a string.
- TftpDriver.Tftp.ParseConfigCommands: setting up the network interface is recorded, a reset of ADCs and device ends
  the model, and the result of the flash write is an input; `ConfigTransfer.UploadPersists` ties it to the store.
- TftpSpec.RunCommands: a keyed command without `=` dereferences a null pointer in the code; the model stops there.
- TftpSpec.RunCommands: a reset is recorded, not performed.
- TftpDriver.Tftp.TftpSendData: takes the outcome of each wait as given; `TftpSender.SenderRefines` ties it to the
  waits themselves.
- TftpSender: filling the packet buffer and sending it is one step.
- Text.Atoi: numbers are unbounded before they are cut to 16 bits; overflow of the C `int` is not modelled.
- Acquisition: time stamps and the contents of packets; the help text sent from the same loop is in `TftpJoint`.
- SpiFifo.Receiver.LReceiveHandler: the branch without a FIFO; the FIFO itself does not overflow.
- SpiPolling.ReceivePolling: waiting loops are replaced by the proof that a reply is there; the transmit and receive
  registers and the FIFO behave alike.
- The checksum unit, flash margins and traps, DMA transfers, ADC set-up, Ethernet drivers and the web pages.
