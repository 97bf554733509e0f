# A verified model of the APM32F10x driver core

This project models, in Dafny 4.11, the parts of the APM32F10x SDK that hold real
algorithms, and proves what they promise:

- **Ethernet descriptor rings** (`Ring`, `EthDescriptors`, `EthReceive`,
  `EthReceiveRuns`, `EthSegments`, `EthTransmit`, `EthTransmitRuns`). Circular chains
  of descriptors are shared between the driver and a DMA engine that runs at the same
  time; the OWN bit says whose turn it is. Driver and DMA are steps of one transition
  system; the driver itself is a class over an array of descriptors in which every
  status read or descriptor write may be preceded by any number of DMA steps.
- **Flash controller** (`FlashController`). Bounded waiting and the erase, program and
  option-byte sequences with every error exit.
- **Clock-derived arithmetic** (`ClockTree`, `UsartBaud`, `I2sClock`). From the clock
  registers to the baud-rate and audio dividers.
- **Packed registers** (`BitFields`, `AdcSequencer`, `CanMailbox`, `GpioConfig`).
- **Bit reversal** (`BitReverse`).

`Words` holds the word sizes the others share.

`dafny verify dfyconfig.toml` checks the whole project.

## How the rings are modelled

A *position* counts the links followed since start-up, so positions only grow;
`Slot(p, n)` is the table index a position falls on. The ring then is a window on an
unbounded log, and "exactly once, in order" is a statement about that log.

Assumptions about the hardware and the caller, all explicit in the model:

- The DMA changes only descriptors with OWN set, writes a status word in one step and
  releases the descriptor with it. A receive status word has FDES exactly on the first
  segment of a frame.
- A transmit DMA that finds a descriptor without OWN suspends and raises TXBU; TXBU
  stays set until the driver clears it; a poll demand ends the suspension. Its
  write-back clears OWN and may change bits 0 to 17 only.
- A receive length field counts the 4 bytes of the frame check sequence, the field of
  section 3.2.9 of IEEE 802.3-2018; `PayloadIsExact` says what is delivered for less.
- The caller reads a frame before polling again, zeroes `segCount` before the next
  frame, and recycles descriptors oldest first, as late as it likes within the bound
  that `PollGuardIsExact` shows to be exact.
- For the results over transmit runs, a frame is submitted only when its descriptors are
  free. The driver does not check this: its busy test compares the masked OWN bit with
  `SET`, which is 1, and never fires (`BusyCheckNeverFires`). `RoomIsExact` shows that the
  condition is exact, and `FrameLost` what happens without it.

A compound assignment to a transmit status word is two accesses, a read and a write, and
the DMA may act between them. In a receive run the only one is the caller's setting of
OWN on a descriptor it holds, which the DMA does not touch.

What the DMA or the status register does is passed in as data (`env`, `hw`), and every
contract holds for all of it.

Status words are 32-bit vectors. Where only whole fields matter, words are integers
(control words, flash data) or bit sequences (`BitReverse`), and a mask with a run of
low ones is a remainder.

## Where code and documentation differ

The model follows the code.

- `ETH_Transmit_Descriptors` documents ETH_ERROR; it is never returned.
- `FMC_EraseOptionBytes` clears OBP instead of OBE after a failed erase, and
  `FMC_ProgramOptionByteData` and `FMC_ConfigUserOptionByte` clear OBP only after a
  timeout, so they do not leave the controller idle; `CallSafe` states exactly when
  each call does.
- `USART_Config` masks the fraction to four bits and loses a carry; `DividerRounds`
  states exactly when.
- `ADC_ConfigInjectedChannel` documents ranks 1 to 4; a rank one beyond the configured
  length is written over the length field (`LengthOverwritten`, `RankWithinLength`).
- `FMC_WaitForLastOperation` reports TIMEOUT even if the very last poll was not busy.

## Model

| member | source | states |
|---|---|---|
| EthReceiveRuns.FramesExactlyOnceInOrder | APM32F10x_SDK_V1.8/Libraries/APM32F10x_ETH_Driver/src/apm32f10x_eth.c:981-1100 | over every run of DMA fills, polls, interrupt-scan decisions, reads, count resets and recycling: the delivered frames are exactly the oldest frames the DMA completed, in order and once each; none is missing once everything filled was scanned; a poll that returned 1 has FS_RxDesc..LS_RxDesc as a contiguous chain path of segCount CPU-owned descriptors with FDES only on the first and LDES only on the last, and the frame about to be read is the next undelivered one; while a polled frame is open its start and count are recorded and LS_RxDesc is null |
| EthReceiveRuns.RunInv | APM32F10x_SDK_V1.8/Libraries/APM32F10x_ETH_Driver/src/apm32f10x_eth.c:981-1100 | the ring invariant (recycled, taken, filled and DMA-owned arcs; the frame being assembled; both histories) holds after every legal run |
| EthReceiveRuns.StepInv | APM32F10x_SDK_V1.8/Libraries/APM32F10x_ETH_Driver/src/apm32f10x_eth.c:981-1100 | every single DMA, driver and caller action keeps that invariant |
| EthReceiveRuns.FoundFrameIsWhole | APM32F10x_SDK_V1.8/Libraries/APM32F10x_ETH_Driver/src/apm32f10x_eth.c:981-994 | when a poll has returned 1 the record describes one whole frame: a walk of segCount links, correctly owned and marked |
| EthReceiveRuns.FoundFrameIsNext | APM32F10x_SDK_V1.8/Libraries/APM32F10x_ETH_Driver/src/apm32f10x_eth.c:1087-1100 | the frame read then has the length, first buffer, first descriptor and segment count of the oldest completed frame not yet delivered |
| EthReceiveRuns.PollGuardIsExact | APM32F10x_SDK_V1.8/Libraries/APM32F10x_ETH_Driver/src/apm32f10x_eth.c:981-1011 | a poll sees the next unread word or a DMA-owned descriptor if and only if the caller-held descriptors and the open frame leave one descriptor of the ring; otherwise it re-reads a stale one |
| EthReceiveRuns.PollSafeAfterRecycling | APM32F10x_SDK_V1.8/Libraries/APM32F10x_ETH_Driver/src/apm32f10x_eth.c:981-1011 | for a caller that has recycled everything, polling is safe exactly while the open frame is shorter than the ring |
| EthReceiveRuns.InterleavedPollIsRun | APM32F10x_SDK_V1.8/Libraries/APM32F10x_ETH_Driver/src/apm32f10x_eth.c:981-1011 | a poll with the DMA acting between its status reads is a legal run of DMA fills, one atomic poll and DMA fills, and it returns 1 exactly when that run has found a frame; so the run results cover calls that are not atomic |
| EthReceiveRuns.ScanIsRun | APM32F10x_SDK_V1.8/Libraries/APM32F10x_ETH_Driver/src/apm32f10x_eth.c:1425-1473 | an interrupt scan whose decisions meet the guard on polling is a legal run of fills, decisions and, if it finds a frame, the read that delivers it |
| EthReceiveRuns.InterruptScanIsRun | APM32F10x_SDK_V1.8/Libraries/APM32F10x_ETH_Driver/src/apm32f10x_eth.c:1425-1473 | a call of ETH_ReadReceivedFrameInterrupt with the DMA acting between its status reads is such a run followed by fills, and the frame it returns is the one the run delivers; so exactly-once, in-order delivery covers it |
| EthReceive.RxDriver.CheckReceivedFrame | APM32F10x_SDK_V1.8/Libraries/APM32F10x_ETH_Driver/src/apm32f10x_eth.c:981-1011 | with arbitrary DMA writes before each of its up to eight status reads, the call has exactly the effect and result of the atomic three-way decision taken at one instant inside the call |
| EthReceive.DecisionStable | APM32F10x_SDK_V1.8/Libraries/APM32F10x_ETH_Driver/src/apm32f10x_eth.c:981-1011 | once the polled descriptor is released, deciding at any later read gives the same result as deciding at the release |
| EthReceive.DecisionSkipped | APM32F10x_SDK_V1.8/Libraries/APM32F10x_ETH_Driver/src/apm32f10x_eth.c:981-1011 | a call that saw the descriptor owned and changed nothing is the atomic decision at that instant |
| EthReceive.PollCommutes | APM32F10x_SDK_V1.8/Libraries/APM32F10x_ETH_Driver/src/apm32f10x_eth.c:981-1011 | polling a released descriptor commutes with any DMA activity |
| EthReceive.RxDriver.ReadReceivedFrame | APM32F10x_SDK_V1.8/Libraries/APM32F10x_ETH_Driver/src/apm32f10x_eth.c:1087-1100 | the length of the current descriptor's status word less the 4 check bytes, the buffer of FS_RxDesc and FS_RxDesc itself; the read pointer moves one link |
| EthReceive.PayloadIsExact | APM32F10x_SDK_V1.8/Libraries/APM32F10x_ETH_Driver/src/apm32f10x_eth.c:1092-1093 | the length delivered is the length field less 4 if and only if the field is at least 4; below that it wraps to at least 2^32 - 4 |
| EthReceive.PayloadOf | APM32F10x_SDK_V1.8/Libraries/APM32F10x_ETH_Driver/src/apm32f10x_eth.c:1092-1093 | a status word with a length of at least 4 in bits 16 to 29, whatever its other bits, is delivered as that length less 4 |
| EthDescriptors.LengthReadsBack | APM32F10x_SDK_V1.8/Libraries/APM32F10x_ETH_Driver/src/apm32f10x_eth.c:1092-1092 | a length put into bits 16 to 29 of a status word reads back, whatever the flags are |
| EthReceive.RxDriver.ReadReceivedFrameInterrupt | APM32F10x_SDK_V1.8/Libraries/APM32F10x_ETH_Driver/src/apm32f10x_eth.c:1425-1473 | the interrupt scan, with arbitrary DMA writes before each of its up to 21 status reads, is a scan with one atomic decision per segment and so returns the same frame and leaves the same read pointer, FS_RxDesc and segCount as at most ETH_RXBUFNB polls followed by a read; it gives up only after ETH_RXBUFNB decisions or at a descriptor of the DMA; LS_RxDesc differs only while a frame is open, the buffer only if the 32-bit count wrapped to 0 |
| EthReceive.ScanRefinesPolling | APM32F10x_SDK_V1.8/Libraries/APM32F10x_ETH_Driver/src/apm32f10x_eth.c:1425-1473 | from states that agree up to LS_RxDesc, scanning and polling find the same frame and leave the same state, LS_RxDesc too once a frame is out |
| EthReceive.ScanCommutes | APM32F10x_SDK_V1.8/Libraries/APM32F10x_ETH_Driver/src/apm32f10x_eth.c:1430-1450 | the decision on a released descriptor commutes with any DMA activity |
| EthReceive.RxDriver.GiveToDma | APM32F10x_SDK_V1.8/Libraries/APM32F10x_ETH_Driver/src/apm32f10x_eth.c:1352-1355 | sets bit 31 of one descriptor's status word and changes no other bit and no other descriptor |
| EthDescriptors.ConfigRxChain | APM32F10x_SDK_V1.8/Libraries/APM32F10x_ETH_Driver/src/apm32f10x_eth.c:912-937 | the loop links the descriptors into the chain, tiles the buffer area, hands every descriptor to the DMA, sets the chained bit and sizes that read back as the stride; the read pointer and the DMA's list address are the first descriptor; the rest of the table is unchanged |
| EthDescriptors.ConfigTxChain | APM32F10x_SDK_V1.8/Libraries/APM32F10x_ETH_Driver/src/apm32f10x_eth.c:950-972 | the loop links the descriptors into the chain, tiles the buffer area and leaves every descriptor with the CPU, control words untouched; DMATxDescToSet and the DMA's list address are the first descriptor; the rest of the table is unchanged |
| EthDescriptors.ChainIsSingleCycle | APM32F10x_SDK_V1.8/Libraries/APM32F10x_ETH_Driver/src/apm32f10x_eth.c:918-932 | from any descriptor n links return to it, and every descriptor is reached after exactly one number of links below n |
| EthDescriptors.BuffersDisjoint | APM32F10x_SDK_V1.8/Libraries/APM32F10x_ETH_Driver/src/apm32f10x_eth.c:923-923 | the buffers lie inside the n*1524 byte area and are pairwise disjoint |
| EthDescriptors.RxSizesReadBack | APM32F10x_SDK_V1.8/Libraries/APM32F10x_ETH_Driver/src/apm32f10x_eth.c:1405-1415 | each size packed into a control word is read back from it, whatever the flag bits hold |
| EthTransmitRuns.FramesLeaveInOrder | APM32F10x_SDK_V1.8/Libraries/APM32F10x_ETH_Driver/src/apm32f10x_eth.c:1020-1078 | over every run of transmit calls, access by access, and DMA steps: the DMA owns exactly the arc from its cursor to the next descriptor to publish; every descriptor in flight already holds its final segment; every descriptor keeps its buffer and its settings (status bits 18 to 27 and 30); segments leave in order and reassemble to the submitted frames; between calls DMATxDescToSet follows the last segment and a suspended DMA has nothing left to send |
| EthTransmitRuns.PublishedWords | APM32F10x_SDK_V1.8/Libraries/APM32F10x_ETH_Driver/src/apm32f10x_eth.c:1039-1066 | over every such run each descriptor in flight has the size of its segment, OWN set, FS and LS set exactly as the segment requires, and the settings it had at the start |
| EthTransmitRuns.RunKeepsSettings | APM32F10x_SDK_V1.8/Libraries/APM32F10x_ETH_Driver/src/apm32f10x_eth.c:1039-1066 | also over runs that submit without room, no descriptor ever loses its buffer or its settings |
| EthTransmitRuns.DriverTouchesHandOverOnly | APM32F10x_SDK_V1.8/Libraries/APM32F10x_ETH_Driver/src/apm32f10x_eth.c:1041-1065 | no access of the driver changes a status bit other than OWN, FS and LS |
| EthTransmitRuns.RunFlagExact | APM32F10x_SDK_V1.8/Libraries/APM32F10x_ETH_Driver/src/apm32f10x_eth.c:1071-1075 | over every run that starts with TXBU clear, TXBU is set exactly while the DMA is suspended, except between its clearing and the poll demand, which is only made to a suspended DMA |
| EthTransmitRuns.EverythingIsSent | APM32F10x_SDK_V1.8/Libraries/APM32F10x_ETH_Driver/src/apm32f10x_eth.c:1020-1078 | after every such run that ends between two calls, as many DMA steps as there are segments in flight send everything, and it reassembles to exactly the frames submitted: no wake-up is lost |
| EthTransmitRuns.DmaDrains | APM32F10x_SDK_V1.8/Libraries/APM32F10x_ETH_Driver/src/apm32f10x_eth.c:1071-1075 | from every state between two calls, each of those DMA steps sends the next segment |
| EthTransmitRuns.RunInv | APM32F10x_SDK_V1.8/Libraries/APM32F10x_ETH_Driver/src/apm32f10x_eth.c:1020-1078 | the transmit invariant holds after every legal run |
| EthTransmitRuns.StepInv | APM32F10x_SDK_V1.8/Libraries/APM32F10x_ETH_Driver/src/apm32f10x_eth.c:1039-1075 | every single memory or register access of the driver, the read and the write of a compound assignment apart, and every DMA step keeps it |
| EthTransmitRuns.DriverSparesDma | APM32F10x_SDK_V1.8/Libraries/APM32F10x_ETH_Driver/src/apm32f10x_eth.c:1039-1066 | no access of the driver changes a descriptor the DMA owns |
| EthTransmitRuns.OwnedIsArc | APM32F10x_SDK_V1.8/Libraries/APM32F10x_ETH_Driver/src/apm32f10x_eth.c:1039-1069 | a descriptor has OWN set if and only if it lies on the arc in flight |
| EthTransmitRuns.RoomIsExact | APM32F10x_SDK_V1.8/Libraries/APM32F10x_ETH_Driver/src/apm32f10x_eth.c:1020-1069 | with the DMA standing still, some access of a call writes to a descriptor the DMA owns if and only if the frame needs more descriptors than are free |
| EthTransmitRuns.FrameLost | APM32F10x_SDK_V1.8/Libraries/APM32F10x_ETH_Driver/src/apm32f10x_eth.c:1020-1069 | what is lost then: on a ring of one descriptor a second call overwrites the length of a frame the DMA still owns, and only the second frame is ever sent |
| EthTransmitRuns.FrameRepeated | APM32F10x_SDK_V1.8/Libraries/APM32F10x_ETH_Driver/src/apm32f10x_eth.c:1041-1043 | what else can happen: the DMA gives the descriptor back between the read and the write of a compound assignment, the write undoes that, and the first frame is sent twice |
| EthTransmit.BusyCheckNeverFires | APM32F10x_SDK_V1.8/Libraries/APM32F10x_ETH_Driver/src/apm32f10x_eth.c:1025-1028 | the busy test compares the masked OWN bit with 1 and is false for every status word, also a busy one, so ETH_ERROR is never returned |
| EthTransmit.PreparingProgress | APM32F10x_SDK_V1.8/Libraries/APM32F10x_ETH_Driver/src/apm32f10x_eth.c:1041-1063 | each write before the OWN bit brings the descriptor one step closer to exactly the segment it is to hold |
| EthTransmit.PreparingKeeps | APM32F10x_SDK_V1.8/Libraries/APM32F10x_ETH_Driver/src/apm32f10x_eth.c:1041-1063 | no write before the OWN bit changes a status bit other than FS and LS |
| EthTransmitRuns.TxDriver.TransmitDescriptors | APM32F10x_SDK_V1.8/Libraries/APM32F10x_ETH_Driver/src/apm32f10x_eth.c:1020-1078 | the imperative call, for every 16-bit length and with arbitrary DMA steps before every access, extends the run by this frame, returns ETH_SUCCESS, ends idle and advances DMATxDescToSet by exactly the segment count; with room for the frame the run stays one that FramesLeaveInOrder covers |
| EthTransmitRuns.TxDriver.WakeDma | APM32F10x_SDK_V1.8/Libraries/APM32F10x_ETH_Driver/src/apm32f10x_eth.c:1071-1075 | the TXBU test, clear and poll demand, interleaved with the DMA, are steps of the run and end the call |
| EthSegments.SegmentationConserves | APM32F10x_SDK_V1.8/Libraries/APM32F10x_ETH_Driver/src/apm32f10x_eth.c:1030-1063 | sizes add up to the frame length, all but the last are 1524, the 13-bit mask loses nothing, FS only on the first and LS only on the last segment |
| EthSegments.SegmentCountIsCeiling | APM32F10x_SDK_V1.8/Libraries/APM32F10x_ETH_Driver/src/apm32f10x_eth.c:1032-1037 | the number of descriptors is the ceiling of length/1524, and 1 for an empty frame |
| EthSegments.ReassembleFlat | APM32F10x_SDK_V1.8/Libraries/APM32F10x_ETH_Driver/src/apm32f10x_eth.c:1030-1067 | reassembling the segments of any list of frames gives the list of lengths back |
| FlashController.RunsIdleExactly | APM32F10x_SDK_V1.8/Libraries/APM32F10x_StdPeriphDriver/src/apm32f10x_fmc.c:139-557 | over every run of all ten calls, timeouts included: no two operation bits were ever set together, every write and start followed its own clean wait with exactly the bit it needs, and all bits are clear after every call, if and only if every call meets LeavesIdle |
| FlashController.RunsStayIdle | APM32F10x_SDK_V1.8/Libraries/APM32F10x_StdPeriphDriver/src/apm32f10x_fmc.c:139-520 | over every timeout-free run of erase, program, write-protect and read-protect calls the controller is never misused in that sense and all five bits are clear after every call |
| FlashController.EraseProgramRunsStayIdle | APM32F10x_SDK_V1.8/Libraries/APM32F10x_StdPeriphDriver/src/apm32f10x_fmc.c:139-319 | over every run of erase and program calls the same holds, timeouts included |
| FlashController.CallSafe | APM32F10x_SDK_V1.8/Libraries/APM32F10x_StdPeriphDriver/src/apm32f10x_fmc.c:139-557 | each of ten calls, started idle, is safe whatever its waits return, never reports BUSY, and ends idle if and only if the outcome is one LeavesIdle names |
| FlashController.CallIssuesPlan | APM32F10x_SDK_V1.8/Libraries/APM32F10x_StdPeriphDriver/src/apm32f10x_fmc.c:139-557 | each of the ten calls issues an ordered prefix of its planned flash, option-byte and erase operations and nothing else, and reports COMPLETE only after all of them |
| FlashController.CallFollows | APM32F10x_SDK_V1.8/Libraries/APM32F10x_StdPeriphDriver/src/apm32f10x_fmc.c:139-557 | each of the ten calls returns the result of the wait after the last operation it issued, or of the first wait if it issued none; every operation came after a clean wait, and none is left out unless that wait failed |
| FlashController.CompleteMeansClean | APM32F10x_SDK_V1.8/Libraries/APM32F10x_StdPeriphDriver/src/apm32f10x_fmc.c:139-557 | so COMPLETE is returned if and only if the first wait and the wait after every planned operation were clean |
| FlashController.CallKeeps | APM32F10x_SDK_V1.8/Libraries/APM32F10x_StdPeriphDriver/src/apm32f10x_fmc.c:139-557 | all of this together, for every call started idle and every result of its waits |
| FlashController.UntidyRunMisuses | APM32F10x_SDK_V1.8/Libraries/APM32F10x_StdPeriphDriver/src/apm32f10x_fmc.c:338-358 | after a successful FMC_ProgramOptionByteData OBP stays set and a page erase then selects two operations |
| FlashController.ProgramWordExact | APM32F10x_SDK_V1.8/Libraries/APM32F10x_StdPeriphDriver/src/apm32f10x_fmc.c:246-285 | the half-word writes issued are a prefix of low half at address, high half at address+2; the second only after the first completed; COMPLETE only after both; PG clear on every exit; the halves make up the word |
| FlashController.WriteProtectionExact | APM32F10x_SDK_V1.8/Libraries/APM32F10x_StdPeriphDriver/src/apm32f10x_fmc.c:379-425 | the WRP writes issued are an ordered prefix of one write per non-zero mask byte; on COMPLETE all of them, and complementing and reassembling the bytes written gives the mask back |
| FlashController.WaitIsFirstIdlePoll | APM32F10x_SDK_V1.8/Libraries/APM32F10x_StdPeriphDriver/src/apm32f10x_fmc.c:713-766 | a wait never returns BUSY, returns TIMEOUT exactly when the first timeOut polls are all busy, and otherwise the status of the first poll that is not |
| FlashController.FlashDriver.WaitForLastOperation | APM32F10x_SDK_V1.8/Libraries/APM32F10x_StdPeriphDriver/src/apm32f10x_fmc.c:747-766 | the count-down loop computes that result and ends at the instant after its last read, with each status flag read at its own instant |
| FlashController.PerformedIs | APM32F10x_SDK_V1.8/Libraries/APM32F10x_StdPeriphDriver/src/apm32f10x_fmc.c:139-557 | a call that is its specification for the waits the hardware gives it, one after another, keeps the promises of CallSafe, CallIssuesPlan and CallFollows |
| FlashController.FlashDriver.ReadStatus | APM32F10x_SDK_V1.8/Libraries/APM32F10x_StdPeriphDriver/src/apm32f10x_fmc.c:713-735 | BUSY, programming error, write-protect error, COMPLETE in that priority, each flag read at its own instant |
| FlashController.FlashDriver.ErasePage | APM32F10x_SDK_V1.8/Libraries/APM32F10x_StdPeriphDriver/src/apm32f10x_fmc.c:139-155 | the call is its specification for the waits the hardware gives it and, started idle, keeps the promises of CallSafe, CallIssuesPlan and CallFollows |
| FlashController.FlashDriver.EraseAllPage | APM32F10x_SDK_V1.8/Libraries/APM32F10x_StdPeriphDriver/src/apm32f10x_fmc.c:167-182 | the call is its specification for the waits the hardware gives it and, started idle, keeps the promises of CallSafe, CallIssuesPlan and CallFollows |
| FlashController.FlashDriver.ProgramWord | APM32F10x_SDK_V1.8/Libraries/APM32F10x_StdPeriphDriver/src/apm32f10x_fmc.c:246-285 | the call is its specification for the waits the hardware gives it and, started idle, keeps the promises of CallSafe, CallIssuesPlan and CallFollows |
| FlashController.FlashDriver.ProgramHalfWord | APM32F10x_SDK_V1.8/Libraries/APM32F10x_StdPeriphDriver/src/apm32f10x_fmc.c:300-321 | the call is its specification for the waits the hardware gives it and, started idle, keeps the promises of CallSafe, CallIssuesPlan and CallFollows |
| FlashController.FlashDriver.EnableWriteProtection | APM32F10x_SDK_V1.8/Libraries/APM32F10x_StdPeriphDriver/src/apm32f10x_fmc.c:379-425 | the call is its specification for the waits the hardware gives it and, started idle, keeps the promises of CallSafe, CallIssuesPlan and CallFollows |
| FlashController.FlashDriver.EnableReadOutProtection | APM32F10x_SDK_V1.8/Libraries/APM32F10x_StdPeriphDriver/src/apm32f10x_fmc.c:438-473 | the call is its specification for the waits the hardware gives it and, started idle, keeps the promises of CallSafe, CallIssuesPlan and CallFollows |
| FlashController.FlashDriver.DisableReadOutProtection | APM32F10x_SDK_V1.8/Libraries/APM32F10x_StdPeriphDriver/src/apm32f10x_fmc.c:486-520 | the call is its specification for the waits the hardware gives it and, started idle, keeps the promises of CallSafe, CallIssuesPlan and CallFollows |
| FlashController.FlashDriver.EraseOptionBytes | APM32F10x_SDK_V1.8/Libraries/APM32F10x_StdPeriphDriver/src/apm32f10x_fmc.c:194-231 | the call, which clears OBP instead of OBE after a failed erase, is its specification for the waits the hardware gives it and, started idle, keeps the promises of CallSafe, CallIssuesPlan and CallFollows |
| FlashController.FlashDriver.ProgramOptionByteData | APM32F10x_SDK_V1.8/Libraries/APM32F10x_StdPeriphDriver/src/apm32f10x_fmc.c:338-358 | the call, which clears OBP only on a timeout, is its specification for the waits the hardware gives it and, started idle, keeps the promises of CallSafe, CallIssuesPlan and CallFollows |
| FlashController.FlashDriver.ConfigUserOptionByte | APM32F10x_SDK_V1.8/Libraries/APM32F10x_StdPeriphDriver/src/apm32f10x_fmc.c:533-555 | the call, which clears OBP only on a timeout, is its specification for the waits the hardware gives it and, started idle, keeps the promises of CallSafe, CallIssuesPlan and CallFollows |
| ClockTree.BusClocksFloorOnce | APM32F10x_SDK_V1.8/Libraries/APM32F10x_StdPeriphDriver/src/apm32f10x_rcm.c:796-860 | HCLK, PCLK1, PCLK2 and ADCCLK are SYSCLK divided by the product of the dividers on the way, rounded down once |
| ClockTree.OscillatorClocks | APM32F10x_SDK_V1.8/Libraries/APM32F10x_StdPeriphDriver/src/apm32f10x_rcm.c:704-783 | without the PLL SYSCLK is HSE for code 1 and HSI for codes 0 and 3 |
| ClockTree.UndividedBuses | APM32F10x_SDK_V1.8/Libraries/APM32F10x_StdPeriphDriver/src/apm32f10x_rcm.c:796-836 | AHB codes below 8 and APB codes below 4 do not divide |
| ClockTree.AdcDivides | APM32F10x_SDK_V1.8/Libraries/APM32F10x_StdPeriphDriver/src/apm32f10x_rcm.c:845-857 | the ADC clock is PCLK2 divided by 2, 4, 6 or 8 |
| ClockTree.PllMultiplies | APM32F10x_SDK_V1.8/Libraries/APM32F10x_StdPeriphDriver/src/apm32f10x_rcm.c:759-777 | on a standard device the PLL clock is HSE, HSE/2 or HSI/2 times 2 to 17, with no rounding |
| ClockTree.PllSixAndAHalf | APM32F10x_SDK_V1.8/Libraries/APM32F10x_StdPeriphDriver/src/apm32f10x_rcm.c:748-757 | on a connectivity-line device multiplier code 13 gives 6.5 times the PLL input, to half a hertz, if and only if the 32-bit product does not overflow |
| ClockTree.PllMultipliesInput | APM32F10x_SDK_V1.8/Libraries/APM32F10x_StdPeriphDriver/src/apm32f10x_rcm.c:748-757 | the other multiplier codes are exact if and only if the 32-bit product does not overflow |
| ClockTree.PllInputExact | APM32F10x_SDK_V1.8/Libraries/APM32F10x_StdPeriphDriver/src/apm32f10x_rcm.c:720-746 | the PLL input is half of HSI, or HSE divided by the first prescaler |
| ClockTree.SecondPllExact | APM32F10x_SDK_V1.8/Libraries/APM32F10x_StdPeriphDriver/src/apm32f10x_rcm.c:720-746 | or HSE divided by the second prescaler, times 2 to 16 or 20 without overflow, divided by the first prescaler, each division rounding down |
| ClockTree.ConnectivityAt72MHz | APM32F10x_SDK_V1.8/Libraries/APM32F10x_StdPeriphDriver/src/apm32f10x_rcm.c:720-757 | 25 MHz / 5 * 8 / 5 * 9 reads as 72 MHz |
| ClockTree.PllOverflows | APM32F10x_SDK_V1.8/Libraries/APM32F10x_StdPeriphDriver/src/apm32f10x_rcm.c:748-757 | register contents that overflow it: 500 MHz times 6.5 reads as 1102.5 MHz |
| ClockTree.StandardClockBound | APM32F10x_SDK_V1.8/Libraries/APM32F10x_StdPeriphDriver/src/apm32f10x_rcm.c:693-788 | on a device that is not connectivity line, no register contents give a SYSCLK above 136 MHz |
| ClockTree.RcmUnit.ConfigAHB | APM32F10x_SDK_V1.8/Libraries/APM32F10x_StdPeriphDriver/src/apm32f10x_rcm.c:502-505 | each enumerated AHB divider reads back as HCLK = SYSCLK / divider, rounded down, and changes no other field |
| ClockTree.RcmUnit.ConfigAPB1 | APM32F10x_SDK_V1.8/Libraries/APM32F10x_StdPeriphDriver/src/apm32f10x_rcm.c:520-523 | each enumerated APB divider reads back as PCLK1 = HCLK / divider, rounded down, and changes no other field |
| ClockTree.RcmUnit.ConfigAPB2 | APM32F10x_SDK_V1.8/Libraries/APM32F10x_StdPeriphDriver/src/apm32f10x_rcm.c:538-541 | each enumerated APB divider reads back as PCLK2 = HCLK / divider, rounded down, and changes no other field |
| UsartBaud.DividerRounds | APM32F10x_SDK_V1.8/Libraries/APM32F10x_StdPeriphDriver/src/apm32f10x_usart.c:121-124 | BR is 16*intDiv/100 rounded to nearest if and only if intDiv mod 100 is at most 96; for 97 to 99 it is exactly 16 too small |
| UsartBaud.BaudIsExact | APM32F10x_SDK_V1.8/Libraries/APM32F10x_StdPeriphDriver/src/apm32f10x_usart.c:121-126 | for every baud rate up to 148 102 320: -0.66 < BR - fCLK/baud <= 0.5 if and only if 25*fCLK does not overflow and intDiv mod 100 is at most 96 |
| UsartBaud.BaudWithoutOverflow | APM32F10x_SDK_V1.8/Libraries/APM32F10x_StdPeriphDriver/src/apm32f10x_usart.c:121-126 | for every baud rate below 2^30 and a product that does not overflow, BR is within that bound if and only if intDiv mod 100 is at most 96 |
| UsartBaud.LargeBaudIsExact | APM32F10x_SDK_V1.8/Libraries/APM32F10x_StdPeriphDriver/src/apm32f10x_usart.c:121-126 | between 148 102 320 and 2^30, for every clock: BR is 0 or 1 by the wrapped product, and is within the bound exactly when fCLK is below 0.66 baud, or from 0.5 to below 1.66 baud |
| UsartBaud.HugeBaudIsExact | APM32F10x_SDK_V1.8/Libraries/APM32F10x_StdPeriphDriver/src/apm32f10x_usart.c:121-126 | from 2^30 on, where 4*baudRate wraps to w, and for a product that does not overflow: BR is within the bound if and only if 25*fCLK is below 4w or from 97w to below 100w |
| UsartBaud.WrappedBaudIsExact | APM32F10x_SDK_V1.8/Libraries/APM32F10x_StdPeriphDriver/src/apm32f10x_usart.c:121-126 | from 2^30 on and for every 32-bit clock, both products wrapping: BR is within the bound if and only if the wrapped dividend and divisor give one of the values 0 to 4 that are |
| UsartBaud.OverflowReached | APM32F10x_SDK_V1.8/Libraries/APM32F10x_StdPeriphDriver/src/apm32f10x_usart.c:112-126 | connectivity-line registers that reach the overflow: PCLK2 is 400 MHz and BR is outside the bound for every baud rate up to 148 102 320 |
| UsartBaud.OverflowHidden | APM32F10x_SDK_V1.8/Libraries/APM32F10x_StdPeriphDriver/src/apm32f10x_usart.c:112-126 | why the range ends: at those registers and 2^30 - 1 baud the product overflows and BR, 0, is within the bound |
| UsartBaud.StandardBaudExact | APM32F10x_SDK_V1.8/Libraries/APM32F10x_StdPeriphDriver/src/apm32f10x_usart.c:112-126 | for every clock-tree register contents of a standard device the product does not overflow, so BR is within the bound if and only if intDiv mod 100 is at most 96 for baud rates below 2^30, and exactly in the cases of HugeBaudIsExact above |
| UsartBaud.CarryLost | APM32F10x_SDK_V1.8/Libraries/APM32F10x_StdPeriphDriver/src/apm32f10x_usart.c:121-124 | the lost carry happens: 8 MHz and 515463 baud give a divider of 0 |
| UsartBaud.Usart.Config | APM32F10x_SDK_V1.8/Libraries/APM32F10x_StdPeriphDriver/src/apm32f10x_usart.c:91-127 | the step-by-step register updates leave in BR the divider for the USART's own bus, SYSCLK divided by the AHB and the APB2 divider for USART1 and by the AHB and the APB1 divider for the others, within the bound exactly when no carry is lost; in CTRL1 to CTRL3 mode, parity, word length, stop bits and flow control read back and every other bit of the low half survives |
| UsartBaud.RightForBus | APM32F10x_SDK_V1.8/Libraries/APM32F10x_StdPeriphDriver/src/apm32f10x_usart.c:112-126 | that clock is the only one the rounding admits, for every register contents of both families |
| UsartBaud.BusesDiffer | APM32F10x_SDK_V1.8/Libraries/APM32F10x_StdPeriphDriver/src/apm32f10x_usart.c:112-126 | with 72 MHz on APB2 and 36 MHz on APB1, 115200 baud gives 625 on USART1 and 312 on the others |
| I2sClock.DividerIsNearest | APM32F10x_SDK_V1.8/Libraries/APM32F10x_StdPeriphDriver/src/apm32f10x_spi.c:120-141 | the divider is that of a ratio n with 2*|n*fs - A| <= fs, or the fallback (2, 0) when n is out of range, if and only if the value fits 16 bits or truncates to the fallback; it is always in 2..255 |
| I2sClock.RoundsToNearest | APM32F10x_SDK_V1.8/Libraries/APM32F10x_StdPeriphDriver/src/apm32f10x_spi.c:124-132 | the tenfold-plus-five computation rounds A/fs to the nearest integer |
| I2sClock.OfferedRatesFit | APM32F10x_SDK_V1.8/Libraries/APM32F10x_StdPeriphDriver/src/apm32f10x_spi.c:118-132 | for every clock-tree register contents of a standard device and every enumerated audio rate the 16-bit truncation loses nothing |
| I2sClock.StandardDividerTuned | APM32F10x_SDK_V1.8/Libraries/APM32F10x_StdPeriphDriver/src/apm32f10x_spi.c:101-141 | for those registers and rates the divider I2S_Config selects is the nearest one, or the fallback when that is out of range |
| I2sClock.StandardRateRight | APM32F10x_SDK_V1.8/Libraries/APM32F10x_StdPeriphDriver/src/apm32f10x_spi.c:101-141 | so n * fs * 256 with a master clock, n * fs * 32 for 16-bit data and n * fs * 64 for longer data is SYSCLK to half a step, where n is twice the divider plus the odd bit |
| I2sClock.TruncationMisleads | APM32F10x_SDK_V1.8/Libraries/APM32F10x_StdPeriphDriver/src/apm32f10x_spi.c:118-138 | on a connectivity-line device it does harm: with SYSCLK at 1750 MHz, 8 kHz in 16 bits needs the out-of-range ratio 6836 and 282 is written instead of the fallback |
| I2sClock.I2s.Config | APM32F10x_SDK_V1.8/Libraries/APM32F10x_StdPeriphDriver/src/apm32f10x_spi.c:96-155 | the step-by-step register writes leave that divider and the master-clock bit in I2SPSC, (2, 0) for the default setting, and the selected mode with MODESEL in I2SCFG; on a standard device the rate is right in that sense for every enumerated one |
| AdcSequencer.RunsRefineMaps | APM32F10x_SDK_V1.8/Libraries/APM32F10x_StdPeriphDriver/src/apm32f10x_adc.c:370-421 | over every run of in-range configuration calls the six registers decode to maps rank to channel, channel to sample time, slot to channel and two lengths, where each call updates only its own keys; all 32 bits of INJSEQ are covered, and injected ranks beyond the length too |
| AdcSequencer.CallRefinesMaps | APM32F10x_SDK_V1.8/Libraries/APM32F10x_StdPeriphDriver/src/apm32f10x_adc.c:370-421 | one call on the packed registers is one update of those maps |
| AdcSequencer.InjectedStep | APM32F10x_SDK_V1.8/Libraries/APM32F10x_StdPeriphDriver/src/apm32f10x_adc.c:686-717 | injected rank r of a group of length L lands in slot r+3-L for every r from 1 to 4; the other slots are unchanged, and the length is unless that is slot 4, which holds it |
| AdcSequencer.RankWithinLength | APM32F10x_SDK_V1.8/Libraries/APM32F10x_StdPeriphDriver/src/apm32f10x_adc.c:686-717 | within the length the channel lands in its slot, beyond it none of the four channel slots changes; the length survives if and only if the rank is not the next one beyond it or the channel's low bits equal the field |
| AdcSequencer.SlotOrder | APM32F10x_SDK_V1.8/Libraries/APM32F10x_StdPeriphDriver/src/apm32f10x_adc.c:709-712 | rank r of a group of length L uses slot r+3-L: consecutive ranks, consecutive slots, the last one slot 3 |
| AdcSequencer.RegisterExamples | APM32F10x_SDK_V1.8/Libraries/APM32F10x_StdPeriphDriver/src/apm32f10x_adc.c:370-421 | where the fields are: the register values that single calls leave on cleared registers |
| AdcSequencer.LengthOverwritten | APM32F10x_SDK_V1.8/Libraries/APM32F10x_StdPeriphDriver/src/apm32f10x_adc.c:709-716 | such a rank: with a length of 1, rank 2 for channel 1 makes the length 2 |
| AdcSequencer.SetRankExact | APM32F10x_SDK_V1.8/Libraries/APM32F10x_StdPeriphDriver/src/apm32f10x_adc.c:393-420 | a regular-channel write changes exactly its own rank among all sixteen |
| AdcSequencer.SetTimeExact | APM32F10x_SDK_V1.8/Libraries/APM32F10x_StdPeriphDriver/src/apm32f10x_adc.c:374-391 | a sample-time write changes exactly its own channel among all eighteen |
| AdcSequencer.LengthStep | APM32F10x_SDK_V1.8/Libraries/APM32F10x_StdPeriphDriver/src/apm32f10x_adc.c:98-101 | setting the regular length changes no rank |
| AdcSequencer.Adc.RegularChannel | APM32F10x_SDK_V1.8/Libraries/APM32F10x_StdPeriphDriver/src/apm32f10x_adc.c:370-421 | the masked read-modify-writes are that call |
| AdcSequencer.Adc.InjectedChannel | APM32F10x_SDK_V1.8/Libraries/APM32F10x_StdPeriphDriver/src/apm32f10x_adc.c:686-717 | the masked read-modify-writes are that call |
| AdcSequencer.Adc.InjectedSequencerLength | APM32F10x_SDK_V1.8/Libraries/APM32F10x_StdPeriphDriver/src/apm32f10x_adc.c:730-734 | clearing and or-ing the length field is that call |
| CanMailbox.RoundTrip | APM32F10x_SDK_V1.8/Libraries/APM32F10x_StdPeriphDriver/src/apm32f10x_can.c:419-444 | decoding the words CAN_TxMessage writes recovers type, identifier, four-bit length code and all eight bytes; a remote flag of 2 reads back as 1 |
| CanMailbox.EmptyMailbox | APM32F10x_SDK_V1.8/Libraries/APM32F10x_StdPeriphDriver/src/apm32f10x_can.c:399-415 | the selected mailbox is flagged empty when it is tested, no lower-numbered one is when it is tested, and 3 means none is, with a separate read of TXSTS for each test |
| CanMailbox.SelectsEmpty | APM32F10x_SDK_V1.8/Libraries/APM32F10x_StdPeriphDriver/src/apm32f10x_can.c:399-415 | if the hardware only empties mailboxes meanwhile, no mailbox empty at the start is passed over and the selected one is still empty at the end |
| CanMailbox.Can.TxMessage | APM32F10x_SDK_V1.8/Libraries/APM32F10x_StdPeriphDriver/src/apm32f10x_can.c:395-447 | only that mailbox is written, with the encoded message and the transmission request in bit 0; the upper bits of the length word survive; with none empty the result is 3 and nothing changes; the caller's length code is masked |
| CanMailbox.EncodeCarries | APM32F10x_SDK_V1.8/Libraries/APM32F10x_StdPeriphDriver/src/apm32f10x_can.c:417-444 | bit by bit: request, remote flag, type, identifier, length code and the eight bytes are in their places, every other bit of the length word is as before |
| CanMailbox.AlwaysRequested | APM32F10x_SDK_V1.8/Libraries/APM32F10x_StdPeriphDriver/src/apm32f10x_can.c:428-444 | for every message, also one out of range, transmission is requested and the length word keeps its upper bits |
| CanMailbox.FilterIndexReadBack | APM32F10x_SDK_V1.8/Libraries/APM32F10x_StdPeriphDriver/src/apm32f10x_can.c:573-573 | the filter match index is bits 8 to 15 of the received length word |
| CanMailbox.Can.RxMessage | APM32F10x_SDK_V1.8/Libraries/APM32F10x_StdPeriphDriver/src/apm32f10x_can.c:558-592 | the FIFO words are decoded, only the identifier of the received kind is replaced, and that FIFO is released |
| GpioConfig.Gpio.Config | APM32F10x_SDK_V1.8/Libraries/APM32F10x_StdPeriphDriver/src/apm32f10x_gpio.c:110-176 | for every pin mask and prior state, exactly the selected pins' nibbles hold the mode, all others are unchanged, and exactly the selected pins are pulled |
| GpioConfig.Gpio.ConfigHalf | APM32F10x_SDK_V1.8/Libraries/APM32F10x_StdPeriphDriver/src/apm32f10x_gpio.c:125-148 | one loop over eight pins does that for its register |
| GpioConfig.ModeNibble | APM32F10x_SDK_V1.8/Libraries/APM32F10x_StdPeriphDriver/src/apm32f10x_gpio.c:118-123 | an output nibble has the speed in its low two bits and the kind of output in its high two; an input nibble is the low four bits of the mode |
| GpioConfig.PullsMean | APM32F10x_SDK_V1.8/Libraries/APM32F10x_StdPeriphDriver/src/apm32f10x_gpio.c:137-145 | a selected pin ends low for pull-down and high for pull-up, and every other pin as it was |
| GpioConfig.OutputExample | APM32F10x_SDK_V1.8/Libraries/APM32F10x_StdPeriphDriver/src/apm32f10x_gpio.c:110-148 | pin 1 as a push-pull output at 50 MHz leaves CFGLOW 0x30 |
| GpioConfig.InputExample | APM32F10x_SDK_V1.8/Libraries/APM32F10x_StdPeriphDriver/src/apm32f10x_gpio.c:150-176 | pin 15 as a pulled-up input leaves CFGHIG 0x8000_0000 and the pin high |
| GpioConfig.DisjointConfigsCommute | APM32F10x_SDK_V1.8/Libraries/APM32F10x_StdPeriphDriver/src/apm32f10x_gpio.c:110-176 | two configurations with disjoint pin masks commute |
| BitReverse.ReverseBits | APM32F10x_SDK_V1.8/Libraries/CMSIS/Include/cmsis_armcc.h:545-559 | the early-exit loop terminates and bit i of the result is bit 31-i of the argument, although it starts from the unreversed value |
| BitReverse.MirrorTwice | APM32F10x_SDK_V1.8/Libraries/CMSIS/Include/cmsis_armcc.h:545-559 | reversing twice is the identity |

## Left out

- Frame contents: the bytes in the buffers are copied by the caller and are not modelled; a frame is its length, first buffer, first descriptor and segments.
- Liveness: that the DMA takes its steps and that the caller recycles; EverythingIsSent says how many steps it takes.
- EthReceive.RxDriver.ReadReceivedFrame: a read through a null FS_RxDesc yields buffer 0 in the model; FramesExactlyOnceInOrder shows it does not occur in a run.
- UsartBaud.Usart.Config: leaves out the baud rates 0 and multiples of 2^30, for which the source divides by zero; the width of BR itself is not modelled.
- I2sClock.I2s.Config: leaves out an audio rate of 0, for which the source divides by zero and which is not enumerated.
- GpioConfig.Gpio.Config: the speed is one of the enumerated values (at most 3), so the mode fits its nibble.
- CanMailbox.RoundTrip: the filter match index is set by the receiving hardware and is not part of the round trip.
- ClockTree.RcmUnit.ConfigAHB: the PLL and oscillator setters and the ready flags are not modelled.
- FMC interrupts, PRIMASK handling, latency and prefetch settings, and the physical behaviour of the flash array.
- Ethernet initialisation, PHY access, MAC filters, MMC, PMT and PTP functions, and the single-register setters of all peripherals: they would only add easy members.
- The example application, the board files, FatFs, lwIP and the USB device library.
