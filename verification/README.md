# Linux driver models in Dafny

A Dafny 4.11 model of the parts of this repository's drivers that hold real state: the RTL8139
transmit and receive rings, the blocking poll device under any number of threads, the virtual
block device, the RTL8150 USB driver and the mmap driver.  `dafny verify dfyconfig.toml` checks
the whole project.

Each driver appears twice.  A class (or a method with a loop) updates fields, arrays and registers
in place as the C code does, and its contract ties the new state to a step function on values.
The same step functions drive a state machine over driver, hardware and other threads, and the
main theorems hold for every run of that machine.

| file | contents |
|---|---|
| `Bytes.dfy` | bytes and buffer copies |
| `Rtl8139Defs.dfy` | constants and register bits of the RTL8139 |
| `TxRing.dfy`, `RxRing.dfy` | the two rings of the RTL8139 as state machines with the network card |
| `RxLandings.dfy` | what follows a record that ends exactly at the end of the receive ring |
| `Rtl8139Driver.dfy` | the RTL8139 driver in place: entry points, loops and interrupt handler |
| `PollRing.dfy`, `PollDevice.dfy` | the byte ring of the poll device, on values and in place |
| `PollThreads.dfy` | every interleaving of readers, writers, opens and signals |
| `PollReadiness.dfy` | what poll promises in every run |
| `PollSchedules.dfy`, `PollEmptyCalls.dfy`, `PollNonblocking.dfy` | the runs that show where its promise ends, with the exact conditions for falling asleep, for returning 0, and for a non-blocking call to sleep |
| `BlockDevice.dfy` | requests of the virtual block device |
| `UsbDriver.dfy` | callbacks of the RTL8150 driver and its buffer ledger |
| `MmapPages.dfy` | page alignment, reserved pages and the mapping loops |

## Choices

- Transmit: the card finishes packets in any order, keeps the size bits of a status word and sets
  at least one final status bit.  The network stack makes one transmit call at a time and only
  while the queue runs.  The interrupt handler is one atomic step, and single turns of its loop are
  steps too, so completions between turns are covered.
- Receive: the card stores a record whole, never over unread data, and never so that a full ring
  looks empty; it sees only the 16-bit read pointer that the driver writes.  Frames may arrive
  between any two turns of the driver's loop.  Buffer allocation may fail at any turn.
- Masks with the low bits set, or cleared, and tests of one bit are written with `%` and `/` on
  unsigned numbers; the interrupt status, the USB status bytes and the link bit are bit vectors.
- Poll device: a step is one lock-free test, one index advance, one index wrap, one semaphore
  operation or one wake-up.  Joining the wait queue, testing and falling asleep are separate steps,
  and a thread woken in between goes back to its test, as `wait_event_interruptible` arranges.  The
  driver discards the result of that wait (`poll.c:111`, `poll.c:170`), so a signal sends a waiting
  call on to the semaphore; it ends a call only while the semaphore is taken.
- The receive loop of the RTL8139 can go on for ever (`RxLandings.EndlessLoopHappens`), so it is
  given a number of turns; what it does in them is modelled on every ring.
- USB: extending a packet buffer takes its count as an unsigned number of 32 bits, and buffer
  offsets of that width wrap with it, so a negative count stops nothing: the packet goes up with
  an impossible length and the driver goes on.
- Where the drivers fail, the exact condition is a theorem: a record that ends exactly at the end
  of the receive ring (`pci.c:641` tests with `>`); the full test that sees a full ring only when the
  oldest byte is at index 0 (`poll.c:40-53`; the device's README describes it as a test of the
  distance alone); when a call on the poll device, told that it is ready or not, can fall asleep,
  when a blocking call in either
  direction can return 0, and when a call made with O_NONBLOCK can sleep after all (the flag is
  looked at once, `poll.c:85-88`); a received transfer shorter than its
  checksum (`usb.c:290`).

## Model

| member | source | states |
|---|---|---|
| Rtl8139Defs.DecodeWord | PCI_and_PCIE/PCI-PROJECT/Phase-II/rtl8139.h:44-51 | size, status bits and collision count are read back from a word of any such parts, whatever its other bits: the host's ownership, the early threshold and the heartbeat |
| Rtl8139Defs.WordOfDecoded | PCI_and_PCIE/PCI-PROJECT/Phase-II/rtl8139.h:44-51 | every word is made of the parts read from it and those other bits, so reading is settled for every word |
| Rtl8139Defs.RequestsExactly | PCI_and_PCIE/PCI-PROJECT/Phase-II/pci.c:499-513 | for which interrupt status words the transmit part, the receive error count and the receive part run |
| Rtl8139Defs.BareSizeIsClean | PCI_and_PCIE/PCI-PROJECT/Phase-II/pci.c:998-1000 | writing a size below 0x2000 clears every status bit, and the 0x1fff mask recovers it |
| TxRing.FillSlotPads | PCI_and_PCIE/PCI-PROJECT/Phase-II/pci.c:965-975 | after the copy the slot holds exactly the packet, zero-padded to 60 bytes, and the rest of the slot is as before |
| TxRing.SlotsAreDisjoint | PCI_and_PCIE/PCI-PROJECT/Phase-II/pci.c:843-844 | the four slots tile the DMA buffer: writing into one changes that one and no other |
| TxRing.ReapShrinks | PCI_and_PCIE/PCI-PROJECT/Phase-II/pci.c:547-605 | the handler's loop terminates from any driver state: the count read off the indices and the flag drops by one each turn |
| TxRing.ApplyKeeps | PCI_and_PCIE/PCI-PROJECT/Phase-II/pci.c:547-605 | every step of driver, card and handler keeps indices, buffers, history and counters consistent |
| TxRing.EqualIndicesAmbiguity | PCI_and_PCIE/PCI-PROJECT/Phase-II/pci.c:1005-1017 | in every run at most four packets are in flight; equal indices mean full exactly when the queue is stopped and empty exactly when not; a stopped queue has a packet in flight, and the queue is stopped exactly from a full ring to the next empty one |
| TxRing.NextDescriptorIsFree | PCI_and_PCIE/PCI-PROJECT/Phase-II/pci.c:963-1005 | no packet is copied to or launched into a descriptor in use |
| TxRing.FramesAreStable | PCI_and_PCIE/PCI-PROJECT/Phase-II/pci.c:963-1005 | from launch to retirement the slot holds the padded packet; what the card reads for packet i is that frame; packets retire in launch order |
| TxRing.CallsAreConserved | PCI_and_PCIE/PCI-PROJECT/Phase-II/pci.c:554-594 | exactly the packets of 1536 bytes or more are dropped and the others are launched in the order offered; calls = dropped + sent + failed + in flight + awaiting launch; tx_bytes is the sum of padded lengths of sent packets; each error counter counts exactly its packets |
| TxRing.DrainRetiresLongestPrefix | PCI_and_PCIE/PCI-PROJECT/Phase-II/pci.c:547-605 | one interrupt retires exactly the longest finished prefix of the packets in flight, oldest first, with the status each had |
| TxRing.DrainRetiresFinished | PCI_and_PCIE/PCI-PROJECT/Phase-II/pci.c:547-605 | in every run the loop retires, in order, the packets that the card is done with, up to the first that it is not |
| TxRing.AllDoneDrainsAll | PCI_and_PCIE/PCI-PROJECT/Phase-II/pci.c:513-604 | if the card is done with everything in flight, one interrupt with the sent or the failed bit empties the ring and wakes the queue |
| TxRing.OtherInterruptsPass | PCI_and_PCIE/PCI-PROJECT/Phase-II/pci.c:499-513 | any other interrupt leaves the transmit side as it is |
| TxRing.DrainCountsCollisions | PCI_and_PCIE/PCI-PROJECT/Phase-II/pci.c:555-561 | the collision counter grows by the collisions of the packets retired and once more by those of the unfinished packet that the loop stops at |
| TxRing.DrainMatches | PCI_and_PCIE/PCI-PROJECT/Phase-II/pci.c:547-605 | the system's loop and the driver's own loop agree on all driver state |
| RxRing.ReadBack | PCI_and_PCIE/PCI-PROJECT/Phase-II/pci.c:653-654 | status, size and frame of a stored record are read back from its header |
| RxRing.UnreadIsElsewhere | PCI_and_PCIE/PCI-PROJECT/Phase-II/rtl8139.h:23-28 | a record that fits shares no byte with an unread one, including bytes behind the end of the ring |
| RxRing.CaprRoundTrip | PCI_and_PCIE/PCI-PROJECT/Phase-II/pci.c:733-734 | the biased 16-bit read pointer gives the card the driver's position modulo the ring size, whatever that position |
| RxRing.EmptyMeansAllRead | PCI_and_PCIE/PCI-PROJECT/Phase-II/pci.c:633 | the card reports an empty buffer exactly when every stored record has been read |
| RxRing.FetchesRightHeader | PCI_and_PCIE/PCI-PROJECT/Phase-II/pci.c:640-642 | the driver reads the next header where the card put it if and only if its pointer is not exactly the ring size |
| RxRing.TurnReadsRecord | PCI_and_PCIE/PCI-PROJECT/Phase-II/pci.c:653-734 | a turn in step hands up exactly the frame without checksum, or drops it, and moves past the record |
| RxRing.FaithfulUnlessLanding | PCI_and_PCIE/PCI-PROJECT/Phase-II/pci.c:633-734 | over every run the packets handed up or dropped are the card's frames, in order and read where the card put them, if and only if no turn started after a record that ended exactly at the end of the ring |
| RxRing.NoLandingIsSafe | PCI_and_PCIE/PCI-PROJECT/Phase-II/pci.c:633-734 | without such a record no run attempts a wild copy and the driver stays in step |
| RxRing.LandingIsMultiple | PCI_and_PCIE/PCI-PROJECT/Phase-II/pci.c:731 | such a landing is a total of aligned record sizes divisible by the ring size |
| RxRing.PointersAgree | PCI_and_PCIE/PCI-PROJECT/Phase-II/pci.c:641-734 | in every run, landings included, positions and header addresses are multiples of four, headers are read no higher than the ring size, the card's register gives the driver's position, and the card stands at the sum of the records stored; while no landing was missed the driver stands at the sum of those read |
| RxRing.CopyStaysInside | PCI_and_PCIE/PCI-PROJECT/Phase-II/pci.c:692 | a size in 4..2064 keeps the copy inside the buffer wherever the driver stands; the copy leaves it exactly for sizes out of range |
| RxLandings.FirstLandingIsFatal | PCI_and_PCIE/PCI-PROJECT/Phase-II/pci.c:640-692 | for every run on a zeroed buffer that lands exactly before any record ran over, the next turn takes a zero header and attempts a wild copy |
| RxLandings.LandingHappens | PCI_and_PCIE/PCI-PROJECT/Phase-II/pci.c:640-692 | any seventeen frames of 2040 bytes, each read as it arrives, get there |
| RxLandings.LoopNeverEnds | PCI_and_PCIE/PCI-PROJECT/Phase-II/pci.c:633-735 | on a ring whose words at addresses 4 modulo 8 read like empty records, a driver at such an address with the card at a multiple of eight makes any number of turns without finding the ring empty, whatever allocations do |
| RxLandings.EndlessLoopHappens | PCI_and_PCIE/PCI-PROJECT/Phase-II/pci.c:633-735 | a run of well-formed frames with one failed allocation at the landing leads to a handler that never returns |
| Rtl8139Driver.Driver.constructor | PCI_and_PCIE/PCI-PROJECT/Phase-II/pci.c:835-853 | opening establishes the start states of both rings |
| Rtl8139Driver.Driver.CopyPacket | PCI_and_PCIE/PCI-PROJECT/Phase-II/pci.c:958-986 | in place: the packet fills its slot of the DMA buffer or is counted as dropped |
| Rtl8139Driver.Driver.LaunchPacket | PCI_and_PCIE/PCI-PROJECT/Phase-II/pci.c:999-1017 | in place: the bare padded length is written to the status register, and index and queue flag change as in the launch step |
| Rtl8139Driver.Driver.DrainTx | PCI_and_PCIE/PCI-PROJECT/Phase-II/pci.c:547-605 | the loop terminates and leaves the state that retiring the finished prefix leaves |
| Rtl8139Driver.Driver.ReceiveOne | PCI_and_PCIE/PCI-PROJECT/Phase-II/pci.c:640-734 | one turn on any ring contents: packet, counters and pointers, or a report that the copy would leave the ring |
| Rtl8139Driver.Driver.DrainRx | PCI_and_PCIE/PCI-PROJECT/Phase-II/pci.c:633-735 | the loop in place makes exactly the turns of `RxRing.Loop` on any ring, stopping when the ring is empty or a copy would leave it |
| RxRing.LoopIsRun | PCI_and_PCIE/PCI-PROJECT/Phase-II/pci.c:633-735 | in any state the driver's loop is a run of so many turns: same verdicts, same registers, a wild copy exactly when the run crashes |
| RxRing.HandlerDrains | PCI_and_PCIE/PCI-PROJECT/Phase-II/pci.c:624-735 | in step with no exact landing among the unread records the handler's loop ends by itself, having handed up or dropped each unread frame in order |
| RxRing.HandlerExactly | PCI_and_PCIE/PCI-PROJECT/Phase-II/pci.c:620-735 | one receive error is counted exactly for the error bit and the loop runs exactly for the receive bit |
| Rtl8139Driver.Driver.Interrupt | PCI_and_PCIE/PCI-PROJECT/Phase-II/pci.c:497-753 | in any state: the transmit loop runs exactly for the sent or the failed bit, one receive error is counted exactly for the error bit, the receive loop runs exactly for the receive bit, and nothing happens for a status of all ones |
| PollRing.IsFullExactly | Ground-Work/Assignment1/poll.c:40-53 | the full test never reports a ring with room, sees a full ring only with its oldest byte at index 0, and its second branch never holds |
| PollRing.IsEmptyExactly | Ground-Work/Assignment1/poll.c:32-38 | the empty test is never wrong when it says empty, and exact when no index is on the move |
| PollRing.ReadTurn | Ground-Work/Assignment1/poll.c:116-122 | a turn of the read loop takes the oldest byte off, wrap included |
| PollRing.WriteTurn | Ground-Work/Assignment1/poll.c:178-185 | a turn of the write loop puts the byte last and leaves the writer's limit valid |
| PollRing.LimitMeansFull | Ground-Work/Assignment1/poll.c:175-181 | the write index meets the limit exactly when no room is left |
| PollDevice.Device.Poll | Ground-Work/Assignment1/poll.c:55-78 | at rest readable means a byte is stored; not writable means full with the oldest byte at index 0 |
| PollDevice.Device.Read | Ground-Work/Assignment1/poll.c:113-127 | the loop returns exactly the oldest min(len, count) bytes and keeps the rest |
| PollDevice.Device.Write | Ground-Work/Assignment1/poll.c:175-190 | the loop stores exactly the first min(len, room) bytes behind those there |
| PollDevice.Device.Open | Ground-Work/Assignment1/poll.c:198-212 | the ring is emptied exactly on an open that finds the use count zero |
| PollThreads.TestsAreSound | Ground-Work/Assignment1/poll.c:111-170 | a lock-free test that blocks a caller is right even while an index stands at N |
| PollThreads.ApplyKeeps | Ground-Work/Assignment1/poll.c:80-224 | every step of every thread keeps mutual exclusion, order, wake-ups, handles and transfers |
| PollThreads.BytesInOrder | Ground-Work/Assignment1/poll.c:113-190 | in every run, bytes taken from writers = bytes given to readers followed by the ring's contents |
| PollThreads.OneInside | Ground-Work/Assignment1/poll.c:113-127 | one thread at most is in a copy loop, and an index stands at N only between its advance and its wrap |
| PollThreads.NoLostWakeup | Ground-Work/Assignment1/poll.c:111-193 | a sleeping reader means an empty ring or a writer that still owes its wake-up; a sleeping writer a full ring or such a reader |
| PollThreads.NoDeadlock | Ground-Work/Assignment1/poll.c:111-193 | in every reachable state a reader and a writer both asleep mean a thread that can move and owes one of them a wake-up; when no thread can move they are not both asleep, and the ring is empty or full accordingly |
| PollThreads.WakesExactly | Ground-Work/Assignment1/poll.c:133-135 | a call that moved a byte wakes exactly the sleepers of the other direction; one that moved none wakes nobody |
| PollThreads.WokenTestsAgain | Ground-Work/Assignment1/poll.c:111-135 | a thread woken after it queued does not fall asleep on that test |
| PollThreads.SignalsEndWait | Ground-Work/Assignment1/poll.c:111-114 | with the semaphore taken, two signals take a call from the wait queue out of the driver, and one takes it from the semaphore |
| PollThreads.TransferIsExact | Ground-Work/Assignment1/poll.c:116-195 | a call moves min(len, what was there at the semaphore) bytes, consecutive in the stream and equal to the reader's buffer or the start of the writer's data |
| PollThreads.ResetIsSafe | Ground-Work/Assignment1/poll.c:198-224 | the use count is the number of open handles, so the ring is emptied only while every thread is outside the driver |
| PollThreads.OpenEmptiesExactly | Ground-Work/Assignment1/poll.c:198-207 | an open empties the ring exactly if no handle was open, and otherwise leaves ring and streams alone |
| PollReadiness.PollKeepsItsWord | Ground-Work/Assignment1/poll.c:55-195 | the only caller in a direction that poll reported never sleeps on its next call; a reader gets a byte, and a writer does if there is room or a reader in its loop about to make some |
| PollReadiness.SoleCallMovesByte | Ground-Work/Assignment1/poll.c:111-195 | the only caller in a direction gets a byte if there is something to move or sure to come, or if its test shuts it out for now and no signal reaches it |
| PollSchedules.PollKeepsItsWordExactly | Ground-Work/Assignment1/poll.c:55-195 | from every reachable state, some run takes a thread to sleep if and only if poll does not report its direction, or another thread can call in its direction and, for a writer whose rivals only write, the oldest byte is at index 0 or 1 with room left |
| PollEmptyCalls.ComesBackEmptyExactly | Ground-Work/Assignment1/poll.c:111-195 | from every reachable state and in both directions, some run lets a blocking call of at least one byte return 0 if and only if: with a rival, a signal, its test, a thread of the other direction, or the passing of a full moment at index 1 lets it go on; without one, nothing is there to move or sure to come and its test or a signal lets it go on all the same |
| PollEmptyCalls.ToldCallComesBackEmptyExactly | Ground-Work/Assignment1/poll.c:62-195 | a call told that the device is ready can return 0 if and only if another thread calls in its direction or nothing is there to move or sure to come, which for a reader means another reader |
| PollEmptyCalls.WriteOnFullRing | Ground-Work/Assignment1/poll.c:170-195 | a blocking write left alone on a full ring falls asleep if the oldest byte is at index 0 and otherwise returns 0 |
| PollEmptyCalls.FullUnseen | Ground-Work/Assignment1/poll.c:40-53 | full rings with the oldest byte at any index are reached, and the full test sees only the one at index 0 |
| PollNonblocking.NonblockingCallAlone | Ground-Work/Assignment1/poll.c:85-88 | a non-blocking call left alone never sleeps; if its direction is shut it leaves at once with nothing changed, and otherwise it goes on |
| PollNonblocking.NonblockingSleepsExactly | Ground-Work/Assignment1/poll.c:85-111 | from every reachable state, some run takes a thread that makes only non-blocking calls to sleep if and only if rivals can shut the ring behind its first test, and that test finds it open or another thread can open it |
| BlockDevice.WriteIsFlat | Basic-Tutorials/virtual_block_dev/v5/main.c:81-104 | a write is one overwrite with the joined segments cut off at the device's end; nothing else changes |
| BlockDevice.ReadIsFlat | Basic-Tutorials/virtual_block_dev/v5/main.c:81-104 | a read fills the joined segments with the device's bytes and leaves what is cut off |
| BlockDevice.RoundTrip | Basic-Tutorials/virtual_block_dev/v5/main.c:81-104 | reading a range back through any other segmentation returns the bytes written |
| BlockDevice.ShortCountExactly | Basic-Tutorials/virtual_block_dev/v5/main.c:88-103 | the byte count is the request cut off at the device's end; it falls short exactly for requests past the end |
| BlockDevice.Device.DoRequest | Basic-Tutorials/virtual_block_dev/v5/main.c:69-107 | the loop over page arrays in place does exactly what the segments' steps say, in bounds |
| BlockDevice.Device.QueueRequest | Basic-Tutorials/virtual_block_dev/v5/main.c:110-133 | a whole request in place: the joined segments are written over the device, or filled from it, cut off at its end and with nothing else changed, and the BUG is reached exactly by requests that pass the end |
| UsbDriver.ApplyKeeps | USB_Subsystem/USB-PROJECT/Phase-II/usb.c:261-432 | every callback in any order keeps the three ledgers |
| UsbDriver.TransmitLedger | USB_Subsystem/USB-PROJECT/Phase-II/usb.c:381-432 | at most one transmit request is in flight and it carries the buffer to be freed; the queue runs exactly while none is in flight and none was unlinked; each buffer taken is in flight, freed once after success, or never freed, the last being those of refused, failed and unlinked requests; the byte counter is the sum of completed lengths less four each |
| UsbDriver.ReceiveLedger | USB_Subsystem/USB-PROJECT/Phase-II/usb.c:261-324 | each receive buffer made is handed up, given up after an error, or current; no pending request fills one handed up; the byte counter is the sum of received lengths less four each |
| UsbDriver.PacketLedger | USB_Subsystem/USB-PROJECT/Phase-II/usb.c:289-304 | every completed receive of at least four bytes hands up a packet of four bytes less, in order; if none was shorter, the byte counter is the sum of the lengths handed up |
| UsbDriver.ImpossibleLengthExactly | USB_Subsystem/USB-PROJECT/Phase-II/usb.c:289-321 | a packet with a length that no buffer has room for is handed up in exactly the runs in which a receive of fewer than four bytes completes |
| UsbDriver.Device.constructor | USB_Subsystem/USB-PROJECT/Phase-II/usb.c:436-507 | opening establishes the balanced ledgers |
| UsbDriver.InterruptLedger | USB_Subsystem/USB-PROJECT/Phase-II/usb.c:350-378 | in every run each error counter counts exactly the reports with its bits, the reports in error lie between a third of the detailed counters and all of them, and the carrier flag is the link bit last reported |
| UsbDriver.Device.Transmit | USB_Subsystem/USB-PROJECT/Phase-II/usb.c:611-659 | in place: the call is the system's transmit step and keeps every ledger |
| UsbDriver.Device.WriteBulkCallback | USB_Subsystem/USB-PROJECT/Phase-II/usb.c:381-432 | in place: the callback is the system's completion step and keeps every ledger |
| UsbDriver.Device.ReadBulkCallback | USB_Subsystem/USB-PROJECT/Phase-II/usb.c:261-324 | in place: for transfers of any length the callback is the system's receive step and keeps every ledger; the packet goes up with the length recorded, which is the transfer's less four when it has as many |
| UsbDriver.Device.InterruptCallback | USB_Subsystem/USB-PROJECT/Phase-II/usb.c:326-378 | in place: the callback is the system's interrupt step, the carrier flag set from the link bit whatever it was, and keeps every ledger |
| MmapPages.PageUpIsLeast | Kernel_Memory_Allocation_and_Mapping/Assignment3/mmap.c:168 | the mask expression is the least page boundary at or above the address exactly when the addition does not wrap |
| MmapPages.BufferFits | Kernel_Memory_Allocation_and_Mapping/Assignment3/mmap.c:152-168 | the aligned buffer lies inside the allocation of two pages more |
| MmapPages.Buffer.InitThenCleanup | Kernel_Memory_Allocation_and_Mapping/Assignment3/mmap.c:144-251 | loading then unloading leaves the reserved pages as they were exactly when none of the buffer's pages was reserved before |
| MmapPages.CleanupUndoesInit | Kernel_Memory_Allocation_and_Mapping/Assignment3/mmap.c:232-251 | adding then removing the buffer's four pages, page by page, restores a set exactly when it held none of them |
| MmapPages.Buffer.Init | Kernel_Memory_Allocation_and_Mapping/Assignment3/mmap.c:144-182 | the loop reserves exactly the buffer's pages |
| MmapPages.Buffer.Cleanup | Kernel_Memory_Allocation_and_Mapping/Assignment3/mmap.c:232-251 | the loop clears exactly the buffer's pages |
| MmapPages.MmapVmem | Kernel_Memory_Allocation_and_Mapping/Assignment3/mmap.c:104-142 | success maps every page of the request; a failing remap leaves exactly the pages before it; too long a request changes nothing |
| MmapPages.MappedExactly | Kernel_Memory_Allocation_and_Mapping/Assignment3/mmap.c:129-140 | user page j shows buffer page j, and every other page is as before |
| MmapPages.PieceByPiece | Kernel_Memory_Allocation_and_Mapping/Assignment3/mmap.c:91-97 | with consecutive frames the page-by-page mapping equals the single contiguous one |

## Left out

- Interleavings of the handler with the locked part of the transmit entry point on several processors, and the window inside the stop routine of the RTL8139 driver.
- Mapping requests longer than the buffer but below the guard's limit: `MmapVmem` maps whatever frames the kernel names for addresses behind the buffer.
- Wrap-around of statistics counters, DMA coherence and memory barriers, user-copy faults, checksum insertion while copying to a DMA slot.
- Torn reads of one lock-free test: each test of the poll device's indices is one step.
- Registration, probe, remove, module init and exit, device set-up over control messages, completions after close, and the tutorials' other modules: single-branch plumbing.
