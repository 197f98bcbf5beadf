# Embedded-Software core in Dafny

A Dafny model of the sequential logic in the Kinetis tower firmware of
J-Cerdan/Embedded-Software, with proofs of what that code promises. There are five parts:

- **FIFO** (`fifo.dfy`, module `Fifo`), from `Sources/FIFO.c`: the 256-byte circular byte
  queue `TFIFO`. `TFifo` is a class with `start`, `end` and `nbBytes` fields and a
  256-cell `buffer` array. `Init`, `Put` and `Get` update them in place. Each keeps the
  representation invariant `Valid()` and is specified against the queue `Contents()`.
- **Flash allocator** (`flash_alloc.dfy`, module `FlashAlloc`), from
  `Sources/FlashDanon.c`: `Flash_AllocateVar` hands out aligned 1-, 2- and 4-byte slots
  of the block 0x80000..0x80007.
  - The static occupancy bitmap is the `bv8` field of the class `FlashAllocator`.
  - The three `for` loops of the switch are methods. They are proved to agree with the
    reference definitions `Allocate` and `Fits`.
- **Packet layer** (`packet.dfy`, module `Packet`), from `Sources/Packet.c`:
  - `Packet_Get` is the resumable receive state machine, and `Packet_Put` the 5-byte frame
    writer. They work through `UART_InChar`/`UART_OutChar` (`Sources/UART.c:81-96`), which
    are `FIFO_Get`/`FIFO_Put` on the receive and transmit FIFOs.
  - `Receive` is a function of the queued input bytes that describes one call of
    `Packet_Get`. `PacketChannel.Get` is proved against it.
- **Median filter** (`median.dfy`, module `Median`), from `Sources/median.c`: the exchange
  sort on an `array` and the odd/even median selection. They are specified by the
  reference sort `SortSeq` and the function `Median`.
- **Waveform interpolation** (`awg.dfy`, module `Awg`), from `Sources/AWG.c`: `Average`
  blends neighbouring table samples. It is a pure function.

`types.dfy` (module `Types`) holds the C integer types, `Option`, and C's truncating
division `TruncDiv`. Dafny's `/` is Euclidean, so `TruncDiv` is used wherever the C code
divides a value that may be negative.

Modelling decisions:
- `FIFO.h` declares `NbBytes` as an RTOS event-control-block pointer, but `FIFO.c` uses it
  as a plain byte count, so it is modelled as a count.
- `Start` and `End` are `uint16_t` in the header. They never leave 0..255, so they cannot
  wrap at 16 bits; the model uses `nat` with the `Valid()` bound.
- The checksum test of `Packet_Get` is modelled as the C expression written at
  `Sources/Packet.c:86`. There `==` binds tighter than `^`, so the condition is
  `(Command ^ P1 ^ P2 ^ (P3 == Checksum)) != 0`. The model proves two facts about it:
  - the test accepts every frame whose checksum is right (`MatchingPassesTest`), so a
    frame written by `Put` is read back (`RoundTrip`);
  - it also accepts frames whose checksum is wrong (`CorruptPacketPassesTest`).
- The model keeps the test as written, because that is what line 86 computes. The test
  rejects a packet only when `Command ^ P1 ^ P2` is exactly 1 with `P3 == Checksum`, or
  exactly 0 with `P3 != Checksum` (the `ensures` of `ChecksumTest`). So the window slide
  at lines 96-99 is rarely reached, and it does not bring a receiver that has lost a byte
  back into step. `ShiftedStreamAccepted` shows such a stream accepted as a packet with a
  wrong checksum.
- `Average` is declared in `Sources/AWG.c` with a scalar `waveform` and undeclared
  temporaries. The model uses the header signature `const uint16_t waveform[]`
  (`Sources/AWG.h:72`) with the temporaries as `int`, as C's integer promotions give.
- The `Median_Filter` copy loop assigns each cell to itself (`Sources/median.c:26`). See
  "## Findings".

## Model

| member | source | states |
|---|---|---|
| `Types.TruncDiv` | Sources/median.c:51 | C's `/` on int: the quotient truncates toward zero; the remainder has the sign of the dividend and is smaller than the divisor |
| `Fifo.WindowAppend` | Sources/FIFO.c:38-42 | writing the cell just past the stored bytes extends the queue by exactly that byte |
| `Fifo.WindowAdvance` | Sources/FIFO.c:59-63 | moving Start on by one cell (with wrap) drops the oldest byte and keeps the rest in order |
| `Fifo.CellsDistinct` | Sources/FIFO.c:38-41 | two positions of one window of fewer than 256 bytes never share a buffer cell |
| `Fifo.TFifo.constructor` | Sources/FIFO.h:27-35 | a TFIFO in zeroed static storage: indices and count 0, queue empty, invariant holds |
| `Fifo.TFifo.Init` | Sources/FIFO.c:18-24 | sets End, Start and the count to 0, returns true, leaves the queue empty |
| `Fifo.TFifo.Put` | Sources/FIFO.c:33-45 | full (256 bytes): false and nothing changes; else writes data at old End, End advances with 255→0 wrap, count +1, Start and other cells unchanged, queue gains data at the tail; invariant kept |
| `Fifo.TFifo.Get` | Sources/FIFO.c:54-67 | empty: false, FIFO and the caller's byte untouched; else yields Buffer[Start], the queue's head, count −1, Start advances with wrap, End unchanged, queue loses its head; invariant kept |
| `Fifo.ArrivalOrder` | Sources/FIFO.c:33-67 | two bytes put into an empty FIFO come out in arrival order, and a third Get finds it empty, returns false and hands back the caller's byte |
| `FlashAlloc.ScanBytes` | Sources/FlashDanon.c:34-45 | the size-1 loop finds a slot iff the first-fit search does, and returns its offset and the bit of that byte |
| `FlashAlloc.ScanHalfWords` | Sources/FlashDanon.c:49-60 | the size-2 loop tests both bits of each even pair and returns the first free pair and its two bits |
| `FlashAlloc.InspectWord` | Sources/FlashDanon.c:66-75 | the inner size-4 loop leaves allocationCheck on the bit of the word's last byte when its first three bytes are free, else 16 |
| `FlashAlloc.ScanWords` | Sources/FlashDanon.c:63-83 | the size-4 loop returns the first word whose first three bytes are free, with all four of its bits |
| `FlashAlloc.Scan` | Sources/FlashDanon.c:31-86 | the switch answers exactly as the reference `Allocate`; sizes other than 1, 2, 4 fail |
| `FlashAlloc.FirstFit` | Sources/FlashDanon.c:35-82 | the loops' search over offsets from `from` in steps of the size, while a whole slot fits: a result is such a candidate whose inspected bytes are all free |
| `FlashAlloc.Allocate` | Sources/FlashDanon.c:31-86 | the switch as a function: a grant is for size 1, 2 or 4 and lies in the block 0x80000..0x80007 |
| `FlashAlloc.FirstFitLeast` | Sources/FlashDanon.c:35-64 | the loops' search returns the lowest aligned candidate whose inspected bytes are free, and fails only when no candidate is free |
| `FlashAlloc.AllocateNone` | Sources/FlashDanon.c:84-86 | a call fails exactly when the size is not 1, 2 or 4 or no aligned slot fits |
| `FlashAlloc.AllocateSome` | Sources/FlashDanon.c:37-41 | a successful call returns a slot that fits and no lower slot fits |
| `FlashAlloc.AllocateSlot` | Sources/FlashDanon.c:39-79 | a grant is an aligned in-block slot whose inspected bytes were free, and its mask covers the whole slot |
| `FlashAlloc.Marks` | Sources/FlashDanon.c:40-79 | after a grant exactly the previously allocated bytes plus the granted slot are marked: bits are only ever set |
| `FlashAlloc.SlotMaskBits` | Sources/FlashDanon.c:55 | the OR of the bits of bytes p..p+n−1 marks exactly those bytes |
| `FlashAlloc.MaskDisjoint` | Sources/FlashDanon.c:43 | allocationCheck shifted to different bytes has disjoint bits |
| `FlashAlloc.TakenMask` | Sources/FlashDanon.c:37 | testing the bitmap with the bit of byte p reads byte p and no other |
| `FlashAlloc.FreeAll` | Sources/FlashDanon.c:52 | a run of free bytes is one in which no byte is marked |
| `FlashAlloc.AddressInBlock` | Sources/FlashDanon.c:14-17 | every returned address lies in FLASH_DATA_START..FLASH_DATA_END and is a multiple of the size |
| `FlashAlloc.WordCase` | Sources/FlashDanon.c:63-83 | size 4 returns 0x80000 when bits 0-2 are clear, else 0x80004 when bits 4-6 are clear, else fails; bits 3 and 7 are never read |
| `FlashAlloc.ConsistentPreserved` | Sources/FlashDanon.c:62-79 | every successful call keeps "byte 3 taken ⇒ byte 2 taken, byte 7 taken ⇒ byte 6 taken" |
| `FlashAlloc.NoOverlap` | Sources/FlashDanon.c:62-66 | under that invariant no byte of a granted slot was allocated before, as the comment at line 62 intends |
| `FlashAlloc.FourthByteUnchecked` | Sources/FlashDanon.c:66 | outside the invariant (only byte 3 taken) size 4 hands out byte 3 again |
| `FlashAlloc.MainTrace` | Sources/FlashDanon.c:96-130 | sizes 1, 4, 2, 1, 1 from the zero bitmap give 0x80000, 0x80004, 0x80002, 0x80001, then failure |
| `FlashAlloc.TestProgram` | Sources/FlashDanon.c:91-112 | `main` through one `FlashAllocator` and one pointer: the five (success, pointer) results are (1, 0x80000), (1, 0x80004), (1, 0x80002), (1, 0x80001), (0, 0x80001), the last pointer untouched as in the student output at line 130 |
| `FlashAlloc.FlashAllocator.constructor` | Sources/FlashDanon.c:26 | the static bitmap starts at zero |
| `FlashAlloc.FlashAllocator.AllocateVar` | Sources/FlashDanon.c:23-87 | on failure returns false with bitmap and pointer unchanged; on success returns the first-fit address and ORs its slot into the bitmap; the reachable-state invariant is kept |
| `Packet.ChecksumTest` | Sources/Packet.c:86 | the line-86 condition as C parses it (`==` before `^`) rejects a packet exactly when `Command ^ P1 ^ P2` equals the truth value of `P3 == Checksum` |
| `Packet.Step` | Sources/Packet.c:41-101 | one byte through the switch keeps the state in 0..4 |
| `Packet.Receive` | Sources/Packet.c:33-104 | one call consumes at most the queued bytes; it accepts only after consuming at least one byte and then is back in state 0; otherwise it consumes every queued byte |
| `Packet.MatchingPassesTest` | Sources/Packet.c:86 | the test as written accepts every packet whose checksum is the XOR of the other four bytes |
| `Packet.CorruptPacketPassesTest` | Sources/Packet.c:86 | the test as written also accepts 1,0,0,0 with checksum 5, which does not match; Packet_Get returns true on those five bytes |
| `Packet.ShiftedStreamAccepted` | Sources/Packet.c:85-100 | the two frames Packet_Put builds for 5,6,7,8 and 9,0,0,0, with their first byte lost, are read by one call as the packet 6,7,8,12 with checksum 9, which does not match: the slide does not resynchronise |
| `Packet.AcceptedPassesTest` | Sources/Packet.c:80-91 | a call returns true only when the last byte it read, stored as the checksum, passes the test |
| `Packet.Resumable` | Sources/Packet.c:36-49 | input split into a first batch that completes no packet and a second batch is read as if it arrived at once: the static state resumes |
| `Packet.Resync` | Sources/Packet.c:94-100 | a failed test keeps the command, shifts the parameters down, makes the checksum byte the third parameter and stays in state 4 |
| `Packet.FrameBytes` | Sources/Packet.c:111-115 | the five bytes Packet_Put sends: the command and three parameters in order, then a checksum byte with which the frame carries the protocol's XOR checksum |
| `Packet.Header` | Sources/Packet.c:44-77 | from state 0, four bytes fill command and parameters in order and leave the machine in state 4 |
| `Packet.RoundTrip` | Sources/Packet.c:111-115 | from state 0 the five bytes Packet_Put queues are read back by one call as exactly that packet, whatever follows |
| `Packet.PacketChannel.constructor` | Sources/Packet.c:24-36 | the packet globals and the static state start zeroed, over two distinct FIFOs |
| `Packet.PacketChannel.Init` | Sources/UART.c:76-77 | initialises the transmit then the receive FIFO: both empty, returns true |
| `Packet.PacketChannel.Get` | Sources/Packet.c:33-104 | the fields, the return value and the bytes consumed from the receive FIFO are exactly those of `Receive` on the queued bytes; the state stays in 0..4 and the loop ends |
| `Packet.PacketChannel.Next` | Sources/Packet.c:41-102 | one pass of the switch: no byte queued gives false with nothing changed; otherwise the head byte is consumed, the fields become `Step` of it, and it reports whether the byte completed a packet |
| `Packet.InChar` | Sources/UART.c:81-84 | FIFO_Get on the receive FIFO: the head byte or the caller's byte kept when empty |
| `Packet.OutChar` | Sources/UART.c:87-96 | FIFO_Put on the transmit FIFO: true iff not full, the byte joins the queue |
| `Packet.Put` | Sources/Packet.c:107-118 | returns true iff five cells were free; the transmit queue gains command, p1, p2, p3, c^p1^p2^p3 in that order, cut off at the first refused byte, with the bytes already queued left in place; on true the count rose by 5, on false the FIFO is full |
| `Packet.SendFrame` | Sources/Packet.c:111-115 | the `&&` chain of five UART_OutChar calls queues the longest prefix of the frame that fits |
| `Median.SortSeq` | Sources/median.c:31-42 | reference sort: an ascending permutation of the samples |
| `Median.SortedUnique` | Sources/median.c:31-42 | two ascending permutations of the same samples are equal, so the result does not depend on the sort used |
| `Median.MedianOfSorted` | Sources/median.c:45-52 | odd count: the middle element; even count: the truncated mean of the two middle elements, between them, so no int16 overflow |
| `Median.Median` | Sources/median.c:20-53 | the median of the samples (the sorted samples' middle element or truncated mean of the two middle ones) lies between the smallest and the largest sample, and for an odd count is one of them |
| `Median.MedianPermutation` | Sources/median.c:20-53 | the order in which the samples arrive does not change the median |
| `Median.SwapKeeps` | Sources/median.c:35-40 | the exchange keeps the settled prefix and the running minimum at position i, and only permutes |
| `Median.PassDone` | Sources/median.c:33-41 | after outer pass i, position i holds the minimum of positions i..size−1 |
| `Median.ExchangeSort` | Sources/median.c:29-42 | the nested loops leave the array ascending and a permutation of its initial contents |
| `Median.MedianFilter` | Sources/median.c:20-53 | with the copy reading the input, the result is `Median` of the first size samples; the input array is not modified; size ≥ 1 is required |
| `Median.MedianFilterAsWritten` | Sources/median.c:22-27 | as written, the result is the median of the local array's indeterminate initial contents, whatever the input |
| `Median.SelfCopyIgnoresSamples` | Sources/median.c:20-53 | on the array [7] with size 1 and stale storage [0], `MedianFilterAsWritten` returns 0 and `MedianFilter` returns 7 |
| `Awg.Interpolate` | Sources/AWG.c:40-44 | the blend lies between the two samples, is the first sample when the step is 0 |
| `Awg.Average` | Sources/AWG.c:26-45 | the result lies between waveform[index/10] and waveform[index/10+1] inclusive, and is exactly waveform[index/10] when index%10 == 0 |
| `Awg.ReadsInTable` | Sources/AWG.c:30-32 | for a 16-bit index the test index+10 < 100000 always holds, so the wrap branch is dead, and both reads stay below 6555 in the 10000-entry table |
| `Awg.InterpolateMonotone` | Sources/AWG.c:40-42 | with the samples fixed the blend moves monotonically from the first toward the second as the step grows |
| `Awg.AverageMonotone` | Sources/AWG.c:28-44 | between two table entries Average is monotone in the index, rising or falling toward the next sample |
| `Awg.AverageExamples` | Sources/AWG.c:26-45 | samples 100, 200, 100: indices 40, 43, 49, 57 give 100, 130, 190, 130; samples 200, 105: index 73 gives 172, with the product -285 divided by 10 truncating toward zero |

## Left out

- UART, flash, FTM, PIT, RTC, SPI, LED and analog drivers: register writes, interrupt
  service routines, NVIC set-up and busy-waits. The set-up arithmetic in them (baud
  divisor, PIT load) is not part of this model.
- `Packet.OutChar`: setting the transmit-interrupt enable bit after a successful put
  (`Sources/UART.c:91`) is a register write and is not modelled.
- The RTOS semaphores of `TFIFO` (`BytesAvailable`, `BufferAccess`, `Sources/FIFO.h:31-34`)
  and all concurrency between interrupt handlers and the main loop. The FIFO methods run
  one at a time.
- The waveform tables (`Sources/Waves.h`, `Sources/Waveform.h`, `Sources/functions.h`,
  `Sources/waves.h`) are extern declarations with no data. A table is any sequence of
  10000 `uint16` values.
- `AmplitudeOffsetConversion` and `FrequencyConversion` (`Sources/AWG.h:52,61`) have no
  body in the sources, and there is no code for amplitude or offset scaling, harmonics or
  noise, so none is modelled.
- `Awg.Average`: the `else` branch (wrap to `waveform[0]`) is written as unreachable,
  not computed, because `index + 10 < 100000` holds for every 16-bit index
  (`Awg.ReadsInTable`).
- `main` of `Sources/FlashDanon.c` prints its results. `FlashAlloc.TestProgram` returns
  the printed (success, pointer) pairs instead of printing them. The uninitialised
  `testPointer` is its parameter `initial`. Where the
  "expected output" comment says a failed call leaves the pointer 0, the model follows
  the code and the student output: the pointer is left untouched.
- `Sources/main.c` is an empty loop and is not part of this model.
- `FlashAlloc.FlashAllocator.AllocateVar`: `*variable` is modelled as a returned address.
  Pointer aliasing and the volatile flash accesses are not modelled.
- `Packet.PacketChannel.Get`: the `for (;;)` body is the method `Next`. `state` and the
  five packet fields are fields of one object rather than a function-local static and
  globals.
- `Median.MedianFilter`: the variable-length local array is a fresh `array`, and a
  `size` of 0 (which reads index −1 in the code) is excluded by the precondition.

## Findings

| source | as written | input that shows it | evidently intended | confidence | as-written member | corrected member |
|---|---|---|---|---|---|---|
| Sources/median.c:26 | `sortedArray[z] = sortedArray[z]` copies the uninitialised local array onto itself, so `array` is never read and the result is the median of whatever the stack held | size 1, `array` = [7], stack contents [0]: returns 0 | `sortedArray[z] = array[z]`, so the result is the median of the samples (7) | high (by reading; not executed) | `Median.MedianFilterAsWritten` (with `Median.SelfCopyIgnoresSamples`) | `Median.MedianFilter` |
