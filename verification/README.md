# yanesemu: a verified model

A Dafny model of the NES emulator's machine core (CPU, PPU, bus, frame loop, debugger prediction) and of the
table-driven decoders in its bundled image library (zlib inflate, PNG unfiltering and Adam7, JPEG entropy decoding),
with proofs of what they keep, refine and invert. `dafny verify dfyconfig.toml` checks all of it.

## How it is built

- **CPU.** `CpuModel` is a declarative semantics of one `CPU::run` over any memory with read side effects;
  `CpuCode.CPU` is the object of the source, method by method, proved to have exactly that semantics. `Predictor`,
  `Interrupts`, `Stack`, `Multibyte`, `Departures`, `IrqProtocol` and `Disassembler` prove properties of
  instructions and runs. `InstructionSet`, `InstructionGroups` and `InstructionCycles` say what each opcode byte
  does and costs on flat memory, without naming that semantics.
- **PPU.** `PpuModel` and `PpuCode.PPU` likewise, over the bit fields of `Bits`. `PpuRaster` (counters and
  blanking), `PpuScroll` (scroll registers over lines and frames), `PpuPort` (VRAM access), `PpuRegisters` (what a
  program sets and reads) and `PpuTiles` (which bytes are fetched) prove properties of runs.
- **Machine.** `Console` joins them as `Emulator::run` and `run_frame`; `BusInvariants` carries what every bus
  access keeps through whole steps; `BusTable` is the dispatch table itself, `ConsoleBus` the console's mappings in
  it and `PowerUp` where execution starts.
- **Inflate.** `CanonicalCode` is the Huffman code of RFC 1951, by the rules in `CanonicalRules`; `BitReverse`,
  `ZHuffman` and `ZStream` are the builder, the bit reader and the decoder; `Inflate` reads and writes tokens,
  `InflateBlock` is the block loop, and `ZTail` decides when it ends; `InflateTables` and `InflateRoundTrip` tie
  lengths, distances and whole blocks to the standard's encoding.
- **PNG.** `PngFilter` holds the standard's filters and an encoder, `PngMeaning` what they mean; `PngCode` unfilters
  in place; `Adam7`, `Adam7Code` and `PngRoundTrip` de-interlace and give the round trip.
- **JPEG.** `JpegBits`, `JpegModel`, `JpegCode` are the bit buffer, the decoder and its object; `JpegAc` shows the
  combined AC table changes nothing; `JpegHuffman` builds and reads the Huffman tables; `JpegZigzag`, `JpegStream`
  and `JpegRoundTrip` give the round trip of a block.

## Main results

- The debugger's predicted address is the executed one if and only if a condition on opcode and stack holds
  (`Predictor.PredictorExact`).
- Every opcode byte: address, operation, flags, PC and cycles, on every flat memory (`InstructionSet.GroupOne` and
  the lemmas of `InstructionGroups` and `InstructionCycles`).
- A pending NMI is entered after an exact number of steps and not before, and none is invented, over every
  interleaving (`Interrupts.NmiServed`, `Interrupts.NmiNeverInvented`).
- Well-nested calls, saves and interrupts restore the machine despite the 8-bit stack pointer
  (`Stack.NestingRestores`).
- `run_frame` ends from every reachable state, crosses blanking once and spends three dots per cycle
  (`Console.FrameCrossesVblankOnce`, `Console.SessionKeepsInv`).
- Raster, blanking intervals, scroll position and VRAM port over whole runs (`PpuRaster.RunCounts`,
  `PpuScroll.VisibleLines`, `PpuPort.PortRoundTrip`), and every tile fetched on a line is the tile of the picture at
  the scrolled position (`PpuTiles.LineTiles`).
- The zlib tables decode exactly the canonical code, and a block is its LZ77 expansion (`ZStream.ZBuf.Decode`,
  `InflateBlock.ParseBlock`); the block loop ends on every input for exactly the codes that are not `Endless`
  (`InflateBlock.NeverEnds`), and encoded tokens come back (`InflateRoundTrip.BlockRoundTrip`,
  `InflateRoundTrip.BlockNotStuck`).
- For every image and every choice of filters, PNG de-interlacing and unfiltering give the image back
  (`PngRoundTrip.InterlacedRoundTrip`).
- JPEG blocks decode the same with and without the combined AC table, for every table and stream
  (`JpegAc.BlocksAlike`), and the Huffman decoder follows the canonical code exactly under a stated condition
  (`JpegHuffman.DecodesEveryExact`). Encoded coefficients come back at their places from the stuffed bytes of a file
  (`JpegRoundTrip.FileRoundTrip`).

## Where the code is not what one would expect

The model follows the code in each case.

- `nextaddr` predicts the vector's own address for BRK, looks one byte too low for RTI, and does not wrap the stack
  address for RTS: `Predictor.PredictorExact` gives the exact condition.
- `power` and `reset` cost six CPU cycles that `Emulator::run` only pays for at the next call; the frame invariant
  carries them.
- The V flag of SBC compares with the operand (`Multibyte.SbcOverflowExact`).
- BIT sets the negative flag when the masked value is zero and the zero flag when the operand is
  (`Departures.BitExact`), and TXS sets flags (`Departures.TxsExact`).
- The page-crossing penalty of abs,X and abs,Y compares with the high byte of a value that is one byte wide, so with
  zero (`Departures.IndexedExact`), that of (ind),Y with an old operand byte (`Departures.IndirectYExact`).
- Indexed zero-page addresses and pointers run on into page one (`InstructionSet.ZeroPageExact`,
  `InstructionSet.PointerExact`).
- A read of $2002 ORs its flags into the latch and leaves them there, so a second read reports blanking again
  (`PpuRegisters.StatusExact`).
- The start of blanking requests an NMI whether or not bit 7 of $2000 enables it (`Console.RunAdvances`).
- Program ROM above 64 KiB is read in its first 64 KiB only (`PowerUp.EndsAtTopExact`).
- A block whose all-zero codes spell a match of length zero can go on for ever past the end of its input
  (`InflateBlock.NeverEnds`).
- A due IRQ runs after an NMI although NMI entry sets the interrupt-disable flag.
- Assigning a bit field from one of the same type does not shift its source, so `copy_v_vertpos` copies column bits
  into the row fields (`PpuScroll.VertCopyExact`), and `getbits` masks with the count (`Bits.GetBitsExact`).
- `Bus::remap` tests three entries of the table only (`BusTable.RemapSkipsOverpainted`).
- In a JPEG table with 256 symbols the number 255 doubles as the fast table's empty mark
  (`JpegHuffman.DecodesEveryExact`).

## Model

| member | source | states |
|---|---|---|
| `Predictor.TablesAgree` | emu/core/instrinfo.cpp:248-269 | the dispatch of the executor and the length, branch and jump tables of the debugger, entered separately, agree on all 256 opcodes and all flags |
| `Predictor.PredictorAgrees` | emu/core/cpu.cpp:91-116 | with nothing armed and no read side effects near the PC, the predicted address is the executed one for every state, memory and opcode except BRK and RTI, given SP <= 0xFD for RTS |
| `Predictor.PredictorExact` | emu/core/cpu.cpp:91-116 | on flat memory the prediction is right if and only if a condition on the opcode, SP and stack bytes holds, for every state and every opcode |
| `Predictor.ReturnMispredicted` | emu/core/cpu.cpp:108-109 | a state in which RTS is mispredicted because the stack address does not wrap |
| `Predictor.StepCost` | emu/core/cpu.cpp:13-28 | every step costs one to seven cycles, and one exactly for an undocumented opcode |
| `Interrupts.CoherentAlways` | emu/core/cpu.cpp:13-75 | over every interleaving of steps, resets and requests, what is due is pending and no reset is left pending |
| `Interrupts.PerformLines` | emu/core/cpu.cpp:356-372 | every documented instruction but BRK polls; BRK acknowledges; undocumented opcodes leave the lines alone |
| `Interrupts.EntryUsesVector` | emu/core/cpu.cpp:309-336 | entering means PC from 0xFFFA with the interrupted address and status on the stack, also for hijacked BRK and IRQ |
| `Interrupts.NmiNeverInvented` | emu/core/cpu.cpp:309-336 | over every interleaving, entries through the NMI vector plus the pending one never exceed requests |
| `Interrupts.NmiServed` | emu/core/cpu.cpp:13-28 | a pending NMI is entered after an exact number of steps and not before, whatever requests and resets come between the steps: within two when a documented opcode is next |
| `Interrupts.DueIrqFollowsNmi` | emu/core/cpu.cpp:13-28 | when both are due the IRQ runs right after the NMI although NMI entry set the disable flag |
| `Stack.StackRefinesIdeal` | emu/core/cpu.cpp:338-348 | for every starting SP and every push/pull sequence of depth 0 to 256, pulls return what an ideal stack returns |
| `Stack.StatusRoundTrip` | emu/core/instrinfo.hpp:32-48 | packing the flags into a byte and unpacking gives the flags back |
| `Stack.NestingRestores` | emu/core/instructions.cpp:492-619 | well-nested JSR/RTS, PHA/PLA, PHP/PLP, interrupt/RTI and BRK/RTI, with any number of other steps between, restore PC, SP, accumulator and flags, to any depth that fits |
| `Stack.QuietKeeps` | emu/core/instructions.cpp:13-301 | a step that neither uses the stack nor stores into its live part keeps the live stack and the pointer |
| `Stack.FlatIsStackRam` | emu/core/cpu.cpp:338-348 | the assumption on the stack page holds of flat memory |
| `Multibyte.ChainedAdc` | emu/core/instructions.cpp:350-358 | for every n, chained ADC is A + B + c modulo 256^n with the true carry out |
| `Multibyte.ChainedOverflow` | emu/core/instructions.cpp:350-358 | the V flag after chained ADC is signed overflow of the n-byte sum |
| `Multibyte.ChainedSbc` | emu/core/instructions.cpp:360-369 | for every n, chained SBC is A - B - (1 - c), the carry meaning no borrow |
| `Multibyte.SbcOverflowExact` | emu/core/instructions.cpp:367 | the V flag of SBC is signed overflow if and only if a stated inequality between A, the operand and the borrow holds |
| `Multibyte.SbcOverflowMissed` | emu/core/instructions.cpp:367 | a subtraction that overflows with V clear |
| `Multibyte.ChainedRol` | emu/core/instructions.cpp:435-443 | chained ROL is doubling with the carry in below and out above |
| `Multibyte.ChainedLeft` | emu/core/instructions.cpp:417-443 | ASL and then ROL upwards is doubling whatever the carry was, the overflow leaving in the carry |
| `Multibyte.ChainedRor` | emu/core/instructions.cpp:445-453 | chained ROR is halving with the carry in above and the remainder out below |
| `Multibyte.ChainedRight` | emu/core/instructions.cpp:426-453 | LSR and then ROR downwards is halving whatever the carry was, the remainder leaving in the carry |
| `Departures.BitExact` | emu/core/instructions.cpp:392-397 | N and Z of BIT are those of the 6502 if and only if the operand is below 0x80 and meets the accumulator |
| `Departures.BitWrong` | emu/core/instructions.cpp:392-397 | operands for which they are not |
| `Departures.TxsExact` | emu/core/instructions.cpp:292-300 | TXS leaves the flags alone, as on the 6502, if and only if Z and N already judge X |
| `Departures.TxsWrong` | emu/core/instructions.cpp:292-300 | a state in which it sets Z |
| `Departures.IndexedExact` | emu/core/instructions.cpp:57-84 | abs,X and abs,Y are charged for a crossed page if and only if the high operand byte is nonzero exactly when the index carries |
| `Departures.IndexedWrong` | emu/core/instructions.cpp:57-70 | a read within one page that is charged |
| `Departures.IndirectYExact` | emu/core/instructions.cpp:99-112 | (ind),Y is charged for a crossed page if and only if the old operand byte relates to the pointer in a stated way |
| `Departures.IndirectYWrong` | emu/core/instructions.cpp:99-112 | a read within one page that is charged |
| `Disassembler.ListingWalksBlock` | emu/core/instrinfo.hpp:68-77 | addresses start at the block, each is one instruction after the last, and they stop only past the end |
| `Disassembler.DisassembleBlock` | emu/core/instrinfo.hpp:68-77 | with the 16-bit address of the source, visits each address of the walk up to the first past the end |
| `Disassembler.LoopIsListing` | emu/core/instrinfo.hpp:68-77 | for every end up to 0xFFFC and every memory the loop ends, and its walk is the listing |
| `Disassembler.LoopNeedNotEnd` | emu/core/instrinfo.hpp:68-77 | for every end above 0xFFFC there is a memory on which the loop never ends |
| `Disassembler.ExecutionFollowsListing` | emu/core/instrinfo.hpp:68-77 | straight-line code that still reads as listed fetches its opcodes at exactly the listed addresses |
| `Bits.SetBitsIsPut` | emu/util/bits.hpp:32-36 | the masked expression replaces exactly the bits of its field, for every width and offset that fits |
| `Bits.ReadFieldIsGet` | emu/util/bits.hpp:71 | reading shifts and masks out exactly the field |
| `Bits.GetPut` | emu/util/bits.hpp:70-71 | a field reads back what was written |
| `Bits.PutGet` | emu/util/bits.hpp:70-71 | writing back what was read changes nothing |
| `Bits.PutPut` | emu/util/bits.hpp:70 | the second write wins |
| `Bits.GetPutDisjoint` | emu/util/bits.hpp:70-71 | a write leaves every disjoint field alone |
| `Bits.PutsCommute` | emu/util/bits.hpp:70 | writes to disjoint fields commute |
| `Bits.GetBitsExact` | emu/util/bits.hpp:15-18 | `getbits` reads the field if and only if the field has at most one bit |
| `PpuCode.FieldsIndependent` | emu/core/ppu.hpp:27-39 | each of the four address fields reads back and leaves the other three alone |
| `PpuCode.FieldsPartition` | emu/core/ppu.hpp:27-39 | the four fields make up bits 0 to 14 |
| `PpuCode.PPU.Run` | emu/core/ppumain.cpp:260-266 | one dot: raster, status flags, fetched tile and scroll registers, and the NMI callback exactly at (241, 1) |
| `PpuCode.PPU.Lcycle` | emu/core/ppumain.cpp:197-220 | what each of the 262 lines does at each dot |
| `PpuCode.PPU.CycleTab` | emu/core/ppumain.cpp:149-193 | what each of the 341 entries does |
| `PpuCode.PPU.Ccycle` | emu/core/ppumain.cpp:126-142 | fetch, column step, row step and column copy at their dots |
| `PpuCode.PPU.BackgroundCycle` | emu/core/ppumain.cpp:113-124 | the fetch pipeline over eight dots with the addresses of the four fetches |
| `PpuCode.PPU.BeginFrameDot` | emu/core/ppumain.cpp:12-24 | counters restart after an odd frame only; its assertion is a precondition that PpuRaster discharges |
| `PpuCode.PPU.Read` | emu/core/ppu.cpp:139-176 | value, latch, buffer, address step and status side effects of every register read |
| `PpuCode.PPU.Write` | emu/core/ppu.cpp:178-258 | new state after every register write |
| `PpuCode.PPU.IncVHorzPos` | emu/core/ppu.cpp:360-369 | one column right over both nametables |
| `PpuCode.PPU.IncVVertPos` | emu/core/ppu.cpp:371-389 | one row down, with the jump at row 29 and the wrap at 31 |
| `PpuCode.PPU.CopyVHorzPos` | emu/core/ppu.cpp:391-397 | horizontal bits from t |
| `PpuCode.PPU.CopyVVertPos` | emu/core/ppu.cpp:399-406 | the copy as written, with the unshifted source of same-type field assignment |
| `PpuCode.DecodeIsMirror` | emu/core/ppu.cpp:323-352 | both mirroring formulas are the nametable wiring, for every address |
| `PpuRaster.DotKeepsValid` | emu/core/ppumain.cpp:260-266 | lines = cycles/341, odd_frame iff cycles >= 89342 and the bound on cycles are kept by every dot |
| `PpuRaster.RasterOrder` | emu/core/ppumain.cpp:197-220 | positions follow raster order; only (0,0) is skipped and only after an odd frame |
| `PpuRaster.RunCounts` | emu/core/ppumain.cpp:260-266 | the counters stay consistent along every run, and blanking starts are counted by a closed formula |
| `PpuRaster.VblankIntervals` | emu/core/ppumain.cpp:84-89 | blanking starts are 89342 and 89341 dots apart in turn |
| `PpuRaster.VblankReached` | emu/core/ppumain.cpp:209-210 | blanking starts within n dots if and only if n reaches a computed distance |
| `PpuRaster.AtMostOne` | emu/core/ppumain.cpp:209-210 | no run of at most 89341 dots sees blanking start twice |
| `PpuScroll.HorzStep` | emu/core/ppu.cpp:360-369 | H goes up by one modulo 64 and V stays |
| `PpuScroll.VertStep` | emu/core/ppu.cpp:371-389 | V goes up by one modulo 480 from rows up to 29, and H stays |
| `PpuScroll.HorzCopy` | emu/core/ppu.cpp:391-397 | H becomes that of t and V stays |
| `PpuScroll.VertCopy` | emu/core/ppu.cpp:399-406 | both vertical fields come from the low bits of t, H stays |
| `PpuScroll.VertCopyExact` | emu/core/ppu.cpp:399-406 | it copies the vertical position if and only if the row fields of t spell its column |
| `PpuScroll.LinePosition` | emu/core/ppumain.cpp:126-142 | row and column after every dot of a rendering line in closed form |
| `PpuScroll.LineDots` | emu/core/ppumain.cpp:197-220 | a rendering line ends at column H(t) + 2 modulo 64 and one row down |
| `PpuScroll.VisibleLines` | emu/core/ppumain.cpp:205-208 | at the start of visible line n the row is V0 + n modulo 480 |
| `PpuScroll.FrameScroll` | emu/core/ppumain.cpp:211-217 | from the pre-render line the picture starts at the row spelled by t and runs down from there |
| `PpuScroll.RowLawExact` | emu/core/ppu.cpp:371-389 | the row law holds for all n if and only if coarse y starts at 29 or below |
| `PpuPort.DotsKeepPort` | emu/core/ppumain.cpp:260-266 | with the background off no dot changes anything reachable through the registers but the status |
| `PpuPort.TopClearAlways` | emu/core/ppu.cpp:178-258 | bit 15 of t is never set from power-up on |
| `PpuPort.AddressSet` | emu/core/ppu.cpp:232-244 | reading $2002 and writing $2006 twice sets the address from any latch state |
| `PpuPort.WrittenBytes` | emu/core/ppu.cpp:246-250 | n writes to $2007 put byte i at address a + i * step, and every cell that none of these addresses mirrors to stays as it was |
| `PpuPort.ReadBack` | emu/core/ppu.cpp:159-167 | n + 1 reads return the buffered byte and then the n bytes |
| `PpuPort.PortRoundTrip` | emu/core/ppu.cpp:139-176 | bytes written through the port are read back after one buffered byte, under both mirrorings and steps, with any dots in between |
| `BusInvariants.RunKeeps` | emu/core/cpu.cpp:13-28 | whatever every bus access keeps, a whole step keeps |
| `BusInvariants.PowerKeeps` | emu/core/cpu.cpp:30-45 | and power-up |
| `BusInvariants.ResetKeeps` | emu/core/cpu.cpp:47-52 | and reset |
| `Console.ConsoleStackRam` | emu/core/cpu.cpp:54-63 | the stack page of the console is memory that no register access disturbs |
| `Console.BusKeepsUnmoved` | emu/core/ppu.cpp:122-137 | no bus access moves the raster or changes the cartridge |
| `Console.RunAdvances` | emu/core/emulator.cpp:11-20 | one run makes exactly three dots per CPU cycle, catches up, and raises NMI and frame flag exactly when blanking starts |
| `Console.FrameCrossesVblankOnce` | emu/core/emulator.cpp:22-29 | the frame loop ends from every state of the invariant and crosses the start of blanking exactly once (when not already flagged, and at most 29773 cycles behind) |
| `Console.FrameLength` | emu/core/emulator.cpp:22-29 | a frame is three dots per cycle, at least the dots to blanking and at most 20 more |
| `Console.PowerEstablishes` | emu/core/emulator.hpp:41-45 | power-up establishes the invariant from any memory, six cycles ahead of the PPU, and keeps the cartridge |
| `Console.ResetKeepsInv` | emu/core/emulator.hpp:47-51 | reset keeps it, six cycles further ahead |
| `Console.ControlKeepsInv` | emu/core/emulator.hpp:37-51 | every call keeps the invariant and three dots per accounted cycle |
| `Console.SessionKeepsInv` | emu/core/emulator.hpp:37-51 | so does every sequence of calls |
| `Console.VblankReachesHandler` | emu/core/emulator.hpp:31-34 | after a run that crosses blanking the NMI handler is entered at the next run or the one after, when the next opcode is documented |
| `Console.Emulator.RunPpu` | emu/core/emulator.cpp:16-18 | the dot loop, with the callback of each blanking start |
| `Console.Emulator.Run` | emu/core/emulator.cpp:11-20 | keeps the invariant; the new state is the specified one |
| `Console.Emulator.RunFrame` | emu/core/emulator.cpp:22-29 | ends; nothing when the debugger has quit, otherwise the specified frame |
| `BusTable.Bus.Map` | emu/core/bus.cpp:26-41 | used ids stay a prefix and every covered address dispatches to the latest mapping covering it |
| `BusTable.Bus.Fill` | emu/core/bus.cpp:40 | exactly the range is painted |
| `BusTable.Bus.Remap` | emu/core/bus.cpp:43-56 | the exact acceptance test, and the handlers of one area changed or nothing |
| `BusTable.Bus.Reset` | emu/core/bus.cpp:20-24 | an empty table of the new size |
| `BusTable.Bus.Dispatch` | emu/core/bus.cpp:26-41 | an access goes to the handlers of the latest mapping |
| `BusTable.LatestAfterMap` | emu/core/bus.cpp:26-41 | a new mapping wins where it applies and changes nothing elsewhere |
| `BusTable.RemapMovesItsArea` | emu/core/bus.cpp:43-56 | a remap moves exactly the addresses its area shows at |
| `BusTable.RemapExact` | emu/core/bus.cpp:43-56 | it changes the given range and nothing else if and only if the range is all the area shows |
| `BusTable.RemapSkipsOverpainted` | emu/core/bus.cpp:43-53 | an accepted remap whose middle was painted over and keeps its handlers |
| `ConsoleBus.Connect` | emu/core/cpu.cpp:54-63 | the five mappings of CPU, PPU and cartridge leave a valid table with these areas |
| `ConsoleBus.TableIsBus` | emu/core/cpu.cpp:54-63 | at every CPU address the table dispatches to the handlers that the memory functions of the console model |
| `CanonicalCode.MatchUnique` | external/stb/stb_image.h:4019-4039 | the canonical code is prefix-free: a stream begins with the code of at most one symbol |
| `CanonicalCode.CodesFit` | external/stb/stb_image.h:4034-4035 | for accepted lengths every code fits its length |
| `CanonicalCode.RankInjective` | external/stb/stb_image.h:4044-4047 | symbols never share a slot of the sorted tables |
| `BitReverse.NetworkReverses` | external/stb/stb_image.h:3997-4004 | the four masked swaps reverse the low sixteen bits of every number |
| `BitReverse.Reverse` | external/stb/stb_image.h:4006-4012 | the network and a shift reverse any number of low bits |
| `ZHuffman.FastEntryMeans` | external/stb/stb_image.h:4041-4057 | a nonzero entry names the one short code its index begins with; zero means there is none |
| `ZHuffman.Tables.CountSizes` | external/stb/stb_image.h:4020-4024 | how often each length occurs |
| `ZHuffman.Tables.CheckSizes` | external/stb/stb_image.h:4025-4027 | accepts exactly lengths that are not over-full one by one |
| `ZHuffman.Tables.AssignCodes` | external/stb/stb_image.h:4028-4040 | first codes, first symbols and preshifted ends of every length, failing exactly when a used length overflows |
| `ZHuffman.Tables.FillFast` | external/stb/stb_image.h:4049-4053 | exactly the indices whose low bits are the reversed code |
| `ZHuffman.Tables.EnterSymbols` | external/stb/stb_image.h:4041-4057 | sorted and fast tables complete |
| `ZHuffman.Tables.Build` | external/stb/stb_image.h:4014-4059 | succeeds if and only if the lengths are acceptable, and then describes the canonical code of section 3.2.2 of RFC 1951 |
| `ZStream.ZBuf.FillBits` | external/stb/stb_image.h:4091-4101 | refilling does not change the unread stream; stray bits become end of input |
| `ZStream.ZBuf.Receive` | external/stb/stb_image.h:4103-4111 | the next n bits of the stream, and the stream after them |
| `ZStream.ZBuf.DecodeSlow` | external/stb/stb_image.h:4113-4130 | the symbol of a long code, or -1 exactly when no code begins the stream |
| `ZStream.ZBuf.Decode` | external/stb/stb_image.h:4132-4149 | table and slow path together: symbol i and its bits if and only if the canonical code of i begins the stream |
| `ZStream.SymbolRoundTrip` | external/stb/stb_image.h:4132-4149 | every symbol sequence survives encoding and decoding |
| `ZStream.DecodesOneWay` | external/stb/stb_image.h:4132-4149 | a stream decodes in one way only |
| `Inflate.OutBuf.Reserve` | external/stb/stb_image.h:4151-4171 | growth ends, keeps the prefix and makes room, failing exactly when growing is not allowed or would pass 32 bits |
| `Inflate.OutBuf.CopyMatch` | external/stb/stb_image.h:4218-4224 | both copy loops are the overlapping LZ77 copy |
| `Inflate.RunIsCopy` | external/stb/stb_image.h:4219-4221 | a run of one byte is the copy at distance one |
| `Inflate.ReadMatch` | external/stb/stb_image.h:4206-4212 | length and distance of the match token the stream holds |
| `Inflate.PutMatch` | external/stb/stb_image.h:4213-4224 | refused exactly when it reaches back too far or no room can be made, otherwise the copy |
| `Inflate.ParseToken` | external/stb/stb_image.h:4190-4226 | one round: a token, the end of the block, or one of the listed reasons to stop |
| `InflateBlock.ParseBlock` | external/stb/stb_image.h:4187-4227 | for codes that are not endless the loop ends on every input; on success old output plus the LZ77 expansion of the tokens the stream held, an error only where the reader halts at a symbol with fewer than sixteen bits left, or codes, distance or room leave no way on |
| `InflateBlock.TokenDecreases` | external/stb/stb_image.h:4190-4226 | every token adds output, or shortens the stream, or uses up input, bits or one of the rounds the buffer still allows |
| `InflateBlock.NoZeroCode` | external/stb/stb_image.h:4206-4208 | codes in which the all-zero code is not that of symbol 286 or 287 are not endless |
| `InflateBlock.ParseRounds` | external/stb/stb_image.h:4187-4227 | the same loop cut after a number of rounds, for all codes; past an input of zeros it is still open as long as the bit count lasts |
| `InflateBlock.NeverEnds` | external/stb/stb_image.h:4187-4227 | for all endless codes there is a state in which the loop is open after every number of rounds |
| `InflateBlock.EndlessCodes` | external/stb/stb_image.h:4187-4227 | codes the builder accepts that are endless |
| `InflateBlock.EndlessRun` | external/stb/stb_image.h:4187-4227 | a run that comes to such a state: input bytes read by a header, earlier output, tables from the builder; open after every number of rounds |
| `ZTail.LastsForever` | external/stb/stb_image.h:4103-4111 | refills past the end of the input that last eighteen rounds of zero-length matches last for ever |
| `Inflate.ZeroNeverGrows` | external/stb/stb_image.h:4160-4163 | doubling a zero limit never makes room |
| `Inflate.TokensOneWay` | external/stb/stb_image.h:4187-4227 | the bits determine the tokens |
| `PngFilter.ReconUndoesFilter` | external/stb/stb_image.h:4587-4651 | unfiltering a row undoes each filter of section 6 of RFC 2083 |
| `PngFilter.UnfilterUndoesFilter` | external/stb/stb_image.h:4567-4651 | for every image and every choice of filter per row, unfiltering gives the image back |
| `PngFilter.SwitchesPredict` | external/stb/stb_image.h:4518-4525 | both switches add the standard predictor; the synthetic first-row filters are the filters over a zero row |
| `PngFilter.SpreadAt` | external/stb/stb_image.h:4637-4652 | added alpha: each pixel keeps its bytes and is followed by 255 |
| `PngCode.ReconAt` | external/stb/stb_image.h:4587-4634 | each byte of a row is what the switches compute from the bytes already there |
| `PngCode.PlainRow` | external/stb/stb_image.h:4587-4636 | in place, a row without added alpha becomes its reconstruction |
| `PngCode.FirstAlphaPixel` | external/stb/stb_image.h:4587-4604 | the first pixel of a row with its alpha |
| `PngCode.LaterAlphaPixel` | external/stb/stb_image.h:4639-4651 | a later pixel, from its neighbours in the interleaved output |
| `PngCode.AlphaRow` | external/stb/stb_image.h:4599-4652 | in place, a row becomes its reconstruction interleaved with 255 |
| `PngCode.CreateRaw` | external/stb/stb_image.h:4541-4652 | fails exactly when bytes are missing or a filter byte is above 4; otherwise the output is the unfiltered picture |
| `PngPixels.PictureCell` | external/stb/stb_image.h:4567-4568 | row and column of every pixel of the output |
| `Adam7.PatternIsPasses` | external/stb/stb_image.h:4765-4768 | the seven grids of the source are the 8 by 8 pattern of section 2.6 of RFC 2083 |
| `Adam7.ExactlyOnce` | external/stb/stb_image.h:4764-4785 | every output pixel comes from exactly one place of exactly one pass, and every place is an output pixel |
| `Adam7Code.CopyPixel` | external/stb/stb_image.h:4783-4784 | one pixel is copied and no other changes |
| `Adam7Code.CopyPass` | external/stb/stb_image.h:4779-4786 | exactly the pixels of the pass are replaced by those of its sub-image |
| `Adam7Code.OnePass` | external/stb/stb_image.h:4764-4791 | empty passes are skipped; the data moves on by the size of the pass |
| `Adam7Code.Deinterlace` | external/stb/stb_image.h:4753-4795 | fails exactly when some pass is short or has a wrong filter byte; otherwise every output pixel is the matching pixel of its pass |
| `PngRoundTrip.InterlacedRoundTrip` | external/stb/stb_image.h:4753-4795 | for every image and every choice of filters, the only output de-interlacing can leave for its encoding is the image |
| `JpegBits.RotateSplits` | external/stb/stb_image.h:2096-2099 | masking a rotated word separates the bits received from the bits that remain |
| `JpegBits.SignIsUpperHalf` | external/stb/stb_image.h:2095 | the sign bit tells the upper half of the received value |
| `JpegBits.MaskedShift` | external/stb/stb_image.h:2002 | shift and mask is the shift in a nine-bit word |
| `JpegModel.ReceivedIsExtended` | external/stb/stb_image.h:2089-2102 | `stbi__extend_receive` is RECEIVE then EXTEND of section F.2.2 of ITU-T T.81 |
| `JpegAc.FastIsSlow` | external/stb/stb_image.h:1988-2011 | with sixteen valid bits and a nonzero entry: same run, coefficient, buffer and bit count as Huffman decoding then receive-and-extend, for every table |
| `JpegAc.GrowFillsOrEnds` | external/stb/stb_image.h:2013-2029 | refilling ends with more than 24 bits unless it meets a marker |
| `JpegAc.BlocksAlike` | external/stb/stb_image.h:2166-2191 | for every table, stream and reader state, a block decoded with the combined table is the block decoded without it |
| `JpegCode.BuildFastAc` | external/stb/stb_image.h:1988-2011 | the table it fills, every entry in 16 bits |
| `JpegCode.Reader.GrowBuffer` | external/stb/stb_image.h:2013-2029 | stuffed bytes, fill bytes and markers as specified |
| `JpegCode.Reader.Symbol` | external/stb/stb_image.h:2035-2082 | refill, fast lookup, slow lookup and their failures |
| `JpegCode.Reader.ReceiveExtend` | external/stb/stb_image.h:2089-2102 | value and new buffer |
| `JpegCode.Reader.DecodeAc` | external/stb/stb_image.h:2166-2191 | the loop with the table leaves the coefficients, outcome and stream of the loop without it |
| `JpegHuffman.Tables.FillSizes` | external/stb/stb_image.h:1948-1952 | a length for each symbol in order, zero behind them |
| `JpegHuffman.Tables.AssignCodes` | external/stb/stb_image.h:1954-1969 | codes, deltas and preshifted ends, failing exactly when a used length overflows |
| `JpegHuffman.Tables.FillFast` | external/stb/stb_image.h:1973-1982 | exactly the nine-bit words that begin with the code |
| `JpegHuffman.Tables.Build` | external/stb/stb_image.h:1944-1984 | succeeds if and only if every used length fits, and then describes the canonical code of Annex C of ITU-T T.81 |
| `JpegHuffman.MatchDecoded` | external/stb/stb_image.h:2035-2082 | a symbol whose code begins the buffer is returned with exactly its bits, unless it is symbol 255 with a short code |
| `JpegHuffman.NoMatchRefused` | external/stb/stb_image.h:2062-2069 | a buffer that begins with no code is refused |
| `JpegHuffman.LastSymbolMisread` | external/stb/stb_image.h:2044-2064 | symbol 255 with a short code is always read with ten bits |
| `JpegHuffman.LastSymbolShortHappens` | external/stb/stb_image.h:1971-1982 | lengths the builder accepts for which that happens |
| `JpegHuffman.DecodesEveryExact` | external/stb/stb_image.h:2035-2082 | decoding follows the canonical code for every buffer if and only if symbol 255 is absent or longer than nine bits |
| `InstructionSet.GroupOne` | emu/core/instructions.cpp:13-261 | ORA, AND, EOR, ADC, STA, LDA, CMP and SBC in each addressing mode, on opcode bytes and flat memory: the operand is the byte at the address written out from operand bytes, X, Y and zero-page pointer; the logic holds bit by bit, the sums with their carries, comparison leaves carry iff not below and zero iff equal; only the accumulator, the flags named or the one cell stored change |
| `InstructionSet.ZeroPageExact` | emu/core/instructions.cpp:29-37 | zp,X drops its carry, as on the 6502, if and only if there is none |
| `InstructionSet.ZeroPageWrong` | emu/core/instructions.cpp:29-37 | an operand and X that leave the zero page |
| `InstructionSet.PointerExact` | emu/core/instructions.cpp:86-112 | the pointer of the indirect modes is taken from the zero page on every memory if and only if both its bytes lie there |
| `InstructionGroups.ModifyGroup` | emu/core/instructions.cpp:124-177 | ASL, ROL, LSR, ROR, DEC and INC in memory: the cell at the address written out becomes the shifted, rotated or counted value, the flags follow, nothing else changes |
| `InstructionGroups.ModifyAccumulator` | emu/core/instructions.cpp:116-122 | the same four shifts and rotations on the accumulator |
| `InstructionGroups.CountsUndo` | emu/core/instructions.cpp:401-415 | INC and DEC at one address undo each other over two steps, in either order |
| `InstructionGroups.IndexLoads` | emu/core/instructions.cpp:312-324 | LDX loads X and LDY loads Y and no other register, LDX indexing with Y and LDY with X |
| `InstructionGroups.IndexStores` | emu/core/instructions.cpp:181-214 | STX stores X and STY stores Y at the address written out and nothing else changes |
| `InstructionGroups.IndexCompares` | emu/core/instructions.cpp:334-348 | CPX and CPY leave carry iff the register is not below the operand and zero iff they are equal |
| `InstructionGroups.BitTests` | emu/core/instructions.cpp:392-397 | BIT as written: N tells that accumulator and operand share no bit, Z a zero operand, V bit 6 |
| `InstructionGroups.OneByteGroup` | emu/core/instructions.cpp:284-301 | each transfer, register count, flag instruction and NOP by its opcode byte |
| `InstructionGroups.PushGroup` | emu/core/instructions.cpp:492-510 | PHA and PHP store at 0x100 + SP and step SP down; the status byte bit by bit |
| `InstructionGroups.PullGroup` | emu/core/instructions.cpp:512-534 | PLA and PLP step SP up and take the byte there; the flags bit by bit |
| `InstructionGroups.BranchGroup` | emu/core/instructions.cpp:267-282 | each of the eight branches adds its signed operand exactly when its flag has its value |
| `InstructionGroups.JumpGroup` | emu/core/instructions.cpp:557-583 | JMP and JMP (indirect), whose pointer stays on its page |
| `InstructionGroups.CallGroup` | emu/core/instructions.cpp:536-555 | JSR pushes the address of its last byte and jumps |
| `InstructionGroups.ReturnGroup` | emu/core/instructions.cpp:585-597 | RTS goes one past the pulled address |
| `InstructionGroups.InterruptReturnGroup` | emu/core/instructions.cpp:607-619 | RTI pulls status and PC |
| `InstructionGroups.BreakGroup` | emu/core/instructions.cpp:599-605 | BRK saves the address behind it and the status with B and goes to the word at the vector that is due |
| `InstructionGroups.UndefinedGroup` | emu/core/cpu.cpp:136-307 | every byte outside these groups only moves the PC |
| `InstructionCycles.GroupOneCycles` | emu/core/instructions.cpp:13-261 | cycles of the accumulator group by addressing mode |
| `InstructionCycles.ModifyGroupCycles` | emu/core/instructions.cpp:124-177 | cycles of the modifying instructions |
| `InstructionCycles.IndexGroupCycles` | emu/core/instructions.cpp:13-214 | cycles of the index register instructions and BIT |
| `InstructionCycles.OtherCycles` | emu/core/instructions.cpp:456-627 | cycles of the one-byte, stack, jump and undefined opcodes |
| `InstructionCycles.BranchCycles` | emu/core/instructions.cpp:267-282 | two cycles, one more when taken, another when the page changes |
| `IrqProtocol.StepPolls` | emu/core/cpu.cpp:356-372 | which interrupts an instruction makes due: NMI if pending, IRQ if pending and not masked, the mask being the flag before CLI, SEI, PLP and the other flag instructions and after all others |
| `IrqProtocol.MaskedNeverDue` | emu/core/cpu.cpp:362-366 | over every run of steps, resets and requests with the disable flag set throughout, no IRQ becomes due |
| `IrqProtocol.IrqServed` | emu/core/cpu.cpp:13-28 | a pending unmasked IRQ is due after the next instruction that polls and then enters through 0xFFFE, masks and withdraws the request |
| `IrqProtocol.EarlyPolls` | emu/core/instructions.cpp:284-290 | SEI lets a pending IRQ in once more and CLI keeps it out once more |
| `PowerUp.PowerStarts` | emu/core/cpu.cpp:30-45 | after power-up the PC is the word at 0xFFFC, RAM is zero but for the three pushed bytes, SP is 0xFD and interrupts are disabled |
| `PowerUp.ResetStarts` | emu/core/cpu.cpp:47-52 | after reset the PC is the word at 0xFFFC and memory is kept but for three pushed bytes and the sound register |
| `PowerUp.ConsoleStarts` | emu/core/cpu.cpp:30-45 | on the console the PC is the word program ROM shows at 0xFFFC |
| `PowerUp.ConsoleRestarts` | emu/core/cpu.cpp:47-52 | and after reset |
| `PowerUp.RamMirrored` | emu/core/cpu.cpp:54-63 | a byte written to RAM is read at every address 0x800 apart and nowhere else |
| `PowerUp.RegistersMirrored` | emu/core/ppu.cpp:122-137 | the eight PPU registers repeat up to 0x3FFF |
| `PowerUp.UpperFixed` | emu/core/cartridge.cpp:99-106 | above them nothing is written, and nothing is read below program ROM |
| `PowerUp.RomInPlace` | emu/core/cartridge.cpp:69-76 | a ROM of 32 KiB lies at 0x8000 byte for byte |
| `PowerUp.EndsAtTopExact` | emu/core/cartridge.cpp:69-76 | every ROM of a size ends at 0xFFFF if and only if the size is at most 64 KiB |
| `PowerUp.LargeRom` | emu/core/cartridge.cpp:69-76 | a larger one is read in its first 64 KiB only |
| `PpuRegisters.ScrollSet` | emu/core/ppu.cpp:220-230 | from any latch state and with any dots between, shown or not, reading $2002 and writing x and y to $2005 sets coarse x, fine x, coarse y and fine y to the pixel position and keeps the nametable |
| `PpuRegisters.CtrlSet` | emu/core/ppu.cpp:183-192 | $2000 sets nametable, address step, pattern tables, sprite size and NMI enable from its bits and keeps the position |
| `PpuRegisters.MaskSet` | emu/core/ppu.cpp:194-204 | $2001 shows the background iff bit 3, and each other bit |
| `PpuRegisters.ProgramScrolls` | emu/core/ppu.cpp:178-230 | a program that writes $2000, $2005 twice and $2001 leaves column and row of t at its pixel position |
| `PpuRegisters.StatusValue` | emu/core/ppu.cpp:148-152 | a read of $2002 returns each flag ORed with the latch bit, clears blanking and the write latch |
| `PpuRegisters.StatusExact` | emu/core/ppu.cpp:148-152 | bit 7 tells blanking if and only if blanking has begun or bit 7 of the latch is clear |
| `PpuRegisters.StatusStale` | emu/core/ppu.cpp:148-152 | a second read reports blanking again although the first cleared it |
| `PpuRegisters.VblankDot` | emu/core/ppumain.cpp:84-97 | the status flags change at (241, 1) and (261, 1) only |
| `PpuRegisters.VblankHeld` | emu/core/ppumain.cpp:205-217 | unread, the flag stays for twenty lines |
| `PpuRegisters.VblankEnds` | emu/core/ppumain.cpp:205-217 | and is cleared on the pre-render line |
| `PpuRegisters.OamSet` | emu/core/ppu.cpp:210-218 | $2003 and $2004 set and step the sprite address |
| `PpuRegisters.PaletteRoundTrip` | emu/core/ppu.cpp:159-167 | a palette byte is read back at once, at every address 32 apart and nowhere else |
| `PpuRegisters.PatternRom` | emu/core/cartridge.cpp:107-109 | pattern ROM reads its bytes and ignores writes |
| `PpuRegisters.NametablesShared` | emu/core/ppu.cpp:323-352 | which two of the four nametables each mirroring shows alike |
| `PpuRegisters.PowerObserved` | emu/core/ppu.cpp:19-59 | what a program finds after power-up: registers as after writing zeros, zero memory and position, blanking reported at once and beginning again at the 82183rd dot |
| `PpuRegisters.ResetObserved` | emu/core/ppu.cpp:70-99 | after reset the same registers and counters, with address registers, memory and blanking flag kept |
| `PpuTiles.AddressesAre` | emu/core/ppu.cpp:408-460 | the addresses of the four fetches, from the bit fields, are those of the tile at column H and row V of the picture, its 4 by 4 block and its pattern row |
| `PpuTiles.AddressesApart` | emu/core/ppu.cpp:408-431 | tiles share a nametable byte only with themselves and an attribute byte exactly within a 4 by 4 block |
| `PpuTiles.EightDots` | emu/core/ppumain.cpp:113-124 | over eight dots of a rendering line the latches receive the bytes at the four addresses |
| `PpuTiles.TileFetched` | emu/core/ppumain.cpp:113-124 | that is, the bytes of the tile at the scrolled column and row |
| `PpuTiles.LineTiles` | emu/core/ppumain.cpp:126-220 | every one of the 34 tiles fetched on a rendering line is the tile of the scrolled picture at its column and row |
| `PpuTiles.LineTail` | emu/core/ppumain.cpp:126-142 | the last four dots of a line fetch a nametable and an attribute byte and no pattern |
| `PpuTiles.NothingFetched` | emu/core/ppumain.cpp:126-220 | no other dot fetches: blank lines, dot 0, dots 257 to 320, odd dots |
| `PpuTiles.NothingScrolled` | emu/core/ppumain.cpp:197-220 | on lines 240 to 260 the scroll registers rest |
| `CanonicalRules.NextCode` | external/stb/stb_image.h:4028-4040 | each code is the code before it, in order of length and symbol, plus one and lengthened by zeros |
| `CanonicalRules.FirstCodeIsZero` | external/stb/stb_image.h:4028-4040 | and the first is zero |
| `InflateTables.LengthExtraIs` | external/stb/stb_image.h:4178-4179 | extra bits of length symbols by closed form |
| `InflateTables.DistExtraIs` | external/stb/stb_image.h:4184-4185 | extra bits of distance symbols by closed form |
| `InflateTables.LengthsTile` | external/stb/stb_image.h:4173-4176 | lengths begin at 3, each symbol takes up where the one before it ends, and 285 is 258 alone |
| `InflateTables.DistancesTile` | external/stb/stb_image.h:4181-4182 | distances begin at 1, each symbol takes up where the one before it ends, up to 32768 |
| `InflateTables.SpelledExactly` | external/stb/stb_image.h:4173-4185 | a token spells a length and distance if and only if they are 3 to 258 and 1 to 32768 |
| `InflateTables.SpelledOnce` | external/stb/stb_image.h:4173-4185 | in one way, but for the two spellings of length 258 |
| `InflateRoundTrip.BlockRoundTrip` | external/stb/stb_image.h:4187-4227 | a stream that begins with the encoding of tokens and is read to the end of its block yields exactly these tokens and leaves what is behind them |
| `InflateRoundTrip.BlockNotStuck` | external/stb/stb_image.h:4187-4227 | with sixteen bits behind the tokens, a growing buffer and at most 2 GiB of output the loop never gives up on such a stream |
| `PngMeaning.NearestUnique` | external/stb/stb_image.h:4527-4537 | the Paeth predictor is the one neighbour nearest to a + b - c, ties going to a and then b |
| `PngMeaning.ReconMeans` | external/stb/stb_image.h:4587-4634 | each byte of a reconstructed row minus its stored byte is, modulo 256, nothing, the left byte, the upper byte, the floor of their mean or the nearest neighbour, by its filter |
| `PngMeaning.ImageMeans` | external/stb/stb_image.h:4567-4651 | the same for every byte of an image, by the filter byte of its row |
| `JpegZigzag.ZigzagIsWalk` | external/stb/stb_image.h:2128-2142 | the table is the diagonal walk of figure 5 of ITU-T T.81, and its padding repeats the last place |
| `JpegZigzag.ZigzagPermutes` | external/stb/stb_image.h:2128-2142 | a permutation of the 64 places, with the number of each place in closed form |
| `JpegZigzag.ZigzagMoves` | external/stb/stb_image.h:2128-2142 | row plus column never falls; within a diagonal the row moves by one, up on even and down on odd ones |
| `JpegStream.GrowKeeps` | external/stb/stb_image.h:2013-2029 | refilling leaves the bits still to be delivered alone, wherever they are |
| `JpegStream.MarkerEnds` | external/stb/stb_image.h:2013-2029 | a marker behind fill bytes stops the reader, its code is noted, and zeros are delivered |
| `JpegStream.DataEnds` | external/stb/stb_image.h:2013-2029 | data that ends without a marker goes on with zeros |
| `JpegStream.SymbolRead` | external/stb/stb_image.h:2035-2082 | a symbol whose code comes next is returned and exactly its bits are dropped |
| `JpegStream.CoefficientRead` | external/stb/stb_image.h:2089-2102 | a coefficient is the extension of the next bits, which are dropped |
| `JpegRoundTrip.BlockRoundTrip` | external/stb/stb_image.h:2166-2191 | for any builder table and any runs and nonzero values it can code, with the 0xF0 and end-of-block symbols: the block read back has each value times its quantiser at the place of the walk its runs count to, every other place unchanged, and the reader behind the last bit |
| `JpegRoundTrip.FileRoundTrip` | external/stb/stb_image.h:2013-2191 | the same from the stuffed bytes of a file, with the combined table |
| `CpuCode.CPU.Step` | emu/core/cpu.cpp:13-28 | after one call every register, flag, pending line, operand byte, cycle count and memory cell is what the declarative step semantics says, through every opcode of `execute`, every addressing mode and instruction function, and the interrupt sequence |
| `CpuCode.CPU.Power` | emu/core/cpu.cpp:30-45 | RAM and sound registers cleared, registers reset, then the reset sequence from SP 0 |
| `CpuCode.CPU.ResetSignal` | emu/core/cpu.cpp:47-52 | the reset sequence, including its pushes |
| `CpuCode.CPU.RaiseIrq` | emu/core/cpu.cpp:66-69 | only the IRQ line changes |
| `CpuCode.CPU.RaiseNmi` | emu/core/cpu.cpp:72-75 | only the NMI line changes |

## Left out

- Background pixel output, attribute and pattern shift registers, palette colours.
- Sprites and object memory beyond its address register, sound registers and mappers: stubs in the source.
- Video, windows, the debugger's command loop, tracing, file and argument handling: input, output and plumbing; the fetch callback is not modelled.
- Objects sharing a bus: the CPU's memory is a value that holds RAM, PPU and ROM, and the PPU object is handed its state for its dots and hands it back.
- Reads of the program ROM out of range and of unmapped addresses are undefined in the source and read as zero here.
- The 32-bit cycle counter of the emulator and the 64-bit counters of the PPU are mathematical integers.
- BusTable.Bus.Map: the seventeenth mapping is not modelled, because the search then reads past its table.
- BusTable.Bus.Remap: asks for a covered start, because an uncovered entry of the lookup table is uninitialised.
- Disassembler.DisassembleBlock: speaks of blocks whose loop ends; `LoopIsListing` and `LoopNeedNotEnd` say which ends those are for every memory.
- PpuCode.PPU.Run: leaves out pixel output and the shift registers, as do the members below it, because the source marks that step as unfinished.
- PpuCode.PPU.Lcycle: leaves out pixel output and the shift registers.
- PpuCode.PPU.CycleTab: leaves out pixel output and the shift registers.
- PpuCode.PPU.Ccycle: leaves out pixel output and the shift registers.
- PpuCode.PPU.BeginFrameDot: its precondition is the assertion in the source; every reachable dot meets it.
- ZHuffman.Tables.Build: lengths are at most 15 and at most 288 of them, as its callers provide.
- InflateBlock.ParseBlock: asks for codes that are not endless, because for the others no bound on the rounds exists; `ParseRounds` covers those for any number of rounds. Distance symbols 30 and 31 leave the copied bytes open.
- Inflate.OutBuf.Reserve: a failed reallocation is not modelled.
- Stored blocks, dynamic code-length tables and the zlib header are not modelled.
- PngCode.CreateRaw: bit depths below 8, the low alpha byte of 16-bit images and allocation limits are not modelled; 16-bit images without added alpha are rows of wider pixels.
- PNG chunks, palettes, transparency and colour types other than by bytes per pixel are not modelled.
- JpegCode.Reader.DecodeAc: covers the AC loop of a baseline block; the DC coefficient, progressive scans, dequantisation tables' parsing, the inverse transform and colour conversion are not modelled.
- JpegCode.Reader.GrowBuffer: a shift by more than 31 positions, which happens only for a zero byte after a marker, is taken as zero.
- JpegHuffman.Tables.Build: asks for at most 256 symbols, the size of its arrays.
- The other image formats of `stb_image.h`, its SIMD kernels and floating-point paths are not modelled.
