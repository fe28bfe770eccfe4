# The fuse Z80 interrupt core and Spectrum frame time-base, in Dafny

This project models the part of the fuse ZX Spectrum emulator that the
processor and the machine share around time:

- **the Z80's flag tables** (`z80_flags.dfy`): the four constant 8-entry
  tables for half carry and overflow, and the three 256-entry tables
  (sign/zero/bit 5/bit 3, parity, and their union) filled once at start-up;
- **the Z80's interrupt, reset and snapshot logic** (`z80.dfy`):
  - cold and warm reset;
  - acceptance of a maskable interrupt, with the one-instruction delay after
    EI and the NMOS parity quirk after `LD A,I`/`LD A,R`;
  - the retriggered-interrupt event;
  - the non-maskable interrupt with its peripheral arbitration and paging;
  - transfer of the register file to and from a snapshot;
- **the shared timing state** (`timing.dfy`): the 32-bit cycle counter, the
  queue of pending events and the C integer conversions the timing code
  relies on (unsigned wrap-around, unsigned-to-signed reinterpretation,
  division truncating toward zero);
- **the Spectrum's end of frame** (`spectrum.dfy`): moving the counter, the
  EI stamp and every pending event back by the frame length, calling the
  per-frame hooks of the other subsystems in order, scheduling the next
  end-of-frame interrupt and counting frames;
- **memory contention and the floating bus** (`contention.dfy`): the wait
  states a memory access suffers while the ULA fetches the screen, for the
  48K-style and 128K-style patterns, and the byte an unattached port returns.

The processor (`Z80.Processor`), the clock (`Timing.Clock`) and the
machine's frame state (`Spectrum.Machine`) are classes whose methods update
their fields in place. Memory is a 64 KiB `array` written by the stack
pushes. Each method is proved against a specification function:
`Z80.AcceptedRegs`, `Z80.Pushed`, `Z80.WarmReset`, `Z80.Exported`,
`Z80.Imported`, `Timing.Rebased` and `Spectrum.FrameHooks`. The lemmas
beside them state what the source promises about those functions.

C integer behaviour is written out:

- the cycle counter is unsigned 32-bit (`Wrap32`);
- the EI stamp `interrupts_enabled_at` is signed 32-bit;
- signed/unsigned mixes convert as C does (`Signed32`, `Wrap32`);
- signed `/` and `%` truncate toward zero (`CDiv`, `CMod`).

The IM2 vector fetch reads its second byte from the 16-bit successor of
`I*256+0xFF`, as the code's `libspectrum_word` increment does. When I is
0xFF that is address 0x0000.

## Model

| member | source | states |
|---|---|---|
| Z80Flags.HalfcarryIndex | z80/z80.c:45-48 | bit 0 of the index is bit 3 of the first argument, bit 1 that of the second, bit 2 that of the result |
| Z80Flags.OverflowIndex | z80/z80.c:52 | bit 0 of the index is bit 7 of the first argument, bit 1 that of the second, bit 2 that of the result |
| Z80Flags.HalfcarryAdd | z80/z80.c:45-49 | the add half-carry table, indexed by bit 3 of both arguments and of the result, yields H exactly when the low nibbles plus carry exceed 0x0F |
| Z80Flags.HalfcarrySub | z80/z80.c:45-50 | the subtract half-carry table yields H exactly when the low nibble of the first argument is below that of the second plus borrow |
| Z80Flags.OverflowAdd | z80/z80.c:52-53 | the add overflow table, indexed by bit 7 of both arguments and of the result, yields V exactly when the signed sum leaves -128..127 |
| Z80Flags.OverflowSub | z80/z80.c:52-54 | the subtract overflow table yields V exactly when the signed difference leaves -128..127 |
| Z80Flags.BitParityIsPopcountParity | z80/z80.c:131-136 | XOR-reducing the low k bits of a number below 2^k gives its count of set bits modulo 2 |
| Z80Flags.ByteParity | z80/z80.c:131-136 | the eight-step XOR loop over a byte returns 1 exactly for an odd number of set bits |
| Z80Flags.CombinedTableIsUnion | z80/z80.c:58-60 | the combined entry is the union of the sz53 and parity entries; sz53 never sets C, N, P or H; Z is set only at index 0; S is bit 7 of the index |
| Z80Flags.InitTables | z80/z80.c:124-144 | after the fill, every entry of the three tables is the masked S/5/3 bits (with Z at 0), P for even parity, and their union |
| Z80.Inc16 | z80/z80.c:194 | a 16-bit register increment is one more, modulo 2^16 |
| Z80.Dec16 | z80/z80.c:204-205 | a 16-bit register decrement is undone by the increment |
| Z80.Join | z80/z80.c:230-231 | a register pair built from two bytes has them as its high and low bytes |
| Z80.WithoutParityFlag | z80/z80.c:183 | clearing P/V keeps every other bit of F and leaves bit 2 clear |
| Z80.ColdReset | z80/z80.c:148-166 | after a hard reset AF and AF' are all ones, SP is 0xFFFF, every other register pair, memptr, I, R, R7, PC, IM, both flip-flops, halted, the IFF2-read marker and Q are zero, and the EI stamp is -1 |
| Z80.WarmReset | z80/z80.c:148-167 | a soft reset is the cold-reset state except that BC, DE, HL, their shadows, IX, IY and memptr are kept |
| Z80.WarmResetIdempotent | z80/z80.c:148-167 | a warm reset is idempotent, lands on PC 0, SP 0xFFFF with IFF1 clear, and a warm reset of the cold state is the cold state |
| Z80.Processor.Reset | z80/z80.c:148-167 | the registers become the cold-reset state on a hard reset and the warm reset of the old state otherwise |
| Z80.Iff2Quirk | z80/z80.c:177-184 | on an NMOS part right after LD A,I/LD A,R, P is cleared and every other bit of F is kept; otherwise nothing changes; F can change only when P was set |
| Z80.Pushed | z80/z80.c:204-205 | a push stores the high byte at SP-1 and the low byte at SP-2 (mod 2^16), reads back as the pushed word, and changes no other address |
| Z80.Push | z80/z80.c:204-205 | writing the two bytes into memory leaves exactly the pushed image |
| Z80.Im2Vector | z80/z80.c:224-232 | the mode 2 target has its low byte from I*256+0xFF and its high byte from the next 16-bit address |
| Z80.ReturnAddress | z80/z80.c:193-196 | a halted processor resumes one past the HALT; otherwise at PC |
| Z80.AcceptedRegs | z80/z80.c:193-240 | accepting clears HALT, IFF1 and IFF2 and Q, counts R, moves SP down by two, sets PC and memptr to 0x0038 (modes 0 and 1) or to the mode 2 vector, and changes nothing else |
| Z80.Processor.Interrupt | z80/z80.c:171-249 | refused with no change when IFF1 is clear, the interrupt window has closed or the SCLD disables it; postponed by a retriggered event one cycle later right after EI; otherwise accepted: return address pushed, registers as AcceptedRegs, seven cycles added and the recording offset decremented |
| Z80.Processor.Accept | z80/z80.c:193-242 | the acceptance sequence leaves the pushed memory image, the AcceptedRegs registers, seven more cycles and an unchanged event queue |
| Z80.Processor.InterruptEvent | z80/z80.c:83-92 | during playback the event does nothing; otherwise it is one interrupt attempt, and a recorded frame closes exactly when it is accepted |
| Z80.NmiPaging | z80/z80.c:273-288 | at most one paging action, chosen by capability in priority order; the Scorpion write goes to port 0x1ffd with bit 1 of the last value set |
| Z80.Processor.Nmi | z80/z80.c:253-292 | if the network adapter's flip-flop claims the NMI, nothing changes; otherwise HALT is left, IFF1 cleared with IFF2 kept, R counted, five cycles added, the return address pushed and PC set to 0x0066 |
| Z80.Exported | z80/z80.c:338-375 | the snapshot's R has bit 7 from R7 and bits 0-6 from the counter; "last was EI" holds exactly when the stamp equals the counter; "set F" exactly when Q is non-zero |
| Z80.Imported | z80/z80.c:303-335 | R and R7 both take the snapshot's R; the EI stamp is the counter (as signed) when "last was EI" and -1 otherwise, and compares equal to the counter exactly then or when the counter is all ones; Q is F when "set F" and 0 otherwise; the IFF2-read marker is kept |
| Z80.RefreshByte | z80/z80.c:342 | the exported R has bit 7 from R7 and bits 0-6 from the counter |
| Z80.ExportImportRoundTrip | z80/z80.c:303-375 | export then import restores every register but R (only its observable bits), the EI stamp (exactly when it was "now" or "none") and Q (exactly when it was 0 or equal to F) |
| Z80.ImportExportRoundTrip | z80/z80.c:303-375 | import then export gives back the snapshot, except that set-F is lost when F is 0 and EI is reported when the counter equals the "none" stamp's unsigned value |
| Z80.Processor.ToSnapshot | z80/z80.c:338-375 | the snapshot holds the exported state; R combines R7's bit 7 with the counter's low bits; "last was EI" holds exactly when the stamp equals the counter; "set F" exactly when Q is non-zero |
| Z80.Processor.FromSnapshot | z80/z80.c:303-335 | the registers become the imported state of the snapshot at the current cycle |
| Timing.Wrap32 | spectrum.c:152 | conversion to unsigned 32-bit keeps values in range and differs from its input by a multiple of 2^32 |
| Timing.Signed32 | spectrum.c:153-154 | reinterpreting as signed is undone by the unsigned conversion and is non-negative exactly below 2^31 |
| Timing.CDivMod | spectrum.c:186-196 | C's truncating quotient and remainder recompose the dividend, and the remainder takes the dividend's sign |
| Timing.WrapCongruent | spectrum.c:152-154 | two integers have the same unsigned 32-bit value exactly when they differ by a multiple of 2^32 |
| Timing.Rebased | spectrum.c:150 | every pending event keeps its kind and position and moves back by the frame length |
| Timing.RebasePreservesOrder | spectrum.c:150 | rebasing keeps the relative order of every pair of events, and an event due after the frame length stays in the future |
| Timing.Clock.Add | z80/z80.c:189 | scheduling appends the event to the queue |
| Timing.Clock.Rebase | spectrum.c:150 | the queue becomes its rebased image |
| Spectrum.FrameLength | spectrum.c:147-148 | in playback the whole elapsed count is removed, leaving the counter at 0; otherwise a frame's worth is, leaving the excess |
| Spectrum.RebasedEiStamp | spectrum.c:153-154 | a negative stamp is kept; a real one moves back by the frame length through the unsigned subtraction |
| Spectrum.FrameRebaseKeepsEiWindow | spectrum.c:152-154 | after the rebase, "EI was the last instruction" holds exactly when it held before, for a real stamp, and for a negative one (the "none" value -1) while the counter is at least the frame length and below the stamp's unsigned image |
| Spectrum.FrameHooks | spectrum.c:151-168 | a frame calls two or three hooks up to the display, and three or four more (the profiler's being the optional one) exactly when the display does not abort |
| Spectrum.FrameRebaseKeepsEventDistances | spectrum.c:150-152 | without wrap-around, every pending event is as many cycles away after the rebase as before |
| Spectrum.FrameHooksOrder | spectrum.c:151-168 | breakpoints come first; sound runs exactly when enabled; the display always runs and comes last exactly when it aborts; the loader runs exactly when the frame is not aborted; the printer runs exactly when the frame is not aborted; the profiler exactly when active and not aborted; a frame that is not aborted ends with the profiler (the display when the profiler is off), the printer, the loader and the phantom typist, in that order |
| Spectrum.RebaseFrame | spectrum.c:147-154 | the counter, the event queue and the EI stamp move back by the frame length, and nothing else changes |
| Spectrum.Machine.FinishFrame | spectrum.c:159-170 | the tail hooks run, the next end-of-frame event is scheduled unless in playback, and the frame count advances |
| Spectrum.Machine.Frame | spectrum.c:139-173 | the frame rebase, the hook sequence FrameHooks, the end-of-frame event unless aborted or in playback, the frame count advancing unless aborted, and 1 exactly when the display aborts |
| Spectrum.Machine.Reset | spectrum.c:76-80 | either kind of reset zeroes the frame count |
| Contention.BeamLineFromElapsed | spectrum.c:186-188 | without wrap-around, the line is the elapsed cycles since the first displayed line divided by the line length; a time up to 2^31 cycles before that line gives a line of at most 0 |
| Contention.BeamOffset | spectrum.c:193-196 | the cycle within the line, after C's `%`, lies strictly between minus and plus the line length |
| Contention.ContendDelayCommon | spectrum.c:181-215 | no delay outside the 192 screen lines or the screen window; inside it, the pattern entry for the cycle's place in its 8-cycle group |
| Contention.ContendDelay65432100 | spectrum.c:217-221 | the 48K-style delay is at most 6 and zero outside a window opening one cycle early |
| Contention.ContendDelay76543210 | spectrum.c:223-227 | the 128K-style delay is at most 7 and zero outside a window opening four cycles early |
| Contention.ContendDelayNone | spectrum.c:175-179 | uncontended machines never delay |
| Contention.SlotAfterWait | spectrum.c:61-62 | waiting out either pattern's delay lands on an 8-cycle phase whose own delay is zero (phase 5 or 6 for 48K-style, 5 for 128K-style) |
| Contention.DelayReachesFreeSlot | spectrum.c:181-227 | a contended access is delayed until exactly a cycle at which the ULA leaves the bus free |
| Contention.ContentionPeriodic | spectrum.c:193-214 | inside the screen window of one line, the delay repeats every eight cycles |
| Contention.ScreenLine | spectrum.c:240-242 | at or after the first screen line, the line number is the elapsed cycles divided by the line length |
| Contention.LineOffsetFromElapsed | spectrum.c:250-252 | when the sum stays in 0..2^31, the in-line cycle is the elapsed cycles since the line's first pixel plus the left border less 16 |
| Contention.Column | spectrum.c:263-264 | the fetched column is even and non-negative, and when the screen width is a whole number of 8-cycle groups, column + 1 is below the width divided by 4, so both bytes of the fetched pair lie within the line |
| Contention.UnattachedPort | spectrum.c:230-296 | 0xFF above, below and beside the screen and on phases 0, 1, 6 and 7; on phases 2, 3, 4 and 5 the pixel byte, attribute byte, next pixel byte and next attribute byte being fetched |
| Contention.UnattachedPortNone | spectrum.c:298-302 | machines without the floating bus always read 0xFF |
| Contention.FloatingBusGroup | spectrum.c:263-293 | over an 8-cycle group of a screen line, the port reads idle, idle, pixel, attribute, next pixel, next attribute, idle, idle |

## Left out

- Memory is a flat 64 KiB array. ROM write protection, paging and contended
  writes (`writebyte`/`readbyte`) are not part of this model. The IM2
  vector read is a plain array read.
- Collaborators are parameters or entries of the `Hook` log:
  - the interrupt window length, the SCLD's interrupt disable and the CMOS/NMOS choice;
  - playback state and the network adapter's flip-flop;
  - machine capabilities and the frame length;
  - what the display hook answers.

  What the hooks, the debugger, sound, printer, loader, phantom typist,
  Spectranet, TR-DOS and the Scorpion port write actually do is not modelled.
- Z80.Processor.Interrupt: the cycle counter advances by the 7 cycles
  the processor code adds itself. The memory accessors behind the two
  pushes and the mode 2 vector reads advance it further (3 cycles each plus
  contention); that cost is not modelled.
- Z80.Processor.Accept: as for Interrupt, only the 7 acknowledge cycles
  are counted, not the cost of the memory accessors.
- Z80.Processor.Nmi: only the 5 cycles the processor code adds are
  counted, not the cost of the memory accessors behind the two pushes.
- Z80.Processor.Interrupt: an interrupt mode above 2 reaches the source's
  fatal-error report and abort. The model makes `im <= 2` a precondition
  of acceptance instead.
- Start-up and registration code is not modelled, because it only registers
  callbacks: `z80_init`, `z80_register_startup`, `spectrum_init`,
  `spectrum_register_startup`, `get_frame_count`.
- `spectrum_frame_event_fn` is not modelled; it only sequences other
  subsystems.
- `z80_retn` is not modelled; it only forwards to the network adapter.
- compat/wii/dir.c is not part of this model.
- The opcode interpreter that sets `iff2_read`, `Q` and the EI stamp is not
  part of this model.
- IFF1, IFF2, halted and `iff2_read` are booleans. The source keeps them in
  bytes used only as truth values.
- Event stamps are unbounded integers. Rebasing an event due before the
  frame length gives a negative stamp rather than the source's unsigned
  wrap.
- The display constants (24 border lines, 192 screen lines, 4 border
  columns) and 16-bit machine timing fields are taken from headers that are
  not part of this model.
- Contention.ContendDelayCommon: requires a positive line length and an
  offset no larger than the left border. Both hold for every Spectrum model.
- Contention.UnattachedPort: requires a line length of at least 2 and
  screen offsets that keep every fetch inside the screen. Otherwise the C
  code's arithmetic or array reads are undefined.
- Contention.ContentionPeriodic: proved only where the cycle arithmetic
  does not wrap and the window is still open eight cycles later.
- Contention.FloatingBusGroup: proved only where the cycle arithmetic does
  not wrap and the group starts on an 8-cycle boundary of the screen window.
- Spectrum.FrameRebaseKeepsEiWindow: for a negative stamp, stated only
  while the counter is at least the frame length and below the stamp's
  unsigned image. With the "none" value -1, a counter of 0 and a frame
  length of 1, the rebased counter wraps to the all-ones value the stamp
  compares equal to.
- Spectrum.FrameRebaseKeepsEventDistances: stated only when the frame
  length does not exceed the counter, where the unsigned subtraction does
  not wrap.
