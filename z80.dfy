/**
 * The Z80 processor's interrupt, reset and snapshot logic: accepting a
 * maskable interrupt (with the one-instruction delay after EI and the NMOS
 * parity quirk), the non-maskable interrupt with its peripheral arbitration,
 * cold and warm reset, and the transfer of the register file to and from a
 * snapshot.
 */
module Z80 {
  import opened Timing

  /** Wraps a 16-bit register increment. */
  function Inc16(w: Word): (r: Word)
    ensures (r - w - 1) % 0x1_0000 == 0
  {
    if w == 0xFFFF then 0 else w + 1
  }

  /** Wraps a 16-bit register decrement. */
  function Dec16(w: Word): (r: Word)
    ensures Inc16(r) == w
  {
    if w == 0 then 0xFFFF else w - 1
  }

  /** High byte of a register pair. */
  function Hi(w: Word): Byte { w / 0x100 }

  /** Low byte of a register pair. */
  function Lo(w: Word): Byte { w % 0x100 }

  /** Register pair from its two bytes. */
  function Join(lo: Byte, hi: Byte): (w: Word)
    ensures Hi(w) == hi && Lo(w) == lo
  {
    hi * 0x100 + lo
  }

  /** Bit 2 of F (the P/V flag) cleared, every other bit kept. */
  function WithoutParityFlag(f: Byte): (g: Byte)
    ensures g % 4 == f % 4 && g / 8 == f / 8
    ensures (g / 4) % 2 == 0
  {
    if (f / 4) % 2 == 1 then f - 4 else f
  }

  /** The whole register file and control state of the processor, as one value. */
  datatype Regs = Regs(
    a: Byte, f: Byte, a': Byte, f': Byte,
    bc: Word, de: Word, hl: Word, bc': Word, de': Word, hl': Word,
    ix: Word, iy: Word, sp: Word, pc: Word,
    iReg: Byte, rReg: Word, r7: Byte,
    iff1: bool, iff2: bool, im: Byte,
    halted: bool, iff2Read: bool, memptr: Word, q: Byte,
    interruptsEnabledAt: Int32)

  /** The state after a hard (power-on) reset; nothing of the old state survives. */
  function ColdReset(): (r: Regs)
    ensures r.a == 0xFF && r.f == 0xFF && r.a' == 0xFF && r.f' == 0xFF
    ensures r.bc == 0 && r.de == 0 && r.hl == 0 && r.bc' == 0 && r.de' == 0 && r.hl' == 0
    ensures r.ix == 0 && r.iy == 0 && r.memptr == 0
    ensures r.iReg == 0 && r.rReg == 0 && r.r7 == 0 && r.pc == 0 && r.sp == 0xFFFF
    ensures !r.iff1 && !r.iff2 && r.im == 0 && !r.halted && !r.iff2Read && r.q == 0
    ensures r.interruptsEnabledAt == -1
  {
    Regs(0xFF, 0xFF, 0xFF, 0xFF,
         0, 0, 0, 0, 0, 0,
         0, 0, 0xFFFF, 0,
         0, 0, 0,
         false, false, 0,
         false, false, 0, 0,
         -1)
  }

  /** The state after a soft reset of `s`. */
  function WarmReset(s: Regs): (t: Regs)
    ensures t == ColdReset().(bc := s.bc, de := s.de, hl := s.hl,
                              bc' := s.bc', de' := s.de', hl' := s.hl',
                              ix := s.ix, iy := s.iy, memptr := s.memptr)
  {
    s.(a := 0xFF, f := 0xFF, a' := 0xFF, f' := 0xFF,
       iReg := 0, rReg := 0, r7 := 0, pc := 0, sp := 0xFFFF,
       iff1 := false, iff2 := false, im := 0,
       halted := false, iff2Read := false, q := 0,
       interruptsEnabledAt := -1)
  }

  /** A warm reset is idempotent, and a cold reset after it is still a cold reset. */
  lemma WarmResetIdempotent(s: Regs)
    ensures WarmReset(WarmReset(s)) == WarmReset(s)
    ensures WarmReset(s).pc == 0 && WarmReset(s).sp == 0xFFFF && !WarmReset(s).iff1
    ensures WarmReset(ColdReset()) == ColdReset()
  {
  }

  /** The /INT line is held and the processor listens: IFF1 is set, the
      interrupt window of the frame is still open and, on Timex machines,
      the SCLD has not disabled interrupts. */
  predicate IntAsserted(s: Regs, tstates: U32, interruptLength: int, scldIntDisable: bool)
  {
    s.iff1 && tstates < interruptLength && !scldIntDisable
  }

  /** The instruction just executed was EI (the stamp is compared as unsigned, as in C). */
  predicate EiJustExecuted(s: Regs, tstates: U32)
  {
    Wrap32(s.interruptsEnabledAt) == tstates
  }

  /** An interrupt is accepted at this call. */
  predicate Accepts(s: Regs, tstates: U32, interruptLength: int, scldIntDisable: bool)
  {
    IntAsserted(s, tstates, interruptLength, scldIntDisable) && !EiJustExecuted(s, tstates)
  }

  /** After LD A,I or LD A,R on an NMOS part, the parity flag reads as if IFF2
      had already been cleared by the interrupt. */
  function Iff2Quirk(s: Regs, isCmos: bool): (t: Regs)
    ensures t.f != s.f ==> s.iff2Read && !isCmos && (s.f / 4) % 2 == 1
    ensures t == s.(f := t.f)
    ensures s.iff2Read && !isCmos ==> (t.f / 4) % 2 == 0 && t == s.(f := WithoutParityFlag(s.f))
    ensures !(s.iff2Read && !isCmos) ==> t == s
  {
    if s.iff2Read && !isCmos then s.(f := WithoutParityFlag(s.f)) else s
  }

  /** The 64 KiB address space after pushing `w` at `sp`: high byte at sp-1, low byte at sp-2. */
  function Pushed(mem: seq<Byte>, sp: Word, w: Word): (m: seq<Byte>)
    requires |mem| == 0x1_0000
    ensures |m| == 0x1_0000
    ensures m[Dec16(sp)] == Hi(w) && m[Dec16(Dec16(sp))] == Lo(w)
    ensures Join(m[Dec16(Dec16(sp))], m[Inc16(Dec16(Dec16(sp)))]) == w
    ensures forall k :: 0 <= k < 0x1_0000 && k != Dec16(sp) && k != Dec16(Dec16(sp)) ==> m[k] == mem[k]
  {
    mem[Dec16(sp) := Hi(w)][Dec16(Dec16(sp)) := Lo(w)]
  }

  /** Pushes `w` onto the stack whose pointer is `sp`, one byte at a time,
      high byte first. */
  method Push(mem: array<Byte>, sp: Word, w: Word)
    requires mem.Length == 0x1_0000
    modifies mem
    ensures mem[..] == Pushed(old(mem[..]), sp, w)
  {
    ghost var m0: seq<Byte> := mem[..];
    mem[Dec16(sp)] := Hi(w);
    mem[Dec16(Dec16(sp))] := Lo(w);
    assert mem[..] == m0[Dec16(sp) := Hi(w)][Dec16(Dec16(sp)) := Lo(w)];
  }

  /** The interrupt-mode-2 target: two bytes read at I*256+0xFF and at the
      next address (a 16-bit increment, so it carries into the high byte). */
  function Im2Vector(mem: seq<Byte>, i: Byte): (pc: Word)
    requires |mem| == 0x1_0000
    ensures Lo(pc) == mem[i * 0x100 + 0xFF]
    ensures Hi(pc) == mem[if i == 0xFF then 0 else (i + 1) * 0x100]
  {
    var v := i * 0x100 + 0xFF;
    Join(mem[v], mem[Inc16(v)])
  }

  /** The kind of ROM paging the NMI handler asks for. */
  datatype Paging =
    | ScorpionRom2(port: Word, value: Byte)  // write to port 0x1ffd selecting ROM 2
    | BetaDiskRom                            // page in the TR-DOS ROM
    | SpectranetPage                         // let the network adapter page itself in
    | NoPaging

  /** What the NMI handler did. */
  datatype NmiOutcome = Intercepted | Taken(paging: Paging)

  /** The one paging action an NMI takes, by machine capability in priority order. */
  function NmiPaging(scorpMemory: bool, lastByte2: Byte, betaAvailable: bool, spectranetAvailable: bool): (p: Paging)
    ensures p.ScorpionRom2? <==> scorpMemory
    ensures p.BetaDiskRom? <==> !scorpMemory && betaAvailable
    ensures p.SpectranetPage? <==> !scorpMemory && !betaAvailable && spectranetAvailable
    ensures p.ScorpionRom2? ==> p.port == 0x1ffd && (p.value / 2) % 2 == 1 && p.value - lastByte2 in {0, 2}
  {
    if scorpMemory then ScorpionRom2(0x1ffd, if (lastByte2 / 2) % 2 == 1 then lastByte2 else lastByte2 + 2)
    else if betaAvailable then BetaDiskRom
    else if spectranetAvailable then SpectranetPage
    else NoPaging
  }

  /** The processor fields as the external snapshot object holds them. */
  datatype Snapshot = Snapshot(
    a: Byte, f: Byte, a': Byte, f': Byte,
    bc: Word, de: Word, hl: Word, bc': Word, de': Word, hl': Word,
    ix: Word, iy: Word, i: Byte, r: Byte, sp: Word, pc: Word,
    memptr: Word, iff1: bool, iff2: bool, im: Byte, halted: bool,
    lastInstructionEi: bool, lastInstructionSetF: bool)

  /** The R register as one byte: bit 7 from R7, bits 0-6 from the counter. */
  function RefreshByte(rReg: Word, r7: Byte): (b: Byte)
    ensures b % 0x80 == rReg % 0x80 && b / 0x80 == r7 / 0x80
  {
    (r7 / 0x80) * 0x80 + rReg % 0x80
  }

  /** The snapshot written for state `s` at cycle `tstates`. */
  function Exported(s: Regs, tstates: U32): (snap: Snapshot)
    ensures snap.r % 0x80 == s.rReg % 0x80 && snap.r / 0x80 == s.r7 / 0x80
    ensures snap.lastInstructionEi <==> s.interruptsEnabledAt == Signed32(tstates)
    ensures snap.lastInstructionSetF <==> s.q != 0
  {
    SignedOfWrap(s.interruptsEnabledAt);
    Snapshot(s.a, s.f, s.a', s.f', s.bc, s.de, s.hl, s.bc', s.de', s.hl',
             s.ix, s.iy, s.iReg, RefreshByte(s.rReg, s.r7), s.sp, s.pc,
             s.memptr, s.iff1, s.iff2, s.im, s.halted,
             Wrap32(s.interruptsEnabledAt) == tstates, s.q != 0)
  }

  /** The state read back from `snap` at cycle `tstates`; the one field the
      snapshot does not carry (whether the last instruction read IFF2) is kept from `s`. */
  function Imported(s: Regs, snap: Snapshot, tstates: U32): (t: Regs)
    ensures t.rReg == snap.r && t.r7 == snap.r && t.iff2Read == s.iff2Read
    ensures t.interruptsEnabledAt == if snap.lastInstructionEi then Signed32(tstates) else -1
    ensures t.q == if snap.lastInstructionSetF then snap.f else 0
    ensures Wrap32(t.interruptsEnabledAt) == tstates <==> snap.lastInstructionEi || tstates == 0xFFFF_FFFF
  {
    Regs(snap.a, snap.f, snap.a', snap.f', snap.bc, snap.de, snap.hl, snap.bc', snap.de', snap.hl',
         snap.ix, snap.iy, snap.sp, snap.pc, snap.i, snap.r, snap.r,
         snap.iff1, snap.iff2, snap.im, snap.halted, s.iff2Read, snap.memptr,
         if snap.lastInstructionSetF then snap.f else 0,
         Signed32(if snap.lastInstructionEi then tstates else 0xFFFF_FFFF))
  }

  /** Export then import gives back every register, flip-flop, mode, the halted
      flag and memptr; of R only the observable bits survive; the EI stamp
      survives exactly when it was "now" or "none", and Q exactly when it was
      0 or equal to F. */
  lemma ExportImportRoundTrip(s: Regs, tstates: U32)
    ensures var t := Imported(s, Exported(s, tstates), tstates);
      t == s.(rReg := t.rReg, r7 := t.r7, interruptsEnabledAt := t.interruptsEnabledAt, q := t.q)
      && t.rReg % 0x80 == s.rReg % 0x80 && t.r7 / 0x80 == s.r7 / 0x80
      && (t.interruptsEnabledAt == s.interruptsEnabledAt <==>
            s.interruptsEnabledAt == Signed32(tstates) || s.interruptsEnabledAt == -1)
      && (t.q == s.q <==> s.q == 0 || s.q == s.f)
  {
    var t := Imported(s, Exported(s, tstates), tstates);
    if Wrap32(s.interruptsEnabledAt) == tstates {
      SignedOfWrap(s.interruptsEnabledAt);
    } else {
      assert Wrap32(Signed32(tstates)) == tstates;
    }
  }

  /** Import then export gives back the snapshot, except that "last instruction
      set F" is lost when F is zero, and "last instruction was EI" is invented
      when the cycle counter sits at the all-ones value the "none" stamp converts to. */
  lemma ImportExportRoundTrip(s: Regs, snap: Snapshot, tstates: U32)
    ensures Exported(Imported(s, snap, tstates), tstates) ==
      snap.(lastInstructionEi := snap.lastInstructionEi || tstates == 0xFFFF_FFFF,
            lastInstructionSetF := snap.lastInstructionSetF && snap.f != 0)
    ensures Exported(Imported(s, snap, tstates), tstates) == snap <==>
      (snap.lastInstructionEi || tstates != 0xFFFF_FFFF) && (!snap.lastInstructionSetF || snap.f != 0)
  {
  }

  /** The address an interrupt pushes: a halted processor resumes after the HALT. */
  function ReturnAddress(s: Regs): (ret: Word)
    ensures s.halted ==> (ret - s.pc - 1) % 0x1_0000 == 0
    ensures !s.halted ==> ret == s.pc
  {
    if s.halted then Inc16(s.pc) else s.pc
  }

  /** The registers after a maskable interrupt is accepted in state `s`, with
      `m` the memory once the return address is pushed: both flip-flops
      cleared, R counted, the stack grown by two bytes and the program counter
      at 0x0038 or, in mode 2, at the vector read from the table at I. */
  function AcceptedRegs(s: Regs, m: seq<Byte>): (t: Regs)
    requires |m| == 0x1_0000
    ensures !t.iff1 && !t.iff2 && !t.halted && t.q == 0
    ensures t.pc == t.memptr && t.sp == Dec16(Dec16(s.sp))
    ensures (t.rReg - s.rReg - 1) % 0x1_0000 == 0
    ensures s.im != 2 ==> t.pc == 0x0038
    ensures s.im == 2 ==> t.pc == Join(m[s.iReg * 0x100 + 0xFF], m[Inc16(s.iReg * 0x100 + 0xFF)])
    ensures t.(halted := s.halted, iff1 := s.iff1, iff2 := s.iff2, rReg := s.rReg,
               sp := s.sp, pc := s.pc, memptr := s.memptr, q := s.q) == s
  {
    var target := if s.im == 2 then Im2Vector(m, s.iReg) else 0x0038;
    s.(halted := false, iff1 := false, iff2 := false,
       rReg := Inc16(s.rReg), sp := Dec16(Dec16(s.sp)),
       pc := target, memptr := target, q := 0)
  }

  /** The processor: its register file, flip-flops, mode and latches, which
      the methods below update in place. */
  class Processor {
    var regs: Regs

    constructor ()
      ensures regs == ColdReset()
    {
      regs := ColdReset();
    }

    /** Cold (`hard`) or warm reset. */
    method Reset(hard: bool)
      modifies this
      ensures regs == if hard then ColdReset() else WarmReset(old(regs))
    {
      regs := regs.(a := 0xFF, f := 0xFF, a' := 0xFF, f' := 0xFF);
      regs := regs.(iReg := 0, rReg := 0, r7 := 0);
      regs := regs.(pc := 0, sp := 0xFFFF);
      regs := regs.(iff1 := false, iff2 := false, im := 0);
      regs := regs.(halted := false, iff2Read := false, q := 0);
      if hard {
        regs := regs.(bc := 0, de := 0, hl := 0, bc' := 0, de' := 0, hl' := 0);
        regs := regs.(ix := 0, iy := 0, memptr := 0);
      }
      regs := regs.(interruptsEnabledAt := -1);
    }

    /** The effect of one attempt to accept a maskable interrupt: refused with
        no change; postponed by one cycle right after EI; or accepted, pushing
        the return address and vectoring by interrupt mode. */
    twostate predicate InterruptEffect(clock: Clock, mem: array<Byte>,
                                       interruptLength: int, scldIntDisable: bool, isCmos: bool,
                                       accepted: bool)
      requires mem.Length == 0x1_0000
      reads this, clock, mem
    {
      var s, t := old(regs), old(clock.tstates);
      if !IntAsserted(s, t, interruptLength, scldIntDisable) then
        !accepted && regs == s && mem[..] == old(mem[..])
        && clock.tstates == t && clock.events == old(clock.events)
        && clock.rzxInstructionsOffset == old(clock.rzxInstructionsOffset)
      else if EiJustExecuted(s, t) then
        !accepted && regs == Iff2Quirk(s, isCmos) && mem[..] == old(mem[..])
        && clock.tstates == t && clock.events == old(clock.events) + [Event(Wrap32(t + 1), RetriggeredInterrupt)]
        && clock.rzxInstructionsOffset == old(clock.rzxInstructionsOffset)
      else
        var u := Iff2Quirk(s, isCmos);
        var m := Pushed(old(mem[..]), u.sp, ReturnAddress(u));
        accepted && mem[..] == m && regs == AcceptedRegs(u, m)
        && clock.tstates == Wrap32(t + 7) && clock.events == old(clock.events)
        && clock.rzxInstructionsOffset == old(clock.rzxInstructionsOffset) - 1
    }

    /** Attempts to accept a maskable interrupt; an interrupt mode above 2 is
        a fatal configuration error and may not reach acceptance. */
    method Interrupt(clock: Clock, mem: array<Byte>, interruptLength: int, scldIntDisable: bool, isCmos: bool)
      returns (accepted: bool)
      requires mem.Length == 0x1_0000
      requires Accepts(regs, clock.tstates, interruptLength, scldIntDisable) ==> regs.im <= 2
      modifies this, clock, mem
      ensures InterruptEffect(clock, mem, interruptLength, scldIntDisable, isCmos, accepted)
    {
      if regs.iff1 && clock.tstates < interruptLength && !scldIntDisable {
        regs := Iff2Quirk(regs, isCmos);
        if clock.tstates == Wrap32(regs.interruptsEnabledAt) {
          clock.Add(Wrap32(clock.tstates + 1), RetriggeredInterrupt);
          return false;
        }
        Accept(clock, mem);
        return true;
      } else {
        return false;
      }
    }

    /** The acceptance of a maskable interrupt once it is known to be taken:
        leave HALT, clear both flip-flops, count R, spend seven cycles, push
        the return address and vector by interrupt mode. */
    method Accept(clock: Clock, mem: array<Byte>)
      requires mem.Length == 0x1_0000 && regs.im <= 2
      modifies this, clock, mem
      ensures mem[..] == Pushed(old(mem[..]), old(regs).sp, ReturnAddress(old(regs)))
      ensures regs == AcceptedRegs(old(regs), mem[..])
      ensures clock.tstates == Wrap32(old(clock.tstates) + 7) && clock.events == old(clock.events)
      ensures clock.rzxInstructionsOffset == old(clock.rzxInstructionsOffset) - 1
    {
      var r := regs;
      r := r.(pc := ReturnAddress(r), halted := false);
      r := r.(iff1 := false, iff2 := false);
      r := r.(rReg := Inc16(r.rReg));
      clock.rzxInstructionsOffset := clock.rzxInstructionsOffset - 1;
      clock.tstates := Wrap32(clock.tstates + 7);
      Push(mem, r.sp, r.pc);
      r := r.(sp := Dec16(Dec16(r.sp)));
      if r.im == 0 || r.im == 1 {
        // Mode 0 reads 0xff (RST 38) from the idle bus; mode 1 is RST 38.
        r := r.(pc := 0x0038);
      } else {
        // The idle bus supplies 0xff as the low byte of the vector address.
        var v: Word := r.iReg * 0x100 + 0xFF;
        var lo := mem[v];
        v := Inc16(v);
        r := r.(pc := Join(lo, mem[v]));
      }
      regs := r.(memptr := r.pc, q := 0);
    }

    /** The retriggered-interrupt event: ignored during input playback,
        otherwise another attempt; an accepted one closes a recorded frame. */
    method InterruptEvent(clock: Clock, mem: array<Byte>, rzxPlayback: bool,
                          interruptLength: int, scldIntDisable: bool, isCmos: bool)
      returns (recordFrame: bool)
      requires mem.Length == 0x1_0000
      requires !rzxPlayback && Accepts(regs, clock.tstates, interruptLength, scldIntDisable) ==> regs.im <= 2
      modifies this, clock, mem
      ensures rzxPlayback ==> !recordFrame && unchanged(this, clock, mem)
      ensures !rzxPlayback ==> InterruptEffect(clock, mem, interruptLength, scldIntDisable, isCmos, recordFrame)
    {
      if rzxPlayback {
        return false;
      }
      recordFrame := Interrupt(clock, mem, interruptLength, scldIntDisable, isCmos);
    }

    /** A non-maskable interrupt: unless the network adapter claims it, push
        the return address, keep IFF2, take at most one paging action and
        jump to 0x0066. */
    method Nmi(clock: Clock, mem: array<Byte>, spectranetAvailable: bool, spectranetFlipflop: bool,
               scorpMemory: bool, lastByte2: Byte, betaAvailable: bool)
      returns (outcome: NmiOutcome)
      requires mem.Length == 0x1_0000
      modifies this, clock`tstates, mem
      ensures spectranetAvailable && spectranetFlipflop ==>
        outcome == Intercepted && unchanged(this, clock, mem)
      ensures !(spectranetAvailable && spectranetFlipflop) ==>
        var s := old(regs);
        outcome == Taken(NmiPaging(scorpMemory, lastByte2, betaAvailable, spectranetAvailable))
        && mem[..] == Pushed(old(mem[..]), s.sp, ReturnAddress(s))
        && regs == s.(halted := false, iff1 := false, rReg := Inc16(s.rReg),
                      sp := Dec16(Dec16(s.sp)), pc := 0x0066, q := 0)
        && clock.tstates == Wrap32(old(clock.tstates) + 5)
    {
      if spectranetAvailable && spectranetFlipflop {
        return Intercepted;
      }
      var r := regs;
      r := r.(pc := ReturnAddress(r), halted := false);
      r := r.(iff1 := false);
      r := r.(rReg := Inc16(r.rReg));
      clock.tstates := Wrap32(clock.tstates + 5);
      Push(mem, r.sp, r.pc);
      r := r.(sp := Dec16(Dec16(r.sp)));
      var paging;
      if scorpMemory {
        // Page in ROM 2.
        paging := ScorpionRom2(0x1ffd, if (lastByte2 / 2) % 2 == 1 then lastByte2 else lastByte2 + 2);
      } else if betaAvailable {
        paging := BetaDiskRom;
      } else if spectranetAvailable {
        paging := SpectranetPage;
      } else {
        paging := NoPaging;
      }
      regs := r.(q := 0, pc := 0x0066);
      return Taken(paging);
    }

    /** Copies the processor state into a snapshot. */
    method ToSnapshot(clock: Clock) returns (snap: Snapshot)
      ensures snap == Exported(regs, clock.tstates)
      ensures snap.r % 0x80 == regs.rReg % 0x80 && snap.r / 0x80 == regs.r7 / 0x80
      ensures snap.lastInstructionEi <==> regs.interruptsEnabledAt == Signed32(clock.tstates)
      ensures snap.lastInstructionSetF <==> regs.q != 0
    {
      var s := regs;
      var rRegister := RefreshByte(s.rReg, s.r7);
      snap := Snapshot(s.a, s.f, s.a', s.f', s.bc, s.de, s.hl, s.bc', s.de', s.hl', s.ix, s.iy,
                       s.iReg, rRegister, s.sp, s.pc, s.memptr, s.iff1, s.iff2, s.im, s.halted,
                       Wrap32(s.interruptsEnabledAt) == clock.tstates, s.q != 0);
      SignedOfWrap(s.interruptsEnabledAt);
    }

    /** Restores the processor state from a snapshot. */
    method FromSnapshot(clock: Clock, snap: Snapshot)
      modifies this
      ensures regs == Imported(old(regs), snap, clock.tstates)
    {
      regs := regs.(a := snap.a, f := snap.f, a' := snap.a', f' := snap.f');
      regs := regs.(bc := snap.bc, de := snap.de, hl := snap.hl);
      regs := regs.(bc' := snap.bc', de' := snap.de', hl' := snap.hl');
      regs := regs.(ix := snap.ix, iy := snap.iy, iReg := snap.i);
      regs := regs.(rReg := snap.r, r7 := snap.r);
      regs := regs.(sp := snap.sp, pc := snap.pc);
      regs := regs.(iff1 := snap.iff1, iff2 := snap.iff2, im := snap.im);
      regs := regs.(memptr := snap.memptr, halted := snap.halted);
      regs := regs.(interruptsEnabledAt := Signed32(if snap.lastInstructionEi then clock.tstates else 0xFFFF_FFFF));
      regs := regs.(q := if snap.lastInstructionSetF then regs.f else 0);
    }
  }
}
