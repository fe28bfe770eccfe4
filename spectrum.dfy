/**
 * The Spectrum's frame time-base: at the end of every video frame the cycle
 * counter, the EI stamp and every pending event move back by the frame
 * length, the per-frame hooks of the other subsystems run, the next
 * end-of-frame event is scheduled and the frame counter advances.
 */
module Spectrum {
  import opened Timing
  import opened Z80

  /** The per-frame hooks of other subsystems that the frame code calls,
      recorded in call order; what they do is not part of this model. */
  datatype Hook =
    | BreakpointReduce(length: U32)   // move timed breakpoints back by the frame length
    | SoundFrame                      // flush the frame's audio
    | DisplayFrame                    // render the frame; may ask to abort it
    | ProfileFrame(length: U32)       // move the profiler's stamps back
    | PrinterFrame                    // flush printer output
    | LoaderFrame(length: U32)        // tape-loading acceleration bookkeeping
    | PhantomTypistFrame              // automatic typing of load commands

  /** The length of the frame just ended: during input-recording playback,
      every cycle run so far; otherwise the machine's frame length. */
  function FrameLength(rzxPlayback: bool, tstates: U32, tstatesPerFrame: U32): (len: U32)
    ensures rzxPlayback ==> Wrap32(tstates - len) == 0
    ensures !rzxPlayback && tstates >= tstatesPerFrame ==> Wrap32(tstates - len) == tstates - tstatesPerFrame
  {
    if rzxPlayback then tstates else tstatesPerFrame
  }

  /** The EI stamp after the frame rebase: a real stamp moves back by the
      frame length (the subtraction is done unsigned and stored back into the
      signed field); the "none" sentinel, or any negative stamp, is left alone. */
  function RebasedEiStamp(iea: Int32, len: U32): (r: Int32)
    ensures iea < 0 ==> r == iea
    ensures 0 <= iea && len <= iea ==> r == iea - len
    ensures 0 <= iea ==> Wrap32(r) == Wrap32(iea - len)
  {
    if iea >= 0 then Signed32(Wrap32(iea - len)) else iea
  }

  /** The rebase keeps the one-instruction EI window intact: an EI executed
      at the last cycle is still seen as "just executed" against the rebased
      counter, and no other instruction is. A negative stamp (the "none"
      value -1 among them) is compared as its unsigned image, so it is safe
      as long as the counter is below that image and not below the frame length. */
  lemma FrameRebaseKeepsEiWindow(s: Regs, tstates: U32, len: U32)
    requires s.interruptsEnabledAt >= 0 || len <= tstates < Wrap32(s.interruptsEnabledAt)
    ensures EiJustExecuted(s.(interruptsEnabledAt := RebasedEiStamp(s.interruptsEnabledAt, len)), Wrap32(tstates - len))
            <==> EiJustExecuted(s, tstates)
  {
    var e := s.interruptsEnabledAt;
    if e >= 0 {
      WrapCongruent(e - len, tstates - len);
      WrapCongruent(e, tstates);
    }
  }

  /** Rebasing the queue and the counter together keeps the distance from
      "now" to every pending event, as long as the counter does not wrap. */
  lemma FrameRebaseKeepsEventDistances(q: seq<Event>, tstates: U32, len: U32)
    requires len <= tstates
    ensures forall i :: 0 <= i < |q| ==>
      Rebased(q, len)[i].stamp - Wrap32(tstates - len) == q[i].stamp - tstates
  {
  }

  /** The hooks that run after the display when it did not abort the frame:
      the profiler (when active), the printer, the loader and the phantom typist. */
  function TailHooks(len: U32, profileActive: bool): seq<Hook>
  {
    (if profileActive then [ProfileFrame(len)] else []) + [PrinterFrame, LoaderFrame(len), PhantomTypistFrame]
  }

  /** The hooks one frame runs, in order: breakpoints, sound (when enabled),
      display; then, unless the display asked to abort, the tail hooks. */
  function FrameHooks(len: U32, soundEnabled: bool, displayAbort: bool, profileActive: bool): (h: seq<Hook>)
    ensures |h| == (if soundEnabled then 3 else 2) + (if displayAbort then 0 else if profileActive then 4 else 3)
  {
    var upToSound := if soundEnabled then [BreakpointReduce(len), SoundFrame] else [BreakpointReduce(len)];
    var upToDisplay := upToSound + [DisplayFrame];
    if displayAbort then upToDisplay else upToDisplay + TailHooks(len, profileActive)
  }

  /** What a frame runs: breakpoints always first; sound exactly when enabled;
      the display always, and last exactly when it aborts the frame; the
      printer and the loader exactly when the frame is not aborted, and the
      profiler exactly when it is active and the frame is not aborted; a frame
      that is not aborted ends with the profiler (or the display when the
      profiler is off), the printer, the loader and the phantom typist. */
  lemma FrameHooksOrder(len: U32, soundEnabled: bool, displayAbort: bool, profileActive: bool)
    ensures var h := FrameHooks(len, soundEnabled, displayAbort, profileActive);
      && |h| >= 2 && h[0] == BreakpointReduce(len)
      && DisplayFrame in h
      && (SoundFrame in h <==> soundEnabled)
      && (LoaderFrame(len) in h <==> !displayAbort)
      && (ProfileFrame(len) in h <==> profileActive && !displayAbort)
      && h[|h| - 1] == (if displayAbort then DisplayFrame else PhantomTypistFrame)
      && (PrinterFrame in h <==> !displayAbort)
      && (!displayAbort ==> |h| >= 5 && h[|h| - 3..] == [PrinterFrame, LoaderFrame(len), PhantomTypistFrame]
                            && h[|h| - 4] == (if profileActive then ProfileFrame(len) else DisplayFrame))
  {
    var head := (if soundEnabled then [BreakpointReduce(len), SoundFrame] else [BreakpointReduce(len)]) + [DisplayFrame];
    var tail := TailHooks(len, profileActive);
    assert head[|head| - 1] == DisplayFrame;
    assert LoaderFrame(len) !in head && ProfileFrame(len) !in head;
    assert SoundFrame !in tail && LoaderFrame(len) in tail;
    assert PrinterFrame !in head && PrinterFrame in tail;
    assert ProfileFrame(len) in tail <==> profileActive;
  }

  /** Moves the time-base back by `len` cycles: the pending events, the cycle
      counter, and the EI stamp when it holds a real stamp. */
  method RebaseFrame(cpu: Processor, clock: Clock, len: U32)
    modifies cpu, clock
    ensures clock.tstates == Wrap32(old(clock.tstates) - len)
    ensures clock.events == Rebased(old(clock.events), len)
    ensures clock.rzxInstructionsOffset == old(clock.rzxInstructionsOffset)
    ensures cpu.regs == old(cpu.regs).(interruptsEnabledAt := RebasedEiStamp(old(cpu.regs.interruptsEnabledAt), len))
  {
    clock.Rebase(len);
    clock.tstates := Wrap32(clock.tstates - len);
    var r := cpu.regs;
    if r.interruptsEnabledAt >= 0 {
      cpu.regs := r.(interruptsEnabledAt := Signed32(Wrap32(r.interruptsEnabledAt - len)));
    }
  }

  /** The machine-level state the frame code owns: the frame counter, and
      the record of hooks it has called. */
  class Machine {
    var framesSinceReset: U32
    var hooks: seq<Hook>

    constructor ()
      ensures framesSinceReset == 0 && hooks == []
    {
      framesSinceReset := 0;
      hooks := [];
    }

    /** Either kind of reset restarts the frame count. */
    method Reset(hard: bool)
      modifies this`framesSinceReset
      ensures framesSinceReset == 0
    {
      framesSinceReset := 0;
    }

    /** The part of a frame after the display, when it did not abort: the
        tail hooks run, the next end-of-frame interrupt is scheduled (unless
        playback supplies them) and the frame counter advances. */
    method FinishFrame(clock: Clock, len: U32, tstatesPerFrame: U32, rzxPlayback: bool, profileActive: bool)
      returns (tail: seq<Hook>)
      modifies this`framesSinceReset, clock`events
      ensures tail == TailHooks(len, profileActive)
      ensures clock.events == old(clock.events) + (if rzxPlayback then [] else [Event(tstatesPerFrame, EndOfFrame)])
      ensures framesSinceReset == Wrap32(old(framesSinceReset) + 1)
    {
      tail := [];
      if profileActive {
        tail := [ProfileFrame(len)];
      }
      tail := tail + [PrinterFrame];
      if !rzxPlayback {
        clock.Add(tstatesPerFrame, EndOfFrame);
      }
      tail := tail + [LoaderFrame(len), PhantomTypistFrame];
      framesSinceReset := Wrap32(framesSinceReset + 1);
    }

    /** Ends one frame. `displayAbort` is what the display hook answers; the
        result is 1 when it asked to abort the frame, 0 otherwise. */
    method Frame(cpu: Processor, clock: Clock, tstatesPerFrame: U32,
                 rzxPlayback: bool, soundEnabled: bool, displayAbort: bool, profileActive: bool)
      returns (status: int)
      modifies this, cpu, clock
      ensures clock.tstates == Wrap32(old(clock.tstates) - FrameLength(rzxPlayback, old(clock.tstates), tstatesPerFrame))
      ensures clock.events == Rebased(old(clock.events), FrameLength(rzxPlayback, old(clock.tstates), tstatesPerFrame))
                + (if displayAbort || rzxPlayback then [] else [Event(tstatesPerFrame, EndOfFrame)])
      ensures clock.rzxInstructionsOffset == old(clock.rzxInstructionsOffset)
      ensures cpu.regs == old(cpu.regs).(interruptsEnabledAt :=
                RebasedEiStamp(old(cpu.regs.interruptsEnabledAt), FrameLength(rzxPlayback, old(clock.tstates), tstatesPerFrame)))
      ensures hooks == old(hooks) + FrameHooks(FrameLength(rzxPlayback, old(clock.tstates), tstatesPerFrame),
                                               soundEnabled, displayAbort, profileActive)
      ensures status == (if displayAbort then 1 else 0)
      ensures framesSinceReset == if displayAbort then old(framesSinceReset) else Wrap32(old(framesSinceReset) + 1)
    {
      var frameLength := if rzxPlayback then clock.tstates else tstatesPerFrame;
      var called := [BreakpointReduce(frameLength)];

      RebaseFrame(cpu, clock, frameLength);

      if soundEnabled {
        called := [BreakpointReduce(frameLength), SoundFrame];
      }

      called := called + [DisplayFrame];
      if displayAbort {
        // The display asked to abort: nothing further runs this frame.
        status := 1;
        assert called == FrameHooks(frameLength, soundEnabled, displayAbort, profileActive);
      } else {
        var tail := FinishFrame(clock, frameLength, tstatesPerFrame, rzxPlayback, profileActive);
        called := called + tail;
        status := 0;
        assert called == FrameHooks(frameLength, soundEnabled, displayAbort, profileActive);
      }
      hooks := hooks + called;
    }
  }
}
