/**
 * Memory contention and the floating bus of the Spectrum's ULA: the extra
 * wait states a memory access suffers while the display circuit is fetching
 * screen memory, and the byte an unattached port returns, which echoes
 * whatever the display circuit is fetching at that cycle.
 */
module Contention {
  import opened Timing

  // The display geometry shared by every Spectrum model: 24 border lines
  // above and below 192 screen lines, and 4 border columns (of 8 pixels,
  // that is 4 cycles each) shown to the left of the screen.
  const DISPLAY_BORDER_HEIGHT: int := 24
  const DISPLAY_HEIGHT: int := 192
  const DISPLAY_BORDER_WIDTH_COLS: int := 4
  const DISPLAY_SCREEN_HEIGHT: int := DISPLAY_BORDER_HEIGHT + DISPLAY_HEIGHT + DISPLAY_BORDER_HEIGHT

  /** Wait states by cycle within an 8-cycle group: the 48K and later ULAs,
      with the screen window starting one cycle early. */
  const Pattern65432100: seq<Byte> := [5, 4, 3, 2, 1, 0, 0, 6]

  /** Wait states by cycle within an 8-cycle group: the 128K gate array,
      with the screen window starting four cycles early. */
  const Pattern76543210: seq<Byte> := [5, 4, 3, 2, 1, 0, 7, 6]

  /** The per-machine video timing: the cycle at which each displayed line's
      first pixel appears, and the width of a line, of the left border and
      of the screen, all in cycles. */
  datatype Geometry = Geometry(lineTimes: seq<U32>, tstatesPerLine: Word, leftBorder: Word, horizontalScreen: Word)

  predicate ValidGeometry(g: Geometry)
  {
    |g.lineTimes| == DISPLAY_SCREEN_HEIGHT + 1 && g.tstatesPerLine > 0
  }

  /** The displayed line the beam is on at `time`, counting the top border
      (C signed division of the elapsed cycles since the first displayed line). */
  function BeamLine(time: U32, g: Geometry): int
    requires ValidGeometry(g)
  {
    CDiv(Signed32(Wrap32(time - g.lineTimes[0])), g.tstatesPerLine)
  }

  /** Without wrap-around the beam line is the elapsed cycles divided by the
      line length; a time up to 2^31 cycles before the first displayed line
      is never counted past line 0. */
  lemma BeamLineFromElapsed(time: U32, g: Geometry)
    requires ValidGeometry(g)
    ensures g.lineTimes[0] <= time && time - g.lineTimes[0] < TWO_31 ==>
      BeamLine(time, g) == (time - g.lineTimes[0]) / g.tstatesPerLine
    ensures time < g.lineTimes[0] && g.lineTimes[0] - time <= TWO_31 ==> BeamLine(time, g) <= 0
  {
    var d := time - g.lineTimes[0];
    if d < 0 && -d <= TWO_31 {
      DivModUnique(d, TWO_32, -1, d + TWO_32);
      assert Signed32(Wrap32(d)) == d;
    }
  }

  /** The cycle within its line at `time`, counted from the start of the
      left border the ULA produces rather than from the first displayed pixel
      (the unsigned sum is stored in a signed `int`, then C's `%` is taken). */
  function BeamOffset(time: U32, g: Geometry): (c: int)
    requires ValidGeometry(g)
    ensures -(g.tstatesPerLine as int) < c < g.tstatesPerLine
  {
    var x := Signed32(Wrap32(time - g.lineTimes[0] + (g.leftBorder - DISPLAY_BORDER_WIDTH_COLS * 4)));
    CDivMod(x, g.tstatesPerLine);
    CMod(x, g.tstatesPerLine)
  }

  /** The ULA is fetching screen memory at `time`: the beam is on one of the
      192 screen lines and inside the screen window, which starts `offset`
      cycles before the first screen pixel. */
  predicate Contended(time: U32, g: Geometry, offset: int)
    requires ValidGeometry(g)
  {
    DISPLAY_BORDER_HEIGHT <= BeamLine(time, g) < DISPLAY_BORDER_HEIGHT + DISPLAY_HEIGHT
    && g.leftBorder - offset <= BeamOffset(time, g) < g.leftBorder + g.horizontalScreen - offset
  }

  /** The wait states for a memory access at `time`: none in the borders and
      the retrace, otherwise the pattern entry for the cycle's place in its
      8-cycle group. */
  function ContendDelayCommon(time: U32, g: Geometry, pattern: seq<Byte>, offset: int): (r: Byte)
    requires ValidGeometry(g) && |pattern| == 8 && 0 <= offset <= g.leftBorder
    ensures !Contended(time, g, offset) ==> r == 0
    ensures Contended(time, g, offset) ==> 0 <= BeamOffset(time, g) && r == pattern[BeamOffset(time, g) % 8]
  {
    var line := BeamLine(time, g);
    var c := BeamOffset(time, g);
    if line < DISPLAY_BORDER_HEIGHT || line >= DISPLAY_BORDER_HEIGHT + DISPLAY_HEIGHT then 0
    else if c < g.leftBorder - offset then 0
    else if c >= g.leftBorder + g.horizontalScreen - offset then 0
    else pattern[c % 8]  // c >= 0 here, so C's % agrees with Dafny's
  }

  /** The 48K-style delay: never more than 6 cycles. */
  function ContendDelay65432100(time: U32, g: Geometry): (r: Byte)
    requires ValidGeometry(g) && g.leftBorder >= 1
    ensures r <= 6
    ensures !Contended(time, g, 1) ==> r == 0
  {
    ContendDelayCommon(time, g, Pattern65432100, 1)
  }

  /** The 128K-style delay: never more than 7 cycles. */
  function ContendDelay76543210(time: U32, g: Geometry): (r: Byte)
    requires ValidGeometry(g) && g.leftBorder >= 4
    ensures r <= 7
    ensures !Contended(time, g, 4) ==> r == 0
  {
    ContendDelayCommon(time, g, Pattern76543210, 4)
  }

  /** Machines whose memory is never contended. */
  function ContendDelayNone(time: U32): (r: Byte)
    ensures r == 0
  {
    0
  }

  /** Waiting out the delay of either pattern lands the access on a cycle
      of the 8-cycle group whose own delay is zero. */
  lemma SlotAfterWait(c: nat)
    ensures (c + Pattern65432100[c % 8]) % 8 in {5, 6}
    ensures Pattern65432100[(c + Pattern65432100[c % 8]) % 8] == 0
    ensures (c + Pattern76543210[c % 8]) % 8 == 5
    ensures Pattern76543210[(c + Pattern76543210[c % 8]) % 8] == 0
  {
    var p := c % 8;
    assert c == (c / 8) * 8 + p;
    assert (c + Pattern65432100[p]) % 8 == (p + Pattern65432100[p]) % 8;
    assert (c + Pattern76543210[p]) % 8 == (p + Pattern76543210[p]) % 8;
  }

  /** A contended access is delayed exactly until the ULA (48K) or the gate
      array (128K) next leaves the bus free: the cycle it resumes on is
      itself uncontended. */
  lemma DelayReachesFreeSlot(time: U32, g: Geometry)
    requires ValidGeometry(g) && g.leftBorder >= 4
    ensures Contended(time, g, 1) ==>
      var r := ContendDelay65432100(time, g);
      (BeamOffset(time, g) + r) % 8 in {5, 6} && Pattern65432100[(BeamOffset(time, g) + r) % 8] == 0
    ensures Contended(time, g, 4) ==>
      var r := ContendDelay76543210(time, g);
      (BeamOffset(time, g) + r) % 8 == 5 && Pattern76543210[(BeamOffset(time, g) + r) % 8] == 0
  {
    var c := BeamOffset(time, g);
    if c >= 0 {
      SlotAfterWait(c);
    }
  }

  /** Eight cycles later on the same line, with no wrap-around, the beam
      offset has advanced by eight. */
  lemma BeamOffsetAdvance(time: U32, g: Geometry)
    requires ValidGeometry(g) && time + 8 < TWO_32
    requires g.lineTimes[0] <= time && time + 8 - g.lineTimes[0] + g.leftBorder < TWO_31
    requires g.leftBorder >= DISPLAY_BORDER_WIDTH_COLS * 4
    requires BeamOffset(time, g) + 8 < g.tstatesPerLine
    ensures BeamOffset(time, g) >= 0 && BeamOffset(time + 8, g) == BeamOffset(time, g) + 8
  {
    var n := g.tstatesPerLine as int;
    var x := time - g.lineTimes[0] + (g.leftBorder - DISPLAY_BORDER_WIDTH_COLS * 4);
    assert 0 <= x && x + 8 < TWO_31;
    assert BeamOffset(time, g) == x % n;
    assert BeamOffset(time + 8, g) == (x + 8) % n;
    ModStep(x, 8, n);
  }

  /** Within one line, the delay repeats every eight cycles: an access eight
      cycles later, still inside the screen window of the same line, waits
      exactly as long. */
  lemma ContentionPeriodic(time: U32, g: Geometry, pattern: seq<Byte>, offset: int)
    requires ValidGeometry(g) && |pattern| == 8 && 0 <= offset <= g.leftBorder
    requires time + 8 < TWO_32
    requires g.lineTimes[0] <= time && time + 8 - g.lineTimes[0] + g.leftBorder < TWO_31
    requires g.leftBorder >= DISPLAY_BORDER_WIDTH_COLS * 4
    requires BeamOffset(time, g) + 8 < g.tstatesPerLine
    requires Contended(time, g, offset) && Contended(time + 8, g, offset)
    ensures ContendDelayCommon(time + 8, g, pattern, offset) == ContendDelayCommon(time, g, pattern, offset)
  {
    BeamOffsetAdvance(time, g);
    var c := BeamOffset(time, g);
    assert (c + 8) % 8 == c % 8;
  }

  /** The screen the ULA fetches from, with the offset of each screen line's
      pixel bytes and attribute bytes; every fetch the display window can
      make stays inside the screen. */
  predicate ValidScreen(g: Geometry, screen: seq<Byte>, lineStart: seq<int>, attrStart: seq<int>)
  {
    |lineStart| == DISPLAY_HEIGHT && |attrStart| == DISPLAY_HEIGHT
    && (forall l :: 0 <= l < DISPLAY_HEIGHT ==> 0 <= lineStart[l] && lineStart[l] + g.horizontalScreen / 4 + 1 < |screen|)
    && (forall l :: 0 <= l < DISPLAY_HEIGHT ==> 0 <= attrStart[l] && attrStart[l] + g.horizontalScreen / 4 + 1 < |screen|)
  }

  /** The screen line (counted from the first of the 192) at `t`, which is at
      or after that line's first pixel: unsigned division, stored in an `int`. */
  function ScreenLine(t: U32, g: Geometry): (line: int)
    requires ValidGeometry(g) && g.tstatesPerLine >= 2
    requires t >= g.lineTimes[DISPLAY_BORDER_HEIGHT]
    ensures line == (t - g.lineTimes[DISPLAY_BORDER_HEIGHT]) / g.tstatesPerLine >= 0
  {
    var q := (t - g.lineTimes[DISPLAY_BORDER_HEIGHT]) / g.tstatesPerLine;
    assert q * g.tstatesPerLine <= t - g.lineTimes[DISPLAY_BORDER_HEIGHT] < TWO_32;
    assert q < TWO_31;
    Signed32(q)
  }

  /** The cycle within screen line `line` at `t`, counted from the start of
      the left border the ULA produces. */
  function LineOffset(t: U32, g: Geometry, line: int): int
    requires ValidGeometry(g) && 0 <= line < DISPLAY_HEIGHT
  {
    Signed32(Wrap32(t - g.lineTimes[DISPLAY_BORDER_HEIGHT + line] + (g.leftBorder - DISPLAY_BORDER_WIDTH_COLS * 4)))
  }

  /** When the C sum stays in range, the cycle within the line is the elapsed
      cycles since the line's first pixel plus the left border less the four
      border columns shown. */
  lemma LineOffsetFromElapsed(t: U32, g: Geometry, line: int)
    requires ValidGeometry(g) && 0 <= line < DISPLAY_HEIGHT
    ensures var x := t - g.lineTimes[DISPLAY_BORDER_HEIGHT + line] + (g.leftBorder - DISPLAY_BORDER_WIDTH_COLS * 4);
      0 <= x < TWO_31 ==> LineOffset(t, g, line) == x
  {
  }

  /** The beam is over the screen (not the borders or the retrace) at `t`. */
  predicate OnScreen(t: U32, g: Geometry)
    requires ValidGeometry(g) && g.tstatesPerLine >= 2
  {
    t >= g.lineTimes[DISPLAY_BORDER_HEIGHT] && ScreenLine(t, g) < DISPLAY_HEIGHT
    && g.leftBorder <= LineOffset(t, g, ScreenLine(t, g)) < g.leftBorder + g.horizontalScreen
  }

  /** The first byte of the pair of character cells the ULA is fetching at
      cycle offset `c` of a line: two bytes per 8 cycles. */
  function Column(c: int, g: Geometry): (column: int)
    requires g.leftBorder <= c < g.leftBorder + g.horizontalScreen
    ensures 0 <= column && column % 2 == 0 && column + 1 <= g.horizontalScreen / 4 + 1
    ensures g.horizontalScreen % 8 == 0 ==> column + 1 < g.horizontalScreen / 4
  {
    var x := c - g.leftBorder;
    assert (x / 8) * 8 <= x;
    ColumnBound(x, g.horizontalScreen);
    (x / 8) * 2
  }

  /** On a screen a whole number of 8-cycle groups wide, the second byte of
      the last pair is still inside the line. */
  lemma ColumnBound(x: nat, width: nat)
    requires x < width
    ensures width % 8 == 0 ==> (x / 8) * 2 + 1 < width / 4
  {
    if width % 8 == 0 {
      var m := width / 8;
      assert width == 8 * m && m >= 1;
      DivModUnique(width, 4, 2 * m, 0);
      DivModUnique(8 * m - 1, 8, m - 1, 7);
      DivMonotone(x, 8 * m - 1, 8);
    }
  }

  /** The value of a read from an unattached port at `t`: 0xFF (the idle
      bus) outside the screen and on four cycles of every eight; on the other
      four, the pixel or attribute byte the ULA is fetching. */
  function UnattachedPort(t: U32, g: Geometry, screen: seq<Byte>, lineStart: seq<int>, attrStart: seq<int>): (r: Byte)
    requires ValidGeometry(g) && g.tstatesPerLine >= 2
    requires ValidScreen(g, screen, lineStart, attrStart)
    ensures !OnScreen(t, g) ==> r == 0xFF
    ensures OnScreen(t, g) ==>
      var line := ScreenLine(t, g);
      var c := LineOffset(t, g, line);
      var column := Column(c, g);
      && (c % 8 in {0, 1, 6, 7} ==> r == 0xFF)
      && (c % 8 == 2 ==> r == screen[lineStart[line] + column])
      && (c % 8 == 3 ==> r == screen[attrStart[line] + column])
      && (c % 8 == 4 ==> r == screen[lineStart[line] + column + 1])
      && (c % 8 == 5 ==> r == screen[attrStart[line] + column + 1])
  {
    if t < g.lineTimes[DISPLAY_BORDER_HEIGHT] then 0xFF
    else
      var line := ScreenLine(t, g);
      if line >= DISPLAY_HEIGHT then 0xFF
      else
        var c := LineOffset(t, g, line);
        if c < g.leftBorder then 0xFF
        else if c >= g.leftBorder + g.horizontalScreen then 0xFF
        else
          var column := Column(c, g);
          // Cases 5 and 4 advance to the second cell of the pair, then fall
          // through to cases 3 and 2.
          match c % 8
          case 5 => screen[attrStart[line] + column + 1]
          case 3 => screen[attrStart[line] + column]
          case 4 => screen[lineStart[line] + column + 1]
          case 2 => screen[lineStart[line] + column]
          case _ => 0xFF
  }

  /** Machines without the floating-bus effect always read the idle bus. */
  function UnattachedPortNone(): (r: Byte)
    ensures r == 0xFF
  {
    0xFF
  }

  /** Over one 8-cycle group of a screen line (starting on a group boundary),
      an unattached port reads idle, idle, pixel byte, attribute byte, the
      next pixel byte, the next attribute byte, idle, idle: the ULA's fetch
      order for two character cells. */
  lemma FloatingBusGroup(t: U32, g: Geometry, screen: seq<Byte>, lineStart: seq<int>, attrStart: seq<int>)
    requires ValidGeometry(g) && g.tstatesPerLine >= 2 && g.leftBorder % 8 == 0
    requires ValidScreen(g, screen, lineStart, attrStart)
    requires t + 7 < TWO_32 && OnScreen(t, g) && OnScreen(t + 7, g)
    requires ScreenLine(t + 7, g) == ScreenLine(t, g)
    requires LineOffset(t, g, ScreenLine(t, g)) % 8 == 0
    ensures var line := ScreenLine(t, g);
      var column := Column(LineOffset(t, g, line), g);
      seq(8, k requires 0 <= k < 8 => UnattachedPort(t + k, g, screen, lineStart, attrStart)) ==
      [0xFF, 0xFF,
       screen[lineStart[line] + column], screen[attrStart[line] + column],
       screen[lineStart[line] + column + 1], screen[attrStart[line] + column + 1],
       0xFF, 0xFF]
  {
    var line := ScreenLine(t, g);
    var c := LineOffset(t, g, line);
    var column := Column(c, g);
    var expected: seq<Byte> :=
      [0xFF, 0xFF,
       screen[lineStart[line] + column], screen[attrStart[line] + column],
       screen[lineStart[line] + column + 1], screen[attrStart[line] + column + 1],
       0xFF, 0xFF];
    forall j: U32 | t <= j < t + 8
      ensures UnattachedPort(j, g, screen, lineStart, attrStart) == expected[j - t]
    {
      SameLine(t, j - t, g);
      SameGroup(t, j - t, g, line);
      assert OnScreen(j, g);
    }
  }

  /** A cycle between two cycles on the same screen line is on that line too. */
  lemma SameLine(t: U32, k: nat, g: Geometry)
    requires ValidGeometry(g) && g.tstatesPerLine >= 2
    requires k < 8 && t + 7 < TWO_32 && t >= g.lineTimes[DISPLAY_BORDER_HEIGHT]
    requires ScreenLine(t + 7, g) == ScreenLine(t, g)
    ensures ScreenLine(t + k, g) == ScreenLine(t, g)
  {
    var base := t - g.lineTimes[DISPLAY_BORDER_HEIGHT];
    DivMonotone(base, base + k, g.tstatesPerLine);
    DivMonotone(base + k, base + 7, g.tstatesPerLine);
  }

  /** `k` cycles later on the same screen line, the offset within the line
      has advanced by `k` (no wrap-around this close to the line start). */
  lemma OffsetAdvance(t: U32, k: nat, g: Geometry, line: int)
    requires ValidGeometry(g) && 0 <= line < DISPLAY_HEIGHT && t + k < TWO_32
    requires 0 <= LineOffset(t, g, line) && LineOffset(t, g, line) + k < TWO_31
    ensures LineOffset(t + k, g, line) == LineOffset(t, g, line) + k
  {
    var x := t - g.lineTimes[DISPLAY_BORDER_HEIGHT + line] + (g.leftBorder - DISPLAY_BORDER_WIDTH_COLS * 4);
    WrapAdd(x, 0);
    WrapAdd(x, k);
    assert t + k - g.lineTimes[DISPLAY_BORDER_HEIGHT + line] + (g.leftBorder - DISPLAY_BORDER_WIDTH_COLS * 4) == x + k;
  }

  /** Inside an 8-cycle group that starts on a boundary, the phase is the
      distance into the group and the column does not move. */
  lemma ColumnSteady(c: int, k: nat, g: Geometry)
    requires g.leftBorder % 8 == 0 && c % 8 == 0 && k < 8
    requires g.leftBorder <= c && c + k < g.leftBorder + g.horizontalScreen
    ensures (c + k) % 8 == k
    ensures Column(c + k, g) == Column(c, g)
  {
    var qc, qb := c / 8, g.leftBorder / 8;
    DivModUnique(c + k, 8, qc, k);
    DivModUnique(c + k - g.leftBorder, 8, qc - qb, k);
    DivModUnique(c - g.leftBorder, 8, qc - qb, 0);
  }

  /** `k` cycles into a group that starts on a boundary and stays inside the
      screen window, the offset has advanced by `k` and the column has not moved. */
  lemma SameGroup(t: U32, k: nat, g: Geometry, line: int)
    requires ValidGeometry(g) && g.leftBorder % 8 == 0
    requires k < 8 && t + 7 < TWO_32 && 0 <= line < DISPLAY_HEIGHT
    requires g.leftBorder <= LineOffset(t, g, line) < g.leftBorder + g.horizontalScreen
    requires LineOffset(t + 7, g, line) < g.leftBorder + g.horizontalScreen
    requires LineOffset(t, g, line) % 8 == 0
    ensures LineOffset(t + k, g, line) == LineOffset(t, g, line) + k
    ensures g.leftBorder <= LineOffset(t + k, g, line) < g.leftBorder + g.horizontalScreen
    ensures LineOffset(t + k, g, line) % 8 == k
    ensures Column(LineOffset(t + k, g, line), g) == Column(LineOffset(t, g, line), g)
  {
    OffsetAdvance(t, 7, g, line);
    OffsetAdvance(t, k, g, line);
    ColumnSteady(LineOffset(t, g, line), k, g);
  }
}
