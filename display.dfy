/** The two pieces of arithmetic in the calendar's display task
    (`oled_display`): where the blinking cursor goes, and where the weekday
    name starts so that it is centred. Drawing itself is not modelled. */
module CalendarDisplay {
  import opened Wrappers

  datatype Point = Point(x: int, y: int)

  const DISPLAY_WIDTH: int := 128

  /** Left edge of the date and time lines. */
  const TEXT_X: int := 24

  /** Start and end of the underline for fields 1..6 (year, month, day,
      hour, minute, second). */
  const CURSOR_POSITIONS: seq<(Point, Point)> := [
    (Point(24, 18), Point(24 + 4 * 8, 18)),
    (Point(24 + 5 * 8, 18), Point(24 + 7 * 8, 18)),
    (Point(24 + 8 * 8, 18), Point(24 + 10 * 8, 18)),
    (Point(24, 40), Point(24 + 2 * 10, 40)),
    (Point(24 + 3 * 10, 40), Point(24 + 5 * 10, 40)),
    (Point(24 + 6 * 10, 40), Point(24 + 8 * 10, 40))
  ]

  /** The table index the source computes, `set_pos as usize - 1` on the
      32-bit target, when its guard `cursor_visible && set_pos != 0 &&
      set_pos <= 6` passes. The guard lets a negative `set_pos` through. */
  function CursorIndexAsWritten(visible: bool, setPos: int): (r: Option<int>)
    requires -0x8000_0000 <= setPos < 0x8000_0000
    ensures r.Some? <==> visible && setPos != 0 && setPos <= 6
  {
    if visible && setPos != 0 && setPos <= 6 then Some(setPos % 0x1_0000_0000 - 1) else None
  }

  /** A negative field index passes the guard as written and indexes far past
      the six-entry table, which would panic. */
  lemma NegativeFieldIndexOutOfBounds()
    ensures CursorIndexAsWritten(true, -1) == Some(0xFFFF_FFFE)
    ensures CursorIndexAsWritten(true, -1).value >= |CURSOR_POSITIONS|
  {
  }

  /** The underline drawn this frame, if any: only in the visible half of the
      blink and only for a selected field 1..6 (the guard as intended). */
  function CursorLine(visible: bool, setPos: int): (r: Option<(Point, Point)>)
    ensures r.Some? <==> visible && 1 <= setPos <= 6
  {
    if visible && 1 <= setPos <= 6 then Some(CURSOR_POSITIONS[setPos - 1]) else None
  }

  /** On every value the button task publishes (0..6) the guard as written
      and the intended one agree, and so does the table index. */
  lemma CursorGuardAgreesOnPublishedFields(visible: bool, setPos: int)
    requires 0 <= setPos <= 6
    ensures CursorIndexAsWritten(visible, setPos).Some? <==> CursorLine(visible, setPos).Some?
    ensures CursorLine(visible, setPos).Some? ==>
              CursorLine(visible, setPos).value == CURSOR_POSITIONS[CursorIndexAsWritten(visible, setPos).value]
  {
  }

  /** Digit counts of the date line `{:04}-{:02}-{:02}` and of the time line
      `{:02}:{:02}:{:02}`; one separator character follows each field. */
  const DATE_FIELD_WIDTHS: seq<nat> := [4, 2, 2]
  const TIME_FIELD_WIDTHS: seq<nat> := [2, 2, 2]

  /** Glyph widths of FONT_8X13 (date line) and FONT_10X20 (time line). */
  const DATE_GLYPH_WIDTH: int := 8
  const TIME_GLYPH_WIDTH: int := 10

  function SumWidths(ws: seq<nat>): nat {
    if ws == [] then 0 else ws[0] + SumWidths(ws[1..])
  }

  /** Character column where field `k` of a line starts. */
  function FieldColumn(widths: seq<nat>, k: nat): nat
    requires k <= |widths|
  {
    SumWidths(widths[..k]) + k
  }

  /** The cursor for field f underlines exactly that field's digits: it runs,
      on one pixel row, from the first to just past the last character cell
      of the field in the rendered date or time line. */
  lemma CursorUnderlinesField(setPos: int)
    requires 1 <= setPos <= 6
    ensures CursorLine(true, setPos).Some?
    ensures var line := CursorLine(true, setPos).value;
            var k := (setPos - 1) % 3;
            var widths := if setPos <= 3 then DATE_FIELD_WIDTHS else TIME_FIELD_WIDTHS;
            var glyph := if setPos <= 3 then DATE_GLYPH_WIDTH else TIME_GLYPH_WIDTH;
            && line.0.y == line.1.y
            && line.0.x == TEXT_X + glyph * FieldColumn(widths, k)
            && line.1.x == TEXT_X + glyph * (FieldColumn(widths, k) + widths[k])
  {
    assert DATE_FIELD_WIDTHS[..0] == [] && TIME_FIELD_WIDTHS[..0] == [];
    assert DATE_FIELD_WIDTHS[..1] == [4] && TIME_FIELD_WIDTHS[..1] == [2];
    assert DATE_FIELD_WIDTHS[..2] == [4, 2] && TIME_FIELD_WIDTHS[..2] == [2, 2];
    assert SumWidths([4, 2]) == 4 + SumWidths([2]);
    assert SumWidths([2, 2]) == 2 + SumWidths([2]);
  }

  /** Date and time fields sit on separate rows, date above time. */
  lemma CursorRows(setPos: int)
    requires 1 <= setPos <= 6
    ensures CursorLine(true, setPos).Some?
    ensures CursorLine(true, setPos).value.0.y == if setPos <= 3 then 18 else 40
  {
  }

  datatype Weekday = Mon | Tue | Wed | Thu | Fri | Sat | Sun

  function WeekdayName(d: Weekday): string {
    match d
    case Mon => "Monday"
    case Tue => "Tuesday"
    case Wed => "Wednesday"
    case Thu => "Thursday"
    case Fri => "Friday"
    case Sat => "Saturday"
    case Sun => "Sunday"
  }

  /** Left edge of the weekday name in 8-pixel glyphs: `(128 - len * 8) / 2`.
      Every name fits, so the unsigned subtraction never underflows, and the
      name is exactly centred: equal margins on both sides. */
  function WeekdayX(d: Weekday): (x: int)
    ensures 0 <= x
    ensures x + 8 * |WeekdayName(d)| <= DISPLAY_WIDTH
    ensures x == DISPLAY_WIDTH - (x + 8 * |WeekdayName(d)|)
  {
    (DISPLAY_WIDTH - |WeekdayName(d)| * 8) / 2
  }
}
