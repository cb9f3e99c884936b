/** barCreate, barSetMaxValue, barSetValue and barUpdateLabel of tui/window.c on one window row. */
module BarRow {
  import opened Words
  import opened Decimal
  import opened Bar

  const MAX_LABEL := 39   // the label buffer holds 40 with its terminator

  datatype Color = Default | Green | Yellow | Red

  // ---------- printf fields ----------

  function Blanks(n: nat): string {
    seq(n, _ => ' ')
  }

  function PadLeft(s: string, n: nat): string {
    if |s| >= n then s else Blanks(n - |s|) + s
  }

  function PadRight(s: string, n: nat): string {
    if |s| >= n then s else s + Blanks(n - |s|)
  }

  // "%-5s :["
  function HeadText(name: string): string {
    PadRight(name, 5) + " :["
  }

  // "%3d%%"
  function PercentText(p: nat): string {
    PadLeft(Numeral(p), 3) + "%"
  }

  // "%d" of a uint32_t, which is read as an int32_t.
  function SignedText(u: UInt32): string {
    if u < 0x8000_0000 then Numeral(u) else "-" + Numeral(UINT32_SIZE - u)
  }

  // " %5d/%-5d %-5s"
  function LabelText(value: UInt32, max: UInt32, unit: string): string {
    " " + PadLeft(SignedText(value), 5) + "/" + PadRight(SignedText(max), 5) + " " + PadRight(unit, 5)
  }

  lemma FourCharacters(p: nat)
    requires p <= 100
    ensures |PercentText(p)| == 4
  {
    assert Power10(3) == 1000;
    NumeralLength(p, 3);
  }

  lemma SignedTextFits(u: UInt32)
    ensures |SignedText(u)| <= 11
  {
    assert Power10(10) == 10000000000;
    NumeralLength(if u < 0x8000_0000 then u else UINT32_SIZE - u, 10);
  }

  // The label of a value, if it is set while that is the maximum, fits its buffer.
  ghost predicate LabelFits(value: UInt32, max: UInt32, unit: string) {
    |LabelText(Min(value, max), max, unit)| <= MAX_LABEL
  }

  lemma ShortUnitsFit(value: UInt32, max: UInt32, unit: string)
    requires |unit| <= 14
    ensures LabelFits(value, max, unit) && |LabelText(Min(value, max), max, unit)| < 40
  {
    SignedTextFits(Min(value, max));
    SignedTextFits(max);
  }

  // ---------- what the texts say, read back ----------

  // A uint32_t taken for an int32_t.
  ghost function Signed(u: UInt32): int {
    if u < 0x8000_0000 then u else u - 0x1_0000_0000
  }

  // The rest of a label behind the maximum: the unit, and blanks before and after it, at least one before.
  ghost predicate IsUnitField(tail: string, unit: string) {
    exists at :: 1 <= at <= |tail| - |unit| && IsUnitAt(tail, unit, at)
  }

  ghost predicate IsUnitAt(tail: string, unit: string, at: nat)
    requires at + |unit| <= |tail|
  {
    && tail[at..at + |unit|] == unit && |tail| - at == (if |unit| < 5 then 5 else |unit|)
    && (forall i :: 0 <= i < |tail| && !(at <= i < at + |unit|) ==> tail[i] == ' ')
  }

  // A label: a number that is the value, a slash, directly behind it a number that is the
  // maximum, and the unit; up to five digits end in column 5 and the slash is in column 6.
  ghost predicate ReadsLabel(text: string, value: UInt32, max: UInt32, unit: string) {
    && ScanInt(text).Number? && ScanInt(text).value == Signed(value)
    && var rest := ScanInt(text).rest;
    && |rest| > 1 && rest[0] == '/' && rest[1] != ' ' && (value < 100000 ==> |text| - |rest| == 6)
    && ScanInt(rest[1..]).Number? && ScanInt(rest[1..]).value == Signed(max)
    && var tail := ScanInt(rest[1..]).rest;
    && IsUnitField(tail, unit)
    && (max < 100000 ==> |rest| == 7 + if |unit| < 5 then 5 else |unit|)
  }

  // A percentage: blanks, a number that is p, and '%', in four cells.
  ghost predicate ReadsPercent(text: string, p: nat) {
    && |text| == 4 && text[3] == '%' && ScanInt(text) == Number(p, "%")
    && (p < 100 ==> text[0] == ' ') && (p < 10 ==> text[1] == ' ')
  }

  // A head: the name, blanks up to five columns, and " :[".
  ghost predicate ReadsHead(text: string, name: string) {
    && |text| == 3 + (if |name| < 5 then 5 else |name|)
    && text[..|name|] == name && text[|text| - 3..] == " :["
    && forall i :: |name| <= i < |text| - 3 ==> text[i] == ' '
  }

  lemma {:induction false} ScanBehindBlanks(n: nat, s: string)
    ensures ScanInt(Blanks(n) + s) == ScanInt(s)
  {
    if n == 0 {
      assert Blanks(0) + s == s;
    } else {
      ScanBehindBlanks(n - 1, s);
      assert (Blanks(n) + s)[1..] == Blanks(n - 1) + s;
    }
  }

  lemma ScanMinus(digits: string, v: int, rest: string)
    requires digits != [] && IsDigit(digits[0]) && ScanInt(digits) == Number(v, rest)
    ensures ScanInt("-" + digits) == Number(-v, rest)
  {
    assert ("-" + digits)[1..] == digits;
  }

  lemma ScanNegative(n: nat, rest: string)
    requires rest == [] || !IsDigit(rest[0])
    ensures ScanInt("-" + (Numeral(n) + rest)) == Number(-(n as int), rest)
  {
    ScanNumeral(n, rest);
    StartsWithDigit(Numeral(n), rest);
    ScanMinus(Numeral(n) + rest, n, rest);
  }

  lemma StartsWithDigit(digits: string, rest: string)
    requires digits != [] && IsDigit(digits[0])
    ensures digits + rest != [] && IsDigit((digits + rest)[0])
  {
  }

  lemma SignFirst(digits: string, rest: string)
    ensures ("-" + digits) + rest == "-" + (digits + rest)
  {
  }

  lemma ScanSigned(u: UInt32, rest: string)
    requires rest == [] || !IsDigit(rest[0])
    ensures ScanInt(SignedText(u) + rest) == Number(Signed(u), rest)
  {
    if u < 0x8000_0000 {
      ScanNumeral(u, rest);
    } else {
      ScanNegative(UINT32_SIZE - u, rest);
      SignFirst(Numeral(UINT32_SIZE - u), rest);
    }
  }

  lemma PercentReads(p: nat)
    requires p <= 100
    ensures ReadsPercent(PercentText(p), p)
  {
    var d := Numeral(p);
    FourCharacters(p);
    assert Power10(1) == 10 && Power10(2) == 100;
    if p < 10 { NumeralLength(p, 1); } else if p < 100 { NumeralLength(p, 2); }
    ScanNumeral(p, "%");
    if |d| < 3 {
      ScanBehindBlanks(3 - |d|, d + "%");
      assert PercentText(p) == Blanks(3 - |d|) + (d + "%");
    }
  }

  lemma HeadReads(name: string)
    ensures ReadsHead(HeadText(name), name)
  {
  }

  // A number padded on either side.
  ghost function Gap(d: string): string {
    if |d| < 5 then Blanks(5 - |d|) else ""
  }

  lemma UnitReads(gap: string, unit: string)
    requires forall i :: 0 <= i < |gap| ==> gap[i] == ' '
    ensures IsUnitField(gap + (" " + PadRight(unit, 5)), unit)
  {
    assert IsUnitAt(gap + (" " + PadRight(unit, 5)), unit, |gap| + 1);
  }

  lemma SmallNumberLength(u: UInt32)
    ensures |SignedText(u)| > 0 && SignedText(u)[0] != ' ' && (u < 100000 ==> |SignedText(u)| <= 5)
  {
    assert Power10(5) == 100000;
    if u < 100000 { NumeralLength(u, 5); }
  }

  lemma PaddedLeft(d: string)
    ensures " " + PadLeft(d, 5) == Blanks(1 + |Gap(d)|) + d
  {
  }

  lemma PaddedRight(d: string)
    ensures PadRight(d, 5) == d + Gap(d)
  {
  }

  lemma Regrouped(a: string, b: string, c: string, d: string, e: string)
    ensures a + b + "/" + (c + d) + " " + e == a + (b + ("/" + (c + (d + (" " + e)))))
  {
  }

  lemma LabelParts(v: string, m: string, unit: string)
    ensures " " + PadLeft(v, 5) + "/" + PadRight(m, 5) + " " + PadRight(unit, 5)
            == Blanks(1 + |Gap(v)|) + (v + ("/" + (m + (Gap(m) + (" " + PadRight(unit, 5))))))
  {
    PaddedLeft(v);
    PaddedRight(m);
    Regrouped(Blanks(1 + |Gap(v)|), v, m, Gap(m), PadRight(unit, 5));
  }

  lemma LabelReads(value: UInt32, max: UInt32, unit: string)
    ensures ReadsLabel(LabelText(value, max, unit), value, max, unit)
  {
    var v, m := SignedText(value), SignedText(max);
    var tail := Gap(m) + (" " + PadRight(unit, 5));
    var rest := "/" + (m + tail);
    SmallNumberLength(value);
    SmallNumberLength(max);
    LabelParts(v, m, unit);
    ScanSigned(value, rest);
    ScanBehindBlanks(1 + |Gap(v)|, v + rest);
    assert rest[1..] == m + tail;
    ScanSigned(max, tail);
    UnitReads(Gap(m), unit);
  }

  ghost function CaptionCell(caption: string, i: nat): char {
    if i < |caption| then caption[i] else ' '
  }

  /** What a row shows: where the bar starts and its head, the gauge's width and filled cells,
      the percentage and the caption behind the closing bracket; on what ground it is drawn,
      and how many columns behind the bracket the longest caption so far took. */
  datatype Picture = Picture(
    x: nat, head: string, width: nat, count: nat, percent: string, caption: string, ground: string, reach: nat) {

    ghost predicate Proper() {
      width >= 5 && |percent| == 4 && |caption| <= reach
    }

    // The character in column c: the ground, the head, the gauge with a filled prefix, four
    // characters of percentage, the bracket and the caption, then blanks over every column
    // that a longer caption ever took, and the ground again.
    ghost function Cell(c: nat): char
      requires Proper() && c < |ground|
    {
      var start := x + |head|;
      if c < x || start + width + 1 + reach <= c then ground[c]
      else if c < start then head[c - x]
      else if c < start + width - 4 then if c - start < count then '|' else ' '
      else if c < start + width then percent[c - (start + width - 4)]
      else if c == start + width then ']'
      else CaptionCell(caption, c - (start + width + 1))
    }
  }

  /** An update of the bar, or something else that is printed in the window, on another row,
      and leaves the window's cursor in some column. */
  datatype BarOp = SetMax(max: UInt32) | SetValue(value: UInt32) | Elsewhere(column: nat)

  class WindowBar {
    const row: array<char>
    var cursor: nat
    const name: string
    ghost const head: string
    const unit: string
    const x: nat
    const width: UInt32
    var max: UInt32
    var value: UInt32
    var percent: nat
    var barStart: nat
    var labelStart: nat
    var lastLabelSize: nat
    var color: Color
    ghost var shownMax: UInt32  // the maximum when the value was set last
    ghost const ground: string  // the row before the bar was drawn
    ghost var reach: nat        // the size of the longest label so far

    ghost predicate Fits()
      reads this`barStart, this`labelStart, this`lastLabelSize, this`reach
    {
      && |ground| == row.Length
      && barStart == x + |head| && labelStart == barStart + width + 1
      && labelStart + MAX_LABEL + (if width == 4 then 4 else 0) < row.Length
      && lastLabelSize <= reach <= MAX_LABEL
    }

    // There is room for a percentage at the cursor.
    ghost predicate CursorFits()
      reads this`cursor
    {
      cursor + 4 < row.Length
    }

    // The name and the brackets are in place, and behind the last caption all is blank that an
    // earlier one took.
    ghost predicate Ready()
      reads this`barStart, this`labelStart, this`lastLabelSize, this`reach, row
    {
      && Fits()
      && (forall c :: 0 <= c < barStart ==> row[c] == if c < x then ground[c] else head[c - x])
      && row[barStart + width] == ']'
      && (forall c :: labelStart + lastLabelSize <= c < labelStart + reach ==> row[c] == ' ')
      && (forall c :: labelStart + reach <= c < row.Length ==> row[c] == ground[c])
    }

    // A bar that is too narrow: nothing was ever drawn but the name and the brackets.
    ghost predicate Bare()
      requires Fits()
      reads this`value, this`percent, this`barStart, this`labelStart, this`lastLabelSize, this`reach, row
    {
      && value == 0 && percent == 0 && lastLabelSize == 0 && reach == 0
      && forall c :: barStart <= c < barStart + width ==> row[c] == ground[c]
    }

    ghost predicate Shows(p: Picture)
      requires p.Proper() && |p.ground| == row.Length
      reads row
    {
      forall c :: 0 <= c < row.Length ==> row[c] == p.Cell(c)
    }

    // The row shows the value, percentage and maximum of the last SetValue.
    ghost predicate Valid()
      reads this, row
    {
      Fits() && head == HeadText(name) && ShowsLast() && (width == 4 ==> CursorFits())
    }

    ghost predicate ShowsLast()
      requires Fits()
      reads this`value, this`percent, this`shownMax, this`barStart, this`labelStart, this`lastLabelSize, this`reach, row
    {
      if width == 4 then ShowsLabel() else Ready() && if width < 4 then Bare() else ShowsValue()
    }

    // What a bar of width 4 can be relied on to show: the percentage is printed wherever the
    // cursor of the window is, and over it the label in its place.
    ghost predicate ShowsLabel()
      requires Fits()
      reads this`value, this`percent, this`shownMax, this`barStart, this`labelStart, this`lastLabelSize, this`reach, row
    {
      && value <= shownMax && 0 < shownMax && percent == Percent(value, shownMax) <= 100
      && var caption := LabelText(value, shownMax, unit);
      && lastLabelSize == |caption|
      && TextAt(caption, labelStart)
    }

    ghost predicate ShowsValue()
      requires Fits() && width >= 5
      reads this`value, this`percent, this`shownMax, this`barStart, this`labelStart, this`lastLabelSize, this`reach, row
    {
      && value <= shownMax && 0 < shownMax && percent == Percent(value, shownMax) <= 100
      && var caption := LabelText(value, shownMax, unit);
      && lastLabelSize == |caption|
      && ShowsTexts(Count(width, percent), PercentText(percent), caption)
    }

    // The row is the picture with these filled cells and texts.
    ghost predicate ShowsTexts(count: nat, text: string, caption: string)
      requires width >= 5
      reads this`reach, row
    {
      && |text| == 4 && |caption| <= reach && |ground| == row.Length
      && Shows(Picture(x, head, width, count, text, caption, ground, reach))
    }

    // ---------- what can be read off the row ----------

    // The name and the brackets.
    ghost predicate ReadsName()
      reads this`barStart, row
    {
      && (exists t :: TextAt(t, x) && x + |t| == barStart && ReadsHead(t, name))
      && barStart + width < row.Length && row[barStart + width] == ']'
    }

    // Before the closing bracket, the percentage.
    ghost predicate ReadsPercentage(p: nat)
      requires width >= 4
      reads this`barStart, row
    {
      exists t :: TextAt(t, barStart + width - 4) && ReadsPercent(t, p)
    }

    // Behind it, the value, the maximum and the unit.
    ghost predicate ReadsValue(v: UInt32, m: UInt32)
      reads this`labelStart, this`lastLabelSize, row
    {
      exists t :: TextAt(t, labelStart) && |t| == lastLabelSize && ReadsLabel(t, v, m, unit)
    }

    lemma TextsStand(count: nat, text: string, caption: string)
      requires Fits() && width >= 5 && ShowsTexts(count, text, caption)
      ensures TextAt(head, x) && TextAt(text, barStart + width - 4) && row[barStart + width] == ']'
      ensures TextAt(caption, labelStart)
    {
      var p := Picture(x, head, width, count, text, caption, ground, reach);
      forall c | labelStart <= c < labelStart + |caption|
        ensures row[c] == caption[c - labelStart]
      {
        assert row[c] == p.Cell(c);
      }
    }

    lemma LabelStands()
      requires Valid() && width >= 4
      ensures TextAt(LabelText(value, shownMax, unit), labelStart)
    {
      if width >= 5 {
        TextsStand(Count(width, percent), PercentText(percent), LabelText(value, shownMax, unit));
      }
    }

    lemma NameStands()
      requires Valid() && width >= 5
      ensures TextAt(head, x) && TextAt(PercentText(percent), barStart + width - 4) && row[barStart + width] == ']'
    {
      TextsStand(Count(width, percent), PercentText(percent), LabelText(value, shownMax, unit));
    }

    lemma NameIsRead()
      requires Valid() && width >= 5
      ensures ReadsName()
    {
      NameStands();
      HeadReads(name);
    }

    lemma PercentageIsRead()
      requires Valid() && width >= 5
      ensures ReadsPercentage(percent)
    {
      NameStands();
      PercentReads(percent);
    }

    lemma ValueIsRead()
      requires Valid() && width >= 4
      ensures ReadsValue(value, shownMax)
    {
      LabelStands();
      LabelReads(value, shownMax, unit);
    }

    // All of it, for a bar that is wide enough; at width 4 the label.
    lemma RowIsRead()
      requires Valid() && width >= 4
      ensures ReadsValue(value, shownMax)
      ensures width >= 5 ==> ReadsName() && ReadsPercentage(percent)
    {
      ValueIsRead();
      if width >= 5 {
        NameIsRead();
        PercentageIsRead();
      }
    }

    // mvwprintwc: text at a column, the cursor behind it. Nothing wraps in a row that is wide enough.
    method PrintAt(column: nat, text: string)
      requires column + |text| < row.Length
      modifies row, this`cursor
      ensures forall c :: 0 <= c < row.Length ==>
                row[c] == if column <= c < column + |text| then text[c - column] else old(row[c])
      ensures cursor == column + |text|
    {
      for i := 0 to |text|
        invariant forall c :: 0 <= c < row.Length ==>
                    row[c] == if column <= c < column + i then text[c - column] else old(row[c])
      {
        row[column + i] := text[i];
      }
      cursor := column + |text|;
    }

    // barUpdateLabel, lines 442-447: the caption, and blanks over what a longer one left behind.
    method WriteCaption(caption: string)
      requires Fits() && |caption| <= MAX_LABEL
      modifies row, this`cursor, this`lastLabelSize, this`reach
      ensures lastLabelSize == |caption| && reach == if |caption| > old(reach) then |caption| else old(reach)
      ensures cursor == labelStart + if |caption| < old(lastLabelSize) then old(lastLabelSize) else |caption|
      ensures forall c :: 0 <= c < row.Length ==> row[c] == CaptionOver(caption, old(lastLabelSize), c, old(row[c]))
    {
      var size := |caption|;
      PrintAt(labelStart, caption);
      if size < lastLabelSize {
        for i := 0 to lastLabelSize - size
          invariant cursor == labelStart + size + i && reach == old(reach)
          invariant forall c :: 0 <= c < row.Length ==>
                      row[c] == if labelStart <= c < labelStart + size then caption[c - labelStart]
                                else if labelStart + size <= c < labelStart + size + i then ' '
                                else old(row[c])
        {
          PrintAt(cursor, " ");
        }
      }
      lastLabelSize := size;
      reach := if size > reach then size else reach;
    }

    // Column c once the caption is written over one of size last: the caption, blanks up to
    // where that one ended, and elsewhere what was there.
    ghost function CaptionOver(caption: string, last: nat, c: nat, was: char): char
      reads this`labelStart
    {
      if labelStart <= c < labelStart + |caption| then caption[c - labelStart]
      else if labelStart + |caption| <= c < labelStart + last then ' '
      else was
    }

    // Lines 465-469 of barSetValue.
    method DrawGauge(count: nat, text: string)
      requires Fits() && width >= 5 && |text| == 4
      modifies row, this`cursor
      ensures forall c :: 0 <= c < row.Length && !(barStart <= c < barStart + width) ==> row[c] == old(row[c])
      ensures forall c :: barStart <= c < barStart + width - 4 ==> row[c] == if c - barStart < count then '|' else ' '
      ensures forall c :: barStart + width - 4 <= c < barStart + width ==> row[c] == text[c - (barStart + width - 4)]
    {
      for i := 0 to width - 4
        invariant i > 0 ==> cursor == barStart + i
        invariant forall c :: 0 <= c < row.Length ==>
                    row[c] == if barStart <= c < barStart + i then if c - barStart < count then '|' else ' '
                              else old(row[c])
      {
        PrintAt(barStart + i, if i < count then "|" else " ");
      }
      PrintAt(cursor, text);
    }

    // barSetMaxValue. The row keeps showing the old maximum until the value is set again.
    method SetMaxValue(m: UInt32)
      modifies this`max
      ensures max == m
    {
      max := m;
    }

    // The maximum is no zero divisor, and the label of v fits its buffer.
    ghost predicate Settable(v: UInt32, max: UInt32) {
      max > 0 && (width >= 4 ==> LabelFits(v, max, unit))
    }

    // barSetValue, which leaves a bar alone that is too narrow for a percentage.
    method SetValue(v: UInt32)
      requires Fits() && head == HeadText(name) && Settable(v, max)
      requires if width == 4 then CursorFits() else Ready() && (width < 4 ==> Bare())
      modifies row, this`cursor, this`value, this`percent, this`color, this`lastLabelSize, this`reach, this`shownMax
      ensures Valid()
      ensures width >= 4 ==>
                && value == Min(v, max) && shownMax == max && percent == Percent(value, max)
                && color == if percent < 40 then Green else if percent < 70 then Yellow else Red
      ensures width >= 5 ==> ReadsName() && ReadsPercentage(percent)
      ensures width >= 4 ==> ReadsValue(value, max)
      ensures width == 4 ==>
                && Displaced(PercentText(percent), LabelText(value, max, unit), old(cursor), old(lastLabelSize),
                             old(row[..]))
                && cursor ==
                   labelStart + if lastLabelSize < old(lastLabelSize) then old(lastLabelSize) else lastLabelSize
      ensures width == 4 && old(cursor) >= labelStart ==> forall c :: 0 <= c < labelStart ==> row[c] == old(row[c])
      ensures width == 4 && old(cursor) >= cursor ==> TextAt(PercentText(percent), old(cursor))
      ensures width < 4 ==>
                row[..] == old(row[..]) && color == old(color) && cursor == old(cursor) && shownMax == old(shownMax)
    {
      var val, pct, count := Measure(v);
      if width < 4 {
        return;
      }
      if width == 4 {
        DrawDisplaced(val, pct, row[..]);
      } else {
        DrawValue(val, pct, count);
      }
      RowIsRead();
    }

    // Lines 462-478 of barSetValue.
    method DrawValue(val: UInt32, pct: nat, count: nat)
      requires Ready() && head == HeadText(name) && width >= 5
      requires 0 < max && val <= max && pct == Percent(val, max) <= 100 && count == Count(width, pct)
      requires |LabelText(val, max, unit)| <= MAX_LABEL
      modifies row, this`cursor, this`value, this`percent, this`color, this`lastLabelSize, this`reach, this`shownMax
      ensures Valid() && value == val && percent == pct && shownMax == max
      ensures color == if percent < 40 then Green else if percent < 70 then Yellow else Red
    {
      var c := if pct < 40 then Green else if pct < 70 then Yellow else Red;
      FourCharacters(pct);
      Redraw(count, PercentText(pct), LabelText(val, max, unit));
      value, percent, color := val, pct, c;
      shownMax := max;
    }

    // The same lines at width 4, at which the loop over the gauge does not run.
    method DrawDisplaced(val: UInt32, pct: nat, ghost was: string)
      requires was == row[..] && Fits() && head == HeadText(name) && width == 4 && CursorFits()
      requires 0 < max && val <= max && pct == Percent(val, max) <= 100
      requires |LabelText(val, max, unit)| <= MAX_LABEL
      modifies row, this`cursor, this`value, this`percent, this`color, this`lastLabelSize, this`reach, this`shownMax
      ensures Valid() && value == val && percent == pct && shownMax == max
      ensures color == if percent < 40 then Green else if percent < 70 then Yellow else Red
      ensures Displaced(PercentText(percent), LabelText(val, max, unit), old(cursor), old(lastLabelSize), was)
      ensures old(cursor) >= labelStart ==> forall c :: 0 <= c < labelStart ==> row[c] == was[c]
      ensures old(cursor) >= cursor ==> TextAt(PercentText(percent), old(cursor))
      ensures cursor == labelStart + if lastLabelSize < old(lastLabelSize) then old(lastLabelSize) else lastLabelSize
    {
      var c := if pct < 40 then Green else if pct < 70 then Yellow else Red;
      FourCharacters(pct);
      value, percent, color := val, pct, c;
      shownMax := max;
      PrintBoth(PercentText(pct), LabelText(val, max, unit), was);
    }

    method PrintBoth(text: string, caption: string, ghost was: string)
      requires was == row[..] && Fits() && width == 4 && CursorFits() && |text| == 4 && |caption| <= MAX_LABEL
      modifies row, this`cursor, this`lastLabelSize, this`reach
      ensures Fits() && CursorFits() && lastLabelSize == |caption|
      ensures cursor == labelStart + if |caption| < old(lastLabelSize) then old(lastLabelSize) else |caption|
      ensures Displaced(text, caption, old(cursor), old(lastLabelSize), was) && TextAt(caption, labelStart)
      ensures old(cursor) >= labelStart ==> forall c :: 0 <= c < labelStart ==> row[c] == was[c]
      ensures old(cursor) >= cursor ==> TextAt(text, old(cursor))
    {
      PrintAt(cursor, text);
      WriteCaption(caption);
    }

    ghost predicate TextAt(text: string, at: nat)
      reads row
    {
      at + |text| <= row.Length && forall c :: at <= c < at + |text| ==> row[c] == text[c - at]
    }

    // The row was, with text in it at column at, and over that the caption, over one of size last.
    ghost predicate Displaced(text: string, caption: string, at: nat, last: nat, was: string)
      reads this`labelStart, row
    {
      && |text| == 4 && |was| == row.Length
      && forall c :: 0 <= c < row.Length ==>
           row[c] == CaptionOver(caption, last, c, if at <= c < at + 4 then text[c - at] else was[c])
    }

    // Lines 455-457 of barSetValue.
    method Measure(v: UInt32) returns (val: UInt32, pct: nat, count: nat)
      requires max > 0
      ensures val == Min(v, max) && pct == Percent(val, max) && count == Count(width, pct)
      ensures pct <= 100
    {
      val := Min(v, max);
      pct := Percent(val, max);
      count := Count(width, pct);
      PercentInRange(val, max);
    }

    // The gauge and barUpdateLabel, whose caption does not depend on the gauge.
    method Redraw(count: nat, text: string, caption: string)
      requires Ready() && width >= 5 && |text| == 4 && |caption| <= MAX_LABEL
      modifies row, this`cursor, this`lastLabelSize, this`reach
      ensures Ready() && lastLabelSize == |caption|
      ensures ShowsTexts(count, text, caption)
    {
      DrawGauge(count, text);
      WriteCaption(caption);
    }

    // Lines 498-501 of barCreate: the name and the brackets.
    method DrawFrame()
      requires head == HeadText(name) && ground == row[..]
      requires x + |head| + width + 1 + MAX_LABEL + (if width == 4 then 4 else 0) < row.Length
      requires value == 0 && percent == 0 && lastLabelSize == 0 && reach == 0
      modifies row, this`cursor, this`barStart, this`labelStart
      ensures Ready() && Bare() && CursorFits() && cursor == labelStart
    {
      PrintAt(x, HeadText(name));
      barStart := cursor;
      PrintAt(cursor + width, "]");
      labelStart := cursor;
    }

    // barCreate, on a row that is wide enough, whatever stands on it.
    constructor Create(row: array<char>, name: string, unit: string, x: nat, width: UInt32)
      requires LabelFits(0, 100, unit)
      requires x + |HeadText(name)| + width + 1 + MAX_LABEL + (if width == 4 then 4 else 0) < row.Length
      modifies row
      ensures Valid() && this.row == row && this.name == name && this.unit == unit && this.x == x && this.width == width
      ensures ground == old(row[..]) && value == 0 && max == 100 && (width >= 4 ==> shownMax == 100)
      ensures width == 4 ==>
                && cursor == labelStart + lastLabelSize
                && forall c :: barStart <= c < barStart + width ==> row[c] == old(row[c])
    {
      ground := row[..];
      this.row, this.name, this.unit, this.x, this.width := row, name, unit, x, width;
      head := HeadText(name);
      max, value, percent, lastLabelSize, color := 0, 0, 0, 0, Default;
      cursor, barStart, labelStart := 0, 0, 0;
      shownMax, reach := 0, 0;
      new;
      DrawFrame();
      SetMaxValue(100);
      SetValue(0);
    }

    // What an update asks of its caller when the maximum is max.
    ghost predicate Legal(op: BarOp, max: UInt32) {
      match op
      case SetMax(_) => true
      case SetValue(v) => Settable(v, max)
      case Elsewhere(column) => width == 4 ==> column + 4 < row.Length
    }

    // Any sequence of updates, with anything printed elsewhere in between: the row shows the
    // last value that was set, with the percentage and the maximum of that moment.
    method Run(ops: seq<BarOp>)
      requires Valid() && forall i :: 0 <= i < |ops| ==> Legal(ops[i], MaxAfter(max, ops[..i]))
      modifies this`max, this`cursor, this`value, this`percent, this`color, this`lastLabelSize, this`reach
      modifies this`shownMax, row
      ensures Valid()
      ensures max == MaxAfter(old(max), ops)
      ensures width >= 4 ==> (value, shownMax) == ShownAfter(old(max), (old(value), old(shownMax)), ops)
      ensures width < 4 ==> row[..] == old(row[..])
    {
      for i := 0 to |ops|
        invariant Valid() && max == MaxAfter(old(max), ops[..i])
        invariant width >= 4 ==> (value, shownMax) == ShownAfter(old(max), (old(value), old(shownMax)), ops[..i])
        invariant width < 4 ==> row[..] == old(row[..])
      {
        OneMoreOp(old(max), (old(value), old(shownMax)), ops, i);
        Apply(ops[i]);
      }
      assert ops[..|ops|] == ops;
    }

    method Apply(op: BarOp)
      requires Valid() && Legal(op, max)
      modifies this`max, this`cursor, this`value, this`percent, this`color, this`lastLabelSize, this`reach
      modifies this`shownMax, row
      ensures Valid() && (width < 4 ==> row[..] == old(row[..]))
      ensures !op.SetValue? ==> value == old(value) && shownMax == old(shownMax) && row[..] == old(row[..])
      ensures max == if op.SetMax? then op.max else old(max)
      ensures op.SetValue? && width >= 4 ==> value == Min(op.value, max) && shownMax == max
    {
      match op {
        case SetMax(m) => SetMaxValue(m);
        case SetValue(v) => SetValue(v);
        case Elsewhere(column) => cursor := column;
      }
    }
  }

  ghost function MaxAfter(max: UInt32, ops: seq<BarOp>): UInt32 {
    if ops == [] then max
    else if ops[|ops| - 1].SetMax? then ops[|ops| - 1].max
    else MaxAfter(max, ops[..|ops| - 1])
  }

  // The value and the maximum on show after the updates.
  ghost function ShownAfter(max: UInt32, shown: (UInt32, UInt32), ops: seq<BarOp>): (UInt32, UInt32) {
    if ops == [] then shown
    else
      var front := ops[..|ops| - 1];
      match ops[|ops| - 1]
      case SetMax(_) => ShownAfter(max, shown, front)
      case Elsewhere(_) => ShownAfter(max, shown, front)
      case SetValue(v) => (Min(v, MaxAfter(max, front)), MaxAfter(max, front))
  }

  lemma OneMoreOp(max: UInt32, shown: (UInt32, UInt32), ops: seq<BarOp>, i: nat)
    requires i < |ops|
    ensures var before, now := MaxAfter(max, ops[..i]), ShownAfter(max, shown, ops[..i]);
            && MaxAfter(max, ops[..i + 1]) == (if ops[i].SetMax? then ops[i].max else before)
            && ShownAfter(max, shown, ops[..i + 1]) ==
               if ops[i].SetValue? then (Min(ops[i].value, before), before) else now
  {
    assert ops[..i + 1][..i] == ops[..i];
  }
}
