/** Unified-diff hunk headers `@@ -start,count +start,count @@`, where a count of 1 may be omitted. */
module HunkHeaders {
  import opened LineSplitting
  import opened Numerals

  datatype Coordinates = Coordinates(oldStart: nat, oldCount: nat, newStart: nat, newCount: nat)

  const OPENING := "@@ -"
  const CLOSING := " @@"

  /** One side of a header; a count of 1 is left out when `omitOne`. */
  function PrintSide(start: nat, count: nat, omitOne: bool): string {
    Decimal(start) + if omitOne && count == 1 then "" else "," + Decimal(count)
  }

  function PrintHeader(c: Coordinates, omitOld: bool, omitNew: bool): string {
    OPENING + (PrintSide(c.oldStart, c.oldCount, omitOld) + " " + ("+" + PrintSide(c.newStart, c.newCount, omitNew))) + CLOSING
  }

  /** One of the four ways to write the coordinates. */
  ghost predicate IsSpelling(text: string, c: Coordinates) {
    exists omitOld, omitNew :: text == PrintHeader(c, omitOld, omitNew)
  }

  function ParseSide(text: string): Option<(nat, nat)> {
    var comma := Find(text, ',');
    if comma == |text| then
      if IsNumeral(text) then Some((Value(text), 1)) else None
    else if IsNumeral(text[..comma]) && IsNumeral(text[comma + 1..]) then
      Some((Value(text[..comma]), Value(text[comma + 1..])))
    else None
  }

  /** The text between the opening and the closing. */
  function ParseMiddle(text: string): Option<Coordinates> {
    var space := Find(text, ' ');
    if |text| < space + 2 || text[space + 1] != '+' then None
    else
      match (ParseSide(text[..space]), ParseSide(text[space + 2..]))
      case (Some(oldSide), Some(newSide)) => Some(Coordinates(oldSide.0, oldSide.1, newSide.0, newSide.1))
      case _ => None
  }

  /** `_parse_hunk_header`: a full match of the header pattern. */
  function ParseHunkHeader(text: string): Option<Coordinates> {
    var n := |text|;
    if n < 7 || !(OPENING <= text) || text[n - 3..] != CLOSING then None else ParseMiddle(text[4..n - 3])
  }

  lemma {:induction false} NumeralChars(text: string, c: char)
    requires AllDigits(text) && !IsDigit(c)
    ensures c !in text
  {
  }

  lemma {:induction false} ParsePrintedSide(start: nat, count: nat, omitOne: bool)
    ensures ParseSide(PrintSide(start, count, omitOne)) == Some((start, count))
    ensures ' ' !in PrintSide(start, count, omitOne)
  {
    var text := PrintSide(start, count, omitOne);
    ValueOfDecimal(start);
    ValueOfDecimal(count);
    NumeralChars(Decimal(start), ',');
    NumeralChars(Decimal(start), ' ');
    NumeralChars(Decimal(count), ' ');
    if omitOne && count == 1 {
      assert text == Decimal(start);
    } else {
      assert text == Decimal(start) + [','] + Decimal(count);
      FindIn(Decimal(start), ',', Decimal(count));
      assert text[..|Decimal(start)|] == Decimal(start);
      assert text[|Decimal(start)| + 1..] == Decimal(count);
    }
  }

  lemma {:induction false} ParsedSideIsPrinted(text: string)
    requires ParseSide(text).Some?
    ensures
      var (start, count) := ParseSide(text).value;
      text == PrintSide(start, count, true) || text == PrintSide(start, count, false)
  {
    var comma := Find(text, ',');
    if comma == |text| {
      DecimalOfValue(text);
    } else {
      DecimalOfValue(text[..comma]);
      DecimalOfValue(text[comma + 1..]);
      SideIsCut(text, comma);
    }
  }

  lemma {:induction false} SideIsCut(text: string, comma: nat)
    requires comma < |text| && text[comma] == ','
    ensures text == text[..comma] + ("," + text[comma + 1..])
  {
  }

  lemma {:induction false} ParsePrintedMiddle(oldSide: string, newSide: string)
    requires ' ' !in oldSide && ParseSide(oldSide).Some? && ParseSide(newSide).Some?
    ensures
      var (o, n) := (ParseSide(oldSide).value, ParseSide(newSide).value);
      ParseMiddle(oldSide + " " + ("+" + newSide)) == Some(Coordinates(o.0, o.1, n.0, n.1))
  {
    var middle := oldSide + " " + ("+" + newSide);
    FindIn(oldSide, ' ', "+" + newSide);
    assert middle[..|oldSide|] == oldSide;
    assert middle[|oldSide| + 2..] == newSide;
  }

  lemma {:induction false} ParseEnclosed(middle: string)
    requires middle != []
    ensures ParseHunkHeader(OPENING + middle + CLOSING) == ParseMiddle(middle)
    ensures "@@ " <= OPENING + middle + CLOSING
  {
    var text := OPENING + middle + CLOSING;
    assert text[4..|text| - 3] == middle;
    assert text[|text| - 3..] == CLOSING;
    assert OPENING <= text;
    assert text[..3] == "@@ ";
  }

  lemma {:induction false} ParsePrintedHeader(c: Coordinates, omitOld: bool, omitNew: bool)
    ensures ParseHunkHeader(PrintHeader(c, omitOld, omitNew)) == Some(c)
    ensures "@@ " <= PrintHeader(c, omitOld, omitNew)
  {
    var oldSide, newSide := PrintSide(c.oldStart, c.oldCount, omitOld), PrintSide(c.newStart, c.newCount, omitNew);
    ParsePrintedSide(c.oldStart, c.oldCount, omitOld);
    ParsePrintedSide(c.newStart, c.newCount, omitNew);
    ParsePrintedMiddle(oldSide, newSide);
    ParseEnclosed(oldSide + " " + ("+" + newSide));
  }

  /** The text between the opening and the closing, in one of its four spellings. */
  function PrintMiddle(c: Coordinates, omitOld: bool, omitNew: bool): string {
    PrintSide(c.oldStart, c.oldCount, omitOld) + " " + ("+" + PrintSide(c.newStart, c.newCount, omitNew))
  }

  lemma {:induction false} ParsedMiddleIsPrinted(middle: string) returns (omitOld: bool, omitNew: bool)
    requires ParseMiddle(middle).Some?
    ensures middle == PrintMiddle(ParseMiddle(middle).value, omitOld, omitNew)
  {
    var space := Find(middle, ' ');
    var left, right := middle[..space], middle[space + 2..];
    var c := ParseMiddle(middle).value;
    ParsedSideIsPrinted(left);
    ParsedSideIsPrinted(right);
    omitOld := left == PrintSide(c.oldStart, c.oldCount, true);
    omitNew := right == PrintSide(c.newStart, c.newCount, true);
    MiddleIsCut(middle, space);
  }

  lemma {:induction false} MiddleIsCut(middle: string, space: nat)
    requires space + 2 <= |middle| && middle[space] == ' ' && middle[space + 1] == '+'
    ensures middle == middle[..space] + " " + ("+" + middle[space + 2..])
  {
  }

  /** The parser reads exactly the printed headers: one of four spellings of its coordinates. */
  lemma {:induction false} HeaderIsPrinted(text: string)
    requires ParseHunkHeader(text).Some?
    ensures IsSpelling(text, ParseHunkHeader(text).value)
    ensures "@@ " <= text
  {
    var middle := text[4..|text| - 3];
    var omitOld, omitNew := ParsedMiddleIsPrinted(middle);
    assert text == OPENING + middle + CLOSING;
    assert text == PrintHeader(ParseHunkHeader(text).value, omitOld, omitNew);
    assert OPENING[..3] == "@@ ";
  }
}
