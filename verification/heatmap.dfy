/**
 * The heat-map generator (C1): reads up to ten lines of comma-separated
 * air-quality predictions and turns each readable value into a coloured
 * rectangle of a 10 x 10 grid over the confinement area.  The file reading
 * is replaced by a sequence of lines; the result is the list of cells in
 * the order they are added to the feature collection.
 */
module Heatmap {
  import opened Planar
  import opened Wrappers
  import opened GeoJson

  const MinLongitude: real := -3.192473
  const MaxLongitude: real := -3.184319
  const MinLatitude: real := 55.942617
  const MaxLatitude: real := 55.946233
  const GridWidth: nat := 10
  const GridHeight: nat := 10
  const FillOpacity: real := 0.75

  /** Width of a cell: the source divides the longitude span by the grid height. */
  const RectangleWidth: real := (MaxLongitude - MinLongitude) / GridHeight as real
  /** Height of a cell: the source divides the latitude span by the grid width. */
  const RectangleHeight: real := (MaxLatitude - MinLatitude) / GridWidth as real

  /** The eight colours, from the lowest bucket [0, 32) to the highest [224, 256). */
  const Palette: seq<string> := ["#00ff00", "#40ff00", "#80ff00", "#c0ff00", "#ffc000", "#ff8000", "#ff4000", "#ff0000"]

  /**
   * getAirQualityColor: the colour of the 32-wide bucket holding the
   * value; None where the source throws IllegalArgumentException.
   */
  function AirQualityColor(airQuality: int): (color: Option<string>)
    ensures color.Some? <==> 0 <= airQuality < 256
    ensures color.Some? ==> color.value == Palette[airQuality / 32]
  {
    if airQuality >= 0 && airQuality < 32 then Some("#00ff00")
    else if airQuality >= 32 && airQuality < 64 then Some("#40ff00")
    else if airQuality >= 64 && airQuality < 96 then Some("#80ff00")
    else if airQuality >= 96 && airQuality < 128 then Some("#c0ff00")
    else if airQuality >= 128 && airQuality < 160 then Some("#ffc000")
    else if airQuality >= 160 && airQuality < 192 then Some("#ff8000")
    else if airQuality >= 192 && airQuality < 224 then Some("#ff4000")
    else if airQuality >= 224 && airQuality < 256 then Some("#ff0000")
    else None
  }

  /** Two readable values get the same colour exactly when they fall in the same bucket. */
  lemma SameColorIffSameBucket(v: int, w: int)
    requires 0 <= v < 256 && 0 <= w < 256
    ensures AirQualityColor(v) == AirQualityColor(w) <==> v / 32 == w / 32
  {
    if v / 32 != w / 32 {
      PaletteDistinct(v / 32, w / 32);
    }
  }

  lemma PaletteDistinct(a: int, b: int)
    requires 0 <= a < |Palette| && 0 <= b < |Palette| && a != b
    ensures Palette[a] != Palette[b]
  {
    assert Palette[a][1] != Palette[b][1] || Palette[a][2] != Palette[b][2] || Palette[a][3] != Palette[b][3];
  }

  // ---------------------------------------------------------------------
  // Integer.parseInt on ASCII decimal strings

  const MinInt: int := -0x8000_0000
  const MaxInt: int := 0x7fff_ffff

  predicate IsDigit(c: char)
  {
    '0' <= c <= '9'
  }

  predicate AllDigits(s: string)
  {
    forall k :: 0 <= k < |s| ==> IsDigit(s[k])
  }

  /** The value of a string of decimal digits, most significant first. */
  function DigitsValue(s: string): nat
    requires AllDigits(s)
  {
    if |s| == 0 then 0 else DigitsValue(s[..|s| - 1]) * 10 + (s[|s| - 1] as int - '0' as int)
  }

  /**
   * Integer.parseInt: an optional sign followed by at least one digit,
   * with a value that fits in 32 bits; None where the source throws
   * NumberFormatException.
   */
  function ParseInt(s: string): (r: Option<int>)
    ensures r.Some? ==> MinInt <= r.value <= MaxInt
    ensures r.Some? ==> exists k :: 0 <= k <= 1 && k < |s| && AllDigits(s[k..]) && (k == 1 ==> s[0] == '-' || s[0] == '+')
  {
    if |s| == 0 then None
    else
      var signed := s[0] == '-' || s[0] == '+';
      var digits := if signed then s[1..] else s;
      if |digits| == 0 || !AllDigits(digits) then None
      else
        var v: int := if s[0] == '-' then -(DigitsValue(digits) as int) else DigitsValue(digits);
        if MinInt <= v <= MaxInt then
          assert signed ==> AllDigits(s[1..]);
          assert !signed ==> AllDigits(s[0..]);
          Some(v)
        else None
  }

  /** Decimal digits of a natural number, without leading zeros. */
  function NatToDigits(n: nat): (s: string)
    ensures |s| > 0 && AllDigits(s)
    ensures DigitsValue(s) == n
    ensures s[0] == '0' ==> n == 0
  {
    var last := ['0' + (n % 10) as char];
    if n < 10 then last
    else
      var front := NatToDigits(n / 10);
      assert (front + last)[..|front + last| - 1] == front;
      front + last
  }

  /** Integer.toString: a minus sign for negative values, then the digits. */
  function IntToString(n: int): string
  {
    if n < 0 then "-" + NatToDigits(-n) else NatToDigits(n)
  }

  /** Parsing what toString prints gives the number back, for every 32-bit int. */
  lemma ParseIntRoundTrip(n: int)
    requires MinInt <= n <= MaxInt
    ensures ParseInt(IntToString(n)) == Some(n)
  {
    if n < 0 {
      assert IntToString(n)[1..] == NatToDigits(-n);
    }
  }

  /** Values outside 32 bits never parse, even when well formed. */
  lemma ParseIntRejectsWide(n: int)
    requires n < MinInt || MaxInt < n
    ensures ParseInt(IntToString(n)) == None
  {
    if n < 0 {
      assert IntToString(n)[1..] == NatToDigits(-n);
    }
  }

  // ---------------------------------------------------------------------
  // String.strip

  /** Character.isWhitespace on the ASCII range. */
  predicate IsWhitespace(c: char)
  {
    c == ' ' || c == '\t' || c == '\n' || c == '\r' || c == '\U{000B}' || c == '\U{000C}' || ('\U{001C}' <= c <= '\U{001F}')
  }

  function StripLeading(s: string): (r: string)
    ensures |r| <= |s| && r == s[|s| - |r|..]
    ensures forall k :: 0 <= k < |s| - |r| ==> IsWhitespace(s[k])
    ensures |r| > 0 ==> !IsWhitespace(r[0])
  {
    if |s| > 0 && IsWhitespace(s[0]) then StripLeading(s[1..]) else s
  }

  function StripTrailing(s: string): (r: string)
    ensures |r| <= |s| && r == s[..|r|]
    ensures forall k :: |r| <= k < |s| ==> IsWhitespace(s[k])
    ensures |r| > 0 ==> !IsWhitespace(r[|r| - 1])
  {
    if |s| > 0 && IsWhitespace(s[|s| - 1]) then StripTrailing(s[..|s| - 1]) else s
  }

  /** String.strip: drop leading and trailing whitespace. */
  function Strip(s: string): (r: string)
  {
    StripTrailing(StripLeading(s))
  }

  /** r is s with i whitespace characters removed in front and only whitespace removed behind. */
  predicate TrimmedAt(s: string, r: string, i: int)
  {
    && 0 <= i && i + |r| <= |s| && r == s[i..i + |r|]
    && (forall k :: 0 <= k < i ==> IsWhitespace(s[k]))
    && (forall k :: i + |r| <= k < |s| ==> IsWhitespace(s[k]))
  }

  /**
   * The stripped string is the run of s between a whitespace prefix and a
   * whitespace suffix, and begins and ends with a non-whitespace character.
   */
  lemma StripIsTrimmedInfix(s: string)
    ensures exists i :: TrimmedAt(s, Strip(s), i)
    ensures var r := Strip(s);
            |r| > 0 ==> !IsWhitespace(r[0]) && !IsWhitespace(r[|r| - 1])
  {
    var l := StripLeading(s);
    var r := Strip(s);
    var i := |s| - |l|;
    assert r == l[..|r|];
    assert r == s[i..i + |r|];
    forall k | i + |r| <= k < |s|
      ensures IsWhitespace(s[k])
    {
      assert s[k] == l[k - i];
    }
    assert TrimmedAt(s, r, i);
  }

  lemma {:induction false} StripLeadingAllWhitespace(s: string)
    requires forall k :: 0 <= k < |s| ==> IsWhitespace(s[k])
    ensures StripLeading(s) == ""
  {
    if |s| > 0 {
      StripLeadingAllWhitespace(s[1..]);
    }
  }

  /** A line strips to "" exactly when every character is whitespace: the blank-line test. */
  lemma StripEmptyIffBlank(s: string)
    ensures Strip(s) == "" <==> Blank(s)
  {
    if Blank(s) {
      StripLeadingAllWhitespace(s);
    }
  }

  // ---------------------------------------------------------------------
  // String.split(",")

  /** The pieces between commas, empty ones included: one more piece than there are commas. */
  function SplitAll(s: string): (parts: seq<string>)
    ensures |parts| >= 1
    ensures forall k :: 0 <= k < |parts| ==> ',' !in parts[k]
  {
    if |s| == 0 then [""]
    else
      var parts := SplitAll(s[..|s| - 1]);
      if s[|s| - 1] == ',' then parts + [""]
      else parts[..|parts| - 1] + [parts[|parts| - 1] + [s[|s| - 1]]]
  }

  /** Pieces joined with commas in between. */
  function Join(parts: seq<string>): string
    requires |parts| >= 1
  {
    if |parts| == 1 then parts[0] else Join(parts[..|parts| - 1]) + "," + parts[|parts| - 1]
  }

  /** Joining the pieces gives back the line. */
  lemma {:induction false} JoinSplitAll(s: string)
    ensures Join(SplitAll(s)) == s
  {
    if |s| > 0 {
      var front := s[..|s| - 1];
      JoinSplitAll(front);
      var parts := SplitAll(front);
      if s[|s| - 1] != ',' {
        var last := parts[|parts| - 1];
        var ps := parts[..|parts| - 1] + [last + [s[|s| - 1]]];
        if |parts| > 1 {
          assert ps[..|ps| - 1] == parts[..|parts| - 1];
          assert Join(parts) == Join(parts[..|parts| - 1]) + "," + last;
        }
      }
      assert s == front + [s[|s| - 1]];
    }
  }

  /** Splitting comma-free pieces joined with commas gives back the pieces. */
  lemma {:induction false} SplitAllJoin(parts: seq<string>)
    requires |parts| >= 1
    requires forall k :: 0 <= k < |parts| ==> ',' !in parts[k]
    ensures SplitAll(Join(parts)) == parts
    decreases |parts|, |parts[|parts| - 1]|
  {
    var last := parts[|parts| - 1];
    if |parts| == 1 {
      SplitAllCommaFree(last);
    } else {
      var front := parts[..|parts| - 1];
      SplitAllJoin(front);
      SplitAllAppend(Join(front), last);
    }
  }

  /** A comma-free string is one piece. */
  lemma {:induction false} SplitAllCommaFree(s: string)
    requires ',' !in s
    ensures SplitAll(s) == [s]
  {
    if |s| > 0 {
      assert ',' !in s[..|s| - 1];
      SplitAllCommaFree(s[..|s| - 1]);
      assert s[..|s| - 1] + [s[|s| - 1]] == s;
    }
  }

  /** Appending "," and a comma-free piece appends that piece. */
  lemma {:induction false} SplitAllAppend(s: string, piece: string)
    requires ',' !in piece
    ensures SplitAll(s + "," + piece) == SplitAll(s) + [piece]
    decreases |piece|
  {
    if |piece| == 0 {
      assert (s + ",")[..|s + ","| - 1] == s;
      assert s + "," + piece == s + ",";
    } else {
      var front := piece[..|piece| - 1];
      var c := piece[|piece| - 1];
      assert ',' !in front;
      SplitAllAppend(s, front);
      var t := s + "," + piece;
      assert t[..|t| - 1] == s + "," + front;
      assert front + [c] == piece;
    }
  }

  /** Drop empty pieces from the end. */
  function DropTrailingEmpty(parts: seq<string>): (r: seq<string>)
    ensures r <= parts
    ensures forall k :: |r| <= k < |parts| ==> parts[k] == ""
    ensures |r| > 0 ==> r[|r| - 1] != ""
  {
    if |parts| > 0 && parts[|parts| - 1] == "" then DropTrailingEmpty(parts[..|parts| - 1]) else parts
  }

  /**
   * String.split(",") with the default limit: the whole line when it has
   * no comma, otherwise the pieces with trailing empty ones removed.
   */
  function JavaSplit(s: string): (values: seq<string>)
    ensures ',' !in s ==> values == [s]
    ensures ',' in s ==> values <= SplitAll(s)
    ensures ',' in s ==> forall k :: |values| <= k < |SplitAll(s)| ==> SplitAll(s)[k] == ""
    ensures ',' in s && |values| > 0 ==> values[|values| - 1] != ""
  {
    if ',' !in s then [s] else DropTrailingEmpty(SplitAll(s))
  }

  // ---------------------------------------------------------------------
  // The grid

  /** One coloured rectangle: its row i, column j and colour. */
  datatype HeatCell = HeatCell(row: nat, column: nat, color: string)

  /** Parse the stripped entry and look its colour up; None where the source skips the entry. */
  function CellColor(value: string): (color: Option<string>)
    ensures color.Some? ==> color.value in Palette
  {
    match ParseInt(Strip(value))
    case None => None
    case Some(v) => AirQualityColor(v)
  }

  /** The colour of every entry of a row, in column order. */
  function RowColors(values: seq<string>): (colors: seq<Option<string>>)
    ensures |colors| == |values|
  {
    seq(|values|, k requires 0 <= k < |values| => CellColor(values[k]))
  }

  /** The cells of row i from column j on: at most GridWidth columns, entries without a colour skipped. */
  function RowCells(i: nat, colors: seq<Option<string>>, j: nat): (cells: seq<HeatCell>)
    decreases GridWidth - j
  {
    if j >= |colors| || j >= GridWidth then []
    else
      (if colors[j].Some? then [HeatCell(i, j, colors[j].value)] else []) + RowCells(i, colors, j + 1)
  }

  /**
   * A line ends the input when it is missing or blank; the source's test
   * is that the line strips to "", which StripEmptyIffBlank shows is the
   * same as this one.
   */
  predicate Blank(line: string)
  {
    forall k :: 0 <= k < |line| ==> IsWhitespace(line[k])
  }

  /**
   * How many rows the main loop reads from row i on: it stops after
   * GridHeight rows or at the first missing or blank line.
   */
  function RowsRead(lines: seq<string>, i: nat): (n: nat)
    ensures n == 0 || (i + n <= GridHeight && i + n <= |lines|)
    decreases GridHeight - i
  {
    if i >= GridHeight || i >= |lines| || Blank(lines[i]) then 0
    else 1 + RowsRead(lines, i + 1)
  }

  /** The colour rows of the lines read, one per line, each split at commas. */
  function ReadRows(lines: seq<string>): (rows: seq<seq<Option<string>>>)
  {
    var n := RowsRead(lines, 0);
    seq(n, k requires 0 <= k < n => RowColors(JavaSplit(lines[k])))
  }

  /** The cells of the colour rows from row i on, row by row. */
  function GridCells(rows: seq<seq<Option<string>>>, i: nat): (cells: seq<HeatCell>)
    requires i <= |rows|
    decreases |rows| - i
  {
    if i == |rows| then [] else RowCells(i, rows[i], 0) + GridCells(rows, i + 1)
  }

  /** The heat map as a list of cells, in the order the source adds them. */
  function Heatmap(lines: seq<string>): seq<HeatCell>
  {
    GridCells(ReadRows(lines), 0)
  }

  /** Row r is processed: it is one of the first GridHeight lines and no line up to it is blank. */
  predicate RowProcessed(lines: seq<string>, r: int)
  {
    0 <= r < GridHeight && r < |lines| && forall k :: 0 <= k <= r ==> !Blank(lines[k])
  }

  /** The cell the source draws at (r, c) with this colour, if any. */
  predicate Produces(lines: seq<string>, r: int, c: int, color: string)
  {
    && RowProcessed(lines, r)
    && 0 <= c < GridWidth && c < |JavaSplit(lines[r])|
    && RowColors(JavaSplit(lines[r]))[c] == Some(color)
  }

  lemma {:induction false} RowCellsMembership(i: nat, colors: seq<Option<string>>, j: nat, x: HeatCell)
    ensures x in RowCells(i, colors, j) <==>
              && x.row == i && j <= x.column < GridWidth && x.column < |colors|
              && colors[x.column] == Some(x.color)
    decreases GridWidth - j
  {
    if j < |colors| && j < GridWidth {
      var head: seq<HeatCell> := if colors[j].Some? then [HeatCell(i, j, colors[j].value)] else [];
      assert RowCells(i, colors, j) == head + RowCells(i, colors, j + 1);
      assert x in head <==> x.row == i && x.column == j && colors[j] == Some(x.color);
      RowCellsMembership(i, colors, j + 1, x);
    }
  }

  /** Once the rows before i are processed, row i is processed exactly when the loop does not stop at it. */
  lemma RowProcessedStep(lines: seq<string>, i: nat)
    requires i > 0 ==> RowProcessed(lines, i - 1)
    ensures RowProcessed(lines, i) <==> i < GridHeight && i < |lines| && !Blank(lines[i])
  {
    if i < GridHeight && i < |lines| && !Blank(lines[i]) {
      forall k | 0 <= k <= i
        ensures !Blank(lines[k])
      {
        if k < i {
          assert RowProcessed(lines, i - 1);
        }
      }
    }
  }

  /** Every row up to a processed one is processed too, so the loop has not stopped before it. */
  lemma ProcessedRowsBefore(lines: seq<string>, i: int, r: int)
    requires 0 <= i
    ensures i <= r && RowProcessed(lines, r) ==> RowProcessed(lines, i)
  {
  }

  /**
   * Reading from row i (all rows before it processed), line r is read
   * exactly when row r is processed.
   */
  lemma {:induction false} RowsReadAt(lines: seq<string>, i: nat, r: int)
    requires i > 0 ==> RowProcessed(lines, i - 1)
    requires i <= r
    ensures r < i + RowsRead(lines, i) <==> RowProcessed(lines, r)
    decreases GridHeight - i
  {
    RowProcessedStep(lines, i);
    ProcessedRowsBefore(lines, i, r);
    if i < GridHeight && i < |lines| && !Blank(lines[i]) && r > i {
      RowsReadAt(lines, i + 1, r);
    }
  }

  /** The rows read are exactly the processed ones, and each is its line's colour row. */
  lemma ReadRowsMembership(lines: seq<string>, r: nat)
    ensures r < |ReadRows(lines)| <==> RowProcessed(lines, r)
    ensures r < |ReadRows(lines)| ==> ReadRows(lines)[r] == RowColors(JavaSplit(lines[r]))
  {
    RowsReadAt(lines, 0, r);
  }

  lemma {:induction false} GridCellsMembership(rows: seq<seq<Option<string>>>, i: nat, x: HeatCell)
    requires i <= |rows|
    ensures x in GridCells(rows, i) <==>
              && i <= x.row < |rows| && x.column < GridWidth && x.column < |rows[x.row]|
              && rows[x.row][x.column] == Some(x.color)
    decreases |rows| - i
  {
    if i < |rows| {
      var row := RowCells(i, rows[i], 0);
      var rest := GridCells(rows, i + 1);
      assert GridCells(rows, i) == row + rest;
      assert x in row + rest <==> x in row || x in rest;
      RowCellsMembership(i, rows[i], 0, x);
      GridCellsMembership(rows, i + 1, x);
      if x.row == i {
        assert x in row <==> x.column < GridWidth && x.column < |rows[i]| && rows[i][x.column] == Some(x.color);
        assert x !in rest;
      } else {
        assert x !in row;
      }
    }
  }

  /**
   * Exactly the cells the source draws: a cell is in the heat map iff its
   * row is one of the first GridHeight lines with no blank line up to it,
   * its column is below GridWidth and within the row's values, and the
   * entry parses to a value with a colour.
   */
  lemma HeatmapMembership(lines: seq<string>, x: HeatCell)
    ensures x in Heatmap(lines) <==> Produces(lines, x.row, x.column, x.color)
  {
    GridCellsMembership(ReadRows(lines), 0, x);
    ReadRowsMembership(lines, x.row);
  }

  /** Cell x comes before cell y in row-major order. */
  predicate Before(x: HeatCell, y: HeatCell)
  {
    x.row < y.row || (x.row == y.row && x.column < y.column)
  }

  /** Cells come row by row, left to right, so no position is drawn twice. */
  predicate RowMajor(cells: seq<HeatCell>)
  {
    forall a, b :: 0 <= a < b < |cells| ==> Before(cells[a], cells[b])
  }

  /** Two row-major runs, all of the first before all of the second, make one row-major run. */
  lemma ConcatRowMajor(first: seq<HeatCell>, second: seq<HeatCell>)
    requires RowMajor(first) && RowMajor(second)
    requires forall x, y :: x in first && y in second ==> Before(x, y)
    ensures RowMajor(first + second)
  {
    var all := first + second;
    forall a, b | 0 <= a < b < |all|
      ensures Before(all[a], all[b])
    {
      if b < |first| {
        assert all[a] == first[a] && all[b] == first[b];
      } else if a < |first| {
        assert all[a] == first[a] && all[b] == second[b - |first|];
        assert all[a] in first && all[b] in second;
      } else {
        assert all[a] == second[a - |first|] && all[b] == second[b - |first|];
      }
    }
  }

  lemma {:induction false} RowCellsOrdered(i: nat, colors: seq<Option<string>>, j: nat)
    ensures RowMajor(RowCells(i, colors, j))
    decreases GridWidth - j
  {
    if j < |colors| && j < GridWidth {
      var head: seq<HeatCell> := if colors[j].Some? then [HeatCell(i, j, colors[j].value)] else [];
      var rest := RowCells(i, colors, j + 1);
      assert RowCells(i, colors, j) == head + rest;
      RowCellsOrdered(i, colors, j + 1);
      forall x, y | x in head && y in rest
        ensures Before(x, y)
      {
        RowCellsMembership(i, colors, j + 1, y);
      }
      ConcatRowMajor(head, rest);
    }
  }

  lemma {:induction false} GridCellsOrdered(rows: seq<seq<Option<string>>>, i: nat)
    requires i <= |rows|
    ensures RowMajor(GridCells(rows, i))
    decreases |rows| - i
  {
    if i < |rows| {
      var row := RowCells(i, rows[i], 0);
      var rest := GridCells(rows, i + 1);
      assert GridCells(rows, i) == row + rest;
      RowCellsOrdered(i, rows[i], 0);
      GridCellsOrdered(rows, i + 1);
      forall x, y | x in row && y in rest
        ensures Before(x, y)
      {
        RowCellsMembership(i, rows[i], 0, x);
        GridCellsMembership(rows, i + 1, y);
      }
      ConcatRowMajor(row, rest);
    }
  }

  lemma HeatmapOrdered(lines: seq<string>)
    ensures RowMajor(Heatmap(lines))
    ensures forall x :: x in Heatmap(lines) ==> x.row < GridHeight && x.column < GridWidth
  {
    GridCellsOrdered(ReadRows(lines), 0);
    forall x | x in Heatmap(lines)
      ensures x.row < GridHeight && x.column < GridWidth
    {
      GridCellsMembership(ReadRows(lines), 0, x);
    }
  }

  // ---------------------------------------------------------------------
  // Rectangles

  function West(j: int): real { MinLongitude + j as real * RectangleWidth }
  function East(j: int): real { MinLongitude + (j + 1) as real * RectangleWidth }
  function North(i: int): real { MaxLatitude - i as real * RectangleHeight }
  function South(i: int): real { MaxLatitude - (i + 1) as real * RectangleHeight }

  /**
   * The vertices of cell (i, j): north-west, south-west, south-east,
   * north-east and north-west again.
   */
  function CellRing(i: int, j: int): (ring: seq<Point>)
    ensures |ring| == 5 && IsLinearRing(ring)
    ensures forall k :: 0 <= k < |ring| ==>
              West(j) <= ring[k].lng <= East(j) && South(i) <= ring[k].lat <= North(i)
    ensures Point(West(j), North(i)) in ring && Point(West(j), South(i)) in ring
    ensures Point(East(j), South(i)) in ring && Point(East(j), North(i)) in ring
  {
    [Point(MinLongitude + j as real * RectangleWidth, MaxLatitude - i as real * RectangleHeight),
     Point(MinLongitude + j as real * RectangleWidth, MaxLatitude - (i + 1) as real * RectangleHeight),
     Point(MinLongitude + (j + 1) as real * RectangleWidth, MaxLatitude - (i + 1) as real * RectangleHeight),
     Point(MinLongitude + (j + 1) as real * RectangleWidth, MaxLatitude - i as real * RectangleHeight),
     Point(MinLongitude + j as real * RectangleWidth, MaxLatitude - i as real * RectangleHeight)]
  }

  /**
   * Neighbouring cells share their edges, and the grid spans the
   * confinement area exactly (the width/height swap in the cell size
   * constants cancels because the grid is square).
   */
  lemma GridTilesArea(i: int, j: int)
    ensures East(j) == West(j + 1) && South(i) == North(i + 1)
    ensures West(0) == MinLongitude && East(GridWidth - 1) == MaxLongitude
    ensures North(0) == MaxLatitude && South(GridHeight - 1) == MinLatitude
  {
  }

  /** The rectangle feature with its three properties. */
  function CellFeature(cell: HeatCell): (f: Feature)
    ensures f.geometry.PolygonGeometry? && f.geometry.rings == [CellRing(cell.row, cell.column)]
    ensures f.properties.Keys == {"rgb-string", "fill", "fill-opacity"}
  {
    Feature(PolygonGeometry([CellRing(cell.row, cell.column)]),
            map["rgb-string" := StringProperty(cell.color),
                "fill" := StringProperty(cell.color),
                "fill-opacity" := NumberProperty(FillOpacity)])
  }

  /** The features written to the output, one per cell. */
  function HeatmapFeatures(lines: seq<string>): (features: seq<Feature>)
    ensures |features| == |Heatmap(lines)|
  {
    var cells := Heatmap(lines);
    seq(|cells|, k requires 0 <= k < |cells| => CellFeature(cells[k]))
  }

  /**
   * A drawn cell's colour is that of the 32-wide bucket of the integer its
   * stripped entry parses to, which lies in [0, 256).
   */
  lemma ProducedColor(lines: seq<string>, r: int, c: int, color: string)
    requires Produces(lines, r, c, color)
    ensures exists v :: && ParseInt(Strip(JavaSplit(lines[r])[c])) == Some(v)
                        && 0 <= v < 256 && color == Palette[v / 32]
  {
    var v := ParseInt(Strip(JavaSplit(lines[r])[c])).value;
    assert AirQualityColor(v) == Some(color);
  }

  /**
   * Every emitted rectangle belongs to a drawn cell, with rgb-string and
   * fill equal to the cell's colour and fill-opacity 0.75.
   */
  lemma FeaturesColoured(lines: seq<string>, k: int)
    requires 0 <= k < |HeatmapFeatures(lines)|
    ensures var cell := Heatmap(lines)[k];
            var f := HeatmapFeatures(lines)[k];
            && f.properties["rgb-string"] == f.properties["fill"] == StringProperty(cell.color)
            && f.properties["fill-opacity"] == NumberProperty(0.75)
            && Produces(lines, cell.row, cell.column, cell.color)
  {
    var cell := Heatmap(lines)[k];
    assert HeatmapFeatures(lines)[k] == CellFeature(cell);
    HeatmapMembership(lines, cell);
  }
}
