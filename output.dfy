// The output formatter of pkg/output/formatter.go: the integer and string
// helpers behind the human-readable tables (byte units, the aligned numeric
// columns, the blanking of leading fraction zeros) and the header and row
// selection of the summary, per-year and per-UID tables.

module Output {
  import opened Wrappers
  import opened Text
  import opened Fs
  import opened Stats

  /** The range of Go's int64, the type of every count and size here. */
  predicate IsInt64(n: int)
  {
    -0x8000_0000_0000_0000 <= n < 0x8000_0000_0000_0000
  }

  /** 1024 to the power e. */
  function Pow1024(e: nat): (p: int)
    ensures p >= 1
  {
    if e == 0 then 1 else 1024 * Pow1024(e - 1)
  }

  /** Pow1024 grows with its exponent. */
  lemma {:induction false} Pow1024Monotone(d: nat, e: nat)
    requires d <= e
    ensures Pow1024(d) <= Pow1024(e)
  {
    if d < e {
      Pow1024Monotone(d, e - 1);
    }
  }

  /** b divided k times by 1024, as the unit loops divide it. */
  function Shifted(b: int, k: nat): int
  {
    if k == 0 then b else Shifted(b, k - 1) / 1024
  }

  lemma MulLe(a: int, x: int, y: int)
    requires a >= 0 && x <= y
    ensures a * x <= a * y
  {
  }

  lemma ScaleBy1024(p: int, q: int)
    ensures p * (1024 * q) == (1024 * p) * q
  {
  }

  /** Dividing k times by 1024 is dividing by 1024^k. */
  lemma {:induction false} ShiftedBounds(b: int, k: nat)
    requires b >= 0
    ensures Pow1024(k) * Shifted(b, k) <= b < Pow1024(k) * (Shifted(b, k) + 1)
  {
    if k > 0 {
      ShiftedBounds(b, k - 1);
      var p, q := Pow1024(k - 1), Shifted(b, k - 1);
      var q' := q / 1024;
      assert Pow1024(k) == 1024 * p;
      assert Shifted(b, k) == q';
      MulLe(p, 1024 * q', q);
      MulLe(p, q + 1, 1024 * (q' + 1));
      ScaleBy1024(p, q');
      ScaleBy1024(p, q' + 1);
    }
  }

  // ---------------------------------------------------------------------
  // formatBytes

  /** What formatBytes prints: below one KiB the exact count ("%d B");
      otherwise the quotient b / div with one decimal (its float rendering
      is not modelled) and the unit letter "KMGTPE"[exp] before "B". */
  datatype BytesText = Exact(text: string) | Scaled(div: int, exp: nat, letter: char)

  const UnitLetters: string := "KMGTPE"

  /** formatBytes: the unit is the largest power of 1024 not above b. */
  method FormatBytes(b: int) returns (r: BytesText)
    requires IsInt64(b)
    ensures b < 1024 ==> r == Exact(IntString(b) + " B")
    ensures b >= 1024 ==> r.Scaled? && r.exp < |UnitLetters| && r.letter == UnitLetters[r.exp]
    ensures b >= 1024 ==> r.div == Pow1024(r.exp + 1) && r.div <= b < r.div * 1024
  {
    if b < 1024 {
      return Exact(IntString(b) + " B");
    }
    var div, exp := 1024, 0;
    var n := b / 1024;
    while n >= 1024
      invariant div == Pow1024(exp + 1) && n == Shifted(b, exp + 1) && n >= 1
      decreases n
    {
      div := div * 1024;
      exp := exp + 1;
      n := n / 1024;
    }
    ShiftedBounds(b, exp + 1);
    MulLe(div, 1, n);
    MulLe(div, n + 1, 1024);
    assert Pow1024(7) == 0x40_0000_0000_0000_0000;
    if exp + 1 >= 7 {
      Pow1024Monotone(7, exp + 1);
    }
    r := Scaled(div, exp, UnitLetters[exp]);
  }

  /** The exponent formatBytes picks is the only one that brackets b. */
  lemma {:induction false} BracketUnique(b: int, d: nat, e: nat)
    requires Pow1024(d) <= b < Pow1024(d) * 1024
    requires Pow1024(e) <= b < Pow1024(e) * 1024
    ensures d == e
  {
    if d < e {
      Pow1024Monotone(d + 1, e);
    } else if e < d {
      Pow1024Monotone(e + 1, d);
    }
  }

  // ---------------------------------------------------------------------
  // replaceLeadingFractionZeros

  /** The index of the first character after position 0 that is not '0',
      or |s| when there is none. */
  function FirstNonZero(s: string, from: nat): (k: nat)
    requires 1 <= from <= |s|
    ensures from <= k <= |s|
    ensures forall j :: from <= j < k ==> s[j] == '0'
    ensures k < |s| ==> s[k] != '0'
    decreases |s| - from
  {
    if from == |s| || s[from] != '0' then from else FirstNonZero(s, from + 1)
  }

  function Spaces(n: nat): (t: string)
    ensures |t| == n && forall i :: 0 <= i < n ==> t[i] == ' '
  {
    if n == 0 then "" else Spaces(n - 1) + " "
  }

  /** The text replaceLeadingFractionZeros returns: a fraction ".0…0d…" with
      a non-zero digit after its leading zeros gets those zeros blanked. */
  function BlankedZeros(s: string): string
  {
    if |s| < 3 || s[0] != '.' then s
    else
      var k := FirstNonZero(s, 1);
      if k == |s| || k == 1 then s else "." + Spaces(k - 1) + s[k..]
  }

  /** replaceLeadingFractionZeros, scanning for the first non-zero digit. */
  method ReplaceLeadingFractionZeros(s: string) returns (t: string)
    ensures t == BlankedZeros(s)
  {
    if |s| < 3 || s[0] != '.' {
      return s;
    }
    var firstNonZero := -1;
    var i := 1;
    while i < |s|
      invariant 1 <= i <= |s|
      invariant firstNonZero == -1 && forall j :: 1 <= j < i ==> s[j] == '0'
      decreases |s| - i
    {
      if s[i] != '0' {
        firstNonZero := i;
        FirstNonZeroIs(s, 1, i);
        break;
      }
      i := i + 1;
    }
    if firstNonZero == -1 {
      FirstNonZeroIs(s, 1, |s|);
      return s;
    }
    if firstNonZero == 1 {
      return s;
    }
    t := "." + Spaces(firstNonZero - 1) + s[firstNonZero..];
  }

  /** FirstNonZero is the first index after which only zeros lie before it. */
  lemma {:induction false} FirstNonZeroIs(s: string, from: nat, k: nat)
    requires 1 <= from <= k <= |s|
    requires forall j :: from <= j < k ==> s[j] == '0'
    requires k == |s| || s[k] != '0'
    ensures FirstNonZero(s, from) == k
    decreases k - from
  {
    if from < k {
      FirstNonZeroIs(s, from + 1, k);
    }
  }

  /** Position i is one of the blanked zeros: s is a fraction, i lies in its
      run of leading zeros, and a non-zero digit follows the run. */
  predicate InBlankedRun(s: string, i: int)
  {
    && |s| > 0 && s[0] == '.'
    && 1 <= i < |s|
    && (forall j :: 1 <= j <= i ==> s[j] == '0')
    && (exists j :: i < j < |s| && s[j] != '0')
  }

  /** The blanking keeps the length and changes exactly the leading zeros of
      a fraction that has a non-zero digit, each into a space. */
  lemma BlankedZerosPointwise(s: string)
    ensures |BlankedZeros(s)| == |s|
    ensures forall i :: 0 <= i < |s| ==>
      BlankedZeros(s)[i] == (if InBlankedRun(s, i) then ' ' else s[i])
  {
    var t := BlankedZeros(s);
    if |s| < 3 || s[0] != '.' {
      return;
    }
    var k := FirstNonZero(s, 1);
    forall i | 0 <= i < |s|
      ensures t[i] == (if InBlankedRun(s, i) then ' ' else s[i])
    {
      if InBlankedRun(s, i) {
        var j :| i < j < |s| && s[j] != '0';
        assert i < k;
      }
      if 1 <= i < k && k < |s| {
        assert s[k] != '0';
        assert InBlankedRun(s, i);
      }
    }
  }

  /** Blanking twice is blanking once. */
  lemma BlankedZerosIdempotent(s: string)
    ensures BlankedZeros(BlankedZeros(s)) == BlankedZeros(s)
  {
    var t := BlankedZeros(s);
    if t != s {
      assert t[1] == ' ';
      FirstNonZeroIs(t, 1, 1);
    }
  }

  // ---------------------------------------------------------------------
  // formatAlignedColumn

  /** The byte units of formatAlignedColumn; the column unit is the entry at
      UnitIndex of the column maximum. */
  const Units: seq<string> := ["B", "KB", "MB", "GB", "TB", "PB", "EB"]

  function Min6(n: int): int
  {
    if n < 6 then n else 6
  }

  /** How often m can be divided by 1024 while it is at least 1024, at most
      6 times (the last unit is EB). */
  function UnitIndex(m: int): (u: nat)
    ensures u < |Units|
    decreases m
  {
    if m < 1024 then 0 else Min6(1 + UnitIndex(m / 1024))
  }

  /** The unit is the largest power of 1024 not above m, or EB. */
  lemma {:induction false} UnitIndexBracket(m: int)
    requires m >= 1
    ensures Pow1024(UnitIndex(m)) <= m
    ensures UnitIndex(m) == 6 || m < Pow1024(UnitIndex(m) + 1)
    decreases m
  {
    if m >= 1024 {
      UnitIndexBracket(m / 1024);
    }
  }

  /** formatAlignedColumn's unit loop. */
  method UnitOf(maxVal: int) returns (idx: nat)
    ensures idx == UnitIndex(maxVal)
  {
    idx := 0;
    var unitMax := maxVal;
    while unitMax >= 1024 && idx < |Units| - 1
      invariant idx <= 6 && UnitIndex(maxVal) == Min6(idx + UnitIndex(unitMax))
      decreases unitMax
    {
      unitMax := unitMax / 1024;
      idx := idx + 1;
    }
  }

  /** One cell of an aligned column: blank (the empty string), or the
      value's number with the column unit when the cell carries it. The
      number's text (scaled by the unit, rounded, decimal-aligned, "<" when
      it rounds to zero, dimmed when small) is not modelled. */
  datatype Cell = Blank | Number(value: int, unit: string)

  /** The column maximum, starting from 0: never below 0. */
  function ColumnMax(values: seq<int>): (m: int)
    ensures m >= 0
    ensures forall i :: 0 <= i < |values| ==> values[i] <= m
    ensures m == 0 || exists i :: 0 <= i < |values| && values[i] == m
  {
    if values == [] then 0
    else
      var rest := ColumnMax(values[..|values| - 1]);
      var last := values[|values| - 1];
      assert forall i :: 0 <= i < |values| - 1 ==> values[i] == values[..|values| - 1][i];
      if last > rest then last else rest
  }

  /** The cell of v in a column whose maximum is maxVal. */
  function CellOf(v: int, maxVal: int, isBytes: bool): Cell
  {
    if maxVal == 0 || v == 0 then Blank
    else Number(v, if isBytes && v == maxVal then Units[UnitIndex(maxVal)] else "")
  }

  /** What formatAlignedColumn returns, cell by cell. */
  function ColumnCells(values: seq<int>, isBytes: bool): (cells: seq<Cell>)
    ensures |cells| == |values|
  {
    var maxVal := ColumnMax(values);
    seq(|values|, i requires 0 <= i < |values| => CellOf(values[i], maxVal, isBytes))
  }

  /** formatAlignedColumn: the column maximum, the unit, then the cells. */
  method FormatAlignedColumn(values: seq<int>, isBytes: bool) returns (out: seq<Cell>)
    ensures out == ColumnCells(values, isBytes)
  {
    if |values| == 0 {
      return [];
    }
    var maxVal := MaxOf(values);
    if maxVal == 0 {
      out := AllBlank(|values|);
      return;
    }
    var unitSuffix := "";
    if isBytes {
      var idx := UnitOf(maxVal);
      unitSuffix := Units[idx];
    }
    out := FillCells(values, maxVal, unitSuffix, isBytes);
  }

  /** The maximum loop of formatAlignedColumn, starting from 0. */
  method MaxOf(values: seq<int>) returns (maxVal: int)
    ensures maxVal == ColumnMax(values)
  {
    maxVal := 0;
    for i := 0 to |values|
      invariant maxVal == ColumnMax(values[..i])
    {
      assert values[..i + 1][..i] == values[..i];
      if values[i] > maxVal {
        maxVal := values[i];
      }
    }
    assert values[..|values|] == values;
  }

  /** The all-blank column of a column without a positive value. */
  method AllBlank(n: nat) returns (out: seq<Cell>)
    ensures |out| == n && forall j :: 0 <= j < n ==> out[j] == Blank
  {
    var cells := new Cell[n];
    for i := 0 to n
      invariant forall j :: 0 <= j < i ==> cells[j] == Blank
    {
      cells[i] := Blank;
    }
    out := cells[..];
  }

  /** The second pass of formatAlignedColumn: a blank for a zero, otherwise
      the value, with the unit suffix where it is the maximum. */
  method FillCells(values: seq<int>, maxVal: int, unitSuffix: string, isBytes: bool) returns (out: seq<Cell>)
    requires maxVal == ColumnMax(values) && maxVal != 0
    requires unitSuffix == (if isBytes then Units[UnitIndex(maxVal)] else "")
    ensures out == ColumnCells(values, isBytes)
  {
    var cells := new Cell[|values|];
    for i := 0 to |values|
      invariant forall j :: 0 <= j < i ==> cells[j] == CellOf(values[j], maxVal, isBytes)
    {
      if values[i] == 0 {
        cells[i] := Blank;
      } else {
        cells[i] := Number(values[i], if unitSuffix != "" && values[i] == maxVal then unitSuffix else "");
      }
    }
    out := cells[..];
  }

  /** formatAlignedColumn keeps one cell per value and the value in it;
      a zero, or any value of a column without a positive one, is blank;
      the unit goes only to the cells holding the column maximum, and it is
      the largest power of 1024 not above that maximum, capped at EB. */
  lemma ColumnCellsMeaning(values: seq<int>, isBytes: bool)
    ensures |ColumnCells(values, isBytes)| == |values|
    ensures forall i :: 0 <= i < |values| ==>
      (ColumnCells(values, isBytes)[i].Blank? <==>
        values[i] == 0 || forall j :: 0 <= j < |values| ==> values[j] <= 0)
    ensures forall i :: 0 <= i < |values| && ColumnCells(values, isBytes)[i].Number? ==>
      ColumnCells(values, isBytes)[i].value == values[i]
    ensures forall i :: 0 <= i < |values| && ColumnCells(values, isBytes)[i].Number? ==>
      (ColumnCells(values, isBytes)[i].unit != "" <==>
        isBytes && forall j :: 0 <= j < |values| ==> values[j] <= values[i])
    ensures forall i ::
      0 <= i < |values| && ColumnCells(values, isBytes)[i].Number? && ColumnCells(values, isBytes)[i].unit != "" ==>
      var u := UnitIndex(values[i]);
      ColumnCells(values, isBytes)[i].unit == Units[u] && Pow1024(u) <= values[i] &&
      (u == 6 || values[i] < Pow1024(u + 1))
  {
    var cells := ColumnCells(values, isBytes);
    var m := ColumnMax(values);
    forall i | 0 <= i < |values| && cells[i].Number? && cells[i].unit != ""
      ensures cells[i].unit == Units[UnitIndex(values[i])]
      ensures Pow1024(UnitIndex(values[i])) <= values[i]
      ensures UnitIndex(values[i]) == 6 || values[i] < Pow1024(UnitIndex(values[i]) + 1)
    {
      UnitIndexBracket(m);
    }
  }

  /** The column units past B are the formatBytes letters followed by B. */
  lemma UnitNames(exp: nat)
    requires exp < |UnitLetters|
    ensures Units[exp + 1] == [UnitLetters[exp]] + "B"
  {
  }

  /** The unit formatBytes chooses for b is the unit formatAlignedColumn
      gives a column whose maximum is b. */
  lemma BytesUnitMatchesColumnUnit(b: int, exp: nat)
    requires IsInt64(b) && b >= 1024 && exp < |UnitLetters|
    requires Pow1024(exp + 1) <= b < Pow1024(exp + 1) * 1024
    ensures UnitIndex(b) == exp + 1
    ensures Units[UnitIndex(b)] == [UnitLetters[exp]] + "B"
  {
    UnitNames(exp);
    UnitIndexBracket(b);
    var u := UnitIndex(b);
    if u == 6 {
      Pow1024Monotone(exp + 1, 6);
      assert Pow1024(6) * 1024 == 0x40_0000_0000_0000_0000;
    }
    BracketUnique(b, u, exp + 1);
  }

  // ---------------------------------------------------------------------
  // The tables

  /** A cell of a table row: a text, a plain count, or an aligned cell. */
  datatype Item = Label(text: string) | Count(n: int) | Aligned(cell: Cell)

  /** A table as handed to the renderer: the header titles (shown unless
      noHeader is set) and the rows. Box drawing and colours are not modelled. */
  datatype TableView = TableView(headers: seq<string>, headerShown: bool, rows: seq<seq<Item>>)

  /** Formatter: output format, mode, and whether to omit the header row. */
  datatype Formatter = Formatter(format: string, mode: string, noHeader: bool)

  /** The per-type columns of the summary table, in their order. */
  const Kinds: seq<InodeType> := [File, Dir, Symlink, Other]

  function KindTitle(k: InodeType): string
  {
    match k
    case File => "Files"
    case Dir => "Dirs"
    case Symlink => "Symlinks"
    case Other => "Others"
  }

  /** The types of ks whose count in sum is positive, in the order of ks. */
  function ShownKinds(ks: seq<InodeType>, sum: Tally): seq<InodeType>
  {
    if ks == [] then []
    else
      var k := ks[|ks| - 1];
      ShownKinds(ks[..|ks| - 1], sum) + (if CountOf(sum, k) > 0 then [k] else [])
  }

  /** A summary size cell: a column of the one value. */
  function SizeCell(x: int): Cell
  {
    ColumnCells([x], true)[0]
  }

  function KindTitles(ks: seq<InodeType>): seq<string>
  {
    seq(|ks|, i requires 0 <= i < |ks| => KindTitle(ks[i]))
  }

  function KindCounts(sum: Tally, ks: seq<InodeType>): seq<Item>
  {
    seq(|ks|, i requires 0 <= i < |ks| => Count(CountOf(sum, ks[i])))
  }

  function KindSizes(sum: Tally, ks: seq<InodeType>): seq<Item>
  {
    seq(|ks|, i requires 0 <= i < |ks| => Aligned(SizeCell(SizeOf(sum, ks[i]))))
  }

  /** The summary table: Metric and Count/Size, then a column per type
      with a positive count; an inodes row and a size row. */
  function SummaryView(f: Formatter, sum: Tally): TableView
  {
    var ks := ShownKinds(Kinds, sum);
    TableView(["Metric", "Count/Size"] + KindTitles(ks), !f.noHeader,
      [[Label("Total Inodes"), Count(sum.totalInodes)] + KindCounts(sum, ks),
       [Label("Total Size"), Aligned(SizeCell(sum.totalSize))] + KindSizes(sum, ks)])
  }

  lemma KindColumnsSnoc(sum: Tally, ks: seq<InodeType>, k: InodeType)
    ensures KindTitles(ks + [k]) == KindTitles(ks) + [KindTitle(k)]
    ensures KindCounts(sum, ks + [k]) == KindCounts(sum, ks) + [Count(CountOf(sum, k))]
    ensures KindSizes(sum, ks + [k]) == KindSizes(sum, ks) + [Aligned(SizeCell(SizeOf(sum, k)))]
  {
  }

  lemma ShownKindsSnoc(ks: seq<InodeType>, n: nat, sum: Tally)
    requires n < |ks|
    ensures ShownKinds(ks[..n + 1], sum) ==
      ShownKinds(ks[..n], sum) + (if CountOf(sum, ks[n]) > 0 then [ks[n]] else [])
  {
    assert ks[..n + 1][..n] == ks[..n];
  }

  /** summaryTable: the header titles, the inodes row and the size row,
      each extended by the columns of the types present. */
  method SummaryTable(f: Formatter, sum: Tally) returns (t: TableView)
    ensures t == SummaryView(f, sum)
  {
    var headers := ["Metric", "Count/Size"];
    var inodesRow := [Label("Total Inodes"), Count(sum.totalInodes)];
    var countSizeCol := FormatAlignedColumn([sum.totalSize], true);
    var sizeRow := [Label("Total Size"), Aligned(countSizeCol[0])];
    ghost var shown: seq<InodeType> := [];
    for n := 0 to |Kinds|
      invariant shown == ShownKinds(Kinds[..n], sum)
      invariant headers == ["Metric", "Count/Size"] + KindTitles(shown)
      invariant inodesRow == [Label("Total Inodes"), Count(sum.totalInodes)] + KindCounts(sum, shown)
      invariant sizeRow == [Label("Total Size"), Aligned(SizeCell(sum.totalSize))] + KindSizes(sum, shown)
    {
      var k := Kinds[n];
      ShownKindsSnoc(Kinds, n, sum);
      if CountOf(sum, k) > 0 {
        KindColumnsSnoc(sum, shown, k);
        var col := FormatAlignedColumn([SizeOf(sum, k)], true);
        headers := headers + [KindTitle(k)];
        inodesRow := inodesRow + [Count(CountOf(sum, k))];
        sizeRow := sizeRow + [Aligned(col[0])];
        shown := shown + [k];
      }
    }
    assert Kinds[..|Kinds|] == Kinds;
    t := TableView(headers, !f.noHeader, [inodesRow, sizeRow]);
  }

  /** ShownKinds keeps exactly the types with a positive count. */
  lemma {:induction false} ShownKindsMembers(ks: seq<InodeType>, sum: Tally)
    ensures forall k :: k in ShownKinds(ks, sum) <==> k in ks && CountOf(sum, k) > 0
  {
    if ks != [] {
      var init := ks[..|ks| - 1];
      ShownKindsMembers(init, sum);
      assert ks == init + [ks[|ks| - 1]];
    }
  }

  /** A one-value size column is blank for a value not above zero and
      otherwise shows the value with its unit. */
  lemma SizeCellMeaning(x: int)
    ensures x <= 0 ==> SizeCell(x) == Blank
    ensures x > 0 ==> SizeCell(x) == Number(x, Units[UnitIndex(x)])
  {
    assert ColumnMax([x][..0]) == 0;
  }

  /** Distinct types have distinct column titles. */
  lemma KindTitleInjective(k: InodeType, l: InodeType)
    ensures KindTitle(k) == KindTitle(l) <==> k == l
  {
    if k != l {
      assert KindTitle(k)[0] != KindTitle(l)[0] || |KindTitle(k)| != |KindTitle(l)|;
    }
  }

  /** Both summary rows are as wide as the header; they start with the
      metric names and the totals. */
  lemma SummaryViewShape(f: Formatter, sum: Tally)
    ensures var t := SummaryView(f, sum);
      && t.headers[..2] == ["Metric", "Count/Size"]
      && t.headerShown == !f.noHeader
      && |t.rows| == 2 && |t.rows[0]| == |t.headers| && |t.rows[1]| == |t.headers|
      && t.rows[0][..2] == [Label("Total Inodes"), Count(sum.totalInodes)]
      && t.rows[1][..2] == [Label("Total Size"), Aligned(SizeCell(sum.totalSize))]
  {
  }

  /** A type's title is among the titles of ks exactly when it is in ks. */
  lemma KindTitlesMembers(ks: seq<InodeType>, k: InodeType)
    ensures KindTitle(k) in KindTitles(ks) <==> k in ks
  {
    if KindTitle(k) in KindTitles(ks) {
      var i :| 0 <= i < |ks| && KindTitles(ks)[i] == KindTitle(k);
      KindTitleInjective(ks[i], k);
    }
    if k in ks {
      var i :| 0 <= i < |ks| && ks[i] == k;
      assert KindTitles(ks)[i] == KindTitle(k);
    }
  }

  /** The summary table has a type's column exactly when its count is
      positive. */
  lemma SummaryColumnsPresent(f: Formatter, sum: Tally)
    ensures forall k :: KindTitle(k) in SummaryView(f, sum).headers <==> CountOf(sum, k) > 0
  {
    var ks := ShownKinds(Kinds, sum);
    ShownKindsMembers(Kinds, sum);
    forall k
      ensures KindTitle(k) in ["Metric", "Count/Size"] + KindTitles(ks) <==> CountOf(sum, k) > 0
    {
      KindTitlesMembers(ks, k);
      assert KindTitle(k) != "Metric" && KindTitle(k) != "Count/Size";
    }
  }

  /** The column under a type's title holds that type's count in the
      inodes row and its size cell in the size row. */
  lemma SummaryColumnsAligned(f: Formatter, sum: Tally)
    ensures forall p, k :: 2 <= p < |SummaryView(f, sum).headers| && SummaryView(f, sum).headers[p] == KindTitle(k) ==>
      SummaryView(f, sum).rows[0][p] == Count(CountOf(sum, k)) &&
      SummaryView(f, sum).rows[1][p] == Aligned(SizeCell(SizeOf(sum, k)))
  {
    var t := SummaryView(f, sum);
    var ks := ShownKinds(Kinds, sum);
    forall p, k | 2 <= p < |t.headers| && t.headers[p] == KindTitle(k)
      ensures t.rows[0][p] == Count(CountOf(sum, k)) && t.rows[1][p] == Aligned(SizeCell(SizeOf(sum, k)))
    {
      KindTitleInjective(ks[p - 2], k);
    }
  }

  // ---------------------------------------------------------------------
  // The per-year and per-UID tables

  /** The value columns of the grouped tables: Size and Inodes always,
      then the optional ones. */
  datatype Field = TotalSize | TotalInodes | FilesCount | DirsCount | SymlinksCount | OthersCount | FilesSize | DirsSize

  /** The optional columns, in header order. */
  const OptionalFields: seq<Field> := [FilesCount, DirsCount, SymlinksCount, OthersCount, FilesSize, DirsSize]

  function FieldTitle(g: Field): string
  {
    match g
    case TotalSize => "Size"
    case TotalInodes => "Inodes"
    case FilesCount => "Files"
    case DirsCount => "Dirs"
    case SymlinksCount => "Symlinks"
    case OthersCount => "Others"
    case FilesSize => "Files Size"
    case DirsSize => "Dirs Size"
  }

  /** Distinct columns have distinct titles. */
  lemma FieldTitleInjective(g: Field, h: Field)
    ensures FieldTitle(g) == FieldTitle(h) <==> g == h
  {
    if g != h {
      var a, b := FieldTitle(g), FieldTitle(h);
      assert |a| != |b| || a[0] != b[0];
    }
  }

  function FieldValue(t: Tally, g: Field): int
  {
    match g
    case TotalSize => t.totalSize
    case TotalInodes => t.totalInodes
    case FilesCount => t.files
    case DirsCount => t.dirs
    case SymlinksCount => t.symlinks
    case OthersCount => t.others
    case FilesSize => t.filesSize
    case DirsSize => t.dirsSize
  }

  /** The columns formatted as byte sizes. */
  predicate InBytes(g: Field)
  {
    g == TotalSize || g == FilesSize || g == DirsSize
  }

  /** The column of g over the rows' tallies. */
  function Values(ts: seq<Tally>, g: Field): (vs: seq<int>)
    ensures |vs| == |ts|
  {
    seq(|ts|, i requires 0 <= i < |ts| => FieldValue(ts[i], g))
  }

  predicate AnyPositive(ts: seq<Tally>, g: Field)
  {
    exists i :: 0 <= i < |ts| && FieldValue(ts[i], g) > 0
  }

  /** The fields of gs with a positive value in some row, in the order of gs. */
  function Present(gs: seq<Field>, ts: seq<Tally>): seq<Field>
  {
    if gs == [] then []
    else
      var g := gs[|gs| - 1];
      Present(gs[..|gs| - 1], ts) + (if AnyPositive(ts, g) then [g] else [])
  }

  /** The value columns a grouped table shows. */
  function Columns(ts: seq<Tally>): seq<Field>
  {
    [TotalSize, TotalInodes] + Present(OptionalFields, ts)
  }

  function FieldTitles(gs: seq<Field>): seq<string>
  {
    seq(|gs|, k requires 0 <= k < |gs| => FieldTitle(gs[k]))
  }

  /** The value cells of row j: for each column, the j-th cell of that
      column formatted as a whole. */
  function RowCells(ts: seq<Tally>, gs: seq<Field>, j: int): seq<Item>
    requires 0 <= j < |ts|
  {
    seq(|gs|, k requires 0 <= k < |gs| => Aligned(ColumnCells(Values(ts, gs[k]), InBytes(gs[k]))[j]))
  }

  /** A grouped table: the key titles and the titles of the columns shown;
      a row per key, its key cells then its value cells. */
  function GroupedView(f: Formatter, keyTitles: seq<string>, keyCells: seq<seq<Item>>, ts: seq<Tally>): TableView
    requires |keyCells| == |ts|
  {
    var gs := Columns(ts);
    TableView(keyTitles + FieldTitles(gs), !f.noHeader,
      seq(|ts|, j requires 0 <= j < |ts| => keyCells[j] + RowCells(ts, gs, j)))
  }

  /** The hasFiles, hasDirs, ... flags: whether some row has a positive
      value in column g. */
  method HasPositive(ts: seq<Tally>, g: Field) returns (has: bool)
    ensures has <==> AnyPositive(ts, g)
  {
    has := false;
    for i := 0 to |ts|
      invariant has <==> exists j :: 0 <= j < i && FieldValue(ts[j], g) > 0
    {
      if FieldValue(ts[i], g) > 0 {
        has := true;
      }
    }
  }

  /** The cells of row j, one per column, taken from the formatted columns. */
  method BuildRow(ts: seq<Tally>, gs: seq<Field>, cols: seq<seq<Cell>>, j: int) returns (row: seq<Item>)
    requires 0 <= j < |ts| && |cols| == |gs|
    requires forall k :: 0 <= k < |gs| ==> cols[k] == ColumnCells(Values(ts, gs[k]), InBytes(gs[k]))
    ensures row == RowCells(ts, gs, j)
  {
    row := [];
    for k := 0 to |gs|
      invariant |row| == k
      invariant forall m :: 0 <= m < k ==> row[m] == Aligned(cols[m][j])
    {
      row := row + [Aligned(cols[k][j])];
    }
  }

  /** The headers of a grouped table: the key titles, Size, Inodes, and each
      optional column some row has a positive value in. */
  method GroupedHeaders(keyTitles: seq<string>, ts: seq<Tally>) returns (headers: seq<string>, gs: seq<Field>)
    ensures gs == Columns(ts)
    ensures headers == keyTitles + FieldTitles(gs)
  {
    gs := [TotalSize, TotalInodes];
    headers := keyTitles + ["Size", "Inodes"];
    assert FieldTitles(gs) == ["Size", "Inodes"];
    for n := 0 to |OptionalFields|
      invariant gs == [TotalSize, TotalInodes] + Present(OptionalFields[..n], ts)
      invariant headers == keyTitles + FieldTitles(gs)
    {
      var g := OptionalFields[n];
      assert OptionalFields[..n + 1][..n] == OptionalFields[..n];
      var has := HasPositive(ts, g);
      if has {
        assert FieldTitles(gs + [g]) == FieldTitles(gs) + [FieldTitle(g)];
        gs := gs + [g];
        headers := headers + [FieldTitle(g)];
      }
    }
    assert OptionalFields[..|OptionalFields|] == OptionalFields;
  }

  /** perYearTable and perUIDTable past their key columns: the headers, the
      formatted columns, and a row per key. */
  method GroupedTable(f: Formatter, keyTitles: seq<string>, keyCells: seq<seq<Item>>, ts: seq<Tally>)
    returns (t: TableView)
    requires |keyCells| == |ts|
    ensures t == GroupedView(f, keyTitles, keyCells, ts)
  {
    var headers, gs := GroupedHeaders(keyTitles, ts);
    var cols: seq<seq<Cell>> := [];
    for k := 0 to |gs|
      invariant |cols| == k
      invariant forall m :: 0 <= m < k ==> cols[m] == ColumnCells(Values(ts, gs[m]), InBytes(gs[m]))
    {
      var col := FormatAlignedColumn(Values(ts, gs[k]), InBytes(gs[k]));
      cols := cols + [col];
    }
    var rows: seq<seq<Item>> := [];
    for j := 0 to |ts|
      invariant |rows| == j
      invariant forall m :: 0 <= m < j ==> rows[m] == keyCells[m] + RowCells(ts, gs, m)
    {
      var cells := BuildRow(ts, gs, cols, j);
      rows := rows + [keyCells[j] + cells];
    }
    t := TableView(headers, !f.noHeader, rows);
  }

  /** Present keeps exactly the fields of gs with a positive value in some
      row. */
  lemma {:induction false} PresentMembers(gs: seq<Field>, ts: seq<Tally>)
    ensures forall g :: g in Present(gs, ts) <==> g in gs && AnyPositive(ts, g)
  {
    if gs != [] {
      var init := gs[..|gs| - 1];
      PresentMembers(init, ts);
      assert gs == init + [gs[|gs| - 1]];
    }
  }

  /** Every row of a grouped table is as wide as its header, and starts
      with its key cells; Size and Inodes follow the key titles. */
  lemma GroupedViewShape(f: Formatter, keyTitles: seq<string>, keyCells: seq<seq<Item>>, ts: seq<Tally>)
    requires |keyCells| == |ts|
    requires forall j :: 0 <= j < |ts| ==> |keyCells[j]| == |keyTitles|
    ensures var t := GroupedView(f, keyTitles, keyCells, ts);
      && t.headerShown == !f.noHeader
      && |t.headers| >= |keyTitles| + 2
      && t.headers[..|keyTitles|] == keyTitles
      && t.headers[|keyTitles|..|keyTitles| + 2] == ["Size", "Inodes"]
      && |t.rows| == |ts|
      && (forall j :: 0 <= j < |ts| ==> |t.rows[j]| == |t.headers| && t.rows[j][..|keyTitles|] == keyCells[j])
  {
    var t := GroupedView(f, keyTitles, keyCells, ts);
    forall j | 0 <= j < |ts|
      ensures |t.rows[j]| == |t.headers| && t.rows[j][..|keyTitles|] == keyCells[j]
    {
      assert t.rows[j] == keyCells[j] + RowCells(ts, Columns(ts), j);
    }
  }

  /** A field's title is among the titles of gs exactly when it is in gs. */
  lemma FieldTitlesMembers(gs: seq<Field>, g: Field)
    ensures FieldTitle(g) in FieldTitles(gs) <==> g in gs
  {
    if FieldTitle(g) in FieldTitles(gs) {
      var k :| 0 <= k < |gs| && FieldTitles(gs)[k] == FieldTitle(g);
      FieldTitleInjective(gs[k], g);
    }
    if g in gs {
      var k :| 0 <= k < |gs| && gs[k] == g;
      assert FieldTitles(gs)[k] == FieldTitle(g);
    }
  }

  /** An optional column is in a grouped table exactly when some row has a
      positive value in it. */
  lemma GroupedColumnsPresent(f: Formatter, keyTitles: seq<string>, keyCells: seq<seq<Item>>, ts: seq<Tally>)
    requires |keyCells| == |ts|
    ensures forall g :: g in OptionalFields ==>
      (FieldTitle(g) in GroupedView(f, keyTitles, keyCells, ts).headers[|keyTitles|..] <==> AnyPositive(ts, g))
  {
    var t := GroupedView(f, keyTitles, keyCells, ts);
    var gs := Columns(ts);
    assert t.headers[|keyTitles|..] == FieldTitles(gs);
    PresentMembers(OptionalFields, ts);
    forall g | g in OptionalFields
      ensures FieldTitle(g) in FieldTitles(gs) <==> AnyPositive(ts, g)
    {
      FieldTitlesMembers(gs, g);
      assert g in gs <==> g in Present(OptionalFields, ts);
    }
  }

  /** The cell of row j under a column's title is row j's cell of that
      column, formatted over all rows. */
  lemma GroupedColumnsAligned(f: Formatter, keyTitles: seq<string>, keyCells: seq<seq<Item>>, ts: seq<Tally>)
    requires |keyCells| == |ts|
    requires forall j :: 0 <= j < |ts| ==> |keyCells[j]| == |keyTitles|
    ensures var t := GroupedView(f, keyTitles, keyCells, ts);
      forall j, p, g :: 0 <= j < |ts| && |keyTitles| <= p < |t.headers| && t.headers[p] == FieldTitle(g) ==>
        t.rows[j][p] == Aligned(ColumnCells(Values(ts, g), InBytes(g))[j])
  {
    var t := GroupedView(f, keyTitles, keyCells, ts);
    var gs := Columns(ts);
    forall j, p, g | 0 <= j < |ts| && |keyTitles| <= p < |t.headers| && t.headers[p] == FieldTitle(g)
      ensures t.rows[j][p] == Aligned(ColumnCells(Values(ts, g), InBytes(g))[j])
    {
      var k := p - |keyTitles|;
      assert t.rows[j] == keyCells[j] + RowCells(ts, gs, j);
      assert t.headers[p] == FieldTitle(gs[k]);
      FieldTitleInjective(gs[k], g);
    }
  }

  // ---------------------------------------------------------------------
  // Key order

  /** a comes before b: the larger first when descending (years), the
      smaller first otherwise (UIDs). */
  predicate Before(a: int, b: int, descending: bool)
  {
    if descending then a > b else a < b
  }

  predicate InOrder(s: seq<int>, descending: bool)
  {
    forall i, j :: 0 <= i < j < |s| ==> Before(s[i], s[j], descending)
  }

  /** m is the key that comes first among keys. */
  predicate IsFirst(m: int, keys: set<int>, descending: bool)
  {
    m in keys && forall x :: x in keys && x != m ==> Before(m, x, descending)
  }

  lemma NoMemberEmpty(keys: set<int>)
    requires forall y :: y !in keys
    ensures keys == {}
  {
    assert forall y :: y in keys <==> y in {};
  }

  /** Some key of a non-empty set. */
  lemma SomeKey(keys: set<int>) returns (x: int)
    requires keys != {}
    ensures x in keys
  {
    if forall y :: y !in keys {
      NoMemberEmpty(keys);
    }
    x :| x in keys;
  }

  /** A non-empty set of keys has a first key. */
  lemma {:induction false} FirstExists(keys: set<int>, descending: bool)
    requires keys != {}
    ensures exists m :: IsFirst(m, keys, descending)
    decreases |keys|
  {
    var x := SomeKey(keys);
    var rest := keys - {x};
    assert forall y :: y in keys && y != x ==> y in rest;
    if rest == {} {
      assert IsFirst(x, keys, descending);
    } else {
      FirstExists(rest, descending);
      var m :| IsFirst(m, rest, descending);
      var first := if Before(x, m, descending) then x else m;
      forall y | y in keys && y != first
        ensures Before(first, y, descending)
      {
        if y != x && y != m {
          assert y in rest;
        }
      }
      assert IsFirst(first, keys, descending);
    }
  }

  /** The keys in table order, each once. */
  ghost function SortedKeys(keys: set<int>, descending: bool): seq<int>
    decreases |keys|
  {
    if keys == {} then []
    else
      FirstExists(keys, descending);
      var m :| IsFirst(m, keys, descending);
      [m] + SortedKeys(keys - {m}, descending)
  }

  /** The first key is the head of the sorted keys. */
  lemma SortedKeysHead(keys: set<int>, descending: bool, m: int)
    requires IsFirst(m, keys, descending)
    ensures SortedKeys(keys, descending) == [m] + SortedKeys(keys - {m}, descending)
  {
  }

  /** The sorted keys are in table order and are exactly the keys. */
  lemma {:induction false} SortedKeysMeaning(keys: set<int>, descending: bool)
    ensures InOrder(SortedKeys(keys, descending), descending)
    ensures forall x :: x in SortedKeys(keys, descending) <==> x in keys
    ensures |SortedKeys(keys, descending)| == |keys|
    decreases |keys|
  {
    if keys != {} {
      FirstExists(keys, descending);
      var m :| IsFirst(m, keys, descending);
      SortedKeysHead(keys, descending, m);
      SortedKeysMeaning(keys - {m}, descending);
      var s := SortedKeys(keys, descending);
      forall i, j | 0 <= i < j < |s|
        ensures Before(s[i], s[j], descending)
      {
        if i == 0 {
          assert s[j] in keys - {m};
        }
      }
    }
  }

  /** The sort of the keys (sort.Sort in the source), by repeatedly taking
      the first remaining key. */
  method SortKeys(keys: set<int>, descending: bool) returns (s: seq<int>)
    ensures s == SortedKeys(keys, descending)
  {
    s := [];
    var rest := keys;
    while rest != {}
      invariant s + SortedKeys(rest, descending) == SortedKeys(keys, descending)
      decreases |rest|
    {
      FirstExists(rest, descending);
      var m :| m in rest && IsFirst(m, rest, descending);
      SortedKeysHead(rest, descending, m);
      s := s + [m];
      rest := rest - {m};
    }
  }

  // ---------------------------------------------------------------------
  // perYearTable, perUIDTable and Format

  function YearTallies(byYear: map<int, YearStat>, years: seq<int>): seq<Tally>
    requires forall i :: 0 <= i < |years| ==> years[i] in byYear
  {
    seq(|years|, i requires 0 <= i < |years| => byYear[years[i]].tally)
  }

  function YearCells(years: seq<int>): seq<seq<Item>>
  {
    seq(|years|, i requires 0 <= i < |years| => [Count(years[i])])
  }

  /** The per-year table: a row per year, latest first. */
  ghost function PerYearView(f: Formatter, byYear: map<int, YearStat>): TableView
  {
    var years := SortedKeys(byYear.Keys, true);
    SortedKeysMeaning(byYear.Keys, true);
    GroupedView(f, ["Year"], YearCells(years), YearTallies(byYear, years))
  }

  /** perYearTable. */
  method PerYearTable(f: Formatter, byYear: map<int, YearStat>) returns (t: TableView)
    ensures t == PerYearView(f, byYear)
  {
    var years := SortKeys(byYear.Keys, true);
    SortedKeysMeaning(byYear.Keys, true);
    t := GroupedTable(f, ["Year"], YearCells(years), YearTallies(byYear, years));
  }

  /** The UIDs of the table, as integers. */
  function OwnerKeys(byUID: map<uint32, UIDStat>): (keys: set<int>)
    ensures forall x :: x in keys ==> 0 <= x < 0x1_0000_0000 && x as uint32 in byUID
    ensures forall u :: u in byUID ==> u as int in keys
  {
    set u | u in byUID.Keys :: u as int
  }

  /** The bucket of an owner given by its integer UID. */
  function Owner(byUID: map<uint32, UIDStat>, x: int): UIDStat
    requires x in OwnerKeys(byUID)
  {
    byUID[x as uint32]
  }

  function OwnerTallies(byUID: map<uint32, UIDStat>, uids: seq<int>): seq<Tally>
    requires forall i :: 0 <= i < |uids| ==> uids[i] in OwnerKeys(byUID)
  {
    seq(|uids|, i requires 0 <= i < |uids| => Owner(byUID, uids[i]).tally)
  }

  function OwnerCells(byUID: map<uint32, UIDStat>, uids: seq<int>): seq<seq<Item>>
    requires forall i :: 0 <= i < |uids| ==> uids[i] in OwnerKeys(byUID)
  {
    seq(|uids|, i requires 0 <= i < |uids| => [Count(uids[i]), Label(Owner(byUID, uids[i]).username)])
  }

  /** The per-UID table: a row per owner, lowest UID first. */
  ghost function PerUIDView(f: Formatter, byUID: map<uint32, UIDStat>): TableView
  {
    var uids := SortedKeys(OwnerKeys(byUID), false);
    SortedKeysMeaning(OwnerKeys(byUID), false);
    GroupedView(f, ["UID", "Username"], OwnerCells(byUID, uids), OwnerTallies(byUID, uids))
  }

  /** perUIDTable. */
  method PerUIDTable(f: Formatter, byUID: map<uint32, UIDStat>) returns (t: TableView)
    ensures t == PerUIDView(f, byUID)
  {
    var uids := SortKeys(OwnerKeys(byUID), false);
    SortedKeysMeaning(OwnerKeys(byUID), false);
    t := GroupedTable(f, ["UID", "Username"], OwnerCells(byUID, uids), OwnerTallies(byUID, uids));
  }

  /** The per-year table has a row per year, latest first, each as wide as
      the header. */
  lemma PerYearRows(f: Formatter, byYear: map<int, YearStat>)
    ensures var t := PerYearView(f, byYear);
      && t.headers[..3] == ["Year", "Size", "Inodes"]
      && |t.rows| == |byYear.Keys|
      && (forall i :: 0 <= i < |t.rows| ==>
            |t.rows[i]| == |t.headers| && t.rows[i][0].Count? && t.rows[i][0].n in byYear)
      && (forall i, j :: 0 <= i < j < |t.rows| && t.rows[i][0].Count? && t.rows[j][0].Count? ==>
            t.rows[i][0].n > t.rows[j][0].n)
      && (forall y :: y in byYear ==> exists i :: 0 <= i < |t.rows| && t.rows[i][0] == Count(y))
  {
    var years := SortedKeys(byYear.Keys, true);
    SortedKeysMeaning(byYear.Keys, true);
    var cells, ts := YearCells(years), YearTallies(byYear, years);
    GroupedViewShape(f, ["Year"], cells, ts);
    var t := PerYearView(f, byYear);
    assert t == GroupedView(f, ["Year"], cells, ts);
    forall i | 0 <= i < |t.rows|
      ensures t.rows[i][0] == Count(years[i])
    {
      assert t.rows[i][..1] == [Count(years[i])];
    }
    forall y | y in byYear
      ensures exists i :: 0 <= i < |t.rows| && t.rows[i][0] == Count(y)
    {
      var i :| 0 <= i < |years| && years[i] == y;
      assert t.rows[i][0] == Count(y);
    }
  }

  /** An optional column is in the per-year table exactly when some year
      has a positive value in it. */
  lemma PerYearColumns(f: Formatter, byYear: map<int, YearStat>)
    ensures forall g :: g in OptionalFields ==>
      (FieldTitle(g) in PerYearView(f, byYear).headers[1..] <==>
        exists y :: y in byYear && FieldValue(byYear[y].tally, g) > 0)
  {
    var years := SortedKeys(byYear.Keys, true);
    SortedKeysMeaning(byYear.Keys, true);
    var cells, ts := YearCells(years), YearTallies(byYear, years);
    GroupedColumnsPresent(f, ["Year"], cells, ts);
    forall g | g in OptionalFields
      ensures AnyPositive(ts, g) <==> exists y :: y in byYear && FieldValue(byYear[y].tally, g) > 0
    {
      if exists y :: y in byYear && FieldValue(byYear[y].tally, g) > 0 {
        var y :| y in byYear && FieldValue(byYear[y].tally, g) > 0;
        var i :| 0 <= i < |years| && years[i] == y;
        assert FieldValue(ts[i], g) > 0;
      }
      if AnyPositive(ts, g) {
        var i :| 0 <= i < |ts| && FieldValue(ts[i], g) > 0;
        assert years[i] in byYear && FieldValue(byYear[years[i]].tally, g) > 0;
      }
    }
  }

  /** The per-UID table has a row per owner, lowest UID first, with the
      owner's name beside it; each row is as wide as the header. */
  lemma PerUIDRows(f: Formatter, byUID: map<uint32, UIDStat>)
    ensures var t := PerUIDView(f, byUID);
      && t.headers[..4] == ["UID", "Username", "Size", "Inodes"]
      && |t.rows| == |byUID.Keys|
      && (forall i :: 0 <= i < |t.rows| ==>
            && |t.rows[i]| == |t.headers| && t.rows[i][0].Count?
            && 0 <= t.rows[i][0].n < 0x1_0000_0000 && t.rows[i][0].n as uint32 in byUID
            && t.rows[i][1] == Label(byUID[t.rows[i][0].n as uint32].username))
      && (forall i, j :: 0 <= i < j < |t.rows| && t.rows[i][0].Count? && t.rows[j][0].Count? ==>
            t.rows[i][0].n < t.rows[j][0].n)
      && (forall u :: u in byUID ==> exists i :: 0 <= i < |t.rows| && t.rows[i][0] == Count(u))
  {
    var keys := OwnerKeys(byUID);
    var uids := SortedKeys(keys, false);
    SortedKeysMeaning(keys, false);
    var cells, ts := OwnerCells(byUID, uids), OwnerTallies(byUID, uids);
    GroupedViewShape(f, ["UID", "Username"], cells, ts);
    var t := PerUIDView(f, byUID);
    assert t == GroupedView(f, ["UID", "Username"], cells, ts);
    forall i | 0 <= i < |t.rows|
      ensures t.rows[i][0] == Count(uids[i]) && t.rows[i][1] == Label(Owner(byUID, uids[i]).username)
    {
      assert t.rows[i][..2] == cells[i];
    }
    OwnerKeysCount(byUID);
    forall u | u in byUID
      ensures exists i :: 0 <= i < |t.rows| && t.rows[i][0] == Count(u)
    {
      var i :| 0 <= i < |uids| && uids[i] == u as int;
      assert t.rows[i][0] == Count(u);
    }
  }

  /** As many integer UIDs as owners. */
  lemma OwnerKeysCount(byUID: map<uint32, UIDStat>)
    ensures |OwnerKeys(byUID)| == |byUID.Keys|
  {
    var keys: set<int> := byUID.Keys;
    assert OwnerKeys(byUID) == keys;
  }

  /** An optional column is in the per-UID table exactly when some owner
      has a positive value in it. */
  lemma PerUIDColumns(f: Formatter, byUID: map<uint32, UIDStat>)
    ensures forall g :: g in OptionalFields ==>
      (FieldTitle(g) in PerUIDView(f, byUID).headers[2..] <==>
        exists u :: u in byUID && FieldValue(byUID[u].tally, g) > 0)
  {
    var keys := OwnerKeys(byUID);
    var uids := SortedKeys(keys, false);
    SortedKeysMeaning(keys, false);
    var cells, ts := OwnerCells(byUID, uids), OwnerTallies(byUID, uids);
    GroupedColumnsPresent(f, ["UID", "Username"], cells, ts);
    forall g | g in OptionalFields
      ensures AnyPositive(ts, g) <==> exists u :: u in byUID && FieldValue(byUID[u].tally, g) > 0
    {
      if exists u :: u in byUID && FieldValue(byUID[u].tally, g) > 0 {
        var u :| u in byUID && FieldValue(byUID[u].tally, g) > 0;
        var i :| 0 <= i < |uids| && uids[i] == u as int;
        assert FieldValue(ts[i], g) > 0;
      }
      if AnyPositive(ts, g) {
        var i :| 0 <= i < |ts| && FieldValue(ts[i], g) > 0;
        var u := uids[i] as uint32;
        assert u in byUID && FieldValue(byUID[u].tally, g) > 0;
      }
    }
  }

  /** The output modes; any mode other than per-year and per-uid is the
      summary. */
  datatype Mode = Summary | PerYear | PerUID

  function ModeOf(mode: string): (m: Mode)
    ensures m == PerYear <==> mode == "per-year"
    ensures m == PerUID <==> mode == "per-uid"
  {
    if mode == "per-year" then PerYear else if mode == "per-uid" then PerUID else Summary
  }

  /** What Format produces: a table, or a JSON or CSV text whose encoding is
      not modelled. */
  datatype Rendered = Table(view: TableView) | Encoded(format: string, mode: Mode)

  /** The formats rendered by encoding/json and encoding/csv rather than as a
      table; every other format, "xlsx" included, gets the table. */
  predicate Encodes(format: string)
  {
    format == "json" || format == "csv"
  }

  /** The table a mode shows. */
  ghost function ModeView(f: Formatter, sum: Tally, byYear: map<int, YearStat>, byUID: map<uint32, UIDStat>): TableView
  {
    match ModeOf(f.mode)
    case Summary => SummaryView(f, sum)
    case PerYear => PerYearView(f, byYear)
    case PerUID => PerUIDView(f, byUID)
  }

  /** Format: the mode picks formatPerYear, formatPerUID or formatSummary;
      each encodes JSON or CSV and otherwise builds its table. */
  method Format(f: Formatter, sum: Tally, byYear: map<int, YearStat>, byUID: map<uint32, UIDStat>)
    returns (r: Rendered)
    ensures Encodes(f.format) ==> r == Encoded(f.format, ModeOf(f.mode))
    ensures !Encodes(f.format) ==> r == Table(ModeView(f, sum, byYear, byUID))
  {
    var mode := ModeOf(f.mode);
    if Encodes(f.format) {
      return Encoded(f.format, mode);
    }
    var t: TableView;
    match mode {
      case PerYear =>
        t := PerYearTable(f, byYear);
      case PerUID =>
        t := PerUIDTable(f, byUID);
      case Summary =>
        t := SummaryTable(f, sum);
    }
    r := Table(t);
  }
}
