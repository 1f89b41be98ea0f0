/**
 * The two CSV-to-JSON scripts: fire counts by cause and by burnt-area class,
 * per NUTS region and per year from 2024 down to 2010. Both read a row as a
 * region cell followed by fixed-width year blocks (a total, then one value per
 * label), skip blocks with nothing in them, and file each block under its year
 * and the cleaned region name, a later row overwriting an earlier one.
 *
 * The cells are given as pandas hands them over: missing (`NaN`) or text.
 */
module FireTables {
  import opened Basics
  import opened IntText
  import opened Dicts
  import opened JsonData

  datatype Cell = NaN | Text(s: string)

  /** `str(v)`: a missing cell prints as "nan". */
  function CellText(c: Cell): string {
    match c
    case NaN => "nan"
    case Text(s) => s
  }

  // ---------------------------------------------------------------------
  // Region names
  // ---------------------------------------------------------------------

  /** `[0-9A-Z]`. */
  predicate IsCodeChar(c: char) {
    '0' <= c <= '9' || 'A' <= c <= 'Z'
  }

  /** The length of the run of code characters the name starts with. */
  function CodeLength(s: string): (n: nat)
    ensures n <= |s|
  {
    if |s| > 0 && IsCodeChar(s[0]) then 1 + CodeLength(s[1..]) else 0
  }

  /** The run is made of code characters and stops at the end or at a non-code character. */
  lemma {:induction false} CodeLengthIsRun(s: string)
    ensures forall i :: 0 <= i < CodeLength(s) ==> IsCodeChar(s[i])
    ensures CodeLength(s) == |s| || !IsCodeChar(s[CodeLength(s)])
  {
    if |s| > 0 && IsCodeChar(s[0]) {
      CodeLengthIsRun(s[1..]);
      assert forall i :: 1 <= i < |s| ==> s[1..][i - 1] == s[i];
    }
  }

  /** `re.match(r"^[0-9A-Z]+:", s)`: a NUTS code and a colon open the cell. */
  predicate HasCode(s: string) {
    var n := CodeLength(s);
    0 < n < |s| && s[n] == ':'
  }

  /** A text `^[0-9A-Z]+: ?` matches in full. */
  ghost predicate IsCodePrefix(p: string) {
    && |p| >= 2
    && (var n := if p[|p| - 1] == ' ' then |p| - 2 else |p| - 1;
        && n > 0
        && p[n] == ':'
        && forall i :: 0 <= i < n ==> IsCodeChar(p[i]))
  }

  /**
   * `re.sub(r"^[0-9A-Z]+: ?", "", s)`: the code, its colon and one space after
   * it (when there is one) are removed; a cell without a code is unchanged.
   */
  function StripCode(s: string): (r: string)
    ensures !HasCode(s) ==> r == s
    ensures |r| <= |s|
  {
    if HasCode(s) then
      var n := CodeLength(s) + 1;
      if n < |s| && s[n] == ' ' then s[n + 1..] else s[n..]
    else s
  }

  /**
   * With a code, what is removed is exactly a `^[0-9A-Z]+: ?` prefix, and
   * what remains does not start with a space unless a space followed the colon.
   */
  lemma StripCodeRemovesCode(s: string)
    requires HasCode(s)
    ensures var r := StripCode(s);
      |r| < |s| && r == s[|s| - |r|..] && IsCodePrefix(s[..|s| - |r|])
    ensures var r := StripCode(s);
      s[|s| - |r| - 1] == ':' ==> |r| == 0 || r[0] != ' '
  {
    CodeLengthIsRun(s);
  }

  /** Stripping recovers the name from any code, colon and optional space put before it. */
  lemma StripCodeOfPrefixed(code: string, space: bool, name: string)
    requires |code| > 0 && forall i :: 0 <= i < |code| ==> IsCodeChar(code[i])
    requires !space ==> |name| == 0 || name[0] != ' '
    ensures StripCode(code + (if space then ": " else ":") + name) == name
  {
    var s := code + (if space then ": " else ":") + name;
    CodeLengthOfCode(code, s[|code|..]);
    assert s == code + s[|code|..];
  }

  lemma {:induction false} CodeLengthOfCode(code: string, rest: string)
    requires forall i :: 0 <= i < |code| ==> IsCodeChar(code[i])
    requires |rest| > 0 && rest[0] == ':'
    ensures CodeLength(code + rest) == |code|
  {
    if |code| > 0 {
      assert (code + rest)[1..] == code[1..] + rest;
      CodeLengthOfCode(code[1..], rest);
    }
  }

  /**
   * `str.replace(...)` then `str.strip()` on `astype(str)` of the first cell:
   * never longer than the cell's text, no whitespace at either end, and a
   * missing cell reads as "nan".
   */
  function CleanName(c: Cell): (name: string)
    ensures |name| <= |CellText(c)|
    ensures |name| == 0 || (!IsSpace(name[0]) && !IsSpace(name[|name| - 1]))
    ensures c.NaN? ==> name == "nan"
  {
    if c.NaN? then
      TrimNoop("nan");
      "nan"
    else
      Trim(StripCode(CellText(c)))
  }

  /** `s.lower() == "nan"`. */
  predicate IsNanName(s: string) {
    |s| == 3 && s[0] in "nN" && s[1] in "aA" && s[2] in "nN"
  }

  /** `sub` occurs in `s` at position `i`. */
  predicate OccursAt(s: string, sub: string, i: nat) {
    i + |sub| <= |s| && s[i..i + |sub|] == sub
  }

  /** `sub in s`. */
  predicate ContainsText(s: string, sub: string) {
    exists i: nat :: i <= |s| && OccursAt(s, sub, i)
  }

  const HeaderMarker: string := "Localização"

  /** A cleaned name that survives the drops: not "nan" in any case, not a header row. */
  predicate KeptName(name: string) {
    !IsNanName(name) && !ContainsText(name, HeaderMarker)
  }

  // ---------------------------------------------------------------------
  // The two tables
  // ---------------------------------------------------------------------

  const CauseLabels: seq<string> :=
    ["Negligência", "Intencional", "Naturais", "Reacendimentos", "Indeterminadas", "Não investigados"]

  const DimensionLabels: seq<string> :=
    ["< 1 ha", "1 - < 10 ha", "10 - < 20 ha", "20 - < 50 ha", "50 - < 100 ha",
     "100 - < 500 ha", "500 - < 1 000 ha", ">= 1 000 ha"]

  /** Which script: the causes table or the burnt-area (dimensions) table. */
  datatype Kind = Causes | Dimensions {
    function Labels(): seq<string> {
      if Causes? then CauseLabels else DimensionLabels
    }

    /** The name of each entry's label field. */
    function ItemKey(): string {
      if Causes? then "Causa" else "Dimensões"
    }

    /** The name of the record's list field. */
    function ListKey(): string {
      if Causes? then "Causas" else "Dimensões"
    }

    /** A year block: the total and one value per label. */
    function Width(): nat {
      |Labels()| + 1
    }
  }

  lemma BlockWidths()
    ensures Causes.Width() == 7 && Dimensions.Width() == 9
  {
  }

  /**
   * Whether a row is read at all. The causes script first keeps only cells
   * that open with a NUTS code (a missing cell does not); both scripts then
   * drop the "nan" and header names.
   */
  predicate RowKept(kind: Kind, first: Cell): (b: bool)
    ensures first.NaN? ==> !b
  {
    && (kind.Causes? ==> first.Text? && HasCode(first.s))
    && KeptName(CleanName(first))
  }

  /** A missing cell is kept by the dimensions script only to be dropped as "nan". */
  lemma MissingRegionCellDropped(kind: Kind)
    ensures !RowKept(kind, NaN)
  {
  }

  /** Only the causes script insists on the code: an uncoded name is a dimensions row. */
  lemma UncodedNameOnlyInDimensions(s: string)
    requires !HasCode(s) && KeptName(Trim(s))
    ensures !RowKept(Causes, Text(s)) && RowKept(Dimensions, Text(s))
  {
  }

  const YearCount: nat := 15

  /** `range(2024, 2009, -1)`: year `i` is 2024 - i, filed under its decimal text. */
  function YearKey(i: nat): string {
    IntToString(2024 - i)
  }

  lemma YearKeysDistinct(i: nat, j: nat)
    requires YearKey(i) == YearKey(j)
    ensures i == j
  {
    PrintInjective(2024 - i, 2024 - j);
  }

  function Min(a: nat, b: nat): nat {
    if a <= b then a else b
  }

  /** `values[offset:offset + width]` with `offset = i * width`: Python slices clip at the end. */
  function Block(values: seq<Cell>, kind: Kind, i: nat): (b: seq<Cell>)
    ensures i * kind.Width() + kind.Width() <= |values| ==> |b| == kind.Width()
    ensures i * kind.Width() >= |values| ==> b == []
    ensures forall j :: 0 <= j < |b| ==> i * kind.Width() + j < |values| && b[j] == values[i * kind.Width() + j]
  {
    var w := kind.Width();
    values[Min(i * w, |values|)..Min(i * w + w, |values|)]
  }

  /** `pd.isna(v) or str(v).strip() in ["x x", "NaN"]`: a missing cell is blank, a number never is. */
  predicate Blank(c: Cell): (b: bool)
    ensures c.NaN? ==> b
    ensures c.Text? && IsIntegerText(Trim(c.s)) ==> !b
  {
    assert !IsIntegerText("x x") by { assert !IsDigit("x x"[0]); }
    assert !IsIntegerText("NaN") by { assert !IsDigit("NaN"[0]); }
    c.NaN? || Trim(c.s) == "x x" || Trim(c.s) == "NaN"
  }

  /** `not all(blank)`: the block has a value, so an empty block is never recorded. */
  predicate Recorded(block: seq<Cell>) {
    exists j :: 0 <= j < |block| && !Blank(block[j])
  }

  /** `str(v).replace("&", "")`. */
  function RemoveAmpersands(s: string): (r: string)
    ensures forall j :: 0 <= j < |r| ==> r[j] != '&'
    ensures |r| <= |s|
  {
    if |s| == 0 then ""
    else
      var rest := RemoveAmpersands(s[1..]);
      assert s == [s[0]] + s[1..];
      if s[0] == '&' then rest else [s[0]] + rest
  }

  lemma {:induction false} RemoveAmpersandsAppend(a: string, b: string)
    ensures RemoveAmpersands(a + b) == RemoveAmpersands(a) + RemoveAmpersands(b)
  {
    if |a| == 0 {
      assert a + b == b;
    } else {
      assert (a + b)[0] == a[0];
      assert (a + b)[1..] == a[1..] + b;
      RemoveAmpersandsAppend(a[1..], b);
    }
  }

  /**
   * `int(str(v).replace("&", "").strip())`, `None` when it raises: the number
   * prints back as the cell's text without `&`, stripped and made canonical.
   */
  function ParseCell(c: Cell): (n: Option<int>)
    ensures c.NaN? ==> n == None
    ensures n.Some? <==> IsIntegerText(Trim(RemoveAmpersands(CellText(c))))
    ensures n.Some? ==> IntToString(n.value) == Canonical(Trim(RemoveAmpersands(CellText(c))))
  {
    NanIsNotANumber();
    ParseIntCanonical(RemoveAmpersands(CellText(c)));
    ParseInt(RemoveAmpersands(CellText(c)))
  }

  /** The text of a missing cell, "nan", does not parse as an integer. */
  lemma NanIsNotANumber()
    ensures ParseInt(RemoveAmpersands("nan")) == None
  {
    assert RemoveAmpersands("nan") == "nan";
    TrimNoop("nan");
  }

  /** A flag `&` anywhere in a cell does not change the number read from it. */
  lemma AmpersandIgnored(a: string, b: string)
    ensures ParseCell(Text(a + "&" + b)) == ParseCell(Text(a + b))
  {
    RemoveAmpersandsAppend(a + "&", b);
    RemoveAmpersandsAppend(a, "&");
    RemoveAmpersandsAppend(a, b);
    var x := RemoveAmpersands(a + "&" + b);
    assert RemoveAmpersands("&") == "";
    assert x == RemoveAmpersands(a + b);
    assert ParseCell(Text(a + "&" + b)) == ParseInt(x);
  }

  /** One `{"Causa": label, "Numero": n}` (or `"Dimensões"`) entry. */
  datatype Entry = Entry(name: string, numero: Option<int>)

  /** One region's year: `{"Total": t, "Causas": [...]}` (or `"Dimensões"`). */
  datatype FireRecord = FireRecord(total: Option<int>, items: seq<Entry>)

  /**
   * `{"Total": total_val, "Causas": causas_list}` built from one block: at most
   * one entry per label, named by the labels in order, one for every label
   * when the block is full, and nothing at all from an empty block.
   */
  function ReadBlock(block: seq<Cell>, labels: seq<string>): (rec: FireRecord)
    ensures |rec.items| <= |labels|
    ensures forall j :: 0 <= j < |rec.items| ==> rec.items[j].name == labels[j]
    ensures |block| == |labels| + 1 ==> |rec.items| == |labels|
    ensures |block| == 0 ==> rec == FireRecord(None, [])
  {
    var rest := if |block| > 0 then block[1..] else [];
    var n := Min(|labels|, |rest|);
    FireRecord(if |block| > 0 then ParseCell(block[0]) else None,
               seq(n, j requires 0 <= j < n => Entry(labels[j], ParseCell(rest[j]))))
  }

  /**
   * A block read as a record: the total from its first cell (`None` when
   * there is none) and the remaining cells zipped with the labels, so the
   * list has one entry per label for a full block and fewer for a clipped one.
   */
  lemma ReadBlockShape(block: seq<Cell>, labels: seq<string>)
    ensures var rec := ReadBlock(block, labels);
      && rec.total == (if |block| > 0 then ParseCell(block[0]) else None)
      && |rec.items| <= |labels|
      && (|block| == |labels| + 1 ==> |rec.items| == |labels|)
      && (|block| > 0 ==> |rec.items| == Min(|labels|, |block| - 1))
      && forall j :: 0 <= j < |rec.items| ==> j + 1 < |block| && rec.items[j] == Entry(labels[j], ParseCell(block[j + 1]))
  {
  }

  /** The cells a record of printed integers occupies in the CSV. */
  function PrintedBlock(total: int, numbers: seq<int>): (b: seq<Cell>)
    ensures |b| == |numbers| + 1
  {
    [Text(IntToString(total))] + seq(|numbers|, j requires 0 <= j < |numbers| => Text(IntToString(numbers[j])))
  }

  /** Reading a block of printed integers gives back the total and every number, labelled in order. */
  lemma ReadPrintedBlock(total: int, numbers: seq<int>, labels: seq<string>)
    requires |numbers| == |labels|
    ensures ReadBlock(PrintedBlock(total, numbers), labels) ==
      FireRecord(Some(total), seq(|labels|, j requires 0 <= j < |labels| => Entry(labels[j], Some(numbers[j]))))
  {
    var b := PrintedBlock(total, numbers);
    ReadBlockShape(b, labels);
    var rec := ReadBlock(b, labels);
    PrintedCell(total);
    forall j | 0 <= j < |labels|
      ensures rec.items[j] == Entry(labels[j], Some(numbers[j]))
    {
      assert b[j + 1] == Text(IntToString(numbers[j]));
      PrintedCell(numbers[j]);
    }
  }

  /** A cell holding a printed integer reads back as that integer. */
  lemma PrintedCell(n: int)
    ensures ParseCell(Text(IntToString(n))) == Some(n)
  {
    NoAmpersandInPrint(n);
    ParsePrinted(n);
  }

  lemma NoAmpersandInPrint(n: int)
    ensures RemoveAmpersands(IntToString(n)) == IntToString(n)
  {
    var s := IntToString(n);
    NoAmpersandUnchanged(s);
  }

  lemma {:induction false} NoAmpersandUnchanged(s: string)
    requires forall j :: 0 <= j < |s| ==> s[j] == '-' || IsDigit(s[j])
    ensures RemoveAmpersands(s) == s
  {
    if |s| > 0 {
      NoAmpersandUnchanged(s[1..]);
    }
  }

  /** A block of printed integers is never skipped. */
  lemma PrintedBlockRecorded(total: int, numbers: seq<int>)
    ensures Recorded(PrintedBlock(total, numbers))
  {
    var s := IntToString(total);
    var b := PrintedBlock(total, numbers);
    assert b[0] == Text(s);
    TrimNoop(s);
    assert !Blank(b[0]);
  }

  // ---------------------------------------------------------------------
  // Filing the records
  // ---------------------------------------------------------------------

  /** One CSV row: the region cell and the cells after it. */
  datatype Row = Row(first: Cell, values: seq<Cell>)

  /** `result`: year text to region name to record. */
  type Table = Dict<Dict<FireRecord>>

  /** Year `i`'s block of a row, read as a record when it is recorded. */
  function FiledBlock(values: seq<Cell>, kind: Kind, i: nat): Option<FireRecord> {
    var block := Block(values, kind, i);
    if Recorded(block) then Some(ReadBlock(block, kind.Labels())) else None
  }

  /**
   * What one row contributes to the table: its cleaned name and, for each of
   * the fifteen years, the record it files (none for a dropped row).
   */
  datatype Reading = Reading(name: string, filed: seq<Option<FireRecord>>)

  /** The reading files year `i` of `name`. */
  predicate Writes(reading: Reading, i: nat, name: string)
    requires i < |reading.filed|
  {
    reading.name == name && reading.filed[i].Some?
  }

  /** A row's reading: a dropped row files nothing, a kept one files exactly its recorded years. */
  function ReadRow(row: Row, kind: Kind): (reading: Reading)
    ensures |reading.filed| == YearCount
    ensures forall i :: 0 <= i < YearCount ==>
      (reading.filed[i].Some? <==> RowKept(kind, row.first) && Recorded(Block(row.values, kind, i)))
  {
    var kept := RowKept(kind, row.first);
    Reading(CleanName(row.first),
            seq(YearCount, i requires 0 <= i < YearCount => if kept then FiledBlock(row.values, kind, i) else None))
  }

  /** Row `row` supplies a record for year `i` under `name`. */
  predicate Feeds(row: Row, kind: Kind, i: nat, name: string) {
    RowKept(kind, row.first) && CleanName(row.first) == name && Recorded(Block(row.values, kind, i))
  }

  /** A reading writes year `i` of `name` exactly when its row feeds it, and writes the block read. */
  lemma ReadRowFiles(row: Row, kind: Kind, i: nat, name: string)
    requires i < YearCount
    ensures Writes(ReadRow(row, kind), i, name) <==> Feeds(row, kind, i, name)
    ensures Feeds(row, kind, i, name) ==>
      ReadRow(row, kind).filed[i] == Some(ReadBlock(Block(row.values, kind, i), kind.Labels()))
  {
  }

  /** The inner loop over the years `0 .. n - 1` of one reading. */
  function FileYears(t: Table, reading: Reading, n: nat): Table
    requires n <= |reading.filed|
  {
    if n == 0 then t
    else
      var t' := FileYears(t, reading, n - 1);
      match reading.filed[n - 1]
      case None => t'
      case Some(rec) => Put(t', YearKey(n - 1), reading.name, rec)
  }

  /** The outer loop over the readings, from an empty `result`. */
  function FileRows(readings: seq<Reading>): Table
    requires forall k :: 0 <= k < |readings| ==> |readings[k].filed| == YearCount
  {
    if |readings| == 0 then []
    else
      var n := |readings| - 1;
      FileYears(FileRows(readings[..n]), readings[n], YearCount)
  }

  /**
   * The `for _, row in df.iterrows()` loop: every row read, then filed in
   * order. The table's only keys are the texts of the fifteen years.
   */
  function BuildTable(rows: seq<Row>, kind: Kind): (t: Table)
    ensures forall y :: y in Keys(t) ==> exists i :: 0 <= i < YearCount && y == YearKey(i)
  {
    var readings := seq(|rows|, k requires 0 <= k < |rows| => ReadRow(rows[k], kind));
    OnlyListedYears(readings);
    FileRows(readings)
  }

  /** Filing one block under `YearKey(m)` changes that entry only. */
  lemma PutYearLookup(t: Table, m: nat, name: string, rec: FireRecord, i: nat, r: string)
    ensures Lookup(Put(t, YearKey(m), name, rec), YearKey(i), r) ==
      if r == name && i == m then Some(rec) else Lookup(t, YearKey(i), r)
  {
    PutThenLookup(t, YearKey(m), name, rec, YearKey(i), r);
    if YearKey(i) == YearKey(m) {
      YearKeysDistinct(i, m);
    }
  }

  /** Filing year `n - 1` of a reading overwrites that year's entry of the reading's name only. */
  lemma FileYearsStep(t: Table, reading: Reading, n: nat, i: nat, r: string)
    requires 0 < n <= |reading.filed|
    ensures Lookup(FileYears(t, reading, n), YearKey(i), r) ==
      if r == reading.name && i == n - 1 && reading.filed[i].Some? then reading.filed[i]
      else Lookup(FileYears(t, reading, n - 1), YearKey(i), r)
  {
    var before := FileYears(t, reading, n - 1);
    match reading.filed[n - 1]
    case None =>
      assert FileYears(t, reading, n) == before;
    case Some(rec) =>
      assert FileYears(t, reading, n) == Put(before, YearKey(n - 1), reading.name, rec);
      PutYearLookup(before, n - 1, reading.name, rec, i, r);
  }

  /** The years of one reading overwrite exactly the entries it files. */
  lemma {:induction false} FileYearsLookup(t: Table, reading: Reading, n: nat, i: nat, r: string)
    requires n <= |reading.filed|
    ensures Lookup(FileYears(t, reading, n), YearKey(i), r) ==
      if r == reading.name && i < n && reading.filed[i].Some? then reading.filed[i] else Lookup(t, YearKey(i), r)
  {
    if n > 0 {
      FileYearsLookup(t, reading, n - 1, i, r);
      FileYearsStep(t, reading, n, i, r);
    }
  }

  /** Reading `k` writes the entry and no later reading does. */
  ghost predicate IsLastWrite(readings: seq<Reading>, i: nat, name: string, k: nat)
    requires k < |readings| && forall k :: 0 <= k < |readings| ==> |readings[k].filed| == YearCount
    requires i < YearCount
  {
    Writes(readings[k], i, name) && forall k' :: k < k' < |readings| ==> !Writes(readings[k'], i, name)
  }

  /** Filing one more reading overwrites exactly the entries it writes. */
  lemma FileRowsStep(readings: seq<Reading>, i: nat, name: string)
    requires |readings| > 0 && forall k :: 0 <= k < |readings| ==> |readings[k].filed| == YearCount
    requires i < YearCount
    ensures var n := |readings| - 1;
      Lookup(FileRows(readings), YearKey(i), name) ==
      if Writes(readings[n], i, name) then readings[n].filed[i] else Lookup(FileRows(readings[..n]), YearKey(i), name)
  {
    var n := |readings| - 1;
    FileYearsLookup(FileRows(readings[..n]), readings[n], YearCount, i, name);
  }

  /** The record the last reading writing year `i` of `name` wrote, if any reading writes it. */
  function LastWritten(readings: seq<Reading>, i: nat, name: string): Option<FireRecord>
    requires forall k :: 0 <= k < |readings| ==> |readings[k].filed| == YearCount
    requires i < YearCount
  {
    if |readings| == 0 then None
    else
      var n := |readings| - 1;
      if Writes(readings[n], i, name) then readings[n].filed[i] else LastWritten(readings[..n], i, name)
  }

  /** The table entry for year `i` and a region is the record of the last reading writing it. */
  lemma {:induction false} FileRowsLookup(readings: seq<Reading>, i: nat, name: string)
    requires forall k :: 0 <= k < |readings| ==> |readings[k].filed| == YearCount
    requires i < YearCount
    ensures Lookup(FileRows(readings), YearKey(i), name) == LastWritten(readings, i, name)
  {
    if |readings| > 0 {
      var n := |readings| - 1;
      FileRowsLookup(readings[..n], i, name);
      FileRowsStep(readings, i, name);
    }
  }

  /** Something was written exactly when some reading writes the entry. */
  lemma {:induction false} LastWrittenIffWritten(readings: seq<Reading>, i: nat, name: string)
    requires forall k :: 0 <= k < |readings| ==> |readings[k].filed| == YearCount
    requires i < YearCount
    ensures LastWritten(readings, i, name).Some? <==> exists k :: 0 <= k < |readings| && Writes(readings[k], i, name)
  {
    if |readings| > 0 {
      var n := |readings| - 1;
      var prefix := readings[..n];
      LastWrittenIffWritten(prefix, i, name);
      if !Writes(readings[n], i, name) && exists k :: 0 <= k < |readings| && Writes(readings[k], i, name) {
        var k :| 0 <= k < |readings| && Writes(readings[k], i, name);
        assert Writes(prefix[k], i, name);
      }
      if exists k :: 0 <= k < n && Writes(prefix[k], i, name) {
        var k :| 0 <= k < n && Writes(prefix[k], i, name);
        assert Writes(readings[k], i, name);
      }
    }
  }

  /** What was written is the record of the last reading writing the entry. */
  lemma {:induction false} LastWrittenIsLastWrite(readings: seq<Reading>, i: nat, name: string, k: nat)
    requires forall k :: 0 <= k < |readings| ==> |readings[k].filed| == YearCount
    requires i < YearCount && k < |readings| && IsLastWrite(readings, i, name, k)
    ensures LastWritten(readings, i, name) == readings[k].filed[i]
  {
    var n := |readings| - 1;
    if k < n {
      var prefix := readings[..n];
      assert !Writes(readings[n], i, name);
      assert IsLastWrite(prefix, i, name, k) by {
        forall k' | k < k' < n
          ensures !Writes(prefix[k'], i, name)
        {
          assert prefix[k'] == readings[k'];
        }
      }
      LastWrittenIsLastWrite(prefix, i, name, k);
    }
  }

  /** The table has an entry for year `i` and a region exactly when some row feeds it. */
  lemma EntryIffFed(rows: seq<Row>, kind: Kind, i: nat, name: string)
    requires i < YearCount
    ensures Lookup(BuildTable(rows, kind), YearKey(i), name).Some? <==>
      exists k :: 0 <= k < |rows| && Feeds(rows[k], kind, i, name)
  {
    var readings := seq(|rows|, k requires 0 <= k < |rows| => ReadRow(rows[k], kind));
    FileRowsLookup(readings, i, name);
    LastWrittenIffWritten(readings, i, name);
    if exists k :: 0 <= k < |rows| && Feeds(rows[k], kind, i, name) {
      var k :| 0 <= k < |rows| && Feeds(rows[k], kind, i, name);
      ReadRowFiles(rows[k], kind, i, name);
      assert Writes(readings[k], i, name);
    }
    if exists k :: 0 <= k < |readings| && Writes(readings[k], i, name) {
      var k :| 0 <= k < |readings| && Writes(readings[k], i, name);
      ReadRowFiles(rows[k], kind, i, name);
    }
  }

  /** Row `k` feeds the entry and no later row does. */
  ghost predicate IsLastFeed(rows: seq<Row>, kind: Kind, i: nat, name: string, k: nat)
    requires k < |rows|
  {
    Feeds(rows[k], kind, i, name) && forall k' :: k < k' < |rows| ==> !Feeds(rows[k'], kind, i, name)
  }

  /** The last row feeding an entry gives the last reading writing it. */
  lemma LastFeedIsLastWrite(rows: seq<Row>, kind: Kind, i: nat, name: string, k: nat)
    requires i < YearCount && k < |rows| && IsLastFeed(rows, kind, i, name, k)
    ensures var readings := seq(|rows|, k requires 0 <= k < |rows| => ReadRow(rows[k], kind));
      IsLastWrite(readings, i, name, k)
  {
    var readings := seq(|rows|, k requires 0 <= k < |rows| => ReadRow(rows[k], kind));
    forall k' | k < k' < |rows|
      ensures !Writes(readings[k'], i, name)
    {
      ReadRowFiles(rows[k'], kind, i, name);
    }
    ReadRowFiles(rows[k], kind, i, name);
  }

  /** An entry fed by several rows holds the record read from the LAST of them. */
  lemma LaterRowsOverwrite(rows: seq<Row>, kind: Kind, i: nat, name: string, k: nat)
    requires i < YearCount && k < |rows| && IsLastFeed(rows, kind, i, name, k)
    ensures Lookup(BuildTable(rows, kind), YearKey(i), name) == Some(ReadBlock(Block(rows[k].values, kind, i), kind.Labels()))
  {
    var readings := seq(|rows|, k requires 0 <= k < |rows| => ReadRow(rows[k], kind));
    FileRowsLookup(readings, i, name);
    LastFeedIsLastWrite(rows, kind, i, name, k);
    LastWrittenIsLastWrite(readings, i, name, k);
    ReadRowFiles(rows[k], kind, i, name);
  }

  /** Every year in the table is one of 2024 … 2010. */
  lemma {:induction false} OnlyListedYears(readings: seq<Reading>)
    requires forall k :: 0 <= k < |readings| ==> |readings[k].filed| == YearCount
    ensures forall y :: y in Keys(FileRows(readings)) ==> exists i :: 0 <= i < YearCount && y == YearKey(i)
  {
    if |readings| > 0 {
      var n := |readings| - 1;
      assert forall k :: 0 <= k < n ==> readings[..n][k] == readings[k];
      OnlyListedYears(readings[..n]);
      FileYearsKeys(FileRows(readings[..n]), readings[n], YearCount);
    }
  }

  lemma {:induction false} FileYearsKeys(t: Table, reading: Reading, n: nat)
    requires n <= |reading.filed|
    ensures forall y :: y in Keys(FileYears(t, reading, n)) ==>
      y in Keys(t) || exists i :: 0 <= i < n && y == YearKey(i)
  {
    if n > 0 {
      FileYearsKeys(t, reading, n - 1);
      match reading.filed[n - 1]
      case None =>
      case Some(rec) =>
        PutKeys(FileYears(t, reading, n - 1), YearKey(n - 1), reading.name, rec);
    }
  }

  /** The table built from any rows files only the years 2024 … 2010. */
  // ---------------------------------------------------------------------
  // The JSON written
  // ---------------------------------------------------------------------

  function IntJson(n: Option<int>): Json {
    match n
    case None => JNull
    case Some(v) => JNum(v as real)
  }

  /** A record's JSON object: `Total`, then the labelled list. */
  function RecordJson(kind: Kind, rec: FireRecord): (fields: Dict<Json>)
    ensures Keys(fields) == ["Total", kind.ListKey()]
  {
    [("Total", IntJson(rec.total)),
     (kind.ListKey(), JArr(seq(|rec.items|, j requires 0 <= j < |rec.items| =>
        JObj([(kind.ItemKey(), JStr(rec.items[j].name)), ("Numero", IntJson(rec.items[j].numero))]))))]
  }

  /** The file `json.dump` writes: every record converted, keys in filing order. */
  function TableJson(kind: Kind, t: Table): Dict<Dict<Dict<Json>>> {
    MapValues(t, (regions: Dict<FireRecord>) => MapValues(regions, (rec: FireRecord) => RecordJson(kind, rec)))
  }

  /** The file holds, for each year and region, the JSON of exactly the record filed there. */
  lemma TableJsonLookup(kind: Kind, t: Table, y: string, r: string)
    ensures Lookup(TableJson(kind, t), y, r) ==
      match Lookup(t, y, r) case None => None case Some(rec) => Some(RecordJson(kind, rec))
  {
    var f := (regions: Dict<FireRecord>) => MapValues(regions, (rec: FireRecord) => RecordJson(kind, rec));
    GetMapValues(t, f, y);
    match Get(t, y)
    case None =>
    case Some(regions) =>
      GetMapValues(regions, (rec: FireRecord) => RecordJson(kind, rec), r);
  }
}
