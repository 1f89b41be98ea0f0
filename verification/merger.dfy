/**
 * The merge step of the preprocessing: the four per-year JSON files (fire
 * causes, burnt-area classes, percentages and sapper teams) are joined into
 * one file keyed by year, then region. Years are listed newest first and
 * regions alphabetically; a region's object holds the fields its inputs
 * supply and no others.
 */
module Merger {
  import opened Basics
  import opened IntText
  import opened Ordering
  import opened Dicts
  import opened JsonData

  /** One input file: year text, then region name, then the region's value. */
  type YearTable<V> = Dict<Dict<V>>

  /**
   * The four inputs as `json.load` returns them. The causes and dimensions
   * files hold an object per region; the percentages and sappers files hold
   * any JSON value per region, which is copied as it is.
   */
  datatype Inputs = Inputs(
    causas: YearTable<Dict<Json>>,
    dimensoes: YearTable<Dict<Json>>,
    percentagens: YearTable<Json>,
    sapadores: YearTable<Json>)

  /** The keys of the four files, in the order the script concatenates them. */
  function YearTexts(inp: Inputs): seq<string> {
    Keys(inp.causas) + Keys(inp.dimensoes) + Keys(inp.percentagens) + Keys(inp.sapadores)
  }

  /** `int(y)` for every key, `None` as soon as one of them raises. */
  function ParseAll(texts: seq<string>): (ns: Option<seq<int>>)
    ensures ns.Some? <==> forall i :: 0 <= i < |texts| ==> ParseInt(texts[i]).Some?
    ensures ns.Some? ==> (|ns.value| == |texts| &&
      forall i :: 0 <= i < |texts| ==> ParseInt(texts[i]) == Some(ns.value[i]))
  {
    if |texts| == 0 then Some([])
    else
      var n := |texts| - 1;
      var prefix := ParseAll(texts[..n]);
      var last := ParseInt(texts[n]);
      assert forall i :: 0 <= i < n ==> texts[..n][i] == texts[i];
      if prefix.None? then
        assert exists i :: 0 <= i < n && ParseInt(texts[..n][i]).None?;
        None
      else if last.None? then
        assert ParseInt(texts[n]).None?;
        None
      else
        var ns := prefix.value + [last.value];
        assert forall i :: 0 <= i < n ==> ns[i] == prefix.value[i];
        Some(ns)
  }

  /** `all_years`: the distinct integer years, newest first; `None` when a key is not an integer. */
  function MergedYears(inp: Inputs): Option<seq<int>> {
    match ParseAll(YearTexts(inp))
    case None => None
    case Some(ns) => Some(SortDescending(ns))
  }

  /** `dataset[year].keys()` when `year in dataset`, otherwise nothing. */
  function RegionsOf<V>(t: YearTable<V>, y: string): seq<string> {
    match Get(t, y)
    case None => []
    case Some(regions) => Keys(regions)
  }

  /** `sorted(regions)`: the union of the four files' regions for the year. */
  function YearRegions(inp: Inputs, y: string): seq<string> {
    SortAscending(RegionsOf(inp.causas, y) + RegionsOf(inp.dimensoes, y) +
                  RegionsOf(inp.percentagens, y) + RegionsOf(inp.sapadores, y))
  }

  /** A single field when the value is there, nothing otherwise. */
  function Field(key: string, v: Option<Json>): Dict<Json> {
    match v
    case None => []
    case Some(x) => [(key, x)]
  }

  /** The causes fields: `Total` (`.get("Total")`, so null when absent) and `Causas` (`[]` when absent). */
  function CauseFields(rec: Option<Dict<Json>>): Dict<Json> {
    match rec
    case None => []
    case Some(r) => [("Total", Get(r, "Total").GetOr(JNull)), ("Causas", Get(r, "Causas").GetOr(JArr([])))]
  }

  /** The dimensions field: `Dimensões`, `[]` when the input object lacks it. */
  function DimensionFields(rec: Option<Dict<Json>>): Dict<Json> {
    match rec
    case None => []
    case Some(r) => [("Dimensões", Get(r, "Dimensões").GetOr(JArr([])))]
  }

  /** `merged[year][region]`, its fields set in the script's order. */
  function MergedRecord(inp: Inputs, y: string, r: string): Dict<Json> {
    Field("Percentagem", Lookup(inp.percentagens, y, r)) +
    Field("Sapadores", Lookup(inp.sapadores, y, r)) +
    CauseFields(Lookup(inp.causas, y, r)) +
    DimensionFields(Lookup(inp.dimensoes, y, r))
  }

  /** `merged[year]`: one object per region of the year, regions in sorted order. */
  function MergeYear(inp: Inputs, y: string): Dict<Dict<Json>> {
    var regions := YearRegions(inp, y);
    seq(|regions|, k requires 0 <= k < |regions| => (regions[k], MergedRecord(inp, y, regions[k])))
  }

  /**
   * The whole `merged` dictionary, `None` where the script raises on a year
   * key: the merge fails exactly when some key of some input is not an integer.
   */
  function Merge(inp: Inputs): (m: Option<YearTable<Dict<Json>>>)
    ensures m.None? <==> exists i :: 0 <= i < |YearTexts(inp)| && ParseInt(YearTexts(inp)[i]).None?
  {
    match MergedYears(inp)
    case None => None
    case Some(ns) =>
      Some(seq(|ns|, i requires 0 <= i < |ns| => (IntToString(ns[i]), MergeYear(inp, IntToString(ns[i])))))
  }

  // ---------------------------------------------------------------------
  // Years
  // ---------------------------------------------------------------------

  /** Some key of the inputs reads as the integer `n`. */
  ghost predicate IsInputYear(inp: Inputs, n: int) {
    exists i :: 0 <= i < |YearTexts(inp)| && ParseInt(YearTexts(inp)[i]) == Some(n)
  }

  /** The `i`-th merged year key is `str(n)` for the `i`-th year of `all_years`. */
  lemma MergedKeyReadsBack(inp: Inputs, i: nat)
    requires Merge(inp).Some? && i < |Merge(inp).value|
    ensures ParseInt(Merge(inp).value[i].0) == Some(MergedYears(inp).value[i])
  {
    ParsePrinted(MergedYears(inp).value[i]);
  }

  /** Every merged year key reads back as the integer of some input key. */
  lemma MergedYearsComeFromInputs(inp: Inputs)
    requires Merge(inp).Some?
    ensures var m := Merge(inp).value;
      forall i :: 0 <= i < |m| ==> ParseInt(m[i].0).Some? && IsInputYear(inp, ParseInt(m[i].0).value)
  {
    var texts := YearTexts(inp);
    var ns := ParseAll(texts).value;
    var years := MergedYears(inp).value;
    var m := Merge(inp).value;
    forall i | 0 <= i < |m|
      ensures ParseInt(m[i].0).Some? && IsInputYear(inp, ParseInt(m[i].0).value)
    {
      MergedKeyReadsBack(inp, i);
      assert years[i] in ns;
      var k :| 0 <= k < |ns| && ns[k] == years[i];
      assert ParseInt(texts[k]) == Some(years[i]);
    }
  }

  /** The year of every input key is in the merged file, as `str(int(key))`. */
  lemma EveryInputYearIsMerged(inp: Inputs, n: int)
    requires Merge(inp).Some? && IsInputYear(inp, n)
    ensures IntToString(n) in Keys(Merge(inp).value)
  {
    var texts := YearTexts(inp);
    var ns := ParseAll(texts).value;
    var years := MergedYears(inp).value;
    var k :| 0 <= k < |texts| && ParseInt(texts[k]) == Some(n);
    assert ns[k] == n;
    assert n in years;
    var i :| 0 <= i < |years| && years[i] == n;
    assert Keys(Merge(inp).value)[i] == IntToString(n);
  }

  /** Read back as integers, the merged year keys decrease strictly: newest first, each once. */
  lemma MergedYearsDescend(inp: Inputs, i: nat, j: nat)
    requires Merge(inp).Some? && i < j < |Merge(inp).value|
    ensures var m := Merge(inp).value;
      ParseInt(m[i].0).Some? && ParseInt(m[j].0).Some? && ParseInt(m[i].0).value > ParseInt(m[j].0).value
  {
    var years := MergedYears(inp).value;
    assert StrictlyDescending(years);
    MergedKeyReadsBack(inp, i);
    MergedKeyReadsBack(inp, j);
    assert years[i] > years[j];
  }

  /** No year occurs twice in the merged file, so each year's entry is the one read for it. */
  lemma MergedYearEntry(inp: Inputs, i: nat)
    requires Merge(inp).Some? && i < |Merge(inp).value|
    ensures var m := Merge(inp).value;
      Get(m, m[i].0) == Some(MergeYear(inp, m[i].0))
  {
    var m := Merge(inp).value;
    forall j | i < j < |m|
      ensures m[j].0 != m[i].0
    {
      MergedYearsDescend(inp, i, j);
    }
    assert IsLastEntry(m, i, m[i].0, m[i].1);
    LastEntryIsGet(m, i);
  }

  // ---------------------------------------------------------------------
  // Regions and fields
  // ---------------------------------------------------------------------

  /** The input has an entry for year `y` and region `r`. */
  predicate Supplies<V>(t: YearTable<V>, y: string, r: string) {
    Lookup(t, y, r).Some?
  }

  lemma RegionsOfIff<V>(t: YearTable<V>, y: string, r: string)
    ensures r in RegionsOf(t, y) <==> Supplies(t, y, r)
  {
  }

  /**
   * A year's regions are sorted ascending and are exactly the regions some
   * input supplies for that year text.
   */
  lemma MergedRegions(inp: Inputs, y: string)
    ensures StrictlyAscending(Keys(MergeYear(inp, y)))
    ensures forall r :: r in Keys(MergeYear(inp, y)) <==>
      Supplies(inp.causas, y, r) || Supplies(inp.dimensoes, y, r) ||
      Supplies(inp.percentagens, y, r) || Supplies(inp.sapadores, y, r)
  {
    var regions := YearRegions(inp, y);
    assert Keys(MergeYear(inp, y)) == regions;
    forall r
      ensures r in regions <==>
        Supplies(inp.causas, y, r) || Supplies(inp.dimensoes, y, r) ||
        Supplies(inp.percentagens, y, r) || Supplies(inp.sapadores, y, r)
    {
      RegionsOfIff(inp.causas, y, r);
      RegionsOfIff(inp.dimensoes, y, r);
      RegionsOfIff(inp.percentagens, y, r);
      RegionsOfIff(inp.sapadores, y, r);
    }
  }

  /** No region occurs twice in a year, so each region's entry is its merged record. */
  lemma MergedRegionEntry(inp: Inputs, y: string, k: nat)
    requires k < |MergeYear(inp, y)|
    ensures var regions := MergeYear(inp, y);
      Get(regions, regions[k].0) == Some(MergedRecord(inp, y, regions[k].0))
  {
    var regions := MergeYear(inp, y);
    MergedRegions(inp, y);
    forall j | k < j < |regions|
      ensures regions[j].0 != regions[k].0
    {
      assert Keys(regions)[k] == regions[k].0 && Keys(regions)[j] == regions[j].0;
      assert StrLt(regions[k].0, regions[j].0);
      StrLtIrreflexive(regions[k].0);
    }
    LastEntryIsGet(regions, k);
  }

  /** The field names the merged records use. */
  const MergedFieldNames: seq<string> := ["Percentagem", "Sapadores", "Total", "Causas", "Dimensões"]

  /** Reading a field of a four-part record: the last part that has the field wins. */
  lemma GetOfFour(p: Dict<Json>, s: Dict<Json>, c: Dict<Json>, d: Dict<Json>, key: string)
    ensures Get(p + s + c + d, key) ==
      if Get(d, key).Some? then Get(d, key)
      else if Get(c, key).Some? then Get(c, key)
      else if Get(s, key).Some? then Get(s, key)
      else Get(p, key)
  {
    GetAppend(p + s + c, d, key);
    GetAppend(p + s, c, key);
    GetAppend(p, s, key);
  }

  lemma FieldGet(k: string, v: Option<Json>, key: string)
    ensures Get(Field(k, v), key) == if key == k then v else None
  {
    if v.Some? {
      assert Field(k, v)[..0] == [];
    }
  }

  lemma CauseFieldsGet(c: Option<Dict<Json>>, key: string)
    ensures Get(CauseFields(c), key) ==
      if c.None? then None
      else if key == "Causas" then Some(Get(c.value, "Causas").GetOr(JArr([])))
      else if key == "Total" then Some(Get(c.value, "Total").GetOr(JNull))
      else None
  {
    if c.Some? {
      var f := CauseFields(c);
      assert f[..1] == [f[0]] && f[..1][..0] == [];
    }
  }

  lemma DimensionFieldsGet(d: Option<Dict<Json>>, key: string)
    ensures Get(DimensionFields(d), key) ==
      if d.Some? && key == "Dimensões" then Some(Get(d.value, "Dimensões").GetOr(JArr([]))) else None
  {
    if d.Some? {
      assert DimensionFields(d)[..0] == [];
    }
  }

  /**
   * What the script sets field `key` of a region's object to, given the
   * region's percentage `p`, sappers value `s`, causes object `c` and
   * dimensions object `d`, each when its input has one: `p` and `s` as they
   * are; `Total` (null when missing) and `Causas` (`[]` when missing) from
   * `c`; `Dimensões` (`[]` when missing) from `d`; no other field.
   */
  function FieldOf(p: Option<Json>, s: Option<Json>, c: Option<Dict<Json>>, d: Option<Dict<Json>>, key: string)
    : Option<Json>
  {
    if key == "Percentagem" then p
    else if key == "Sapadores" then s
    else if key == "Total" then (if c.Some? then Some(Get(c.value, "Total").GetOr(JNull)) else None)
    else if key == "Causas" then (if c.Some? then Some(Get(c.value, "Causas").GetOr(JArr([]))) else None)
    else if key == "Dimensões" then (if d.Some? then Some(Get(d.value, "Dimensões").GetOr(JArr([]))) else None)
    else None
  }

  /** The object built from the four parts reads, field by field, what the script sets. */
  lemma PartsFields(p: Option<Json>, s: Option<Json>, c: Option<Dict<Json>>, d: Option<Dict<Json>>, key: string)
    ensures Get(Field("Percentagem", p) + Field("Sapadores", s) + CauseFields(c) + DimensionFields(d), key) ==
      FieldOf(p, s, c, d, key)
  {
    GetOfFour(Field("Percentagem", p), Field("Sapadores", s), CauseFields(c), DimensionFields(d), key);
    FieldGet("Percentagem", p, key);
    FieldGet("Sapadores", s, key);
    CauseFieldsGet(c, key);
    DimensionFieldsGet(d, key);
    assert "Percentagem"[0] == 'P' && "Sapadores"[0] == 'S' && "Total"[0] == 'T' && "Causas"[0] == 'C' && "Dimensões"[0] == 'D';
  }

  /** `FieldOf` for the entries the four inputs have for year `y` and region `r`. */
  function FieldSource(inp: Inputs, y: string, r: string, key: string): Option<Json> {
    FieldOf(Lookup(inp.percentagens, y, r), Lookup(inp.sapadores, y, r),
            Lookup(inp.causas, y, r), Lookup(inp.dimensoes, y, r), key)
  }

  /** Every field of a merged record reads what the script sets it to, and no other field exists. */
  lemma MergedRecordFields(inp: Inputs, y: string, r: string, key: string)
    ensures Get(MergedRecord(inp, y, r), key) == FieldSource(inp, y, r, key)
  {
    PartsFields(Lookup(inp.percentagens, y, r), Lookup(inp.sapadores, y, r),
                Lookup(inp.causas, y, r), Lookup(inp.dimensoes, y, r), key);
  }

  /** Only the five field names have a value. */
  lemma FieldOfNames(p: Option<Json>, s: Option<Json>, c: Option<Dict<Json>>, d: Option<Dict<Json>>, key: string)
    requires FieldOf(p, s, c, d, key).Some?
    ensures key in MergedFieldNames
  {
    if key == "Percentagem" {
      assert MergedFieldNames[0] == key;
    } else if key == "Sapadores" {
      assert MergedFieldNames[1] == key;
    } else if key == "Total" {
      assert MergedFieldNames[2] == key;
    } else if key == "Causas" {
      assert MergedFieldNames[3] == key;
    } else {
      assert MergedFieldNames[4] == key;
    }
  }

  /** The fields of a merged record are among the five names. */
  lemma MergedRecordKeys(inp: Inputs, y: string, r: string)
    ensures forall key :: key in Keys(MergedRecord(inp, y, r)) ==> key in MergedFieldNames
  {
    forall key | key in Keys(MergedRecord(inp, y, r))
      ensures key in MergedFieldNames
    {
      MergedRecordFields(inp, y, r, key);
      FieldOfNames(Lookup(inp.percentagens, y, r), Lookup(inp.sapadores, y, r),
                   Lookup(inp.causas, y, r), Lookup(inp.dimensoes, y, r), key);
    }
  }

  /**
   * Reading `merged[year][region]` for any year key of the merged file: a
   * record exactly where some input supplies the region under that year
   * text, and then the merged record.
   */
  lemma MergedLookup(inp: Inputs, i: nat, r: string)
    requires Merge(inp).Some? && i < |Merge(inp).value|
    ensures var m := Merge(inp).value;
      var y := m[i].0;
      && (Lookup(m, y, r).Some? <==>
            Supplies(inp.causas, y, r) || Supplies(inp.dimensoes, y, r) ||
            Supplies(inp.percentagens, y, r) || Supplies(inp.sapadores, y, r))
      && (Lookup(m, y, r).Some? ==> Lookup(m, y, r).value == MergedRecord(inp, y, r))
  {
    var m := Merge(inp).value;
    var y := m[i].0;
    MergedYearEntry(inp, i);
    var regions := MergeYear(inp, y);
    MergedRegions(inp, y);
    if r in Keys(regions) {
      var k :| 0 <= k < |regions| && Keys(regions)[k] == r;
      MergedRegionEntry(inp, y, k);
    }
  }

  /**
   * An input key that is not the canonical `str(int(key))` of its year is
   * looked up under the canonical text: the year appears in the merged file,
   * but without that input's regions.
   */
  lemma NonCanonicalKeyLosesItsRegions(t: string, regions: Dict<Dict<Json>>, n: int)
    requires ParseInt(t) == Some(n) && IntToString(n) != t
    ensures Merge(Inputs([(t, regions)], [], [], [])) == Some([(IntToString(n), [])])
  {
    var inp := Inputs([(t, regions)], [], [], []);
    var y := IntToString(n);
    SingleKeyYears(inp, t, n);
    assert inp.causas[..0] == [];
    assert Get(inp.causas, y) == None;
    assert RegionsOf(inp.causas, y) == [] && RegionsOf(inp.dimensoes, y) == [];
    assert RegionsOf(inp.percentagens, y) == [] && RegionsOf(inp.sapadores, y) == [];
    assert SortAscending([]) == [];
    assert YearRegions(inp, y) == [];
    assert MergeYear(inp, IntToString(n)) == [];
    assert Merge(inp).Some?;
    var m := Merge(inp).value;
    assert |m| == 1 && m[0] == (y, []);
    assert m == [(y, [])];
  }

  /** Inputs whose only key is `t` have the single year `int(t)`. */
  lemma SingleKeyYears(inp: Inputs, t: string, n: int)
    requires YearTexts(inp) == [t] && ParseInt(t) == Some(n)
    ensures MergedYears(inp) == Some([n])
  {
    var ns := ParseAll([t]).value;
    assert ParseInt([t][0]) == Some(ns[0]);
    assert ns == [n];
    assert [n][..0] == [];
    assert SortDescending([n]) == InsertDescending(n, SortDescending([]));
  }

  /** "02020" is such a key: it reads as 2020, which prints as "2020". */
  lemma LeadingZeroYear()
    ensures ParseInt("02020") == Some(2020) && IntToString(2020) == "2020"
  {
    TrimNoop("02020");
    assert "02020"[..4] == "0202" && "0202"[..3] == "020" && "020"[..2] == "02" && "02"[..1] == "0";
    assert DigitsValue("02020") == 2020;
    assert NatToString(2) == "2";
    assert NatToString(20) == "20";
    assert NatToString(202) == "202";
  }
}
