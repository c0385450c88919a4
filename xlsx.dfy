/** The spreadsheet reader: the first worksheet's first row is a header
    whose cells 1 and 2 name the source and target languages; every later
    row becomes a trans-unit from its cells 0 (id), 1 (source) and 2
    (target), numbered by its position among the data rows, and is kept
    only when its id is non-empty. `GetMeta` counts the kept units under
    both languages. */
module Xlsx {
  import Events
  import Segments

  /** A spreadsheet cell as the row iterator supplies it. `Formatted`
      stands for the kinds (floating-point numbers, dates, error values)
      that are shown through their own display string. */
  datatype Cell =
    | Empty
    | Str(s: string)
    | Int(i: int)
    | Bool(b: bool)
    | Formatted(display: string)

  datatype Sheet = Sheet(name: string, rows: seq<seq<Cell>>)

  /** The spreadsheet's unit: the XLIFF unit's fields plus its sequence number. */
  datatype TransUnit = TransUnit(id: string, sn: nat, source: seq<Segments.SegNode>, target: seq<Segments.SegNode>,
                                 translate: string)

  datatype MetaInfo = MetaInfo(languages: map<string, nat>)

  predicate IsDigit(c: char) {
    '0' <= c <= '9'
  }

  /** The number a string of decimal digits denotes. */
  function DecimalValue(s: string): nat
    requires forall k :: 0 <= k < |s| ==> IsDigit(s[k])
    decreases |s|
  {
    if s == [] then 0
    else
      assert IsDigit(s[|s| - 1]);
      DecimalValue(s[..|s| - 1]) * 10 + (s[|s| - 1] as int - '0' as int)
  }

  /** Decimal notation of a natural number: digits denoting `n`, with no
      leading zero except for zero itself. */
  function Digits(n: nat): (r: string)
    ensures |r| != 0
    ensures forall k :: 0 <= k < |r| ==> IsDigit(r[k])
    ensures DecimalValue(r) == n
    ensures n == 0 ==> r == "0"
    ensures n > 0 ==> r[0] != '0'
    decreases n
  {
    var d := ['0' + (n % 10) as char];
    if n < 10 then d
    else
      var p := Digits(n / 10);
      assert (p + d)[..|p + d| - 1] == p;
      p + d
  }

  /** Decimal notation of an integer: the notation of its magnitude, with a
      leading '-' when negative. */
  function IntToString(i: int): (r: string)
    ensures |r| != 0
    ensures i >= 0 ==> (forall k :: 0 <= k < |r| ==> IsDigit(r[k])) && DecimalValue(r) == i && (i > 0 ==> r[0] != '0')
    ensures i < 0 ==> |r| >= 2 && r[0] == '-' && (forall k :: 1 <= k < |r| ==> IsDigit(r[k])) &&
                      DecimalValue(r[1..]) == -i && r[1] != '0'
  {
    if i >= 0 then Digits(i)
    else
      var m := Digits(-i);
      assert ("-" + m)[1..] == m;
      "-" + m
  }

  /** A cell's display string, as used for ids and cell contents. */
  function Display(c: Cell): string {
    match c
    case Empty => ""
    case Str(s) => s
    case Int(i) => IntToString(i)
    case Bool(b) => if b then "true" else "false"
    case Formatted(d) => d
  }

  /** A cell read as text: only text cells have one; any other reads as "". */
  function HeaderString(c: Cell): string {
    if c.Str? then c.s else ""
  }

  /** Only an empty cell, or a text or formatted cell with empty contents,
      displays as the empty string; numbers and booleans never do. */
  lemma DisplayEmptyIff(c: Cell)
    ensures Display(c) == "" <==> c.Empty? || c == Str("") || c == Formatted("")
  {
  }

  /** Column `col` of a row, or the empty cell where the row is shorter. */
  function CellAt(row: seq<Cell>, col: nat): Cell
  {
    if col < |row| then row[col] else Empty
  }

  /** The header row: the first row, or no cells for a sheet without rows. */
  function Header(rows: seq<seq<Cell>>): seq<Cell>
  {
    if |rows| != 0 then rows[0] else []
  }

  /** The rows after the header. */
  function DataRows(rows: seq<seq<Cell>>): seq<seq<Cell>>
  {
    if |rows| != 0 then rows[1..] else []
  }

  /** The unit built from a data row with sequence number `sn`. */
  function RowUnit(row: seq<Cell>, sn: nat, inline: Segments.InlineParser): TransUnit {
    TransUnit(Display(CellAt(row, 0)), sn, inline(Display(CellAt(row, 1))), inline(Display(CellAt(row, 2))), "yes")
  }

  /** The units kept from data rows `rows`: the k-th row (from 1) yields a
      unit numbered k, kept when its id is non-empty. */
  function KeptUnits(rows: seq<seq<Cell>>, inline: Segments.InlineParser): seq<TransUnit>
    decreases |rows|
  {
    if rows == [] then []
    else
      var u := RowUnit(rows[|rows| - 1], |rows|, inline);
      KeptUnits(rows[..|rows| - 1], inline) + (if u.id != "" then [u] else [])
  }

  /** Every kept unit has a non-empty id, `translate` "yes", and is the unit
      of the data row its sequence number names. */
  lemma {:induction false} KeptUnitsSound(rows: seq<seq<Cell>>, inline: Segments.InlineParser)
    ensures forall u :: u in KeptUnits(rows, inline) ==>
      u.id != "" && u.translate == "yes" && 1 <= u.sn <= |rows| && u == RowUnit(rows[u.sn - 1], u.sn, inline)
    decreases |rows|
  {
    if rows != [] {
      var init := rows[..|rows| - 1];
      KeptUnitsSound(init, inline);
      forall u | u in KeptUnits(init, inline)
        ensures 1 <= u.sn <= |rows| && u == RowUnit(rows[u.sn - 1], u.sn, inline)
      {
        assert rows[u.sn - 1] == init[u.sn - 1];
      }
    }
  }

  /** Every data row with a non-empty id yields a kept unit. */
  lemma {:induction false} KeptUnitsComplete(rows: seq<seq<Cell>>, inline: Segments.InlineParser, k: nat)
    requires k < |rows| && Display(CellAt(rows[k], 0)) != ""
    ensures RowUnit(rows[k], k + 1, inline) in KeptUnits(rows, inline)
    decreases |rows|
  {
    if k < |rows| - 1 {
      var init := rows[..|rows| - 1];
      assert init[k] == rows[k];
      KeptUnitsComplete(init, inline, k);
    }
  }

  predicate SnIncreasing(us: seq<TransUnit>) {
    forall a, b :: 0 <= a < b < |us| ==> us[a].sn < us[b].sn
  }

  /** Kept units appear in row order: their sequence numbers strictly increase. */
  lemma {:induction false} KeptUnitsIncreasing(rows: seq<seq<Cell>>, inline: Segments.InlineParser)
    ensures SnIncreasing(KeptUnits(rows, inline))
    decreases |rows|
  {
    if rows != [] {
      var init := rows[..|rows| - 1];
      KeptUnitsIncreasing(init, inline);
      KeptUnitsSound(init, inline);
      var us0 := KeptUnits(init, inline);
      var u := RowUnit(rows[|rows| - 1], |rows|, inline);
      var us := KeptUnits(rows, inline);
      assert us == us0 + (if u.id != "" then [u] else []);
      forall a, b | 0 <= a < b < |us|
        ensures us[a].sn < us[b].sn
      {
        if b < |us0| {
          assert us[a] == us0[a] && us[b] == us0[b];
        } else {
          assert us[a] == us0[a] && us0[a] in us0 && us[b] == u;
        }
      }
    }
  }

  /** A row too short to hold a source (cell 1) or a target (cell 2) reads
      that side as the empty cell, so the inline parser is given "". */
  lemma ShortRowReadsEmpty(row: seq<Cell>, sn: nat, inline: Segments.InlineParser)
    ensures |row| < 2 ==> RowUnit(row, sn, inline).source == inline("")
    ensures |row| < 3 ==> RowUnit(row, sn, inline).target == inline("")
  {
  }

  /** A row whose id cell is missing or displays as "" is never kept; in
      particular no row without cells is. */
  lemma {:induction false} BlankIdRowsDropped(rows: seq<seq<Cell>>, inline: Segments.InlineParser)
    ensures forall u :: u in KeptUnits(rows, inline) ==>
      1 <= u.sn <= |rows| && |rows[u.sn - 1]| != 0 && rows[u.sn - 1][0] != Empty && rows[u.sn - 1][0] != Str("") && rows[u.sn - 1][0] != Formatted("")
  {
    KeptUnitsSound(rows, inline);
    forall u | u in KeptUnits(rows, inline)
      ensures 1 <= u.sn <= |rows| && |rows[u.sn - 1]| != 0 && rows[u.sn - 1][0] != Empty && rows[u.sn - 1][0] != Str("") && rows[u.sn - 1][0] != Formatted("")
    {
      DisplayEmptyIff(CellAt(rows[u.sn - 1], 0));
    }
  }

  /** The row loop: numbers the data rows from 1 and keeps the units whose id is non-empty. */
  method ReadRows(transUnitRows: seq<seq<Cell>>, inline: Segments.InlineParser) returns (kept: seq<TransUnit>)
    ensures kept == KeptUnits(transUnitRows, inline)
  {
    kept := [];
    var sn: nat := 0;
    for j := 0 to |transUnitRows|
      invariant sn == j
      invariant kept == KeptUnits(transUnitRows[..j], inline)
    {
      var r := transUnitRows[j];
      var id := Display(CellAt(r, 0));
      var sourceValue := Display(CellAt(r, 1));
      var targetValue := Display(CellAt(r, 2));
      var source := inline(sourceValue);
      var target := inline(targetValue);
      sn := sn + 1;
      var curTransUnit := TransUnit(id, sn, source, target, "yes");
      assert transUnitRows[..j + 1][..j] == transUnitRows[..j];
      if curTransUnit.id != "" {
        kept := kept + [curTransUnit];
      }
    }
    assert transUnitRows[..|transUnitRows|] == transUnitRows;
  }

  class TranslationXlsx {
    const path: string
    /** The workbook's worksheets, in order. */
    const worksheets: seq<Sheet>
    var transUnits: seq<TransUnit>
    var srcLanguage: string
    var tgtLanguage: string

    /** `TranslationXlsx::new` once the workbook is open: empty results,
        then the first sheet is read straight away. */
    constructor (path: string, worksheets: seq<Sheet>, inline: Segments.InlineParser)
      ensures this.path == path && this.worksheets == worksheets
      ensures |worksheets| == 0 ==> transUnits == [] && srcLanguage == "" && tgtLanguage == ""
      ensures |worksheets| != 0 && |Header(worksheets[0].rows)| >= 3 ==>
        srcLanguage == Events.Lower(HeaderString(Header(worksheets[0].rows)[1])) &&
        tgtLanguage == Events.Lower(HeaderString(Header(worksheets[0].rows)[2])) &&
        transUnits == KeptUnits(DataRows(worksheets[0].rows), inline)
    {
      this.path := path;
      this.worksheets := worksheets;
      transUnits := [];
      srcLanguage := "";
      tgtLanguage := "";
      new;
      var _ := Parse(inline);
    }

    /** Reads the first worksheet. Header cells 1 and 2 give the languages,
        lower-cased; a header too short to index is fatal (so is a sheet
        without rows, whose header has no cells), the source
        language having been set already when only cell 2 is missing.
        Kept units are appended to `transUnits`. Without a worksheet
        nothing changes. */
    method Parse(inline: Segments.InlineParser) returns (outcome: Events.Outcome)
      modifies this
      ensures |worksheets| == 0 ==>
        outcome == Events.Done &&
        transUnits == old(transUnits) && srcLanguage == old(srcLanguage) && tgtLanguage == old(tgtLanguage)
      ensures |worksheets| != 0 && |worksheets[0].rows| == 0 ==> outcome == Events.Fatal(Events.HeaderTooShort(0))
      ensures |worksheets| != 0 ==>
        var header := Header(worksheets[0].rows);
        (|header| < 3 ==> outcome == Events.Fatal(Events.HeaderTooShort(|header|)) &&
                          transUnits == old(transUnits) && tgtLanguage == old(tgtLanguage) &&
                          srcLanguage == (if |header| == 2 then Events.Lower(HeaderString(header[1])) else old(srcLanguage))) &&
        (|header| >= 3 ==> outcome == Events.Done &&
                           srcLanguage == Events.Lower(HeaderString(header[1])) &&
                           tgtLanguage == Events.Lower(HeaderString(header[2])) &&
                           transUnits == old(transUnits) + KeptUnits(DataRows(worksheets[0].rows), inline))
    {
      if |worksheets| == 0 {
        return Events.Done;
      }
      var firstSheet := worksheets[0];
      var header := Header(firstSheet.rows);
      if |header| < 2 {
        return Events.Fatal(Events.HeaderTooShort(|header|));
      }
      srcLanguage := Events.Lower(HeaderString(header[1]));
      if |header| < 3 {
        return Events.Fatal(Events.HeaderTooShort(|header|));
      }
      tgtLanguage := Events.Lower(HeaderString(header[2]));
      var transUnitRows := DataRows(firstSheet.rows);
      var kept := ReadRows(transUnitRows, inline);
      transUnits := transUnits + kept;
      return Events.Done;
    }

    /** `get_meta`: both languages map to the number of kept units; when
        they are the same language there is a single entry. */
    function GetMeta(): (m: MetaInfo)
      reads this
      ensures m.languages.Keys == {srcLanguage, tgtLanguage}
      ensures forall l :: l in m.languages ==> m.languages[l] == |transUnits|
      ensures |m.languages| == 1 <==> srcLanguage == tgtLanguage
    {
      var langs := map[srcLanguage := |transUnits|, tgtLanguage := |transUnits|];
      assert srcLanguage != tgtLanguage ==> langs.Keys == {srcLanguage} + {tgtLanguage};
      MetaInfo(langs)
    }
  }
}
