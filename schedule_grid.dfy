/** The exam-schedule sheet walker: row 0 holds the time slots, column 0
    the dates (carried down until the next one), and every other cell may
    name a course and its sections. Each (cell, section) pair becomes one
    schedule entry. */
module ScheduleGrid {
  import opened Collections
  import opened CourseCell

  /** A sheet cell: missing (`NaN`), a string, or any other value (a
      number or a time), with its Python truthiness. */
  datatype Cell = Missing | Text(text: string) | Other(value: string, truthy: bool)

  /** `pd.notna`. */
  predicate Present(c: Cell) { !c.Missing? }

  /** Python truthiness of a cell. A missing cell is pandas' `NaN`, and
      `bool(float('nan'))` is `True`, so `Missing` counts as truthy. */
  predicate Truthy(c: Cell) { match c case Missing => true case Text(s) => s != "" case Other(_, t) => t }

  /** A data frame: `width` columns, every row that wide. */
  datatype Grid = Grid(width: nat, rows: seq<seq<Cell>>)

  predicate Rectangular(g: Grid) { forall r :: 0 <= r < |g.rows| ==> |g.rows[r]| == g.width }

  /** One output record: date (`None` before the first date), time slot,
      course code and one section. */
  datatype Entry = Entry(date: Option<Cell>, slot: Cell, code: string, section: string)

  // ---------------------------------------------------------------------
  // Header: column -> time slot
  // ---------------------------------------------------------------------

  /** The header map: every column from 1 on whose row-0 value is present. */
  function Slots(g: Grid): (slots: map<nat, Cell>)
    requires Rectangular(g) && |g.rows| > 0
  {
    map c: nat | 1 <= c < g.width && Present(g.rows[0][c]) :: g.rows[0][c]
  }

  /** The header map's keys are the columns from 1 on with a present
      header, each mapped to that header. */
  lemma SlotsAreHeaders(g: Grid, c: nat)
    requires Rectangular(g) && |g.rows| > 0
    ensures c in Slots(g) <==> 1 <= c < g.width && Present(g.rows[0][c])
    ensures c in Slots(g) ==> Slots(g)[c] == g.rows[0][c]
  {
  }

  /** The first loop of `extract_day_time_course_info`. */
  method HeaderSlots(g: Grid) returns (slots: map<nat, Cell>)
    requires Rectangular(g) && |g.rows| > 0
    ensures slots == Slots(g)
  {
    slots := map[];
    var c := 1;
    while c < g.width
      invariant 1 <= c
      invariant slots == map k: nat | 1 <= k < c && k < g.width && Present(g.rows[0][k]) :: g.rows[0][k]
    {
      if Present(g.rows[0][c]) {
        slots := slots[c := g.rows[0][c]];
      }
      c := c + 1;
    }
  }

  /** `time_slots.get(col)` when truthy: the slot a column's cells belong to. */
  function SlotOf(slots: map<nat, Cell>, c: nat): (r: Option<Cell>)
    ensures r.Some? <==> c in slots && Truthy(slots[c])
    ensures r.Some? ==> r.value == slots[c]
  {
    if c in slots && Truthy(slots[c]) then Some(slots[c]) else None
  }

  // ---------------------------------------------------------------------
  // Dates carried down the rows
  // ---------------------------------------------------------------------

  /** `current_date` after row `r` has been read. Row 0 is the header and
      sets no date. */
  function DateAt(g: Grid, r: nat): (d: Option<Cell>)
    requires Rectangular(g) && r < |g.rows| && g.width > 0
    ensures d.Some? ==> Present(d.value)
  {
    if r == 0 then None
    else if Present(g.rows[r][0]) then Some(g.rows[r][0])
    else DateAt(g, r - 1)
  }

  /** The date of row `r` is the most recent present column-0 value among
      rows 1..r; there is none exactly when those are all missing. */
  lemma {:induction false} DateIsMostRecent(g: Grid, r: nat)
    requires Rectangular(g) && r < |g.rows| && g.width > 0
    ensures DateAt(g, r).None? <==> forall i :: 1 <= i <= r ==> !Present(g.rows[i][0])
    ensures DateAt(g, r).Some? ==>
              exists i :: && 1 <= i <= r && g.rows[i][0] == DateAt(g, r).value && Present(g.rows[i][0])
                          && forall j :: i < j <= r ==> !Present(g.rows[j][0])
  {
    if r > 0 && !Present(g.rows[r][0]) {
      DateIsMostRecent(g, r - 1);
      if DateAt(g, r).Some? {
        var i :| && 1 <= i <= r - 1 && g.rows[i][0] == DateAt(g, r).value && Present(g.rows[i][0])
                 && forall j :: i < j <= r - 1 ==> !Present(g.rows[j][0]);
        assert forall j :: i < j <= r ==> !Present(g.rows[j][0]);
      }
    }
  }

  // ---------------------------------------------------------------------
  // Entries
  // ---------------------------------------------------------------------

  /** The entries one cell yields: only a string cell in a column with a
      truthy slot, whose text yields a course code and at least one
      section; then one entry per section. */
  function CellEntries(parse: string -> CourseInfo, date: Option<Cell>, slot: Option<Cell>, cell: Cell): seq<Entry>
  {
    if cell.Text? && slot.Some? then
      var info := parse(cell.text);
      if info.code.Some? && info.sections != [] then
        SectionEntries(date, slot.value, info.code.value, info.sections)
      else []
    else []
  }

  /** One entry per section, in order, all sharing date, slot and code. */
  function SectionEntries(date: Option<Cell>, slot: Cell, code: string, sections: seq<string>): (r: seq<Entry>)
    ensures |r| == |sections|
    ensures forall k :: 0 <= k < |r| ==> r[k] == Entry(date, slot, code, sections[k])
  {
    seq(|sections|, k requires 0 <= k < |sections| => Entry(date, slot, code, sections[k]))
  }

  /** The innermost loop: `for section in departments_sections`. */
  method AppendSections(date: Option<Cell>, slot: Cell, code: string, sections: seq<string>)
      returns (out: seq<Entry>)
    ensures out == SectionEntries(date, slot, code, sections)
  {
    out := [];
    var k := 0;
    while k < |sections|
      invariant 0 <= k <= |sections|
      invariant |out| == k
      invariant forall i :: 0 <= i < k ==> out[i] == Entry(date, slot, code, sections[i])
    {
      out := out + [Entry(date, slot, code, sections[k])];
      k := k + 1;
    }
  }

  /** The entries each column of row `r` yields; column 0 holds the
      date and yields none. */
  function CellLists(parse: string -> CourseInfo, g: Grid, slots: map<nat, Cell>, r: nat, date: Option<Cell>): (ls: seq<seq<Entry>>)
    requires Rectangular(g) && r < |g.rows|
    ensures |ls| == g.width
    ensures forall c :: 0 <= c < g.width ==>
              ls[c] == if c == 0 then [] else CellEntries(parse, date, SlotOf(slots, c), g.rows[r][c])
  {
    seq(g.width, c requires 0 <= c < g.width =>
      if c == 0 then [] else CellEntries(parse, date, SlotOf(slots, c), g.rows[r][c]))
  }

  /** The entries of row `r`, column by column. */
  function RowEntries(parse: string -> CourseInfo, g: Grid, slots: map<nat, Cell>, r: nat, date: Option<Cell>): seq<Entry>
    requires Rectangular(g) && r < |g.rows|
  {
    Flatten(CellLists(parse, g, slots, r, date))
  }

  /** The entries each row yields with its carried date; the header row
      yields none. */
  function RowLists(parse: string -> CourseInfo, g: Grid): (ls: seq<seq<Entry>>)
    requires Rectangular(g) && 0 < |g.rows| && g.width > 0
    ensures |ls| == |g.rows|
    ensures forall r :: 0 <= r < |g.rows| ==>
              ls[r] == if r == 0 then [] else RowEntries(parse, g, Slots(g), r, DateAt(g, r))
  {
    seq(|g.rows|, r requires 0 <= r < |g.rows| =>
      if r == 0 then [] else RowEntries(parse, g, Slots(g), r, DateAt(g, r)))
  }

  /** The entries of the sheet, row by row. */
  function GridEntries(parse: string -> CourseInfo, g: Grid): seq<Entry>
    requires Rectangular(g) && 0 < |g.rows| && g.width > 0
  {
    Flatten(RowLists(parse, g))
  }

  /** A cell yields entries exactly when it is a string, its column has a
      truthy slot, and its text yields a course code and at least one
      section; it then yields one entry per section, in the order of the
      section list, all with the same date, slot and course code. */
  lemma CellEntriesCases(parse: string -> CourseInfo, date: Option<Cell>, slot: Option<Cell>, cell: Cell)
    ensures CellEntries(parse, date, slot, cell) != [] <==>
              && cell.Text? && slot.Some?
              && parse(cell.text).code.Some? && parse(cell.text).sections != []
    ensures CellEntries(parse, date, slot, cell) != [] ==>
              var info := parse(cell.text);
              && |CellEntries(parse, date, slot, cell)| == |info.sections|
              && forall k :: 0 <= k < |info.sections| ==>
                   CellEntries(parse, date, slot, cell)[k] == Entry(date, slot.value, info.code.value, info.sections[k])
  {
  }

  /** Entry `e` comes from the cell at row `r`, column `c` (both from 1). */
  predicate CellYields(parse: string -> CourseInfo, g: Grid, r: nat, c: nat, e: Entry)
    requires Rectangular(g)
  {
    && 1 <= r < |g.rows| && 1 <= c < g.width
    && e in CellEntries(parse, DateAt(g, r), SlotOf(Slots(g), c), g.rows[r][c])
  }

  /** The columns of a row are read left to right: the entries of the
      columns before `c` come first, then exactly those of columns `c` on. */
  lemma RowColumnsInOrder(parse: string -> CourseInfo, g: Grid, slots: map<nat, Cell>, r: nat, date: Option<Cell>, c: nat, e: Entry)
    requires Rectangular(g) && r < |g.rows| && 1 <= c <= g.width
    ensures Flatten(CellLists(parse, g, slots, r, date)[..c]) <= RowEntries(parse, g, slots, r, date)
    ensures e in RowEntries(parse, g, slots, r, date)[|Flatten(CellLists(parse, g, slots, r, date)[..c])|..] <==>
              exists k :: c <= k < g.width && e in CellEntries(parse, date, SlotOf(slots, k), g.rows[r][k])
  {
    FlattenInOrder(CellLists(parse, g, slots, r, date), c, e);
  }

  /** The rows are read top to bottom: the entries of the rows before `n`
      come first, then exactly the entries the cells of rows `n` on yield. */
  lemma RowsInOrder(parse: string -> CourseInfo, g: Grid, n: nat, e: Entry)
    requires Rectangular(g) && 1 <= n <= |g.rows| && g.width > 0
    ensures Flatten(RowLists(parse, g)[..n]) <= GridEntries(parse, g)
    ensures e in GridEntries(parse, g)[|Flatten(RowLists(parse, g)[..n])|..] <==>
              exists r, c :: n <= r < |g.rows| && CellYields(parse, g, r, c, e)
  {
    FlattenInOrder(RowLists(parse, g), n, e);
    forall r | n <= r < |g.rows|
      ensures e in RowLists(parse, g)[r] <==> exists c :: CellYields(parse, g, r, c, e)
    {
      RowYields(parse, g, r, e);
    }
  }

  /** A data row yields exactly the entries its cells yield. */
  lemma RowYields(parse: string -> CourseInfo, g: Grid, r: nat, e: Entry)
    requires Rectangular(g) && 1 <= r < |g.rows| && g.width > 0
    ensures e in RowLists(parse, g)[r] <==> exists c :: CellYields(parse, g, r, c, e)
  {
    var ls := CellLists(parse, g, Slots(g), r, DateAt(g, r));
    assert RowLists(parse, g)[r] == Flatten(ls);
    FlattenMembers(ls, e);
    forall c: nat
      ensures (c < |ls| && e in ls[c]) <==> CellYields(parse, g, r, c, e)
    {
    }
  }

  /** Entry `e` is what the source appends for the cell at row `r`,
      column `c`: a string cell under a present, truthy header, its date the
      one carried to row `r`, its slot the header, its code and one of its
      sections those the cell's text yields. */
  predicate FromCell(parse: string -> CourseInfo, g: Grid, r: nat, c: nat, e: Entry)
    requires Rectangular(g)
  {
    && 1 <= r < |g.rows| && 1 <= c < g.width
    && g.rows[r][c].Text? && Present(g.rows[0][c]) && Truthy(g.rows[0][c])
    && e.slot == g.rows[0][c] && e.date == DateAt(g, r)
    && parse(g.rows[r][c].text).code == Some(e.code)
    && e.section in parse(g.rows[r][c].text).sections
  }

  /** Every entry of the sheet comes from a cell as `FromCell` describes,
      and every section of every such cell is listed. */
  lemma EntryProvenance(parse: string -> CourseInfo, g: Grid, e: Entry)
    requires Rectangular(g) && |g.rows| > 0 && g.width > 0
    ensures e in GridEntries(parse, g) <==> exists r, c :: FromCell(parse, g, r, c, e)
  {
    GridYields(parse, g, e);
    forall r: nat, c: nat
      ensures CellYields(parse, g, r, c, e) <==> FromCell(parse, g, r, c, e)
    {
      CellYieldsFromCell(parse, g, r, c, e);
    }
  }

  /** The sheet yields exactly the entries its data cells yield. */
  lemma GridYields(parse: string -> CourseInfo, g: Grid, e: Entry)
    requires Rectangular(g) && |g.rows| > 0 && g.width > 0
    ensures e in GridEntries(parse, g) <==> exists r, c :: CellYields(parse, g, r, c, e)
  {
    var ls := RowLists(parse, g);
    FlattenMembers(ls, e);
    forall r: nat
      ensures (r < |ls| && e in ls[r]) <==> exists c :: CellYields(parse, g, r, c, e)
    {
      if 1 <= r < |g.rows| {
        RowYields(parse, g, r, e);
      }
    }
  }

  lemma CellYieldsFromCell(parse: string -> CourseInfo, g: Grid, r: nat, c: nat, e: Entry)
    requires Rectangular(g)
    ensures CellYields(parse, g, r, c, e) <==> FromCell(parse, g, r, c, e)
  {
    if 1 <= r < |g.rows| && 1 <= c < g.width {
      SlotsAreHeaders(g, c);
      CellEntryMembers(parse, DateAt(g, r), SlotOf(Slots(g), c), g.rows[r][c], e);
    }
  }

  lemma CellEntryMembers(parse: string -> CourseInfo, date: Option<Cell>, slot: Option<Cell>, cell: Cell, e: Entry)
    ensures e in CellEntries(parse, date, slot, cell) <==>
              && cell.Text? && slot.Some? && parse(cell.text).code.Some?
              && e == Entry(date, slot.value, parse(cell.text).code.value, e.section)
              && e.section in parse(cell.text).sections
  {
    if cell.Text? && slot.Some? && parse(cell.text).code.Some? && e.section in parse(cell.text).sections {
      var secs := parse(cell.text).sections;
      var k :| 0 <= k < |secs| && secs[k] == e.section;
      assert SectionEntries(date, slot.value, parse(cell.text).code.value, secs)[k]
             == Entry(date, slot.value, parse(cell.text).code.value, e.section);
    }
  }

  /** `extract_day_time_course_info` raises on a frame it cannot index:
      reading the header row of an empty frame that has slot columns, or
      column 0 of a data row when there are no columns. */
  predicate Fails(g: Grid)
  {
    (|g.rows| == 0 && g.width >= 2) || (|g.rows| >= 2 && g.width == 0)
  }

  /** The entries of the whole sheet, or `None` when the source raises. */
  function Extracted(parse: string -> CourseInfo, g: Grid): Option<seq<Entry>>
    requires Rectangular(g)
  {
    if Fails(g) then None
    else if |g.rows| == 0 || g.width == 0 then Some([])
    else Some(GridEntries(parse, g))
  }

  /** The column loop of `extract_day_time_course_info` for one row. */
  method ScanRow(g: Grid, slots: map<nat, Cell>, r: nat, date: Option<Cell>) returns (out: seq<Entry>)
    requires Rectangular(g) && r < |g.rows|
    ensures out == RowEntries(ExtractCourseInfo, g, slots, r, date)
  {
    out := [];
    if g.width == 0 {
      assert CellLists(ExtractCourseInfo, g, slots, r, date) == [];
      return;
    }
    var c := 1;
    assert CellLists(ExtractCourseInfo, g, slots, r, date)[..1] == [[]];
    while c < g.width
      invariant 1 <= c <= g.width
      invariant out == Flatten(CellLists(ExtractCourseInfo, g, slots, r, date)[..c])
    {
      var cell := g.rows[r][c];
      var produced: seq<Entry> := [];
      if cell.Text? {
        var slot := SlotOf(slots, c);
        if slot.Some? {
          var info := ExtractCourseInfo(cell.text);
          if info.code.Some? && info.sections != [] {
            produced := AppendSections(date, slot.value, info.code.value, info.sections);
          }
        }
      }
      FlattenPrefixSnoc(CellLists(ExtractCourseInfo, g, slots, r, date), c);
      out := out + produced;
      c := c + 1;
    }
    assert CellLists(ExtractCourseInfo, g, slots, r, date)[..c] == CellLists(ExtractCourseInfo, g, slots, r, date);
  }

  /** `extract_day_time_course_info`: the header map, then the rows in
      order carrying the date down, then the columns of each row. */
  method ExtractDayTimeCourseInfo(g: Grid) returns (result: Option<seq<Entry>>)
    requires Rectangular(g)
    ensures result == Extracted(ExtractCourseInfo, g)
  {
    if Fails(g) {
      return None;
    }
    if |g.rows| == 0 || g.width == 0 {
      return Some([]);
    }
    var slots := HeaderSlots(g);
    var entries: seq<Entry> := [];
    var date: Option<Cell> := None;
    var r := 1;
    assert RowLists(ExtractCourseInfo, g)[..1] == [[]];
    while r < |g.rows|
      invariant 1 <= r <= |g.rows|
      invariant date == DateAt(g, r - 1)
      invariant entries == Flatten(RowLists(ExtractCourseInfo, g)[..r])
    {
      if Present(g.rows[r][0]) {
        date := Some(g.rows[r][0]);
      }
      var produced := ScanRow(g, slots, r, date);
      FlattenPrefixSnoc(RowLists(ExtractCourseInfo, g), r);
      entries := entries + produced;
      r := r + 1;
    }
    assert RowLists(ExtractCourseInfo, g)[..r] == RowLists(ExtractCourseInfo, g);
    return Some(entries);
  }
}
