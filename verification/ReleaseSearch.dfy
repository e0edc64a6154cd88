/**
 The release search: how a requested year and month become a half-open date range, what that range
 selects, and the page the filtered query returns.
 */
module ReleaseSearch {
  import opened Wrappers
  import opened Catalog
  import opened Calendar
  import opened OrderedSets
  import opened Keyset

  datatype DateParameters = DateParameters(start: Option<Date>, end: Option<Date>, month: Option<int>)

  /** releaseDateParameters. */
  function ReleaseDateParameters(year: Option<int>, month: Option<int>): (p: DateParameters)
    ensures p.start.Some? <==> p.end.Some?
    ensures p.start.Some? ==> ValidDate(p.start.value) && ValidDate(p.end.value)
  {
    if year.None? then DateParameters(None, None, month)
    else
      var selected := if month.Some? then month.value else 1;
      var start := GoDate(year.value, selected, 1);
      var end := if month.Some? then AddDate(start, 0, 1) else AddDate(start, 1, 0);
      DateParameters(Some(start), Some(end), None)
  }

  ghost predicate ValidRow(row: Release) {
    row.date.Some? ==> ValidDate(row.date.value)
  }

  /** The two date conditions of the WHERE clause. */
  ghost predicate DateClause(p: DateParameters, row: Release)
    requires ValidRow(row)
    requires p.start.Some? <==> p.end.Some?
    requires p.start.Some? ==> ValidDate(p.start.value) && ValidDate(p.end.value)
  {
    && (p.start.None? || (row.hasValidYear && row.date.Some? && Between(p.start.value, row.date.value, p.end.value)))
    && (p.month.None? || (row.hasValidMonth && row.date.Some? && row.date.value.month == p.month.value))
  }

  /** The row's date falls in the requested year, and in the requested month when one is given. */
  ghost predicate FieldsMatch(year: int, month: Option<int>, d: Date) {
    d.year == year && (month.None? || d.month == month.value)
  }

  /**
   The range is the field test: for every date, every year and every month, lying between start
   and end means having that year and month. Leap years and the December rollover included.
   */
  lemma RangeIsFieldTest(year: int, month: Option<int>, d: Date)
    requires ValidDate(d) && (month.Some? ==> 1 <= month.value <= 12)
    ensures var p := ReleaseDateParameters(Some(year), month);
      Between(p.start.value, d, p.end.value) <==> FieldsMatch(year, month, d)
  {
    var p := ReleaseDateParameters(Some(year), month);
    var start, end := p.start.value, p.end.value;
    assert start == Date(year, if month.Some? then month.value else 1, 1);
    if month.None? {
      assert end == Date(year + 1, 1, 1);
    } else if month.value == 12 {
      assert end == Date(year + 1, 1, 1);
    } else {
      assert end == Date(year, month.value + 1, 1);
    }
    FirstOfMonthSplits(start.year, start.month, d);
    FirstOfMonthSplits(end.year, end.month, d);
  }

  ghost predicate InMonthRange(year: int, month: int, d: Date)
    requires ValidDate(d)
  {
    var p := ReleaseDateParameters(Some(year), Some(month));
    Between(p.start.value, d, p.end.value)
  }

  ghost predicate InYearRange(year: int, d: Date)
    requires ValidDate(d)
  {
    var p := ReleaseDateParameters(Some(year), None);
    Between(p.start.value, d, p.end.value)
  }

  /** The twelve month ranges partition the year range. */
  lemma MonthsPartitionYear(year: int, d: Date)
    requires ValidDate(d)
    ensures InYearRange(year, d) <==> exists m :: 1 <= m <= 12 && InMonthRange(year, m, d)
    ensures forall m, n :: 1 <= m < n <= 12 ==> !(InMonthRange(year, m, d) && InMonthRange(year, n, d))
  {
    RangeIsFieldTest(year, None, d);
    forall m | 1 <= m <= 12 ensures InMonthRange(year, m, d) <==> FieldsMatch(year, Some(m), d) {
      RangeIsFieldTest(year, Some(m), d);
    }
    if InYearRange(year, d) { assert InMonthRange(year, d.month, d); }
  }

  // ---------------------------------------------------------------- agreement with the response

  /** extract(year FROM date): there is no year 0, so 1 BC reads as -1. */
  function ExtractYear(d: Date): int { if d.year > 0 then d.year else d.year - 1 }

  /** released_year and released_month of the response. */
  function ReleasedYear(row: Release): Option<int> {
    if row.hasValidYear && row.date.Some? then Some(ExtractYear(row.date.value)) else None
  }

  function ReleasedMonth(row: Release): Option<int> {
    if row.hasValidMonth && row.date.Some? then Some(row.date.value.month) else None
  }

  ghost predicate ShowsRequested(year: int, month: Option<int>, row: Release) {
    ReleasedYear(row) == Some(year) && (month.None? || ReleasedMonth(row) == month)
  }

  ghost predicate Selected(year: int, month: Option<int>, row: Release)
    requires ValidRow(row)
  {
    DateClause(ReleaseDateParameters(Some(year), month), row)
  }

  lemma SelectedMeaning(year: int, month: Option<int>, row: Release)
    requires ValidRow(row) && (month.Some? ==> 1 <= month.value <= 12)
    ensures Selected(year, month, row) <==>
      row.hasValidYear && row.date.Some? && FieldsMatch(year, month, row.date.value)
  {
    if row.date.Some? { RangeIsFieldTest(year, month, row.date.value); }
  }

  /**
   Filter and response agree on a row exactly when, should its stored date carry a valid year and
   fall in the requested period, the year is positive and, for a month, its month is valid. Year 0 selects the rows of 1 BC, which show -1; and once a year is
   given the month flag is not consulted, so a row whose month is not known can be selected by the
   month its stored date happens to carry.
   */
  lemma FilterAgreesWithResponse(year: int, month: Option<int>, row: Release)
    requires ValidRow(row) && 0 <= year <= 32767 && (month.Some? ==> 1 <= month.value <= 12)
    ensures ShowsRequested(year, month, row) ==> Selected(year, month, row)
    ensures (Selected(year, month, row) <==> ShowsRequested(year, month, row)) <==>
      (row.hasValidYear && row.date.Some? && FieldsMatch(year, month, row.date.value) ==>
        year >= 1 && (month.Some? ==> row.hasValidMonth))
  {
    SelectedMeaning(year, month, row);
  }

  /** Both disagreements occur. */
  lemma FilterDisagreements()
    ensures var row := Release(None, None, Some(Date(2000, 1, 1)), true, false, None, None);
      Selected(2000, Some(1), row) && ReleasedMonth(row) == None
    ensures var row := Release(None, None, Some(Date(0, 6, 1)), true, true, None, None);
      Selected(0, None, row) && ReleasedYear(row) == Some(-1)
  {
    SelectedMeaning(2000, Some(1), Release(None, None, Some(Date(2000, 1, 1)), true, false, None, None));
    SelectedMeaning(0, None, Release(None, None, Some(Date(0, 6, 1)), true, true, None, None));
  }

  // ---------------------------------------------------------------- the search query

  /** catalog.ReleaseFilter after optionalText has turned blank text into no condition. */
  datatype Filter = Filter(title: Option<string>, country: Option<string>, year: Option<int>, month: Option<int>, master: Option<bool>)

  ghost predicate TextClauses(engine: Engine, f: Filter, row: Release) {
    && (f.title.None? || (row.title.Some? && engine.contains(row.title.value, f.title.value)))
    && (f.country.None? || (row.country.Some? && engine.lower(row.country.value) == engine.lower(f.country.value)))
    && (f.master.None? || row.isMaster == f.master)
  }

  ghost predicate ValidRows(db: Database) {
    forall id :: id in db.releases ==> ValidRow(db.releases[id])
  }

  /** searchReleasesSQL. */
  ghost function Query(engine: Engine, db: Database, f: Filter, after: int, k: nat): seq<Item<Release>>
    requires ValidRows(db)
  {
    var p := ReleaseDateParameters(f.year, f.month);
    var keys := set id | id in db.releases && TextClauses(engine, f, db.releases[id]) && DateClause(p, db.releases[id]) && id > after;
    FirstKFrom(keys, k);
    Rows(db.releases, FirstK(keys, k))
  }

  ghost predicate Matches(engine: Engine, f: Filter, row: Release) {
    && (f.title.Some? ==> row.title.Some? && engine.contains(row.title.value, f.title.value))
    && (f.country.Some? ==> row.country.Some? && engine.lower(row.country.value) == engine.lower(f.country.value))
    && (f.master.Some? ==> row.isMaster.Some? && row.isMaster.value == f.master.value)
    && (f.year.Some? ==> row.hasValidYear && row.date.Some? && FieldsMatch(f.year.value, f.month, row.date.value))
    && (f.year.None? && f.month.Some? ==> row.hasValidMonth && row.date.Some? && row.date.value.month == f.month.value)
  }

  /** The unbounded search result, by the fields a row must have. */
  ghost function Listing(engine: Engine, db: Database, f: Filter): map<int, Release> {
    map id | id in db.releases && Matches(engine, f, db.releases[id]) :: db.releases[id]
  }

  /** The search query is the keyset page of the releases whose fields match. */
  lemma QueryIsPage(engine: Engine, db: Database, f: Filter, after: int, k: nat)
    requires ValidRows(db) && (f.month.Some? ==> 1 <= f.month.value <= 12)
    ensures Query(engine, db, f, after, k) == Fetch(Listing(engine, db, f), Some(after), k)
  {
    var p := ReleaseDateParameters(f.year, f.month);
    var keys := set id | id in db.releases && TextClauses(engine, f, db.releases[id]) && DateClause(p, db.releases[id]) && id > after;
    var listing := Listing(engine, db, f);
    forall id | id in db.releases ensures DateClause(p, db.releases[id]) && TextClauses(engine, f, db.releases[id]) <==> id in listing {
      if f.year.Some? { SelectedMeaning(f.year.value, f.month, db.releases[id]); }
    }
    assert keys == Beyond(listing, Some(after));
    RowsDetermined(db.releases, Query(engine, db, f, after, k), Fetch(listing, Some(after), k));
  }
}
