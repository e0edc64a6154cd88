/**
 The release collection endpoint: one query string ends in one outcome, a refusal or one call to
 one of three readers. `Search` follows the handler step by step; the `Accepts` predicates say
 what a request must look like, without saying in which order the handler looks.
 */
module ReleaseQuery {
  import opened Wrappers
  import opened Text
  import opened Pagination
  import ReleaseSearch
  import HashCursor
  import Catalog
  import Collation
  import LabelReleases

  const MINIMUM_SEARCH_LENGTH := 3
  const MAXIMUM_SEARCH_LENGTH := 200
  const MAXIMUM_COUNTRY_LENGTH := 255
  const MAXIMUM_CATALOG_NUMBER_LENGTH := 1000
  const MAXIMUM_IDENTIFIER_TYPE_LENGTH := 255
  const MAXIMUM_IDENTIFIER_VALUE_LENGTH := 4096
  const MAXIMUM_YEAR := 32767

  datatype Parameter =
    AfterID | Size | Title | Country | Year | Month | Master | LabelID | CatalogNumber | IdentifierType | IdentifierValue

  /** url.Values restricted to the parameters this endpoint reads. */
  type Values = map<Parameter, seq<Raw>>

  function Get(values: Values, p: Parameter): Raw {
    if p in values && values[p] != [] then values[p][0] else Chars("")
  }

  predicate HasText(raw: Raw) { !IsBlank(raw) }

  // ---------------------------------------------------------------- request.go

  /** optionalTextFilter: None is the error, the empty text means the filter is absent. */
  function OptionalTextFilter(raw: Raw, minimum: nat, maximum: nat): Option<string> {
    if raw.Malformed? then None
    else
      var normalized := TrimSpace(raw.text);
      if normalized == "" then Some("")
      else if |normalized| < minimum || |normalized| > maximum then None
      else Some(normalized)
  }

  /** requiredTextFilter. */
  function RequiredTextFilter(raw: Raw, minimum: nat, maximum: nat): Option<string> {
    var value := OptionalTextFilter(raw, minimum, maximum);
    if value.None? || value.value == "" then None else value
  }

  /** optionalInt: the outer None is the error. */
  function OptionalInt(raw: Raw, minimum: int, maximum: int): Option<Option<int>> {
    if IsBlank(raw) then Some(None)
    else
      var value := ParseBounded(raw, 0, minimum, maximum);
      if value.None? then None else Some(value)
  }

  /** strconv.ParseBool. */
  function ParseBool(s: string): Option<bool> {
    if s in ["1", "t", "T", "TRUE", "true", "True"] then Some(true)
    else if s in ["0", "f", "F", "FALSE", "false", "False"] then Some(false)
    else None
  }

  /** optionalBool. */
  function OptionalBool(raw: Raw): Option<Option<bool>> {
    if IsBlank(raw) then Some(None)
    else if raw.Malformed? then None
    else
      var value := ParseBool(raw.text);
      if value.None? then None else Some(value)
  }

  // ---------------------------------------------------------------- release_lookup.go

  datatype ReleaseLookup =
    | NoLookup
    | NumberLookup(labelID: int, number: string)
    | IdentifierLookup(kind: string, value: string)

  predicate HasStandardReleaseFilter(values: Values) {
    || HasText(Get(values, Title)) || HasText(Get(values, Country)) || HasText(Get(values, Year))
    || HasText(Get(values, Month)) || HasText(Get(values, Master))
  }

  function ParseCatalogNumberLookup(values: Values): Option<ReleaseLookup> {
    if LabelID !in values || CatalogNumber !in values then None
    else if !HasText(Get(values, LabelID)) then None
    else
      var labelID := ParseBounded(Get(values, LabelID), 0, 1, MAXIMUM_RESOURCE_ID);
      if labelID.None? then None
      else
        var number := RequiredTextFilter(Get(values, CatalogNumber), 1, MAXIMUM_CATALOG_NUMBER_LENGTH);
        if number.None? then None else Some(NumberLookup(labelID.value, number.value))
  }

  function ParseIdentifierLookup(values: Values): Option<ReleaseLookup> {
    if IdentifierType !in values || IdentifierValue !in values then None
    else
      var kind := RequiredTextFilter(Get(values, IdentifierType), 1, MAXIMUM_IDENTIFIER_TYPE_LENGTH);
      if kind.None? then None
      else
        var value := RequiredTextFilter(Get(values, IdentifierValue), 1, MAXIMUM_IDENTIFIER_VALUE_LENGTH);
        if value.None? then None else Some(IdentifierLookup(kind.value, value.value))
  }

  /** parseReleaseLookup. */
  function ParseReleaseLookup(values: Values): Option<ReleaseLookup> {
    var hasCatalogLookup := LabelID in values || CatalogNumber in values;
    var hasIdentifierLookup := IdentifierType in values || IdentifierValue in values;
    if hasCatalogLookup && hasIdentifierLookup then None
    else if !hasCatalogLookup && !hasIdentifierLookup then Some(NoLookup)
    else if HasStandardReleaseFilter(values) then None
    else if hasCatalogLookup then ParseCatalogNumberLookup(values)
    else ParseIdentifierLookup(values)
  }

  // ---------------------------------------------------------------- release.go

  /** catalog.ReleaseFilter; empty text means no condition. */
  datatype ReleaseFilter = ReleaseFilter(title: string, country: string, year: Option<int>, month: Option<int>, master: Option<bool>)

  /** What the handler does: refuse without touching the repository, or one call to one reader. */
  datatype Outcome =
    | BadRequest
    | SearchReleases(filter: ReleaseFilter, page: PageRequest)
    | ReleasesByCatalogNumber(labelID: int, number: string, page: PageRequest)
    | ReleasesByIdentifier(kind: string, value: string, page: PageRequest)

  function ParseFilter(values: Values): Option<ReleaseFilter> {
    var title := OptionalTextFilter(Get(values, Title), MINIMUM_SEARCH_LENGTH, MAXIMUM_SEARCH_LENGTH);
    if title.None? then None else
    var country := OptionalTextFilter(Get(values, Country), 1, MAXIMUM_COUNTRY_LENGTH);
    if country.None? then None else
    var year := OptionalInt(Get(values, Year), 0, MAXIMUM_YEAR);
    if year.None? then None else
    var month := OptionalInt(Get(values, Month), 1, 12);
    if month.None? then None else
    if month.value.Some? && year.value.None? then None else
    var master := OptionalBool(Get(values, Master));
    if master.None? then None else
    Some(ReleaseFilter(title.value, country.value, year.value, month.value, master.value))
  }

  /** ReleaseHandler.Search. */
  function Search(values: Values): Outcome {
    var page := ParseCursorPage(Get(values, AfterID), Get(values, Size));
    if page.None? then BadRequest
    else
      var lookup := ParseReleaseLookup(values);
      if lookup.None? then BadRequest
      else
        match lookup.value
        case NumberLookup(labelID, number) => ReleasesByCatalogNumber(labelID, number, page.value)
        case IdentifierLookup(kind, value) => ReleasesByIdentifier(kind, value, page.value)
        case NoLookup =>
          var filter := ParseFilter(values);
          if filter.None? then BadRequest else SearchReleases(filter.value, page.value)
  }

  // ---------------------------------------------------------------- what a request must look like

  /** `text` is the parameter without outer white space, and it has an admissible length. */
  ghost predicate NamesText(raw: Raw, minimum: nat, maximum: nat, text: string) {
    raw.Chars? && text == TrimSpace(raw.text) && text != "" && minimum <= |text| <= maximum
  }

  ghost predicate NoStandardFilter(values: Values) {
    forall p :: p in {Title, Country, Year, Month, Master} ==> IsAbsent(Get(values, p))
  }

  ghost predicate AcceptsNumberLookup(values: Values, labelID: int, number: string) {
    && LabelID in values && CatalogNumber in values
    && IdentifierType !in values && IdentifierValue !in values
    && NoStandardFilter(values)
    && NamesNumber(Get(values, LabelID), 1, 0x7FFF_FFFF, labelID)
    && NamesText(Get(values, CatalogNumber), 1, 1000, number)
  }

  ghost predicate AcceptsIdentifierLookup(values: Values, kind: string, value: string) {
    && IdentifierType in values && IdentifierValue in values
    && LabelID !in values && CatalogNumber !in values
    && NoStandardFilter(values)
    && NamesText(Get(values, IdentifierType), 1, 255, kind)
    && NamesText(Get(values, IdentifierValue), 1, 4096, value)
  }

  ghost predicate NamesOptionalText(raw: Raw, minimum: nat, maximum: nat, text: string) {
    if IsAbsent(raw) then text == "" else NamesText(raw, minimum, maximum, text)
  }

  ghost predicate NamesOptionalNumber(raw: Raw, minimum: int, maximum: int, n: Option<int>) {
    if IsAbsent(raw) then n == None else n.Some? && NamesNumber(raw, minimum, maximum, n.value)
  }

  ghost predicate NamesOptionalBool(raw: Raw, b: Option<bool>) {
    match b
    case None => IsAbsent(raw)
    case Some(true) => raw.Chars? && raw.text in {"1", "t", "T", "TRUE", "true", "True"}
    case Some(false) => raw.Chars? && raw.text in {"0", "f", "F", "FALSE", "false", "False"}
  }

  ghost predicate AcceptsFilter(values: Values, f: ReleaseFilter) {
    && (forall p :: p in {LabelID, CatalogNumber, IdentifierType, IdentifierValue} ==> p !in values)
    && NamesOptionalText(Get(values, Title), 3, 200, f.title)
    && NamesOptionalText(Get(values, Country), 1, 255, f.country)
    && NamesOptionalNumber(Get(values, Year), 0, 32767, f.year)
    && NamesOptionalNumber(Get(values, Month), 1, 12, f.month)
    && (f.month.Some? ==> f.year.Some?)
    && NamesOptionalBool(Get(values, Master), f.master)
  }

  lemma RequiredTextMeaning(raw: Raw, minimum: nat, maximum: nat, text: string)
    ensures RequiredTextFilter(raw, minimum, maximum) == Some(text) <==> NamesText(raw, minimum, maximum, text)
  {
  }

  lemma OptionalTextMeaning(raw: Raw, minimum: nat, maximum: nat, text: string)
    ensures OptionalTextFilter(raw, minimum, maximum) == Some(text) <==> NamesOptionalText(raw, minimum, maximum, text)
  {
    hide TrimSpace;
    BlankMeansAbsent(raw);
  }

  lemma OptionalIntMeaning(raw: Raw, minimum: int, maximum: int, n: Option<int>)
    requires MIN_INT64 <= minimum && maximum <= MAX_INT64
    ensures OptionalInt(raw, minimum, maximum) == Some(n) <==> NamesOptionalNumber(raw, minimum, maximum, n)
  {
    hide TrimSpace, ParseBounded, NamesNumber;
    BlankMeansAbsent(raw);
    if n.Some? { BoundedMeaning(raw, 0, minimum, maximum, n.value); }
  }

  lemma BooleanWordsAreNotBlank(text: string)
    requires ParseBool(text).Some?
    ensures !Blank(text)
  {
    assert !IsSpace(text[0]);
  }

  lemma OptionalBoolMeaning(raw: Raw, b: Option<bool>)
    ensures OptionalBool(raw) == Some(b) <==> NamesOptionalBool(raw, b)
  {
    hide TrimSpace;
    BlankMeansAbsent(raw);
    if raw.Chars? && ParseBool(raw.text).Some? { BooleanWordsAreNotBlank(raw.text); }
  }

  lemma StandardFilterMeaning(values: Values)
    ensures HasStandardReleaseFilter(values) <==> !NoStandardFilter(values)
  {
    hide IsBlank, IsAbsent, Get;
    BlankMeansAbsent(Get(values, Title));
    BlankMeansAbsent(Get(values, Country));
    BlankMeansAbsent(Get(values, Year));
    BlankMeansAbsent(Get(values, Month));
    BlankMeansAbsent(Get(values, Master));
  }

  lemma NumberLookupMeaning(values: Values, labelID: int, number: string)
    ensures ParseReleaseLookup(values) == Some(NumberLookup(labelID, number)) <==> AcceptsNumberLookup(values, labelID, number)
  {
    hide IsBlank, IsAbsent, Get, ParseBounded, RequiredTextFilter, NamesNumber, NamesText, HasStandardReleaseFilter, NoStandardFilter;
    StandardFilterMeaning(values);
    var raw := Get(values, LabelID);
    BlankMeansAbsent(raw);
    RequiredTextMeaning(Get(values, CatalogNumber), 1, MAXIMUM_CATALOG_NUMBER_LENGTH, number);
    BoundedMeaning(raw, 0, 1, MAXIMUM_RESOURCE_ID, labelID);
    if IsAbsent(raw) { AbsentNamesNothing(raw, 1, MAXIMUM_RESOURCE_ID, labelID); }
  }

  lemma AbsentNamesNothing(raw: Raw, minimum: int, maximum: int, n: int)
    requires IsAbsent(raw)
    ensures !NamesNumber(raw, minimum, maximum, n)
  {
    ParseIntMeaning(raw.text, n, n, n);
  }

  lemma IdentifierLookupMeaning(values: Values, kind: string, value: string)
    ensures ParseReleaseLookup(values) == Some(IdentifierLookup(kind, value)) <==> AcceptsIdentifierLookup(values, kind, value)
  {
    hide IsBlank, IsAbsent, Get, ParseBounded, RequiredTextFilter, NamesNumber, NamesText, HasStandardReleaseFilter, NoStandardFilter;
    StandardFilterMeaning(values);
    RequiredTextMeaning(Get(values, IdentifierType), 1, MAXIMUM_IDENTIFIER_TYPE_LENGTH, kind);
    RequiredTextMeaning(Get(values, IdentifierValue), 1, MAXIMUM_IDENTIFIER_VALUE_LENGTH, value);
  }

  lemma FilterMeaning(values: Values, f: ReleaseFilter)
    ensures ParseReleaseLookup(values) == Some(NoLookup) && ParseFilter(values) == Some(f) <==> AcceptsFilter(values, f)
  {
    hide IsBlank, IsAbsent, Get, OptionalTextFilter, OptionalInt, OptionalBool, NamesOptionalText, NamesOptionalNumber, NamesOptionalBool;
    OptionalTextMeaning(Get(values, Title), MINIMUM_SEARCH_LENGTH, MAXIMUM_SEARCH_LENGTH, f.title);
    OptionalTextMeaning(Get(values, Country), 1, MAXIMUM_COUNTRY_LENGTH, f.country);
    OptionalIntMeaning(Get(values, Year), 0, MAXIMUM_YEAR, f.year);
    OptionalIntMeaning(Get(values, Month), 1, 12, f.month);
    OptionalBoolMeaning(Get(values, Master), f.master);
  }

  // ---------------------------------------------------------------- the decision procedure

  /**
   Which reader is called, if any, is decided by the shape of the request alone: a lookup needs
   both its halves, no half of the other lookup and no other filter; a search needs no lookup key
   at all and every filter well formed, with a year whenever there is a month.
   */
  lemma DispatchMeaning(values: Values, outcome: Outcome)
    requires !outcome.BadRequest?
    ensures Search(values) == outcome <==>
      && NamesPage(Get(values, AfterID), Get(values, Size), outcome.page)
      && match outcome
         case ReleasesByCatalogNumber(labelID, number, _) => AcceptsNumberLookup(values, labelID, number)
         case ReleasesByIdentifier(kind, value, _) => AcceptsIdentifierLookup(values, kind, value)
         case SearchReleases(filter, _) => AcceptsFilter(values, filter)
  {
    hide ParseCursorPage, ParseReleaseLookup, ParseFilter, AcceptsNumberLookup, AcceptsIdentifierLookup, AcceptsFilter, NamesPage;
    PageRequestMeaning(Get(values, AfterID), Get(values, Size), outcome.page);
    match outcome
    case ReleasesByCatalogNumber(labelID, number, _) => NumberLookupMeaning(values, labelID, number);
    case ReleasesByIdentifier(kind, value, _) => IdentifierLookupMeaning(values, kind, value);
    case SearchReleases(filter, _) => FilterMeaning(values, filter);
  }

  /** The first value of each parameter. */
  function FirstOnly(values: Values): Values {
    map p | p in values :: if values[p] == [] then [] else [values[p][0]]
  }

  /** Of a repeated parameter only the first value counts. */
  lemma RepeatsAreIgnored(values: Values)
    ensures Search(values) == Search(FirstOnly(values))
  {
    hide ParseCursorPage, OptionalTextFilter, RequiredTextFilter, OptionalInt, OptionalBool, HasText, ParseBounded;
    forall p ensures Get(FirstOnly(values), p) == Get(values, p) && (p in FirstOnly(values) <==> p in values) {}
    hide Get, FirstOnly;
  }

  /** optionalText of the storage layer. */
  function OptionalText(raw: string): Option<string> {
    var normalized := TrimSpace(raw);
    if normalized == "" then None else Some(normalized)
  }

  /** The filter as SearchReleases passes it to its query. */
  function StoredFilter(f: ReleaseFilter): ReleaseSearch.Filter {
    ReleaseSearch.Filter(OptionalText(f.title), OptionalText(f.country), f.year, f.month, f.master)
  }

  ghost predicate CleanText(text: string, minimum: nat, maximum: nat) {
    text == TrimSpace(text) && minimum <= |text| <= maximum
  }

  lemma NamedTextIsClean(raw: Raw, minimum: nat, maximum: nat, text: string)
    requires NamesText(raw, minimum, maximum, text)
    ensures CleanText(text, minimum, maximum)
  {
    var before, after := TrimSpaceDrops(raw.text);
    TrimSpaceFixesTrimmed(text);
  }

  /**
   Whatever reaches a reader is within its documented bounds, carries no outer white space, and
   is left unchanged by the storage layer's own normalisation.
   */
  lemma AcceptedInputIsClean(values: Values)
    ensures match Search(values)
      case BadRequest => true
      case ReleasesByCatalogNumber(labelID, number, _) =>
        1 <= labelID <= MAXIMUM_RESOURCE_ID && CleanText(number, 1, MAXIMUM_CATALOG_NUMBER_LENGTH)
      case ReleasesByIdentifier(kind, value, _) =>
        CleanText(kind, 1, MAXIMUM_IDENTIFIER_TYPE_LENGTH) && CleanText(value, 1, MAXIMUM_IDENTIFIER_VALUE_LENGTH)
      case SearchReleases(f, _) =>
        && (f.title == "" || CleanText(f.title, MINIMUM_SEARCH_LENGTH, MAXIMUM_SEARCH_LENGTH))
        && (f.country == "" || CleanText(f.country, 1, MAXIMUM_COUNTRY_LENGTH))
        && (f.month.Some? ==> f.year.Some? && 0 <= f.year.value <= MAXIMUM_YEAR && 1 <= f.month.value <= 12)
        && StoredFilter(f).title == (if f.title == "" then None else Some(f.title))
        && StoredFilter(f).country == (if f.country == "" then None else Some(f.country))
        && StoredFilter(f).year == f.year && StoredFilter(f).month == f.month && StoredFilter(f).master == f.master
    ensures !Search(values).BadRequest? ==>
      0 <= Search(values).page.afterID <= MAXIMUM_RESOURCE_ID && 1 <= Search(values).page.size <= MAXIMUM_PAGE_SIZE
  {
    hide Search, TrimSpace, Get, Denotes;
    var outcome := Search(values);
    if !outcome.BadRequest? { DispatchMeaning(values, outcome); }
    match outcome
    case BadRequest =>
    case ReleasesByCatalogNumber(labelID, number, _) =>
      NamedTextIsClean(Get(values, CatalogNumber), 1, MAXIMUM_CATALOG_NUMBER_LENGTH, number);
    case ReleasesByIdentifier(kind, value, _) =>
      NamedTextIsClean(Get(values, IdentifierType), 1, MAXIMUM_IDENTIFIER_TYPE_LENGTH, kind);
      NamedTextIsClean(Get(values, IdentifierValue), 1, MAXIMUM_IDENTIFIER_VALUE_LENGTH, value);
    case SearchReleases(f, _) =>
      TrimSpaceFixesTrimmed("");
      if f.title != "" { NamedTextIsClean(Get(values, Title), MINIMUM_SEARCH_LENGTH, MAXIMUM_SEARCH_LENGTH, f.title); }
      if f.country != "" { NamedTextIsClean(Get(values, Country), 1, MAXIMUM_COUNTRY_LENGTH, f.country); }
  }

  ghost predicate RowAnswers(engine: Catalog.Engine, f: ReleaseFilter, row: Catalog.Release) {
    && (f.title != "" ==> row.title.Some? && engine.contains(row.title.value, f.title))
    && (f.country != "" ==> row.country.Some? && engine.lower(row.country.value) == engine.lower(f.country))
    && (f.year.Some? ==> row.hasValidYear && row.date.Some? && row.date.value.year == f.year.value)
    && (f.month.Some? ==> row.date.Some? && row.date.value.month == f.month.value)
    && (f.master.Some? ==> row.isMaster == f.master)
  }

  /** From the request to the rows: a search lists the stored releases that meet each filter of the request. */
  lemma SearchListsAnswers(values: Values, engine: Catalog.Engine, db: Catalog.Database, f: ReleaseFilter, page: PageRequest, id: int)
    requires Search(values) == SearchReleases(f, page)
    ensures id in ReleaseSearch.Listing(engine, db, StoredFilter(f)) <==> id in db.releases && RowAnswers(engine, f, db.releases[id])
  {
    hide Search, TrimSpace;
    AcceptedInputIsClean(values);
  }

  /**
   Some stored catalog numbers cannot be asked for: a number is reachable by lookup exactly when it
   has no outer white space and at most 1000 characters.
   */
  lemma ReachableNumbers(number: string)
    ensures (exists values: Values, labelID: int, page: PageRequest ::
        Search(values) == ReleasesByCatalogNumber(labelID, number, page)) <==>
      CleanText(number, 1, MAXIMUM_CATALOG_NUMBER_LENGTH)
  {
    if values: Values, labelID: int, page: PageRequest :| Search(values) == ReleasesByCatalogNumber(labelID, number, page) {
      AcceptedInputIsClean(values);
    }
    if CleanText(number, 1, MAXIMUM_CATALOG_NUMBER_LENGTH) {
      var values: Values := map[LabelID := [Chars("1")], CatalogNumber := [Chars(number)]];
      var outcome := ReleasesByCatalogNumber(1, number, PageRequest(0, DEFAULT_PAGE_SIZE));
      RequestForNumber(values, number);
      DispatchMeaning(values, outcome);
      assert Search(values) == outcome;
    }
  }

  lemma NumeralOne()
    ensures NamesNumber(Chars("1"), 1, 0x7FFF_FFFF, 1)
  {
    assert FormatInt(1) == "1";
    ParseFormatInt(1, MIN_INT64, MAX_INT64);
    ParseIntMeaning("1", MIN_INT64, MAX_INT64, 1);
    hide Denotes, ParseInt;
  }

  lemma RequestForNumber(values: Values, number: string)
    requires CleanText(number, 1, MAXIMUM_CATALOG_NUMBER_LENGTH)
    requires values == map[LabelID := [Chars("1")], CatalogNumber := [Chars(number)]]
    ensures AcceptsNumberLookup(values, 1, number)
    ensures NamesPage(Get(values, AfterID), Get(values, Size), PageRequest(0, DEFAULT_PAGE_SIZE))
  {
    hide NamesNumber, TrimSpace;
    NumeralOne();
    assert IsAbsent(Chars(""));
  }

  /** A catalog with one release, on one label, under this number. */
  function NumberOnly(number: string): (db: Catalog.Database)
    ensures Catalog.Valid(db)
  {
    Catalog.Database(
      map[1 := Catalog.Release(None, None, None, false, false, None, None)], map[], map[1 := None], [], [],
      [Catalog.LabelRelease(1, 1, Some(number))], [], [])
  }

  /** Any stored number is listed, whether or not it can be looked up. */
  lemma StoredNumberIsListed(engine: Catalog.Engine, number: string)
    requires Collation.TotalOrder(engine.collation)
    ensures var listing := LabelReleases.Listing(engine, NumberOnly(number), 1);
      1 in listing && number in listing[1].catalogNumbers
  {
    var db := NumberOnly(number);
    assert db.labelReleases[0] == Catalog.LabelRelease(1, 1, Some(number));
    LabelReleases.LookupAgreesWithListing(engine, db, 1, number, 1);
  }

  /** A number with a leading space is listed, and no request at all asks for it. */
  lemma ListedButUnreachable(engine: Catalog.Engine)
    requires Collation.TotalOrder(engine.collation)
    ensures var listing := LabelReleases.Listing(engine, NumberOnly(" A"), 1); 1 in listing && " A" in listing[1].catalogNumbers
    ensures forall values: Values, labelID: int, page: PageRequest :: Search(values) != ReleasesByCatalogNumber(labelID, " A", page)
  {
    hide Search, LabelReleases.Listing;
    StoredNumberIsListed(engine, " A");
    ReachableNumbers(" A");
    assert IsSpace(" A"[0]);
    var before, after := TrimSpaceDrops(" A");
    assert TrimSpace(" A") != " A";
  }

  // ---------------------------------------------------------------- child collections

  /** pathID. */
  function PathID(raw: Raw): Option<int> {
    if raw.Malformed? then None
    else
      var id := ParseInt(raw.text, MIN_INT64, MAX_INT64);
      if id.None? || id.value < 1 || id.value > MAXIMUM_RESOURCE_ID then None else id
  }

  /** The path names a resource exactly when it is a numeral in the range of resource IDs. */
  lemma PathIDMeaning(raw: Raw, id: int)
    ensures PathID(raw) == Some(id) <==> NamesNumber(raw, 1, 0x7FFF_FFFF, id)
  {
    if raw.Chars? { ParseIntMeaning(raw.text, MIN_INT64, MAX_INT64, id); }
    hide ParseInt, Denotes;
  }

  /** releaseChildRequest. */
  function ReleaseChildRequest(id: Raw, cursor: Raw, size: Raw): Option<(int, HashPageRequest)> {
    if PathID(id).None? then None
    else if ParseHashCursorPage(cursor, size).None? then None
    else Some((PathID(id).value, ParseHashCursorPage(cursor, size).value))
  }

  /** A child request is accepted exactly when path, cursor and size are, and carries what they say. */
  lemma ChildRequestMeaning(id: Raw, cursor: Raw, size: Raw, release: int, page: HashPageRequest)
    ensures ReleaseChildRequest(id, cursor, size) == Some((release, page)) <==>
      NamesNumber(id, 1, 0x7FFF_FFFF, release) && NamesHashPage(cursor, size, page)
  {
    hide PathID, ParseHashCursorPage, NamesNumber, NamesHashPage;
    PathIDMeaning(id, release);
    HashPageRequestMeaning(cursor, size, page);
  }

  /** The URL a child page advertises is accepted again and continues after the last row delivered. */
  lemma ChildRequestContinues(release: int, hash: int, size: Raw)
    requires 1 <= release <= MAXIMUM_RESOURCE_ID && MIN_INT32 <= hash <= MAX_INT32 && ParseSize(size).Some?
    ensures ReleaseChildRequest(Chars(FormatInt(release)), Chars(HASH_SCHEME.write(hash)), size) ==
      Some((release, HashPageRequest(Some(hash), ParseSize(size).value)))
  {
    hide FormatInt, ParseInt, HashCursor.DecodeCursor, HashCursor.EncodeHash;
    ParseFormatInt(release, MIN_INT64, MAX_INT64);
    HashSchemeFaithful();
    assert HASH_SCHEME.read(HASH_SCHEME.write(hash)) == Some(Some(hash));
  }
}
