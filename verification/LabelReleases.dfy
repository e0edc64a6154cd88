/**
 A label's releases, with every catalog number of each release, and the exact catalog-number and
 identifier lookups. All three cut to candidate release IDs before they join the release rows.
 */
module LabelReleases {
  import opened Wrappers
  import opened Catalog
  import opened Collation
  import opened OrderedSets
  import opened Relational
  import opened Keyset
  import ReleaseSearch

  datatype LabelReleaseRow = LabelReleaseRow(
    artist: Option<string>, title: Option<string>, year: Option<int>, catalogNumbers: seq<string>)

  // ---------------------------------------------------------------- the label listing

  ghost predicate OnLabel(db: Database, labelID: int, release: int) {
    exists i :: 0 <= i < |db.labelReleases| && db.labelReleases[i].labelID == labelID && db.labelReleases[i].releaseID == release
  }

  ghost predicate HasCatalogNumber(db: Database, labelID: int, release: int, number: string) {
    LabelRelease(labelID, release, Some(number)) in db.labelReleases
  }

  /** The non-null catalog numbers of one label and release, one for each stored row. */
  function NumberRows(rows: seq<LabelRelease>, labelID: int, release: int): seq<string> {
    if rows == [] then []
    else
      (if rows[0].labelID == labelID && rows[0].releaseID == release && rows[0].categoryNotation.Some?
       then [rows[0].categoryNotation.value] else [])
      + NumberRows(rows[1..], labelID, release)
  }

  /** GROUP BY value. */
  function Grouped(values: seq<string>): seq<string> {
    if values == [] then []
    else
      var rest := Grouped(values[1..]);
      if values[0] in rest then rest else [values[0]] + rest
  }

  /** COALESCE(array_agg(... ORDER BY ...), an empty array) over the groups. */
  function CatalogNumbers(engine: Engine, db: Database, labelID: int, release: int): seq<string> {
    SortTexts(engine.collation, Grouped(NumberRows(db.labelReleases, labelID, release)))
  }

  lemma {:induction false} NumberRowsMembers(rows: seq<LabelRelease>, labelID: int, release: int, c: string)
    ensures c in NumberRows(rows, labelID, release) <==> LabelRelease(labelID, release, Some(c)) in rows
  {
    if rows != [] {
      NumberRowsMembers(rows[1..], labelID, release, c);
      assert rows == [rows[0]] + rows[1..];
    }
  }

  lemma {:induction false} GroupedOnce(values: seq<string>)
    ensures forall v :: v in Grouped(values) <==> v in values
    ensures forall i, j :: 0 <= i < j < |Grouped(values)| ==> Grouped(values)[i] != Grouped(values)[j]
  {
    if values != [] {
      GroupedOnce(values[1..]);
      assert values == [values[0]] + values[1..];
    }
  }

  /** The names of the main artists of a release. */
  function ArtistNames(db: Database, rows: seq<MainArtist>, release: int): seq<Option<string>> {
    if rows == [] then []
    else
      (if rows[0].releaseID == release && rows[0].artistID in db.artists then [db.artists[rows[0].artistID]] else [])
      + ArtistNames(db, rows[1..], release)
  }

  ghost function Row(engine: Engine, db: Database, labelID: int, release: int): LabelReleaseRow
    requires TotalOrder(engine.collation) && release in db.releases
  {
    LabelReleaseRow(
      StringAgg(engine.collation, ArtistNames(db, db.mainArtists, release)),
      db.releases[release].title, ReleaseSearch.ReleasedYear(db.releases[release]),
      CatalogNumbers(engine, db, labelID, release))
  }

  /** The unbounded listing: one row per release of the label, whatever number of catalog numbers it has. */
  ghost function Listing(engine: Engine, db: Database, labelID: int): map<int, LabelReleaseRow>
    requires TotalOrder(engine.collation)
  {
    map r | r in db.releases && OnLabel(db, labelID, r) :: Row(engine, db, labelID, r)
  }

  function LabelKeys(db: Database, labelID: int, after: int): set<int> {
    SelectDistinctKeys(db.labelReleases, (row: LabelRelease) => row.labelID == labelID && row.releaseID > after,
      (row: LabelRelease) => row.releaseID)
  }

  /** labelReleasesSQL: distinct release IDs are limited first, then joined and aggregated. */
  ghost function Query(engine: Engine, db: Database, labelID: int, after: int, k: nat): seq<Item<LabelReleaseRow>>
    requires TotalOrder(engine.collation)
  {
    var joined := map r | r in db.releases :: Row(engine, db, labelID, r);
    JoinTable(joined, SortBag(FirstK(LabelKeys(db, labelID, after), k)))
  }

  lemma LabelKeysMembers(db: Database, labelID: int, after: int, r: int)
    ensures r in LabelKeys(db, labelID, after) <==> after < r && OnLabel(db, labelID, r)
  {
    var keep := (row: LabelRelease) => row.labelID == labelID && row.releaseID > after;
    var key := (row: LabelRelease) => row.releaseID;
    SelectMembers(db.labelReleases, keep, key, r);
    if Selected(db.labelReleases, keep, key, r) {
      var i :| 0 <= i < |db.labelReleases| && keep(db.labelReleases[i]) && key(db.labelReleases[i]) == r;
    }
    if after < r && OnLabel(db, labelID, r) {
      var i :| 0 <= i < |db.labelReleases| && db.labelReleases[i].labelID == labelID && db.labelReleases[i].releaseID == r;
      assert keep(db.labelReleases[i]);
    }
  }

  lemma OnLabelStored(db: Database, labelID: int, r: int)
    requires Valid(db) && OnLabel(db, labelID, r)
    ensures r in db.releases
  {
  }

  /** The label query is the keyset page of the one-row-per-release listing. */
  lemma QueryIsPage(engine: Engine, db: Database, labelID: int, after: int, k: nat)
    requires Valid(db) && TotalOrder(engine.collation)
    ensures Query(engine, db, labelID, after, k) == Fetch(Listing(engine, db, labelID), Some(after), k)
  {
    var listing := Listing(engine, db, labelID);
    assert Beyond(listing, Some(after)) == LabelKeys(db, labelID, after) by {
      forall r ensures r in Beyond(listing, Some(after)) <==> r in LabelKeys(db, labelID, after) {
        LabelKeysMembers(db, labelID, after, r);
        if OnLabel(db, labelID, r) { OnLabelStored(db, labelID, r); }
      }
    }
    var joined := map r | r in db.releases :: Row(engine, db, labelID, r);
    JoinedCandidatesArePage(joined, listing, FirstK(LabelKeys(db, labelID, after), k), after, k);
  }

  /**
   Catalog numbers are listed losslessly: in collation order, each once, exactly the stored
   non-null ones.
   */
  lemma CatalogNumbersExact(engine: Engine, db: Database, labelID: int, release: int)
    requires TotalOrder(engine.collation) && release in Listing(engine, db, labelID)
    ensures var numbers := Listing(engine, db, labelID)[release].catalogNumbers;
      && StrictlyOrdered(engine.collation, numbers)
      && forall c :: c in numbers <==> HasCatalogNumber(db, labelID, release, c)
  {
    var values := NumberRows(db.labelReleases, labelID, release);
    GroupedOnce(values);
    SortTextsOrdered(engine.collation, Grouped(values));
    forall c ensures c in SortTexts(engine.collation, Grouped(values)) <==> HasCatalogNumber(db, labelID, release, c) {
      NumberRowsMembers(db.labelReleases, labelID, release, c);
    }
  }

  /** What a delivered row is: a stored release of the label, with its own title and year. */
  lemma RowIsRelease(engine: Engine, db: Database, labelID: int, after: int, k: nat, item: Item<LabelReleaseRow>)
    requires Valid(db) && TotalOrder(engine.collation)
    ensures item in Query(engine, db, labelID, after, k) ==> item.key in db.releases && item.key > after && OnLabel(db, labelID, item.key)
    ensures item in Query(engine, db, labelID, after, k) ==> var release := db.releases[item.key];
      && item.value.title == release.title
      && item.value.year == (if release.hasValidYear && release.date.Some? then Some(ReleaseSearch.ExtractYear(release.date.value)) else None)
  {
    hide Query, Valid, OnLabel, CatalogNumbers, ArtistNames, StringAgg;
    var listing := Listing(engine, db, labelID);
    QueryIsPage(engine, db, labelID, after, k);
    KeyIn(Fetch(listing, Some(after), k), item.key);
    FetchLiesBeyond(listing, Some(after), k);
  }

  ghost predicate NamesMainArtist(db: Database, rows: seq<MainArtist>, release: int, name: Option<string>) {
    exists a :: a in db.artists && MainArtist(release, a) in rows && db.artists[a] == name
  }

  lemma {:induction false} ArtistNamesMembers(db: Database, rows: seq<MainArtist>, release: int, name: Option<string>)
    ensures name in ArtistNames(db, rows, release) <==> NamesMainArtist(db, rows, release, name)
  {
    if rows != [] {
      ArtistNamesMembers(db, rows[1..], release, name);
      if NamesMainArtist(db, rows, release, name) {
        var a :| a in db.artists && MainArtist(release, a) in rows && db.artists[a] == name;
        assert MainArtist(release, a) == rows[0] || MainArtist(release, a) in rows[1..];
      }
      if NamesMainArtist(db, rows[1..], release, name) {
        var a :| a in db.artists && MainArtist(release, a) in rows[1..] && db.artists[a] == name;
        assert MainArtist(release, a) in rows;
      }
      if rows[0].releaseID == release && rows[0].artistID in db.artists && db.artists[rows[0].artistID] == name {
        assert rows[0] == MainArtist(release, rows[0].artistID) && rows[0] in rows;
      }
    }
  }

  lemma NamesInText(engine: Engine, db: Database, release: int, name: string)
    requires TotalOrder(engine.collation)
    ensures name in SortText(engine.collation, Present(ArtistNames(db, db.mainArtists, release))) <==>
      NamesMainArtist(db, db.mainArtists, release, Some(name))
  {
    hide NamesMainArtist, ArtistNames;
    ArtistNamesMembers(db, db.mainArtists, release, Some(name));
    PresentMembers(ArtistNames(db, db.mainArtists, release), name);
  }

  ghost predicate IsArtistText(engine: Engine, db: Database, release: int, text: Option<string>, names: seq<string>) {
    && StrictlyOrdered(engine.collation, names)
    && (forall name :: name in names <==> NamesMainArtist(db, db.mainArtists, release, Some(name)))
    && text == if names == [] then None else Some(Join(names, ","))
  }

  /** The artist text joins the distinct names of the release's main artists, in collation order. */
  lemma ArtistTextExact(engine: Engine, db: Database, labelID: int, release: int)
    requires TotalOrder(engine.collation) && release in Listing(engine, db, labelID)
    ensures exists names: seq<string> :: IsArtistText(engine, db, release, Listing(engine, db, labelID)[release].artist, names)
  {
    hide NamesMainArtist, ArtistNames, OnLabel, CatalogNumbers, Present, SortText, Join;
    var rows := ArtistNames(db, db.mainArtists, release);
    var names := SortText(engine.collation, Present(rows));
    forall name ensures name in names <==> NamesMainArtist(db, db.mainArtists, release, Some(name)) {
      NamesInText(engine, db, release, name);
    }
    assert Present(rows) == {} <==> names == [];
    assert IsArtistText(engine, db, release, StringAgg(engine.collation, rows), names);
  }

  // ---------------------------------------------------------------- lookup by catalog number

  /** The releases that carry the number on the label. */
  ghost function NumberListing(db: Database, labelID: int, number: string): map<int, Release> {
    map r | r in db.releases && HasCatalogNumber(db, labelID, r, number) :: db.releases[r]
  }

  /** releasesByCatalogNumberSQL: candidates are not made DISTINCT before the limit. */
  function QueryByNumber(db: Database, labelID: int, number: string, after: int, k: nat): seq<Item<Release>> {
    JoinTable(db.releases, SortBag(OrderedLimit(db.labelReleases,
      (row: LabelRelease) => row.labelID == labelID && row.categoryNotation == Some(number) && row.releaseID > after,
      (row: LabelRelease) => row.releaseID, k)))
  }

  lemma NumberKeys(db: Database, labelID: int, number: string, after: int, r: int)
    requires Valid(db)
    ensures r in Beyond(NumberListing(db, labelID, number), Some(after)) <==>
      r in SelectDistinctKeys(db.labelReleases,
        (row: LabelRelease) => row.labelID == labelID && row.categoryNotation == Some(number) && row.releaseID > after,
        (row: LabelRelease) => row.releaseID)
  {
    var keep := (row: LabelRelease) => row.labelID == labelID && row.categoryNotation == Some(number) && row.releaseID > after;
    var key := (row: LabelRelease) => row.releaseID;
    var rows := db.labelReleases;
    SelectMembers(rows, keep, key, r);
    if Selected(rows, keep, key, r) {
      var i :| 0 <= i < |rows| && keep(rows[i]) && key(rows[i]) == r;
      assert rows[i] == LabelRelease(labelID, r, Some(number)) && rows[i] in rows;
    }
    if r in Beyond(NumberListing(db, labelID, number), Some(after)) {
      var i :| 0 <= i < |rows| && rows[i] == LabelRelease(labelID, r, Some(number));
      assert keep(rows[i]);
    }
  }

  /** The lookup page is the keyset page of all releases that carry the number. */
  lemma QueryByNumberIsPage(db: Database, labelID: int, number: string, after: int, k: nat)
    requires Valid(db)
    ensures QueryByNumber(db, labelID, number, after, k) == Fetch(NumberListing(db, labelID, number), Some(after), k)
  {
    var keep := (row: LabelRelease) => row.labelID == labelID && row.categoryNotation == Some(number) && row.releaseID > after;
    var key := (row: LabelRelease) => row.releaseID;
    var listing := NumberListing(db, labelID, number);
    var rows := db.labelReleases;
    forall i, j | 0 <= i < j < |rows| && keep(rows[i]) && keep(rows[j]) ensures key(rows[i]) != key(rows[j]) {
      assert rows[i] != rows[j];
    }
    OrderedLimitIsFirstK(rows, keep, key, k);
    forall r ensures r in Beyond(listing, Some(after)) <==> r in SelectDistinctKeys(rows, keep, key) {
      NumberKeys(db, labelID, number, after, r);
    }
    assert Beyond(listing, Some(after)) == SelectDistinctKeys(rows, keep, key);
    JoinedCandidatesArePage(db.releases, listing, OrderedLimit(rows, keep, key, k), after, k);
  }

  /**
   Two endpoints, one fact: a release is found under a catalog number exactly when the label's
   listing shows that number for it.
   */
  lemma LookupAgreesWithListing(engine: Engine, db: Database, labelID: int, number: string, release: int)
    requires Valid(db) && TotalOrder(engine.collation)
    ensures release in NumberListing(db, labelID, number) <==>
      release in Listing(engine, db, labelID) && number in Listing(engine, db, labelID)[release].catalogNumbers
  {
    hide Row;
    if release in Listing(engine, db, labelID) { CatalogNumbersExact(engine, db, labelID, release); }
    if HasCatalogNumber(db, labelID, release, number) {
      var i :| 0 <= i < |db.labelReleases| && db.labelReleases[i] == LabelRelease(labelID, release, Some(number));
      assert OnLabel(db, labelID, release);
    }
  }

  // ---------------------------------------------------------------- agreement with the detail

  datatype DetailLabel = DetailLabel(labelID: int, name: Option<string>, catalogNumber: Option<string>)

  /** The labels of the release detail: one entry per stored row whose label exists. */
  function DetailLabels(db: Database, rows: seq<LabelRelease>, release: int): seq<DetailLabel> {
    if rows == [] then []
    else
      (if rows[0].releaseID == release && rows[0].labelID in db.labels
       then [DetailLabel(rows[0].labelID, db.labels[rows[0].labelID], rows[0].categoryNotation)] else [])
      + DetailLabels(db, rows[1..], release)
  }

  lemma {:induction false} DetailLabelsMembers(db: Database, rows: seq<LabelRelease>, release: int, entry: DetailLabel)
    ensures entry in DetailLabels(db, rows, release) <==>
      && LabelRelease(entry.labelID, release, entry.catalogNumber) in rows
      && entry.labelID in db.labels && entry.name == db.labels[entry.labelID]
  {
    if rows != [] {
      DetailLabelsMembers(db, rows[1..], release, entry);
      assert rows == [rows[0]] + rows[1..];
    }
  }

  ghost predicate DetailNamesLabel(db: Database, labelID: int, release: int) {
    exists entry :: entry in DetailLabels(db, db.labelReleases, release) && entry.labelID == labelID
  }

  /**
   The release detail and the label listing describe the same relation: the detail names the label,
   with or without a number, exactly when the label's listing holds the release, and it names it
   with a number exactly when the listing shows that number for the release.
   */
  lemma DetailAgreesWithListing(engine: Engine, db: Database, labelID: int, number: string, release: int)
    requires Valid(db) && TotalOrder(engine.collation) && labelID in db.labels
    ensures DetailNamesLabel(db, labelID, release) <==> release in Listing(engine, db, labelID)
    ensures DetailLabel(labelID, db.labels[labelID], Some(number)) in DetailLabels(db, db.labelReleases, release) <==>
      release in Listing(engine, db, labelID) && number in Listing(engine, db, labelID)[release].catalogNumbers
  {
    hide Row;
    DetailLabelsMembers(db, db.labelReleases, release, DetailLabel(labelID, db.labels[labelID], Some(number)));
    LookupAgreesWithListing(engine, db, labelID, number, release);
    DetailNamesWhatIsOnLabel(db, labelID, release);
    if OnLabel(db, labelID, release) { OnLabelStored(db, labelID, release); }
  }

  lemma DetailNamesWhatIsOnLabel(db: Database, labelID: int, release: int)
    requires labelID in db.labels
    ensures DetailNamesLabel(db, labelID, release) <==> OnLabel(db, labelID, release)
  {
    var rows := db.labelReleases;
    if entry :| entry in DetailLabels(db, rows, release) && entry.labelID == labelID {
      DetailLabelsMembers(db, rows, release, entry);
      var i :| 0 <= i < |rows| && rows[i] == LabelRelease(labelID, release, entry.catalogNumber);
    }
    if i :| 0 <= i < |rows| && rows[i].labelID == labelID && rows[i].releaseID == release {
      var entry := DetailLabel(labelID, db.labels[labelID], rows[i].categoryNotation);
      assert rows[i] == LabelRelease(labelID, release, entry.catalogNumber);
      DetailLabelsMembers(db, rows, release, entry);
    }
  }

  // ---------------------------------------------------------------- lookup by identifier

  /** Case-insensitive type, exact value. */
  predicate IdentifierMatches(engine: Engine, row: Identifier, kind: string, value: string) {
    row.kind.Some? && engine.lower(row.kind.value) == engine.lower(kind) && row.value == Some(value)
  }

  ghost predicate HasIdentifier(engine: Engine, db: Database, release: int, kind: string, value: string) {
    exists i :: 0 <= i < |db.identifiers| && db.identifiers[i].releaseID == release && IdentifierMatches(engine, db.identifiers[i], kind, value)
  }

  ghost function IdentifierListing(engine: Engine, db: Database, kind: string, value: string): map<int, Release> {
    map r | r in db.releases && HasIdentifier(engine, db, r, kind, value) :: db.releases[r]
  }

  /** The WHERE clause: digest equality selects candidates, the stored value is rechecked. */
  predicate IdentifierCandidate(engine: Engine, row: Identifier, kind: string, value: string, after: int) {
    && row.kind.Some? && engine.lower(row.kind.value) == engine.lower(kind)
    && row.value.Some? && engine.digest(row.value.value) == engine.digest(value)
    && row.value.value == value
    && row.releaseID > after
  }

  /** releasesByIdentifierSQL. */
  ghost function QueryByIdentifier(engine: Engine, db: Database, kind: string, value: string, after: int, k: nat): seq<Item<Release>> {
    JoinTable(db.releases, SortBag(FirstK(SelectDistinctKeys(db.identifiers,
      (row: Identifier) => IdentifierCandidate(engine, row, kind, value, after),
      (row: Identifier) => row.releaseID), k)))
  }

  lemma IdentifierKeys(engine: Engine, db: Database, kind: string, value: string, after: int, r: int)
    requires Valid(db)
    ensures r in Beyond(IdentifierListing(engine, db, kind, value), Some(after)) <==>
      r in SelectDistinctKeys(db.identifiers,
        (row: Identifier) => IdentifierCandidate(engine, row, kind, value, after),
        (row: Identifier) => row.releaseID)
  {
    var keep := (row: Identifier) => IdentifierCandidate(engine, row, kind, value, after);
    var key := (row: Identifier) => row.releaseID;
    var rows := db.identifiers;
    SelectMembers(rows, keep, key, r);
    if Selected(rows, keep, key, r) {
      var i :| 0 <= i < |rows| && keep(rows[i]) && key(rows[i]) == r;
      assert rows[i] in rows && IdentifierMatches(engine, rows[i], kind, value);
    }
    if r in Beyond(IdentifierListing(engine, db, kind, value), Some(after)) {
      var i :| 0 <= i < |rows| && rows[i].releaseID == r && IdentifierMatches(engine, rows[i], kind, value);
      assert keep(rows[i]);
    }
  }

  /**
   For any digest, colliding or not, the page is the first k distinct releases with a matching
   identifier; several matching identifiers of one release take one slot.
   */
  lemma QueryByIdentifierIsPage(engine: Engine, db: Database, kind: string, value: string, after: int, k: nat)
    requires Valid(db)
    ensures QueryByIdentifier(engine, db, kind, value, after, k) == Fetch(IdentifierListing(engine, db, kind, value), Some(after), k)
  {
    hide IdentifierCandidate, IdentifierMatches, Select, SortBag, Enumerate;
    var listing := IdentifierListing(engine, db, kind, value);
    var keys := SelectDistinctKeys(db.identifiers,
      (row: Identifier) => IdentifierCandidate(engine, row, kind, value, after),
      (row: Identifier) => row.releaseID);
    forall r ensures r in Beyond(listing, Some(after)) <==> r in keys { IdentifierKeys(engine, db, kind, value, after, r); }
    assert Beyond(listing, Some(after)) == keys;
    JoinedCandidatesArePage(db.releases, listing, FirstK(keys, k), after, k);
  }
}
