/**
 A master's releases with their artists: a LEFT JOIN grouped by release, whose LIMIT counts groups
 and not joined rows, and two arrays that a client reads side by side.
 */
module MasterReleases {
  import opened Wrappers
  import opened Catalog
  import opened OrderedSets
  import opened Relational
  import opened Keyset
  import ReleaseSearch

  datatype MasterRelease = MasterRelease(title: Option<string>, artists: seq<Option<string>>, artistIDs: seq<int>, year: Option<int>)

  // ---------------------------------------------------------------- the meaning

  predicate OfMaster(db: Database, master: int, release: int) {
    release in db.releases && db.releases[release].masterID == Some(master)
  }

  ghost function MainArtistsOf(db: Database, release: int): set<int> {
    set a | a in db.artists && MainArtist(release, a) in db.mainArtists
  }

  function Name(db: Database, artist: int): Option<string> {
    if artist in db.artists then db.artists[artist] else None
  }

  function Names(db: Database, ids: seq<int>): seq<Option<string>> {
    seq(|ids|, i requires 0 <= i < |ids| => Name(db, ids[i]))
  }

  ghost function Row(db: Database, release: int): MasterRelease
    requires release in db.releases
  {
    var ids := Enumerate(MainArtistsOf(db, release));
    MasterRelease(db.releases[release].title, Names(db, ids), ids, ReleaseSearch.ReleasedYear(db.releases[release]))
  }

  /** The unbounded listing: one row per release of the master, with or without artists. */
  ghost function Listing(db: Database, master: int): map<int, MasterRelease> {
    map r | r in db.releases && OfMaster(db, master, r) :: Row(db, r)
  }

  // ---------------------------------------------------------------- the query

  /** A row of the join: a release and one of its artists, or the row a LEFT JOIN supplies. */
  datatype JoinedRow = JoinedRow(releaseID: int, artistID: Option<int>)

  function ArtistRows(db: Database, rows: seq<MainArtist>, release: int): seq<JoinedRow> {
    if rows == [] then []
    else
      (if rows[0].releaseID == release
       then [JoinedRow(release, if rows[0].artistID in db.artists then Some(rows[0].artistID) else None)] else [])
      + ArtistRows(db, rows[1..], release)
  }

  function LeftJoined(db: Database, release: int): seq<JoinedRow> {
    var rows := ArtistRows(db, db.mainArtists, release);
    if rows == [] then [JoinedRow(release, None)] else rows
  }

  /** FROM and WHERE, over the releases in storage order. */
  function JoinedRows(db: Database, stored: seq<int>, master: int, after: int): seq<JoinedRow> {
    if stored == [] then []
    else
      (if OfMaster(db, master, stored[0]) && stored[0] > after then LeftJoined(db, stored[0]) else [])
      + JoinedRows(db, stored[1..], master, after)
  }

  /** The rows of one group. */
  function Group(rows: seq<JoinedRow>, release: int): seq<JoinedRow> {
    if rows == [] then []
    else (if rows[0].releaseID == release then [rows[0]] else []) + Group(rows[1..], release)
  }

  /** FILTER (WHERE a.id IS NOT NULL). */
  function PresentIDs(rows: seq<JoinedRow>): seq<int> {
    if rows == [] then []
    else (if rows[0].artistID.Some? then [rows[0].artistID.value] else []) + PresentIDs(rows[1..])
  }

  /** The keys of GROUP BY. */
  function Groups(rows: seq<JoinedRow>): set<int> {
    set row | row in rows :: row.releaseID
  }

  /** The two aggregates of a group, both ordered by artist ID. */
  function Aggregated(db: Database, group: seq<JoinedRow>, release: int): MasterRelease
    requires release in db.releases
  {
    var ids := SortBag(PresentIDs(group));
    MasterRelease(db.releases[release].title, Names(db, ids), ids, ReleaseSearch.ReleasedYear(db.releases[release]))
  }

  /** masterReleasesSQL. */
  ghost function Query(db: Database, stored: seq<int>, master: int, after: int, k: nat): seq<Item<MasterRelease>> {
    var rows := JoinedRows(db, stored, master, after);
    var joined := map r | r in db.releases :: Aggregated(db, Group(rows, r), r);
    JoinTable(joined, FirstK(Groups(rows), k))
  }

  /** `stored` lists each release once, in any order. */
  ghost predicate StorageOrder(db: Database, stored: seq<int>) {
    Distinct(stored) && forall r :: r in stored <==> r in db.releases
  }

  lemma {:induction false} GroupConcat(a: seq<JoinedRow>, b: seq<JoinedRow>, release: int)
    ensures Group(a + b, release) == Group(a, release) + Group(b, release)
  {
    if a == [] {
      assert a + b == b;
    } else {
      GroupConcat(a[1..], b, release);
      assert (a + b)[1..] == a[1..] + b;
      var first := if a[0].releaseID == release then [a[0]] else [];
      assert first + (Group(a[1..], release) + Group(b, release)) == (first + Group(a[1..], release)) + Group(b, release);
    }
  }

  lemma {:induction false} GroupUniform(rows: seq<JoinedRow>, owner: int, release: int)
    requires forall row :: row in rows ==> row.releaseID == owner
    ensures Group(rows, release) == if owner == release then rows else []
  {
    if rows != [] {
      assert rows[0] in rows;
      GroupUniform(rows[1..], owner, release);
      assert rows == [rows[0]] + rows[1..];
    }
  }

  lemma {:induction false} ArtistRowsOwned(db: Database, rows: seq<MainArtist>, release: int)
    ensures forall row :: row in ArtistRows(db, rows, release) ==> row.releaseID == release
  {
    if rows != [] { ArtistRowsOwned(db, rows[1..], release); }
  }

  lemma LeftJoinedOwned(db: Database, release: int)
    ensures LeftJoined(db, release) != [] && forall row :: row in LeftJoined(db, release) ==> row.releaseID == release
  {
    ArtistRowsOwned(db, db.mainArtists, release);
  }

  lemma GroupOfFirst(db: Database, stored: seq<int>, master: int, after: int, r: int)
    requires stored != []
    ensures Group(JoinedRows(db, stored, master, after), r) ==
      (if stored[0] == r && OfMaster(db, master, r) && r > after then LeftJoined(db, r) else [])
      + Group(JoinedRows(db, stored[1..], master, after), r)
  {
    hide LeftJoined, OfMaster;
    var q := stored[0];
    var first := if OfMaster(db, master, q) && q > after then LeftJoined(db, q) else [];
    LeftJoinedOwned(db, q);
    GroupUniform(first, q, r);
    GroupConcat(first, JoinedRows(db, stored[1..], master, after), r);
  }

  /** The LEFT JOIN gives each selected release at least one row, and grouping gives its own rows back. */
  lemma {:induction false} GroupOfJoined(db: Database, stored: seq<int>, master: int, after: int, r: int)
    requires Distinct(stored)
    ensures Group(JoinedRows(db, stored, master, after), r) ==
      if r in stored && OfMaster(db, master, r) && r > after then LeftJoined(db, r) else []
    ensures LeftJoined(db, r) != []
  {
    LeftJoinedOwned(db, r);
    if stored != [] {
      GroupOfFirst(db, stored, master, after, r);
      GroupOfJoined(db, stored[1..], master, after, r);
      SplitMember(stored, r);
      hide LeftJoined, OfMaster, Group, JoinedRows, Distinct;
    }
  }

  lemma SplitMember(s: seq<int>, x: int)
    requires s != [] && Distinct(s)
    ensures Distinct(s[1..]) && s[0] !in s[1..] && (x in s <==> x == s[0] || x in s[1..])
  {
    assert s == [s[0]] + s[1..];
  }

  lemma {:induction false} GroupNonEmpty(rows: seq<JoinedRow>, release: int)
    ensures release in Groups(rows) <==> Group(rows, release) != []
  {
    if rows != [] {
      GroupNonEmpty(rows[1..], release);
      assert rows == [rows[0]] + rows[1..];
      if release in Groups(rows) {
        var row :| row in rows && row.releaseID == release;
        if row != rows[0] { assert row in rows[1..]; }
      }
      if release in Groups(rows[1..]) {
        var row :| row in rows[1..] && row.releaseID == release;
        assert row in rows;
      }
      assert rows[0] in rows;
    }
  }

  function MainArtistsWhere(db: Database, release: int): MainArtist -> bool {
    (row: MainArtist) => row.releaseID == release && row.artistID in db.artists
  }

  const ARTIST_KEY: MainArtist -> int := (row: MainArtist) => row.artistID

  lemma {:induction false} PresentIDsSelect(db: Database, rows: seq<MainArtist>, release: int)
    ensures PresentIDs(ArtistRows(db, rows, release)) == Select(rows, MainArtistsWhere(db, release), ARTIST_KEY)
  {
    if rows != [] {
      PresentIDsSelect(db, rows[1..], release);
      var rest := ArtistRows(db, rows[1..], release);
      if rows[0].releaseID == release {
        var first := JoinedRow(release, if rows[0].artistID in db.artists then Some(rows[0].artistID) else None);
        assert ([first] + rest)[1..] == rest;
      } else {
        assert [] + rest == rest;
      }
    }
  }

  lemma MainArtistsSelected(db: Database, release: int, a: int)
    ensures a in Select(db.mainArtists, MainArtistsWhere(db, release), ARTIST_KEY) <==> a in MainArtistsOf(db, release)
  {
    var rows := db.mainArtists;
    var keep := MainArtistsWhere(db, release);
    SelectMembers(rows, keep, ARTIST_KEY, a);
    if Selected(rows, keep, ARTIST_KEY, a) {
      var i :| 0 <= i < |rows| && keep(rows[i]) && ARTIST_KEY(rows[i]) == a;
      assert rows[i] == MainArtist(release, a) && rows[i] in rows;
    }
    if a in MainArtistsOf(db, release) {
      var i :| 0 <= i < |rows| && rows[i] == MainArtist(release, a);
      assert keep(rows[i]);
    }
  }

  lemma SelectedOnce(db: Database, release: int)
    requires UniqueMainArtists(db.mainArtists)
    ensures Distinct(Select(db.mainArtists, MainArtistsWhere(db, release), ARTIST_KEY))
  {
    var rows := db.mainArtists;
    var keep := MainArtistsWhere(db, release);
    forall i, j | 0 <= i < j < |rows| && keep(rows[i]) && keep(rows[j]) ensures ARTIST_KEY(rows[i]) != ARTIST_KEY(rows[j]) {
      assert rows[i] != rows[j];
    }
    SelectDistinct(rows, keep, ARTIST_KEY);
  }

  lemma LeftJoinedIDs(db: Database, release: int)
    ensures PresentIDs(LeftJoined(db, release)) == Select(db.mainArtists, MainArtistsWhere(db, release), ARTIST_KEY)
  {
    PresentIDsSelect(db, db.mainArtists, release);
    assert PresentIDs([JoinedRow(release, None)]) == [];
  }

  /** Without repeated relation rows, a group's artist IDs are the release's main artists in ascending order. */
  lemma GroupArtists(db: Database, release: int)
    requires UniqueMainArtists(db.mainArtists)
    ensures SortBag(PresentIDs(LeftJoined(db, release))) == Enumerate(MainArtistsOf(db, release))
  {
    hide LeftJoined, PresentIDs, MainArtistsWhere, MainArtistsOf, Select, SortBag, Enumerate;
    var ids := Select(db.mainArtists, MainArtistsWhere(db, release), ARTIST_KEY);
    LeftJoinedIDs(db, release);
    SelectedOnce(db, release);
    SortBagOfDistinct(ids);
    forall a ensures a in Members(ids) <==> a in MainArtistsOf(db, release) { MainArtistsSelected(db, release, a); }
    assert Members(ids) == MainArtistsOf(db, release);
  }

  lemma AggregatedIsRow(db: Database, release: int)
    requires UniqueMainArtists(db.mainArtists) && release in db.releases
    ensures Aggregated(db, LeftJoined(db, release), release) == Row(db, release)
  {
    hide LeftJoined, MainArtistsOf, Names, ReleaseSearch.ReleasedYear;
    GroupArtists(db, release);
  }

  lemma GroupsAreBeyond(db: Database, stored: seq<int>, master: int, after: int)
    requires StorageOrder(db, stored)
    ensures Groups(JoinedRows(db, stored, master, after)) == Beyond(Listing(db, master), Some(after))
  {
    forall r ensures r in Groups(JoinedRows(db, stored, master, after)) <==> r in Beyond(Listing(db, master), Some(after)) {
      GroupNonEmpty(JoinedRows(db, stored, master, after), r);
      GroupOfJoined(db, stored, master, after, r);
    }
  }

  /**
   The query is the keyset page of the one-row-per-release listing, in whatever order the releases
   are stored: many artists never use up the page, and a release without artists is not lost.
   */
  lemma QueryIsPage(db: Database, stored: seq<int>, master: int, after: int, k: nat)
    requires Valid(db) && StorageOrder(db, stored)
    ensures Query(db, stored, master, after, k) == Fetch(Listing(db, master), Some(after), k)
  {
    hide Aggregated, Row, JoinedRows, Group, JoinTable, FirstK;
    var rows := JoinedRows(db, stored, master, after);
    var joined := map r | r in db.releases :: Aggregated(db, Group(rows, r), r);
    var listing := Listing(db, master);
    var beyond := Beyond(listing, Some(after));
    GroupsAreBeyond(db, stored, master, after);
    FirstKFrom(beyond, k);
    JoinKeepsStored(joined, FirstK(beyond, k));
    var items := JoinTable(joined, FirstK(beyond, k));
    forall item | item in items ensures item.key in listing && listing[item.key] == item.value {
      var i :| 0 <= i < |items| && items[i] == item;
      assert Keys(items)[i] == item.key && item.key in beyond;
      GroupIsRow(db, stored, master, after, item.key);
    }
    RowsDetermined(listing, items, Fetch(listing, Some(after), k));
  }

  lemma GroupIsRow(db: Database, stored: seq<int>, master: int, after: int, r: int)
    requires UniqueMainArtists(db.mainArtists) && StorageOrder(db, stored)
    requires r in Beyond(Listing(db, master), Some(after))
    ensures r in db.releases && Aggregated(db, Group(JoinedRows(db, stored, master, after), r), r) == Listing(db, master)[r]
  {
    hide Aggregated, Row, JoinedRows, Group;
    GroupOfJoined(db, stored, master, after, r);
    AggregatedIsRow(db, r);
  }

  lemma RowArrays(db: Database, release: int)
    requires Valid(db) && release in db.releases
    ensures var row := Row(db, release);
      && |row.artists| == |row.artistIDs| && Ascending(row.artistIDs)
      && (forall a :: a in row.artistIDs <==> MainArtist(release, a) in db.mainArtists)
      && (forall i :: 0 <= i < |row.artistIDs| ==> row.artistIDs[i] in db.artists && row.artists[i] == db.artists[row.artistIDs[i]])
  {
    var ids := Enumerate(MainArtistsOf(db, release));
    forall i | 0 <= i < |ids| ensures ids[i] in db.artists { assert ids[i] in ids; }
  }

  /** What a delivered row is: a stored release of the master, with its own title and year. */
  lemma RowIsRelease(db: Database, stored: seq<int>, master: int, after: int, k: nat, item: Item<MasterRelease>)
    requires Valid(db) && StorageOrder(db, stored) && item in Query(db, stored, master, after, k)
    ensures item.key in db.releases && db.releases[item.key].masterID == Some(master) && item.key > after
    ensures var release := db.releases[item.key];
      && item.value.title == release.title
      && item.value.year == (if release.hasValidYear && release.date.Some? then Some(ReleaseSearch.ExtractYear(release.date.value)) else None)
  {
    hide Query, Valid, StorageOrder, MainArtistsOf, Names;
    QueryIsPage(db, stored, master, after, k);
    assert item in Fetch(Listing(db, master), Some(after), k);
    assert item.key in Keys(Fetch(Listing(db, master), Some(after), k)) by { KeyIn(Fetch(Listing(db, master), Some(after), k), item.key); }
    FetchLiesBeyond(Listing(db, master), Some(after), k);
  }

  /** Which releases are listed: those whose master is the one asked for. */
  lemma ListingMembers(db: Database, master: int, r: int)
    ensures r in Listing(db, master) <==> r in db.releases && db.releases[r].masterID == Some(master)
  {
  }

  /** The two arrays are read side by side: every main artist once, each name at its ID's position. */
  lemma ArraysAligned(db: Database, stored: seq<int>, master: int, after: int, k: nat, item: Item<MasterRelease>)
    requires Valid(db) && StorageOrder(db, stored) && item in Query(db, stored, master, after, k)
    ensures |item.value.artists| == |item.value.artistIDs| && Ascending(item.value.artistIDs)
    ensures forall a :: a in item.value.artistIDs <==> MainArtist(item.key, a) in db.mainArtists
    ensures forall i :: 0 <= i < |item.value.artistIDs| ==>
      item.value.artistIDs[i] in db.artists && item.value.artists[i] == db.artists[item.value.artistIDs[i]]
  {
    hide Query, Row, Valid, StorageOrder;
    QueryIsPage(db, stored, master, after, k);
    assert item in Fetch(Listing(db, master), Some(after), k);
    assert item.value == Row(db, item.key);
    RowArrays(db, item.key);
  }
}
