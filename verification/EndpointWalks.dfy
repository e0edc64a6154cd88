/**
 Walks over the stored catalog itself. Imports replace the database between page requests, each
 request runs one of the service's queries on what is then committed, and the client knows nothing
 but the cursor text it was last given. A query that returns the keyset page of a view in every
 database inherits the documented guarantees of module Pagination.
 */
module EndpointWalks {
  import opened Wrappers
  import opened Text
  import opened Catalog
  import opened Collation
  import opened Keyset
  import opened Pagination
  import OrderedSets
  import ArtistReleases
  import LabelReleases
  import MasterReleases
  import ReleaseSearch
  import ReleaseChildren
  import HashCursor

  type View<!V> = Database -> map<int, V>

  type Reader<!V> = (Database, Option<int>, nat) -> seq<Item<V>>

  /** In every valid database the query returns the keyset page of the view, whose keys the cursors can carry. */
  ghost predicate Serves<V(!new)>(s: Scheme, view: View<V>, query: Reader<V>) {
    && (s == ID_SCHEME || s == HASH_SCHEME)
    && (forall db, after, k :: Valid(db) ==> query(db, after, k) == Fetch(view(db), after, k))
    && (forall db :: Valid(db) ==> KeysWithin(view(db), s.low, s.high))
  }

  datatype Event = Import(db: Database) | Ask(size: Raw)

  datatype State<V> = State(db: Database, client: TextClient<V>)

  ghost function Next<V(!new)>(s: Scheme, query: Reader<V>, st: State<V>, e: Event): State<V> {
    match e
    case Import(db) => st.(db := db)
    case Ask(size) =>
      var request := s.request(st.client.cursor, size);
      if st.client.finished || request.None? then st
      else
        var page := NewPage(query(st.db, request.value.after, FetchSize(request.value.size)), request.value.size);
        st.(client := Pagination.Received(st.client, PageResponse(page, s.write)))
  }

  ghost function Walk<V(!new)>(s: Scheme, query: Reader<V>, db: Database, es: seq<Event>): State<V> {
    if es == [] then State(db, TextClient("", [], false))
    else Next(s, query, Walk(s, query, db, es[..|es| - 1]), es[|es| - 1])
  }

  ghost predicate ValidImports(es: seq<Event>) {
    forall n :: 0 <= n < |es| && es[n].Import? ==> Valid(es[n].db)
  }

  /** Event `n` is a request that is answered with a page. */
  ghost predicate AskAnswered<V(!new)>(s: Scheme, query: Reader<V>, db: Database, es: seq<Event>, n: nat) {
    n < |es| && es[n].Ask? && ParseSize(es[n].size).Some? && !Walk(s, query, db, es[..n]).client.finished
  }

  /** The key is in the view at each request that is answered with a page. */
  ghost predicate Stays<V(!new)>(s: Scheme, view: View<V>, query: Reader<V>, db: Database, es: seq<Event>, key: int) {
    forall n: nat :: AskAnswered(s, query, db, es, n) ==> key in view(Walk(s, query, db, es[..n]).db)
  }

  /** The same events as the view sees them. */
  ghost function Viewed<V(!new)>(view: View<V>, es: seq<Event>): (vs: seq<TextEvent<V>>)
    ensures |vs| == |es|
  {
    seq(|es|, n requires 0 <= n < |es| => ViewedEvent(view, es[n]))
  }

  ghost function ViewedEvent<V(!new)>(view: View<V>, e: Event): TextEvent<V> {
    match e case Import(db) => Committed(view(db)) case Ask(size) => Asked(size)
  }

  ghost function ViewedState<V(!new)>(view: View<V>, st: State<V>): TextWorld<V> {
    TextWorld(view(st.db), st.client)
  }

  lemma StepIsViewed<V(!new)>(s: Scheme, view: View<V>, query: Reader<V>, st: State<V>, e: Event)
    requires Serves(s, view, query) && Valid(st.db)
    ensures TextStep(s, ViewedState(view, st), ViewedEvent(view, e)) == ViewedState(view, Next(s, query, st, e))
  {
    hide PageResponse, Fetch, NewPage, Received;
  }

  /** A walk over the stored catalog is the walk over the view. */
  lemma {:induction false} WalkIsViewed<V(!new)>(s: Scheme, view: View<V>, query: Reader<V>, db: Database, es: seq<Event>)
    requires Serves(s, view, query) && Valid(db) && ValidImports(es)
    ensures Valid(Walk(s, query, db, es).db)
    ensures TextRun(s, TextStart(view(db)), Viewed(view, es)) == ViewedState(view, Walk(s, query, db, es))
  {
    if es != [] {
      var front := es[..|es| - 1];
      ViewedPrefix(view, es);
      hide Serves, Valid, TextStep, Viewed, ViewedEvent;
      WalkIsViewed(s, view, query, db, front);
      StepIsViewed(s, view, query, Walk(s, query, db, front), es[|es| - 1]);
    }
  }

  lemma ViewedPrefix<V(!new)>(view: View<V>, es: seq<Event>)
    requires es != []
    ensures Viewed(view, es) == Viewed(view, es[..|es| - 1]) + [ViewedEvent(view, es[|es| - 1])]
  {
  }

  lemma ViewedTablesWithin<V(!new)>(s: Scheme, view: View<V>, query: Reader<V>, db: Database, es: seq<Event>)
    requires Serves(s, view, query) && Valid(db) && ValidImports(es)
    ensures TextTablesWithin(TextStart(view(db)), Viewed(view, es), s.low, s.high)
  {
  }

  lemma StaysViewed<V(!new)>(s: Scheme, view: View<V>, query: Reader<V>, db: Database, es: seq<Event>, key: int)
    requires Serves(s, view, query) && Valid(db) && ValidImports(es) && Stays(s, view, query, db, es, key)
    ensures TextStays(s, view(db), Viewed(view, es), key)
  {
    var vs := Viewed(view, es);
    forall n: nat | Answered(s, view(db), vs, n) ensures key in TextRun(s, TextStart(view(db)), vs[..n]).table {
      assert vs[..n] == Viewed(view, es[..n]);
      WalkIsViewed(s, view, query, db, es[..n]);
      assert AskAnswered(s, query, db, es, n);
    }
  }

  /**
   Whatever imports are committed between its requests, a client that copies cursor text is given
   strictly increasing keys, and once finished it has each key that was in the view at every
   answered request.
   */
  lemma EndpointWalk<V(!new)>(s: Scheme, view: View<V>, query: Reader<V>, db: Database, es: seq<Event>, key: int)
    requires Serves(s, view, query) && Valid(db) && ValidImports(es)
    ensures OrderedSets.Ascending(Keys(Walk(s, query, db, es).client.received))
    ensures Stays(s, view, query, db, es, key) && Walk(s, query, db, es).client.finished ==>
      key in Keys(Walk(s, query, db, es).client.received)
  {
    WalkIsViewed(s, view, query, db, es);
    ViewedTablesWithin(s, view, query, db, es);
    DocumentedWalk(s, view(db), Viewed(view, es), key);
    if Stays(s, view, query, db, es, key) { StaysViewed(s, view, query, db, es, key); }
  }

  ghost function AcceptableAsks(es: seq<Event>): nat {
    if es == [] then 0
    else AcceptableAsks(es[..|es| - 1]) + if es[|es| - 1].Ask? && ParseSize(es[|es| - 1].size).Some? then 1 else 0
  }

  lemma {:induction false} AcceptableViewed<V(!new)>(view: View<V>, es: seq<Event>)
    ensures Acceptable(Viewed(view, es)) == AcceptableAsks(es)
  {
    if es != [] {
      AcceptableViewed(view, es[..|es| - 1]);
      assert Viewed(view, es)[..|es| - 1] == Viewed(view, es[..|es| - 1]);
    }
  }

  /** The walk ends, however much is imported meanwhile: the keys that cursors can carry run out. */
  lemma EndpointWalkEnds<V(!new)>(s: Scheme, view: View<V>, query: Reader<V>, db: Database, es: seq<Event>)
    requires Serves(s, view, query) && Valid(db) && ValidImports(es)
    requires AcceptableAsks(es) > s.high - s.low
    ensures Walk(s, query, db, es).client.finished
  {
    WalkIsViewed(s, view, query, db, es);
    ViewedTablesWithin(s, view, query, db, es);
    AcceptableViewed(view, es);
    DocumentedWalkEnds(s, view(db), Viewed(view, es));
  }

  /** While nothing is imported, the concatenated pages of a finished walk are the whole view in key order. */
  lemma EndpointFixed<V(!new)>(s: Scheme, view: View<V>, query: Reader<V>, db: Database, es: seq<Event>)
    requires Serves(s, view, query) && Valid(db) && forall n :: 0 <= n < |es| ==> es[n].Ask?
    requires Walk(s, query, db, es).client.finished
    ensures Walk(s, query, db, es).client.received == Fetch(view(db), None, |view(db)|)
  {
    WalkIsViewed(s, view, query, db, es);
    DocumentedWalkOfFixedCatalog(s, view(db), Viewed(view, es));
  }

  /** So an item has been delivered exactly when it is a row of the view. */
  lemma DeliveredIsView<V(!new)>(s: Scheme, view: View<V>, query: Reader<V>, db: Database, es: seq<Event>, item: Item<V>)
    requires Serves(s, view, query) && Valid(db) && forall n :: 0 <= n < |es| ==> es[n].Ask?
    requires Walk(s, query, db, es).client.finished
    ensures item in Walk(s, query, db, es).client.received <==> item.key in view(db) && view(db)[item.key] == item.value
  {
    var received := Walk(s, query, db, es).client.received;
    EndpointFixed(s, view, query, db, es);
    assert Beyond(view(db), None) == view(db).Keys;
    if item.key in view(db) && view(db)[item.key] == item.value {
      assert item.key in Keys(received);
      var i :| 0 <= i < |Keys(received)| && Keys(received)[i] == item.key;
      assert received[i] in received && received[i] == item;
    }
  }

  // ---------------------------------------------------------------- the endpoints

  /** `after_id` defaults to 0, which stands before every resource. */
  function Floor(after: Option<int>): int { if after.None? then 0 else after.value }

  lemma FloorIsNoBound<V>(table: map<int, V>, after: Option<int>, k: nat)
    requires KeysWithin(table, 0, Catalog.MAXIMUM_RESOURCE_ID)
    ensures Fetch(table, Some(Floor(after)), k) == Fetch(table, after, k)
  {
    assert Beyond(table, Some(Floor(after))) == Beyond(table, after);
    RowsDetermined(table, Fetch(table, Some(Floor(after)), k), Fetch(table, after, k));
  }

  lemma StoredReleasesOnly<V>(table: map<int, V>, db: Database)
    requires Valid(db) && forall r :: r in table ==> r in db.releases
    ensures KeysWithin(table, 0, Catalog.MAXIMUM_RESOURCE_ID)
  {
  }

  ghost function ArtistView(engine: Engine, artist: int): View<ArtistReleases.ArtistRelease>
    requires TotalOrder(engine.collation)
  {
    (db: Database) => ArtistReleases.Listing(engine, db, artist)
  }

  ghost function ArtistReader(engine: Engine, artist: int): Reader<ArtistReleases.ArtistRelease>
    requires TotalOrder(engine.collation)
  {
    (db: Database, after: Option<int>, k: nat) => ArtistReleases.Query(engine, db, artist, Floor(after), k)
  }

  lemma ArtistPage(engine: Engine, artist: int, db: Database, after: Option<int>, k: nat)
    requires Valid(db) && TotalOrder(engine.collation)
    ensures ArtistReader(engine, artist)(db, after, k) == Fetch(ArtistView(engine, artist)(db), after, k)
    ensures KeysWithin(ArtistView(engine, artist)(db), 0, Catalog.MAXIMUM_RESOURCE_ID)
  {
    StoredReleasesOnly(ArtistReleases.Listing(engine, db, artist), db);
    ArtistReleases.QueryIsPage(engine, db, artist, Floor(after), k);
    FloorIsNoBound(ArtistReleases.Listing(engine, db, artist), after, k);
  }

  lemma ArtistReleasesServe(engine: Engine, artist: int)
    requires TotalOrder(engine.collation)
    ensures Serves(ID_SCHEME, ArtistView(engine, artist), ArtistReader(engine, artist))
  {
    hide ArtistReader, ArtistView, KeysWithin, Fetch;
    forall db, after: Option<int>, k: nat | Valid(db)
      ensures ArtistReader(engine, artist)(db, after, k) == Fetch(ArtistView(engine, artist)(db), after, k)
    {
      ArtistPage(engine, artist, db, after, k);
    }
    forall db | Valid(db) ensures KeysWithin(ArtistView(engine, artist)(db), ID_SCHEME.low, ID_SCHEME.high) { ArtistPage(engine, artist, db, None, 0); }
  }

  ghost function LabelView(engine: Engine, labelID: int): View<LabelReleases.LabelReleaseRow>
    requires TotalOrder(engine.collation)
  {
    (db: Database) => LabelReleases.Listing(engine, db, labelID)
  }

  ghost function LabelReader(engine: Engine, labelID: int): Reader<LabelReleases.LabelReleaseRow>
    requires TotalOrder(engine.collation)
  {
    (db: Database, after: Option<int>, k: nat) => LabelReleases.Query(engine, db, labelID, Floor(after), k)
  }

  lemma LabelPage(engine: Engine, labelID: int, db: Database, after: Option<int>, k: nat)
    requires Valid(db) && TotalOrder(engine.collation)
    ensures LabelReader(engine, labelID)(db, after, k) == Fetch(LabelView(engine, labelID)(db), after, k)
    ensures KeysWithin(LabelView(engine, labelID)(db), 0, Catalog.MAXIMUM_RESOURCE_ID)
  {
    StoredReleasesOnly(LabelReleases.Listing(engine, db, labelID), db);
    LabelReleases.QueryIsPage(engine, db, labelID, Floor(after), k);
    FloorIsNoBound(LabelReleases.Listing(engine, db, labelID), after, k);
  }

  lemma LabelReleasesServe(engine: Engine, labelID: int)
    requires TotalOrder(engine.collation)
    ensures Serves(ID_SCHEME, LabelView(engine, labelID), LabelReader(engine, labelID))
  {
    hide LabelReader, LabelView, KeysWithin, Fetch;
    forall db, after: Option<int>, k: nat | Valid(db)
      ensures LabelReader(engine, labelID)(db, after, k) == Fetch(LabelView(engine, labelID)(db), after, k)
    {
      LabelPage(engine, labelID, db, after, k);
    }
    forall db | Valid(db) ensures KeysWithin(LabelView(engine, labelID)(db), ID_SCHEME.low, ID_SCHEME.high) { LabelPage(engine, labelID, db, None, 0); }
  }

  function NumberReader(labelID: int, number: string): Reader<Release> {
    (db: Database, after: Option<int>, k: nat) => LabelReleases.QueryByNumber(db, labelID, number, Floor(after), k)
  }

  ghost function NumberView(labelID: int, number: string): View<Release> {
    (db: Database) => LabelReleases.NumberListing(db, labelID, number)
  }

  lemma NumberPage(labelID: int, number: string, db: Database, after: Option<int>, k: nat)
    requires Valid(db)
    ensures NumberReader(labelID, number)(db, after, k) == Fetch(NumberView(labelID, number)(db), after, k)
    ensures KeysWithin(NumberView(labelID, number)(db), 0, Catalog.MAXIMUM_RESOURCE_ID)
  {
    StoredReleasesOnly(LabelReleases.NumberListing(db, labelID, number), db);
    LabelReleases.QueryByNumberIsPage(db, labelID, number, Floor(after), k);
    FloorIsNoBound(LabelReleases.NumberListing(db, labelID, number), after, k);
  }

  lemma NumberLookupServes(labelID: int, number: string)
    ensures Serves(ID_SCHEME, NumberView(labelID, number), NumberReader(labelID, number))
  {
    hide NumberReader, NumberView, KeysWithin, Fetch;
    forall db, after: Option<int>, k: nat | Valid(db)
      ensures NumberReader(labelID, number)(db, after, k) == Fetch(NumberView(labelID, number)(db), after, k)
    {
      NumberPage(labelID, number, db, after, k);
    }
    forall db | Valid(db) ensures KeysWithin(NumberView(labelID, number)(db), ID_SCHEME.low, ID_SCHEME.high) { NumberPage(labelID, number, db, None, 0); }
  }

  ghost function IdentifierView(engine: Engine, kind: string, value: string): View<Release> {
    (db: Database) => LabelReleases.IdentifierListing(engine, db, kind, value)
  }

  ghost function IdentifierReader(engine: Engine, kind: string, value: string): Reader<Release> {
    (db: Database, after: Option<int>, k: nat) => LabelReleases.QueryByIdentifier(engine, db, kind, value, Floor(after), k)
  }

  lemma IdentifierPage(engine: Engine, kind: string, value: string, db: Database, after: Option<int>, k: nat)
    requires Valid(db)
    ensures IdentifierReader(engine, kind, value)(db, after, k) == Fetch(IdentifierView(engine, kind, value)(db), after, k)
    ensures KeysWithin(IdentifierView(engine, kind, value)(db), 0, Catalog.MAXIMUM_RESOURCE_ID)
  {
    StoredReleasesOnly(LabelReleases.IdentifierListing(engine, db, kind, value), db);
    LabelReleases.QueryByIdentifierIsPage(engine, db, kind, value, Floor(after), k);
    FloorIsNoBound(LabelReleases.IdentifierListing(engine, db, kind, value), after, k);
  }

  lemma IdentifierLookupServes(engine: Engine, kind: string, value: string)
    ensures Serves(ID_SCHEME, IdentifierView(engine, kind, value), IdentifierReader(engine, kind, value))
  {
    hide IdentifierReader, IdentifierView, KeysWithin, Fetch;
    forall db, after: Option<int>, k: nat | Valid(db)
      ensures IdentifierReader(engine, kind, value)(db, after, k) == Fetch(IdentifierView(engine, kind, value)(db), after, k)
    {
      IdentifierPage(engine, kind, value, db, after, k);
    }
    forall db | Valid(db) ensures KeysWithin(IdentifierView(engine, kind, value)(db), ID_SCHEME.low, ID_SCHEME.high) { IdentifierPage(engine, kind, value, db, None, 0); }
  }

  ghost function MasterView(master: int): View<MasterReleases.MasterRelease> {
    (db: Database) => MasterReleases.Listing(db, master)
  }

  /** `order` is the order in which a database happens to store its releases. */
  ghost function MasterReader(order: Database -> seq<int>, master: int): Reader<MasterReleases.MasterRelease> {
    (db: Database, after: Option<int>, k: nat) => MasterReleases.Query(db, order(db), master, Floor(after), k)
  }

  lemma MasterPage(order: Database -> seq<int>, master: int, db: Database, after: Option<int>, k: nat)
    requires Valid(db) && MasterReleases.StorageOrder(db, order(db))
    ensures MasterReader(order, master)(db, after, k) == Fetch(MasterView(master)(db), after, k)
    ensures KeysWithin(MasterView(master)(db), 0, Catalog.MAXIMUM_RESOURCE_ID)
  {
    StoredReleasesOnly(MasterReleases.Listing(db, master), db);
    MasterReleases.QueryIsPage(db, order(db), master, Floor(after), k);
    FloorIsNoBound(MasterReleases.Listing(db, master), after, k);
  }

  lemma MasterReleasesServe(order: Database -> seq<int>, master: int)
    requires forall db :: Valid(db) ==> MasterReleases.StorageOrder(db, order(db))
    ensures Serves(ID_SCHEME, MasterView(master), MasterReader(order, master))
  {
    hide MasterReader, MasterView, KeysWithin, Fetch, MasterReleases.StorageOrder;
    forall db, after: Option<int>, k: nat | Valid(db)
      ensures MasterReader(order, master)(db, after, k) == Fetch(MasterView(master)(db), after, k)
    {
      MasterPage(order, master, db, after, k);
    }
    forall db | Valid(db) ensures KeysWithin(MasterView(master)(db), ID_SCHEME.low, ID_SCHEME.high) { MasterPage(order, master, db, None, 0); }
  }

  ghost function SearchView(engine: Engine, f: ReleaseSearch.Filter): View<Release> {
    (db: Database) => ReleaseSearch.Listing(engine, db, f)
  }

  ghost function SearchReader(engine: Engine, f: ReleaseSearch.Filter): Reader<Release> {
    (db: Database, after: Option<int>, k: nat) => if ReleaseSearch.ValidRows(db) then ReleaseSearch.Query(engine, db, f, Floor(after), k) else []
  }

  lemma SearchPage(engine: Engine, f: ReleaseSearch.Filter, db: Database, after: Option<int>, k: nat)
    requires Valid(db) && (f.month.Some? ==> 1 <= f.month.value <= 12)
    ensures SearchReader(engine, f)(db, after, k) == Fetch(SearchView(engine, f)(db), after, k)
    ensures KeysWithin(SearchView(engine, f)(db), 0, Catalog.MAXIMUM_RESOURCE_ID)
  {
    hide ReleaseSearch.Matches;
    StoredReleasesOnly(ReleaseSearch.Listing(engine, db, f), db);
    ReleaseSearch.QueryIsPage(engine, db, f, Floor(after), k);
    FloorIsNoBound(ReleaseSearch.Listing(engine, db, f), after, k);
  }

  lemma ReleaseSearchServes(engine: Engine, f: ReleaseSearch.Filter)
    requires f.month.Some? ==> 1 <= f.month.value <= 12
    ensures Serves(ID_SCHEME, SearchView(engine, f), SearchReader(engine, f))
  {
    hide SearchReader, SearchView, KeysWithin, Fetch;
    forall db, after: Option<int>, k: nat | Valid(db)
      ensures SearchReader(engine, f)(db, after, k) == Fetch(SearchView(engine, f)(db), after, k)
    {
      SearchPage(engine, f, db, after, k);
    }
    forall db | Valid(db) ensures KeysWithin(SearchView(engine, f)(db), ID_SCHEME.low, ID_SCHEME.high) { SearchPage(engine, f, db, None, 0); }
  }

  ghost function TrackView(release: int): View<Track> {
    (db: Database) => if Valid(db) then ReleaseChildren.Tracks(db, release) else map[]
  }

  /** Hashes have no sentinel: the absent cursor reaches the query as it is. */
  ghost function TrackReader(release: int): Reader<Track> {
    (db: Database, after: Option<int>, k: nat) =>
      if Valid(db) then JoinRows(ReleaseChildren.Tracks(db, release), ReleaseChildren.TrackHashes(db, release, after, k)) else []
  }

  ghost function JoinRows<V>(table: map<int, V>, keys: seq<int>): seq<Item<V>> {
    if forall i :: 0 <= i < |keys| ==> keys[i] in table then Rows(table, keys) else []
  }

  lemma ReleaseTracksServe(release: int)
    ensures Serves(HASH_SCHEME, TrackView(release), TrackReader(release))
  {
    hide ReleaseChildren.Tracks, ReleaseChildren.TrackHashes, JoinRows;
    forall db | Valid(db) ensures KeysWithin(TrackView(release)(db), HASH_SCHEME.low, HASH_SCHEME.high) {
      ReleaseChildren.ChildHashesWithin(db, release);
    }
    forall db, after: Option<int>, k: nat | Valid(db)
      ensures TrackReader(release)(db, after, k) == Fetch(TrackView(release)(db), after, k)
    {
      ReleaseChildren.TrackQueryIsPage(db, release, after, k);
      JoinRowsIsFetch(ReleaseChildren.Tracks(db, release), ReleaseChildren.TrackHashes(db, release, after, k), after, k);
    }
  }

  lemma JoinRowsIsFetch<V>(table: map<int, V>, keys: seq<int>, after: Option<int>, k: nat)
    requires keys == Keys(Fetch(table, after, k))
    ensures JoinRows(table, keys) == Fetch(table, after, k)
  {
  }

  ghost function IdentifierRowView(release: int): View<Identifier> {
    (db: Database) => if Valid(db) then ReleaseChildren.Identifiers(db, release) else map[]
  }

  ghost function IdentifierRowReader(release: int): Reader<Identifier> {
    (db: Database, after: Option<int>, k: nat) =>
      if Valid(db) then JoinRows(ReleaseChildren.Identifiers(db, release), ReleaseChildren.IdentifierHashes(db, release, after, k)) else []
  }

  lemma ReleaseIdentifiersServe(release: int)
    ensures Serves(HASH_SCHEME, IdentifierRowView(release), IdentifierRowReader(release))
  {
    hide ReleaseChildren.Identifiers, ReleaseChildren.IdentifierHashes, JoinRows;
    forall db | Valid(db) ensures KeysWithin(IdentifierRowView(release)(db), HASH_SCHEME.low, HASH_SCHEME.high) {
      ReleaseChildren.ChildHashesWithin(db, release);
    }
    forall db, after: Option<int>, k: nat | Valid(db)
      ensures IdentifierRowReader(release)(db, after, k) == Fetch(IdentifierRowView(release)(db), after, k)
    {
      ReleaseChildren.IdentifierQueryIsPage(db, release, after, k);
      JoinRowsIsFetch(ReleaseChildren.Identifiers(db, release), ReleaseChildren.IdentifierHashes(db, release, after, k), after, k);
    }
  }

  /** The artist takes part in the release at each request that is answered with a page. */
  ghost predicate TakesPartThroughout(engine: Engine, artist: int, db: Database, es: seq<Event>, release: int)
    requires TotalOrder(engine.collation)
  {
    forall n: nat :: AskAnswered(ID_SCHEME, ArtistReader(engine, artist), db, es, n) ==>
      ArtistReleases.TakesPart(Walk(ID_SCHEME, ArtistReader(engine, artist), db, es[..n]).db, artist, release)
  }

  /**
   End to end: following `next_after_id` through an artist's releases while imports commit, the
   client never sees a release twice, and by the time the walk ends it has seen each release in
   which the artist took part at every answered request, however the query cut its arms.
   */
  lemma ArtistReleasesWalk(engine: Engine, artist: int, db: Database, es: seq<Event>, release: int)
    requires TotalOrder(engine.collation) && Valid(db) && ValidImports(es)
    ensures var end := Walk(ID_SCHEME, ArtistReader(engine, artist), db, es).client;
      && OrderedSets.Ascending(Keys(end.received))
      && (TakesPartThroughout(engine, artist, db, es, release) && end.finished ==> release in Keys(end.received))
  {
    var query, view := ArtistReader(engine, artist), ArtistView(engine, artist);
    ArtistReleasesServe(engine, artist);
    if TakesPartThroughout(engine, artist, db, es, release) {
      forall n: nat | AskAnswered(ID_SCHEME, query, db, es, n)
        ensures release in view(Walk(ID_SCHEME, query, db, es[..n]).db)
      {
        WalkIsViewed(ID_SCHEME, view, query, db, es[..n]);
        ArtistReleases.TakesPartStored(Walk(ID_SCHEME, query, db, es[..n]).db, artist, release);
      }
      assert Stays(ID_SCHEME, view, query, db, es, release);
    }
    EndpointWalk(ID_SCHEME, view, query, db, es, release);
  }

  /** The client has been given the release with the number among its catalog numbers. */
  ghost predicate ShownWithNumber(received: seq<Item<LabelReleases.LabelReleaseRow>>, release: int, number: string) {
    exists item :: item in received && item.key == release && number in item.value.catalogNumbers
  }

  /**
   Two endpoints, one fact, as a client sees it: the full lookup walk for a label and a catalog number delivers a
   release exactly when the full walk of the label's releases shows that number for it.
   */
  lemma LookupWalkAgrees(engine: Engine, db: Database, labelID: int, number: string, lookups: seq<Event>, listings: seq<Event>, release: int)
    requires TotalOrder(engine.collation) && Valid(db)
    requires forall n :: 0 <= n < |lookups| ==> lookups[n].Ask?
    requires forall n :: 0 <= n < |listings| ==> listings[n].Ask?
    ensures var found, shown := Walk(ID_SCHEME, NumberReader(labelID, number), db, lookups).client, Walk(ID_SCHEME, LabelReader(engine, labelID), db, listings).client;
      found.finished && shown.finished ==>
        (release in Keys(found.received) <==> ShownWithNumber(shown.received, release, number))
  {
    if Walk(ID_SCHEME, NumberReader(labelID, number), db, lookups).client.finished
      && Walk(ID_SCHEME, LabelReader(engine, labelID), db, listings).client.finished
    {
      FinishedWalksAgree(engine, db, labelID, number, lookups, listings, release);
    }
  }

  lemma FinishedWalksAgree(engine: Engine, db: Database, labelID: int, number: string, lookups: seq<Event>, listings: seq<Event>, release: int)
    requires TotalOrder(engine.collation) && Valid(db)
    requires forall n :: 0 <= n < |lookups| ==> lookups[n].Ask?
    requires forall n :: 0 <= n < |listings| ==> listings[n].Ask?
    requires Walk(ID_SCHEME, NumberReader(labelID, number), db, lookups).client.finished
    requires Walk(ID_SCHEME, LabelReader(engine, labelID), db, listings).client.finished
    ensures release in Keys(Walk(ID_SCHEME, NumberReader(labelID, number), db, lookups).client.received) <==>
      ShownWithNumber(Walk(ID_SCHEME, LabelReader(engine, labelID), db, listings).client.received, release, number)
  {
    var found := Walk(ID_SCHEME, NumberReader(labelID, number), db, lookups).client.received;
    var shown := Walk(ID_SCHEME, LabelReader(engine, labelID), db, listings).client.received;
    NumberLookupServes(labelID, number);
    LabelReleasesServe(engine, labelID);
    EndpointFixed(ID_SCHEME, NumberView(labelID, number), NumberReader(labelID, number), db, lookups);
    LabelReleases.LookupAgreesWithListing(engine, db, labelID, number, release);
    ShownIsListed(engine, db, labelID, number, listings, release);
    assert Beyond(NumberView(labelID, number)(db), None) == NumberView(labelID, number)(db).Keys;
  }

  lemma ShownIsListed(engine: Engine, db: Database, labelID: int, number: string, es: seq<Event>, release: int)
    requires TotalOrder(engine.collation) && Valid(db) && forall n :: 0 <= n < |es| ==> es[n].Ask?
    requires Walk(ID_SCHEME, LabelReader(engine, labelID), db, es).client.finished
    ensures ShownWithNumber(Walk(ID_SCHEME, LabelReader(engine, labelID), db, es).client.received, release, number) <==>
      release in LabelReleases.Listing(engine, db, labelID) && number in LabelReleases.Listing(engine, db, labelID)[release].catalogNumbers
  {
    var view, query := LabelView(engine, labelID), LabelReader(engine, labelID);
    var received := Walk(ID_SCHEME, query, db, es).client.received;
    LabelReleasesServe(engine, labelID);
    if item :| item in received && item.key == release && number in item.value.catalogNumbers {
      DeliveredIsView(ID_SCHEME, view, query, db, es, item);
    }
    if release in LabelReleases.Listing(engine, db, labelID) {
      DeliveredIsView(ID_SCHEME, view, query, db, es, Item(release, LabelReleases.Listing(engine, db, labelID)[release]));
    }
  }

  // ---------------------------------------------------------------- tracks and identifiers through the whole call

  /** A request carries, besides its size, what the later existence statement sees. */
  datatype ChildEvent = ChildImport(db: Database) | ChildAsk(size: Raw, releaseExists: bool)

  /** One request to a child collection of a release; not-found ends the walk with nothing more. */
  ghost function ChildNext<V(!new)>(view: View<V>, st: State<V>, e: ChildEvent): State<V> {
    match e
    case ChildImport(db) => st.(db := db)
    case ChildAsk(size, releaseExists) =>
      var request := ParseHashCursorPage(Chars(st.client.cursor), size);
      if st.client.finished || request.None? then st
      else
        match ReleaseChildren.Call(view(st.db), releaseExists, request.value)
        case Found(page) => st.(client := Pagination.Received(st.client, PageResponse(page, HashCursor.EncodeHash)))
        case NotFound => st.(client := st.client.(cursor := "", finished := true))
  }

  ghost function ChildWalk<V(!new)>(view: View<V>, db: Database, es: seq<ChildEvent>): State<V> {
    if es == [] then State(db, TextClient("", [], false))
    else ChildNext(view, ChildWalk(view, db, es[..|es| - 1]), es[|es| - 1])
  }

  ghost predicate ValidChildImports(es: seq<ChildEvent>) {
    forall n :: 0 <= n < |es| && es[n].ChildImport? ==> Valid(es[n].db)
  }

  function Plain(e: ChildEvent): Event {
    match e case ChildImport(db) => Import(db) case ChildAsk(size, _) => Ask(size)
  }

  function PlainEvents(es: seq<ChildEvent>): seq<Event> {
    seq(|es|, n requires 0 <= n < |es| => Plain(es[n]))
  }

  lemma ChildStep<V(!new)>(view: View<V>, query: Reader<V>, st: State<V>, e: ChildEvent)
    requires Serves(HASH_SCHEME, view, query) && Valid(st.db)
    ensures ChildNext(view, st, e) == Next(HASH_SCHEME, query, st, Plain(e))
  {
    hide ParseHashCursorPage, Fetch, Valid;
    if e.ChildAsk? {
      var request := ParseHashCursorPage(Chars(st.client.cursor), e.size);
      if request.Some? {
        HashPageSizes(Chars(st.client.cursor), e.size);
        ReleaseChildren.NotFoundMeaning(view(st.db), e.releaseExists, request.value);
        assert st.client.received + [] == st.client.received;
      }
    }
  }

  lemma HashPageSizes(cursor: Raw, size: Raw)
    ensures ParseHashCursorPage(cursor, size).Some? ==> ParseHashCursorPage(cursor, size).value.size > 0
  {
  }

  /**
   The existence statement never changes what a walk delivers: through the whole call, with
   whatever the later statement sees, the client is given what the page queries alone would give.
   */
  lemma {:induction false} ChildWalkIsWalk<V(!new)>(view: View<V>, query: Reader<V>, db: Database, es: seq<ChildEvent>)
    requires Serves(HASH_SCHEME, view, query) && Valid(db) && ValidChildImports(es)
    ensures Valid(ChildWalk(view, db, es).db)
    ensures ChildWalk(view, db, es) == Walk(HASH_SCHEME, query, db, PlainEvents(es))
  {
    if es != [] {
      var front := es[..|es| - 1];
      PlainPrefix(es);
      hide Serves, Valid, ChildNext, Next, PlainEvents, Plain;
      ChildWalkIsWalk(view, query, db, front);
      ChildStep(view, query, ChildWalk(view, db, front), es[|es| - 1]);
      ChildDatabases(view, ChildWalk(view, db, front), es[|es| - 1]);
    }
  }

  lemma PlainPrefix(es: seq<ChildEvent>)
    requires es != []
    ensures PlainEvents(es) == PlainEvents(es[..|es| - 1]) + [Plain(es[|es| - 1])]
  {
  }

  lemma ChildDatabases<V(!new)>(view: View<V>, st: State<V>, e: ChildEvent)
    ensures ChildNext(view, st, e).db == if e.ChildImport? then e.db else st.db
  {
  }

  lemma ChildrenDelivered<V(!new)>(view: View<V>, query: Reader<V>, db: Database, es: seq<ChildEvent>, item: Item<V>)
    requires Serves(HASH_SCHEME, view, query) && Valid(db) && forall n :: 0 <= n < |es| ==> es[n].ChildAsk?
    ensures OrderedSets.Ascending(Keys(ChildWalk(view, db, es).client.received))
    ensures ChildWalk(view, db, es).client.finished ==>
      (item in ChildWalk(view, db, es).client.received <==> item.key in view(db) && view(db)[item.key] == item.value)
  {
    hide Serves, ChildWalk, Walk;
    ChildWalkIsWalk(view, query, db, es);
    EndpointWalk(HASH_SCHEME, view, query, db, PlainEvents(es), 0);
    if ChildWalk(view, db, es).client.finished { DeliveredIsView(HASH_SCHEME, view, query, db, PlainEvents(es), item); }
  }

  /** The full walk through a release's tracks delivers exactly its stored tracks, by ascending hash. */
  lemma TracksWalk(db: Database, release: int, es: seq<ChildEvent>, row: Track)
    requires Valid(db) && forall n :: 0 <= n < |es| ==> es[n].ChildAsk?
    ensures var end := ChildWalk(TrackView(release), db, es).client;
      && OrderedSets.Ascending(Keys(end.received))
      && (end.finished ==> (Item(row.hash, row) in end.received <==> row in db.tracks && row.releaseID == release))
  {
    hide TrackReader, Serves, ChildWalk;
    ReleaseTracksServe(release);
    ChildrenDelivered(TrackView(release), TrackReader(release), db, es, Item(row.hash, row));
  }

  /** The same for its identifiers. */
  lemma IdentifiersWalk(db: Database, release: int, es: seq<ChildEvent>, row: Identifier)
    requires Valid(db) && forall n :: 0 <= n < |es| ==> es[n].ChildAsk?
    ensures var end := ChildWalk(IdentifierRowView(release), db, es).client;
      && OrderedSets.Ascending(Keys(end.received))
      && (end.finished ==> (Item(row.hash, row) in end.received <==> row in db.identifiers && row.releaseID == release))
  {
    hide IdentifierRowReader, Serves, ChildWalk;
    ReleaseIdentifiersServe(release);
    ChildrenDelivered(IdentifierRowView(release), IdentifierRowReader(release), db, es, Item(row.hash, row));
  }
}
