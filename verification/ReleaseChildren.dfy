/**
 Tracks and identifiers of a release. A call reads one page by hash and, only when the page is
 empty, asks whether the release exists; the two statements may see different committed states.
 */
module ReleaseChildren {
  import opened Wrappers
  import opened Catalog
  import opened OrderedSets
  import opened Relational
  import opened Keyset
  import Pagination
  import Text

  // ---------------------------------------------------------------- the page queries

  /** The tracks of a release by hash. */
  ghost function Tracks(db: Database, release: int): map<int, Track>
    requires Valid(db)
  {
    map row | row in db.tracks && row.releaseID == release :: row.hash := row
  }

  /** The identifiers of a release by hash. */
  ghost function Identifiers(db: Database, release: int): map<int, Identifier>
    requires Valid(db)
  {
    map row | row in db.identifiers && row.releaseID == release :: row.hash := row
  }

  /** Hash cursors can carry every key of a release's children. */
  lemma ChildHashesWithin(db: Database, release: int)
    requires Valid(db)
    ensures KeysWithin(Tracks(db, release), Text.MIN_INT32 - 1, Text.MAX_INT32)
    ensures KeysWithin(Identifiers(db, release), Text.MIN_INT32 - 1, Text.MAX_INT32)
  {
    forall h | h in Tracks(db, release) ensures RowHash(h) { assert Tracks(db, release)[h] in db.tracks; }
    forall h | h in Identifiers(db, release) ensures RowHash(h) { assert Identifiers(db, release)[h] in db.identifiers; }
  }

  predicate HashBeyond(hash: int, after: Option<int>) {
    after.None? || hash > after.value
  }

  /** The hashes releaseTracksSQL returns. */
  function TrackHashes(db: Database, release: int, after: Option<int>, k: nat): seq<int> {
    OrderedLimit(db.tracks, (row: Track) => row.releaseID == release && HashBeyond(row.hash, after), (row: Track) => row.hash, k)
  }

  /** The hashes releaseIdentifiersSQL returns. */
  function IdentifierHashes(db: Database, release: int, after: Option<int>, k: nat): seq<int> {
    OrderedLimit(db.identifiers, (row: Identifier) => row.releaseID == release && HashBeyond(row.hash, after), (row: Identifier) => row.hash, k)
  }

  lemma TrackSelected(db: Database, release: int, after: Option<int>, h: int)
    requires Valid(db)
    ensures h in Beyond(Tracks(db, release), after) <==>
      Selected(db.tracks, (row: Track) => row.releaseID == release && HashBeyond(row.hash, after), (row: Track) => row.hash, h)
  {
  }

  /** The track query is the keyset page of the release's tracks; an absent cursor bounds nothing. */
  lemma TrackQueryIsPage(db: Database, release: int, after: Option<int>, k: nat)
    requires Valid(db)
    ensures TrackHashes(db, release, after, k) == Keys(Fetch(Tracks(db, release), after, k))
  {
    var keep := (row: Track) => row.releaseID == release && HashBeyond(row.hash, after);
    var key := (row: Track) => row.hash;
    forall h ensures h in Beyond(Tracks(db, release), after) <==> Selected(db.tracks, keep, key, h) {
      TrackSelected(db, release, after, h);
    }
    OrderedLimitReadsListing(db.tracks, keep, key, k, Tracks(db, release), after);
  }

  lemma IdentifierSelected(db: Database, release: int, after: Option<int>, h: int)
    requires Valid(db)
    ensures h in Beyond(Identifiers(db, release), after) <==>
      Selected(db.identifiers, (row: Identifier) => row.releaseID == release && HashBeyond(row.hash, after), (row: Identifier) => row.hash, h)
  {
  }

  /** The same for identifiers. */
  lemma IdentifierQueryIsPage(db: Database, release: int, after: Option<int>, k: nat)
    requires Valid(db)
    ensures IdentifierHashes(db, release, after, k) == Keys(Fetch(Identifiers(db, release), after, k))
  {
    var keep := (row: Identifier) => row.releaseID == release && HashBeyond(row.hash, after);
    var key := (row: Identifier) => row.hash;
    forall h ensures h in Beyond(Identifiers(db, release), after) <==> Selected(db.identifiers, keep, key, h) {
      IdentifierSelected(db, release, after, h);
    }
    OrderedLimitReadsListing(db.identifiers, keep, key, k, Identifiers(db, release), after);
  }

  // ---------------------------------------------------------------- the whole call

  datatype Outcome<V> = Found(page: Page<V>) | NotFound

  /**
   ReleaseTracks and ReleaseIdentifiers: `children` is what the page statement sees, `releaseExists` what
   the later existence statement sees.
   */
  ghost function Call<V>(children: map<int, V>, releaseExists: bool, request: Pagination.HashPageRequest): Outcome<V> {
    var page := ServePage(children, request.afterHash, request.size);
    if |page.items| > 0 || releaseExists then Found(page) else NotFound
  }

  /**
   Across two committed states the call reports not-found exactly when the first holds no row
   beyond the cursor and the second no longer holds, or never held, the release. Either way a
   refused page would have ended the walk.
   */
  lemma NotFoundMeaning<V>(children: map<int, V>, releaseExists: bool, request: Pagination.HashPageRequest)
    requires request.size > 0
    ensures Call(children, releaseExists, request).NotFound? <==> Beyond(children, request.afterHash) == {} && !releaseExists
    ensures Call(children, releaseExists, request).NotFound? ==> ServePage(children, request.afterHash, request.size) == Page([], false)
  {
  }

  /**
   A page that is found is the page: the first rows beyond the cursor, and whether there are more.
   */
  lemma FoundIsThePage<V>(children: map<int, V>, releaseExists: bool, request: Pagination.HashPageRequest)
    requires request.size > 0 && Call(children, releaseExists, request).Found?
    ensures var page := Call(children, releaseExists, request).page; var beyond := Beyond(children, request.afterHash);
      && Keys(page.items) == FirstK(beyond, request.size)
      && (forall item :: item in page.items ==> item.key in children && children[item.key] == item.value)
      && (page.hasMore <==> |beyond| > request.size)
  {
    LookAheadIsExact(children, request.afterHash, request.size);
  }

  /** On a fixed catalog the call reports not-found iff the release is missing, for any cursor. */
  lemma NotFoundIffMissing(db: Database, release: int, request: Pagination.HashPageRequest)
    requires Valid(db) && request.size > 0
    ensures Call(Tracks(db, release), release in db.releases, request).NotFound? <==> release !in db.releases
    ensures Call(Identifiers(db, release), release in db.releases, request).NotFound? <==> release !in db.releases
  {
  }

  /**
   The first page of a walk starts at the very bottom of the 32-bit range: a row whose hash is the
   minimum is in it, because an absent cursor is not a number.
   */
  lemma MinimumHashDelivered<V>(children: map<int, V>, size: nat)
    requires size > 0 && Text.MIN_INT32 in children && KeysWithin(children, Text.MIN_INT32 - 1, Text.MAX_INT32)
    ensures Text.MIN_INT32 in Keys(ServePage(children, None, size).items)
  {
    LookAheadIsExact(children, None, size);
    var beyond := Beyond(children, None);
    assert Below(beyond, Text.MIN_INT32) == {};
    FirstKMembers(beyond, size, Text.MIN_INT32);
  }
}
