/**
 The stored catalog: the tables the queries read and the schema constraints they rely on. The
 schema itself belongs to another repository, so its constraints appear here as a predicate.
 */
module Catalog {
  import opened Wrappers
  import opened Collation
  import Calendar

  const MAXIMUM_RESOURCE_ID: int := 0x7FFF_FFFF

  /** A row of release_item. */
  datatype Release = Release(
    title: Option<string>, country: Option<string>, date: Option<Calendar.Date>,
    hasValidYear: bool, hasValidMonth: bool, isMaster: Option<bool>, masterID: Option<int>)

  /** A row of release_item_artist. */
  datatype MainArtist = MainArtist(releaseID: int, artistID: int)

  /** A row of release_item_credited_artist. */
  datatype CreditedArtist = CreditedArtist(releaseID: int, artistID: int, role: Option<string>)

  /** A row of label_release_item. */
  datatype LabelRelease = LabelRelease(labelID: int, releaseID: int, categoryNotation: Option<string>)

  /** A row of release_item_track. */
  datatype Track = Track(releaseID: int, hash: int, duration: Option<string>, position: Option<string>, title: Option<string>)

  /** A row of release_item_identifier. */
  datatype Identifier = Identifier(releaseID: int, hash: int, description: Option<string>, kind: Option<string>, value: Option<string>)

  /** Tables keyed by a resource ID are maps; relation tables are rows in storage order. */
  datatype Database = Database(
    releases: map<int, Release>,
    artists: map<int, Option<string>>,
    labels: map<int, Option<string>>,
    mainArtists: seq<MainArtist>,
    creditedArtists: seq<CreditedArtist>,
    labelReleases: seq<LabelRelease>,
    tracks: seq<Track>,
    identifiers: seq<Identifier>)

  /** What the server is configured with: its collation, case folding, substring match and digest. */
  datatype Engine = Engine(
    collation: Order,
    lower: string -> string,
    contains: (string, string) -> bool,
    digest: string -> int)

  ghost predicate ResourceID(id: int) { 1 <= id <= MAXIMUM_RESOURCE_ID }

  /** Row hashes are signed 32-bit integers. */
  ghost predicate RowHash(hash: int) { -0x8000_0000 <= hash <= 0x7FFF_FFFF }

  ghost predicate UniqueMainArtists(rows: seq<MainArtist>) {
    forall i, j :: 0 <= i < j < |rows| ==> rows[i] != rows[j]
  }

  ghost predicate UniqueLabelReleases(rows: seq<LabelRelease>) {
    forall i, j :: 0 <= i < j < |rows| && rows[i].categoryNotation.Some? ==> rows[i] != rows[j]
  }

  ghost predicate UniqueTracks(rows: seq<Track>) {
    forall i, j :: 0 <= i < j < |rows| ==> rows[i].releaseID != rows[j].releaseID || rows[i].hash != rows[j].hash
  }

  ghost predicate UniqueIdentifiers(rows: seq<Identifier>) {
    forall i, j :: 0 <= i < j < |rows| ==> rows[i].releaseID != rows[j].releaseID || rows[i].hash != rows[j].hash
  }

  /** The schema constraints: unique keys, real dates, 32-bit hashes, and relation rows that reference stored resources. */
  ghost predicate Valid(db: Database) {
    && (forall id :: id in db.releases ==> ResourceID(id))
    && (forall id :: id in db.releases && db.releases[id].date.Some? ==> Calendar.ValidDate(db.releases[id].date.value))
    && UniqueMainArtists(db.mainArtists)
    && UniqueLabelReleases(db.labelReleases)
    && UniqueTracks(db.tracks)
    && UniqueIdentifiers(db.identifiers)
    && (forall row :: row in db.mainArtists ==> row.releaseID in db.releases && row.artistID in db.artists)
    && (forall row :: row in db.creditedArtists ==> row.releaseID in db.releases && row.artistID in db.artists)
    && (forall row :: row in db.labelReleases ==> row.releaseID in db.releases && row.labelID in db.labels)
    && (forall row :: row in db.tracks ==> row.releaseID in db.releases && RowHash(row.hash))
    && (forall row :: row in db.identifiers ==> row.releaseID in db.releases && RowHash(row.hash))
  }
}
