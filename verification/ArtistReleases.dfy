/**
 An artist's releases. The query cuts both arms of a UNION to the page size before it
 aggregates roles; here it is shown to be the keyset page of the unbounded listing, and that
 listing is shown to agree with what the release detail says about the same artist.
 */
module ArtistReleases {
  import opened Wrappers
  import opened Catalog
  import opened Collation
  import opened OrderedSets
  import opened Relational
  import opened Keyset

  const MAIN_ROLE := "Main"

  datatype ArtistRelease = ArtistRelease(role: Option<string>, release: Release)

  // ---------------------------------------------------------------- the meaning

  ghost predicate IsMainArtist(db: Database, artist: int, release: int) {
    MainArtist(release, artist) in db.mainArtists
  }

  ghost predicate IsCredited(db: Database, artist: int, release: int) {
    exists i :: 0 <= i < |db.creditedArtists|
      && db.creditedArtists[i].artistID == artist && db.creditedArtists[i].releaseID == release
  }

  ghost predicate Credits(db: Database, artist: int, release: int, role: string) {
    exists i :: 0 <= i < |db.creditedArtists|
      && db.creditedArtists[i].artistID == artist && db.creditedArtists[i].releaseID == release
      && db.creditedArtists[i].role.Some? && TrimSpaces(db.creditedArtists[i].role.value) == role
  }

  /** `role` is one of the roles in which the artist takes part in the release. */
  ghost predicate TakesPartAs(db: Database, artist: int, release: int, role: string) {
    (role == MAIN_ROLE && IsMainArtist(db, artist, release)) || Credits(db, artist, release, role)
  }

  ghost predicate TakesPart(db: Database, artist: int, release: int) {
    IsMainArtist(db, artist, release) || IsCredited(db, artist, release)
  }

  /** The role column: the artist's distinct roles in collation order, or NULL when none is named. */
  ghost predicate IsRoleText(le: Order, db: Database, artist: int, release: int, role: Option<string>) {
    exists roles: seq<string> ::
      && StrictlyOrdered(le, roles)
      && (forall r :: r in roles <==> TakesPartAs(db, artist, release, r))
      && role == if roles == [] then None else Some(Join(roles, ","))
  }

  // ---------------------------------------------------------------- the role aggregate

  function MainRoles(rows: seq<MainArtist>, artist: int, release: int): seq<Option<string>> {
    if rows == [] then []
    else
      (if rows[0].artistID == artist && rows[0].releaseID == release then [Some(MAIN_ROLE)] else [])
      + MainRoles(rows[1..], artist, release)
  }

  function CreditedRoles(rows: seq<CreditedArtist>, artist: int, release: int): seq<Option<string>> {
    if rows == [] then []
    else
      (if rows[0].artistID == artist && rows[0].releaseID == release then [rows[0].role] else [])
      + CreditedRoles(rows[1..], artist, release)
  }

  function Trimmed(rows: seq<Option<string>>): seq<Option<string>> {
    seq(|rows|, i requires 0 <= i < |rows| => TrimOption(rows[i]))
  }

  /** The LATERAL sub-query: main rows and credited rows of one artist and release. */
  function RelatedRoles(db: Database, artist: int, release: int): seq<Option<string>> {
    MainRoles(db.mainArtists, artist, release) + CreditedRoles(db.creditedArtists, artist, release)
  }

  ghost function AggregatedRole(engine: Engine, db: Database, artist: int, release: int): Option<string>
    requires TotalOrder(engine.collation)
  {
    StringAgg(engine.collation, Trimmed(RelatedRoles(db, artist, release)))
  }

  lemma {:induction false} MainRolesMembers(rows: seq<MainArtist>, artist: int, release: int, x: Option<string>)
    ensures x in MainRoles(rows, artist, release) <==> x == Some(MAIN_ROLE) && MainArtist(release, artist) in rows
  {
    if rows != [] {
      MainRolesMembers(rows[1..], artist, release, x);
      assert rows == [rows[0]] + rows[1..];
    }
  }

  lemma {:induction false} CreditedRolesMembers(rows: seq<CreditedArtist>, artist: int, release: int, x: Option<string>)
    ensures x in CreditedRoles(rows, artist, release) <==> CreditedArtist(release, artist, x) in rows
  {
    if rows != [] {
      CreditedRolesMembers(rows[1..], artist, release, x);
      assert rows == [rows[0]] + rows[1..];
    }
  }

  lemma CreditedRow(db: Database, artist: int, release: int)
    ensures IsCredited(db, artist, release) <==> exists role :: CreditedArtist(release, artist, role) in db.creditedArtists
  {
  }

  lemma RelatedRolesMembers(db: Database, artist: int, release: int, role: string)
    ensures role in Present(Trimmed(RelatedRoles(db, artist, release))) <==> TakesPartAs(db, artist, release, role)
  {
    var rows := RelatedRoles(db, artist, release);
    assert TrimSpaces(MAIN_ROLE) == MAIN_ROLE;
    if role in Present(Trimmed(rows)) {
      var i :| 0 <= i < |rows| && Trimmed(rows)[i] == Some(role);
      MainRolesMembers(db.mainArtists, artist, release, rows[i]);
      CreditedRolesMembers(db.creditedArtists, artist, release, rows[i]);
      assert rows[i] in rows;
    }
    if TakesPartAs(db, artist, release, role) {
      var x: Option<string> := Some(role);
      if role == MAIN_ROLE && IsMainArtist(db, artist, release) {
        MainRolesMembers(db.mainArtists, artist, release, x);
      } else {
        var j :| 0 <= j < |db.creditedArtists|
          && db.creditedArtists[j].artistID == artist && db.creditedArtists[j].releaseID == release
          && db.creditedArtists[j].role.Some? && TrimSpaces(db.creditedArtists[j].role.value) == role;
        x := db.creditedArtists[j].role;
        assert db.creditedArtists[j] == CreditedArtist(release, artist, x);
        CreditedRolesMembers(db.creditedArtists, artist, release, x);
      }
      assert x in rows;
      var k :| 0 <= k < |rows| && rows[k] == x;
      assert Trimmed(rows)[k] == Some(role);
    }
  }

  /**
   The listed role is the sorted, duplicate-free join of the artist's trimmed roles. `Main` is one
   of them exactly when a main-artist row exists or a credit itself trims to `Main`: see
   `TakesPartAs`.
   */
  lemma AggregatedRoleText(engine: Engine, db: Database, artist: int, release: int)
    requires TotalOrder(engine.collation)
    ensures IsRoleText(engine.collation, db, artist, release, AggregatedRole(engine, db, artist, release))
  {
    var texts := Present(Trimmed(RelatedRoles(db, artist, release)));
    var roles := SortText(engine.collation, texts);
    forall r ensures r in roles <==> TakesPartAs(db, artist, release, r) {
      RelatedRolesMembers(db, artist, release, r);
    }
    assert texts == {} <==> roles == [];
  }

  lemma RelatedRolesExist(db: Database, artist: int, release: int)
    ensures RelatedRoles(db, artist, release) != [] <==> TakesPart(db, artist, release)
  {
    var rows := RelatedRoles(db, artist, release);
    HeadIsMember(rows);
    CreditedRow(db, artist, release);
    if rows != [] {
      MainRolesMembers(db.mainArtists, artist, release, rows[0]);
      CreditedRolesMembers(db.creditedArtists, artist, release, rows[0]);
    }
    if IsMainArtist(db, artist, release) { MainRolesMembers(db.mainArtists, artist, release, Some(MAIN_ROLE)); }
    if role :| CreditedArtist(release, artist, role) in db.creditedArtists {
      CreditedRolesMembers(db.creditedArtists, artist, release, role);
    }
  }

  lemma RolesOf(engine: Engine, db: Database, artist: int, release: int) returns (roles: seq<string>)
    requires TotalOrder(engine.collation)
    ensures StrictlyOrdered(engine.collation, roles)
    ensures forall r :: r in roles <==> TakesPartAs(db, artist, release, r)
    ensures AggregatedRole(engine, db, artist, release) == if roles == [] then None else Some(Join(roles, ","))
  {
    AggregatedRoleText(engine, db, artist, release);
    roles :| StrictlyOrdered(engine.collation, roles)
      && (forall r :: r in roles <==> TakesPartAs(db, artist, release, r))
      && AggregatedRole(engine, db, artist, release) == if roles == [] then None else Some(Join(roles, ","));
  }

  ghost predicate ReadsBack(engine: Engine, db: Database, artist: int, release: int)
    requires TotalOrder(engine.collation)
  {
    var text := AggregatedRole(engine, db, artist, release);
    forall r :: (text.Some? && r in SplitAt(text.value, ',')) <==> TakesPartAs(db, artist, release, r)
  }

  /** Splitting the role text gives the artist's roles exactly when none of them holds a comma. */
  lemma RoleTextReadsBack(engine: Engine, db: Database, artist: int, release: int)
    requires TotalOrder(engine.collation)
    ensures ReadsBack(engine, db, artist, release) <==> forall r :: TakesPartAs(db, artist, release, r) ==> ',' !in r
  {
    hide TakesPartAs, AggregatedRole;
    var roles := RolesOf(engine, db, artist, release);
    if roles != [] {
      PiecesAreClean(Join(roles, ","), ',');
      if forall r :: TakesPartAs(db, artist, release, r) ==> ',' !in r { JoinSplits(roles, ','); }
    }
  }

  /** The roles the aggregate joins. */
  function ListedRoles(db: Database, artist: int, release: int): set<string> {
    Present(Trimmed(RelatedRoles(db, artist, release)))
  }

  /** `Main` tells main artists from credited ones exactly when no other artist has a credit that trims to `Main`. */
  lemma MainMeansMainArtist(db: Database, artist: int, release: int)
    ensures (MAIN_ROLE in ListedRoles(db, artist, release) <==> IsMainArtist(db, artist, release)) <==>
      (Credits(db, artist, release, MAIN_ROLE) ==> IsMainArtist(db, artist, release))
  {
    RelatedRolesMembers(db, artist, release, MAIN_ROLE);
  }

  /** A catalog of one release and one artist, with these credits between them. */
  function CreditsOnly(roles: seq<string>): (db: Database)
    ensures Valid(db)
  {
    Database(
      map[1 := Release(None, None, None, false, false, None, None)], map[1 := None], map[], [],
      seq(|roles|, i requires 0 <= i < |roles| => CreditedArtist(1, 1, Some(roles[i]))), [], [], [])
  }

  lemma CreditsOnlyRoles(roles: seq<string>, r: string)
    ensures TakesPartAs(CreditsOnly(roles), 1, 1, r) <==> exists i :: 0 <= i < |roles| && TrimSpaces(roles[i]) == r
  {
    var db := CreditsOnly(roles);
    if i :| 0 <= i < |roles| && TrimSpaces(roles[i]) == r {
      assert db.creditedArtists[i] == CreditedArtist(1, 1, Some(roles[i]));
    }
  }

  /** The role text of those credits, when they are in collation order and need no trimming. */
  lemma CreditsOnlyText(engine: Engine, roles: seq<string>, sorted: seq<string>)
    requires TotalOrder(engine.collation) && StrictlyOrdered(engine.collation, sorted) && sorted != []
    requires forall r :: r in sorted <==> exists i :: 0 <= i < |roles| && TrimSpaces(roles[i]) == r
    ensures AggregatedRole(engine, CreditsOnly(roles), 1, 1) == Some(Join(sorted, ","))
  {
    hide TakesPartAs, AggregatedRole, Join;
    var found := RolesOf(engine, CreditsOnly(roles), 1, 1);
    forall r ensures r in found <==> r in sorted { CreditsOnlyRoles(roles, r); }
    OrderedUnique(engine.collation, found, sorted);
  }

  lemma OneCreditText(engine: Engine, x: string)
    requires TotalOrder(engine.collation) && TrimSpaces(x) == x
    ensures AggregatedRole(engine, CreditsOnly([x]), 1, 1) == Some(x) && TakesPartAs(CreditsOnly([x]), 1, 1, x)
  {
    hide TrimSpaces, AggregatedRole, TakesPartAs;
    assert [x][0] == x;
    CreditsOnlyText(engine, [x], [x]);
    CreditsOnlyRoles([x], x);
  }

  lemma TwoCreditsText(engine: Engine, roles: seq<string>, x: string, y: string)
    requires TotalOrder(engine.collation) && TrimSpaces(x) == x && TrimSpaces(y) == y
    requires x != y && engine.collation(x, y) && (roles == [x, y] || roles == [y, x])
    ensures AggregatedRole(engine, CreditsOnly(roles), 1, 1) == Some(x + "," + y)
    ensures forall r :: TakesPartAs(CreditsOnly(roles), 1, 1, r) <==> r == x || r == y
  {
    hide TrimSpaces, AggregatedRole, TakesPartAs, CreditsOnly;
    assert (roles[0] == x && roles[1] == y) || (roles[0] == y && roles[1] == x);
    CreditsOnlyText(engine, roles, [x, y]);
    forall r ensures TakesPartAs(CreditsOnly(roles), 1, 1, r) <==> r == x || r == y { CreditsOnlyRoles(roles, r); }
  }

  /** A credit with a comma is listed like two credits; which of the two texts it takes is up to the collation. */
  lemma CommaLooksLikeTwoRoles(engine: Engine)
    requires TotalOrder(engine.collation)
    ensures var text := if engine.collation("a", "b") then "a,b" else "b,a";
      && AggregatedRole(engine, CreditsOnly([text]), 1, 1) == AggregatedRole(engine, CreditsOnly(["a", "b"]), 1, 1) == Some(text)
      && TakesPartAs(CreditsOnly([text]), 1, 1, text) && !TakesPartAs(CreditsOnly(["a", "b"]), 1, 1, text)
  {
    hide AggregatedRole, TakesPartAs, CreditsOnly;
    if engine.collation("a", "b") {
      OneCreditText(engine, "a,b");
      TwoCreditsText(engine, ["a", "b"], "a", "b");
      assert "a" + "," + "b" == "a,b";
    } else {
      OneCreditText(engine, "b,a");
      TwoCreditsText(engine, ["a", "b"], "b", "a");
      assert "b" + "," + "a" == "b,a";
    }
  }

  /** A credit that trims to `Main` is listed as `Main` although the artist is not a main artist. */
  lemma CreditedMain(engine: Engine)
    requires TotalOrder(engine.collation)
    ensures AggregatedRole(engine, CreditsOnly([" Main "]), 1, 1) == Some(MAIN_ROLE)
    ensures !IsMainArtist(CreditsOnly([" Main "]), 1, 1)
  {
    assert [" Main "][0] == " Main " && " Main "[1..] == "Main " && "Main "[..4] == "Main";
    assert TrimSpaces("Main") == "Main" && TrimSpaces("Main ") == "Main" && TrimSpaces(" Main ") == "Main";
    CreditsOnlyText(engine, [" Main "], [MAIN_ROLE]);
  }

  // ---------------------------------------------------------------- the listing and its query

  /** The unbounded listing: every stored release the artist takes part in. */
  ghost function Listing(engine: Engine, db: Database, artist: int): map<int, ArtistRelease>
    requires TotalOrder(engine.collation)
  {
    map r | r in db.releases && TakesPart(db, artist, r) ::
      ArtistRelease(AggregatedRole(engine, db, artist, r), db.releases[r])
  }

  function MainArm(db: Database, artist: int, after: int, k: nat): seq<int> {
    OrderedLimit(db.mainArtists, (row: MainArtist) => row.artistID == artist && row.releaseID > after,
      (row: MainArtist) => row.releaseID, k)
  }

  function CreditedKeys(db: Database, artist: int, after: int): set<int> {
    SelectDistinctKeys(db.creditedArtists, (row: CreditedArtist) => row.artistID == artist && row.releaseID > after,
      (row: CreditedArtist) => row.releaseID)
  }

  /** matching_release: both arms limited to k, united, ordered and limited to k again. */
  ghost function MatchingReleases(db: Database, artist: int, after: int, k: nat): seq<int> {
    FirstK(Members(MainArm(db, artist, after, k)) + Members(FirstK(CreditedKeys(db, artist, after), k)), k)
  }

  /** The joined rows the closing filter, ORDER BY and LIMIT see. */
  ghost function Joined(engine: Engine, db: Database, artist: int, after: int, k: nat): map<int, ArtistRelease>
    requires TotalOrder(engine.collation)
  {
    map r | r in Members(MatchingReleases(db, artist, after, k)) && RelatedRoles(db, artist, r) != [] && r in db.releases ::
      ArtistRelease(AggregatedRole(engine, db, artist, r), db.releases[r])
  }

  /** artistReleasesSQL. */
  ghost function Query(engine: Engine, db: Database, artist: int, after: int, k: nat): seq<Item<ArtistRelease>>
    requires TotalOrder(engine.collation)
  {
    Fetch(Joined(engine, db, artist, after, k), Some(after), k)
  }

  ghost function MainKeys(db: Database, artist: int, after: int): set<int> {
    SelectDistinctKeys(db.mainArtists, (row: MainArtist) => row.artistID == artist && row.releaseID > after,
      (row: MainArtist) => row.releaseID)
  }

  lemma MainKeysMembers(db: Database, artist: int, after: int, r: int)
    ensures r in MainKeys(db, artist, after) <==> after < r && IsMainArtist(db, artist, r)
  {
    var keep := (row: MainArtist) => row.artistID == artist && row.releaseID > after;
    var key := (row: MainArtist) => row.releaseID;
    SelectMembers(db.mainArtists, keep, key, r);
    if Selected(db.mainArtists, keep, key, r) {
      var i :| 0 <= i < |db.mainArtists| && keep(db.mainArtists[i]) && key(db.mainArtists[i]) == r;
      assert db.mainArtists[i] == MainArtist(r, artist);
    }
    if after < r && IsMainArtist(db, artist, r) {
      var i :| 0 <= i < |db.mainArtists| && db.mainArtists[i] == MainArtist(r, artist);
      assert keep(db.mainArtists[i]);
    }
  }

  lemma CreditedKeysMembers(db: Database, artist: int, after: int, r: int)
    ensures r in CreditedKeys(db, artist, after) <==> after < r && IsCredited(db, artist, r)
  {
    var keep := (row: CreditedArtist) => row.artistID == artist && row.releaseID > after;
    var key := (row: CreditedArtist) => row.releaseID;
    SelectMembers(db.creditedArtists, keep, key, r);
    if Selected(db.creditedArtists, keep, key, r) {
      var i :| 0 <= i < |db.creditedArtists| && keep(db.creditedArtists[i]) && key(db.creditedArtists[i]) == r;
    }
    if after < r && IsCredited(db, artist, r) {
      var i :| 0 <= i < |db.creditedArtists| && db.creditedArtists[i].artistID == artist && db.creditedArtists[i].releaseID == r;
      assert keep(db.creditedArtists[i]);
    }
  }

  lemma TakesPartStored(db: Database, artist: int, release: int)
    requires Valid(db) && TakesPart(db, artist, release)
    ensures release in db.releases
  {
  }

  /** The releases of the listing beyond the cursor are the two arms without their limits. */
  lemma ListingBeyond(engine: Engine, db: Database, artist: int, after: int)
    requires Valid(db) && TotalOrder(engine.collation)
    ensures Beyond(Listing(engine, db, artist), Some(after)) == MainKeys(db, artist, after) + CreditedKeys(db, artist, after)
  {
    forall r ensures r in Beyond(Listing(engine, db, artist), Some(after)) <==> r in MainKeys(db, artist, after) + CreditedKeys(db, artist, after) {
      MainKeysMembers(db, artist, after, r);
      CreditedKeysMembers(db, artist, after, r);
      if TakesPart(db, artist, r) { TakesPartStored(db, artist, r); }
    }
  }

  lemma MainArmIsFirstK(db: Database, artist: int, after: int, k: nat)
    requires UniqueMainArtists(db.mainArtists)
    ensures MainArm(db, artist, after, k) == FirstK(MainKeys(db, artist, after), k)
  {
    OrderedLimitIsFirstK(db.mainArtists, (row: MainArtist) => row.artistID == artist && row.releaseID > after,
      (row: MainArtist) => row.releaseID, k);
  }

  lemma FirstKMembersAreCut(s: set<int>, k: nat)
    ensures Members(FirstK(s, k)) == Cut(s, k)
  {
    FirstKIsCut(s, k);
  }

  /**
   Limit pushdown is sound: limiting each arm before the UNION yields the first k distinct
   releases of the unlimited UNION.
   */
  lemma PushdownSound(engine: Engine, db: Database, artist: int, after: int, k: nat)
    requires Valid(db) && TotalOrder(engine.collation)
    ensures MatchingReleases(db, artist, after, k) == FirstK(Beyond(Listing(engine, db, artist), Some(after)), k)
  {
    hide Cut, FirstK, Listing, Beyond, MainKeys, CreditedKeys, MainArm;
    var a, b := MainKeys(db, artist, after), CreditedKeys(db, artist, after);
    ListingBeyond(engine, db, artist, after);
    MainArmIsFirstK(db, artist, after, k);
    FirstKMembersAreCut(a, k);
    FirstKMembersAreCut(b, k);
    UnionOfCuts(a, b, k);
  }

  /** Cutting both sides of a union before it is taken changes nothing. */
  lemma UnionOfCuts(a: set<int>, b: set<int>, k: nat)
    ensures FirstK(Cut(a, k) + Cut(b, k), k) == FirstK(a + b, k)
  {
    CutOfUnion(a, b, k);
    CutSandwich(a + b, Cut(a, k) + Cut(b, k), k);
  }

  lemma JoinedIsListing(engine: Engine, db: Database, artist: int, after: int, k: nat)
    requires Valid(db) && TotalOrder(engine.collation)
    ensures Joined(engine, db, artist, after, k).Keys == Cut(Beyond(Listing(engine, db, artist), Some(after)), k)
    ensures forall r :: r in Joined(engine, db, artist, after, k) ==>
      r in Listing(engine, db, artist) && Joined(engine, db, artist, after, k)[r] == Listing(engine, db, artist)[r]
  {
    var listing := Listing(engine, db, artist);
    var beyond := Beyond(listing, Some(after));
    PushdownSound(engine, db, artist, after, k);
    FirstKMembersAreCut(beyond, k);
    forall r | r in Cut(beyond, k) ensures RelatedRoles(db, artist, r) != [] && r in db.releases && r in listing {
      RelatedRolesExist(db, artist, r);
    }
  }

  /**
   The whole query, with its early limits, its join and its closing filter and limit, returns the
   keyset page of the unbounded listing.
   */
  lemma QueryIsPage(engine: Engine, db: Database, artist: int, after: int, k: nat)
    requires Valid(db) && TotalOrder(engine.collation)
    ensures Query(engine, db, artist, after, k) == Fetch(Listing(engine, db, artist), Some(after), k)
  {
    var listing := Listing(engine, db, artist);
    var joined := Joined(engine, db, artist, after, k);
    var beyond := Beyond(listing, Some(after));
    JoinedIsListing(engine, db, artist, after, k);
    assert Beyond(joined, Some(after)) == Cut(beyond, k);
    CutSandwich(beyond, Cut(beyond, k), k);
    RowsDetermined(listing, Query(engine, db, artist, after, k), Fetch(listing, Some(after), k));
  }

  // ---------------------------------------------------------------- agreement with the detail

  /** A row of the release detail's artist sub-query before grouping. */
  datatype Relation = Relation(artistID: int, role: Option<string>)

  datatype DetailArtist = DetailArtist(name: Option<string>, role: Option<string>)

  function MainRelations(rows: seq<MainArtist>, release: int): seq<Relation> {
    if rows == [] then []
    else (if rows[0].releaseID == release then [Relation(rows[0].artistID, Some(MAIN_ROLE))] else []) + MainRelations(rows[1..], release)
  }

  function CreditedRelations(rows: seq<CreditedArtist>, release: int): seq<Relation> {
    if rows == [] then []
    else (if rows[0].releaseID == release then [Relation(rows[0].artistID, rows[0].role)] else []) + CreditedRelations(rows[1..], release)
  }

  function Relations(db: Database, release: int): seq<Relation> {
    MainRelations(db.mainArtists, release) + CreditedRelations(db.creditedArtists, release)
  }

  function RolesIn(rows: seq<Relation>, artist: int): seq<Option<string>> {
    if rows == [] then []
    else (if rows[0].artistID == artist then [rows[0].role] else []) + RolesIn(rows[1..], artist)
  }

  /** The artists of the release detail: relations joined with the artist table, grouped by artist. */
  ghost function Detail(engine: Engine, db: Database, release: int): map<int, DetailArtist>
    requires TotalOrder(engine.collation)
  {
    map a | a in db.artists && RolesIn(Relations(db, release), a) != [] ::
      DetailArtist(db.artists[a], StringAgg(engine.collation, Trimmed(RolesIn(Relations(db, release), a))))
  }

  lemma {:induction false} RolesInConcat(a: seq<Relation>, b: seq<Relation>, artist: int)
    ensures RolesIn(a + b, artist) == RolesIn(a, artist) + RolesIn(b, artist)
  {
    if a == [] {
      assert a + b == b;
    } else {
      RolesInConcat(a[1..], b, artist);
      assert (a + b)[1..] == a[1..] + b;
      var first := if a[0].artistID == artist then [a[0].role] else [];
      assert first + (RolesIn(a[1..], artist) + RolesIn(b, artist)) == (first + RolesIn(a[1..], artist)) + RolesIn(b, artist);
    }
  }

  lemma {:induction false} RolesInMain(rows: seq<MainArtist>, artist: int, release: int)
    ensures RolesIn(MainRelations(rows, release), artist) == MainRoles(rows, artist, release)
  {
    if rows != [] {
      RolesInMain(rows[1..], artist, release);
      RolesInConcat(if rows[0].releaseID == release then [Relation(rows[0].artistID, Some(MAIN_ROLE))] else [],
        MainRelations(rows[1..], release), artist);
    }
  }

  lemma {:induction false} RolesInCredited(rows: seq<CreditedArtist>, artist: int, release: int)
    ensures RolesIn(CreditedRelations(rows, release), artist) == CreditedRoles(rows, artist, release)
  {
    if rows != [] {
      RolesInCredited(rows[1..], artist, release);
      RolesInConcat(if rows[0].releaseID == release then [Relation(rows[0].artistID, rows[0].role)] else [],
        CreditedRelations(rows[1..], release), artist);
    }
  }

  /**
   Two views, one fact: an artist appears in a release's detail exactly when the release appears
   in the artist's listing, and both show the same role text.
   */
  lemma ViewsAgree(engine: Engine, db: Database, artist: int, release: int)
    requires Valid(db) && TotalOrder(engine.collation)
    ensures artist in Detail(engine, db, release) <==> release in Listing(engine, db, artist)
    ensures artist in Detail(engine, db, release) ==>
      artist in db.artists && Detail(engine, db, release)[artist].name == db.artists[artist]
      && Detail(engine, db, release)[artist].role == Listing(engine, db, artist)[release].role
  {
    RolesInConcat(MainRelations(db.mainArtists, release), CreditedRelations(db.creditedArtists, release), artist);
    RolesInMain(db.mainArtists, artist, release);
    RolesInCredited(db.creditedArtists, artist, release);
    assert RolesIn(Relations(db, release), artist) == RelatedRoles(db, artist, release);
    RelatedRolesExist(db, artist, release);
    if IsMainArtist(db, artist, release) { assert MainArtist(release, artist) in db.mainArtists; }
    if IsCredited(db, artist, release) {
      CreditedRow(db, artist, release);
      var role :| CreditedArtist(release, artist, role) in db.creditedArtists;
    }
  }
}
