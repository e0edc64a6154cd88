/**
 The transport side of keyset pagination: how query text becomes a page request, how a page
 becomes a response, and why a client that only copies cursor text between the two performs the
 abstract walk of module Keyset.
 */
module Pagination {
  import opened Text
  import opened Wrappers
  import opened Keyset
  import HashCursor
  import Catalog

  const DEFAULT_PAGE_SIZE := 20
  const MAXIMUM_PAGE_SIZE := 30
  const MAXIMUM_RESOURCE_ID: int := Catalog.MAXIMUM_RESOURCE_ID

  /** strings.TrimSpace(raw) == "". */
  predicate IsBlank(raw: Raw) { raw.Chars? && TrimSpace(raw.text) == "" }

  /** parseBoundedInt and parseBoundedInt64 (both integers are 64 bits wide); None is the error. */
  function ParseBounded(raw: Raw, fallback: int, minimum: int, maximum: int): Option<int> {
    if IsBlank(raw) then Some(fallback)
    else if raw.Malformed? then None
    else
      var value := ParseInt(raw.text, MIN_INT64, MAX_INT64);
      if value.None? || value.value < minimum || value.value > maximum then None else value
  }

  datatype PageRequest = PageRequest(afterID: int, size: nat)

  datatype HashPageRequest = HashPageRequest(afterHash: Option<int>, size: nat)

  function ParseSize(raw: Raw): (size: Option<nat>)
    ensures size.Some? ==> 1 <= size.value <= MAXIMUM_PAGE_SIZE
  {
    var parsed := ParseBounded(raw, DEFAULT_PAGE_SIZE, 1, MAXIMUM_PAGE_SIZE);
    if parsed.None? then None else Some(parsed.value)
  }

  /** parseCursorPage. */
  function ParseCursorPage(after: Raw, size: Raw): Option<PageRequest> {
    var afterID := ParseBounded(after, 0, 0, MAXIMUM_RESOURCE_ID);
    if afterID.None? then None
    else if ParseSize(size).None? then None
    else Some(PageRequest(afterID.value, ParseSize(size).value))
  }

  /** parseHashCursorPage. */
  function ParseHashCursorPage(cursor: Raw, size: Raw): Option<HashPageRequest> {
    match HashCursor.DecodeCursor(cursor)
    case InvalidCursor => None
    case NoCursor => if ParseSize(size).None? then None else Some(HashPageRequest(None, ParseSize(size).value))
    case Cursor(hash) => if ParseSize(size).None? then None else Some(HashPageRequest(Some(hash), ParseSize(size).value))
  }

  // ---------------------------------------------------------------- what a page request says

  /** No value at all, or nothing but white space. */
  ghost predicate IsAbsent(raw: Raw) { raw.Chars? && Blank(raw.text) }

  /** The parameter is a decimal numeral within its bounds. */
  ghost predicate NamesNumber(raw: Raw, minimum: int, maximum: int, n: int) {
    raw.Chars? && Denotes(raw.text, n) && minimum <= n <= maximum
  }

  /** The number a parameter stands for, with a fallback when it is absent. */
  ghost predicate NamesOrElse(raw: Raw, fallback: int, minimum: int, maximum: int, n: int) {
    if IsAbsent(raw) then n == fallback else NamesNumber(raw, minimum, maximum, n)
  }

  lemma BlankMeansAbsent(raw: Raw)
    ensures IsBlank(raw) <==> IsAbsent(raw)
  {
    if raw.Chars? { TrimSpaceBlank(raw.text); }
  }

  /** Bounded parameters: absent means the fallback, and otherwise only a numeral within the bounds is accepted. */
  lemma BoundedMeaning(raw: Raw, fallback: int, minimum: int, maximum: int, n: int)
    requires MIN_INT64 <= minimum && maximum <= MAX_INT64
    ensures ParseBounded(raw, fallback, minimum, maximum) == Some(n) <==> NamesOrElse(raw, fallback, minimum, maximum, n)
  {
    hide TrimSpace, ParseInt, Denotes;
    BlankMeansAbsent(raw);
    if raw.Chars? { ParseIntMeaning(raw.text, MIN_INT64, MAX_INT64, n); }
  }

  /** `size`: 20 when absent, otherwise a numeral from 1 to 30. */
  lemma SizeMeaning(raw: Raw, n: nat)
    ensures ParseSize(raw) == Some(n) <==> NamesOrElse(raw, 20, 1, 30, n)
  {
    hide NamesOrElse, ParseBounded;
    BoundedMeaning(raw, 20, 1, 30, n);
  }

  /** What an ID-cursor request says: after which resource, 0 meaning from the start, and how many rows. */
  ghost predicate NamesPage(after: Raw, size: Raw, p: PageRequest) {
    NamesOrElse(after, 0, 0, 0x7FFF_FFFF, p.afterID) && NamesOrElse(size, 20, 1, 30, p.size)
  }

  /** A page request is accepted exactly when both parameters are, and carries what they say. */
  lemma PageRequestMeaning(after: Raw, size: Raw, p: PageRequest)
    ensures ParseCursorPage(after, size) == Some(p) <==> NamesPage(after, size, p)
  {
    hide NamesOrElse, ParseBounded, ParseSize;
    BoundedMeaning(after, 0, 0, MAXIMUM_RESOURCE_ID, p.afterID);
    SizeMeaning(size, p.size);
  }

  /** What a hash-cursor request says: an absent cursor is no bound, any other is the hash it encodes. */
  ghost predicate NamesHashPage(cursor: Raw, size: Raw, p: HashPageRequest) {
    && (match p.afterHash case None => IsAbsent(cursor) case Some(hash) => HashCursor.DecodeCursor(cursor) == HashCursor.Cursor(hash))
    && NamesOrElse(size, 20, 1, 30, p.size)
  }

  lemma HashPageRequestMeaning(cursor: Raw, size: Raw, p: HashPageRequest)
    ensures ParseHashCursorPage(cursor, size) == Some(p) <==> NamesHashPage(cursor, size, p)
  {
    hide NamesOrElse, ParseSize, HashCursor.DecodeCursor;
    SizeMeaning(size, p.size);
    HashCursor.DecodedCursorInRange(cursor);
  }

  /** PageResponse and HashPageResponse: `next` is the text a client sends back. */
  datatype Response<V> = Response(items: seq<Item<V>>, next: Option<string>, hasMore: bool, pageSize: nat)

  function PageResponse<V>(page: Page<V>, write: int -> string): Response<V> {
    var next := NextAfter(page);
    Response(page.items, if next.None? then None else Some(write(next.value)), page.hasMore, |page.items|)
  }

  /** A response shows the page as it is: its rows, their number, whether there are more, and the cursor of its last row iff there are. */
  lemma ResponseMeaning<V>(table: map<int, V>, after: Option<int>, size: nat, write: int -> string)
    requires size > 0
    ensures var r := PageResponse(ServePage(table, after, size), write);
      && r.items == Fetch(table, after, size) && r.pageSize == |r.items|
      && (r.hasMore <==> |Beyond(table, after)| > size)
      && (if r.hasMore then |r.items| == size && r.next == Some(write(r.items[size - 1].key)) else r.next == None)
  {
    LookAheadIsExact(table, after, size);
  }

  // ---------------------------------------------------------------- text-driven walks

  /**
   A cursor scheme. `request` is the handler's parser: the lower bound for the query and the page
   size, or None for a refusal. `read` is what it makes of the cursor alone; `write` is the text of
   a row's key. Keys lie in `low + 1 .. high`.
   */
  datatype Scheme = Scheme(
    request: (string, Raw) -> Option<Bounds>, read: string -> Option<Option<int>>, write: int -> string, low: int, high: int)

  datatype Bounds = Bounds(after: Option<int>, size: nat)

  ghost predicate Faithful(s: Scheme) {
    && s.low <= s.high
    && (forall text, size :: s.request(text, size) ==
          if s.read(text).None? || ParseSize(size).None? then None else Some(Bounds(s.read(text).value, ParseSize(size).value)))
    && s.read("").Some? && (s.read("").value.None? || s.read("").value.value <= s.low)
    && forall k :: s.low < k <= s.high ==> s.read(s.write(k)) == Some(Some(k))
  }

  /** A client that knows nothing but the text it was last given. */
  datatype TextClient<V> = TextClient(cursor: string, received: seq<Item<V>>, finished: bool)

  /** What the client makes of a response. */
  function Received<V>(c: TextClient<V>, r: Response<V>): TextClient<V> {
    TextClient(if r.next.None? then "" else r.next.value, c.received + r.items, !r.hasMore)
  }

  datatype TextWorld<V> = TextWorld(table: map<int, V>, client: TextClient<V>)

  datatype TextEvent<V> = Committed(table: map<int, V>) | Asked(size: Raw)

  /** One request over the wire; a refused request leaves the client where it was. */
  ghost function TextStep<V>(s: Scheme, w: TextWorld<V>, e: TextEvent<V>): TextWorld<V> {
    match e
    case Committed(table) => w.(table := table)
    case Asked(size) =>
      var request := s.request(w.client.cursor, size);
      if w.client.finished || request.None? then w
      else
        var response := PageResponse(ServePage(w.table, request.value.after, request.value.size), s.write);
        w.(client := Received(w.client, response))
  }

  ghost function TextRun<V>(s: Scheme, w: TextWorld<V>, es: seq<TextEvent<V>>): TextWorld<V> {
    if es == [] then w else TextStep(s, TextRun(s, w, es[..|es| - 1]), es[|es| - 1])
  }

  /** The abstract events: refused requests disappear, the others carry their parsed size. */
  ghost function Abstracted<V>(es: seq<TextEvent<V>>): (abs: seq<Event<V>>)
    ensures PositiveSizes(abs)
  {
    if es == [] then []
    else
      Abstracted(es[..|es| - 1]) +
      match es[|es| - 1]
      case Committed(table) => [Commit(table)]
      case Asked(size) => if ParseSize(size).None? then [] else [Request(ParseSize(size).value)]
  }

  /** Two lower bounds that select the same rows of every table of the scheme. */
  ghost predicate SameBound(a: Option<int>, b: Option<int>, low: int) {
    a == b || ((a.None? || a.value <= low) && (b.None? || b.value <= low))
  }

  ghost predicate Tracks<V>(s: Scheme, t: TextWorld<V>, w: World<V>) {
    && t.table == w.table
    && t.client.received == w.client.received
    && t.client.finished == w.client.finished
    && (!w.client.finished ==> s.read(t.client.cursor).Some? && SameBound(s.read(t.client.cursor).value, w.client.cursor, s.low))
  }

  lemma SameBoundSamePage<V>(table: map<int, V>, a: Option<int>, b: Option<int>, low: int, high: int, size: nat)
    requires KeysWithin(table, low, high) && SameBound(a, b, low)
    ensures ServePage(table, a, size) == ServePage(table, b, size)
  {
    assert Beyond(table, a) == Beyond(table, b);
    RowsDetermined(table, Fetch(table, a, FetchSize(size)), Fetch(table, b, FetchSize(size)));
  }

  /** The cursor a page hands out is the key of one of its rows. */
  lemma NextIsAKey<V>(table: map<int, V>, after: Option<int>, size: nat, low: int, high: int)
    requires KeysWithin(table, low, high) && size > 0
    ensures var page := ServePage(table, after, size);
      if page.hasMore then NextAfter(page).Some? && low < NextAfter(page).value <= high else NextAfter(page).None?
  {
  }

  lemma RequestTracks<V>(s: Scheme, t: TextWorld<V>, w: World<V>, size: Raw)
    requires Faithful(s) && Tracks(s, t, w) && KeysWithin(w.table, s.low, s.high)
    requires ParseSize(size).Some? && !w.client.finished
    ensures Tracks(s, TextStep(s, t, Asked(size)), Step(w, Request(ParseSize(size).value)))
  {
    var n := ParseSize(size).value;
    var page := ServePage(w.table, w.client.cursor, n);
    SameBoundSamePage(w.table, s.read(t.client.cursor).value, w.client.cursor, s.low, s.high, n);
    NextIsAKey(w.table, w.client.cursor, n, s.low, s.high);
    assert s.request(t.client.cursor, size) == Some(Bounds(s.read(t.client.cursor).value, n));
    assert TextStep(s, t, Asked(size)) == t.(client := Received(t.client, PageResponse(page, s.write)));
    assert Step(w, Request(n)) == w.(client := Client(NextAfter(page), w.client.received + page.items, !page.hasMore));
    hide ServePage, TextStep, Step, ParseSize, KeysWithin, NextAfter;
  }

  lemma TextStepTracks<V>(s: Scheme, t: TextWorld<V>, w: World<V>, e: TextEvent<V>)
    requires Faithful(s) && Tracks(s, t, w) && KeysWithin(w.table, s.low, s.high)
    ensures Tracks(s, TextStep(s, t, e),
      match e
      case Committed(table) => Step(w, Commit(table))
      case Asked(size) => if ParseSize(size).None? then w else Step(w, Request(ParseSize(size).value)))
  {
    if e.Asked? && ParseSize(e.size).Some? && !w.client.finished {
      RequestTracks(s, t, w, e.size);
    }
  }

  ghost predicate TextTablesWithin<V>(t: TextWorld<V>, es: seq<TextEvent<V>>, low: int, high: int) {
    && KeysWithin(t.table, low, high)
    && forall n :: 0 <= n < |es| && es[n].Committed? ==> KeysWithin(es[n].table, low, high)
  }

  /**
   Copying cursor text is enough: over any interleaving of requests and commits, the client that
   passes the cursor back unchanged receives exactly what the abstract keyset walk receives.
   */
  lemma {:induction false} TextWalkTracks<V>(s: Scheme, t: TextWorld<V>, w: World<V>, es: seq<TextEvent<V>>)
    requires Faithful(s) && Tracks(s, t, w) && TextTablesWithin(t, es, s.low, s.high)
    ensures Tracks(s, TextRun(s, t, es), Run(w, Abstracted(es)))
    ensures KeysWithin(TextRun(s, t, es).table, s.low, s.high)
    ensures TablesWithin(w, Abstracted(es), s.low, s.high)
  {
    if es != [] {
      var front, e := es[..|es| - 1], es[|es| - 1];
      TextWalkTracks(s, t, w, front);
      TextStepTracks(s, TextRun(s, t, front), Run(w, Abstracted(front)), e);
      var abs := Abstracted(es);
      if e.Asked? && ParseSize(e.size).None? {
        assert abs == Abstracted(front);
      } else {
        assert abs[..|abs| - 1] == Abstracted(front);
      }
    }
  }

  // ---------------------------------------------------------------- the two schemes of the API

  /** `after_id`: the query always runs `id > after`, with 0 when the parameter is absent. */
  const ID_SCHEME: Scheme := Scheme(
    (text: string, size: Raw) => (var p := ParseCursorPage(Chars(text), size);
      if p.None? then None else Some(Bounds(Some(p.value.afterID), p.value.size))),
    (text: string) => (var id := ParseBounded(Chars(text), 0, 0, MAXIMUM_RESOURCE_ID);
      if id.None? then None else Some(Some(id.value))),
    FormatInt, 0, MAXIMUM_RESOURCE_ID)

  /** `cursor`: an absent cursor removes the lower bound. */
  const HASH_SCHEME: Scheme := Scheme(
    (text: string, size: Raw) => (var p := ParseHashCursorPage(Chars(text), size);
      if p.None? then None else Some(Bounds(p.value.afterHash, p.value.size))),
    (text: string) => (match HashCursor.DecodeCursor(Chars(text))
      case InvalidCursor => None
      case NoCursor => Some(None)
      case Cursor(hash) => Some(Some(hash))),
    HashCursor.EncodeHash, MIN_INT32 - 1, MAX_INT32)

  /**
   Resource IDs: `next_after_id` re-enters as the ID it names, and the sentinel 0 stands before
   every resource.
   */
  lemma IdSchemeFaithful()
    ensures Faithful(ID_SCHEME)
  {
    forall k | 0 < k <= MAXIMUM_RESOURCE_ID ensures ID_SCHEME.read(ID_SCHEME.write(k)) == Some(Some(k)) {
      ParseFormatInt(k, MIN_INT64, MAX_INT64);
      FormatIntTrimmed(k);
    }
    assert TrimSpace("") == "";
  }

  /** Hashes: `next_cursor` re-enters as the hash it names, for every 32-bit value. */
  lemma HashSchemeFaithful()
    ensures Faithful(HASH_SCHEME)
  {
    forall k | MIN_INT32 <= k <= MAX_INT32 ensures HASH_SCHEME.read(HASH_SCHEME.write(k)) == Some(Some(k)) {
      HashCursor.CursorRoundTrip(k);
    }
    assert TrimSpace("") == "";
  }

  ghost function TextStart<V>(table: map<int, V>): TextWorld<V> {
    TextWorld(table, TextClient("", [], false))
  }

  lemma TextStartTracks<V>(s: Scheme, table: map<int, V>, es: seq<TextEvent<V>>)
    requires s == ID_SCHEME || s == HASH_SCHEME
    requires TextTablesWithin(TextStart(table), es, s.low, s.high)
    ensures Tracks(s, TextRun(s, TextStart(table), es), Run(Start(table), Abstracted(es)))
    ensures TablesWithin(Start(table), Abstracted(es), s.low, s.high)
  {
    if s == ID_SCHEME { IdSchemeFaithful(); } else { HashSchemeFaithful(); }
    TextWalkTracks(s, TextStart(table), Start(table), es);
  }

  /** Event `n` is a request the service answers with a page. */
  ghost predicate Answered<V>(s: Scheme, table: map<int, V>, es: seq<TextEvent<V>>, n: nat) {
    n < |es| && es[n].Asked? && ParseSize(es[n].size).Some? && !TextRun(s, TextStart(table), es[..n]).client.finished
  }

  /** The key is in the table at each request that is answered. */
  ghost predicate TextStays<V>(s: Scheme, table: map<int, V>, es: seq<TextEvent<V>>, key: int) {
    forall n: nat :: Answered(s, table, es, n) ==> key in TextRun(s, TextStart(table), es[..n]).table
  }

  lemma TextPrefix<V>(s: Scheme, table: map<int, V>, es: seq<TextEvent<V>>, key: int)
    requires es != [] && TextStays(s, table, es, key)
    ensures TextStays(s, table, es[..|es| - 1], key)
  {
    var front := es[..|es| - 1];
    forall n: nat | Answered(s, table, front, n) ensures key in TextRun(s, TextStart(table), front[..n]).table {
      assert front[..n] == es[..n];
      assert Answered(s, table, es, n);
    }
  }

  lemma {:induction false} TextSkipsNothing<V>(s: Scheme, table: map<int, V>, es: seq<TextEvent<V>>, key: int)
    requires s == ID_SCHEME || s == HASH_SCHEME
    requires TextTablesWithin(TextStart(table), es, s.low, s.high) && TextStays(s, table, es, key)
    ensures NotSkipped(Run(Start(table), Abstracted(es)).client, key)
  {
    if es != [] {
      var front, e := es[..|es| - 1], es[|es| - 1];
      hide Faithful, TextStep, Step, NotSkipped, ParseSize, KeysWithin;
      TextPrefix(s, table, es, key);
      TextSkipsNothing(s, table, front, key);
      TextStartTracks(s, table, front);
      var abs := Abstracted(es);
      if e.Asked? && ParseSize(e.size).None? {
        assert abs == Abstracted(front);
      } else {
        assert abs[..|abs| - 1] == Abstracted(front);
        assert Answered(s, table, es, |front|) <==> e.Asked? && !TextRun(s, TextStart(table), front).client.finished;
        StepSkipsNothing(Run(Start(table), Abstracted(front)), abs[|abs| - 1], key);
      }
    }
  }

  /**
   The walk the API documents, end to end: for either cursor scheme, starting without a cursor and
   passing the returned text back while there is more, under arbitrary commits between requests,
   the delivered keys strictly increase, and a row present at every answered request has been
   delivered by the time the walk ends.
   */
  lemma DocumentedWalk<V>(s: Scheme, table: map<int, V>, es: seq<TextEvent<V>>, key: int)
    requires s == ID_SCHEME || s == HASH_SCHEME
    requires TextTablesWithin(TextStart(table), es, s.low, s.high)
    ensures OrderedSets.Ascending(Keys(TextRun(s, TextStart(table), es).client.received))
    ensures TextStays(s, table, es, key) && TextRun(s, TextStart(table), es).client.finished ==>
      key in Keys(TextRun(s, TextStart(table), es).client.received)
    ensures StaysPresent(Start(table), Abstracted(es), key) && TextRun(s, TextStart(table), es).client.finished ==>
      key in Keys(TextRun(s, TextStart(table), es).client.received)
  {
    TextStartTracks(s, table, es);
    WalkIsAscending(Start(table), Abstracted(es));
    if StaysPresent(Start(table), Abstracted(es), key) { WalkSkipsNothing(Start(table), Abstracted(es), key); }
    if TextStays(s, table, es, key) { TextSkipsNothing(s, table, es, key); }
  }

  lemma {:induction false} OnlyRequestsAbstracted<V>(es: seq<TextEvent<V>>)
    requires forall n :: 0 <= n < |es| ==> es[n].Asked?
    ensures forall n :: 0 <= n < |Abstracted(es)| ==> Abstracted(es)[n].Request?
  {
    if es != [] { OnlyRequestsAbstracted(es[..|es| - 1]); }
  }

  /** On a catalog that does not change, the concatenated pages are the whole table in key order. */
  lemma DocumentedWalkOfFixedCatalog<V>(s: Scheme, table: map<int, V>, es: seq<TextEvent<V>>)
    requires s == ID_SCHEME || s == HASH_SCHEME
    requires KeysWithin(table, s.low, s.high) && forall n :: 0 <= n < |es| ==> es[n].Asked?
    requires TextRun(s, TextStart(table), es).client.finished
    ensures TextRun(s, TextStart(table), es).client.received == Fetch(table, None, |table|)
  {
    TextStartTracks(s, table, es);
    OnlyRequestsAbstracted(es);
    FixedCatalogWalk(table, Abstracted(es));
  }

  /** How many requests carry an acceptable page size. */
  ghost function Acceptable<V>(es: seq<TextEvent<V>>): nat {
    if es == [] then 0
    else Acceptable(es[..|es| - 1]) + if es[|es| - 1].Asked? && ParseSize(es[|es| - 1].size).Some? then 1 else 0
  }

  lemma {:induction false} AcceptableAreRequests<V>(es: seq<TextEvent<V>>)
    ensures Requests(Abstracted(es)) == Acceptable(es)
  {
    if es != [] {
      var front, e := es[..|es| - 1], es[|es| - 1];
      AcceptableAreRequests(front);
      var abs := Abstracted(es);
      if e.Asked? && ParseSize(e.size).None? {
        assert abs == Abstracted(front);
      } else {
        assert abs[..|abs| - 1] == Abstracted(front);
      }
    }
  }

  /** The documented walk ends once more requests have been accepted than the key range has values. */
  lemma DocumentedWalkEnds<V>(s: Scheme, table: map<int, V>, es: seq<TextEvent<V>>)
    requires s == ID_SCHEME || s == HASH_SCHEME
    requires TextTablesWithin(TextStart(table), es, s.low, s.high)
    requires Acceptable(es) > s.high - s.low
    ensures TextRun(s, TextStart(table), es).client.finished
  {
    TextStartTracks(s, table, es);
    AcceptableAreRequests(es);
    WalkTerminates(Start(table), Abstracted(es), 1, s.low, s.high);
  }
}
