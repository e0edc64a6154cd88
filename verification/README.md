# A verified model of the OpenDiscogs API

The service answers read-only HTTP requests over a PostgreSQL catalog that importers change while
it runs. This project models the parts of it whose correctness spans several functions, several
requests or several goroutines, and proves what they promise for every input, every database state
and every schedule. `dafny verify dfyconfig.toml` checks all of it.

## How the model is put together

**Pages and walks.** `OrderedSets` gives two readings of `ORDER BY key LIMIT k`: the first k keys as
a sequence, and the keys that fewer than k keys precede, as a set. `Keyset` is one page request and
whole walks over a table that any commit may replace between two requests; both page types of the
catalog package are this one module. `Text` and `HashCursor` hold the decimal printer and parser and
the unpadded URL-safe base64 of section 5 of RFC 4648. `Pagination` shows that a client that only
copies cursor text performs the walk of `Keyset`.

**Queries.** `Catalog` holds the tables and, as the predicate `Valid`, the schema constraints that
the SQL relies on (unique keys, references to stored rows, resource IDs in 1..2^31-1, 32-bit row hashes, real dates).
`Relational` is `SELECT ... WHERE` with and without `DISTINCT` over rows in storage order,
`Collation` is `string_agg(DISTINCT trim(x), ',' ORDER BY ...)` for any total order. Every endpoint
gets an unbounded listing, described by facts about stored rows, and a query in the shape of its SQL;
the main theorem of each is that the query is the keyset page of the listing, for every database,
cursor and limit. `EndpointWalks` puts all of it together: a client that knows only the cursor text
it was given, requests that run such a query, and imports that replace the database in between.

**Concurrency.** The load generator's worker pool, the response buffer pool, the server start and
stop routine and the request wrapper are state machines over interleaved steps with an inductive
invariant. What these routines do in place, inside one goroutine, is a class or a method with a
loop, proved against a specification; the buffer pool's class and state machine share the functions
`Taken` and `Offered` for the two channel effects.

**Decisions.** `ReleaseQuery` is the dispatch of the release collection, `Config` the layering and
validation of settings, `Inventory` the OpenAPI coverage gate and the regression gate.

Database text comparison (collation, `lower`, `ILIKE`, `md5`) enters as parameters, so nothing
depends on a particular server. The two statements of a track or identifier request are given two
independent database states.

## Where the code differs from what one might expect

The model follows the code. Each of these is proved.

- README.md:77 promises that a flag and its variable mean the same. Flags read integers with base
  prefixes and underscores and do not trim, variables in base 10: `010` is 8 as a flag and 10 as a
  variable (`Config.LeadingZeroDiffers`). `Config.FlagMeansVariable` says for every setting and
  text when the two agree; they accept an integer with one meaning iff it is decimal text without
  outer white space that has no leading zero or is below 8 in magnitude
  (`Config.IntegerFlagMeansVariable`).
- The range check on the trace sampling ratio accepts NaN (`Config.NaNRatioIsAccepted`); the ratio
  of an accepted configuration lies in [0, 1] iff it is not NaN (`Config.AcceptedIsExact`).
- Searching by year and month does not consult the month flag once a year is given, so a row whose
  month is unknown can be selected while the response shows no month; and year 0 selects the rows of
  1 BC, whose response year is -1 (`ReleaseSearch.FilterDisagreements`).
  `ReleaseSearch.FilterAgreesWithResponse` gives the exact condition on the row and the request.
- A credited role that trims to `Main` is listed as `Main` without a main-artist row
  (`ArtistReleases.CreditedMain`). `Main` is listed iff there is such a row exactly when a credit
  that trims to `Main` comes with one (`ArtistReleases.MainMeansMainArtist`).
- A role that holds a comma cannot be told from two roles (`ArtistReleases.CommaLooksLikeTwoRoles`);
  the role text reads back exactly iff no role holds one (`ArtistReleases.RoleTextReadsBack`).
- A stored catalog number with outer white space, or longer than 1000 characters, is listed but
  cannot be looked up (`ReleaseQuery.ListedButUnreachable`): numbers are reachable iff they are
  trimmed and short enough (`ReleaseQuery.ReachableNumbers`).
- A serving goroutine of the start and stop routine can be stranded on its send iff there are more
  than two servers; the service starts two (`Serve.LeakIffMoreThanTwo`).
- A request goes uncounted and leaves its gauge up iff the handler panics before its headers and
  the problem response panics as well (`RequestAccounting.Wrap`, `RequestAccounting.GaugeAtRest`).
  The standard library's own writer does not panic for that response; a writer wrapped around it may.
- The gauge goes down and the counter up in two steps, so in between, where a scrape may look, the
  gauge is below the number of requests started and not counted; the two are equal iff no request
  of the route stands between the steps (`RequestAccounting.LedgerIsExact`).
- The arm of the artist query without `DISTINCT` needs unique (artist, release) rows: a repeated
  row would push releases off the page (`Relational.BagLimitNeedsDistinct`), and the arm is right
  for every limit iff no row repeats a release (`Relational.BagArmNeedsDistinct`).

## Model

| member | source | states |
|---|---|---|
| Keyset.LookAheadIsExact | internal/catalog/catalog.go:67-81 | trimming the look-ahead row leaves the first `size` rows beyond the cursor; `HasMore` iff the table holds further ones; a cursor is handed out iff there is more, and it is the last delivered key |
| Keyset.PageSplitsTable | internal/catalog/catalog.go:51-81 | a key beyond the cursor is on the page iff it is not beyond the next cursor: pages neither overlap nor leave gaps |
| Keyset.WalkIsAscending | internal/catalog/catalog.go:67-81 | for any interleaving of page requests and commits the delivered keys strictly increase, so nothing is delivered twice |
| Keyset.WalkSkipsNothing | internal/catalog/catalog.go:67-81 | a key present at each request of the walk has been delivered once the walk is finished, whatever else is committed |
| Keyset.WalkInventsNothing | internal/postgres/store.go:47-57 | every delivered row stood in the table, with that content, at a request of the walk |
| Keyset.RequestConsumesKeyspace | internal/catalog/catalog.go:67-81 | each request that does not end the walk shrinks the distance from cursor to maximum key by at least the page size |
| Keyset.WalkTerminates | internal/catalog/catalog.go:67-81 | no walk makes more requests than the keyspace divided by the smallest page size, however much is inserted meanwhile |
| Keyset.FixedCatalogWalk | internal/postgres/store.go:47-68 | on a fixed table the concatenated pages are the whole table in key order, for any mix of page sizes |
| Text.TrimSpaceDrops | internal/httpapi/request.go:72-85 | trimming removes a blank prefix and a blank suffix and leaves text with no outer white space |
| Text.TrimSpaceBlank | internal/httpapi/pagination.go:102-105 | trimming gives the empty text exactly for blank text |
| Text.SpaceCharacters | internal/httpapi/request.go:76 | the 25 characters that are trimmed |
| Text.ParseFormatInt | internal/httpapi/pagination.go:93-116 | parsing a printed integer gives it back, for every integer within the parser's width |
| Text.ParseIntMeaning | internal/httpapi/pagination.go:118-138 | the parser accepts exactly an optional sign, leading zeros and a printed number within its bounds, and yields that number |
| HashCursor.DecodeEncode | internal/httpapi/pagination.go:93-116 | base64 decoding inverts encoding on every byte sequence |
| HashCursor.DecodeAccepts | internal/httpapi/pagination.go:106-109 | text without line breaks decodes iff it stays in the alphabet and its last group is not a single character, to 3 bytes for each 4 characters |
| HashCursor.NewlinesIgnored | internal/httpapi/pagination.go:106-109 | a line break makes no difference, wherever it stands |
| HashCursor.GroupsKeepBits | internal/httpapi/pagination.go:97-98 | an encoded group, read as a number, is its bytes followed by zero bits, for full and for short groups |
| HashCursor.EncodedLength | internal/httpapi/pagination.go:97-98 | n bytes take exactly ceil(4n/3) characters: no padding |
| HashCursor.EncodedHashIsUrlSafe | internal/httpapi/pagination.go:93-100 | a printed cursor is not blank, carries no white space and uses only the URL-safe alphabet |
| HashCursor.CursorRoundTrip | internal/httpapi/pagination.go:93-116 | every signed 32-bit hash, the minimum included, survives the trip through its cursor text |
| HashCursor.DecodedCursorInRange | internal/httpapi/pagination.go:102-116 | no cursor iff the text is blank; a decoded cursor is always in 32-bit range |
| HashCursor.DecodedCursorMeaning | internal/httpapi/pagination.go:102-116 | a cursor is read iff it is not blank and decodes to a decimal numeral in 32-bit range, and is that number |
| HashCursor.AlphabetOrder | internal/httpapi/pagination.go:97-98 | the 64 characters stand in the order of RFC 4648: where each run begins, and that runs count upwards |
| HashCursor.CursorTexts | internal/httpapi/pagination.go:93-100 | the cursors of 42, -1 and 123 as they appear in responses |
| Pagination.SizeMeaning | internal/httpapi/pagination.go:74-77 | a size is accepted iff it is absent, meaning 20, or a numeral from 1 to 30 |
| Pagination.PageRequestMeaning | internal/httpapi/pagination.go:63-79 | an ID-cursor request is accepted iff both parameters are, and carries the resource ID its text names, 0 when absent, and its size |
| Pagination.HashPageRequestMeaning | internal/httpapi/pagination.go:81-91 | a hash-cursor request is accepted iff both parameters are; an absent cursor is no bound, any other the hash it encodes |
| Pagination.ResponseMeaning | internal/httpapi/pagination.go:35-61 | a response shows the page's rows and their number, whether there are more, and the cursor of its last row iff there are |
| Pagination.TextWalkTracks | internal/httpapi/pagination.go:35-91 | a client that copies cursor text back through the handlers' own parsers receives what the abstract walk receives, refused requests and commits included |
| Pagination.IdSchemeFaithful | internal/httpapi/pagination.go:63-79 | `next_after_id` re-enters as the ID it names, and the sentinel 0 stands before every resource |
| Pagination.HashSchemeFaithful | internal/httpapi/pagination.go:49-61 | `next_cursor` re-enters as the hash it names for every 32-bit value; no cursor means no lower bound |
| Pagination.DocumentedWalk | README.md:127-137 | the documented way to page, over either cursor, under arbitrary commits and refused requests: strictly increasing keys, and every row present at each answered request is delivered |
| Pagination.DocumentedWalkEnds | README.md:127-137 | the documented walk is finished once more requests were accepted than the key range has values |
| Pagination.DocumentedWalkOfFixedCatalog | README.md:127-137 | on a fixed catalog the documented walk delivers the table in key order |
| EndpointWalks.WalkIsViewed | internal/postgres/store.go:47-68 | a text-driven walk whose requests run a query that serves a view is the walk over the view, over any imports |
| EndpointWalks.EndpointWalk | README.md:127-137 | over any imports, a client that copies cursor text through an endpoint is given strictly increasing keys and every key that is in the endpoint's view at each answered request |
| EndpointWalks.EndpointWalkEnds | README.md:127-137 | for either cursor, the walk is finished once more requests were acceptable than the cursor's range has values, however much is imported meanwhile |
| EndpointWalks.EndpointFixed | README.md:127-137 | while nothing is imported, the concatenated pages of a finished walk through an endpoint are its whole view in key order |
| EndpointWalks.ArtistReleasesWalk | internal/postgres/related.go:128-145 | following `next_after_id` through an artist's releases during imports never repeats a release and misses none in which the artist took part throughout |
| EndpointWalks.LookupWalkAgrees | internal/postgres/release_lookup.go:11-23 | the full catalog-number lookup walk for a label and a number delivers a release iff the full walk of the label's releases shows that number for it |
| EndpointWalks.ChildWalkIsWalk | internal/postgres/release_children.go:36-94 | a walk through the whole call, existence check and not-found included, delivers what the page queries alone would, whatever the later statement sees |
| EndpointWalks.TracksWalk | internal/postgres/release_children.go:36-64 | the full walk through the calls for a release's tracks delivers exactly its stored tracks by ascending hash, each once |
| EndpointWalks.IdentifiersWalk | internal/postgres/release_children.go:66-94 | the same for its identifiers |
| EndpointWalks.ArtistReleasesServe | internal/postgres/related.go:128-145 | in every valid database the artist query is the keyset page of the artist's listing, an absent cursor included, and its keys fit the cursor |
| EndpointWalks.LabelReleasesServe | internal/postgres/related.go:147-164 | the same for a label's releases |
| EndpointWalks.MasterReleasesServe | internal/postgres/related.go:166-183 | the same for a master's releases, whatever order they are stored in |
| EndpointWalks.NumberLookupServes | internal/postgres/release_lookup.go:44-66 | the same for the catalog-number lookup |
| EndpointWalks.IdentifierLookupServes | internal/postgres/release_lookup.go:68-90 | the same for the identifier lookup |
| EndpointWalks.ReleaseSearchServes | internal/postgres/search.go:139-164 | the same for the filtered release search |
| EndpointWalks.ReleaseTracksServe | internal/postgres/release_children.go:36-56 | the same for a release's tracks by hash, where an absent cursor is no bound at all |
| EndpointWalks.ReleaseIdentifiersServe | internal/postgres/release_children.go:66-86 | the same for a release's identifiers |
| OrderedSets.FirstKIsCut | internal/postgres/related.go:19-20 | the first k keys in order are exactly the keys that fewer than k keys precede |
| OrderedSets.CutSandwich | internal/postgres/related.go:32-33 | limiting any candidate set between the true first k and the full set gives the true first k |
| OrderedSets.CutOfUnion | internal/postgres/related.go:11-33 | the first k of a union come from the first k of each arm |
| Relational.OrderedLimitIsFirstK | internal/postgres/related.go:14-21 | a limited arm without DISTINCT equals the first k distinct keys when the rows it keeps have distinct keys |
| Relational.JoinedCandidatesArePage | internal/postgres/related.go:99-101 | joining release rows to candidates already cut to k gives the keyset page of the listing |
| Relational.BagArmNeedsDistinct | internal/postgres/related.go:14-21 | the limited arm reads the first k distinct keys for every k iff no key is selected twice |
| Relational.BagLimitNeedsDistinct | internal/postgres/related.go:14-21 | without that uniqueness a limited arm can lose a key that belongs on the page |
| Collation.JoinSplits | internal/postgres/related.go:36 | a comma-joined text splits back into its pieces when no piece holds a comma |
| Collation.TrimSpacesExact | internal/postgres/related.go:36 | `trim` drops the spaces at both ends and nothing else |
| ArtistReleases.PushdownSound | internal/postgres/related.go:11-34 | limiting both arms before the UNION gives the first k distinct releases of the unlimited UNION after the cursor |
| ArtistReleases.QueryIsPage | internal/postgres/related.go:11-60 | the whole query, with early limits, lateral aggregation, join and closing filter and limit, is the keyset page of all releases the artist takes part in |
| ArtistReleases.AggregatedRoleText | internal/postgres/related.go:34-50 | the role text is the collated, duplicate-free join of the trimmed credited roles, plus `Main` for a main-artist row; NULL when there is none |
| ArtistReleases.RoleTextReadsBack | internal/postgres/related.go:34-50 | splitting the role text gives exactly the artist's roles iff none of them holds a comma |
| ArtistReleases.CommaLooksLikeTwoRoles | internal/postgres/related.go:36 | in two valid catalogs, one credit with a comma and two credits without are listed with the same text |
| ArtistReleases.MainMeansMainArtist | internal/postgres/related.go:38-47 | `Main` is listed iff a main-artist row exists, exactly when a credit that trims to `Main` comes with such a row |
| ArtistReleases.CreditedMain | internal/postgres/related.go:36-47 | a valid catalog in which a padded `Main` credit is listed as `Main` without a main-artist row |
| ArtistReleases.ViewsAgree | internal/postgres/details.go:179-201 | an artist is in a release's detail iff the release is in the artist's listing, under the stored name and with the same role text |
| LabelReleases.QueryIsPage | internal/postgres/related.go:62-102 | the label query is the keyset page of a listing with one row per release, however many catalog numbers a release has |
| LabelReleases.RowIsRelease | internal/postgres/related.go:70-79 | a delivered row is a stored release on the label beyond the cursor, with its own title and its year iff that is valid |
| LabelReleases.CatalogNumbersExact | internal/postgres/related.go:80-93 | grouping and ordering the stored rows shows the non-null catalog numbers in collation order, each once, none lost |
| LabelReleases.ArtistTextExact | internal/postgres/related.go:71-76 | the artist text joins the distinct names of the release's main artists in collation order; NULL without any |
| LabelReleases.QueryByNumberIsPage | internal/postgres/release_lookup.go:11-23 | the catalog-number lookup, though its candidates are not made DISTINCT, is the keyset page of the releases carrying the number |
| LabelReleases.LookupAgreesWithListing | internal/postgres/release_lookup.go:11-23 | in every valid catalog the releases that carry a number on a label are those whose row in the label listing shows it |
| LabelReleases.DetailAgreesWithListing | internal/postgres/details.go:202-212 | a release's detail names a label, with or without a number, iff the label's listing holds the release, and with a number iff the listing shows that number for it |
| LabelReleases.QueryByIdentifierIsPage | internal/postgres/release_lookup.go:25-38 | for any digest, colliding or not, the page is the first k distinct releases with a matching identifier; repeated identifiers take one slot |
| MasterReleases.GroupOfJoined | internal/postgres/related.go:114-119 | after the LEFT JOIN a selected release has at least one row, and grouping gives exactly its own rows back |
| MasterReleases.QueryIsPage | internal/postgres/related.go:104-121 | the grouped query is the keyset page of a listing with one row per release: many artists do not use up the limit, releases without artists are kept |
| MasterReleases.ListingMembers | internal/postgres/related.go:114-118 | a release is listed iff its master is the one asked for |
| MasterReleases.RowIsRelease | internal/postgres/related.go:104-121 | a delivered row is a stored release of the master beyond the cursor, with its own title and its year iff that is valid |
| MasterReleases.ArraysAligned | internal/postgres/related.go:105-112 | the name and ID arrays have equal length, hold each main artist once in ID order, and agree position by position |
| Calendar.YearStep | internal/postgres/search.go:174-178 | Gregorian year lengths add up through leap years, centuries and 400-year cycles |
| Calendar.MonthsFillYear | internal/postgres/search.go:174-178 | the twelve month lengths add up to the year's length, leap or not |
| Calendar.MonthStarts | internal/postgres/search.go:174-178 | the day on which each month of a common and of a leap year begins |
| Calendar.EarlierMonthEarlierDay | internal/postgres/search.go:63 | a date in an earlier calendar month has a smaller day number |
| Calendar.FirstOfMonthSplits | internal/postgres/search.go:63 | comparing with the first of a month decides whether a date lies in that month or later |
| Calendar.EpochDistance | internal/postgres/search.go:174 | the day count agrees with the known distance between 1970-01-01 and 2000-01-01 |
| ReleaseSearch.RangeIsFieldTest | internal/postgres/search.go:166-180 | for every date, year and month, lying in the half-open range means having that year, and that month when given |
| ReleaseSearch.MonthsPartitionYear | internal/postgres/search.go:166-180 | the twelve month ranges cover the year range and are disjoint |
| ReleaseSearch.FilterAgreesWithResponse | internal/postgres/search.go:63-64 | selection and shown year and month agree on a row iff, should its date be valid and fall in the requested period, the year is positive and, with a month, the row's month is valid |
| ReleaseSearch.FilterDisagreements | internal/postgres/search.go:13-17 | both ways of disagreeing occur |
| ReleaseSearch.QueryIsPage | internal/postgres/search.go:54-68 | the search query is the keyset page of the releases that meet each given condition, written out on the columns: title, country, master, year and month |
| ReleaseChildren.TrackQueryIsPage | internal/postgres/release_children.go:11-16 | the track query is the keyset page of the release's tracks for a present or absent cursor |
| ReleaseChildren.IdentifierQueryIsPage | internal/postgres/release_children.go:18-23 | the identifier query likewise |
| ReleaseChildren.NotFoundMeaning | internal/postgres/release_children.go:36-64 | across two database states, not-found iff the first holds nothing beyond the cursor and the second lacks the release |
| ReleaseChildren.NotFoundIffMissing | internal/postgres/release_children.go:66-105 | on a fixed catalog, not-found iff the release is missing, for any cursor, even past the end |
| ReleaseChildren.FoundIsThePage | internal/postgres/release_children.go:57-63 | a page that is found is the first rows beyond the cursor, with `HasMore` iff there are further ones |
| ReleaseChildren.MinimumHashDelivered | internal/postgres/release_children.go:11-23 | a row at the minimum 32-bit hash is on the first page |
| ReleaseQuery.NumberLookupMeaning | internal/httpapi/release_lookup.go:35-83 | a catalog-number lookup results iff both its halves are present and well formed, no identifier half is, and no other filter carries text |
| ReleaseQuery.IdentifierLookupMeaning | internal/httpapi/release_lookup.go:85-122 | an identifier lookup results iff both its halves are present and well formed, no catalog-number half is, and no other filter carries text |
| ReleaseQuery.FilterMeaning | internal/httpapi/release.go:49-77 | a search results iff no lookup key is present and every filter is absent or well formed, with a year whenever there is a month |
| ReleaseQuery.DispatchMeaning | internal/httpapi/release.go:20-87 | which reader is called, and with what lookup, filter and page, is decided by the text of the request; everything else is refused before any reader is called |
| ReleaseQuery.RepeatsAreIgnored | internal/httpapi/release.go:20-87 | of a repeated parameter only the first value counts |
| ReleaseQuery.SearchListsAnswers | internal/postgres/search.go:139-164 | an accepted search lists exactly the stored releases that meet each filter of the request |
| ReleaseQuery.AcceptedInputIsClean | internal/httpapi/request.go:72-85 | whatever reaches a reader is within bounds, has no outer white space and is unchanged by the storage layer's own normalisation |
| ReleaseQuery.ReachableNumbers | internal/httpapi/release_lookup.go:57-83 | a catalog number can be looked up iff it has no outer white space and 1 to 1000 characters |
| ReleaseQuery.ListedButUnreachable | internal/httpapi/release_lookup.go:57-83 | a valid catalog lists a number with a leading space that no request at all asks for |
| ReleaseQuery.PathIDMeaning | internal/httpapi/request.go:34-40 | a path names a resource iff it is a decimal numeral from 1 to 2^31-1 |
| ReleaseQuery.ChildRequestMeaning | internal/httpapi/release.go:131-141 | a child request is accepted iff path, cursor and size are, and carries what they say |
| ReleaseQuery.ChildRequestContinues | internal/httpapi/release.go:131-141 | the path ID and cursor text of a delivered page are accepted again and name the same release and row |
| WorkerPool.NeverPanics | scripts/api-performance-load.go:321-343 | in every schedule no send or close meets a closed channel and the wait group does not go below zero |
| WorkerPool.NeverStuck | scripts/api-performance-load.go:321-366 | in every schedule some step is enabled until the collector has finished |
| WorkerPool.WithoutWorkersStuck | scripts/api-performance-load.go:321-343 | the positive concurrency demanded by the options is needed: without workers nothing can ever move |
| WorkerPool.ScheduleIsFinite | scripts/api-performance-load.go:321-366 | every schedule is finite, bounded by a measure of its first state |
| WorkerPool.OneAnswerPerJob | scripts/api-performance-load.go:325-366 | when the collector finishes it holds exactly one sample for each job, from as many workers as the smaller of concurrency and requests |
| WorkerPool.CollectedIsPerformed | scripts/api-performance-load.go:329-366 | in every schedule each sample received is one a worker measured for that job, and the collector ends with all measured samples, unchanged |
| LoadReport.Collect | scripts/api-performance-load.go:344-366 | one pass counts successes and failures, sums the bytes and keeps the durations of the successes in order, and reports the first failure that has a message |
| LoadReport.Report | scripts/api-performance-load.go:321-377 | under every schedule the report accounts for each request once, and its successes, bytes and percentiles are those of the samples the workers measured |
| LoadReport.TotalsIgnoreOrder | scripts/api-performance-load.go:363-375 | successes, bytes and the bag of durations depend on the samples and not on the order in which they arrive |
| LoadReport.PercentileInBounds | scripts/api-performance-load.go:395-398 | the index exists for every non-empty list and fraction in (0, 1] |
| LoadReport.PercentileIsLeast | scripts/api-performance-load.go:395-398 | the percentile is a sample with at least that fraction of samples at or below it, and no smaller value has as many |
| LoadReport.PercentilesAscend | scripts/api-performance-load.go:395-398 | percentiles are monotone in the fraction |
| LoadReport.ReportedPercentilesAscend | scripts/api-performance-load.go:370-375 | p50 <= p95 <= p99 for every non-empty list of durations |
| Inventory.IndexOperations | scripts/api-performance-load.go:265-274 | whatever order the paths are visited in, the index holds a route of every data operation, or an operation without ID is named |
| Inventory.MatchScenarios | scripts/api-performance-load.go:275-285 | passes iff every scenario names an indexed operation and its route; the covered set is exactly the named IDs; otherwise the error tells of the first mismatch |
| Inventory.MissingOperations | scripts/api-performance-load.go:286-291 | lists exactly the indexed IDs that are not covered, each once |
| Inventory.ValidateInventory | scripts/api-performance-load.go:256-297 | success implies complete coverage; with unique operation IDs completeness implies success; the missing list is exactly the uncovered IDs in order |
| Inventory.IndexBaseline | scripts/api-performance-load.go:434-437 | of several baseline entries of one name the last one counts |
| Inventory.ChangeExceeds | scripts/api-performance-load.go:448-451 | the change in percent exceeds the limit iff the new value exceeds the baseline grown by that percentage |
| Inventory.CompareBaseline | scripts/api-performance-load.go:416-474 | the gate passes iff conditions agree, every scenario has a positive baseline and none is slower by more than both limits; each refusal has its stated cause, and a regression report names the slower scenarios in order |
| BufferPool.Responder.GetBuffer | internal/httpapi/responder.go:113-121 | the buffer is empty, was held by nobody and is no longer pooled; buffers held by others are untouched |
| BufferPool.Responder.PutBuffer | internal/httpapi/responder.go:123-132 | an oversized buffer or a full pool drops it; otherwise it joins the pool, emptied |
| BufferPool.Responder.WriteJSON | internal/httpapi/responder.go:53-70 | the body is the document and nothing left from earlier responses, Content-Length is its length, a preset content type stays, cache headers go on successes only, and the buffer returns to the pool |
| BufferPool.RunKeepsPool | internal/httpapi/responder.go:113-132 | over any interleaving no buffer is held twice or both held and pooled, and pooled buffers are empty, small and at most 16 |
| BufferPool.RetainsAtMostFourMiB | internal/httpapi/responder.go:15-18 | in every reachable state the pool retains at most the documented 4 MiB |
| BufferPool.HandedOutEmptyAndPrivate | internal/httpapi/responder.go:113-121 | a buffer handed out is empty, and no step of another request can change it |
| BufferPool.NeverBlocks | internal/httpapi/responder.go:113-132 | in every reachable state exactly one branch of each select can go ahead, the default one for a returned buffer iff 16 are pooled, so no request waits for another |
| BufferPool.TakingAlone | internal/httpapi/responder.go:113-121 | undisturbed, the steps of taking a buffer have the effect of `GetBuffer` |
| BufferPool.GivingBackAlone | internal/httpapi/responder.go:123-132 | undisturbed, the steps of giving a buffer back have the effect of `PutBuffer` |
| Serve.ListenAll | internal/app/app.go:137-147 | either every listener is open, or the first failure is reported and exactly the earlier listeners exist, all closed |
| Serve.CloseListeners | internal/app/app.go:175-179 | every listener ends up closed |
| Serve.StopServers | internal/app/app.go:161-172 | the result joins the received error and the shutdown errors in order, and is nil iff all of them are |
| Serve.EveryServerIsStopped | internal/app/app.go:161-173 | whichever event fires first, a returned routine has called shutdown on each server once and in order |
| Serve.ResultMeaning | internal/app/app.go:149-173 | over all runs the result is the received error, at most one and one that a server returned, joined with what the shutdown calls answered, in order; nil iff none is an error |
| Serve.SendsNeverBlock | internal/app/app.go:149-159 | with at most two servers each goroutine's send is possible as soon as it is due, though at most one is received |
| Serve.ShutdownNeverStuck | internal/app/app.go:149-173 | once an event has fired, some step is possible until the routine has returned and every goroutine has reported |
| Serve.ScheduleIsFinite | internal/app/app.go:149-173 | every step but a repeated cancellation uses up a measure, so no run is infinite |
| Serve.EveryRunCompletes | internal/app/app.go:149-173 | a run with n servers, at most two, makes at most 4n+2 steps, and where it can go no further after an event every server was told to shut down and every goroutine's send went through |
| Serve.LeakIffMoreThanTwo | internal/app/app.go:31 | a goroutine can be left waiting on its send for ever iff there are more than two servers |
| RequestAccounting.StatusWriter.WriteHeader | internal/httpapi/router.go:124-131 | only the first status reaches the underlying writer, and it is the one recorded |
| RequestAccounting.StatusWriter.Write | internal/httpapi/router.go:133-138 | a body without a header sends and records 200 first |
| RequestAccounting.Metrics.RequestStarted | internal/observability/metrics.go:45-49 | raises the gauge of the route, when enabled, and nothing else |
| RequestAccounting.Metrics.RequestFinished | internal/observability/metrics.go:51-59 | lowers that gauge, counts the request once and observes one duration under its labels, when enabled |
| RequestAccounting.RunHandler | internal/httpapi/router.go:118-138 | whatever the handler does, the status it sends first is the only one sent, and a panic is noticed iff a call that reaches the wire panics or it panics itself |
| RequestAccounting.Wrap | internal/httpapi/router.go:84-103 | the gauge returns and the request is counted and its duration observed once, with the first status sent or 200, unless it panics before headers and the problem response panics too, before its header, in it or in its body |
| RequestAccounting.LedgerIsExact | internal/observability/metrics.go:45-59 | over any interleaving of the separate gauge, counter and histogram steps, a route's gauge is started minus lowered and never negative, each counter the requests counted, each histogram those observed; the gauge equals started and not counted iff no request of the route stands in between |
| RequestAccounting.GaugeAtRest | internal/httpapi/router.go:84-103 | when every request has finished or was lost, a route's gauge is zero iff none of its requests was lost |
| RequestAccounting.AloneIsWrap | internal/httpapi/router.go:84-103 | one request alone, step by step, leaves gauge, counter and histogram as `Wrap` leaves them |
| Config.RawValues.FromEnvironment | internal/config/config.go:286-334 | succeeds iff each variable is absent, blank where that means the default, or parses; then each setting holds that value or its default |
| Config.RawValues.ApplyFlags | internal/config/config.go:257-284 | succeeds iff the arguments are well-formed flags with values that parse; then each setting holds its last flag value, else what it held before |
| Config.LoadRaw | internal/config/config.go:207-219 | each loaded setting takes its last flag value, else its variable's, else its default |
| Config.NextFlagReads | internal/config/config.go:211-219 | a flag is read iff the arguments start with one of its forms: `-name=text` or `--name=text`, a switch alone, or any other followed by its value |
| Config.FlagReachesSetting | internal/config/config.go:257-284 | every setting is reached by its own flag and each control switch by its own; no two share a name |
| Config.RefusalMeaning | internal/config/config.go:464-522 | a flag or a variable is refused iff the parser of its own type refuses it; unset and blank variables never are |
| Config.FieldsLoaded | internal/config/config.go:257-334 | each loaded field is its own flag's last value, else its own variable, else its own default, all 24 written out |
| Config.ValidateMeaning | internal/config/config.go:336-412 | validation yields a configuration iff every setting is within its bounds, and each field carries its own setting, numbers without loss |
| Config.Load | internal/config/config.go:207-224 | from environment and arguments to the configuration: each field is the value its own setting took, and a failure has one of the named reasons |
| FlagIntegers.DecimalAgrees | internal/config/config.go:263-277 | a decimal integer keeps its value when read as a flag iff it has no leading zero or is below 8 in magnitude |
| FlagIntegers.FlagIntegerTrimmed | internal/config/config.go:263-277 | integer flags accept no outer white space and no empty text |
| FlagIntegers.Prefixes | internal/config/config.go:263-277 | `0x10`, `0b10` and `0o10` as flags are 16, 2 and 8 |
| FlagIntegers.Underscores | internal/config/config.go:263-277 | underscores are accepted between digits only |
| Config.IntegerFlagMeansVariable | README.md:77 | an integer flag and its variable both accept a text and give it one meaning iff the text is a plain decimal integer |
| Config.FlagMeansVariable | README.md:77 | for every setting and every text, refused text included, a flag and its variable agree iff it is a text setting, a plain integer, other text that needs no trimming, or text that both refuse |
| Config.LeadingZeroDiffers | internal/config/config.go:476-486 | `010` is 8 as a flag and 10 as a variable |
| Config.AcceptedIsExact | internal/config/config.go:336-412 | an accepted configuration loses no number: bytes are MiB times 2^20 within 64 bits, connection counts narrow unchanged with 0 <= min <= max <= 1024; the ratio is in [0, 1] iff it is not NaN |
| Config.NaNRatioIsAccepted | internal/config/config.go:388-390 | replacing the ratio by NaN never turns an accepted configuration into a refused one |
| Config.LoadedIsTyped | internal/config/config.go:286-334 | whatever was loaded has the type its setting demands, with integers in 64 bits |

## Left out

- JSON encoding and decoding, row scanners, sockets, HTTP serving, signals, timeouts, query errors and logging: library or process behaviour. A reader call that fails is outside the model.
- PostgreSQL itself: plans, indexes, collations, `ILIKE`, `lower`, `md5` and privileges; the text operations are parameters. The schema check in internal/postgres/schema.go is not part of this model.
- Bytes of UTF-8: text is a sequence of characters, or malformed.
- Artist, label and master searches, resource details beyond the artist and label sub-queries, and the snapshot: the same keyset shape with fewer conditions, or straight-line copies.
- The fixed HTTP and pool timeouts of a configuration, which no setting changes.
- Columns that a query copies without computing on them, and the format column of a label's releases, which aggregates as the artist column does.
- The version, healthcheck and help switches of the command line, which end loading before the settings are read, and the parsing of URLs, network addresses, booleans, ratios and durations. What a settings parser other than the integer ones accepts is a parameter.
- The texts of error messages: a refusal is a refusal. The listening and inventory errors keep what they name.
- Floating point: fractions, thresholds and percentages are exact; a sampling ratio keeps its infinities and NaN.
- The warm-up, the report file and the table printed by the load generator.
- LoadReport.Collect: does not model 64-bit overflow of the byte total, which would take 2^63 bytes of responses.
- Inventory.ValidateInventory: says nothing about success when two data operations share an ID, because the outcome then depends on the order in which Go visits the map.
- ReleaseSearch.QueryIsPage: takes months in 1..12 only, which is all the handler lets through (`ReleaseQuery.AcceptedInputIsClean`).
- ReleaseSearch.FilterAgreesWithResponse: takes years in 0..32767 only, which is all the handler lets through.
- RequestAccounting.Wrap: leaves out the value of the observed duration, the access log, and a handler that unwraps the writer and bypasses it.
- RequestAccounting.LedgerIsExact: treats each single operation on a Prometheus vector as one atomic step.
- Config.FlagMeansVariable: takes from the library that its parsers of booleans, floats and durations refuse empty text and outer white space.
- Config.AcceptedIsExact: relies on the machine's 64-bit integers; a 32-bit build is not modelled.
- EndpointWalks.EndpointWalk: treats the query of a page as one statement on one committed state, as a single SQL statement is.
