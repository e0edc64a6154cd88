/**
 Keyset pagination. A table maps unique keys to rows; one request reads
 `key > after ORDER BY key LIMIT size + 1`, keeps `size` rows and reports whether one more
 was seen. The table may be replaced by a commit between any two requests.

 Resource IDs and child-row hashes share this module: both page constructors of the
 catalog package are the same code over a different key.
 */
module Keyset {
  import opened OrderedSets
  import opened Wrappers

  datatype Item<V> = Item(key: int, value: V)

  /** catalog.Page and catalog.HashPage. */
  datatype Page<V> = Page(items: seq<Item<V>>, hasMore: bool)

  // ---------------------------------------------------------------- one request

  ghost function Beyond<V>(table: map<int, V>, after: Option<int>): set<int> {
    set k | k in table && (after.None? || after.value < k)
  }

  function Rows<V>(table: map<int, V>, keys: seq<int>): (items: seq<Item<V>>)
    requires forall i :: 0 <= i < |keys| ==> keys[i] in table
    ensures Keys(items) == keys
    ensures forall item :: item in items ==> item.key in table && table[item.key] == item.value
  {
    seq(|keys|, i requires 0 <= i < |keys| && keys[i] in table => Item(keys[i], table[keys[i]]))
  }

  function Keys<V>(items: seq<Item<V>>): seq<int> {
    seq(|items|, i requires 0 <= i < |items| => items[i].key)
  }

  /** The rows a keyset query returns. */
  ghost function Fetch<V>(table: map<int, V>, after: Option<int>, limit: nat): (items: seq<Item<V>>)
    ensures Keys(items) == FirstK(Beyond(table, after), limit)
    ensures forall item :: item in items ==> item.key in table && table[item.key] == item.value
  {
    FirstKFrom(Beyond(table, after), limit);
    Rows(table, FirstK(Beyond(table, after), limit))
  }

  function FetchSize(size: nat): nat { size + 1 }

  function NewPage<V>(items: seq<Item<V>>, requestedSize: nat): Page<V> {
    var hasMore := |items| > requestedSize;
    Page(if hasMore then items[..requestedSize] else items, hasMore)
  }

  function NextAfter<V>(page: Page<V>): Option<int> {
    if !page.hasMore || |page.items| == 0 then None
    else Some(page.items[|page.items| - 1].key)
  }

  ghost function ServePage<V>(table: map<int, V>, after: Option<int>, size: nat): Page<V> {
    NewPage(Fetch(table, after, FetchSize(size)), size)
  }

  lemma KeysConcat<V>(a: seq<Item<V>>, b: seq<Item<V>>)
    ensures Keys(a + b) == Keys(a) + Keys(b)
  {
  }

  lemma KeysTake<V>(items: seq<Item<V>>, n: nat)
    requires n <= |items|
    ensures Keys(items[..n]) == Keys(items)[..n]
  {
  }

  lemma KeyIn<V>(items: seq<Item<V>>, key: int)
    ensures key in Keys(items) <==> exists i :: 0 <= i < |items| && items[i].key == key
  {
    if key in Keys(items) {
      var i :| 0 <= i < |Keys(items)| && Keys(items)[i] == key;
      assert items[i].key == key;
    }
    if i :| 0 <= i < |items| && items[i].key == key {
      assert Keys(items)[i] == key;
    }
  }

  /** Two row sequences of one table with the same keys are the same rows. */
  lemma RowsDetermined<V>(table: map<int, V>, a: seq<Item<V>>, b: seq<Item<V>>)
    requires forall item :: item in a ==> item.key in table && table[item.key] == item.value
    requires forall item :: item in b ==> item.key in table && table[item.key] == item.value
    requires Keys(a) == Keys(b)
    ensures a == b
  {
    assert |a| == |Keys(a)| == |Keys(b)| == |b|;
    forall i | 0 <= i < |a| ensures a[i] == b[i] {
      assert Keys(a)[i] == Keys(b)[i];
      assert a[i] in a && b[i] in b;
    }
  }

  /**
   The look-ahead row is a faithful end marker: the page is the first `size` rows beyond the
   cursor, `hasMore` says whether the table holds further ones, and the cursor to continue
   from is the last row delivered, present exactly when there is more to read.
   */
  lemma LookAheadIsExact<V>(table: map<int, V>, after: Option<int>, size: nat)
    ensures var page := ServePage(table, after, size);
      && page.items == Fetch(table, after, size)
      && (page.hasMore <==> |Beyond(table, after)| > size)
      && (page.hasMore && size > 0 ==> |page.items| == size && NextAfter(page) == Some(Keys(page.items)[size - 1]))
      && (!page.hasMore ==> NextAfter(page) == None)
  {
    var rows, kept := Fetch(table, after, size + 1), Fetch(table, after, size);
    var beyond := Beyond(table, after);
    assert Keys(rows) == FirstK(beyond, size + 1) && Keys(kept) == FirstK(beyond, size);
    FirstKFrom(beyond, size + 1);
    FirstKFrom(beyond, size);
    FirstKPrefix(beyond, size);
    assert |rows| == |Keys(rows)| && |kept| == |Keys(kept)|;
    var page := NewPage(rows, size);
    KeysTake(rows, |kept|);
    assert page.items == rows[..|kept|];
    RowsDetermined(table, page.items, kept);
  }

  /** The rows a page leaves behind are exactly those beyond its last key. */
  lemma PageSplitsTable<V>(table: map<int, V>, after: Option<int>, size: nat, key: int)
    requires size > 0
    ensures var page := ServePage(table, after, size);
      key in Beyond(table, after) ==>
        (key in Keys(page.items) <==> !(page.hasMore && key > NextAfter(page).value))
  {
    LookAheadIsExact(table, after, size);
    var page := ServePage(table, after, size);
    var beyond := Beyond(table, after);
    FirstKIsCut(beyond, size);
    if key in beyond {
      if page.hasMore {
        var last := NextAfter(page).value;
        assert last == Keys(page.items)[size - 1];
        assert last in Cut(beyond, size);
        if key in Keys(page.items) {
          var i :| 0 <= i < |Keys(page.items)| && Keys(page.items)[i] == key;
          assert Ascending(Enumerate(Cut(beyond, size)));
        } else {
          CutPrecedes(beyond, size, last, key);
        }
      } else {
        SubsetSize(Below(beyond, key), beyond - {key});
      }
    }
  }

  // ---------------------------------------------------------------- whole walks

  /** A client: the cursor it will send next and every row it has received. */
  datatype Client<V> = Client(cursor: Option<int>, received: seq<Item<V>>, finished: bool)

  datatype World<V> = World(table: map<int, V>, client: Client<V>)

  /** A commit may insert, update and delete any rows; a request reads one page. */
  datatype Event<V> = Commit(table: map<int, V>) | Request(size: nat)

  ghost function Step<V>(w: World<V>, e: Event<V>): World<V> {
    match e
    case Commit(table) => w.(table := table)
    case Request(size) =>
      if w.client.finished then w
      else
        var page := ServePage(w.table, w.client.cursor, size);
        w.(client := Client(NextAfter(page), w.client.received + page.items, !page.hasMore))
  }

  ghost function Run<V>(w: World<V>, es: seq<Event<V>>): World<V> {
    if es == [] then w else Step(Run(w, es[..|es| - 1]), es[|es| - 1])
  }

  ghost function Start<V>(table: map<int, V>): World<V> {
    World(table, Client(None, [], false))
  }

  /** Event `n` is a request the client really makes. */
  ghost predicate Asks<V>(w: World<V>, es: seq<Event<V>>, n: nat) {
    n < |es| && es[n].Request? && !Run(w, es[..n]).client.finished
  }

  /** The key is in the table at each request the walk makes. */
  ghost predicate StaysPresent<V>(w: World<V>, es: seq<Event<V>>, key: int) {
    forall n: nat :: Asks(w, es, n) ==> key in Run(w, es[..n]).table
  }

  ghost predicate PositiveSizes<V>(es: seq<Event<V>>) {
    forall n :: 0 <= n < |es| && es[n].Request? ==> es[n].size > 0
  }

  ghost predicate Consistent<V>(c: Client<V>) {
    && Ascending(Keys(c.received))
    && (!c.finished ==> c.cursor == LastKey(c.received))
  }

  lemma RunPrefix<V>(w: World<V>, es: seq<Event<V>>, n: nat)
    requires n < |es|
    ensures es[..|es| - 1][..n] == es[..n]
    ensures n < |es| - 1 ==> Asks(w, es[..|es| - 1], n) == Asks(w, es, n)
  {
  }

  lemma FetchLiesBeyond<V>(table: map<int, V>, after: Option<int>, limit: nat)
    ensures Ascending(Keys(Fetch(table, after, limit)))
    ensures forall key :: key in Keys(Fetch(table, after, limit)) ==> key in Beyond(table, after)
  {
  }

  ghost function LastKey<V>(items: seq<Item<V>>): Option<int> {
    if items == [] then None else Some(items[|items| - 1].key)
  }

  lemma AppendKeepsAscending<V>(received: seq<Item<V>>, table: map<int, V>, limit: nat)
    requires Ascending(Keys(received))
    ensures Ascending(Keys(received + Fetch(table, LastKey(received), limit)))
  {
    var items := Fetch(table, LastKey(received), limit);
    FetchLiesBeyond(table, LastKey(received), limit);
    KeysConcat(received, items);
    AscendingConcat(Keys(received), Keys(items));
  }

  lemma StepKeepsConsistent<V>(w: World<V>, e: Event<V>)
    requires Consistent(w.client) && (e.Request? ==> e.size > 0)
    ensures Consistent(Step(w, e).client)
  {
    if e.Request? && !w.client.finished {
      LookAheadIsExact(w.table, w.client.cursor, e.size);
      AppendKeepsAscending(w.client.received, w.table, e.size);
      assert LastKey(w.client.received) == w.client.cursor;
    }
  }

  /**
   A client that follows `next` sees strictly increasing keys, whatever is committed between
   its requests; in particular no key is ever delivered twice.
   */
  lemma {:induction false} WalkIsAscending<V>(w: World<V>, es: seq<Event<V>>)
    requires Consistent(w.client) && PositiveSizes(es)
    ensures Consistent(Run(w, es).client)
  {
    if es != [] {
      WalkIsAscending(w, es[..|es| - 1]);
      StepKeepsConsistent(Run(w, es[..|es| - 1]), es[|es| - 1]);
    }
  }

  /** The key has been delivered, or still lies ahead of an unfinished walk. */
  ghost predicate NotSkipped<V>(c: Client<V>, key: int) {
    || key in Keys(c.received)
    || (!c.finished && (c.cursor.None? || c.cursor.value < key))
  }

  lemma StepSkipsNothing<V>(w: World<V>, e: Event<V>, key: int)
    requires NotSkipped(w.client, key)
    requires e.Request? ==> e.size > 0
    requires e.Request? && !w.client.finished ==> key in w.table
    ensures NotSkipped(Step(w, e).client, key)
  {
    if e.Request? && !w.client.finished {
      var page := ServePage(w.table, w.client.cursor, e.size);
      KeysConcat(w.client.received, page.items);
      if key !in Keys(w.client.received) {
        PageSplitsTable(w.table, w.client.cursor, e.size, key);
        LookAheadIsExact(w.table, w.client.cursor, e.size);
      }
    }
  }

  /**
   Nothing is skipped: a key that is in the table at each request the walk makes has been
   delivered once the walk is finished, whatever else the commits do.
   */
  lemma {:induction false} WalkSkipsNothing<V>(w: World<V>, es: seq<Event<V>>, key: int)
    requires NotSkipped(w.client, key) && PositiveSizes(es)
    requires StaysPresent(w, es, key)
    ensures NotSkipped(Run(w, es).client, key)
    ensures Run(w, es).client.finished ==> key in Keys(Run(w, es).client.received)
  {
    if es != [] {
      var last := |es| - 1;
      assert StaysPresent(w, es[..last], key) by {
        forall n: nat | Asks(w, es[..last], n) ensures key in Run(w, es[..last][..n]).table {
          RunPrefix(w, es, n);
          assert Asks(w, es, n);
        }
      }
      WalkSkipsNothing(w, es[..last], key);
      assert Asks(w, es, last) <==> es[last].Request? && !Run(w, es[..last]).client.finished;
      StepSkipsNothing(Run(w, es[..last]), es[last], key);
    }
  }

  /** Nothing is invented: each row delivered stood in the table at the request that delivered it. */
  lemma {:induction false} WalkInventsNothing<V>(w: World<V>, es: seq<Event<V>>, item: Item<V>)
    requires item in Run(w, es).client.received && item !in w.client.received
    ensures exists n: nat :: Asks(w, es, n) && item.key in Run(w, es[..n]).table && Run(w, es[..n]).table[item.key] == item.value
  {
    if es != [] {
      var last := |es| - 1;
      var before := Run(w, es[..last]);
      if item in before.client.received {
        WalkInventsNothing(w, es[..last], item);
        var n: nat :| Asks(w, es[..last], n) && item.key in Run(w, es[..last][..n]).table && Run(w, es[..last][..n]).table[item.key] == item.value;
        RunPrefix(w, es, n);
      } else {
        assert es[last].Request? && !before.client.finished;
        assert Asks(w, es, last);
        var rows := Fetch(before.table, before.client.cursor, es[last].size + 1);
        assert item in rows;
      }
    }
  }

  // ---------------------------------------------------------------- termination

  ghost predicate KeysWithin<V>(table: map<int, V>, low: int, high: int) {
    forall k :: k in table ==> low < k <= high
  }

  ghost predicate TablesWithin<V>(w: World<V>, es: seq<Event<V>>, low: int, high: int) {
    && KeysWithin(w.table, low, high)
    && forall n :: 0 <= n < |es| && es[n].Commit? ==> KeysWithin(es[n].table, low, high)
  }

  /** How far the keyspace still reaches beyond the cursor. */
  ghost function Remaining<V>(c: Client<V>, low: int, high: int): int {
    if c.cursor.None? then high - low else high - c.cursor.value
  }

  ghost predicate Bounded<V>(w: World<V>, low: int, high: int) {
    KeysWithin(w.table, low, high) && (!w.client.finished ==> 0 <= Remaining(w.client, low, high) <= high - low)
  }

  /** The last of the first `size` keys lies at least `size` above whatever lies below all keys. */
  lemma LastKeyClimbs(s: set<int>, size: nat, floor: int)
    requires 0 < size < |s| && forall k :: k in s ==> floor < k
    ensures |FirstK(s, size)| == size && FirstK(s, size)[size - 1] in s && FirstK(s, size)[size - 1] >= floor + size
  {
    var keys := FirstK(s, size);
    FirstKFrom(s, size);
    forall k | k in keys ensures floor < k {
      var i :| 0 <= i < |keys| && keys[i] == k;
    }
    AscendingClimbs(keys, floor);
  }

  lemma CursorClimbs<V>(table: map<int, V>, after: Option<int>, size: nat, low: int, high: int)
    requires size > 0 && KeysWithin(table, low, high)
    ensures var page := ServePage(table, after, size); var floor := if after.None? then low else after.value;
      page.hasMore ==> NextAfter(page).Some? && floor + size <= NextAfter(page).value <= high
  {
    hide NextAfter, FirstK, Keys;
    LookAheadIsExact(table, after, size);
    if ServePage(table, after, size).hasMore {
      LastKeyClimbs(Beyond(table, after), size, if after.None? then low else after.value);
    }
  }

  /** Every request that does not finish the walk consumes at least `size` keys of the keyspace. */
  lemma RequestConsumesKeyspace<V>(w: World<V>, size: nat, low: int, high: int)
    requires size > 0 && low <= high && Bounded(w, low, high) && !w.client.finished
    ensures var w' := Step(w, Request(size));
      && Bounded(w', low, high)
      && (!w'.client.finished ==> Remaining(w'.client, low, high) <= Remaining(w.client, low, high) - size)
  {
    hide ServePage, KeysWithin, NextAfter;
    CursorClimbs(w.table, w.client.cursor, size, low, high);
  }

  ghost function Requests<V>(es: seq<Event<V>>): nat {
    if es == [] then 0 else Requests(es[..|es| - 1]) + if es[|es| - 1].Request? then 1 else 0
  }

  lemma TimesSucc(n: nat, m: nat)
    ensures (n + 1) * m == n * m + m
  {
  }

  lemma {:induction false} WalkProgress<V>(w: World<V>, es: seq<Event<V>>, minimum: nat, low: int, high: int)
    requires low <= high && Bounded(w, low, high) && TablesWithin(w, es, low, high)
    requires minimum > 0 && forall n :: 0 <= n < |es| && es[n].Request? ==> es[n].size >= minimum
    ensures Bounded(Run(w, es), low, high)
    ensures !Run(w, es).client.finished ==>
      && !w.client.finished
      && Requests(es) * minimum <= Remaining(w.client, low, high) - Remaining(Run(w, es).client, low, high)
  {
    if es != [] {
      var last := |es| - 1;
      WalkProgress(w, es[..last], minimum, low, high);
      var before := Run(w, es[..last]);
      if es[last].Request? && !before.client.finished {
        RequestConsumesKeyspace(before, es[last].size, low, high);
        TimesSucc(Requests(es[..last]), minimum);
      }
    }
  }

  /**
   The walk ends: while it is unfinished, the number of requests made times the smallest page
   size fits in the keyspace, however many rows are committed in the meantime.
   */
  lemma WalkTerminates<V>(w: World<V>, es: seq<Event<V>>, minimum: nat, low: int, high: int)
    requires low <= high && Bounded(w, low, high) && TablesWithin(w, es, low, high)
    requires minimum > 0 && forall n :: 0 <= n < |es| && es[n].Request? ==> es[n].size >= minimum
    ensures Requests(es) * minimum > high - low ==> Run(w, es).client.finished
  {
    WalkProgress(w, es, minimum, low, high);
  }

  // ---------------------------------------------------------------- a fixed catalog

  lemma {:induction false} FixedTable<V>(w: World<V>, es: seq<Event<V>>)
    requires forall n :: 0 <= n < |es| ==> es[n].Request?
    ensures Run(w, es).table == w.table
  {
    if es != [] { FixedTable(w, es[..|es| - 1]); }
  }

  lemma FixedCatalogKeys<V>(table: map<int, V>, es: seq<Event<V>>)
    requires PositiveSizes(es) && forall n :: 0 <= n < |es| ==> es[n].Request?
    requires Run(Start(table), es).client.finished
    ensures forall item :: item in Run(Start(table), es).client.received ==> item.key in table && table[item.key] == item.value
    ensures forall key :: key in table ==> key in Keys(Run(Start(table), es).client.received)
  {
    var w := Start(table);
    forall n | 0 <= n <= |es| ensures Run(w, es[..n]).table == table { FixedTable(w, es[..n]); }
    forall item | item in Run(w, es).client.received ensures item.key in table && table[item.key] == item.value {
      WalkInventsNothing(w, es, item);
    }
    forall key | key in table ensures key in Keys(Run(w, es).client.received) { WalkSkipsNothing(w, es, key); }
  }

  /** Ascending rows of a table that cover all its keys are the table read in key order. */
  lemma WholeTable<V>(table: map<int, V>, received: seq<Item<V>>)
    requires Ascending(Keys(received)) && forall key :: key in Keys(received) <==> key in table
    requires forall item :: item in received ==> item.key in table && table[item.key] == item.value
    ensures received == Fetch(table, None, |table|)
  {
    var all := Fetch(table, None, |table|);
    assert Beyond(table, None) == table.Keys;
    assert Keys(all) == Enumerate(table.Keys);
    AscendingUnique(Keys(received), Keys(all));
    RowsDetermined(table, received, all);
  }

  /** On a fixed catalog a finished walk has delivered the whole table in key order. */
  lemma FixedCatalogWalk<V>(table: map<int, V>, es: seq<Event<V>>)
    requires PositiveSizes(es) && forall n :: 0 <= n < |es| ==> es[n].Request?
    requires Run(Start(table), es).client.finished
    ensures Run(Start(table), es).client.received == Fetch(table, None, |table|)
  {
    var w := Start(table);
    var received := Run(w, es).client.received;
    assert Consistent(w.client);
    WalkIsAscending(w, es);
    FixedCatalogKeys(table, es);
    forall key ensures key in Keys(received) <==> key in table { KeyIn(received, key); }
    WholeTable(table, received);
  }
}
