/** SELECT key FROM rows WHERE keep, over rows in storage order. */
module Relational {
  import opened OrderedSets
  import opened Wrappers
  import opened Keyset

  function Select<R>(rows: seq<R>, keep: R -> bool, key: R -> int): seq<int> {
    if rows == [] then []
    else (if keep(rows[0]) then [key(rows[0])] else []) + Select(rows[1..], keep, key)
  }

  ghost predicate Selected<R>(rows: seq<R>, keep: R -> bool, key: R -> int, x: int) {
    exists i :: 0 <= i < |rows| && keep(rows[i]) && key(rows[i]) == x
  }

  lemma {:induction false} SelectMembers<R>(rows: seq<R>, keep: R -> bool, key: R -> int, x: int)
    ensures x in Select(rows, keep, key) <==> Selected(rows, keep, key, x)
  {
    if rows != [] {
      SelectMembers(rows[1..], keep, key, x);
      if Selected(rows, keep, key, x) {
        var i :| 0 <= i < |rows| && keep(rows[i]) && key(rows[i]) == x;
        if i > 0 { assert rows[1..][i - 1] == rows[i]; }
      }
      if Selected(rows[1..], keep, key, x) {
        var i :| 0 <= i < |rows[1..]| && keep(rows[1..][i]) && key(rows[1..][i]) == x;
        assert rows[i + 1] == rows[1..][i];
      }
    }
  }

  /** Selected rows that differ pairwise in their key yield each key once. */
  lemma {:induction false} SelectDistinct<R>(rows: seq<R>, keep: R -> bool, key: R -> int)
    requires forall i, j :: 0 <= i < j < |rows| && keep(rows[i]) && keep(rows[j]) ==> key(rows[i]) != key(rows[j])
    ensures Distinct(Select(rows, keep, key))
  {
    if rows != [] {
      var rest := rows[1..];
      assert forall i :: 0 <= i < |rest| ==> rest[i] == rows[i + 1];
      SelectDistinct(rest, keep, key);
      if keep(rows[0]) {
        SelectMembers(rest, keep, key, key(rows[0]));
        PrependDistinct(key(rows[0]), Select(rest, keep, key));
      }
    }
  }

  lemma PrependDistinct(x: int, s: seq<int>)
    requires Distinct(s) && x !in s
    ensures Distinct([x] + s)
  {
  }

  /** SELECT DISTINCT key. */
  function SelectDistinctKeys<R>(rows: seq<R>, keep: R -> bool, key: R -> int): set<int> {
    set x | x in Select(rows, keep, key)
  }

  function Limit<T>(s: seq<T>, k: nat): seq<T> {
    if |s| <= k then s else s[..k]
  }

  /** ORDER BY key LIMIT k of an arm that does not remove duplicates. */
  function OrderedLimit<R>(rows: seq<R>, keep: R -> bool, key: R -> int, k: nat): seq<int> {
    Limit(SortBag(Select(rows, keep, key)), k)
  }

  /** When the rows kept have distinct keys, the bag arm is the DISTINCT arm. */
  lemma OrderedLimitIsFirstK<R>(rows: seq<R>, keep: R -> bool, key: R -> int, k: nat)
    requires forall i, j :: 0 <= i < j < |rows| && keep(rows[i]) && keep(rows[j]) ==> key(rows[i]) != key(rows[j])
    ensures OrderedLimit(rows, keep, key, k) == FirstK(SelectDistinctKeys(rows, keep, key), k)
  {
    SelectDistinct(rows, keep, key);
    SortBagOfDistinct(Select(rows, keep, key));
    assert SelectDistinctKeys(rows, keep, key) == Members(Select(rows, keep, key));
  }

  /** The bag arm reads the first k keys of any listing it selects exactly and without repetition. */
  lemma OrderedLimitReadsListing<R, V>(rows: seq<R>, keep: R -> bool, key: R -> int, k: nat, listing: map<int, V>, after: Option<int>)
    requires forall i, j :: 0 <= i < j < |rows| && keep(rows[i]) && keep(rows[j]) ==> key(rows[i]) != key(rows[j])
    requires forall x :: x in Beyond(listing, after) <==> Selected(rows, keep, key, x)
    ensures OrderedLimit(rows, keep, key, k) == FirstK(Beyond(listing, after), k)
  {
    OrderedLimitIsFirstK(rows, keep, key, k);
    forall x ensures x in Beyond(listing, after) <==> x in SelectDistinctKeys(rows, keep, key) {
      SelectMembers(rows, keep, key, x);
    }
    assert Beyond(listing, after) == SelectDistinctKeys(rows, keep, key);
  }

  /** JOIN table ON table.key = candidate key: candidates without a row drop out. */
  function JoinTable<V>(table: map<int, V>, keys: seq<int>): seq<Item<V>> {
    if keys == [] then []
    else (if keys[0] in table then [Item(keys[0], table[keys[0]])] else []) + JoinTable(table, keys[1..])
  }

  /** When every candidate has its row, the join keeps them all, in order. */
  lemma {:induction false} JoinKeepsStored<V>(table: map<int, V>, keys: seq<int>)
    requires forall i :: 0 <= i < |keys| ==> keys[i] in table
    ensures Keys(JoinTable(table, keys)) == keys
    ensures forall item :: item in JoinTable(table, keys) ==> item.key in table && table[item.key] == item.value
  {
    if keys != [] {
      assert keys[0] in table;
      JoinKeepsStored(table, keys[1..]);
      assert keys == [keys[0]] + keys[1..];
    }
  }

  /**
   Candidate keys cut to k before the join: if they are the first k keys of a listing whose rows
   all stand in the table, joining and ordering them gives the keyset page of the listing.
   */
  lemma JoinedCandidatesArePage<V>(table: map<int, V>, listing: map<int, V>, keys: seq<int>, after: int, k: nat)
    requires forall r :: r in listing ==> r in table && table[r] == listing[r]
    requires keys == FirstK(Beyond(listing, Some(after)), k)
    ensures JoinTable(table, SortBag(keys)) == Fetch(listing, Some(after), k)
  {
    hide SortBag, Enumerate, FirstK, JoinTable;
    var beyond := Beyond(listing, Some(after));
    FirstKFrom(beyond, k);
    SortBagOfDistinct(keys);
    AscendingUnique(keys, SortBag(keys));
    JoinKeepsStored(table, keys);
    RowsDetermined(table, JoinTable(table, keys), Fetch(listing, Some(after), k));
  }

  /**
   Distinct keys are exactly what the bag arm needs: it reads the first k distinct keys for every k
   iff no key is selected twice.
   */
  lemma BagArmNeedsDistinct<R>(rows: seq<R>, keep: R -> bool, key: R -> int)
    ensures (forall k: nat :: OrderedLimit(rows, keep, key, k) == FirstK(SelectDistinctKeys(rows, keep, key), k)) <==>
      Distinct(Select(rows, keep, key))
  {
    var keys := Select(rows, keep, key);
    assert SelectDistinctKeys(rows, keep, key) == Members(keys);
    if Distinct(keys) {
      SortBagOfDistinct(keys);
    }
    if OrderedLimit(rows, keep, key, |keys|) == FirstK(Members(keys), |keys|) {
      assert |multiset(SortBag(keys))| == |multiset(keys)|;
      FirstKFrom(Members(keys), |keys|);
      DistinctMultiplicity(SortBag(keys));
      DistinctMultiplicity(keys);
    }
  }

  lemma SortRepeated()
    ensures SortBag([5, 5, 7]) == [5, 5, 7]
  {
  }

  /**
   Distinct keys are needed: limited to two rows, a bag that repeats 5 never reaches 7, although
   7 is among the first two distinct keys.
   */
  lemma BagLimitNeedsDistinct()
    ensures 7 !in Limit(SortBag([5, 5, 7]), 2) && 7 in Cut(Members([5, 5, 7]), 2)
  {
    SortRepeated();
    assert Below(Members([5, 5, 7]), 7) == {5};
  }
}
