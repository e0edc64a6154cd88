/**
 Finite sets of integer keys read in ascending order. `FirstK` is the meaning of
 `ORDER BY key LIMIT k` over a duplicate-free key set; `Cut` is the same rows as a set,
 described by rank alone. The two are connected by `FirstKIsCut`, so limit-pushdown
 arguments can be made on sets and read back as statements about result sequences.
 */
module OrderedSets {

  ghost predicate Ascending(s: seq<int>) {
    forall i, j :: 0 <= i < j < |s| ==> s[i] < s[j]
  }

  ghost function Members(s: seq<int>): set<int> {
    set x | x in s
  }

  ghost function Below(s: set<int>, x: int): set<int> {
    set y | y in s && y < x
  }

  lemma Member<T>(s: set<T>) returns (x: T)
    requires s != {}
    ensures x in s
  {
    x :| x in s;
  }

  lemma {:induction false} LeastExists(s: set<int>)
    requires s != {}
    ensures exists m :: m in s && forall x :: x in s ==> m <= x
  {
    var a := Member(s);
    if s == {a} {
      assert forall x :: x in s ==> a <= x;
    } else {
      LeastExists(s - {a});
      var b :| b in s - {a} && forall x :: x in s - {a} ==> b <= x;
      var m := if a < b then a else b;
      assert forall x :: x in s ==> x == a || x in s - {a};
      assert m in s && forall x :: x in s ==> m <= x;
    }
  }

  ghost function Least(s: set<int>): (m: int)
    requires s != {}
    ensures m in s && forall x :: x in s ==> m <= x
  {
    LeastExists(s);
    var m :| m in s && forall x :: x in s ==> m <= x;
    m
  }

  lemma PrependLeast(m: int, rest: seq<int>)
    requires Ascending(rest) && forall x :: x in rest ==> m < x
    ensures Ascending([m] + rest)
  {
    forall j | 0 <= j < |rest| ensures m < rest[j] { assert rest[j] in rest; }
  }

  /** The members of `s` in ascending order. */
  ghost function Enumerate(s: set<int>): (r: seq<int>)
    ensures Ascending(r)
    ensures forall x :: x in r <==> x in s
    ensures |r| == |s|
  {
    if s == {} then []
    else
      var m := Least(s);
      var rest := Enumerate(s - {m});
      PrependLeast(m, rest);
      [m] + rest
  }

  /** The rows `ORDER BY key LIMIT k` keeps. */
  ghost function FirstK(s: set<int>, k: nat): seq<int> {
    Enumerate(s)[..if k < |s| then k else |s|]
  }

  /** The keys that fewer than `k` keys precede. */
  ghost function Cut(s: set<int>, k: nat): set<int> {
    set x | x in s && |Below(s, x)| < k
  }

  lemma HeadIsMember<T>(s: seq<T>)
    ensures s == [] || s[0] in s
  {
  }

  /** An ascending sequence is determined by its members. */
  lemma {:induction false} AscendingUnique(a: seq<int>, b: seq<int>)
    requires Ascending(a) && Ascending(b)
    requires forall x :: x in a <==> x in b
    ensures a == b
  {
    if a == [] {
      HeadIsMember(b);
    } else {
      assert a[0] in a && b != [];
      assert a[0] in b;
      assert b[0] in b;
      assert b[0] in a;
      assert a[0] == b[0];
      forall x ensures x in a[1..] <==> x in b[1..] {
        if x in a[1..] { assert x in b; assert x != b[0]; }
        if x in b[1..] { assert x in a; assert x != a[0]; }
      }
      AscendingUnique(a[1..], b[1..]);
      assert a == [a[0]] + a[1..] && b == [b[0]] + b[1..];
    }
  }

  lemma MembersSnoc(s: seq<int>, x: int)
    requires x !in s
    ensures Members(s + [x]) == Members(s) + {x}
    ensures |Members(s + [x])| == |Members(s)| + 1
  {
  }

  lemma {:induction false} PrefixSize(e: seq<int>, i: nat)
    requires Ascending(e) && i <= |e|
    ensures |Members(e[..i])| == i
  {
    if i == 0 {
      assert Members(e[..i]) == {};
    } else {
      PrefixSize(e, i - 1);
      assert e[..i] == e[..i - 1] + [e[i - 1]];
      assert forall j :: 0 <= j < i - 1 ==> e[j] < e[i - 1];
      MembersSnoc(e[..i - 1], e[i - 1]);
    }
  }

  /** Exactly `i` keys precede the one at position `i`. */
  lemma EnumerateRank(s: set<int>, i: nat)
    requires i < |s|
    ensures |Below(s, Enumerate(s)[i])| == i
  {
    var e := Enumerate(s);
    PrefixSize(e, i);
    assert Below(s, e[i]) == Members(e[..i]) by {
      forall y ensures y in Below(s, e[i]) <==> y in e[..i] {
        if y in Below(s, e[i]) {
          assert y in e;
          var j :| 0 <= j < |e| && e[j] == y;
          assert j < i;
        }
        if y in e[..i] { assert y in e; }
      }
    }
  }

  lemma FirstKMembers(s: set<int>, k: nat, x: int)
    ensures x in FirstK(s, k) <==> x in Cut(s, k)
  {
    var e := Enumerate(s);
    if x in FirstK(s, k) {
      var j :| 0 <= j < |FirstK(s, k)| && FirstK(s, k)[j] == x;
      assert e[j] == x && x in e;
      EnumerateRank(s, j);
    }
    if x in Cut(s, k) {
      assert x in e;
      var i :| 0 <= i < |e| && e[i] == x;
      EnumerateRank(s, i);
      assert FirstK(s, k)[i] == x;
    }
  }

  lemma FirstKIsCut(s: set<int>, k: nat)
    ensures forall x :: x in FirstK(s, k) <==> x in Cut(s, k)
    ensures FirstK(s, k) == Enumerate(Cut(s, k))
    ensures |Cut(s, k)| == if k < |s| then k else |s|
  {
    forall x ensures x in FirstK(s, k) <==> x in Cut(s, k) { FirstKMembers(s, k, x); }
    AscendingUnique(FirstK(s, k), Enumerate(Cut(s, k)));
  }

  lemma FirstKFrom(s: set<int>, k: nat)
    ensures Ascending(FirstK(s, k))
    ensures |FirstK(s, k)| == if k < |s| then k else |s|
    ensures forall i :: 0 <= i < |FirstK(s, k)| ==> FirstK(s, k)[i] in s
  {
  }

  /** Asking for one more row extends the answer and changes nothing before it. */
  lemma FirstKPrefix(s: set<int>, k: nat)
    ensures FirstK(s, k) == FirstK(s, k + 1)[..|FirstK(s, k)|]
  {
  }

  lemma AscendingConcat(a: seq<int>, b: seq<int>)
    requires Ascending(a) && Ascending(b)
    requires a != [] ==> forall y :: y in b ==> a[|a| - 1] < y
    ensures Ascending(a + b)
  {
    forall i, j | 0 <= i < j < |a + b| ensures (a + b)[i] < (a + b)[j] {
      if i < |a| <= j {
        assert a[i] <= a[|a| - 1];
        assert b[j - |a|] in b;
      }
    }
  }

  /** The keys kept all precede the keys dropped. */
  lemma CutPrecedes(s: set<int>, k: nat, x: int, y: int)
    requires x in Cut(s, k) && y in s && y !in Cut(s, k)
    ensures x < y
  {
    if y <= x {
      assert Below(s, y) <= Below(s, x);
      SubsetSize(Below(s, y), Below(s, x));
    }
  }

  lemma SubsetSize<T>(a: set<T>, b: set<T>)
    requires a <= b
    ensures |a| <= |b|
  {
    assert b == a + (b - a);
    assert |b| == |a| + |b - a|;
  }

  lemma CutSandwichKeeps(full: set<int>, candidates: set<int>, k: nat, x: int)
    requires candidates <= full && x in candidates && x in Cut(full, k)
    ensures x in Cut(candidates, k)
  {
    assert Below(candidates, x) <= Below(full, x);
    SubsetSize(Below(candidates, x), Below(full, x));
  }

  lemma CutSandwichDrops(full: set<int>, candidates: set<int>, k: nat, x: int)
    requires Cut(full, k) <= candidates <= full && x in candidates && x !in Cut(full, k)
    ensures x !in Cut(candidates, k)
  {
    forall y | y in Cut(full, k) ensures y in Below(candidates, x) { CutPrecedes(full, k, y, x); }
    SubsetSize(Cut(full, k), Below(candidates, x));
    SubsetSize(Below(full, x), full);
    FirstKIsCut(full, k);
  }

  /**
   Cutting early is sound whenever the early cut keeps every key the final cut needs:
   any candidate set between the true cut and the full set yields the same rows.
   */
  lemma CutSandwich(full: set<int>, candidates: set<int>, k: nat)
    requires Cut(full, k) <= candidates <= full
    ensures Cut(candidates, k) == Cut(full, k)
    ensures FirstK(candidates, k) == FirstK(full, k)
  {
    hide Below, FirstK, Enumerate;
    forall x | x in candidates ensures x in Cut(candidates, k) <==> x in Cut(full, k) {
      if x in Cut(full, k) { CutSandwichKeeps(full, candidates, k, x); } else { CutSandwichDrops(full, candidates, k, x); }
    }
    FirstKIsCut(full, k);
    FirstKIsCut(candidates, k);
  }

  /** The first k of a union come from the first k of each part. */
  lemma CutOfUnion(a: set<int>, b: set<int>, k: nat)
    ensures Cut(a + b, k) <= Cut(a, k) + Cut(b, k)
  {
    forall x | x in Cut(a + b, k) ensures x in Cut(a, k) + Cut(b, k) {
      assert Below(a, x) <= Below(a + b, x) && Below(b, x) <= Below(a + b, x);
      SubsetSize(Below(a, x), Below(a + b, x));
      SubsetSize(Below(b, x), Below(a + b, x));
    }
  }

  /** Ascending distinct keys above `low` climb by at least one each. */
  lemma {:induction false} AscendingClimbs(s: seq<int>, low: int)
    requires Ascending(s) && forall x :: x in s ==> low < x
    ensures s != [] ==> s[|s| - 1] >= low + |s|
  {
    if s != [] {
      assert s[0] in s;
      var t := s[1..];
      if t != [] {
        assert forall x :: x in t ==> s[0] < x;
        AscendingClimbs(t, s[0]);
      }
    }
  }

  // ---------------------------------------------------------------- bags of keys

  ghost predicate Sorted(s: seq<int>) {
    forall i, j :: 0 <= i < j < |s| ==> s[i] <= s[j]
  }

  ghost predicate Distinct<T>(s: seq<T>) {
    forall i, j :: 0 <= i < j < |s| ==> s[i] != s[j]
  }

  function Insert(x: int, s: seq<int>): (r: seq<int>)
    ensures multiset(r) == multiset(s) + multiset{x}
  {
    if s == [] || x <= s[0] then [x] + s
    else
      assert s == [s[0]] + s[1..];
      [s[0]] + Insert(x, s[1..])
  }

  /** ORDER BY over rows that may repeat a key. */
  function SortBag(s: seq<int>): (r: seq<int>)
    ensures multiset(r) == multiset(s)
  {
    if s == [] then []
    else
      assert s == [s[0]] + s[1..];
      Insert(s[0], SortBag(s[1..]))
  }

  lemma MembersOfBag<T>(a: seq<T>, b: seq<T>, x: T)
    requires multiset(a) == multiset(b)
    ensures x in a <==> x in b
  {
    assert x in a <==> x in multiset(a);
    assert x in b <==> x in multiset(b);
  }

  lemma {:induction false} InsertSorted(x: int, s: seq<int>)
    requires Sorted(s)
    ensures Sorted(Insert(x, s))
  {
    if s != [] && s[0] < x {
      InsertSorted(x, s[1..]);
      var t := Insert(x, s[1..]);
      forall i | 0 <= i < |t| ensures s[0] <= t[i] {
        assert t[i] in multiset(t);
        if t[i] != x { assert t[i] in s[1..]; }
      }
    }
  }

  lemma {:induction false} SortBagSorted(s: seq<int>)
    ensures Sorted(SortBag(s))
  {
    if s != [] {
      SortBagSorted(s[1..]);
      InsertSorted(s[0], SortBag(s[1..]));
    }
  }

  lemma LeastHead(a: seq<int>, b: seq<int>)
    requires Sorted(a) && Sorted(b) && multiset(a) == multiset(b) && a != []
    ensures b != [] && a[0] == b[0]
  {
    assert a[0] in multiset(a) && multiset(b)[a[0]] > 0;
    assert a[0] in b && b[0] in multiset(b);
    assert b[0] in multiset(a);
    assert b[0] in a;
  }

  /** A sorted sequence is determined by its bag of members. */
  lemma {:induction false} SortedUnique(a: seq<int>, b: seq<int>)
    requires Sorted(a) && Sorted(b) && multiset(a) == multiset(b)
    ensures a == b
  {
    if a == [] {
      assert |multiset(b)| == 0;
    } else {
      LeastHead(a, b);
      assert a == [a[0]] + a[1..] && b == [b[0]] + b[1..];
      assert multiset(a[1..]) == multiset(a) - multiset{a[0]};
      assert multiset(b[1..]) == multiset(b) - multiset{b[0]};
      SortedUnique(a[1..], b[1..]);
    }
  }

  lemma DistinctMultiplicity<T>(s: seq<T>)
    ensures Distinct(s) <==> forall x :: multiset(s)[x] <= 1
  {
    if !Distinct(s) {
      var i, j :| 0 <= i < j < |s| && s[i] == s[j];
      assert s == s[..i] + [s[i]] + s[i + 1..j] + [s[j]] + s[j + 1..];
      assert multiset(s)[s[i]] >= 2;
    } else {
      forall x ensures multiset(s)[x] <= 1 { DistinctCount(s, x); }
    }
  }

  lemma {:induction false} DistinctCount<T>(s: seq<T>, x: T)
    requires Distinct(s)
    ensures multiset(s)[x] <= 1
  {
    if s != [] {
      assert s == [s[0]] + s[1..];
      DistinctCount(s[1..], x);
      if s[0] == x {
        assert x !in s[1..];
      }
    }
  }

  /** A bag without repetitions sorts to the enumeration of its members. */
  lemma SortBagOfDistinct(s: seq<int>)
    requires Distinct(s)
    ensures SortBag(s) == Enumerate(Members(s))
  {
    var r := SortBag(s);
    SortBagSorted(s);
    DistinctMultiplicity(s);
    DistinctMultiplicity(r);
    forall x ensures x in r <==> x in Enumerate(Members(s)) { MembersOfBag(r, s, x); }
    AscendingUnique(r, Enumerate(Members(s)));
  }
}
