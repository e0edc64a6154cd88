/**
 Text aggregation as the database does it: DISTINCT, ordered by a collation, joined by commas.
 The collation is any total order on strings.
 */
module Collation {
  import opened Wrappers

  type Order = (string, string) -> bool

  ghost predicate TotalOrder(le: Order) {
    && (forall x :: le(x, x))
    && (forall x, y :: le(x, y) && le(y, x) ==> x == y)
    && (forall x, y, z :: le(x, y) && le(y, z) ==> le(x, z))
    && (forall x, y :: le(x, y) || le(y, x))
  }

  ghost predicate IsLeast(le: Order, s: set<string>, m: string) {
    m in s && forall x :: x in s ==> le(m, x)
  }

  lemma {:induction false} LeastExists(le: Order, s: set<string>)
    requires TotalOrder(le) && s != {}
    ensures exists m :: IsLeast(le, s, m)
  {
    var a :| a in s;
    var t := s - {a};
    if t == {} {
      assert s == {a};
      assert IsLeast(le, s, a);
    } else {
      LeastExists(le, t);
      var b :| IsLeast(le, t, b);
      assert forall x :: x in s ==> x == a || x in t;
      assert IsLeast(le, s, if le(a, b) then a else b);
    }
  }

  /** Strictly increasing in the collation, hence without repetitions. */
  ghost predicate StrictlyOrdered(le: Order, s: seq<string>) {
    forall i, j :: 0 <= i < j < |s| ==> le(s[i], s[j]) && s[i] != s[j]
  }

  /** The members of a set of texts in collation order. */
  ghost function SortText(le: Order, s: set<string>): (r: seq<string>)
    requires TotalOrder(le)
    ensures StrictlyOrdered(le, r)
    ensures forall x :: x in r <==> x in s
    ensures |r| == |s|
  {
    if s == {} then []
    else
      LeastExists(le, s);
      var m :| IsLeast(le, s, m);
      var rest := SortText(le, s - {m});
      PrependLeast(le, m, s, rest);
      [m] + rest
  }

  lemma PrependLeast(le: Order, m: string, s: set<string>, rest: seq<string>)
    requires IsLeast(le, s, m) && StrictlyOrdered(le, rest)
    requires forall x :: x in rest <==> x in s - {m}
    ensures StrictlyOrdered(le, [m] + rest)
    ensures forall x :: x in [m] + rest <==> x in s
  {
    forall j | 0 <= j < |rest| ensures le(m, rest[j]) && m != rest[j] { assert rest[j] in rest; }
  }

  /** Texts in strict collation order are determined by their members. */
  lemma {:induction false} OrderedUnique(le: Order, a: seq<string>, b: seq<string>)
    requires TotalOrder(le) && StrictlyOrdered(le, a) && StrictlyOrdered(le, b)
    requires forall x :: x in a <==> x in b
    ensures a == b
  {
    assert b == [] || b[0] in b;
    if a != [] {
      assert a[0] in a && a[0] in b;
      assert b[0] in b && b[0] in a;
      assert le(a[0], b[0]) && le(b[0], a[0]);
      forall x ensures x in a[1..] <==> x in b[1..] {
        if x in a[1..] { assert x in b; assert x != b[0]; }
        if x in b[1..] { assert x in a; assert x != a[0]; }
      }
      OrderedUnique(le, a[1..], b[1..]);
      assert a == [a[0]] + a[1..] && b == [b[0]] + b[1..];
    }
  }

  function InsertText(le: Order, x: string, s: seq<string>): (r: seq<string>)
    ensures forall y :: y in r <==> y == x || y in s
  {
    if s == [] || le(x, s[0]) then [x] + s
    else
      assert s == [s[0]] + s[1..];
      [s[0]] + InsertText(le, x, s[1..])
  }

  function SortTexts(le: Order, s: seq<string>): (r: seq<string>)
    ensures forall y :: y in r <==> y in s
  {
    if s == [] then []
    else
      assert s == [s[0]] + s[1..];
      InsertText(le, s[0], SortTexts(le, s[1..]))
  }

  lemma {:induction false} InsertTextOrdered(le: Order, x: string, s: seq<string>)
    requires TotalOrder(le) && StrictlyOrdered(le, s) && x !in s
    ensures StrictlyOrdered(le, InsertText(le, x, s))
  {
    if s == [] {
    } else if le(x, s[0]) {
      forall j | 0 <= j < |s| ensures le(x, s[j]) && x != s[j] { assert le(s[0], s[j]); }
    } else {
      InsertTextOrdered(le, x, s[1..]);
      var t := InsertText(le, x, s[1..]);
      forall j | 0 <= j < |t| ensures le(s[0], t[j]) && s[0] != t[j] {
        assert t[j] in t;
        if t[j] != x {
          var i :| 0 <= i < |s[1..]| && s[1..][i] == t[j];
          assert s[i + 1] == t[j];
        }
      }
    }
  }

  lemma {:induction false} SortTextsOrdered(le: Order, s: seq<string>)
    requires TotalOrder(le) && forall i, j :: 0 <= i < j < |s| ==> s[i] != s[j]
    ensures StrictlyOrdered(le, SortTexts(le, s))
  {
    if s != [] {
      assert forall i :: 0 <= i < |s[1..]| ==> s[1..][i] == s[i + 1];
      SortTextsOrdered(le, s[1..]);
      InsertTextOrdered(le, s[0], SortTexts(le, s[1..]));
    }
  }

  function Join(s: seq<string>, separator: string): string {
    if s == [] then []
    else if |s| == 1 then s[0]
    else s[0] + separator + Join(s[1..], separator)
  }

  /** The pieces between separators. */
  function SplitAt(s: string, separator: char): (pieces: seq<string>)
    ensures pieces != []
  {
    if s == [] then [[]]
    else
      var rest := SplitAt(s[1..], separator);
      if s[0] == separator then [[]] + rest else [[s[0]] + rest[0]] + rest[1..]
  }

  lemma {:induction false} SplitPiece(piece: string, separator: char, rest: string)
    requires separator !in piece
    ensures SplitAt(piece, separator) == [piece]
    ensures SplitAt(piece + [separator] + rest, separator) == [piece] + SplitAt(rest, separator)
  {
    if piece == [] {
      assert ([separator] + rest)[1..] == rest;
      assert piece + [separator] + rest == [separator] + rest;
    } else {
      SplitPiece(piece[1..], separator, rest);
      assert (piece + [separator] + rest)[1..] == piece[1..] + [separator] + rest;
      assert piece == [piece[0]] + piece[1..];
    }
  }

  /** A joined text can be taken apart again when no piece holds the separator. */
  lemma {:induction false} JoinSplits(pieces: seq<string>, separator: char)
    requires pieces != [] && forall p :: p in pieces ==> separator !in p
    ensures SplitAt(Join(pieces, [separator]), separator) == pieces
  {
    assert pieces[0] in pieces;
    if |pieces| == 1 {
      SplitPiece(pieces[0], separator, []);
    } else {
      JoinSplits(pieces[1..], separator);
      SplitPiece(pieces[0], separator, Join(pieces[1..], [separator]));
    }
  }

  /** No piece holds the separator, whatever text is taken apart. */
  lemma {:induction false} PiecesAreClean(s: string, separator: char)
    ensures forall p :: p in SplitAt(s, separator) ==> separator !in p
  {
    if s != [] {
      var rest := SplitAt(s[1..], separator);
      PiecesAreClean(s[1..], separator);
      assert rest[0] in rest;
      assert forall p :: p in rest[1..] ==> p in rest;
    }
  }

  function Present(rows: seq<Option<string>>): set<string> {
    set row | row in rows && row.Some? :: row.value
  }

  lemma PresentMembers(rows: seq<Option<string>>, text: string)
    ensures text in Present(rows) <==> Some(text) in rows
  {
  }

  /** string_agg(DISTINCT x, ',' ORDER BY x): NULL rows are skipped, no row at all gives NULL. */
  ghost function StringAgg(le: Order, rows: seq<Option<string>>): Option<string>
    requires TotalOrder(le)
  {
    var texts := Present(rows);
    if texts == {} then None else Some(Join(SortText(le, texts), ","))
  }

  /** trim(x) strips spaces only. */
  function TrimSpaces(s: string): string {
    if s != [] && s[0] == ' ' then TrimSpaces(s[1..])
    else if s != [] && s[|s| - 1] == ' ' then TrimSpaces(s[..|s| - 1])
    else s
  }

  ghost predicate AllSpaces(s: string) {
    forall i :: 0 <= i < |s| ==> s[i] == ' '
  }

  /** Trimming drops the spaces at both ends and nothing else. */
  lemma {:induction false} TrimSpacesExact(s: string) returns (before: string, after: string)
    ensures s == before + TrimSpaces(s) + after && AllSpaces(before) && AllSpaces(after)
    ensures TrimSpaces(s) != [] ==> TrimSpaces(s)[0] != ' ' && TrimSpaces(s)[|TrimSpaces(s)| - 1] != ' '
  {
    if s != [] && s[0] == ' ' {
      var rest, end := TrimSpacesExact(s[1..]);
      before, after := [' '] + rest, end;
      assert s == [' '] + s[1..] == before + TrimSpaces(s) + after;
    } else if s != [] && s[|s| - 1] == ' ' {
      var start, rest := TrimSpacesExact(s[..|s| - 1]);
      before, after := start, rest + [' '];
      assert s == s[..|s| - 1] + [' '] == before + TrimSpaces(s) + after;
    } else {
      before, after := [], [];
    }
  }

  function TrimOption(s: Option<string>): Option<string> {
    if s.None? then None else Some(TrimSpaces(s.value))
  }
}
