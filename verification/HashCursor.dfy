/**
 The opaque cursor of the track and identifier collections: a signed 32-bit hash printed in
 decimal and wrapped in unpadded URL-safe base64 (section 5 of RFC 4648). No cursor at all is
 the beginning of the collection; there is no numeric sentinel.
 */
module HashCursor {
  import opened Text
  import opened Wrappers

  type Byte = x: int | 0 <= x < 256

  // ---------------------------------------------------------------- base64, RawURLEncoding

  type Sextet = x: int | 0 <= x < 64

  function SextetChar(v: Sextet): char {
    if v < 26 then 'A' + v as char
    else if v < 52 then 'a' + (v - 26) as char
    else if v < 62 then '0' + (v - 52) as char
    else if v == 62 then '-' else '_'
  }

  predicate InAlphabet(c: char) {
    'A' <= c <= 'Z' || 'a' <= c <= 'z' || '0' <= c <= '9' || c == '-' || c == '_'
  }

  function CharSextet(c: char): (v: Sextet)
    requires InAlphabet(c)
    ensures SextetChar(v) == c
  {
    if 'A' <= c <= 'Z' then c as int - 'A' as int
    else if 'a' <= c <= 'z' then c as int - 'a' as int + 26
    else if '0' <= c <= '9' then c as int - '0' as int + 52
    else if c == '-' then 62 else 63
  }

  predicate AllInAlphabet(s: string) {
    forall i :: 0 <= i < |s| ==> InAlphabet(s[i])
  }

  function ToChars(s: seq<Sextet>): string {
    seq(|s|, i requires 0 <= i < |s| => SextetChar(s[i]))
  }

  function ToSextets(s: string): seq<Sextet>
    requires AllInAlphabet(s)
  {
    seq(|s|, i requires 0 <= i < |s| && InAlphabet(s[i]) => CharSextet(s[i]))
  }

  function Sextet0(x: Byte): Sextet { x / 4 }
  function Sextet1(x: Byte, y: Byte): Sextet { x % 4 * 16 + y / 16 }
  function Sextet2(y: Byte, z: Byte): Sextet { y % 16 * 4 + z / 64 }
  function Sextet3(z: Byte): Sextet { z % 64 }

  function Byte0(p: Sextet, q: Sextet): Byte { p * 4 + q / 16 }
  function Byte1(q: Sextet, r: Sextet): Byte { q % 16 * 16 + r / 4 }
  function Byte2(r: Sextet, t: Sextet): Byte { r % 4 * 64 + t }

  /** Three bytes become four sextets; a final group of one or two bytes becomes two or three. */
  function Split(b: seq<Byte>): seq<Sextet> {
    if |b| == 0 then []
    else if |b| == 1 then [Sextet0(b[0]), Sextet1(b[0], 0)]
    else if |b| == 2 then [Sextet0(b[0]), Sextet1(b[0], b[1]), Sextet2(b[1], 0)]
    else [Sextet0(b[0]), Sextet1(b[0], b[1]), Sextet2(b[1], b[2]), Sextet3(b[2])] + Split(b[3..])
  }

  /** Left-over bits of a short final group are ignored; a single left-over sextet is an error. */
  function Join(s: seq<Sextet>): Option<seq<Byte>> {
    if |s| == 0 then Some([])
    else if |s| == 1 then None
    else if |s| == 2 then Some([Byte0(s[0], s[1])])
    else if |s| == 3 then Some([Byte0(s[0], s[1]), Byte1(s[1], s[2])])
    else
      var rest := Join(s[4..]);
      if rest.None? then None
      else Some([Byte0(s[0], s[1]), Byte1(s[1], s[2]), Byte2(s[2], s[3])] + rest.value)
  }

  function Encode(b: seq<Byte>): string {
    ToChars(Split(b))
  }

  /** The decoder drops carriage returns and line feeds wherever they stand. */
  function StripNewlines(s: string): string {
    if s == [] then []
    else if s[0] == '\r' || s[0] == '\n' then StripNewlines(s[1..])
    else [s[0]] + StripNewlines(s[1..])
  }

  function Decode(s: string): Option<seq<Byte>> {
    var clean := StripNewlines(s);
    if AllInAlphabet(clean) then Join(ToSextets(clean)) else None
  }

  lemma SextetsRoundTrip(s: seq<Sextet>)
    ensures AllInAlphabet(ToChars(s)) && ToSextets(ToChars(s)) == s
  {
  }

  lemma {:induction false} StripKeepsAlphabet(s: string)
    requires AllInAlphabet(s)
    ensures StripNewlines(s) == s
  {
    if s != [] {
      assert InAlphabet(s[0]);
      StripKeepsAlphabet(s[1..]);
    }
  }

  lemma GroupBytes(x: Byte, y: Byte, z: Byte)
    ensures Byte0(Sextet0(x), Sextet1(x, y)) == x
    ensures Byte1(Sextet1(x, y), Sextet2(y, z)) == y
    ensures Byte2(Sextet2(y, z), Sextet3(z)) == z
  {
  }

  lemma {:induction false} JoinSplit(b: seq<Byte>)
    ensures Join(Split(b)) == Some(b)
  {
    hide Byte0, Byte1, Byte2, Sextet0, Sextet1, Sextet2, Sextet3;
    if |b| == 1 {
      GroupBytes(b[0], 0, 0);
      assert b == [b[0]];
    } else if |b| == 2 {
      GroupBytes(b[0], b[1], 0);
      assert b == [b[0], b[1]];
    } else if |b| >= 3 {
      GroupBytes(b[0], b[1], b[2]);
      JoinSplit(b[3..]);
      assert Split(b)[4..] == Split(b[3..]);
      assert b == [b[0], b[1], b[2]] + b[3..];
    }
  }

  /**
   Encoding regroups bits and nothing else: read as one number, the sextets of a group are its
   bytes followed by the zero bits that fill the last sextet.
   */
  lemma GroupsKeepBits(x: Byte, y: Byte, z: Byte)
    ensures Sextet0(x) * 262144 + Sextet1(x, y) * 4096 + Sextet2(y, z) * 64 + Sextet3(z) == x * 65536 + y * 256 + z
    ensures Sextet0(x) * 4096 + Sextet1(x, y) * 64 + Sextet2(y, 0) == (x * 256 + y) * 4
    ensures Sextet0(x) * 64 + Sextet1(x, 0) == x * 16
  {
  }

  /** The table of section 5 of RFC 4648: where its runs begin, and that each run counts upwards. */
  lemma AlphabetOrder(v: Sextet)
    ensures SextetChar(0) == 'A' && SextetChar(26) == 'a' && SextetChar(52) == '0' && SextetChar(62) == '-' && SextetChar(63) == '_'
    ensures v !in {25, 51, 61, 62, 63} ==> SextetChar(v + 1) as int == SextetChar(v) as int + 1
  {
  }

  /** No padding: n bytes take ceil(4 n / 3) characters. */
  lemma {:induction false} EncodedLength(b: seq<Byte>)
    ensures |Encode(b)| == (4 * |b| + 2) / 3
  {
    if |b| >= 3 { EncodedLength(b[3..]); }
  }

  lemma {:induction false} StripConcat(a: string, b: string)
    ensures StripNewlines(a + b) == StripNewlines(a) + StripNewlines(b)
  {
    if a == [] {
      assert a + b == b;
    } else {
      StripConcat(a[1..], b);
      assert (a + b)[1..] == a[1..] + b;
      var first := if a[0] == '\r' || a[0] == '\n' then "" else [a[0]];
      assert StripNewlines(a) == first + StripNewlines(a[1..]);
      assert StripNewlines(a + b) == first + (StripNewlines(a[1..]) + StripNewlines(b));
    }
  }

  /** Line breaks make no difference, wherever they stand. */
  lemma NewlinesIgnored(a: string, b: string)
    ensures Decode(a + "\r" + b) == Decode(a + b) && Decode(a + "\n" + b) == Decode(a + b)
  {
    DropNewline(a, '\r', b);
    DropNewline(a, '\n', b);
    hide StripNewlines;
  }

  lemma DropNewline(a: string, c: char, b: string)
    requires c == '\r' || c == '\n'
    ensures StripNewlines(a + [c] + b) == StripNewlines(a + b)
  {
    StripConcat(a, b);
    StripConcat(a, [c] + b);
    assert a + [c] + b == a + ([c] + b);
    assert ([c] + b)[1..] == b;
  }

  lemma {:induction false} JoinLength(s: seq<Sextet>)
    ensures Join(s).Some? <==> |s| % 4 != 1
    ensures Join(s).Some? ==> |Join(s).value| == 3 * |s| / 4
  {
    hide Byte0, Byte1, Byte2;
    if |s| >= 4 { JoinLength(s[4..]); }
  }

  /** Without line breaks, text decodes iff it stays in the alphabet and its last group is not a single character. */
  lemma DecodeAccepts(s: string)
    requires '\r' !in s && '\n' !in s
    ensures Decode(s).Some? <==> AllInAlphabet(s) && |s| % 4 != 1
    ensures Decode(s).Some? ==> |Decode(s).value| == 3 * |s| / 4
  {
    NothingToStrip(s);
    if AllInAlphabet(s) { JoinLength(ToSextets(s)); }
  }

  lemma {:induction false} NothingToStrip(s: string)
    requires '\r' !in s && '\n' !in s
    ensures StripNewlines(s) == s
  {
    if s != [] { NothingToStrip(s[1..]); }
  }

  /** Decoding inverts encoding on every byte sequence. */
  lemma DecodeEncode(b: seq<Byte>)
    ensures Decode(Encode(b)) == Some(b)
  {
    SextetsRoundTrip(Split(b));
    StripKeepsAlphabet(Encode(b));
    JoinSplit(b);
  }

  // ---------------------------------------------------------------- the cursor text

  /** The outcome of reading the `cursor` parameter. */
  datatype CursorParameter = NoCursor | Cursor(hash: int) | InvalidCursor

  function ToBytes(s: string): seq<Byte>
    requires forall i :: 0 <= i < |s| ==> s[i] as int < 256
  {
    seq(|s|, i requires 0 <= i < |s| => s[i] as int)
  }

  function FromBytes(b: seq<Byte>): string {
    seq(|b|, i requires 0 <= i < |b| => b[i] as char)
  }

  /** encodeHashCursor for a present hash; an absent one stays absent. */
  function EncodeHash(hash: int): string {
    FormatIntShape(hash);
    Encode(ToBytes(FormatInt(hash)))
  }

  /** decodeHashCursor. */
  function DecodeCursor(raw: Raw): CursorParameter {
    if raw.Malformed? then InvalidCursor
    else if TrimSpace(raw.text) == "" then NoCursor
    else
      var decoded := Decode(raw.text);
      if decoded.None? then InvalidCursor
      else
        var hash := ParseInt(FromBytes(decoded.value), MIN_INT32, MAX_INT32);
        if hash.None? then InvalidCursor else Cursor(hash.value)
  }

  /** The printed cursor is never blank and stays inside the unpadded URL-safe alphabet. */
  lemma EncodedHashIsUrlSafe(hash: int)
    ensures EncodeHash(hash) != []
    ensures AllInAlphabet(EncodeHash(hash))
    ensures TrimSpace(EncodeHash(hash)) == EncodeHash(hash)
  {
    FormatIntShape(hash);
    var b := ToBytes(FormatInt(hash));
    assert |b| > 0;
    SextetsRoundTrip(Split(b));
    TrimSpaceFixesTrimmed(Encode(b));
  }

  /** Every 32-bit hash survives the trip through its cursor text, the minimum included. */
  lemma CursorRoundTrip(hash: int)
    requires MIN_INT32 <= hash <= MAX_INT32
    ensures DecodeCursor(Chars(EncodeHash(hash))) == Cursor(hash)
  {
    var printed := FormatInt(hash);
    FormatIntShape(hash);
    ParseFormatInt(hash, MIN_INT32, MAX_INT32);
    EncodedHashIsUrlSafe(hash);
    DecodeEncode(ToBytes(printed));
    assert FromBytes(ToBytes(printed)) == printed;
  }

  /** A cursor is read exactly when the text decodes to a decimal numeral in 32-bit range, and is that number. */
  lemma DecodedCursorMeaning(raw: Raw, hash: int)
    ensures DecodeCursor(raw) == Cursor(hash) <==>
      raw.Chars? && !Blank(raw.text) && Decode(raw.text).Some?
      && Denotes(FromBytes(Decode(raw.text).value), hash) && MIN_INT32 <= hash <= MAX_INT32
  {
    hide Decode, FromBytes, Denotes, ParseInt, TrimSpace;
    if raw.Chars? {
      TrimSpaceBlank(raw.text);
      if Decode(raw.text).Some? { ParseIntMeaning(FromBytes(Decode(raw.text).value), MIN_INT32, MAX_INT32, hash); }
    }
  }

  /** Reading a cursor yields no cursor for blank text only, and otherwise a 32-bit hash or a refusal. */
  lemma DecodedCursorInRange(raw: Raw)
    ensures DecodeCursor(raw).NoCursor? <==> raw.Chars? && Blank(raw.text)
    ensures DecodeCursor(raw).Cursor? ==> MIN_INT32 <= DecodeCursor(raw).hash <= MAX_INT32
  {
    if raw.Chars? { TrimSpaceBlank(raw.text); }
  }

  /** Some cursors as they appear in responses. */
  lemma CursorTexts()
    ensures EncodeHash(42) == "NDI"
    ensures EncodeHash(-1) == "LTE"
    ensures EncodeHash(123) == "MTIz"
  {
    PrintedShort();
    hide FormatInt, FormatNat;
    assert ToBytes("42") == [52, 50] && ToBytes("-1") == [45, 49] && ToBytes("123") == [49, 50, 51];
  }

  lemma PrintedShort()
    ensures FormatInt(42) == "42" && FormatInt(-1) == "-1" && FormatInt(123) == "123"
  {
    assert FormatNat(4) == "4" && FormatNat(1) == "1" && FormatNat(12) == "12";
  }
}
