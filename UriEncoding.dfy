/**
 * `encodeURIComponent` and the `key=value&key=value` query strings built with it,
 * with `split` as the reading they are meant to survive.
 */
module UriEncoding {

  /** The characters `encodeURIComponent` leaves as they are. */
  predicate Unreserved(c: char) {
    || ('A' <= c <= 'Z') || ('a' <= c <= 'z') || ('0' <= c <= '9')
    || c == '-' || c == '_' || c == '.' || c == '!' || c == '~' || c == '*' || c == '\'' || c == '(' || c == ')'
  }

  /** An upper-case hexadecimal digit. */
  function HexDigit(d: int): (c: char)
    requires 0 <= d < 16
    ensures Unreserved(c)
  {
    if d < 10 then ('0' as int + d) as char else ('A' as int + d - 10) as char
  }

  /** The UTF-8 encoding of a Unicode scalar value. */
  function Utf8(cp: int): (bytes: seq<int>)
    requires 0 <= cp <= 0x10FFFF
    ensures 1 <= |bytes| <= 4
    ensures forall i :: 0 <= i < |bytes| ==> 0 <= bytes[i] < 256
  {
    if cp < 0x80 then [cp]
    else if cp < 0x800 then [0xC0 + cp / 64, 0x80 + cp % 64]
    else if cp < 0x10000 then [0xE0 + cp / 4096, 0x80 + (cp / 64) % 64, 0x80 + cp % 64]
    else [0xF0 + cp / 262144, 0x80 + (cp / 4096) % 64, 0x80 + (cp / 64) % 64, 0x80 + cp % 64]
  }

  /** `%XY` for each byte. */
  function PercentBytes(bytes: seq<int>): (r: string)
    requires forall i :: 0 <= i < |bytes| ==> 0 <= bytes[i] < 256
    ensures |r| == 3 * |bytes|
    ensures forall i :: 0 <= i < |r| ==> Unreserved(r[i]) || r[i] == '%'
    ensures |bytes| > 0 ==> r[0] == '%'
  {
    if bytes == [] then ""
    else ['%', HexDigit(bytes[0] / 16), HexDigit(bytes[0] % 16)] + PercentBytes(bytes[1..])
  }

  function EncodeChar(c: char): (r: string)
    ensures |r| > 0
    ensures forall i :: 0 <= i < |r| ==> Unreserved(r[i]) || r[i] == '%'
    ensures Unreserved(c) ==> r == [c]
    ensures !Unreserved(c) ==> r[0] == '%'
  {
    if Unreserved(c) then [c] else PercentBytes(Utf8(c as int))
  }

  /**
   * `encodeURIComponent(s)`: unreserved characters stay, every other character becomes
   * the percent-escaped bytes of its UTF-8 encoding.
   */
  function EncodeUriComponent(s: string): (r: string)
    ensures |r| >= |s|
    ensures forall i :: 0 <= i < |r| ==> Unreserved(r[i]) || r[i] == '%'
  {
    if s == [] then "" else EncodeChar(s[0]) + EncodeUriComponent(s[1..])
  }

  /** The separators of a query string never occur in an encoded component. */
  lemma EncodedHasNoSeparators(s: string)
    ensures '&' !in EncodeUriComponent(s)
    ensures '=' !in EncodeUriComponent(s)
    ensures '?' !in EncodeUriComponent(s)
    ensures '#' !in EncodeUriComponent(s)
  {
  }

  /** A string of unreserved characters is its own encoding. */
  lemma {:induction false} EncodeUnreservedIsIdentity(s: string)
    requires forall i :: 0 <= i < |s| ==> Unreserved(s[i])
    ensures EncodeUriComponent(s) == s
  {
    if s != [] {
      EncodeUnreservedIsIdentity(s[1..]);
    }
  }

  /** Encoding works character by character, so it distributes over concatenation. */
  lemma {:induction false} EncodeConcat(a: string, b: string)
    ensures EncodeUriComponent(a + b) == EncodeUriComponent(a) + EncodeUriComponent(b)
  {
    if a == [] {
      assert a + b == b;
    } else {
      assert (a + b)[0] == a[0] && (a + b)[1..] == a[1..] + b;
      EncodeConcat(a[1..], b);
    }
  }

  /** A line feed is encoded as `%0A`. */
  lemma EncodeLineFeed()
    ensures EncodeUriComponent("\n") == "%0A"
  {
    assert Utf8('\n' as int) == [10];
  }

  /** Two lines of text. */
  function TwoLines(first: string, second: string): string {
    first + "\n" + second
  }

  /** Two lines encode as the encoded lines around `%0A`. */
  lemma EncodeTwoLines(first: string, second: string)
    ensures EncodeUriComponent(TwoLines(first, second)) == EncodeUriComponent(first) + "%0A" + EncodeUriComponent(second)
  {
    EncodeConcat(first, "\n");
    EncodeConcat(first + "\n", second);
    EncodeLineFeed();
  }

  // ---------------------------------------------------------------------------------
  // join and split

  /** `parts.join(sep)`. */
  function Join(parts: seq<string>, sep: char): string {
    if parts == [] then ""
    else if |parts| == 1 then parts[0]
    else parts[0] + [sep] + Join(parts[1..], sep)
  }

  /** `s.split(sep)`: the pieces between separators, empty ones included. */
  function Split(s: string, sep: char): (pieces: seq<string>)
    ensures |pieces| >= 1
  {
    if s == [] then [""]
    else
      var rest := Split(s[1..], sep);
      if s[0] == sep then [""] + rest else [[s[0]] + rest[0]] + rest[1..]
  }

  lemma {:induction false} SplitWithoutSeparator(s: string, sep: char)
    requires sep !in s
    ensures Split(s, sep) == [s]
  {
    if s != [] {
      SplitWithoutSeparator(s[1..], sep);
      assert s == [s[0]] + s[1..];
    }
  }

  lemma {:induction false} SplitAtFirstSeparator(a: string, b: string, sep: char)
    requires sep !in a
    ensures Split(a + [sep] + b, sep) == [a] + Split(b, sep)
  {
    if a == [] {
      assert a + [sep] + b == [sep] + b;
    } else {
      assert (a + [sep] + b)[1..] == a[1..] + [sep] + b;
      SplitAtFirstSeparator(a[1..], b, sep);
      assert a == [a[0]] + a[1..];
    }
  }

  /** Splitting a join recovers the parts when no part contains the separator. */
  lemma {:induction false} SplitJoin(parts: seq<string>, sep: char)
    requires |parts| >= 1
    requires forall i :: 0 <= i < |parts| ==> sep !in parts[i]
    ensures Split(Join(parts, sep), sep) == parts
  {
    if |parts| == 1 {
      SplitWithoutSeparator(parts[0], sep);
    } else {
      SplitJoin(parts[1..], sep);
      SplitAtFirstSeparator(parts[0], Join(parts[1..], sep), sep);
    }
  }

  // ---------------------------------------------------------------------------------
  // Query strings

  /** `${encodeURIComponent(key)}=${encodeURIComponent(value)}`. */
  function EncodePair(param: (string, string)): string {
    EncodeUriComponent(param.0) + "=" + EncodeUriComponent(param.1)
  }

  /** `Object.entries(params).map(...).join('&')`, entries in their order. */
  function QueryString(params: seq<(string, string)>): string {
    Join(seq(|params|, i requires 0 <= i < |params| => EncodePair(params[i])), '&')
  }

  /**
   * A query string splits on '&' into one piece per parameter, in order, and each piece
   * splits on '=' into the encoded key and the encoded value.
   */
  lemma QueryStringSplits(params: seq<(string, string)>)
    requires |params| >= 1
    ensures |Split(QueryString(params), '&')| == |params|
    ensures forall i :: 0 <= i < |params| ==>
      Split(Split(QueryString(params), '&')[i], '=') == [EncodeUriComponent(params[i].0), EncodeUriComponent(params[i].1)]
  {
    var pieces := seq(|params|, i requires 0 <= i < |params| => EncodePair(params[i]));
    forall i | 0 <= i < |params|
      ensures '&' !in pieces[i]
      ensures Split(pieces[i], '=') == [EncodeUriComponent(params[i].0), EncodeUriComponent(params[i].1)]
    {
      var k, v := EncodeUriComponent(params[i].0), EncodeUriComponent(params[i].1);
      EncodedHasNoSeparators(params[i].0);
      EncodedHasNoSeparators(params[i].1);
      assert pieces[i] == k + ['='] + v;
      SplitAtFirstSeparator(k, v, '=');
      SplitWithoutSeparator(v, '=');
    }
    SplitJoin(pieces, '&');
  }

  lemma QueryStringSingle(p: (string, string))
    ensures QueryString([p]) == EncodePair(p)
  {
    var pieces := seq(1, i requires 0 <= i < 1 => EncodePair([p][i]));
    assert pieces == [EncodePair(p)];
  }

  lemma QueryStringPair(p: (string, string), q: (string, string))
    ensures QueryString([p, q]) == EncodePair(p) + "&" + EncodePair(q)
  {
    var pieces := seq(2, i requires 0 <= i < 2 => EncodePair([p, q][i]));
    assert pieces == [EncodePair(p), EncodePair(q)];
    assert pieces[1..] == [EncodePair(q)];
    assert Join(pieces[1..], '&') == EncodePair(q);
    assert Join(pieces, '&') == EncodePair(p) + ['&'] + EncodePair(q);
  }

  /** A query string never contains '?' or '#', so it cannot end the URL it follows early. */
  lemma {:induction false} QueryStringHasNoMarkers(params: seq<(string, string)>)
    ensures '?' !in QueryString(params) && '#' !in QueryString(params)
  {
    var pieces := seq(|params|, i requires 0 <= i < |params| => EncodePair(params[i]));
    forall i | 0 <= i < |params| ensures '?' !in pieces[i] && '#' !in pieces[i] {
      EncodedHasNoSeparators(params[i].0);
      EncodedHasNoSeparators(params[i].1);
    }
    JoinAvoids(pieces, '&', '?');
    JoinAvoids(pieces, '&', '#');
  }

  lemma {:induction false} JoinAvoids(parts: seq<string>, sep: char, c: char)
    requires c != sep
    requires forall i :: 0 <= i < |parts| ==> c !in parts[i]
    ensures c !in Join(parts, sep)
  {
    if |parts| > 1 {
      JoinAvoids(parts[1..], sep, c);
    }
  }

  /** `base` followed by `?` and the query string, or `base` alone when there are no parameters. */
  function WithQuery(base: string, params: seq<(string, string)>): (url: string)
    ensures params == [] ==> url == base
    ensures params != [] ==> base < url
  {
    if params == [] then base else base + "?" + QueryString(params)
  }

  /** When `base` has no '?', splitting at '?' gives back `base` and the query string. */
  lemma WithQuerySplits(base: string, params: seq<(string, string)>)
    requires '?' !in base && params != []
    ensures Split(WithQuery(base, params), '?') == [base, QueryString(params)]
  {
    QueryStringHasNoMarkers(params);
    SplitAtFirstSeparator(base, QueryString(params), '?');
    SplitWithoutSeparator(QueryString(params), '?');
    assert WithQuery(base, params) == base + ['?'] + QueryString(params);
  }
}
