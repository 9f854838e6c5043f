/** Byte strings, separators, hexadecimal and the query-string encoding of net/url. Go strings are byte
    sequences; a string here stands for one when every character is below 256. */
module UrlQuery {
  import opened Prelude

  predicate IsBytes(s: string) {
    forall i :: 0 <= i < |s| ==> s[i] as int < 256
  }

  // ---------------------------------------------------------------- separators

  /** strings.Join with a one-byte separator. */
  function Join(parts: seq<string>, sep: char): string {
    if parts == [] then ""
    else if |parts| == 1 then parts[0]
    else parts[0] + [sep] + Join(parts[1..], sep)
  }

  /** strings.Split with a one-byte separator. */
  function Split(s: string, sep: char): (parts: seq<string>)
    ensures |parts| >= 1
  {
    if s == "" then [""]
    else
      var rest := Split(s[1..], sep);
      if s[0] == sep then [""] + rest else [[s[0]] + rest[0]] + rest[1..]
  }

  /** strings.Cut at the first separator; the second part is empty when there is none. */
  function Cut(s: string, sep: char): (string, string) {
    if s == "" then ("", "")
    else if s[0] == sep then ("", s[1..])
    else
      var (before, after) := Cut(s[1..], sep);
      ([s[0]] + before, after)
  }

  lemma {:induction false} SplitPiece(a: string, s: string, sep: char)
    requires sep !in a
    ensures Split(a + [sep] + s, sep) == [a] + Split(s, sep)
    ensures Split(a, sep) == [a]
  {
    if a != "" {
      SplitPiece(a[1..], s, sep);
      assert (a + [sep] + s)[1..] == a[1..] + [sep] + s;
      assert [a[0]] + a[1..] == a;
    } else {
      assert (a + [sep] + s)[1..] == s;
    }
  }

  /** Splitting undoes joining when no part contains the separator. */
  lemma {:induction false} SplitJoin(parts: seq<string>, sep: char)
    requires |parts| >= 1 && forall i :: 0 <= i < |parts| ==> sep !in parts[i]
    ensures Split(Join(parts, sep), sep) == parts
  {
    if |parts| == 1 {
      SplitPiece(parts[0], "", sep);
      assert parts == [parts[0]];
    } else {
      var rest := Join(parts[1..], sep);
      SplitJoin(parts[1..], sep);
      SplitPiece(parts[0], rest, sep);
      assert Join(parts, sep) == parts[0] + [sep] + rest;
      assert parts == [parts[0]] + parts[1..];
    }
  }

  lemma {:induction false} CutPiece(a: string, b: string, sep: char)
    requires sep !in a
    ensures Cut(a + [sep] + b, sep) == (a, b)
    ensures Cut(a, sep) == (a, "")
  {
    if a != "" {
      CutPiece(a[1..], b, sep);
      assert (a + [sep] + b)[1..] == a[1..] + [sep] + b;
      assert [a[0]] + a[1..] == a;
    } else {
      assert (a + [sep] + b)[1..] == b;
    }
  }

  // ---------------------------------------------------------------- hexadecimal

  /** A byte that separates nothing in a query string or a list of lines. */
  predicate Plain(c: char) {
    c as int < 256 && c != '&' && c != '=' && c != ';' && c != '#' && c != '?' && c != '\n'
  }

  function HexDigit(n: nat, upper: bool): (c: char)
    requires n < 16
    ensures HexValue(c) == Some(n) && Plain(c)
  {
    if n < 10 then ('0' as int + n) as char
    else if upper then ('A' as int + n - 10) as char
    else ('a' as int + n - 10) as char
  }

  function HexValue(c: char): (v: Option<nat>)
    ensures v.Some? ==> v.value < 16
  {
    if '0' <= c <= '9' then Some(c as int - '0' as int)
    else if 'a' <= c <= 'f' then Some(c as int - 'a' as int + 10)
    else if 'A' <= c <= 'F' then Some(c as int - 'A' as int + 10)
    else None
  }

  /** hex.EncodeToString. */
  function HexEncode(s: string): string
    requires IsBytes(s)
  {
    if s == "" then ""
    else [HexDigit(s[0] as int / 16, false), HexDigit(s[0] as int % 16, false)] + HexEncode(s[1..])
  }

  /** hex.DecodeString: pairs of digits in either case. */
  function HexDecode(s: string): Option<string> {
    if s == "" then Some("")
    else if |s| == 1 || HexValue(s[0]).None? || HexValue(s[1]).None? then None
    else
      var rest := HexDecode(s[2..]);
      if rest.None? then None
      else Some([(16 * HexValue(s[0]).value + HexValue(s[1]).value) as char] + rest.value)
  }

  lemma {:induction false} HexRoundTrip(s: string)
    requires IsBytes(s)
    ensures HexDecode(HexEncode(s)) == Some(s)
    ensures IsBytes(HexEncode(s))
  {
    if s != "" {
      HexRoundTrip(s[1..]);
      assert HexEncode(s)[2..] == HexEncode(s[1..]);
      assert [s[0]] + s[1..] == s;
    }
  }

  // ---------------------------------------------------------------- query escaping

  /** The letters and digits by their ASCII codes. */
  predicate Alphanumeric(c: char) {
    var n := c as int;
    48 <= n <= 57 || 65 <= n <= 90 || 97 <= n <= 122
  }

  predicate UpperHex(c: char) {
    var n := c as int;
    48 <= n <= 57 || 65 <= n <= 70
  }

  predicate Unreserved(c: char) {
    'a' <= c <= 'z' || 'A' <= c <= 'Z' || '0' <= c <= '9' || c == '-' || c == '_' || c == '.' || c == '~'
  }

  function EscapeByte(c: char): string
    requires c as int < 256
  {
    if Unreserved(c) then [c]
    else if c == ' ' then "+"
    else ['%', HexDigit(c as int / 16, true), HexDigit(c as int % 16, true)]
  }

  /** url.QueryEscape. */
  function Escape(s: string): string
    requires IsBytes(s)
  {
    if s == "" then "" else EscapeByte(s[0]) + Escape(s[1..])
  }

  /** url.QueryUnescape. */
  function Unescape(s: string): Option<string> {
    if s == "" then Some("")
    else if s[0] == '%' then
      if |s| < 3 || HexValue(s[1]).None? || HexValue(s[2]).None? then None
      else
        var rest := Unescape(s[3..]);
        if rest.None? then None
        else Some([(16 * HexValue(s[1]).value + HexValue(s[2]).value) as char] + rest.value)
    else
      var rest := Unescape(s[1..]);
      if rest.None? then None else Some([if s[0] == '+' then ' ' else s[0]] + rest.value)
  }

  /** How a byte is escaped: letters, digits and four marks stand for themselves, a space is a plus, and
      everything else a percent sign with two upper-case digits. */
  lemma EscapeShows(c: char)
    requires c as int < 256
    ensures var e := EscapeByte(c);
            if Alphanumeric(c) || c in {'-', '_', '.', '~'} then e == [c]
            else if c == ' ' then e == "+"
            else |e| == 3 && e[0] == '%' && UpperHex(e[1]) && UpperHex(e[2])
  {
  }

  lemma UnescapeByte(c: char, rest: string)
    requires c as int < 256
    ensures Unescape(EscapeByte(c) + rest) ==
            if Unescape(rest).None? then None else Some([c] + Unescape(rest).value)
    ensures forall i :: 0 <= i < |EscapeByte(c)| ==> Plain(EscapeByte(c)[i])
  {
    var e := EscapeByte(c);
    if |e| == 1 {
      assert (e + rest)[1..] == rest;
    } else {
      assert (e + rest)[3..] == rest;
      assert (e + rest)[1] == e[1] && (e + rest)[2] == e[2];
    }
  }

  /** Unescaping undoes escaping, and escaped text is free of every separator of a query string. */
  lemma {:induction false} EscapeRoundTrip(s: string)
    requires IsBytes(s)
    ensures Unescape(Escape(s)) == Some(s)
    ensures forall i :: 0 <= i < |Escape(s)| ==> Plain(Escape(s)[i])
  {
    if s != "" {
      EscapeRoundTrip(s[1..]);
      UnescapeByte(s[0], Escape(s[1..]));
      assert [s[0]] + s[1..] == s;
    }
  }

  // ---------------------------------------------------------------- query strings

  type Pair = (string, string)

  function EncodePair(p: Pair): string
    requires IsBytes(p.0) && IsBytes(p.1)
  {
    Escape(p.0) + "=" + Escape(p.1)
  }

  predicate BytePairs(pairs: seq<Pair>) {
    forall i :: 0 <= i < |pairs| ==> IsBytes(pairs[i].0) && IsBytes(pairs[i].1)
  }

  function EncodePairs(pairs: seq<Pair>): (pieces: seq<string>)
    requires BytePairs(pairs)
    ensures |pieces| == |pairs| && forall i :: 0 <= i < |pairs| ==> pieces[i] == EncodePair(pairs[i])
  {
    seq(|pairs|, i requires 0 <= i < |pairs| => EncodePair(pairs[i]))
  }

  /** The query string of a list of fields, in the order of the list. */
  function EncodeQuery(pairs: seq<Pair>): string
    requires BytePairs(pairs)
  {
    Join(EncodePairs(pairs), '&')
  }

  /** The fields of the pieces between the ampersands: empty pieces are skipped, and a semicolon or a bad
      escape makes the whole query unreadable. */
  function ParsePieces(pieces: seq<string>): Option<seq<Pair>> {
    if pieces == [] then Some([])
    else
      var rest := ParsePieces(pieces[1..]);
      if pieces[0] == "" then rest
      else
        var (k, v) := Cut(pieces[0], '=');
        if ';' in pieces[0] || Unescape(k).None? || Unescape(v).None? || rest.None? then None
        else Some([(Unescape(k).value, Unescape(v).value)] + rest.value)
  }

  /** url.ParseQuery, before the values of equal keys are grouped. */
  function ParseQuery(raw: string): Option<seq<Pair>> {
    ParsePieces(Split(raw, '&'))
  }

  lemma EncodedPair(p: Pair)
    requires IsBytes(p.0) && IsBytes(p.1)
    ensures var e := EncodePair(p);
            && e != "" && '&' !in e && ';' !in e
            && Cut(e, '=') == (Escape(p.0), Escape(p.1))
            && Unescape(Escape(p.0)) == Some(p.0) && Unescape(Escape(p.1)) == Some(p.1)
  {
    var a, b := Escape(p.0), Escape(p.1);
    EscapeRoundTrip(p.0);
    EscapeRoundTrip(p.1);
    PlainHasNo(a);
    PlainHasNo(b);
    CutPiece(a, b, '=');
    assert EncodePair(p) == a + ['='] + b;
  }

  lemma PlainHasNo(s: string)
    requires forall i :: 0 <= i < |s| ==> Plain(s[i])
    ensures '&' !in s && ';' !in s && '=' !in s && '\n' !in s
  {
  }

  lemma {:induction false} PiecesOfPairs(pairs: seq<Pair>)
    requires BytePairs(pairs)
    ensures ParsePieces(EncodePairs(pairs)) == Some(pairs)
  {
    if pairs != [] {
      EncodedPair(pairs[0]);
      PiecesOfPairs(pairs[1..]);
      assert EncodePairs(pairs)[1..] == EncodePairs(pairs[1..]);
      assert [pairs[0]] + pairs[1..] == pairs;
    }
  }

  /** Parsing undoes encoding, field for field and in order. */
  lemma ParseEncode(pairs: seq<Pair>)
    requires BytePairs(pairs) && pairs != []
    ensures ParseQuery(EncodeQuery(pairs)) == Some(pairs)
  {
    var pieces := EncodePairs(pairs);
    forall i | 0 <= i < |pieces| ensures '&' !in pieces[i] {
      EncodedPair(pairs[i]);
    }
    SplitJoin(pieces, '&');
    PiecesOfPairs(pairs);
  }

  /** Empty pieces between ampersands are skipped. */
  lemma EmptyPieceSkipped(raw: string)
    ensures ParseQuery("&" + raw) == ParseQuery(raw)
  {
    SplitPiece("", raw, '&');
    assert "&" + raw == "" + ['&'] + raw;
    assert ([""] + Split(raw, '&'))[1..] == Split(raw, '&');
  }

  lemma {:induction false} SplitCovers(s: string, sep: char, c: char)
    requires c in s && c != sep
    ensures exists i :: 0 <= i < |Split(s, sep)| && c in Split(s, sep)[i]
  {
    var parts, rest := Split(s, sep), Split(s[1..], sep);
    if s[0] == c {
      assert c in parts[0];
    } else {
      assert s == [s[0]] + s[1..];
      SplitCovers(s[1..], sep, c);
      var i :| 0 <= i < |rest| && c in rest[i];
      if s[0] == sep {
        assert parts[i + 1] == rest[i];
      } else if i == 0 {
        assert parts[0] == [s[0]] + rest[0];
      } else {
        assert parts[i] == rest[i];
      }
    }
  }

  lemma {:induction false} PiecesRefuse(pieces: seq<string>, i: nat)
    requires i < |pieces| && ';' in pieces[i]
    ensures ParsePieces(pieces).None?
  {
    if i > 0 {
      PiecesRefuse(pieces[1..], i - 1);
    }
  }

  /** A semicolon anywhere makes the whole query unreadable. */
  lemma SemicolonRefused(raw: string)
    requires ';' in raw
    ensures ParseQuery(raw).None?
  {
    SplitCovers(raw, '&', ';');
    var i :| 0 <= i < |Split(raw, '&')| && ';' in Split(raw, '&')[i];
    PiecesRefuse(Split(raw, '&'), i);
  }

  /** Any byte may be written as a percent sign and two hexadecimal digits, each in either case. */
  lemma PercentReads(c: char, upper: bool, lower: bool, rest: string)
    requires c as int < 256
    ensures Unescape(['%', HexDigit(c as int / 16, upper), HexDigit(c as int % 16, lower)] + rest) ==
            if Unescape(rest).None? then None else Some([c] + Unescape(rest).value)
  {
    var e := ['%', HexDigit(c as int / 16, upper), HexDigit(c as int % 16, lower)];
    assert (e + rest)[3..] == rest;
    assert (e + rest)[1] == e[1] && (e + rest)[2] == e[2];
  }
}
