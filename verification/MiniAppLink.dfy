/** Direct links to Telegram Mini Apps: a printer with validation, and the parser that undoes it. */
module MiniAppLink {
  import opened Prelude
  import opened UrlQuery

  const MODE_DEFAULT := ""
  const MODE_COMPACT := "compact"
  const MIN_USERNAME := 5
  const MAX_USERNAME := 32
  const SCHEME_AND_HOST := "https://t.me"

  datatype LinkError = InvalidUsername | InvalidShortName | InvalidMode

  /** What a link opens. */
  datatype Target = Target(username: string, shortName: string, startParameter: string, mode: string)

  // ---------------------------------------------------------------- validation

  predicate IsLetterOrDigit(c: char) {
    'a' <= c <= 'z' || 'A' <= c <= 'Z' || '0' <= c <= '9'
  }

  predicate UsernameChar(c: char) {
    c == '_' || IsLetterOrDigit(c)
  }

  predicate ShortNameChar(c: char) {
    c == '-' || c == '_' || IsLetterOrDigit(c)
  }

  /** Case folding as far as the letters of "bot" are concerned: they have no other case variants. */
  function Lower(c: char): char {
    if 'A' <= c <= 'Z' then (c as int + 32) as char else c
  }

  /** strings.EqualFold(s, "bot"). */
  predicate FoldsToBot(s: string) {
    |s| == 3 && Lower(s[0]) == 'b' && Lower(s[1]) == 'o' && Lower(s[2]) == 't'
  }

  /** What the character tests let through. */
  lemma CharactersAre(c: char)
    ensures UsernameChar(c) <==> Alphanumeric(c) || c == '_'
    ensures ShortNameChar(c) <==> Alphanumeric(c) || c in {'-', '_'}
  {
  }

  /** The suffixes that fold to "bot". */
  lemma BotSuffixes(s: string)
    ensures FoldsToBot(s) <==> s in {"bot", "Bot", "bOt", "boT", "BOt", "BoT", "bOT", "BOT"}
  {
    if |s| == 3 {
      assert s == [s[0], s[1], s[2]];
    }
  }

  predicate ValidUsername(v: string) {
    && 5 <= |v| <= 32
    && FoldsToBot(v[|v| - 3..])
    && forall i :: 0 <= i < |v| ==> UsernameChar(v[i])
  }

  predicate ValidShortName(v: string) {
    v != "" && forall i :: 0 <= i < |v| ==> ShortNameChar(v[i])
  }

  /** unicode.IsSpace. */
  predicate IsSpace(c: char) {
    var n := c as int;
    || 0x09 <= n <= 0x0D || n == 0x20 || n == 0x85 || n == 0xA0 || n == 0x1680 || 0x2000 <= n <= 0x200A
    || n == 0x2028 || n == 0x2029 || n == 0x202F || n == 0x205F || n == 0x3000
  }

  lemma AsciiSpace(c: char)
    requires c as int < 0x80
    ensures IsSpace(c) <==> c as int in {9, 10, 11, 12, 13, 32}
  {
  }

  function TrimLeft(s: string): string {
    if s != "" && IsSpace(s[0]) then TrimLeft(s[1..]) else s
  }

  function TrimRight(s: string): string {
    if s != "" && IsSpace(s[|s| - 1]) then TrimRight(s[..|s| - 1]) else s
  }

  /** The username as given, without surrounding space and without one leading @. */
  function Trimmed(botUsername: string): string {
    var s := TrimRight(TrimLeft(botUsername));
    if s != "" && s[0] == '@' then s[1..] else s
  }

  /** What the link builder accepts, and which complaint comes first. */
  function Complaint(username: string, shortName: string, mode: string): Option<LinkError> {
    if !ValidUsername(username) then Some(InvalidUsername)
    else if shortName != "" && !ValidShortName(shortName) then Some(InvalidShortName)
    else if mode != MODE_DEFAULT && mode != MODE_COMPACT then Some(InvalidMode)
    else None
  }

  method ValidBotUsername(value: string) returns (ok: bool)
    ensures ok == ValidUsername(value)
  {
    if |value| < MIN_USERNAME || |value| > MAX_USERNAME || !FoldsToBot(value[|value| - 3..]) {
      return false;
    }
    for i := 0 to |value|
      invariant forall j :: 0 <= j < i ==> UsernameChar(value[j])
    {
      if value[i] != '_' && !IsLetterOrDigit(value[i]) {
        assert !UsernameChar(value[i]);
        return false;
      }
    }
    ok := true;
  }

  method ValidMiniAppShortName(value: string) returns (ok: bool)
    ensures ok == ValidShortName(value)
  {
    if value == "" {
      return false;
    }
    for i := 0 to |value|
      invariant forall j :: 0 <= j < i ==> ShortNameChar(value[j])
    {
      if value[i] != '-' && value[i] != '_' && !IsLetterOrDigit(value[i]) {
        assert !ShortNameChar(value[i]);
        return false;
      }
    }
    ok := true;
  }

  // ---------------------------------------------------------------- parsing

  /** The start parameter of a query: the value of its first startapp field that has one. */
  function StartOf(pieces: seq<string>): Option<string> {
    if pieces == [] then Some("")
    else
      var (k, v) := Cut(pieces[0], '=');
      if k == "startapp" then Unescape(v) else StartOf(pieces[1..])
  }

  function ModeOf(pieces: seq<string>): string {
    if pieces == [] then MODE_DEFAULT
    else
      var (k, v) := Cut(pieces[0], '=');
      if k == "mode" then v else ModeOf(pieces[1..])
  }

  /** Reads a link back. */
  function ParseLink(link: string): Option<Target> {
    var n := |SCHEME_AND_HOST| + 1;
    if |link| < n || link[..n] != SCHEME_AND_HOST + "/" then None
    else
      var (path, query) := Cut(link[n..], '?');
      var (username, shortName) := Cut(path, '/');
      var start := StartOf(Split(query, '&'));
      if start.None? then None else Some(Target(username, shortName, start.value, ModeOf(Split(query, '&'))))
  }

  // ---------------------------------------------------------------- printing

  function PathOf(t: Target): string {
    t.username + if t.shortName == "" then "" else "/" + t.shortName
  }

  function StartPieces(t: Target): seq<string>
    requires IsBytes(t.startParameter)
  {
    if t.startParameter != "" then ["startapp=" + Escape(t.startParameter)]
    else if t.shortName == "" then ["startapp"]
    else []
  }

  function ModePieces(t: Target): seq<string> {
    if t.mode == MODE_COMPACT then ["mode=" + t.mode] else []
  }

  function QueryOf(t: Target): seq<string>
    requires IsBytes(t.startParameter)
  {
    StartPieces(t) + ModePieces(t)
  }

  predicate Printable(t: Target) {
    IsBytes(t.startParameter) && Complaint(t.username, t.shortName, t.mode).None?
  }

  function Suffix(query: seq<string>): string {
    if query == [] then "" else "?" + Join(query, '&')
  }

  function Print(t: Target): string
    requires Printable(t)
  {
    SCHEME_AND_HOST + ("/" + PathOf(t)) + Suffix(QueryOf(t))
  }

  lemma NamesAreBare(username: string, shortName: string)
    requires ValidUsername(username) && (shortName != "" ==> ValidShortName(shortName))
    ensures '/' !in username && '?' !in username && '?' !in shortName
  {
  }

  lemma PathParses(t: Target)
    requires Printable(t)
    ensures '?' !in PathOf(t) && Cut(PathOf(t), '/') == (t.username, t.shortName)
  {
    NamesAreBare(t.username, t.shortName);
    CutPiece(t.username, t.shortName, '/');
    if t.shortName != "" {
      assert PathOf(t) == t.username + ['/'] + t.shortName;
    } else {
      assert PathOf(t) == t.username;
    }
  }

  lemma ModePiecesParse(t: Target)
    requires Printable(t)
    ensures var ps := ModePieces(t);
            && |ps| <= 1 && (ps != [] ==> '&' !in ps[0])
            && StartOf(ps) == Some("") && ModeOf(ps) == t.mode
  {
    var ps := ModePieces(t);
    if ps != [] {
      CutPiece("mode", "compact", '=');
      assert ps[0] == "mode" + ['='] + "compact";
      assert ps[1..] == [];
    }
  }

  lemma KeyedPiece(key: string, value: string)
    requires '=' !in key && '&' !in key && '&' !in value
    ensures Cut(key + "=" + value, '=') == (key, value) && '&' !in key + "=" + value
  {
    CutPiece(key, value, '=');
    assert key + "=" + value == key + ['='] + value;
  }

  lemma StartPiecesParse(t: Target)
    requires IsBytes(t.startParameter)
    ensures var ps := StartPieces(t);
            && |ps| <= 1
            && (ps != [] ==> '&' !in ps[0] && Cut(ps[0], '=').0 == "startapp" && Unescape(Cut(ps[0], '=').1) == Some(t.startParameter))
            && (ps == [] ==> t.startParameter == "")
  {
    var value := Escape(t.startParameter);
    EscapeRoundTrip(t.startParameter);
    PlainHasNo(value);
    KeyedPiece("startapp", value);
    assert "startapp" + "=" == "startapp=";
    CutPiece("startapp", "", '=');
  }

  lemma QueryParses(t: Target)
    requires Printable(t)
    ensures forall i :: 0 <= i < |QueryOf(t)| ==> '&' !in QueryOf(t)[i]
    ensures StartOf(QueryOf(t)) == Some(t.startParameter) && ModeOf(QueryOf(t)) == t.mode
  {
    StartPiecesParse(t);
    ModePiecesParse(t);
    if StartPieces(t) == [] {
      assert QueryOf(t) == ModePieces(t);
    } else {
      assert QueryOf(t)[0] == StartPieces(t)[0] && QueryOf(t)[1..] == ModePieces(t);
    }
  }

  /** Every accepted input can be read back from its link. */
  lemma ParsePrint(t: Target)
    requires Printable(t)
    ensures ParseLink(Print(t)) == Some(t)
  {
    var n := |SCHEME_AND_HOST| + 1;
    var query := QueryOf(t);
    var rest := PathOf(t) + Suffix(query);
    assert Print(t) == SCHEME_AND_HOST + "/" + rest;
    assert Print(t)[..n] == SCHEME_AND_HOST + "/" && Print(t)[n..] == rest;
    PathParses(t);
    QueryParses(t);
    if query == [] {
      assert rest == PathOf(t);
      CutPiece(PathOf(t), "", '?');
      EmptyQuery();
    } else {
      assert rest == PathOf(t) + ['?'] + Join(query, '&');
      CutPiece(PathOf(t), Join(query, '&'), '?');
      SplitJoin(query, '&');
    }
  }

  lemma EmptyQuery()
    ensures StartOf(Split("", '&')) == Some("") && ModeOf(Split("", '&')) == MODE_DEFAULT
  {
    assert Split("", '&') == [""];
    assert [""][1..] == [];
  }

  /** Distinct accepted inputs give distinct links. */
  lemma PrintIsInjective(t: Target, u: Target)
    requires Printable(t) && Printable(u) && Print(t) == Print(u)
    ensures t == u
  {
    ParsePrint(t);
    ParsePrint(u);
  }

  /** The query made of two parts, either of which may be missing. */
  function QueryText(start: string, mode: string): string {
    if start != "" && mode != "" then "?" + (start + "&" + mode)
    else if start != "" then "?" + start
    else if mode != "" then "?" + mode
    else ""
  }

  function Part(s: string): seq<string> {
    if s == "" then [] else [s]
  }

  lemma SuffixShows(start: string, mode: string)
    ensures Suffix(Part(start) + Part(mode)) == QueryText(start, mode)
  {
    if start != "" && mode != "" {
      assert (Part(start) + Part(mode))[1..] == [mode];
      assert Join([start] + [mode], '&') == start + ['&'] + mode;
    } else if start != "" {
      assert Part(start) + Part(mode) == [start];
    } else {
      assert Part(start) + Part(mode) == Part(mode);
    }
  }

  /** The start field a link shows: a main Mini App always has one, bare if there is nothing to start with,
      and a named one has it only if there is. */
  function Started(t: Target): string
    requires IsBytes(t.startParameter)
  {
    if t.startParameter != "" then "startapp=" + Escape(t.startParameter)
    else if t.shortName == "" then "startapp"
    else ""
  }

  lemma PiecesShow(t: Target)
    requires Printable(t)
    ensures t.mode in {"", "compact"}
    ensures StartPieces(t) == Part(Started(t)) && ModePieces(t) == Part(if t.mode == "" then "" else "mode=compact")
  {
    assert "mode=" + "compact" == "mode=compact";
    assert t.startParameter != "" ==> |Started(t)| >= 9;
  }

  /** The link, letter by letter. */
  lemma PrintShows(t: Target)
    requires Printable(t)
    ensures t.mode in {"", "compact"}
    ensures Print(t) ==
            ("https://t.me" + ("/" + PathOf(t))) + QueryText(Started(t), if t.mode == "" then "" else "mode=compact")
  {
    PiecesShow(t);
    SuffixShows(Started(t), if t.mode == "" then "" else "mode=compact");
  }

  predicate AllSpace(s: string) {
    forall i :: 0 <= i < |s| ==> IsSpace(s[i])
  }

  /** The text between the surrounding space. */
  predicate Core(c: string) {
    c == "" || (!IsSpace(c[0]) && !IsSpace(c[|c| - 1]))
  }

  lemma {:induction false} TrimLeftSplits(s: string) returns (l: string)
    ensures AllSpace(l) && s == l + TrimLeft(s) && (TrimLeft(s) == "" || !IsSpace(TrimLeft(s)[0]))
  {
    if s != "" && IsSpace(s[0]) {
      var more := TrimLeftSplits(s[1..]);
      l := [s[0]] + more;
      assert s == [s[0]] + s[1..];
    } else {
      l := "";
    }
  }

  lemma {:induction false} TrimRightSplits(s: string) returns (r: string)
    requires s == "" || !IsSpace(s[0])
    ensures AllSpace(r) && s == TrimRight(s) + r && Core(TrimRight(s))
  {
    if s != "" && IsSpace(s[|s| - 1]) {
      var more := TrimRightSplits(s[..|s| - 1]);
      r := more + [s[|s| - 1]];
      assert s == s[..|s| - 1] + [s[|s| - 1]];
    } else {
      r := "";
    }
  }

  /** The username taken from the input is what remains when the space around it is removed, and after that
      one leading @. */
  lemma TrimmedIs(s: string) returns (l: string, core: string, r: string)
    ensures s == l + core + r && AllSpace(l) && AllSpace(r) && Core(core)
    ensures Trimmed(s) == if core != "" && core[0] == '@' then core[1..] else core
  {
    l := TrimLeftSplits(s);
    r := TrimRightSplits(TrimLeft(s));
    core := TrimRight(TrimLeft(s));
  }

  /** The first complaint is about the username, then about the short name if there is one, then the mode. */
  lemma ComplaintIs(username: string, shortName: string, mode: string)
    ensures var c := Complaint(username, shortName, mode);
            var named := shortName == "" || ValidShortName(shortName);
            && (c == Some(InvalidUsername) <==> !ValidUsername(username))
            && (c == Some(InvalidShortName) <==> ValidUsername(username) && !named)
            && (c == Some(InvalidMode) <==> ValidUsername(username) && named && mode !in {"", "compact"})
            && (c == None <==> ValidUsername(username) && named && mode in {"", "compact"})
  {
  }

  method Check(username: string, shortName: string, mode: string) returns (complaint: Option<LinkError>)
    ensures complaint == Complaint(username, shortName, mode)
  {
    var ok := ValidBotUsername(username);
    if !ok {
      return Some(InvalidUsername);
    }
    if shortName != "" {
      ok := ValidMiniAppShortName(shortName);
      if !ok {
        return Some(InvalidShortName);
      }
    }
    complaint := if mode != MODE_DEFAULT && mode != MODE_COMPACT then Some(InvalidMode) else None;
  }

  /** Builds the link step by step, as a URL with a path that grows and a list of query parts. */
  method MiniAppLink(botUsername: string, shortName: string, startParameter: string, mode: string)
    returns (r: Result<string, LinkError>)
    requires IsBytes(startParameter)
    ensures var complaint := Complaint(Trimmed(botUsername), shortName, mode);
            match r
            case Failure(e) => complaint == Some(e)
            case Success(link) =>
              var t := Target(Trimmed(botUsername), shortName, startParameter, mode);
              complaint.None? && link == Print(t) && ParseLink(link) == Some(t)
  {
    var username := Trimmed(botUsername);
    var complaint := Check(username, shortName, mode);
    if complaint.Some? {
      return Failure(complaint.value);
    }

    var path := "/" + username;
    if shortName != "" {
      path := path + "/" + shortName;
    }
    var query := [];
    if startParameter != "" {
      query := query + ["startapp=" + Escape(startParameter)];
    } else if shortName == "" {
      query := query + ["startapp"];
    }
    if mode == MODE_COMPACT {
      query := query + ["mode=" + mode];
    }
    var link := SCHEME_AND_HOST + path + Suffix(query);
    ghost var t := Target(username, shortName, startParameter, mode);
    assert path == "/" + PathOf(t);
    ParsePrint(t);
    r := Success(link);
  }
}
