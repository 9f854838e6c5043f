/** Authentication of Telegram Mini App init data: the canonical check string, the keyed hash over it, and
    the window in which it is accepted. */
module MiniAppAuth {
  import opened Prelude
  import opened UrlQuery
  import opened Strconv
  import Lex

  const MAX_INIT_DATA := 16 * 1024
  const FUTURE_SKEW: Int64 := 30 * SECOND
  const WEB_APP_DATA := "WebAppData"
  /** Seconds between year 1, where time.Time counts from, and 1970. */
  const UNIX_TO_INTERNAL := 62_135_596_800

  /** url.Values. */
  type Values = map<string, seq<string>>

  datatype AuthError =
    | EmptyValue | TooLong | BadQuery | DuplicateField | MalformedHash | HashMismatch
    | BadAuthDate | FutureData | ExpiredData | BadCanSendAfter | BadUser | BadReceiver | BadChat

  // ---------------------------------------------------------------- the data-check string

  function Get(values: Values, key: string): string {
    if key in values && |values[key]| > 0 then values[key][0] else ""
  }

  /** Strings are sorted by themselves. */
  const SELF: string -> string := (s: string) => s

  ghost predicate AscendingStrings(keys: seq<string>) {
    Lex.Ascending(keys, SELF)
  }

  /** The keys of a set in ascending order. */
  ghost function SortedKeys(keys: set<string>): (s: seq<string>)
    ensures AscendingStrings(s) && forall k :: k in s <==> k in keys
  {
    if keys == {} then []
    else
      var k :| k in keys;
      var rest := SortedKeys(keys - {k});
      var key := SELF;
      Lex.InsertKeeps(k, rest, key);
      InsertMembers(k, rest);
      Lex.Insert(k, rest, key)
  }

  lemma InsertMembers(k: string, s: seq<string>)
    requires AscendingStrings(s) && k !in s
    ensures forall x :: x in Lex.Insert(k, s, SELF) <==> x == k || x in s
  {
    var key := SELF;
    Lex.InsertKeeps(k, s, key);
    forall x ensures x in Lex.Insert(k, s, key) <==> x == k || x in s {
      assert x in Lex.Insert(k, s, key) <==> x in multiset(Lex.Insert(k, s, key));
    }
  }

  function Field(values: Values, key: string): string {
    key + "=" + Get(values, key)
  }

  function Fields(values: Values, keys: seq<string>): seq<string> {
    seq(|keys|, i requires 0 <= i < |keys| => Field(values, keys[i]))
  }

  /** key=value lines in ascending order of the keys, without the excluded ones. */
  ghost function CheckString(values: Values, excluded: set<string>): string {
    Join(Fields(values, SortedKeys(values.Keys - excluded)), '\n')
  }

  /** Ranges over the map in any order. */
  method CollectKeys(values: Values, skip: set<string>) returns (keys: seq<string>)
    ensures Lex.DistinctKeys(keys, SELF)
    ensures forall k :: k in keys <==> k in values.Keys - skip
  {
    keys := [];
    var left := values.Keys;
    while left != {}
      invariant left <= values.Keys
      invariant forall k :: k in keys <==> k in values.Keys - left - skip
      invariant Lex.DistinctKeys(keys, SELF)
      decreases left
    {
      var k :| k in left;
      left := left - {k};
      if k !in skip {
        AppendDistinct(keys, k);
        keys := keys + [k];
      }
    }
  }

  method CollectFields(values: Values, keys: seq<string>) returns (fields: seq<string>)
    ensures fields == Fields(values, keys)
  {
    fields := [];
    for i := 0 to |keys|
      invariant |fields| == i
      invariant forall j :: 0 <= j < i ==> fields[j] == Field(values, keys[j])
    {
      fields := fields + [keys[i] + "=" + Get(values, keys[i])];
    }
  }

  /** s is made of one key=value line for each field that is not excluded, in the bytewise order of keys. */
  ghost predicate Canonical(values: Values, excluded: set<string>, keys: seq<string>, s: string) {
    && (forall k :: k in keys <==> k in values.Keys - excluded)
    && (forall i, j :: 0 <= i < j < |keys| ==> Lex.Before(keys[i], keys[j]))
    && s == Join(Fields(values, keys), '\n')
  }

  ghost predicate IsCanonical(values: Values, excluded: set<string>, s: string) {
    exists keys :: Canonical(values, excluded, keys, s)
  }

  lemma CheckStringIsCanonical(values: Values, excluded: set<string>)
    ensures IsCanonical(values, excluded, CheckString(values, excluded))
  {
    var keys := SortedKeys(values.Keys - excluded);
    forall i, j | 0 <= i < j < |keys| ensures Lex.Before(keys[i], keys[j]) {
      assert Lex.Less(SELF(keys[i]), SELF(keys[j]));
      Lex.LessIsBefore(keys[i], keys[j]);
    }
    assert Canonical(values, excluded, keys, CheckString(values, excluded));
  }

  /** Whatever order the map is iterated in, the result is the one canonical string: the lines key=value of
      the fields that are not excluded, in bytewise order of their keys. */
  method DataCheckString(values: Values, excluded: seq<string>) returns (s: string)
    ensures s == CheckString(values, set k | k in excluded)
    ensures IsCanonical(values, (set k | k in excluded), s)
  {
    CheckStringIsCanonical(values, set k | k in excluded);
    var skip := set k | k in excluded;
    var keys := CollectKeys(values, skip);
    SortedKeysAreSort(keys, values.Keys - skip);
    keys := Lex.Sort(keys, SELF);
    var fields := CollectFields(values, keys);
    s := Join(fields, '\n');
  }

  lemma AppendDistinct(keys: seq<string>, k: string)
    requires Lex.DistinctKeys(keys, SELF) && k !in keys
    ensures Lex.DistinctKeys(keys + [k], SELF)
  {
  }

  lemma SortedKeysAreSort(keys: seq<string>, all: set<string>)
    requires Lex.DistinctKeys(keys, SELF) && forall k :: k in keys <==> k in all
    ensures Lex.Sort(keys, SELF) == SortedKeys(all)
  {
    var key := SELF;
    Lex.SortSorts(keys, key);
    forall k ensures k in Lex.Sort(keys, key) <==> k in SortedKeys(all) {
      Lex.SortMembers(keys, key, k);
    }
    Lex.AscendingIsUnique(Lex.Sort(keys, key), SortedKeys(all), key);
  }

  // ---------------------------------------------------------------- reading a check string back

  /** The map written by lines: each is cut at its first '='. */
  function FromLines(lines: seq<string>): map<string, string> {
    if lines == [] then map[]
    else
      var (k, v) := Cut(lines[|lines| - 1], '=');
      FromLines(lines[..|lines| - 1])[k := v]
  }

  function ParseCheckString(s: string): map<string, string> {
    if s == "" then map[] else FromLines(Split(s, '\n'))
  }

  /** The fields a check string speaks for. */
  function Flatten(values: Values, excluded: set<string>): map<string, string> {
    map k | k in values.Keys - excluded :: Get(values, k)
  }

  /** No key holds '=' or a newline, no value a newline. */
  predicate Legible(values: Values, excluded: set<string>) {
    forall k :: k in values.Keys - excluded ==> '=' !in k && '\n' !in k && '\n' !in Get(values, k)
  }

  lemma FieldCuts(values: Values, excluded: set<string>, k: string)
    requires Legible(values, excluded) && k in values.Keys - excluded
    ensures Cut(Field(values, k), '=') == (k, Get(values, k))
  {
    CutPiece(k, Get(values, k), '=');
    assert Field(values, k) == k + ['='] + Get(values, k);
  }

  /** The map that writing down the fields in this order builds. */
  function Written(values: Values, keys: seq<string>): map<string, string> {
    if keys == [] then map[]
    else
      var last := keys[|keys| - 1];
      Written(values, keys[..|keys| - 1])[last := Get(values, last)]
  }

  lemma {:induction false} WrittenMembers(values: Values, keys: seq<string>, k: string)
    ensures k in Written(values, keys) <==> k in keys
    ensures k in keys ==> Written(values, keys)[k] == Get(values, k)
  {
    if keys != [] {
      var n := |keys| - 1;
      WrittenMembers(values, keys[..n], k);
      assert keys == keys[..n] + [keys[n]];
    }
  }

  lemma {:induction false} FromFields(values: Values, excluded: set<string>, keys: seq<string>)
    requires Legible(values, excluded) && forall i :: 0 <= i < |keys| ==> keys[i] in values.Keys - excluded
    ensures FromLines(Fields(values, keys)) == Written(values, keys)
  {
    if keys != [] {
      var n := |keys| - 1;
      var lines := Fields(values, keys);
      FromFields(values, excluded, keys[..n]);
      assert lines[..n] == Fields(values, keys[..n]);
      FieldCuts(values, excluded, keys[n]);
    }
  }

  lemma WrittenIs(values: Values, keys: seq<string>)
    ensures Written(values, keys) == map k | k in keys :: Get(values, k)
  {
    forall k ensures (k in Written(values, keys) <==> k in keys) && (k in keys ==> Written(values, keys)[k] == Get(values, k)) {
      WrittenMembers(values, keys, k);
    }
  }

  lemma LinesRoundTrip(values: Values, excluded: set<string>, keys: seq<string>)
    requires Legible(values, excluded) && keys != [] && forall i :: 0 <= i < |keys| ==> keys[i] in values.Keys - excluded
    ensures ParseCheckString(Join(Fields(values, keys), '\n')) == Written(values, keys)
  {
    var lines := Fields(values, keys);
    forall i | 0 <= i < |lines| ensures '\n' !in lines[i] {
      LineIsLegible(values, excluded, keys[i]);
    }
    SplitJoin(lines, '\n');
    FromFields(values, excluded, keys);
    JoinNonEmpty(lines);
  }

  /** For legible fields the check string can be read back: it determines every field it covers. */
  lemma CheckStringRoundTrip(values: Values, excluded: set<string>)
    requires Legible(values, excluded)
    ensures ParseCheckString(CheckString(values, excluded)) == Flatten(values, excluded)
  {
    var keys := SortedKeys(values.Keys - excluded);
    if keys == [] {
      assert forall k :: k !in values.Keys - excluded;
    } else {
      LinesRoundTrip(values, excluded, keys);
      WrittenIs(values, keys);
    }
  }

  lemma LineIsLegible(values: Values, excluded: set<string>, k: string)
    requires Legible(values, excluded) && k in values.Keys - excluded
    ensures '\n' !in Field(values, k)
  {
  }

  lemma JoinNonEmpty(lines: seq<string>)
    requires lines != [] && lines[0] != ""
    ensures Join(lines, '\n') != ""
  {
  }

  lemma CheckStringInjective(v: Values, w: Values, excluded: set<string>)
    requires Legible(v, excluded) && Legible(w, excluded)
    requires CheckString(v, excluded) == CheckString(w, excluded)
    ensures Flatten(v, excluded) == Flatten(w, excluded)
  {
    CheckStringRoundTrip(v, excluded);
    CheckStringRoundTrip(w, excluded);
  }

  // ---------------------------------------------------------------- validation

  /** Grouping as url.ParseQuery does it: every key with all its values, in order. */
  function Group(pairs: seq<Pair>): Values {
    if pairs == [] then map[]
    else
      var (k, v) := pairs[|pairs| - 1];
      var before := Group(pairs[..|pairs| - 1]);
      before[k := (if k in before then before[k] else []) + [v]]
  }

  predicate HasDuplicates(values: Values) {
    exists k :: k in values && |values[k]| != 1
  }

  function ParseValues(raw: string): Result<Values, AuthError> {
    if raw == "" then Failure(EmptyValue)
    else if |raw| > MAX_INIT_DATA then Failure(TooLong)
    else
      var pairs := ParseQuery(raw);
      if pairs.None? then Failure(BadQuery)
      else if HasDuplicates(Group(pairs.value)) then Failure(DuplicateField)
      else Success(Group(pairs.value))
  }

  /** A decoded JSON document, left abstract. */
  datatype Json = Json(source: string)

  /** The keyed hash and the JSON decoder are parameters: mac(key, message), decode(field, text). */
  datatype Validator = Validator(
    botToken: string, maxAge: Int64, mac: (string, string) -> string, decode: (string, string) -> Option<Json>)

  datatype InitData = InitData(
    queryId: string, user: Option<Json>, receiver: Option<Json>, chat: Option<Json>, chatType: string,
    chatInstance: string, startParam: string, canSendAfter: Int64, authDate: int, hash: string, signature: string,
    values: map<string, string>, raw: string)

  /** The digest the bot token assigns to a set of fields. */
  ghost function Digest(v: Validator, values: Values): string {
    v.mac(v.mac(WEB_APP_DATA, v.botToken), CheckString(values, {"hash"}))
  }

  ghost function ValidateHash(v: Validator, values: Values): Option<AuthError> {
    var received := HexDecode(Get(values, "hash"));
    if received.None? || |received.value| != 32 then Some(MalformedHash)
    else if received.value != Digest(v, values) then Some(HashMismatch)
    else None
  }

  /** time.Unix(seconds, 0) as nanoseconds since 1970; the seconds since year 1 live in a 64-bit register. */
  function UnixTime(seconds: Int64): int {
    (Wrap64(seconds + UNIX_TO_INTERNAL) - UNIX_TO_INTERNAL) * SECOND
  }

  function ParseAuthDate(value: string): Option<int> {
    var seconds := ParseInt(value);
    if seconds.None? || seconds.value <= 0 then None else Some(UnixTime(seconds.value))
  }

  /** time.Time.Sub, which saturates at the ends of time.Duration. */
  function Sub(t: int, u: int): Int64 {
    if t - u >= TWO63 then MAX_INT64 else if t - u < -TWO63 then -TWO63 else t - u
  }

  function ValidateAuthDate(authDate: int, now: int, maxAge: Int64): Option<AuthError> {
    if authDate > now + FUTURE_SKEW then Some(FutureData)
    else if Sub(now, authDate) > maxAge then Some(ExpiredData)
    else None
  }

  function ParseOptionalSeconds(value: string): Option<Int64> {
    if value == "" then Some(0)
    else
      var seconds := ParseInt(value);
      if seconds.None? || seconds.value < 0 then None else Some(Wrap64(seconds.value * SECOND))
  }

  function DecodeOptional(v: Validator, values: Values, field: string): Result<Option<Json>, ()> {
    var text := Get(values, field);
    if text == "" then Success(None)
    else
      var decoded := v.decode(field, text);
      if decoded.None? then Failure(()) else Success(decoded)
  }

  function DecodeInitData(v: Validator, raw: string, values: Values, now: int): Result<InitData, AuthError> {
    var authDate := ParseAuthDate(Get(values, "auth_date"));
    if authDate.None? then Failure(BadAuthDate)
    else
      var window := ValidateAuthDate(authDate.value, now, v.maxAge);
      if window.Some? then Failure(window.value)
      else
        var canSendAfter := ParseOptionalSeconds(Get(values, "can_send_after"));
        if canSendAfter.None? then Failure(BadCanSendAfter)
        else
          var user, receiver, chat :=
            DecodeOptional(v, values, "user"), DecodeOptional(v, values, "receiver"), DecodeOptional(v, values, "chat");
          if user.Failure? then Failure(BadUser)
          else if receiver.Failure? then Failure(BadReceiver)
          else if chat.Failure? then Failure(BadChat)
          else
            Success(InitData(
              Get(values, "query_id"), user.value, receiver.value, chat.value, Get(values, "chat_type"),
              Get(values, "chat_instance"), Get(values, "start_param"), canSendAfter.value, authDate.value,
              Get(values, "hash"), Get(values, "signature"), Flatten(values, {}), raw))
  }

  ghost function ValidateAt(v: Validator, raw: string, now: int): Result<InitData, AuthError> {
    var values := ParseValues(raw);
    if values.Failure? then Failure(values.error)
    else
      var bad := ValidateHash(v, values.value);
      if bad.Some? then Failure(bad.value) else DecodeInitData(v, raw, values.value, now)
  }

  // ---------------------------------------------------------------- what is accepted

  /** The window accepts exactly now - maxAge <= auth_date <= now + 30s, except that a maxAge of the
      largest Duration never expires anything. */
  lemma WindowExact(authDate: int, now: int, maxAge: Int64)
    requires maxAge > 0
    ensures ValidateAuthDate(authDate, now, maxAge).None? <==>
            authDate <= now + 30_000_000_000 && (maxAge == MAX_INT64 || now - maxAge <= authDate)
    ensures ValidateAuthDate(authDate, now, maxAge) == Some(FutureData) <==> authDate > now + 30_000_000_000
  {
  }

  /** can_send_after is the exact number of seconds precisely up to 9223372036 of them. */
  lemma CanSendAfterExact(n: Int64)
    requires n >= 0
    ensures ParseOptionalSeconds(FormatNat(n)).Some?
    ensures ParseOptionalSeconds(FormatNat(n)) == Some(Wrap64(n * SECOND))
    ensures Wrap64(n * SECOND) == n * 1_000_000_000 <==> n <= 9_223_372_036
    ensures n > 0 ==> ParseOptionalSeconds("-" + FormatNat(n)).None?
  {
    ParseFormat(-n);
    ParseFormat(n);
    WrapExact(n * SECOND);
  }

  lemma ZeroIsZero()
    ensures ParseInt("0") == Some(0) && FormatNat(0) == "0"
  {
    ParseFormat(0);
  }

  /** auth_date names its own instant unless it lies within 2000 years of the end of the register. */
  lemma AuthDateExact(n: Int64)
    requires n > 0
    ensures ParseAuthDate(FormatNat(n)) == Some(UnixTime(n))
    ensures UnixTime(n) == n * 1_000_000_000 <==> n <= MAX_INT64 - 62_135_596_800
    ensures ParseAuthDate("-" + FormatNat(n)).None? && ParseAuthDate("0").None? && ParseAuthDate("").None?
  {
    ParseFormat(-n);
    ZeroIsZero();
    ParseFormat(n);
    WrapExact(n + UNIX_TO_INTERNAL);
  }

  predicate DistinctFields(pairs: seq<Pair>) {
    forall i, j :: 0 <= i < j < |pairs| ==> pairs[i].0 != pairs[j].0
  }

  /** Grouping keeps every key. */
  lemma {:induction false} GroupDomain(pairs: seq<Pair>, k: string)
    ensures k in Group(pairs) <==> exists i :: 0 <= i < |pairs| && pairs[i].0 == k
    ensures k in Group(pairs) ==> |Group(pairs)[k]| >= 1
  {
    if pairs != [] {
      var n := |pairs| - 1;
      var front := pairs[..n];
      GroupDomain(front, k);
      assert forall i :: 0 <= i < n ==> front[i] == pairs[i];
      assert pairs[n].0 == k ==> k in Group(pairs);
    }
  }

  /** Without repeated keys, every key keeps its one value. */
  lemma {:induction false} GroupSingle(pairs: seq<Pair>, i: nat)
    requires DistinctFields(pairs) && i < |pairs|
    ensures pairs[i].0 in Group(pairs) && Group(pairs)[pairs[i].0] == [pairs[i].1]
  {
    var n := |pairs| - 1;
    var front := pairs[..n];
    if i < n {
      GroupSingle(front, i);
    } else {
      GroupDomain(front, pairs[n].0);
      assert pairs[n].0 !in Group(front);
    }
  }

  /** A key that occurs twice collects at least two values. */
  lemma {:induction false} GroupRepeated(pairs: seq<Pair>, i: nat, j: nat)
    requires i < j < |pairs| && pairs[i].0 == pairs[j].0
    ensures pairs[j].0 in Group(pairs) && |Group(pairs)[pairs[j].0]| >= 2
  {
    var n := |pairs| - 1;
    var front := pairs[..n];
    if j < n {
      GroupRepeated(front, i, j);
    } else {
      GroupDomain(front, pairs[n].0);
      assert front[i] == pairs[i];
    }
  }

  lemma DuplicatesIff(pairs: seq<Pair>)
    ensures HasDuplicates(Group(pairs)) <==> !DistinctFields(pairs)
  {
    if !DistinctFields(pairs) {
      var i, j :| 0 <= i < j < |pairs| && pairs[i].0 == pairs[j].0;
      GroupRepeated(pairs, i, j);
    } else if HasDuplicates(Group(pairs)) {
      var k :| k in Group(pairs) && |Group(pairs)[k]| != 1;
      GroupDomain(pairs, k);
      var i :| 0 <= i < |pairs| && pairs[i].0 == k;
      GroupSingle(pairs, i);
      assert false;
    }
  }

  /** Any query that repeats a field is refused. */
  lemma DuplicatesRefused(v: Validator, raw: string, now: int)
    requires ParseQuery(raw).Some? && !DistinctFields(ParseQuery(raw).value)
    ensures ValidateAt(v, raw, now).Failure?
  {
    DuplicatesIff(ParseQuery(raw).value);
  }

  /** What is accepted carries the digest of its own fields and lies in the window. */
  lemma AcceptedIsSigned(v: Validator, raw: string, now: int)
    requires ValidateAt(v, raw, now).Success?
    ensures var data := ValidateAt(v, raw, now).value;
            var values := Group(ParseQuery(raw).value);
            var digest := v.mac(v.mac("WebAppData", v.botToken), CheckString(values, {"hash"}));
            && HexDecode(data.hash) == Some(digest) && |digest| == 32
            && data.authDate <= now + 30_000_000_000 && Sub(now, data.authDate) <= v.maxAge
            && data.values == Flatten(values, {})
  {
    DecodedInWindow(v, raw, Group(ParseQuery(raw).value), now);
  }

  lemma DecodedInWindow(v: Validator, raw: string, values: Values, now: int)
    requires DecodeInitData(v, raw, values, now).Success?
    ensures var data := DecodeInitData(v, raw, values, now).value;
            && data.authDate <= now + FUTURE_SKEW && Sub(now, data.authDate) <= v.maxAge
            && data.hash == Get(values, "hash") && data.values == Flatten(values, {})
  {
  }

  /** A field that holds JSON is absent when it is empty, and otherwise what its own text decodes to. */
  ghost predicate Decoded(v: Validator, values: Values, name: string, json: Option<Json>) {
    json == if Get(values, name) == "" then None else v.decode(name, Get(values, name))
  }

  /** Every field of the data comes from the field of its own name. */
  ghost predicate Mirrors(v: Validator, raw: string, values: Values, data: InitData) {
    && Decoded(v, values, "user", data.user)
    && Decoded(v, values, "receiver", data.receiver)
    && Decoded(v, values, "chat", data.chat)
    && data.queryId == Get(values, "query_id")
    && data.chatType == Get(values, "chat_type")
    && data.chatInstance == Get(values, "chat_instance")
    && data.startParam == Get(values, "start_param")
    && data.hash == Get(values, "hash")
    && data.signature == Get(values, "signature")
    && data.raw == raw
  }

  /** The times are those of their fields: auth_date in seconds since 1970, and can_send_after as a duration,
      zero when the field is absent. */
  ghost predicate TimesMirror(values: Values, data: InitData) {
    && (forall n: nat :: Get(values, "auth_date") == FormatNat(n) && n <= MAX_INT64 - 62_135_596_800 ==>
          data.authDate == n * 1_000_000_000)
    && (forall m: nat :: Get(values, "can_send_after") == FormatNat(m) && m <= 9_223_372_036 ==>
          data.canSendAfter == m * 1_000_000_000)
    && (Get(values, "can_send_after") == "" ==> data.canSendAfter == 0)
  }

  lemma DecodedMirrors(v: Validator, raw: string, values: Values, now: int)
    requires DecodeInitData(v, raw, values, now).Success?
    ensures Mirrors(v, raw, values, DecodeInitData(v, raw, values, now).value)
  {
  }

  lemma DecodedTimes(v: Validator, raw: string, values: Values, now: int)
    requires DecodeInitData(v, raw, values, now).Success?
    ensures var data := DecodeInitData(v, raw, values, now).value;
            && ParseAuthDate(Get(values, "auth_date")) == Some(data.authDate)
            && ParseOptionalSeconds(Get(values, "can_send_after")) == Some(data.canSendAfter)
  {
  }

  lemma TimesRead(values: Values, data: InitData)
    requires ParseAuthDate(Get(values, "auth_date")) == Some(data.authDate)
    requires ParseOptionalSeconds(Get(values, "can_send_after")) == Some(data.canSendAfter)
    ensures TimesMirror(values, data)
  {
    forall n: nat | Get(values, "auth_date") == FormatNat(n) && n <= MAX_INT64 - 62_135_596_800
      ensures data.authDate == n * 1_000_000_000
    {
      if n > 0 {
        AuthDateExact(n);
      } else {
        ZeroIsZero();
      }
    }
    forall m: nat | Get(values, "can_send_after") == FormatNat(m) && m <= 9_223_372_036
      ensures data.canSendAfter == m * 1_000_000_000
    {
      CanSendAfterExact(m);
    }
  }

  lemma AcceptedIsDecoded(v: Validator, raw: string, now: int)
    requires ValidateAt(v, raw, now).Success?
    ensures ParseQuery(raw).Some?
    ensures DecodeInitData(v, raw, Group(ParseQuery(raw).value), now) == ValidateAt(v, raw, now)
  {
  }

  /** The data handed to the application is what the fields of the raw string say, each field under its own
      name and nothing exchanged or invented. */
  lemma AcceptedMirrorsFields(v: Validator, raw: string, now: int)
    requires ValidateAt(v, raw, now).Success?
    ensures var data := ValidateAt(v, raw, now).value;
            var values := Group(ParseQuery(raw).value);
            Mirrors(v, raw, values, data) && TimesMirror(values, data)
  {
    var values := Group(ParseQuery(raw).value);
    AcceptedIsDecoded(v, raw, now);
    DecodedMirrors(v, raw, values, now);
    DecodedTimes(v, raw, values, now);
    TimesRead(values, ValidateAt(v, raw, now).value);
  }

  /** Which complaint is made: about the raw string as a whole first, then about the hash. */
  lemma RefusedFor(v: Validator, raw: string, now: int)
    ensures var result := ValidateAt(v, raw, now);
            var pairs := ParseQuery(raw);
            var whole := raw != "" && |raw| <= 16_384 && pairs.Some? && DistinctFields(pairs.value);
            && (result == Failure(EmptyValue) <==> raw == "")
            && (result == Failure(TooLong) <==> |raw| > 16_384)
            && (result == Failure(BadQuery) <==> 0 < |raw| <= 16_384 && pairs.None?)
            && (result == Failure(DuplicateField) <==> 0 < |raw| <= 16_384 && pairs.Some? && !DistinctFields(pairs.value))
            && (whole ==>
                  var values := Group(pairs.value);
                  var received := HexDecode(Get(values, "hash"));
                  && (result == Failure(MalformedHash) <==> received.None? || |received.value| != 32)
                  && (result == Failure(HashMismatch) <==>
                        received.Some? && |received.value| == 32 && received.value != Digest(v, values)))
  {
    if ParseQuery(raw).Some? {
      DuplicatesIff(ParseQuery(raw).value);
      DecodingComplaints(v, raw, Group(ParseQuery(raw).value), now);
    }
  }

  /** Decoding never complains about the raw string or the hash. The first of its own complaints counts. */
  lemma DecodingComplaints(v: Validator, raw: string, values: Values, now: int)
    ensures var result := DecodeInitData(v, raw, values, now);
            var dated := ParseAuthDate(Get(values, "auth_date"));
            var timed := dated.Some? && ValidateAuthDate(dated.value, now, v.maxAge).None?;
            var sendable := timed && ParseOptionalSeconds(Get(values, "can_send_after")).Some?;
            var bad := (name: string) => Get(values, name) != "" && v.decode(name, Get(values, name)).None?;
            && (result.Failure? ==>
                  result.error in {BadAuthDate, FutureData, ExpiredData, BadCanSendAfter, BadUser, BadReceiver, BadChat})
            && (result == Failure(BadAuthDate) <==> dated.None?)
            && (result.Failure? && result.error in {FutureData, ExpiredData} <==> dated.Some? && !timed)
            && (result == Failure(BadCanSendAfter) <==> timed && !sendable)
            && (result == Failure(BadUser) <==> sendable && bad("user"))
            && (result == Failure(BadReceiver) <==> sendable && !bad("user") && bad("receiver"))
            && (result == Failure(BadChat) <==> sendable && !bad("user") && !bad("receiver") && bad("chat"))
  {
  }

  // ---------------------------------------------------------------- signed data, in any order

  /** The same fields in another order. */
  ghost predicate SameFields(a: seq<Pair>, b: seq<Pair>) {
    forall p :: p in a <==> p in b
  }

  lemma GroupForgetsOrder(a: seq<Pair>, b: seq<Pair>)
    requires DistinctFields(a) && DistinctFields(b) && SameFields(a, b)
    ensures Group(a) == Group(b)
  {
    forall k ensures k in Group(a) <==> k in Group(b) {
      GroupDomain(a, k);
      GroupDomain(b, k);
      if k in Group(a) {
        var i :| 0 <= i < |a| && a[i].0 == k;
        assert a[i] in b;
      }
      if k in Group(b) {
        var i :| 0 <= i < |b| && b[i].0 == k;
        assert b[i] in a;
      }
    }
    forall k | k in Group(a) ensures Group(a)[k] == Group(b)[k] {
      GroupDomain(a, k);
      var i :| 0 <= i < |a| && a[i].0 == k;
      assert a[i] in b;
      var j :| 0 <= j < |b| && b[j] == a[i];
      GroupSingle(a, i);
      GroupSingle(b, j);
    }
  }

  /** Only the covered fields enter the check string. */
  lemma CheckStringDependsOn(v: Values, w: Values, dv: set<string>, dw: set<string>)
    requires v.Keys - dv == w.Keys - dw && forall k :: k in v.Keys - dv ==> Get(v, k) == Get(w, k)
    ensures CheckString(v, dv) == CheckString(w, dw)
  {
    var keys := SortedKeys(v.Keys - dv);
    forall i | 0 <= i < |keys| ensures Field(v, keys[i]) == Field(w, keys[i]) {
      assert keys[i] in keys;
    }
    assert Fields(v, keys) == Fields(w, keys);
  }

  /** The digest of fields that do not contain their hash yet. */
  ghost function SigningDigest(v: Validator, fields: seq<Pair>): string {
    v.mac(v.mac("WebAppData", v.botToken), CheckString(Group(fields), {}))
  }

  /** A raw string presents exactly `fields`, signed with the bot token: it parses, whatever its escapes, to
      those fields and a hash, in any order, and the hash spells the digest in hexadecimal of either case. */
  ghost predicate Signed(v: Validator, fields: seq<Pair>, hash: string, raw: string) {
    && DistinctFields(fields) && (forall p :: p in fields ==> p.0 != "hash")
    && |SigningDigest(v, fields)| == 32 && HexDecode(hash) == Some(SigningDigest(v, fields))
    && raw != "" && |raw| <= 16_384 && ParseQuery(raw).Some?
    && DistinctFields(ParseQuery(raw).value) && SameFields(ParseQuery(raw).value, fields + [("hash", hash)])
  }

  lemma HashFieldAppended(fields: seq<Pair>, hash: string)
    requires DistinctFields(fields) && forall p :: p in fields ==> p.0 != "hash"
    ensures DistinctFields(fields + [("hash", hash)])
    ensures Group(fields + [("hash", hash)]) == Group(fields)["hash" := [hash]]
    ensures "hash" !in Group(fields)
  {
    var all := fields + [("hash", hash)];
    assert all[..|fields|] == fields && all[|fields|] == ("hash", hash);
    forall i | 0 <= i < |fields| ensures fields[i].0 != "hash" {
      assert fields[i] in fields;
    }
    GroupDomain(fields, "hash");
    var one: seq<string> := [] + [hash];
    assert one == [hash];
    assert Group(all) == Group(fields)["hash" := one];
  }

  /** Any legal set of fields can be signed: appending the hexadecimal digest under "hash" does it. */
  lemma SigningWorks(v: Validator, fields: seq<Pair>)
    requires DistinctFields(fields) && BytePairs(fields) && forall p :: p in fields ==> p.0 != "hash"
    requires IsBytes(SigningDigest(v, fields)) && |SigningDigest(v, fields)| == 32
    ensures var hash := HexEncode(SigningDigest(v, fields));
            var order := fields + [("hash", hash)];
            && BytePairs(order)
            && (|EncodeQuery(order)| <= 16_384 ==> Signed(v, fields, hash, EncodeQuery(order)))
  {
    var hash := HexEncode(SigningDigest(v, fields));
    var order := fields + [("hash", hash)];
    HexRoundTrip(SigningDigest(v, fields));
    HashFieldAppended(fields, hash);
    BytePairsAppend(fields, ("hash", hash));
    QueryReads(order);
  }

  lemma BytePairsAppend(pairs: seq<Pair>, p: Pair)
    requires BytePairs(pairs) && IsBytes(p.0) && IsBytes(p.1)
    ensures BytePairs(pairs + [p])
  {
  }

  lemma QueryReads(order: seq<Pair>)
    requires BytePairs(order) && order != []
    ensures EncodeQuery(order) != "" && ParseQuery(EncodeQuery(order)) == Some(order)
  {
    ParseEncode(order);
    EncodedPair(order[0]);
  }

  lemma SignedGroups(fields: seq<Pair>, hash: string, order: seq<Pair>)
    requires DistinctFields(fields) && (forall p :: p in fields ==> p.0 != "hash")
    requires DistinctFields(order) && SameFields(order, fields + [("hash", hash)])
    ensures Group(order) == Group(fields)["hash" := [hash]] && !HasDuplicates(Group(order)) && "hash" !in Group(fields)
  {
    HashFieldAppended(fields, hash);
    GroupForgetsOrder(order, fields + [("hash", hash)]);
    DuplicatesIff(order);
  }

  lemma SignedHashFits(v: Validator, fields: seq<Pair>, hash: string)
    requires "hash" !in Group(fields)
    requires |SigningDigest(v, fields)| == 32 && HexDecode(hash) == Some(SigningDigest(v, fields))
    ensures ValidateHash(v, Group(fields)["hash" := [hash]]).None?
  {
    var values := Group(fields)["hash" := [hash]];
    assert values.Keys - {"hash"} == Group(fields).Keys - {};
    CheckStringDependsOn(Group(fields), values, {}, {"hash"});
  }

  lemma SignedParses(v: Validator, fields: seq<Pair>, hash: string, raw: string)
    requires Signed(v, fields, hash, raw)
    ensures var values := Group(fields)["hash" := [hash]];
            ParseValues(raw) == Success(values) && ValidateHash(v, values).None?
  {
    SignedGroups(fields, hash, ParseQuery(raw).value);
    SignedHashFits(v, fields, hash);
  }

  /** The fields that have to be read can be read. */
  predicate Readable(v: Validator, values: Values) {
    && ParseAuthDate(Get(values, "auth_date")).Some?
    && ParseOptionalSeconds(Get(values, "can_send_after")).Some?
    && DecodeOptional(v, values, "user").Success?
    && DecodeOptional(v, values, "receiver").Success?
    && DecodeOptional(v, values, "chat").Success?
  }

  lemma DecodedIff(v: Validator, raw: string, values: Values, now: int)
    requires Readable(v, values)
    ensures DecodeInitData(v, raw, values, now).Success? <==>
            ValidateAuthDate(ParseAuthDate(Get(values, "auth_date")).value, now, v.maxAge).None?
  {
  }

  lemma HashIsNotRead(v: Validator, values: Values, hash: string)
    ensures var w := values["hash" := [hash]];
            && (Readable(v, w) <==> Readable(v, values))
            && Get(w, "auth_date") == Get(values, "auth_date")
  {
    var w := values["hash" := [hash]];
    assert forall k :: k != "hash" ==> Get(w, k) == Get(values, k);
  }

  /** The time window decides: signed fields with readable contents are accepted, in any order and under
      any escaping, exactly from 30 seconds before their auth_date until maxAge after it. */
  lemma SignedDataAcceptedIff(v: Validator, fields: seq<Pair>, hash: string, raw: string, now: int)
    requires Signed(v, fields, hash, raw) && v.maxAge > 0 && Readable(v, Group(fields))
    ensures var authDate := ParseAuthDate(Get(Group(fields), "auth_date")).value;
            ValidateAt(v, raw, now).Success? <==>
            authDate <= now + 30_000_000_000 && (v.maxAge == MAX_INT64 || now - v.maxAge <= authDate)
  {
    SignedParses(v, fields, hash, raw);
    HashIsNotRead(v, Group(fields), hash);
    DecodedIff(v, raw, Group(fields)["hash" := [hash]], now);
    WindowExact(ParseAuthDate(Get(Group(fields), "auth_date")).value, now, v.maxAge);
  }

  lemma HashIsOnlyCopied(v: Validator, raw: string, values: Values, hash: string, now: int)
    requires "hash" in values && |values["hash"]| == 1
    ensures var x, y := DecodeInitData(v, raw, values, now), DecodeInitData(v, raw, values["hash" := [hash]], now);
            && (x.Failure? ==> x == y)
            && (x.Success? ==> y == Success(x.value.(hash := hash, values := x.value.values["hash" := hash])))
  {
    var w := values["hash" := [hash]];
    HashIsNotRead(v, values, hash);
    assert Flatten(w, {}) == Flatten(values, {})["hash" := hash];
    assert forall k :: k != "hash" ==> Get(w, k) == Get(values, k);
    assert DecodeOptional(v, w, "user") == DecodeOptional(v, values, "user");
    assert DecodeOptional(v, w, "receiver") == DecodeOptional(v, values, "receiver");
    assert DecodeOptional(v, w, "chat") == DecodeOptional(v, values, "chat");
  }

  lemma RawIsOnlyCopied(v: Validator, a: string, b: string, values: Values, now: int)
    ensures var x, y := DecodeInitData(v, a, values, now), DecodeInitData(v, b, values, now);
            && (x.Failure? ==> x == y)
            && (x.Success? ==> y == Success(x.value.(raw := b)))
  {
  }

  /** Neither the order of the fields in the raw string, nor how they are escaped, nor the case of the hash
      changes anything but the copies of the raw string and of the hash. */
  lemma FieldOrderIrrelevant(v: Validator, fields: seq<Pair>, hashA: string, a: string, hashB: string, b: string, now: int)
    requires Signed(v, fields, hashA, a) && Signed(v, fields, hashB, b)
    ensures var x, y := ValidateAt(v, a, now), ValidateAt(v, b, now);
            && (x.Failure? ==> x == y)
            && (x.Success? ==>
                  y == Success(x.value.(raw := b, hash := hashB, values := x.value.values["hash" := hashB])))
  {
    var values := Group(fields)["hash" := [hashA]];
    SignedParses(v, fields, hashA, a);
    SignedParses(v, fields, hashB, b);
    assert values["hash" := [hashB]] == Group(fields)["hash" := [hashB]];
    RawIsOnlyCopied(v, a, b, values, now);
    HashIsOnlyCopied(v, b, values, hashB, now);
  }
}
