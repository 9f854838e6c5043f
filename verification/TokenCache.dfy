/** The machine-to-machine token cache: callers of Token racing over one RWMutex. */
module TokenCache {
  import opened Prelude
  import opened Errors

  const EXPIRY_BUFFER: Int64 := 30 * SECOND
  const STATUS_OK := 200

  // ---------------------------------------------------------------- token requests

  datatype M2MToken = M2MToken(accessToken: string, expiresAt: int)

  datatype TokenResponse = TokenResponse(accessToken: string, expiresIn: Int64)

  /** What became of one token request: it could not be built, the transport failed, or the endpoint
      answered with a body that decodes or does not. The errors are those of the libraries and of the
      configured transport, whatever they are. */
  datatype Reply =
    | NotSent(cause: Error)
    | TransportFailure(cause: Error)
    | Answer(status: int, body: Result<TokenResponse, Error>)

  /** The response tokenRequest is willing to cache, or the error it returns. */
  function Accept(reply: Reply): Result<TokenResponse, Error> {
    match reply
    case NotSent(cause) => Failure(Wrapped("kinde m2m: create token request", cause))
    case TransportFailure(cause) => Failure(Wrapped("kinde m2m: token request", cause))
    case Answer(status, body) =>
      if status != STATUS_OK then
        Failure(Wrapped("kinde m2m: token request", Sentinel(Unauthenticated)))
      else if body.Failure? then
        Failure(Wrapped("kinde m2m: decode token response", body.error))
      else if body.value.accessToken == "" then
        Failure(Plain("kinde m2m: token response missing access_token"))
      else if body.value.expiresIn <= 0 then
        Failure(Plain("kinde m2m: token response missing or invalid expires_in"))
      else
        Success(body.value)
  }

  /** The one kind of reply that yields a token. */
  function Granted(reply: Reply): Option<TokenResponse> {
    if && reply.Answer? && reply.status == 200 && reply.body.Success?
       && reply.body.value.accessToken != "" && reply.body.value.expiresIn >= 1
    then Some(reply.body.value) else None
  }

  /** Which replies are cached: a 200 whose body decodes to a non-empty token with a positive expires_in, and
      no other. */
  lemma AcceptedIff(reply: Reply)
    ensures Accept(reply).Success? <==> Granted(reply).Some?
    ensures Granted(reply).Some? ==> Accept(reply) == Success(Granted(reply).value)
  {
  }

  /** time.Duration(expires_in) * time.Second, in a 64-bit register. */
  function Lifetime(expiresIn: Int64): Int64 {
    Wrap64(expiresIn * SECOND)
  }

  function Buffer(lifetime: Int64): int {
    Min(EXPIRY_BUFFER, Quot(lifetime, 2))
  }

  function Issue(r: TokenResponse, now: int): M2MToken {
    var lifetime := Lifetime(r.expiresIn);
    M2MToken(r.accessToken, now + lifetime - Buffer(lifetime))
  }

  predicate Fresh(token: Option<M2MToken>, now: int) {
    token.Some? && now < token.value.expiresAt
  }

  /** A freshly issued token is usable exactly when its lifetime did not wrap to zero or below. When it
      is usable it lasts at least half its lifetime, and it outlives the server's own expiry
      (request time + lifetime) exactly when the answer took longer than the buffer. */
  lemma IssuedTokenLife(r: TokenResponse, issued: int, now: int)
    ensures var lifetime := Lifetime(r.expiresIn);
            var t := Issue(r, now);
            && (now < t.expiresAt <==> lifetime > 0)
            && (lifetime > 0 ==> lifetime <= 2 * (t.expiresAt - now) && t.expiresAt - now <= lifetime)
            && t.accessToken == r.accessToken
            && (lifetime > 0 ==> t.expiresAt - now == Max(lifetime - 30_000_000_000, lifetime - lifetime / 2))
            && (t.expiresAt <= issued + lifetime <==> now - issued <= Buffer(lifetime))
  {
  }

  /** Every positive expires_in up to 9223372036 seconds keeps its exact lifetime; the next one does not,
      and the token it yields is expired when it is stored. */
  lemma LifetimeRange(expiresIn: Int64)
    ensures expiresIn > 0 ==> (Lifetime(expiresIn) == expiresIn * 1_000_000_000 <==> expiresIn <= 9_223_372_036)
    ensures Lifetime(9_223_372_037) < 0
  {
    WrapExact(expiresIn * SECOND);
  }

  // ---------------------------------------------------------------- the step system

  /** Where one call of Token stands. The R states hold the read lock, WPending has announced itself as
      the next writer, the later W states hold the write lock. */
  datatype Pc =
    | NotCalled
    | RWait
    | RChecking
    | RHit(access: string)
    | RMiss
    | WWait
    | WPending
    | WChecking
    | WFetch(issued: int)
    | WStored
    | WExit(result: Result<string, Error>)
    | Returned(result: Result<string, Error>)

  predicate Reads(pc: Pc) {
    pc.RChecking? || pc.RHit? || pc.RMiss?
  }

  predicate Writes(pc: Pc) {
    pc.WChecking? || pc.WFetch? || pc.WStored? || pc.WExit?
  }

  /** The call has begun and has not returned. */
  predicate Active(pc: Pc) {
    !pc.NotCalled? && !pc.Returned?
  }

  type Caller = nat

  /** The shared clock, cache and lock, and one program counter per call. As in sync.RWMutex, a writer
      that has announced itself keeps new readers out while it waits for the old ones. */
  datatype State = State(
    now: int,
    token: Option<M2MToken>,
    readers: set<Caller>,
    writer: Option<Caller>,
    pcs: seq<Pc>)

  datatype Action =
    | Tick(d: nat)
    | Call(c: Caller)
    | RLock(c: Caller)
    | RCheck(c: Caller)
    | RUnlock(c: Caller)
    | Announce(c: Caller)
    | Lock(c: Caller)
    | WCheck(c: Caller)
    | Finish(c: Caller, reply: Reply)
    | Load(c: Caller)
    | Unlock(c: Caller)

  predicate Enabled(s: State, a: Action) {
    if a.Tick? then true
    else if a.c >= |s.pcs| then false
    else
      var pc := s.pcs[a.c];
      match a
      case Call(_) => pc.NotCalled?
      case RLock(_) => pc.RWait? && s.writer.None?
      case RCheck(_) => pc.RChecking?
      case RUnlock(_) => pc.RHit? || pc.RMiss?
      case Announce(_) => pc.WWait? && s.writer.None?
      case Lock(_) => pc.WPending? && s.readers == {}
      case WCheck(_) => pc.WChecking?
      case Finish(_, _) => pc.WFetch?
      case Load(_) => pc.WStored? && s.token.Some?
      case Unlock(_) => pc.WExit?
      case Tick(_) => true
  }

  function Goto(s: State, c: Caller, pc: Pc): State
    requires c < |s.pcs|
  {
    s.(pcs := s.pcs[c := pc])
  }

  function Apply(s: State, a: Action): State
    requires Enabled(s, a)
  {
    match a
    case Tick(d) => s.(now := s.now + d)
    case Call(c) => Goto(s, c, RWait)
    case RLock(c) => Goto(s, c, RChecking).(readers := s.readers + {c})
    case RCheck(c) => Goto(s, c, if Fresh(s.token, s.now) then RHit(s.token.value.accessToken) else RMiss)
    case RUnlock(c) =>
      Goto(s, c, if s.pcs[c].RHit? then Returned(Success(s.pcs[c].access)) else WWait).(readers := s.readers - {c})
    case Announce(c) => Goto(s, c, WPending).(writer := Some(c))
    case Lock(c) => Goto(s, c, WChecking)
    case WCheck(c) =>
      Goto(s, c, if Fresh(s.token, s.now) then WExit(Success(s.token.value.accessToken)) else WFetch(s.now))
    case Finish(c, reply) =>
      (match Accept(reply)
       case Failure(e) => Goto(s, c, WExit(Failure(e)))
       case Success(r) => Goto(s, c, WStored).(token := Some(Issue(r, s.now))))
    case Load(c) => Goto(s, c, WExit(Success(s.token.value.accessToken)))
    case Unlock(c) => Goto(s, c, Returned(s.pcs[c].result)).(writer := None)
  }

  predicate Init(s: State) {
    && s.token.None? && s.readers == {} && s.writer.None?
    && forall c :: 0 <= c < |s.pcs| ==> s.pcs[c].NotCalled?
  }

  /** At most one caller has announced itself or holds the write lock, and the lock knows which. */
  ghost predicate WriterInv(s: State) {
    && (s.writer.Some? ==> s.writer.value < |s.pcs| && (s.pcs[s.writer.value].WPending? || Writes(s.pcs[s.writer.value])))
    && (forall c :: 0 <= c < |s.pcs| && (s.pcs[c].WPending? || Writes(s.pcs[c])) ==> s.writer == Some(c))
  }

  /** The lock knows its readers, and there are none while it is held for writing. */
  ghost predicate ReaderInv(s: State) {
    && (forall c :: 0 <= c < |s.pcs| ==> (c in s.readers <==> Reads(s.pcs[c])))
    && (forall c :: c in s.readers ==> c < |s.pcs|)
    && (forall c :: 0 <= c < |s.pcs| && Writes(s.pcs[c]) ==> s.readers == {})
  }

  /** What the holder of the write lock may rely on. */
  ghost predicate CacheInv(s: State) {
    && (forall c :: 0 <= c < |s.pcs| && s.pcs[c].WFetch? ==> !Fresh(s.token, s.now) && s.pcs[c].issued <= s.now)
    && (forall c :: 0 <= c < |s.pcs| && s.pcs[c].WStored? ==> s.token.Some?)
  }

  ghost predicate Inv(s: State) {
    WriterInv(s) && ReaderInv(s) && CacheInv(s)
  }

  lemma StepKeepsWriter(s: State, a: Action)
    requires WriterInv(s) && Enabled(s, a)
    ensures WriterInv(Apply(s, a))
  {
  }

  lemma StepKeepsReaders(s: State, a: Action)
    requires WriterInv(s) && ReaderInv(s) && Enabled(s, a)
    ensures ReaderInv(Apply(s, a))
  {
  }

  lemma StepKeepsCache(s: State, a: Action)
    requires Inv(s) && Enabled(s, a)
    ensures CacheInv(Apply(s, a))
  {
    if a.Finish? {
      assert s.writer == Some(a.c);
    }
  }

  lemma StepKeepsInv(s: State, a: Action)
    requires Inv(s) && Enabled(s, a)
    ensures Inv(Apply(s, a))
  {
    StepKeepsWriter(s, a);
    StepKeepsReaders(s, a);
    StepKeepsCache(s, a);
  }

  // ---------------------------------------------------------------- runs

  /** A run: any interleaving of the callers, each action enabled where it is taken. */
  ghost predicate Run(states: seq<State>, actions: seq<Action>) {
    && |states| == |actions| + 1
    && forall i :: 0 <= i < |actions| ==> Enabled(states[i], actions[i]) && states[i + 1] == Apply(states[i], actions[i])
  }

  lemma {:induction false} RunKeepsInv(states: seq<State>, actions: seq<Action>, n: nat)
    requires Run(states, actions) && n < |states|
    requires Init(states[0]) || Inv(states[0])
    ensures Inv(states[n]) && states[0].now <= states[n].now && |states[n].pcs| == |states[0].pcs|
  {
    if n > 0 {
      RunKeepsInv(states, actions, n - 1);
      StepKeepsInv(states[n - 1], actions[n - 1]);
    }
  }

  /** In every interleaving the cache changes only when the one holder of the write lock finishes an
      accepted fetch: no reader is inside, no other caller is past Lock, and the cached token had
      expired (or was absent). */
  lemma {:induction false} WritesAreExclusive(states: seq<State>, actions: seq<Action>, n: nat)
    requires Run(states, actions) && n < |actions| && Init(states[0])
    ensures var s, a := states[n], actions[n];
            states[n + 1].token != s.token ==>
            && a.Finish? && Accept(a.reply).Success?
            && s.writer == Some(a.c) && s.readers == {}
            && (forall d :: 0 <= d < |s.pcs| && d != a.c ==> !Reads(s.pcs[d]) && !Writes(s.pcs[d]))
            && !Fresh(s.token, s.now)
  {
    RunKeepsInv(states, actions, n);
  }

  predicate Stores(a: Action) {
    a.Finish? && Accept(a.reply).Success?
  }

  /** What a call is committed to returning: the token it hit, the one it has just stored, or its error. */
  function Outcome(s: State, c: Caller): Option<Result<string, Error>>
    requires c < |s.pcs|
  {
    match s.pcs[c]
    case RHit(access) => Some(Success(access))
    case WStored => if s.token.Some? then Some(Success(s.token.value.accessToken)) else None
    case WExit(result) => Some(result)
    case Returned(result) => Some(result)
    case _ => None
  }

  /** The k-th action settles what call c returns. Either it is one of the two checks and finds a token that
      has not expired, or it is c's own fetch, made while no such token was cached. Then the reply grants a
      token, which is stored and returned, and is usable at that moment exactly when its lifetime did not wrap
      to zero or below; or it does not, and its error is returned and the cache stays as it was. */
  ghost predicate Decides(states: seq<State>, actions: seq<Action>, k: nat, c: Caller, result: Result<string, Error>)
    requires |states| == |actions| + 1
  {
    && k < |actions|
    && c < |states[k].pcs| && Active(states[k].pcs[c])
    && var s, a, after := states[k], actions[k], states[k + 1];
       match a
       case RCheck(d) => d == c && Hit(s, result)
       case WCheck(d) => d == c && Hit(s, result)
       case Finish(d, reply) =>
         && d == c && (s.token.Some? ==> s.token.value.expiresAt <= s.now)
         && (match Granted(reply)
             case None =>
               Accept(reply).Failure? && result == Failure(Accept(reply).error) && after.token == s.token
             case Some(r) =>
               && result == Success(r.accessToken)
               && after.token == Some(Issue(r, s.now)) && after.now == s.now
               && (s.now < after.token.value.expiresAt <==> Lifetime(r.expiresIn) > 0))
       case _ => false
  }

  /** The cached token has not expired, and it is the result. */
  predicate Hit(s: State, result: Result<string, Error>) {
    s.token.Some? && s.now < s.token.value.expiresAt && result == Success(s.token.value.accessToken)
  }

  /** A step that gives c an outcome is the one that decides it, and an outcome is never changed again. */
  lemma StepDecides(states: seq<State>, actions: seq<Action>, n: nat, c: Caller)
    requires Run(states, actions) && n < |actions| && Inv(states[n]) && c < |states[n].pcs|
    requires Outcome(states[n + 1], c).Some?
    ensures Outcome(states[n], c) == Outcome(states[n + 1], c)
            || Decides(states, actions, n, c, Outcome(states[n + 1], c).value)
  {
    var s, a := states[n], actions[n];
    if a.Finish? {
      assert s.writer == Some(a.c);
      AcceptedIff(a.reply);
      if a.c == c && Stores(a) {
        IssuedTokenLife(Accept(a.reply).value, 0, s.now);
      }
    }
  }

  /** Every call of every interleaving is decided by one of its own checks or by its own fetch: what it
      returns is what Token computes from what it then saw. */
  lemma {:induction false} EveryCallIsDecided(states: seq<State>, actions: seq<Action>, n: nat, c: Caller)
    requires Run(states, actions) && Init(states[0]) && n < |states|
    requires c < |states[n].pcs| && Outcome(states[n], c).Some?
    ensures exists k :: 0 <= k < n && Decides(states, actions, k, c, Outcome(states[n], c).value)
    decreases n
  {
    if n > 0 {
      RunKeepsInv(states, actions, n - 1);
      StepDecides(states, actions, n - 1, c);
      if Outcome(states[n - 1], c) == Outcome(states[n], c) {
        EveryCallIsDecided(states, actions, n - 1, c);
      }
    }
  }

  /** At state i the call c was in progress and `access` was the cached, unexpired token. */
  ghost predicate LiveAt(states: seq<State>, i: nat, c: Caller, access: string) {
    && i < |states| && c < |states[i].pcs|
    && Active(states[i].pcs[c])
    && states[i].token.Some? && states[i].token.value.accessToken == access
    && states[i].now < states[i].token.value.expiresAt
  }

  /** If call c fetched a token, the answer to c itself granted a lifetime that did not wrap. */
  ghost predicate OwnLifetimeFits(actions: seq<Action>, c: Caller) {
    forall i :: 0 <= i < |actions| && actions[i].Finish? && actions[i].c == c && Granted(actions[i].reply).Some? ==>
      Lifetime(Granted(actions[i].reply).value.expiresIn) > 0
  }

  /** Every successful call returns a token that was the cached one, and unexpired, at some instant
      between its call and its return, whatever other callers were granted. */
  lemma ReturnedTokenWasLive(states: seq<State>, actions: seq<Action>, n: nat, c: Caller)
    requires Run(states, actions) && Init(states[0]) && OwnLifetimeFits(actions, c)
    requires n < |states| && c < |states[n].pcs|
    requires states[n].pcs[c].Returned? && states[n].pcs[c].result.Success?
    ensures exists i :: 0 <= i <= n && LiveAt(states, i, c, states[n].pcs[c].result.value)
  {
    var access := states[n].pcs[c].result.value;
    EveryCallIsDecided(states, actions, n, c);
    var k :| 0 <= k < n && Decides(states, actions, k, c, Success(access));
    if actions[k].Finish? {
      AcceptedIff(actions[k].reply);
      assert LiveAt(states, k + 1, c, access);
    } else {
      assert LiveAt(states, k, c, access);
    }
  }

  // ---------------------------------------------------------------- how often the endpoint is asked

  /** The number of successful fetches among the first n actions. */
  function Stored(actions: seq<Action>, n: nat): nat
    requires n <= |actions|
  {
    if n == 0 then 0 else Stored(actions, n - 1) + if Stores(actions[n - 1]) then 1 else 0
  }

  ghost predicate LifetimesAtLeast(actions: seq<Action>, least: nat) {
    forall i :: 0 <= i < |actions| && Stores(actions[i]) ==> Lifetime(Accept(actions[i].reply).value.expiresIn) >= least
  }

  /** After k successful fetches since time t0, each lasting at least half of `least`. */
  ghost predicate Spaced(s: State, t0: int, k: nat, least: nat) {
    k > 0 ==>
      && (k - 1) * least <= 2 * (s.now - t0)
      && s.token.Some?
      && k * least <= 2 * (s.token.value.expiresAt - t0)
  }

  lemma StoreKeepsSpacing(s: State, r: TokenResponse, t0: int, k: nat, least: nat)
    requires Spaced(s, t0, k, least) && !Fresh(s.token, s.now) && t0 <= s.now
    requires 0 < least <= Lifetime(r.expiresIn)
    ensures Spaced(s.(token := Some(Issue(r, s.now))), t0, k + 1, least)
  {
    IssuedTokenLife(r, 0, s.now);
    assert (k + 1) * least == k * least + least;
  }

  lemma StepKeepsSpacing(s: State, a: Action, t0: int, k: nat, least: nat)
    requires Inv(s) && Enabled(s, a) && t0 <= s.now && Spaced(s, t0, k, least)
    requires Stores(a) ==> 0 < least <= Lifetime(Accept(a.reply).value.expiresIn)
    ensures Spaced(Apply(s, a), t0, if Stores(a) then k + 1 else k, least)
  {
    var s' := Apply(s, a);
    if Stores(a) {
      StoreKeepsSpacing(s, Accept(a.reply).value, t0, k, least);
    } else {
      assert s'.token == s.token && s.now <= s'.now;
    }
  }

  lemma {:induction false} FetchesAreSpaced(states: seq<State>, actions: seq<Action>, n: nat, least: nat)
    requires Run(states, actions) && Inv(states[0]) && n <= |actions|
    requires least > 0 && LifetimesAtLeast(actions, least)
    ensures Spaced(states[n], states[0].now, Stored(actions, n), least)
  {
    if n > 0 {
      FetchesAreSpaced(states, actions, n - 1, least);
      RunKeepsInv(states, actions, n - 1);
      StepKeepsSpacing(states[n - 1], actions[n - 1], states[0].now, Stored(actions, n - 1), least);
    }
  }

  /** A stretch of time T sees at most 1 + 2T/least successful fetches when no granted lifetime is below
      `least`, whatever the callers do and however many they are. */
  lemma FetchBound(states: seq<State>, actions: seq<Action>, least: nat)
    requires Run(states, actions) && Inv(states[0])
    requires least > 0 && LifetimesAtLeast(actions, least)
    ensures states[0].now <= states[|actions|].now
    ensures Stored(actions, |actions|) <= 1 + 2 * (states[|actions|].now - states[0].now) / least
  {
    FetchesAreSpaced(states, actions, |actions|, least);
    RunKeepsInv(states, actions, |actions|);
    SpacedBound(states[|actions|], states[0].now, Stored(actions, |actions|), least);
  }

  lemma SpacedBound(s: State, t0: int, k: nat, least: nat)
    requires Spaced(s, t0, k, least) && least > 0 && t0 <= s.now
    ensures k <= 1 + 2 * (s.now - t0) / least
  {
    if k > 0 {
      QuotientBound(k - 1, least, 2 * (s.now - t0));
    }
  }

  lemma QuotientBound(a: nat, b: nat, m: nat)
    requires b > 0 && a * b <= m
    ensures a <= m / b
  {
    MulKeepsOrder(m / b + 1, a, b);
  }

  lemma MulKeepsOrder(x: int, y: int, z: nat)
    ensures x <= y ==> x * z <= y * z
  {
  }

  /** A fetch is in flight only while the cache is empty or expired, and never two at once. */
  lemma FetchOnlyWhenStale(states: seq<State>, actions: seq<Action>, n: nat, c: Caller, d: Caller)
    requires Run(states, actions) && n < |states| && Init(states[0])
    requires c < |states[n].pcs| && states[n].pcs[c].WFetch?
    ensures states[n].token.Some? ==> states[n].token.value.expiresAt <= states[n].now
    ensures d < |states[n].pcs| && states[n].pcs[d].WFetch? ==> c == d
  {
    RunKeepsInv(states, actions, n);
  }

  // ---------------------------------------------------------------- progress

  function Rank(pc: Pc): nat {
    match pc
    case NotCalled => 10
    case RWait => 9
    case RChecking => 8
    case RHit(_) => 1
    case RMiss => 7
    case WWait => 6
    case WPending => 5
    case WChecking => 4
    case WFetch(_) => 3
    case WStored => 2
    case WExit(_) => 1
    case Returned(_) => 0
  }

  function TotalRank(pcs: seq<Pc>): nat {
    if pcs == [] then 0 else Rank(pcs[0]) + TotalRank(pcs[1..])
  }

  lemma {:induction false} TotalRankUpdate(pcs: seq<Pc>, c: nat, pc: Pc)
    requires c < |pcs|
    ensures TotalRank(pcs[c := pc]) + Rank(pcs[c]) == TotalRank(pcs) + Rank(pc)
  {
    if c == 0 {
      assert pcs[c := pc][1..] == pcs[1..];
    } else {
      TotalRankUpdate(pcs[1..], c - 1, pc);
      assert pcs[c := pc][1..] == pcs[1..][c - 1 := pc];
    }
  }

  function Steps(actions: seq<Action>, n: nat): nat
    requires n <= |actions|
  {
    if n == 0 then 0 else Steps(actions, n - 1) + if actions[n - 1].Tick? then 0 else 1
  }

  lemma StepLowersRank(s: State, a: Action)
    requires Enabled(s, a)
    ensures TotalRank(Apply(s, a).pcs) + (if a.Tick? then 0 else 1) <= TotalRank(s.pcs)
  {
    if !a.Tick? {
      var pc := Apply(s, a).pcs[a.c];
      assert Apply(s, a).pcs == s.pcs[a.c := pc] && Rank(pc) < Rank(s.pcs[a.c]);
      TotalRankUpdate(s.pcs, a.c, pc);
    }
  }

  lemma {:induction false} RankFalls(states: seq<State>, actions: seq<Action>, n: nat)
    requires Run(states, actions) && n <= |actions|
    ensures Steps(actions, n) + TotalRank(states[n].pcs) <= TotalRank(states[0].pcs)
  {
    if n > 0 {
      RankFalls(states, actions, n - 1);
      StepLowersRank(states[n - 1], actions[n - 1]);
    }
  }

  lemma {:induction false} RankAtStart(pcs: seq<Pc>)
    requires forall c :: 0 <= c < |pcs| ==> pcs[c].NotCalled?
    ensures TotalRank(pcs) == 10 * |pcs|
  {
    if pcs != [] {
      RankAtStart(pcs[1..]);
    }
  }

  /** Every step of every caller lowers the total rank: N calls take at most 10 N steps, in any run. */
  lemma RunsAreBounded(states: seq<State>, actions: seq<Action>)
    requires Run(states, actions) && Init(states[0])
    ensures Steps(actions, |actions|) <= 10 * |states[0].pcs|
  {
    RankFalls(states, actions, |actions|);
    RankAtStart(states[0].pcs);
  }

  /** While some call is in progress, some caller can move; a pending fetch moves when it is answered. */
  lemma NeverStuck(s: State, c: Caller)
    requires Inv(s) && c < |s.pcs| && Active(s.pcs[c])
    ensures exists a: Action :: !a.Tick? && !a.Call? && Enabled(s, a)
  {
    if s.writer.None? {
      CallerCanMove(s, c);
    } else if s.pcs[s.writer.value].WPending? && s.readers != {} {
      var r :| r in s.readers;
      CallerCanMove(s, r);
    } else {
      CallerCanMove(s, s.writer.value);
    }
  }

  /** A state in which no caller can move is one in which every call begun has returned and the lock is free. */
  lemma QuietMeansReturned(s: State, c: Caller)
    requires Inv(s) && c < |s.pcs|
    requires forall a: Action :: !a.Tick? && !a.Call? ==> !Enabled(s, a)
    ensures !Active(s.pcs[c]) && s.writer.None?
    ensures c !in s.readers
  {
    if Active(s.pcs[c]) {
      NeverStuck(s, c);
    }
    if s.writer.Some? {
      NeverStuck(s, s.writer.value);
    }
  }

  lemma CallerCanMove(s: State, c: Caller)
    requires Inv(s) && c < |s.pcs| && Active(s.pcs[c])
    requires s.writer.None? || c in s.readers || (s.writer == Some(c) && (s.pcs[c].WPending? ==> s.readers == {}))
    ensures exists a: Action :: !a.Tick? && !a.Call? && Enabled(s, a)
  {
    match s.pcs[c]
    case RWait => assert Enabled(s, RLock(c));
    case RChecking => assert Enabled(s, RCheck(c));
    case RHit(_) => assert Enabled(s, RUnlock(c));
    case RMiss => assert Enabled(s, RUnlock(c));
    case WWait => assert Enabled(s, Announce(c));
    case WPending => assert Enabled(s, Lock(c));
    case WChecking => assert Enabled(s, WCheck(c));
    case WFetch(_) => assert Enabled(s, Finish(c, NotSent(Plain("request"))));
    case WStored => assert Enabled(s, Load(c));
    case WExit(_) => assert Enabled(s, Unlock(c));
  }

  // ---------------------------------------------------------------- one call, as written

  /** The lock's two counters, as far as one goroutine can see them. */
  class RWMutex {
    var readers: nat
    var locked: bool

    constructor ()
      ensures readers == 0 && !locked
    {
      readers, locked := 0, false;
    }

    method RLock()
      requires !locked
      modifies this
      ensures readers == old(readers) + 1 && !locked
    {
      readers := readers + 1;
    }

    method RUnlock()
      requires readers > 0
      modifies this
      ensures readers == old(readers) - 1 && locked == old(locked)
    {
      readers := readers - 1;
    }

    method Lock()
      requires readers == 0 && !locked
      modifies this
      ensures readers == 0 && locked
    {
      locked := true;
    }

    method Unlock()
      requires locked
      modifies this
      ensures readers == old(readers) && !locked
    {
      locked := false;
    }
  }

  /** Cache and result after one call that nobody interrupts: t1 and t2 are the two clock readings of the
      checks, t3 the one taken when the answer is stored. */
  function Uncontended(token: Option<M2MToken>, t1: int, t2: int, reply: Reply, t3: int)
    : (Option<M2MToken>, Result<string, Error>)
  {
    if Fresh(token, t1) || Fresh(token, t2) then (token, Success(token.value.accessToken))
    else match Accept(reply)
      case Failure(e) => (token, Failure(e))
      case Success(r) => (Some(Issue(r, t3)), Success(r.accessToken))
  }

  class M2MClient {
    const mu: RWMutex
    var token: Option<M2MToken>

    constructor ()
      ensures token == None && fresh(mu) && mu.readers == 0 && !mu.locked
    {
      mu := new RWMutex();
      token := None;
    }

    /** Asks the endpoint; only an accepted answer reaches the cache, and only under the write lock. */
    method TokenRequest(reply: Reply, now: int) returns (err: Option<Error>)
      requires mu.locked
      modifies this
      ensures match Accept(reply)
              case Failure(e) => err == Some(e) && token == old(token)
              case Success(r) => err == None && token == Some(Issue(r, now))
      ensures err.None? <==> Granted(reply).Some?
      ensures err.None? ==> token == Some(Issue(Granted(reply).value, now))
    {
      AcceptedIff(reply);
      match Accept(reply)
      case Failure(e) =>
        err := Some(e);
      case Success(r) =>
        var lifetime := Lifetime(r.expiresIn);
        var buffer := Buffer(lifetime);
        token := Some(M2MToken(r.accessToken, now + lifetime - buffer));
        err := None;
    }

    method Token(t1: int, t2: int, reply: Reply, t3: int) returns (r: Result<string, Error>)
      requires mu.readers == 0 && !mu.locked
      modifies this, mu
      ensures mu.readers == 0 && !mu.locked
      ensures (token, r) == Uncontended(old(token), t1, t2, reply, t3)
      ensures var usable := old(token).Some? && (t1 < old(token).value.expiresAt || t2 < old(token).value.expiresAt);
              && (usable ==> token == old(token) && r == Success(token.value.accessToken))
              && (!usable && Granted(reply).None? ==> token == old(token) && r.Failure?)
              && (!usable && Granted(reply).Some? ==>
                    token == Some(Issue(Granted(reply).value, t3)) && r == Success(Granted(reply).value.accessToken))
    {
      AcceptedIff(reply);
      mu.RLock();
      if token.Some? && t1 < token.value.expiresAt {
        r := Success(token.value.accessToken);
        mu.RUnlock();
        return;
      }
      mu.RUnlock();

      mu.Lock();
      if token.Some? && t2 < token.value.expiresAt {
        r := Success(token.value.accessToken);
        mu.Unlock();
        return;
      }
      var err := TokenRequest(reply, t3);
      if err.Some? {
        r := Failure(err.value);
      } else {
        r := Success(token.value.accessToken);
      }
      mu.Unlock();
    }
  }

  /** s after the actions, or None as soon as one of them is not enabled. */
  function After(s: State, actions: seq<Action>): Option<State>
    decreases actions
  {
    if actions == [] then Some(s)
    else if Enabled(s, actions[0]) then After(Apply(s, actions[0]), actions[1..])
    else None
  }

  lemma {:induction false} AfterSplit(s: State, a: seq<Action>, b: seq<Action>)
    requires After(s, a).Some?
    ensures After(s, a + b) == After(After(s, a).value, b)
    decreases a
  {
    if a == [] {
      assert a + b == b;
    } else {
      AfterSplit(Apply(s, a[0]), a[1..], b);
      assert (a + b)[1..] == a[1..] + b;
    }
  }

  /** The steps an uninterrupted call takes when its checks and its answer come d1, d2 and d3 later. */
  function ReadPhase(c: Caller, d1: nat): seq<Action> {
    [Call(c), RLock(c), Tick(d1), RCheck(c), RUnlock(c)]
  }

  function LockPhase(c: Caller, d2: nat): seq<Action> {
    [Announce(c), Lock(c), Tick(d2), WCheck(c)]
  }

  function FetchPhase(c: Caller, d3: nat, reply: Reply): seq<Action> {
    [Tick(d3), Finish(c, reply)] + if Accept(reply).Success? then [Load(c), Unlock(c)] else [Unlock(c)]
  }

  function SoloCall(s: State, c: Caller, d1: nat, d2: nat, reply: Reply, d3: nat): seq<Action> {
    ReadPhase(c, d1)
    + if Fresh(s.token, s.now + d1) then [] else LockPhase(c, d2) + FetchPhase(c, d3, reply)
  }

  predicate LockFree(s: State) {
    s.readers == {} && s.writer.None?
  }

  lemma Then(s: State, a: seq<Action>, s': State, b: seq<Action>, s'': State)
    requires After(s, a) == Some(s') && After(s', b) == Some(s'')
    ensures After(s, a + b) == Some(s'')
  {
    AfterSplit(s, a, b);
  }

  lemma Two(s: State, a: seq<Action>) returns (s': State)
    requires |a| == 2 && Enabled(s, a[0]) && Enabled(Apply(s, a[0]), a[1])
    ensures s' == Apply(Apply(s, a[0]), a[1]) && After(s, a) == Some(s')
  {
    s' := Apply(Apply(s, a[0]), a[1]);
    assert After(s, a) == After(Apply(s, a[0]), a[1..]);
  }

  lemma ReadPhaseRuns(s: State, c: Caller, d1: nat) returns (out: State)
    requires c < |s.pcs| && s.pcs[c].NotCalled? && LockFree(s)
    ensures After(s, ReadPhase(c, d1)) == Some(out) && LockFree(out)
    ensures out.now == s.now + d1 && out.token == s.token
    ensures out.pcs == s.pcs[c := if Fresh(s.token, out.now) then Returned(Success(s.token.value.accessToken)) else WWait]
  {
    var s2 := Two(s, [Call(c), RLock(c)]);
    var s4 := Two(s2, [Tick(d1), RCheck(c)]);
    out := Apply(s4, RUnlock(c));
    assert After(s4, [RUnlock(c)]) == Some(out);
    Then(s2, [Tick(d1), RCheck(c)], s4, [RUnlock(c)], out);
    Then(s, [Call(c), RLock(c)], s2, [Tick(d1), RCheck(c)] + [RUnlock(c)], out);
    assert ReadPhase(c, d1) == [Call(c), RLock(c)] + ([Tick(d1), RCheck(c)] + [RUnlock(c)]);
    assert out.pcs == s.pcs[c := out.pcs[c]];
  }

  lemma LockPhaseRuns(s: State, c: Caller, d2: nat) returns (out: State)
    requires c < |s.pcs| && s.pcs[c].WWait? && LockFree(s) && !Fresh(s.token, s.now)
    ensures After(s, LockPhase(c, d2)) == Some(out)
    ensures out.now == s.now + d2 && out.token == s.token && out.readers == {} && out.writer == Some(c)
    ensures out.pcs == s.pcs[c := WFetch(out.now)]
  {
    var s2 := Two(s, [Announce(c), Lock(c)]);
    out := Two(s2, [Tick(d2), WCheck(c)]);
    Then(s, [Announce(c), Lock(c)], s2, [Tick(d2), WCheck(c)], out);
    assert LockPhase(c, d2) == [Announce(c), Lock(c)] + [Tick(d2), WCheck(c)];
    assert out.pcs == s.pcs[c := out.pcs[c]];
  }

  lemma FetchPhaseRuns(s: State, c: Caller, d3: nat, reply: Reply) returns (out: State)
    requires c < |s.pcs| && s.pcs[c].WFetch? && s.readers == {} && s.writer == Some(c)
    ensures After(s, FetchPhase(c, d3, reply)) == Some(out) && LockFree(out)
    ensures Accept(reply).Failure? ==>
              out.token == s.token && out.pcs == s.pcs[c := Returned(Failure(Accept(reply).error))]
    ensures Accept(reply).Success? ==>
              && out.token == Some(Issue(Accept(reply).value, s.now + d3))
              && out.pcs == s.pcs[c := Returned(Success(Accept(reply).value.accessToken))]
  {
    var s2 := Two(s, [Tick(d3), Finish(c, reply)]);
    var end := if Accept(reply).Success? then [Load(c), Unlock(c)] else [Unlock(c)];
    if Accept(reply).Success? {
      out := Two(s2, [Load(c), Unlock(c)]);
    } else {
      out := Apply(s2, Unlock(c));
      assert After(s2, [Unlock(c)]) == Some(out);
    }
    Then(s, [Tick(d3), Finish(c, reply)], s2, end, out);
    assert out.pcs == s.pcs[c := out.pcs[c]];
  }

  /** The step system contains the method: a call that runs alone leaves the cache and the result that
      Token computes, and gives the lock back. */
  lemma SoloCallIsToken(s: State, c: Caller, d1: nat, d2: nat, reply: Reply, d3: nat)
    requires c < |s.pcs| && s.pcs[c].NotCalled? && LockFree(s)
    ensures var out := After(s, SoloCall(s, c, d1, d2, reply, d3));
            var t1 := s.now + d1;
            var (token, result) := Uncontended(s.token, t1, t1 + d2, reply, t1 + d2 + d3);
            && out.Some? && LockFree(out.value)
            && out.value.token == token && out.value.pcs == s.pcs[c := Returned(result)]
  {
    var s1 := ReadPhaseRuns(s, c, d1);
    if Fresh(s.token, s.now + d1) {
      assert SoloCall(s, c, d1, d2, reply, d3) == ReadPhase(c, d1);
    } else {
      var s2 := LockPhaseRuns(s1, c, d2);
      var s3 := FetchPhaseRuns(s2, c, d3, reply);
      Then(s1, LockPhase(c, d2), s2, FetchPhase(c, d3, reply), s3);
      Then(s, ReadPhase(c, d1), s1, LockPhase(c, d2) + FetchPhase(c, d3, reply), s3);
      assert s3.pcs == s.pcs[c := s3.pcs[c]];
    }
  }

  /** The condition on the lifetime is needed: a server that grants 9223372037 seconds makes Token return a
      token that was never usable. */
  lemma WrappedLifetimeIsReturned(s: State, c: Caller)
    requires c < |s.pcs| && s.pcs[c].NotCalled? && LockFree(s) && s.token.None?
    ensures var reply := Answer(STATUS_OK, Success(TokenResponse("t", 9_223_372_037)));
            var out := After(s, SoloCall(s, c, 0, 0, reply, 0));
            out.Some? && out.value.pcs == s.pcs[c := Returned(Success("t"))] && !Fresh(out.value.token, s.now)
  {
    var r := TokenResponse("t", 9_223_372_037);
    SoloCallIsToken(s, c, 0, 0, Answer(STATUS_OK, Success(r)), 0);
    IssuedTokenLife(r, s.now, s.now);
    LifetimeRange(r.expiresIn);
  }
}
