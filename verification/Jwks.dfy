/** The JWKS key cache: a map of public keys refreshed from a remote key set, shared by callers racing
    over one RWMutex. */
module Jwks {
  import opened Prelude

  datatype Key = Key(kty: string, kid: string, e: string, n: string)

  datatype PublicKey = PublicKey(modulus: nat, exponent: int)

  /** convertKey: None when the exponent or the modulus is not base64. */
  type Convert = (string, string) -> Option<PublicKey>

  /** What one fetch of the key set did; a body that fails to decode may have replaced part of the store. */
  datatype Fetch = Unreachable | BadStatus | BadBody(partial: Option<seq<Key>>) | Document(keys: seq<Key>)

  predicate Usable(convert: Convert, k: Key) {
    k.kty == "RSA" && convert(k.e, k.n).Some?
  }

  // ---------------------------------------------------------------- what the cache means

  /** The map built by going through the keys in order. */
  function CacheOf(convert: Convert, keys: seq<Key>): map<string, PublicKey> {
    if keys == [] then map[]
    else
      var last := keys[|keys| - 1];
      var before := CacheOf(convert, keys[..|keys| - 1]);
      if Usable(convert, last) then before[last.kid := convert(last.e, last.n).value] else before
  }

  /** Position i holds the last usable key with this kid. */
  ghost predicate LastAt(convert: Convert, keys: seq<Key>, kid: string, i: nat) {
    && i < |keys| && Serves(convert, keys[i], kid)
    && forall j :: i < j < |keys| ==> !Serves(convert, keys[j], kid)
  }

  /** The key answers for this kid: it is an RSA key whose numbers can be read. */
  predicate Serves(convert: Convert, k: Key, kid: string) {
    k.kty == "RSA" && k.kid == kid && convert(k.e, k.n).Some?
  }

  /** What the key at position n adds: it is the last one of its own kid, and for every other kid the last
      one is where it was. */
  lemma LastAtFront(convert: Convert, keys: seq<Key>, kid: string, i: nat)
    requires keys != []
    ensures var n := |keys| - 1;
            var hit := Usable(convert, keys[n]) && keys[n].kid == kid;
            LastAt(convert, keys, kid, i) <==> if hit then i == n else LastAt(convert, keys[..n], kid, i)
  {
    var n := |keys| - 1;
    var front := keys[..n];
    assert forall j :: 0 <= j < n ==> front[j] == keys[j];
    if LastAt(convert, front, kid, i) {
      forall j | i < j < n ensures !Serves(convert, keys[j], kid) {
        assert front[j] == keys[j];
      }
    }
  }

  lemma {:induction false} LookupFindsLast(convert: Convert, keys: seq<Key>, kid: string, i: nat)
    requires LastAt(convert, keys, kid, i)
    ensures kid in CacheOf(convert, keys) && CacheOf(convert, keys)[kid] == convert(keys[i].e, keys[i].n).value
  {
    var n := |keys| - 1;
    LastAtFront(convert, keys, kid, i);
    if i < n {
      LookupFindsLast(convert, keys[..n], kid, i);
    }
  }

  lemma {:induction false} FoundHasLast(convert: Convert, keys: seq<Key>, kid: string) returns (i: nat)
    requires kid in CacheOf(convert, keys)
    ensures LastAt(convert, keys, kid, i)
  {
    var n := |keys| - 1;
    if Usable(convert, keys[n]) && keys[n].kid == kid {
      i := n;
    } else {
      i := FoundHasLast(convert, keys[..n], kid);
    }
    LastAtFront(convert, keys, kid, i);
  }

  lemma {:induction false} UsableHasLast(convert: Convert, keys: seq<Key>, kid: string, at: nat) returns (i: nat)
    requires at < |keys| && Serves(convert, keys[at], kid)
    ensures LastAt(convert, keys, kid, i)
  {
    var n := |keys| - 1;
    if Usable(convert, keys[n]) && keys[n].kid == kid {
      i := n;
    } else {
      i := UsableHasLast(convert, keys[..n], kid, at);
    }
    LastAtFront(convert, keys, kid, i);
  }

  /** A lookup hits exactly when some usable key carries the kid, and then yields the last one of them. */
  lemma LookupIsLastUsable(convert: Convert, keys: seq<Key>, kid: string)
    ensures kid in CacheOf(convert, keys) <==> exists i :: 0 <= i < |keys| && Serves(convert, keys[i], kid)
    ensures forall i: nat :: LastAt(convert, keys, kid, i) ==>
              kid in CacheOf(convert, keys) && CacheOf(convert, keys)[kid] == convert(keys[i].e, keys[i].n).value
    ensures kid in CacheOf(convert, keys) ==> exists i: nat :: LastAt(convert, keys, kid, i)
  {
    forall i: nat | LastAt(convert, keys, kid, i)
      ensures kid in CacheOf(convert, keys) && CacheOf(convert, keys)[kid] == convert(keys[i].e, keys[i].n).value
    {
      LookupFindsLast(convert, keys, kid, i);
    }
    if kid in CacheOf(convert, keys) {
      var i := FoundHasLast(convert, keys, kid);
    } else if at :| 0 <= at < |keys| && Serves(convert, keys[at], kid) {
      var i := UsableHasLast(convert, keys, kid, at);
    }
  }

  // ---------------------------------------------------------------- the provider

  /** time.Since(lastFetch) < refreshInt; a provider that never fetched has waited for ever. */
  predicate Recent(lastFetch: Option<int>, now: int, refreshInt: int) {
    lastFetch.Some? && now - lastFetch.value < refreshInt
  }

  class JWKSProvider {
    const convert: Convert
    const refreshInt: int
    var keyStore: Option<seq<Key>>
    var keyCache: map<string, PublicKey>
    var lastFetch: Option<int>
    /** The last key set that was fetched and decoded. */
    ghost var fetched: seq<Key>

    ghost predicate Valid()
      reads this
    {
      keyCache == CacheOf(convert, fetched)
    }

    constructor (convert: Convert, refreshInt: int)
      ensures Valid() && lastFetch == None && fetched == []
      ensures this.convert == convert && this.refreshInt == refreshInt
    {
      this.convert, this.refreshInt := convert, refreshInt;
      keyStore, keyCache, lastFetch := None, map[], None;
      fetched := [];
    }

    method FetchJWKS(f: Fetch) returns (ok: bool)
      modifies this`keyStore
      ensures ok == f.Document?
      ensures ok ==> keyStore == Some(f.keys)
    {
      match f
      case Unreachable => return false;
      case BadStatus => return false;
      case BadBody(partial) =>
        keyStore := partial;
        return false;
      case Document(keys) =>
        keyStore := Some(keys);
        return true;
    }

    /** Fetches when the interval has passed. The cache always stands for one whole fetched key set: a
        failed fetch, even one that spoilt the store, leaves it and the time of the last fetch alone. */
    method Refresh(checked: int, f: Fetch, done: int) returns (ok: bool)
      requires Valid()
      modifies this
      ensures Valid()
      ensures ok == (Recent(old(lastFetch), checked, refreshInt) || f.Document?)
      ensures var replaced := !Recent(old(lastFetch), checked, refreshInt) && f.Document?;
              && fetched == (if replaced then f.keys else old(fetched))
              && lastFetch == (if replaced then Some(done) else old(lastFetch))
              && (!replaced ==> keyCache == old(keyCache))
    {
      if lastFetch.Some? && checked - lastFetch.value < refreshInt {
        return true;
      }
      ok := FetchJWKS(f);
      if !ok {
        return;
      }
      var keys := keyStore.value;
      keyCache := map[];
      for i := 0 to |keys|
        invariant keyCache == CacheOf(convert, keys[..i])
        invariant keys == f.keys && lastFetch == old(lastFetch) && fetched == old(fetched)
      {
        assert keys[..i + 1][..i] == keys[..i];
        if keys[i].kty == "RSA" {
          var pub := convert(keys[i].e, keys[i].n);
          if pub.Some? {
            keyCache := keyCache[keys[i].kid := pub.value];
          }
        }
      }
      assert keys[..|keys|] == keys;
      fetched := keys;
      lastFetch := Some(done);
    }

    /** The key for a token's kid: refuses when the refresh fails, and otherwise answers from the key set
        that was fetched last, with the last usable key of that kid. */
    method GetVerifier(kid: string, checked: int, f: Fetch, done: int) returns (key: Option<PublicKey>)
      requires Valid()
      modifies this
      ensures Valid()
      ensures var replaced := !Recent(old(lastFetch), checked, refreshInt) && f.Document?;
              && fetched == (if replaced then f.keys else old(fetched))
              && lastFetch == (if replaced then Some(done) else old(lastFetch))
      ensures key.Some? <==> (Recent(old(lastFetch), checked, refreshInt) || f.Document?)
                             && exists i :: 0 <= i < |fetched| && Serves(convert, fetched[i], kid)
      ensures key.Some? ==> exists i: nat :: LastAt(convert, fetched, kid, i) && key == convert(fetched[i].e, fetched[i].n)
      ensures old(lastFetch).Some? ==>
                var g := Config(convert, refreshInt, []);
                (key, (lastFetch.value, fetched)) ==
                Uncontended(g, (old(lastFetch).value, old(fetched)), kid, checked, f, done)
    {
      var ok := Refresh(checked, f, done);
      LookupIsLastUsable(convert, fetched, kid);
      if !ok || kid !in keyCache {
        return None;
      }
      key := Some(keyCache[kid]);
    }
  }

  // ---------------------------------------------------------------- callers in parallel

  /** Where one call of getVerifier stands. `checked` is when it asked whether a refresh was due, `from`
      the fetch whose keys it read. */
  datatype Pc =
    | NotCalled
    | WantLock
    | Checking
    | Fetching(checked: int)
    | Unlocking(checked: int, ok: bool)
    | WantRead(checked: int)
    | Reading(checked: int)
    | Leaving(checked: int, from: nat, key: Option<PublicKey>)
    | Refused
    | Answered(checked: int, from: nat, key: Option<PublicKey>)

  predicate Writes(pc: Pc) {
    pc.Checking? || pc.Fetching? || pc.Unlocking?
  }

  predicate Reads(pc: Pc) {
    pc.Reading? || pc.Leaving?
  }

  datatype Config = Config(convert: Convert, refreshInt: int, kids: seq<string>)

  /** log lists the successful fetches: when each was complete, and what it brought. */
  datatype State = State(
    now: int,
    cache: map<string, PublicKey>,
    lastFetch: int,
    log: seq<(int, seq<Key>)>,
    readers: set<nat>,
    writer: Option<nat>,
    pcs: seq<Pc>)

  datatype Action =
    | Tick(d: nat)
    | Call(c: nat)
    | Lock(c: nat)
    | Check(c: nat)
    | Finish(c: nat, f: Fetch)
    | Unlock(c: nat)
    | RLock(c: nat)
    | Read(c: nat)
    | RUnlock(c: nat)

  predicate Enabled(s: State, a: Action) {
    if a.Tick? then true
    else if a.c >= |s.pcs| then false
    else
      var pc := s.pcs[a.c];
      match a
      case Tick(_) => true
      case Call(_) => pc.NotCalled?
      case Lock(_) => pc.WantLock? && s.writer.None? && s.readers == {}
      case Check(_) => pc.Checking?
      case Finish(_, _) => pc.Fetching?
      case Unlock(_) => pc.Unlocking?
      case RLock(_) => pc.WantRead? && s.writer.None?
      case Read(_) => pc.Reading? && |s.log| > 0
      case RUnlock(_) => pc.Leaving?
  }

  function Lookup(cache: map<string, PublicKey>, kid: string): Option<PublicKey> {
    if kid in cache then Some(cache[kid]) else None
  }

  function Apply(g: Config, s: State, a: Action): State
    requires |g.kids| == |s.pcs| && Enabled(s, a)
  {
    match a
    case Tick(d) => s.(now := s.now + d)
    case Call(c) => s.(pcs := s.pcs[c := WantLock])
    case Lock(c) => s.(pcs := s.pcs[c := Checking], writer := Some(c))
    case Check(c) =>
      s.(pcs := s.pcs[c := if Recent(Some(s.lastFetch), s.now, g.refreshInt) then Unlocking(s.now, true) else Fetching(s.now)])
    case Finish(c, f) =>
      var t := s.(pcs := s.pcs[c := Unlocking(s.pcs[c].checked, f.Document?)]);
      if f.Document? then t.(cache := CacheOf(g.convert, f.keys), lastFetch := s.now, log := s.log + [(s.now, f.keys)])
      else t
    case Unlock(c) =>
      s.(pcs := s.pcs[c := if s.pcs[c].ok then WantRead(s.pcs[c].checked) else Refused], writer := None)
    case RLock(c) => s.(pcs := s.pcs[c := Reading(s.pcs[c].checked)], readers := s.readers + {c})
    case Read(c) =>
      s.(pcs := s.pcs[c := Leaving(s.pcs[c].checked, |s.log| - 1, Lookup(s.cache, g.kids[c]))])
    case RUnlock(c) =>
      var pc := s.pcs[c];
      s.(pcs := s.pcs[c := Answered(pc.checked, pc.from, pc.key)], readers := s.readers - {c})
  }

  /** A fetch completed at `done` is recent enough for a caller that asked at `checked`. */
  predicate Recently(g: Config, checked: int, done: int) {
    done > checked - g.refreshInt || done >= checked
  }

  ghost predicate PcInv(g: Config, s: State, c: nat)
    requires |g.kids| == |s.pcs| && c < |s.pcs| && |s.log| > 0
  {
    match s.pcs[c]
    case Fetching(checked) => checked <= s.now && s.lastFetch + g.refreshInt <= checked
    case Unlocking(checked, ok) => ok ==> Recently(g, checked, s.lastFetch)
    case WantRead(checked) => Recently(g, checked, s.lastFetch)
    case Reading(checked) => Recently(g, checked, s.lastFetch)
    case Leaving(checked, from, key) => Justified(g, s, c, checked, from, key)
    case Answered(checked, from, key) => Justified(g, s, c, checked, from, key)
    case _ => true
  }

  /** The answer is the lookup in one whole fetched key set, recent enough for the caller. */
  ghost predicate Justified(g: Config, s: State, c: nat, checked: int, from: nat, key: Option<PublicKey>)
    requires c < |g.kids|
  {
    from < |s.log| && Recently(g, checked, s.log[from].0) && key == Lookup(CacheOf(g.convert, s.log[from].1), g.kids[c])
  }

  /** The log and what the shared fields owe to it. */
  ghost predicate LogInv(g: Config, s: State) {
    && |s.log| > 0
    && s.lastFetch == s.log[|s.log| - 1].0 <= s.now
    && s.cache == CacheOf(g.convert, s.log[|s.log| - 1].1)
    && forall k :: 0 < k < |s.log| ==> s.log[k - 1].0 + g.refreshInt <= s.log[k].0 && s.log[k - 1].0 <= s.log[k].0
  }

  ghost predicate LockInv(s: State) {
    && (s.writer.Some? ==> s.writer.value < |s.pcs| && Writes(s.pcs[s.writer.value]))
    && (forall c :: 0 <= c < |s.pcs| && Writes(s.pcs[c]) ==> s.writer == Some(c) && s.readers == {})
    && (forall c :: 0 <= c < |s.pcs| ==> (c in s.readers <==> Reads(s.pcs[c])))
  }

  ghost predicate Inv(g: Config, s: State) {
    && |g.kids| == |s.pcs|
    && LogInv(g, s) && LockInv(s)
    && forall c :: 0 <= c < |s.pcs| ==> PcInv(g, s, c)
  }

  /** A fetch changes nothing for the other callers but the keys they will read. */
  lemma FetchKeepsOthers(g: Config, s: State, s': State, c: nat)
    requires |g.kids| == |s.pcs| == |s'.pcs| && c < |s.pcs| && |s.log| > 0 && PcInv(g, s, c)
    requires s'.pcs[c] == s.pcs[c] && !s.pcs[c].Fetching?
    requires s.log <= s'.log && s.lastFetch <= s'.lastFetch
    ensures PcInv(g, s', c)
  {
  }

  lemma StepKeepsLock(g: Config, s: State, a: Action)
    requires |g.kids| == |s.pcs| && LockInv(s) && Enabled(s, a)
    ensures LockInv(Apply(g, s, a))
  {
  }

  lemma StepKeepsLog(g: Config, s: State, a: Action)
    requires |g.kids| == |s.pcs| && LogInv(g, s) && Enabled(s, a)
    requires a.Finish? ==> PcInv(g, s, a.c)
    ensures LogInv(g, Apply(g, s, a)) && s.log <= Apply(g, s, a).log && s.lastFetch <= Apply(g, s, a).lastFetch
  {
    var s' := Apply(g, s, a);
    if a.Finish? && a.f.Document? {
      var n := |s.log|;
      assert s'.log[n] == (s.now, a.f.keys) && s'.log[n - 1] == s.log[n - 1];
    }
  }

  /** A step of another caller changes nothing for this one, except that the keys it will read may be newer. */
  lemma OthersKeepPc(g: Config, s: State, a: Action, c: nat)
    requires Inv(g, s) && Enabled(s, a) && c < |s.pcs| && (a.Tick? || a.c != c)
    ensures PcInv(g, Apply(g, s, a), c)
  {
    assert PcInv(g, s, c);
    if a.Finish? {
      assert s.writer == Some(a.c);
      assert PcInv(g, s, a.c);
      StepKeepsLog(g, s, a);
      FetchKeepsOthers(g, s, Apply(g, s, a), c);
    }
  }

  lemma OwnKeepsPc(g: Config, s: State, a: Action)
    requires Inv(g, s) && Enabled(s, a) && !a.Tick?
    ensures PcInv(g, Apply(g, s, a), a.c)
  {
    assert PcInv(g, s, a.c);
  }

  lemma StepKeepsPc(g: Config, s: State, a: Action, c: nat)
    requires Inv(g, s) && Enabled(s, a) && c < |s.pcs|
    ensures PcInv(g, Apply(g, s, a), c)
  {
    if a.Tick? || a.c != c {
      OthersKeepPc(g, s, a, c);
    } else {
      OwnKeepsPc(g, s, a);
    }
  }

  lemma StepKeepsInv(g: Config, s: State, a: Action)
    requires Inv(g, s) && Enabled(s, a)
    ensures Inv(g, Apply(g, s, a))
  {
    StepKeepsLock(g, s, a);
    if !a.Tick? {
      assert PcInv(g, s, a.c);
    }
    StepKeepsLog(g, s, a);
    forall c | 0 <= c < |s.pcs| ensures PcInv(g, Apply(g, s, a), c) {
      StepKeepsPc(g, s, a, c);
    }
  }

  // ---------------------------------------------------------------- runs

  /** Right after the provider has been created by its first, successful fetch. */
  predicate Init(g: Config, s: State) {
    && |g.kids| == |s.pcs| && |s.log| == 1
    && s.lastFetch == s.log[0].0 <= s.now && s.cache == CacheOf(g.convert, s.log[0].1)
    && s.readers == {} && s.writer.None?
    && forall c :: 0 <= c < |s.pcs| ==> s.pcs[c].NotCalled?
  }

  ghost predicate Run(g: Config, states: seq<State>, actions: seq<Action>) {
    && |states| == |actions| + 1 && Init(g, states[0])
    && forall i :: 0 <= i < |actions| ==>
         |g.kids| == |states[i].pcs| && Enabled(states[i], actions[i]) && states[i + 1] == Apply(g, states[i], actions[i])
  }

  lemma {:induction false} RunKeepsInv(g: Config, states: seq<State>, actions: seq<Action>, n: nat)
    requires Run(g, states, actions) && n < |states|
    ensures Inv(g, states[n])
  {
    if n > 0 {
      RunKeepsInv(g, states, actions, n - 1);
      StepKeepsInv(g, states[n - 1], actions[n - 1]);
    }
  }

  /** In every interleaving, a caller's answer is the last usable key of its kid in one whole key set, and
      that set was fetched later than refreshInt before the caller asked whether a refresh was due. With
      an interval of zero or less every caller fetches, and its keys are no older than its own question. */
  lemma AnswersAreRecent(g: Config, states: seq<State>, actions: seq<Action>, n: nat, c: nat)
    requires Run(g, states, actions) && n < |states| && c < |states[n].pcs| && states[n].pcs[c].Answered?
    ensures var s := states[n];
            var pc := s.pcs[c];
            && |g.kids| == |s.pcs| && pc.from < |s.log|
            && (g.refreshInt > 0 ==> s.log[pc.from].0 > pc.checked - g.refreshInt)
            && (g.refreshInt <= 0 ==> s.log[pc.from].0 >= pc.checked)
            && (pc.key.Some? <==> exists i: nat :: LastAt(g.convert, s.log[pc.from].1, g.kids[c], i))
            && forall i: nat :: LastAt(g.convert, s.log[pc.from].1, g.kids[c], i) ==>
                 pc.key == g.convert(s.log[pc.from].1[i].e, s.log[pc.from].1[i].n)
  {
    RunKeepsInv(g, states, actions, n);
    assert PcInv(g, states[n], c);
    LookupIsLastUsable(g.convert, states[n].log[states[n].pcs[c].from].1, g.kids[c]);
  }

  /** Successful fetches are complete at least refreshInt apart, the cache stands for the last of them, and
      a failed fetch changes nothing but its caller. */
  lemma FetchesAreSpaced(g: Config, states: seq<State>, actions: seq<Action>, n: nat)
    requires Run(g, states, actions) && n < |states|
    ensures var s := states[n];
            && |s.log| > 0 && s.lastFetch == s.log[|s.log| - 1].0 && s.cache == CacheOf(g.convert, s.log[|s.log| - 1].1)
            && (forall k :: 0 < k < |s.log| ==> s.log[k - 1].0 + g.refreshInt <= s.log[k].0)
            && (n < |actions| && actions[n].Finish? && !actions[n].f.Document? ==>
                  states[n + 1] == s.(pcs := states[n + 1].pcs))
  {
    RunKeepsInv(g, states, actions, n);
  }

  // ---------------------------------------------------------------- who is answered

  /** A caller is refused only because its own fetch failed, and whoever gets past the refresh had none to
      make or a successful one. */
  ghost predicate RefreshedBy(states: seq<State>, actions: seq<Action>, k: nat, c: nat, ok: bool)
    requires |states| == |actions| + 1
  {
    && k < |actions|
    && match actions[k]
       case Check(d) => d == c && ok
       case Finish(d, f) => d == c && (ok <==> f.Document?)
       case _ => false
  }

  /** Whether the refresh of a call succeeded, once that is settled. */
  function Refreshed(pc: Pc): Option<bool> {
    match pc
    case Unlocking(_, ok) => Some(ok)
    case Refused => Some(false)
    case WantRead(_) => Some(true)
    case Reading(_) => Some(true)
    case Leaving(_, _, _) => Some(true)
    case Answered(_, _, _) => Some(true)
    case _ => None
  }

  lemma StepRefreshes(g: Config, s: State, a: Action, c: nat)
    requires |g.kids| == |s.pcs| && Enabled(s, a) && c < |s.pcs| && Refreshed(Apply(g, s, a).pcs[c]).Some?
    ensures var before, after := Refreshed(s.pcs[c]), Refreshed(Apply(g, s, a).pcs[c]);
            || before == after
            || (a == Check(c) && after == Some(true))
            || (a.Finish? && a.c == c && after == Some(a.f.Document?))
  {
  }

  /** In every interleaving: a refused call is one whose own fetch failed; an answered one asked no fetch of
      its own or got a document. */
  lemma {:induction false} RefusedIffFetchFailed(g: Config, states: seq<State>, actions: seq<Action>, n: nat, c: nat)
    requires Run(g, states, actions) && n < |states| && c < |states[n].pcs| && Refreshed(states[n].pcs[c]).Some?
    ensures exists k :: 0 <= k < n && RefreshedBy(states, actions, k, c, Refreshed(states[n].pcs[c]).value)
    decreases n
  {
    if n > 0 {
      StepRefreshes(g, states[n - 1], actions[n - 1], c);
      if Refreshed(states[n - 1].pcs[c]) == Refreshed(states[n].pcs[c]) {
        RefusedIffFetchFailed(g, states, actions, n - 1, c);
      } else {
        assert RefreshedBy(states, actions, n - 1, c, Refreshed(states[n].pcs[c]).value);
      }
    }
  }

  predicate Active(pc: Pc) {
    !pc.NotCalled? && !pc.Refused? && !pc.Answered?
  }

  lemma CallerCanMove(g: Config, s: State, c: nat)
    requires Inv(g, s) && c < |s.pcs| && Active(s.pcs[c])
    requires (s.writer.None? && s.readers == {}) || c in s.readers || s.writer == Some(c)
    ensures exists a: Action :: !a.Tick? && !a.Call? && Enabled(s, a)
  {
    match s.pcs[c]
    case WantLock => assert Enabled(s, Lock(c));
    case Checking => assert Enabled(s, Check(c));
    case Fetching(_) => assert Enabled(s, Finish(c, Unreachable));
    case Unlocking(_, _) => assert Enabled(s, Unlock(c));
    case WantRead(_) => assert Enabled(s, RLock(c));
    case Reading(_) => assert Enabled(s, Read(c));
    case Leaving(_, _, _) => assert Enabled(s, RUnlock(c));
  }

  /** While some call is in progress, some caller can move: no deadlock. */
  lemma NeverStuck(g: Config, s: State, c: nat)
    requires Inv(g, s) && c < |s.pcs| && Active(s.pcs[c])
    requires forall d :: d in s.readers ==> d < |s.pcs|
    ensures exists a: Action :: !a.Tick? && !a.Call? && Enabled(s, a)
  {
    if s.writer.Some? {
      CallerCanMove(g, s, s.writer.value);
    } else if s.readers != {} {
      var r :| r in s.readers;
      CallerCanMove(g, s, r);
    } else {
      CallerCanMove(g, s, c);
    }
  }

  // ---------------------------------------------------------------- one call alone

  /** s after the actions, or None as soon as one of them is not enabled. */
  function After(g: Config, s: State, actions: seq<Action>): Option<State>
    requires |g.kids| == |s.pcs|
    decreases actions
  {
    if actions == [] then Some(s)
    else if Enabled(s, actions[0]) then After(g, Apply(g, s, actions[0]), actions[1..])
    else None
  }

  /** The answer of one uninterrupted call, and the last fetch after it. */
  function Uncontended(g: Config, last: (int, seq<Key>), kid: string, checked: int, f: Fetch, done: int)
    : (Option<PublicKey>, (int, seq<Key>))
  {
    var recent := checked - last.0 < g.refreshInt;
    var fetched := if !recent && f.Document? then (done, f.keys) else last;
    (if recent || f.Document? then Lookup(CacheOf(g.convert, fetched.1), kid) else None, fetched)
  }

  function RefreshSteps(c: nat, d1: nat, recent: bool, f: Fetch, d2: nat): seq<Action> {
    [Call(c), Lock(c), Tick(d1), Check(c)] + (if recent then [] else [Tick(d2), Finish(c, f)]) + [Unlock(c)]
  }

  function SoloCall(c: nat, d1: nat, recent: bool, f: Fetch, d2: nat): seq<Action> {
    RefreshSteps(c, d1, recent, f, d2) + if recent || f.Document? then [RLock(c), Read(c), RUnlock(c)] else []
  }

  lemma {:induction false} AfterSplit(g: Config, s: State, a: seq<Action>, b: seq<Action>)
    requires |g.kids| == |s.pcs| && After(g, s, a).Some?
    ensures |g.kids| == |After(g, s, a).value.pcs|
    ensures After(g, s, a + b) == After(g, After(g, s, a).value, b)
    decreases a
  {
    if a == [] {
      assert a + b == b;
    } else {
      AfterSplit(g, Apply(g, s, a[0]), a[1..], b);
      assert (a + b)[1..] == a[1..] + b;
    }
  }

  lemma One(g: Config, s: State, a: Action) returns (s': State)
    requires |g.kids| == |s.pcs| && Enabled(s, a)
    ensures s' == Apply(g, s, a) && After(g, s, [a]) == Some(s')
  {
    s' := Apply(g, s, a);
    assert [a][1..] == [];
  }

  lemma Two(g: Config, s: State, a: Action, b: Action) returns (s': State)
    requires |g.kids| == |s.pcs| && Enabled(s, a) && Enabled(Apply(g, s, a), b)
    ensures s' == Apply(g, Apply(g, s, a), b) && After(g, s, [a, b]) == Some(s')
  {
    s' := One(g, Apply(g, s, a), b);
    assert [a, b][1..] == [b];
  }

  lemma Then(g: Config, s: State, a: seq<Action>, s': State, b: seq<Action>, s'': State)
    requires |g.kids| == |s.pcs| == |s'.pcs| && After(g, s, a) == Some(s') && After(g, s', b) == Some(s'')
    ensures After(g, s, a + b) == Some(s'')
  {
    AfterSplit(g, s, a, b);
  }

  lemma RefreshRuns(g: Config, s: State, c: nat, d1: nat, f: Fetch, d2: nat) returns (out: State)
    requires Inv(g, s) && c < |s.pcs| && s.pcs[c].NotCalled? && s.readers == {} && s.writer.None?
    ensures var checked := s.now + d1;
            var recent := checked - s.lastFetch < g.refreshInt;
            && After(g, s, RefreshSteps(c, d1, recent, f, d2)) == Some(out) && out.readers == {} && out.writer.None?
            && out.pcs == s.pcs[c := if recent || f.Document? then WantRead(checked) else Refused]
            && (if !recent && f.Document? then
                  out.log == s.log + [(checked + d2, f.keys)] && out.lastFetch == checked + d2 && out.cache == CacheOf(g.convert, f.keys)
                else out.log == s.log && out.lastFetch == s.lastFetch && out.cache == s.cache)
  {
    var recent := s.now + d1 - s.lastFetch < g.refreshInt;
    var s2 := Two(g, s, Call(c), Lock(c));
    var s4 := Two(g, s2, Tick(d1), Check(c));
    Then(g, s, [Call(c), Lock(c)], s2, [Tick(d1), Check(c)], s4);
    var begin := [Call(c), Lock(c), Tick(d1), Check(c)];
    assert begin == [Call(c), Lock(c)] + [Tick(d1), Check(c)];
    var s6 := s4;
    var middle := if recent then [] else [Tick(d2), Finish(c, f)];
    if !recent {
      s6 := Two(g, s4, Tick(d2), Finish(c, f));
    }
    Then(g, s, begin, s4, middle, s6);
    out := One(g, s6, Unlock(c));
    Then(g, s, begin + middle, s6, [Unlock(c)], out);
    assert out.pcs == s.pcs[c := out.pcs[c]];
  }

  /** The step system contains the method: a call that runs alone is answered or refused as getVerifier
      answers, leaves the cache and the time of the last fetch that it leaves, and gives the lock back. */
  lemma SoloCallIsGetVerifier(g: Config, s: State, c: nat, d1: nat, f: Fetch, d2: nat)
    requires Inv(g, s) && c < |s.pcs| && s.pcs[c].NotCalled? && s.readers == {} && s.writer.None?
    ensures var checked := s.now + d1;
            var recent := checked - s.lastFetch < g.refreshInt;
            var (key, fetched) := Uncontended(g, s.log[|s.log| - 1], g.kids[c], checked, f, checked + d2);
            var from: nat := if recent then |s.log| - 1 else |s.log|;
            var out := After(g, s, SoloCall(c, d1, recent, f, d2));
            && out.Some? && out.value.readers == {} && out.value.writer.None?
            && out.value.pcs == s.pcs[c := if recent || f.Document? then Answered(checked, from, key) else Refused]
            && (recent || f.Document? ==> from == |out.value.log| - 1)
            && out.value.lastFetch == fetched.0 && out.value.cache == CacheOf(g.convert, fetched.1)
  {
    var checked := s.now + d1;
    var recent := checked - s.lastFetch < g.refreshInt;
    var mid := RefreshRuns(g, s, c, d1, f, d2);
    var begin := RefreshSteps(c, d1, recent, f, d2);
    if recent || f.Document? {
      var s2 := Two(g, mid, RLock(c), Read(c));
      var out := One(g, s2, RUnlock(c));
      Then(g, mid, [RLock(c), Read(c)], s2, [RUnlock(c)], out);
      assert [RLock(c), Read(c)] + [RUnlock(c)] == [RLock(c), Read(c), RUnlock(c)];
      Then(g, s, begin, mid, [RLock(c), Read(c), RUnlock(c)], out);
      assert out.pcs == s.pcs[c := out.pcs[c]];
    } else {
      assert begin + [] == begin;
    }
  }
}
