/** retry.Do: a bounded loop around a fallible function, waiting between retryable failures. */
module Retry {
  import opened Prelude
  import opened Errors
  import opened Backoff

  const LIMIT_REACHED := Sentinel(RetryLimitReached)

  /** One pass of the loop as the outside world decides it: whether the context is alive when it begins,
      what the function returns, the random jitter, and whether the timer fires before the context ends. */
  datatype Attempt = Attempt(live: bool, result: Option<Error>, jitter: nat, fires: bool)

  datatype Outcome = Outcome(err: Option<Error>, calls: nat, waits: seq<Int64>)

  predicate Fails(a: Attempt) {
    a.result.Some? && Retryable(a.result.value)
  }

  /** The pass leads to another one. */
  predicate Passes(a: Attempt) {
    a.live && Fails(a) && a.fires
  }

  /** The jitters are ones the backoff can draw. */
  predicate Drawable(b: Backoff, script: seq<Attempt>) {
    forall i :: 0 <= i < |script| && Draws(b, i) ==> script[i].jitter < b.jitter
  }

  /** Do from pass i on. */
  function DoFrom(max: nat, b: Backoff, canceled: Error, script: seq<Attempt>, i: nat): Outcome
    requires |script| >= max && Drawable(b, script)
    decreases max - i
  {
    if i >= max then Outcome(Some(LIMIT_REACHED), 0, [])
    else
      var a := script[i];
      if !a.live then Outcome(Some(canceled), 0, [])
      else if !Fails(a) then Outcome(a.result, 1, [])
      else if !a.fires then Outcome(Some(canceled), 1, [Next(b, i, a.jitter)])
      else
        var rest := DoFrom(max, b, canceled, script, i + 1);
        Outcome(rest.err, 1 + rest.calls, [Next(b, i, a.jitter)] + rest.waits)
  }

  /** What a pass that does not lead to another one makes Do return. */
  function Verdict(a: Attempt, canceled: Error): Option<Error>
    requires !Passes(a)
  {
    if a.live && !Fails(a) then a.result else Some(canceled)
  }

  /** Do is decided by its first pass that does not lead to another one, and by the limit if there is
      none: its result, how often the function was called, and how often it waited. */
  lemma {:induction false} DecidedByFirst(max: nat, b: Backoff, canceled: Error, script: seq<Attempt>, i: nat, k: nat)
    requires |script| >= max && Drawable(b, script) && i <= k <= max
    requires forall j :: i <= j < k ==> Passes(script[j])
    requires k < max ==> !Passes(script[k])
    ensures var o := DoFrom(max, b, canceled, script, i);
            && o.err == (if k == max then Some(LIMIT_REACHED) else Verdict(script[k], canceled))
            && o.calls == k - i + (if k < max && script[k].live then 1 else 0)
            && |o.waits| == k - i + (if k < max && script[k].live && Fails(script[k]) then 1 else 0)
    decreases k - i
  {
    if i < k {
      assert Passes(script[i]);
      DecidedByFirst(max, b, canceled, script, i + 1, k);
    }
  }

  lemma {:induction false} FirstStop(script: seq<Attempt>, max: nat, i: nat) returns (k: nat)
    requires i <= max <= |script|
    ensures i <= k <= max && (k < max ==> !Passes(script[k]))
    ensures forall j :: i <= j < k ==> Passes(script[j])
    decreases max - i
  {
    if i == max || !Passes(script[i]) {
      k := i;
    } else {
      k := FirstStop(script, max, i + 1);
    }
  }

  lemma FirstStopUnique(script: seq<Attempt>, max: nat, k: nat, k': nat)
    requires k <= max <= |script| && k' < max && !Passes(script[k'])
    requires k < max ==> !Passes(script[k])
    requires forall j :: 0 <= j < k ==> Passes(script[j])
    requires forall j :: 0 <= j < k' ==> Passes(script[j])
    ensures k == k'
  {
  }

  /** nil is returned if and only if some call succeeds, with the context alive then and at every check
      before, and only retryable failures before it. */
  lemma NilIff(max: nat, b: Backoff, canceled: Error, script: seq<Attempt>)
    requires |script| >= max && Drawable(b, script)
    ensures DoFrom(max, b, canceled, script, 0).err.None? <==>
            exists k :: 0 <= k < max && script[k].live && script[k].result.None? && forall j :: 0 <= j < k ==> Passes(script[j])
  {
    var k := FirstStop(script, max, 0);
    DecidedByFirst(max, b, canceled, script, 0, k);
    if k' :| 0 <= k' < max && script[k'].live && script[k'].result.None? && forall j :: 0 <= j < k' ==> Passes(script[j]) {
      FirstStopUnique(script, max, k, k');
    }
  }

  /** The limit error is returned if and only if every one of max passes failed retryably, or the first
      decisive pass produced that very error itself. */
  lemma LimitIff(max: nat, b: Backoff, canceled: Error, script: seq<Attempt>)
    requires |script| >= max && Drawable(b, script)
    ensures DoFrom(max, b, canceled, script, 0).err == Some(LIMIT_REACHED) <==>
            || (forall j :: 0 <= j < max ==> Passes(script[j]))
            || exists k :: 0 <= k < max && !Passes(script[k]) && Verdict(script[k], canceled) == Some(LIMIT_REACHED)
                           && forall j :: 0 <= j < k ==> Passes(script[j])
  {
    var k := FirstStop(script, max, 0);
    DecidedByFirst(max, b, canceled, script, 0, k);
    if k' :| 0 <= k' < max && !Passes(script[k']) && Verdict(script[k'], canceled) == Some(LIMIT_REACHED)
             && forall j :: 0 <= j < k' ==> Passes(script[j]) {
      FirstStopUnique(script, max, k, k');
    }
  }

  /** The first failure that is not retryable comes back unchanged. */
  lemma FinalErrorUnchanged(max: nat, b: Backoff, canceled: Error, script: seq<Attempt>, k: nat)
    requires |script| >= max && Drawable(b, script) && k < max
    requires script[k].live && script[k].result.Some? && !Retryable(script[k].result.value)
    requires forall j :: 0 <= j < k ==> Passes(script[j])
    ensures DoFrom(max, b, canceled, script, 0).err == script[k].result
    ensures DoFrom(max, b, canceled, script, 0).calls == k + 1 <= max
  {
    DecidedByFirst(max, b, canceled, script, 0, k);
  }

  // ---------------------------------------------------------------- retryable errors

  /** All the nodes of an error tree that errors.Is and errors.As visit. */
  function Nodes(e: Error): set<Error> {
    {e} + match e
      case Sentinel(_) => {}
      case Plain(_) => {}
      case Wrapped(_, inner) => Nodes(inner)
      case Joined(errs) => set i, n | 0 <= i < |errs| && n in Nodes(errs[i]) :: n
      case RetryableMark(_, marked) => if marked.Some? then Nodes(marked.value) else {}
  }

  /** An error is retryable exactly when some node of its tree is a RetryableError, by pointer or by value. */
  lemma {:induction false} RetryableIffMarked(e: Error)
    ensures Retryable(e) <==> exists n :: n in Nodes(e) && n.RetryableMark?
    ensures AsMark(e, true) <==> exists n :: n in Nodes(e) && n.RetryableMark? && n.byPointer
  {
    match e
    case Sentinel(_) =>
    case Plain(_) =>
    case Wrapped(_, inner) =>
      RetryableIffMarked(inner);
    case Joined(errs) =>
      forall i | 0 <= i < |errs| {
        RetryableIffMarked(errs[i]);
      }
      if Retryable(e) {
        var i :| 0 <= i < |errs| && Retryable(errs[i]);
        var n :| n in Nodes(errs[i]) && n.RetryableMark?;
        assert n in Nodes(e);
      }
      if AsMark(e, true) {
        var i :| 0 <= i < |errs| && AsMark(errs[i], true);
        var n :| n in Nodes(errs[i]) && n.RetryableMark? && n.byPointer;
        assert n in Nodes(e);
      }
    case RetryableMark(p, marked) =>
      assert e in Nodes(e);
      if marked.Some? {
        RetryableIffMarked(marked.value);
      }
  }

  // ---------------------------------------------------------------- total waiting time

  function Total(waits: seq<Int64>): int {
    if waits == [] then 0 else Total(waits[..|waits| - 1]) + waits[|waits| - 1]
  }

  /** The most jitter the first n waits can draw. */
  function MaxJitter(b: Backoff, n: nat): int
    requires !b.Static?
  {
    if n == 0 then 0 else MaxJitter(b, n - 1) + if Draws(b, n - 1) then b.jitter - 1 else 0
  }

  lemma {:induction false} MaxJitterBound(b: Backoff, n: nat)
    requires !b.Static? && b.jitter >= 1 && n >= 1
    ensures MaxJitter(b, n) <= (n - 1) * (b.jitter - 1)
  {
    if n == 1 {
      assert MaxJitter(b, 1) == MaxJitter(b, 0) + 0;
    } else {
      MaxJitterBound(b, n - 1);
      assert (n - 1) * (b.jitter - 1) == (n - 2) * (b.jitter - 1) + (b.jitter - 1);
    }
  }

  /** The first n waits of a run. */
  function Waits(b: Backoff, script: seq<Attempt>, n: nat): seq<Int64>
    requires n <= |script| && Drawable(b, script)
  {
    if n == 0 then [] else Waits(b, script, n - 1) + [Next(b, n - 1, script[n - 1].jitter)]
  }

  lemma {:induction false} RunWaits(max: nat, b: Backoff, canceled: Error, script: seq<Attempt>, i: nat)
    requires |script| >= max && Drawable(b, script) && i <= max
    ensures var o := DoFrom(max, b, canceled, script, i);
            i + |o.waits| <= max && Waits(b, script, i) + o.waits == Waits(b, script, i + |o.waits|)
    decreases max - i
  {
    if i < max && script[i].live && Fails(script[i]) {
      var w := Next(b, i, script[i].jitter);
      if script[i].fires {
        RunWaits(max, b, canceled, script, i + 1);
        var rest := DoFrom(max, b, canceled, script, i + 1);
        assert Waits(b, script, i) + ([w] + rest.waits) == Waits(b, script, i + 1) + rest.waits;
      }
    }
  }

  lemma WaitRange(b: Backoff, r: nat, j: nat)
    requires !b.Static? && InRange(b) && b.jitter >= 1 && b.max + b.jitter - 1 <= LIMIT_MS
    requires Draws(b, r) ==> j < b.jitter
    ensures Base(b, r) * MILLISECOND <= Next(b, r, j)
    ensures Next(b, r, j) <= (Base(b, r) + if Draws(b, r) then b.jitter - 1 else 0) * MILLISECOND
  {
    BaseRange(b, r);
    if Draws(b, r) {
      NextIsExact(b, r, j);
    } else {
      WrapExact(Base(b, r) * MILLISECOND);
    }
  }

  lemma TotalStep(b: Backoff, script: seq<Attempt>, n: nat)
    requires 0 < n <= |script| && Drawable(b, script)
    ensures Total(Waits(b, script, n)) == Total(Waits(b, script, n - 1)) + Next(b, n - 1, script[n - 1].jitter)
  {
    var waits := Waits(b, script, n);
    WaitsLength(b, script, n - 1);
    assert waits[..|waits| - 1] == Waits(b, script, n - 1);
  }

  /** n waits take between the sum of their bases and that sum plus all the jitter that could be drawn. */
  lemma {:induction false} WaitsBetween(b: Backoff, script: seq<Attempt>, n: nat)
    requires n <= |script| && Drawable(b, script) && !b.Static? && InRange(b)
    requires b.jitter >= 1 && b.max + b.jitter - 1 <= LIMIT_MS
    ensures SumBase(b, n) * MILLISECOND <= Total(Waits(b, script, n)) <= (SumBase(b, n) + MaxJitter(b, n)) * MILLISECOND
  {
    if n > 0 {
      WaitsBetween(b, script, n - 1);
      WaitRange(b, n - 1, script[n - 1].jitter);
      TotalStep(b, script, n);
    }
  }

  lemma {:induction false} WaitsLength(b: Backoff, script: seq<Attempt>, n: nat)
    requires n <= |script| && Drawable(b, script)
    ensures |Waits(b, script, n)| == n
  {
    if n > 0 {
      WaitsLength(b, script, n - 1);
    }
  }

  /** However a run of Do ends, its waits together lie between the sum of their bases and that sum plus at
      most jitter - 1 for each wait after the first (which is zero); the sum of the bases is at most as many
      caps. */
  lemma TotalWait(max: nat, b: Backoff, canceled: Error, script: seq<Attempt>)
    requires |script| >= max && Drawable(b, script) && !b.Static? && InRange(b)
    requires b.jitter >= 1 && b.max + b.jitter - 1 <= LIMIT_MS
    ensures var waits := DoFrom(max, b, canceled, script, 0).waits;
            var n := |waits|;
            && SumBase(b, n) * MILLISECOND <= Total(waits)
            && Total(waits) <= (SumBase(b, n) + MaxJitter(b, n)) * MILLISECOND
            && (n == 0 ==> Total(waits) == 0)
            && (n > 0 ==> MaxJitter(b, n) <= (n - 1) * (b.jitter - 1))
            && (n > 0 ==> SumBase(b, n) <= (n - 1) * b.max)
  {
    var waits := DoFrom(max, b, canceled, script, 0).waits;
    var n := |waits|;
    RunWaits(max, b, canceled, script, 0);
    assert Waits(b, script, 0) + waits == waits;
    WaitsBetween(b, script, n);
    if n > 0 {
      SumBaseCapped(b, n);
      MaxJitterBound(b, n);
    }
  }

  // ---------------------------------------------------------------- the loop

  /** After the passes before i, with these calls and waits behind it, the run comes to Do's outcome. */
  ghost predicate Tracks(max: nat, b: Backoff, canceled: Error, script: seq<Attempt>, i: nat, calls: nat, waits: seq<Int64>)
    requires |script| >= max && Drawable(b, script)
  {
    var rest := DoFrom(max, b, canceled, script, i);
    Outcome(rest.err, calls + rest.calls, waits + rest.waits) == DoFrom(max, b, canceled, script, 0)
  }

  lemma TracksOn(max: nat, b: Backoff, canceled: Error, script: seq<Attempt>, i: nat, calls: nat, waits: seq<Int64>)
    requires |script| >= max && Drawable(b, script) && i < max && Tracks(max, b, canceled, script, i, calls, waits)
    ensures var all := DoFrom(max, b, canceled, script, 0);
            var a := script[i];
            && (!a.live ==> all == Outcome(Some(canceled), calls, waits))
            && (a.live && !Fails(a) ==> all == Outcome(a.result, calls + 1, waits))
            && (a.live && Fails(a) ==>
                  var waited := waits + [Next(b, i, a.jitter)];
                  if a.fires then Tracks(max, b, canceled, script, i + 1, calls + 1, waited)
                  else all == Outcome(Some(canceled), calls + 1, waited))
  {
    var w := [Next(b, i, script[i].jitter)];
    var rest := DoFrom(max, b, canceled, script, i + 1);
    assert waits + (w + rest.waits) == waits + w + rest.waits;
  }

  method Do(max: nat, b: Backoff, canceled: Error, script: seq<Attempt>)
    returns (err: Option<Error>, calls: nat, waits: seq<Int64>)
    requires |script| >= max && Drawable(b, script)
    ensures Outcome(err, calls, waits) == DoFrom(max, b, canceled, script, 0)
    ensures calls <= max
  {
    calls, waits := 0, [];
    var i := 0;
    while i < max
      invariant 0 <= i <= max && calls == i
      invariant Tracks(max, b, canceled, script, i, calls, waits)
    {
      TracksOn(max, b, canceled, script, i, calls, waits);
      var a := script[i];
      if !a.live {
        return Some(canceled), calls, waits;
      }
      calls := calls + 1;
      if a.result.Some? {
        if !AsMark(a.result.value, true) && !AsMark(a.result.value, false) {
          return a.result, calls, waits;
        }
        waits := waits + [Next(b, i, a.jitter)];
        if !a.fires {
          return Some(canceled), calls, waits;
        }
        i := i + 1;
        continue;
      }
      return None, calls, waits;
    }
    err := Some(LIMIT_REACHED);
  }
}
