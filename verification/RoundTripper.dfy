/** The retrying HTTP round tripper: a bounded retry loop that owns response bodies and may sit on top of
    a circuit breaker. */
module RoundTripper {
  import opened Prelude
  import opened Strconv

  // ---------------------------------------------------------------- one request

  datatype Response = Response(id: nat, status: int, retryAfter: string)

  /** Errors of http.Client.Do, as far as the retry loop tells them apart. */
  datatype DoError = TooManyRedirects | BadScheme | UnknownAuthority | CircuitOpen | Transient

  /** What the wrapped client does when it is asked. A response that comes with an error has its body
      closed by net/http already. */
  datatype ClientReply =
    | Answers(status: int, retryAfter: string)
    | Fails(err: DoError)
    | FailsWithResponse(err: DoError)

  /** What doRequest hands to the retry loop. */
  datatype Reply =
    | Got(res: Response)
    | NoReply(err: DoError)
    | Rejected(err: DoError)

  /** A breaker that opens after `threshold` failures in a row and stays open; None is no breaker. */
  datatype Breaker = Breaker(threshold: nat, failures: nat)

  predicate IsOpen(b: Option<Breaker>) {
    b.Some? && b.value.failures >= b.value.threshold
  }

  predicate CountsAsFailure(r: ClientReply) {
    !r.Answers? || r.status >= 500
  }

  function Observe(b: Option<Breaker>, r: ClientReply): Option<Breaker> {
    if b.None? then None
    else Some(b.value.(failures := if CountsAsFailure(r) then b.value.failures + 1 else 0))
  }

  /** doRequest as a function: the reply for the loop and the breaker afterwards. An open breaker does not let the
      request through. */
  function Ask(b: Option<Breaker>, id: nat, r: ClientReply): (Reply, Option<Breaker>) {
    if IsOpen(b) then (NoReply(CircuitOpen), b)
    else
      (match r
       case Answers(status, after) => Got(Response(id, status, after))
       case Fails(e) => NoReply(e)
       case FailsWithResponse(e) => Rejected(e),
       Observe(b, r))
  }

  /** What the loop does with a reply. */
  datatype Verdict = Stop(err: DoError) | Done | Again(delay: Option<int>)

  function Classify(reply: Reply): Verdict {
    match reply
    case Rejected(e) => Stop(e)
    case NoReply(e) => if e == Transient then Again(None) else Stop(e)
    case Got(res) =>
      if res.status == 429 || res.status == 503 then
        var n := if res.retryAfter == "" then None else ParseInt(res.retryAfter);
        if n.Some? then Again(Some(Wrap64(n.value * SECOND))) else Again(None)
      else if res.status >= 500 && res.status != 501 then Again(None)
      else Done
  }

  // ---------------------------------------------------------------- a whole round trip

  datatype Event =
    | Issue(seen: string)
    | Contact
    | Opened(id: nat)
    | Closed(id: nat)
    | Slept(delay: int)

  datatype Failure = BodyUnreadable | ContextDone | CloseFailed | Surfaced(err: DoError)

  /** The two results of RoundTrip; Returns(None) is a nil response with a nil error. */
  datatype Result = Returns(res: Option<Response>) | Aborts(why: Failure)

  /** What the outside world does during one pass of the loop: whether the context is alive at the two
      checks, whether closing the previous body works, the client's reply, how much of the request body
      the client read, and whether the sleep ended by its timer. */
  datatype Attempt = Attempt(
    liveAtHead: bool, closes: bool, liveAfterClose: bool, reply: ClientReply, consumed: nat, wakes: bool)

  datatype RequestBody = NoBody | Unreadable | Bytes(text: string)

  datatype Outcome = Outcome(result: Result, trace: seq<Event>, breaker: Option<Breaker>)

  /** The request body as the client finds it when the reader stands at pos. */
  function Remaining(body: string, pos: nat): string {
    if pos <= |body| then body[pos..] else ""
  }

  /** The events of one request: it is issued with the whole body ahead of it, and reaches the server
      unless the breaker is open. */
  function Asked(b: Option<Breaker>, i: nat, body: string, reply: Reply): seq<Event> {
    [Issue(Remaining(body, 0))] + (if IsOpen(b) then [] else [Contact]) + if reply.Got? then [Opened(i)] else []
  }

  function Closing(held: Option<Response>): seq<Event> {
    if held.Some? then [Closed(held.value.id)] else []
  }

  function Kept(reply: Reply): Option<Response> {
    if reply.Got? then Some(reply.res) else None
  }

  /** What one pass of the loop does before it either ends the run or goes round again. */
  datatype Pass = Ended(o: Outcome) | Next(events: seq<Event>, held: Option<Response>, breaker: Option<Breaker>)

  function OnePass(backoff: nat -> int, a: Attempt, body: string, i: nat, held: Option<Response>, b: Option<Breaker>): Pass {
    if !a.liveAtHead then Ended(Outcome(Aborts(ContextDone), [], b))
    else if held.Some? && !a.closes then Ended(Outcome(Aborts(CloseFailed), Closing(held), b))
    else if !a.liveAfterClose then Ended(Outcome(Aborts(ContextDone), Closing(held), b))
    else
      var (reply, b') := Ask(b, i, a.reply);
      var events := Closing(held) + Asked(b, i, body, reply);
      match Classify(reply)
      case Stop(e) => Ended(Outcome(Aborts(Surfaced(e)), events, b'))
      case Done => Ended(Outcome(Returns(Kept(reply)), events, b'))
      case Again(delay) =>
        var slept := events + [Slept(if delay.Some? then delay.value else backoff(i))];
        if a.wakes then Next(slept, Kept(reply), b') else Ended(Outcome(Aborts(ContextDone), slept, b'))
  }

  /** The loop from attempt i on, with `held` the response of the attempt before. */
  function Rounds(max: nat, backoff: nat -> int, script: seq<Attempt>, body: string,
                  i: nat, held: Option<Response>, b: Option<Breaker>): Outcome
    requires |script| > max
    decreases max + 1 - i
  {
    if i > max then Outcome(Returns(held), [], b)
    else match OnePass(backoff, script[i], body, i, held, b)
      case Ended(o) => o
      case Next(events, held', b') =>
        var rest := Rounds(max, backoff, script, body, i + 1, held', b');
        rest.(trace := events + rest.trace)
  }

  function Trip(max: nat, backoff: nat -> int, script: seq<Attempt>, body: RequestBody, b: Option<Breaker>): Outcome
    requires |script| > max
  {
    if body.Unreadable? then Outcome(Aborts(BodyUnreadable), [], b)
    else Rounds(max, backoff, script, if body.Bytes? then body.text else "", 0, None, b)
  }

  // ---------------------------------------------------------------- which attempts are reached

  /** The attempt gets as far as its request: both checks pass, and the previous body closes if there is one. */
  predicate Asks(a: Attempt, held: Option<Response>) {
    a.liveAtHead && (held.Some? ==> a.closes) && a.liveAfterClose
  }

  /** The replies that are tried again: a transient transport error, 429, and every 5xx but 501. */
  predicate Retried(r: ClientReply) {
    || r == Fails(Transient)
    || (r.Answers? && (r.status == 429 || (r.status >= 500 && r.status != 501)))
  }

  /** The response an attempt obtains. */
  function Obtained(r: ClientReply, i: nat): Option<Response> {
    if r.Answers? then Some(Response(i, r.status, r.retryAfter)) else None
  }

  /** The request of the attempt reaches the server. */
  predicate Reaches(a: Attempt, held: Option<Response>, b: Option<Breaker>) {
    Asks(a, held) && !IsOpen(b)
  }

  /** What the loop holds when it goes round again after attempt i; None when the attempt ends the run. */
  function Onward(a: Attempt, i: nat, held: Option<Response>, b: Option<Breaker>): Option<(Option<Response>, Option<Breaker>)> {
    if Reaches(a, held, b) && Retried(a.reply) && a.wakes then Some((Obtained(a.reply, i), Observe(b, a.reply))) else None
  }

  /** What the loop holds when it arrives, from attempt i, at attempt k; None when it ends before. */
  function Arrives(script: seq<Attempt>, i: nat, held: Option<Response>, b: Option<Breaker>, k: nat)
    : Option<(Option<Response>, Option<Breaker>)>
    requires i <= k <= |script|
    decreases k - i
  {
    if i == k then Some((held, b))
    else match Onward(script[i], i, held, b)
      case None => None
      case Some(at) => Arrives(script, i + 1, at.0, at.1, k)
  }

  lemma {:induction false} ArrivesNext(script: seq<Attempt>, i: nat, held: Option<Response>, b: Option<Breaker>, k: nat)
    requires i <= k < |script|
    ensures var at := Arrives(script, i, held, b, k);
            Arrives(script, i, held, b, k + 1) == if at.None? then None else Onward(script[k], k, at.value.0, at.value.1)
    decreases k - i
  {
    if i < k && Onward(script[i], i, held, b).Some? {
      var at := Onward(script[i], i, held, b).value;
      ArrivesNext(script, i + 1, at.0, at.1, k);
    }
  }

  /** Whoever arrives at k has passed every attempt before it. */
  lemma {:induction false} ArrivesThrough(
    script: seq<Attempt>, i: nat, held: Option<Response>, b: Option<Breaker>, j: nat, k: nat)
    requires i <= j <= k <= |script| && Arrives(script, i, held, b, k).Some?
    ensures Arrives(script, i, held, b, j).Some?
    ensures j < k ==> var at := Arrives(script, i, held, b, j).value; Onward(script[j], j, at.0, at.1).Some?
    decreases k - j
  {
    if j < k {
      ArrivesThrough(script, i, held, b, j + 1, k);
      ArrivesNext(script, i, held, b, j);
    }
  }

  lemma PassGoesOn(backoff: nat -> int, a: Attempt, body: string, i: nat, held: Option<Response>, b: Option<Breaker>)
    ensures var pass := OnePass(backoff, a, body, i, held, b);
            && (pass.Next? <==> Onward(a, i, held, b).Some?)
            && (pass.Next? ==> Onward(a, i, held, b) == Some((pass.held, pass.breaker)))
  {
  }

  // ---------------------------------------------------------------- who owns the response bodies

  /** Plays a trace from a set of open bodies; None as soon as a request is issued while a body is open, a
      body is closed that is not open, or an id below `next` is opened (ids are used once). */
  function Walk(open: set<nat>, next: nat, trace: seq<Event>): Option<(set<nat>, nat)>
    decreases trace
  {
    if trace == [] then Some((open, next))
    else match trace[0]
      case Issue(_) => if open != {} then None else Walk(open, next, trace[1..])
      case Opened(id) => if id < next then None else Walk(open + {id}, id + 1, trace[1..])
      case Closed(id) => if id !in open then None else Walk(open - {id}, next, trace[1..])
      case Contact => Walk(open, next, trace[1..])
      case Slept(_) => Walk(open, next, trace[1..])
  }

  lemma {:induction false} WalkAppend(open: set<nat>, next: nat, a: seq<Event>, b: seq<Event>)
    ensures Walk(open, next, a + b) ==
            if Walk(open, next, a).None? then None
            else Walk(Walk(open, next, a).value.0, Walk(open, next, a).value.1, b)
    decreases a
  {
    if a == [] {
      assert a + b == b;
    } else {
      assert (a + b)[1..] == a[1..] + b;
      match a[0]
      case Issue(_) => WalkAppend(open, next, a[1..], b);
      case Opened(id) => WalkAppend(open + {id}, id + 1, a[1..], b);
      case Closed(id) => WalkAppend(open - {id}, next, a[1..], b);
      case Contact => WalkAppend(open, next, a[1..], b);
      case Slept(_) => WalkAppend(open, next, a[1..], b);
    }
  }

  function Held(r: Option<Response>): set<nat> {
    if r.Some? then {r.value.id} else {}
  }

  /** Attempt k, once reached, obtains a response that is to be retried, and the context ends while the loop
      sleeps on it or right after. */
  predicate LeaksAt(max: nat, script: seq<Attempt>, k: nat, held: Option<Response>, b: Option<Breaker>)
    requires k <= max < |script|
  {
    && Reaches(script[k], held, b) && script[k].reply.Answers? && Retried(script[k].reply)
    && (!script[k].wakes || (k < max && !script[k + 1].liveAtHead))
  }

  /** One of the attempts from i on is reached and leaks. */
  ghost predicate Leaks(max: nat, script: seq<Attempt>, i: nat, held: Option<Response>, b: Option<Breaker>)
    requires max < |script|
  {
    exists k :: i <= k <= max &&
      var at := Arrives(script, i, held, b, k);
      at.Some? && LeaksAt(max, script, k, at.value.0, at.value.1)
  }

  /** The bodies still open when a run ends: that of a returned response, or the one leaked. */
  predicate Settled(o: Outcome, open: set<nat>, leaks: bool) {
    match o.result
    case Returns(r) => open == Held(r) && !leaks
    case Aborts(why) => |open| <= 1 && (open != {} <==> leaks) && (leaks ==> why == ContextDone)
  }

  lemma ClosingWalks(held: Option<Response>, next: nat)
    ensures Walk(Held(held), next, Closing(held)) == Some(({}, next))
  {
    if held.Some? {
      assert Held(held) - {held.value.id} == {};
      assert Closing(held)[1..] == [];
    }
  }

  lemma AskedWalks(b: Option<Breaker>, next: nat, i: nat, body: string, reply: Reply)
    requires next <= i && (reply.Got? ==> reply.res.id == i)
    ensures Walk({}, next, Asked(b, i, body, reply)) == Some((Held(Kept(reply)), if reply.Got? then i + 1 else next))
  {
    var opening := if reply.Got? then [Opened(i)] else [];
    var reaching := if IsOpen(b) then [] else [Contact];
    assert Asked(b, i, body, reply)[1..] == reaching + opening;
    assert Walk({}, next, Asked(b, i, body, reply)) == Walk({}, next, reaching + opening);
    assert Walk({}, next, reaching + opening) == Walk({}, next, opening) by {
      if IsOpen(b) {
        assert reaching + opening == opening;
      } else {
        assert (reaching + opening)[1..] == opening;
      }
    }
    if reply.Got? {
      assert opening[1..] == [];
      assert Walk({}, next, opening) == Walk({} + {i}, i + 1, []);
      assert Held(Kept(reply)) == {} + {i};
    }
  }

  /** One pass of the loop that gets as far as a reply. */
  lemma PassWalks(held: Option<Response>, b: Option<Breaker>, next: nat, i: nat, body: string, reply: Reply)
    requires next <= i && (reply.Got? ==> reply.res.id == i)
    ensures Walk(Held(held), next, Closing(held) + Asked(b, i, body, reply)) ==
            Some((Held(Kept(reply)), if reply.Got? then i + 1 else next))
  {
    ClosingWalks(held, next);
    AskedWalks(b, next, i, body, reply);
    WalkAppend(Held(held), next, Closing(held), Asked(b, i, body, reply));
  }

  lemma SleepWalks(open: set<nat>, next: nat, trace: seq<Event>, d: int)
    ensures Walk(open, next, trace + [Slept(d)]) == Walk(open, next, trace)
  {
    assert [Slept(d)][1..] == [];
    WalkAppend(open, next, trace, [Slept(d)]);
  }

  /** The context ends at the head of this pass while a body is held, or in its sleep on a response. */
  predicate PassLeaks(a: Attempt, i: nat, held: Option<Response>, b: Option<Breaker>) {
    || (held.Some? && !a.liveAtHead)
    || (Reaches(a, held, b) && a.reply.Answers? && Retried(a.reply) && !a.wakes)
  }

  predicate PassSettles(pass: Pass, a: Attempt, i: nat, held: Option<Response>, b: Option<Breaker>, next: nat) {
    match pass
    case Ended(o) =>
      var w := Walk(Held(held), next, o.trace);
      w.Some? && Settled(o, w.value.0, PassLeaks(a, i, held, b))
    case Next(events, held', _) =>
      var w := Walk(Held(held), next, events);
      w.Some? && w.value.0 == Held(held') && w.value.1 <= i + 1
  }

  lemma PassOwnsBodies(
    backoff: nat -> int, a: Attempt, body: string, i: nat, held: Option<Response>, b: Option<Breaker>, next: nat)
    requires next <= i
    ensures PassSettles(OnePass(backoff, a, body, i, held, b), a, i, held, b, next)
  {
    if !a.liveAtHead {
    } else if (held.Some? && !a.closes) || !a.liveAfterClose {
      ClosingWalks(held, next);
    } else {
      var (reply, b') := Ask(b, i, a.reply);
      PassWalks(held, b, next, i, body, reply);
      var v := Classify(reply);
      if v.Again? {
        var d := if v.delay.Some? then v.delay.value else backoff(i);
        SleepWalks(Held(held), next, Closing(held) + Asked(b, i, body, reply), d);
      }
    }
  }

  /** A leak is at attempt i, or further on if attempt i leads on. */
  lemma LeaksUnfold(max: nat, script: seq<Attempt>, i: nat, held: Option<Response>, b: Option<Breaker>)
    requires i <= max < |script|
    ensures var at := Onward(script[i], i, held, b);
            Leaks(max, script, i, held, b) <==>
            LeaksAt(max, script, i, held, b) || (at.Some? && Leaks(max, script, i + 1, at.value.0, at.value.1))
  {
    var on := Onward(script[i], i, held, b);
    if LeaksAt(max, script, i, held, b) {
      assert Arrives(script, i, held, b, i) == Some((held, b));
    } else if Leaks(max, script, i, held, b) {
      var k :| i <= k <= max &&
        var at := Arrives(script, i, held, b, k);
        at.Some? && LeaksAt(max, script, k, at.value.0, at.value.1);
      assert k > i && on.Some?;
      assert Arrives(script, i, held, b, k) == Arrives(script, i + 1, on.value.0, on.value.1, k);
    }
    if on.Some? && Leaks(max, script, i + 1, on.value.0, on.value.1) {
      var k :| i + 1 <= k <= max &&
        var at := Arrives(script, i + 1, on.value.0, on.value.1, k);
        at.Some? && LeaksAt(max, script, k, at.value.0, at.value.1);
      assert Arrives(script, i, held, b, k) == Arrives(script, i + 1, on.value.0, on.value.1, k);
    }
  }

  lemma {:induction false} RoundsOwnBodies(
    max: nat, backoff: nat -> int, script: seq<Attempt>, body: string, i: nat, held: Option<Response>, b: Option<Breaker>,
    next: nat)
    requires |script| > max && next <= i <= max + 1
    ensures var o := Rounds(max, backoff, script, body, i, held, b);
            var w := Walk(Held(held), next, o.trace);
            && w.Some?
            && Settled(o, w.value.0, (i <= max && held.Some? && !script[i].liveAtHead) || Leaks(max, script, i, held, b))
    decreases max + 1 - i
  {
    if i <= max {
      PassOwnsBodies(backoff, script[i], body, i, held, b, next);
      PassGoesOn(backoff, script[i], body, i, held, b);
      LeaksUnfold(max, script, i, held, b);
      match OnePass(backoff, script[i], body, i, held, b)
      case Ended(_) =>
      case Next(events, held', b') =>
        var w := Walk(Held(held), next, events).value;
        RoundsOwnBodies(max, backoff, script, body, i + 1, held', b', w.1);
        WalkAppend(Held(held), next, events, Rounds(max, backoff, script, body, i + 1, held', b').trace);
    }
  }

  /** On every run: no body is open when a request is issued, each body is closed at most once, and a
      returned response is the open one. A run leaves the body of a response open that it does not return
      exactly when some attempt is reached, obtains a response that is to be retried, and the context ends
      while the loop sleeps on it or before the next attempt closes it. */
  lemma ResponseOwnership(max: nat, backoff: nat -> int, script: seq<Attempt>, body: RequestBody, b: Option<Breaker>)
    requires |script| > max
    ensures var o := Trip(max, backoff, script, body, b);
            var w := Walk({}, 0, o.trace);
            w.Some? && Settled(o, w.value.0, !body.Unreadable? && Leaks(max, script, 0, None, b))
  {
    if !body.Unreadable? {
      RoundsOwnBodies(max, backoff, script, if body.Bytes? then body.text else "", 0, None, b, 0);
    }
  }

  /** Such a body does stay open: the context ends while the loop sleeps on a 503. */
  lemma SleepingRunLeaksBody(backoff: nat -> int)
    ensures var script := [Attempt(true, true, true, Answers(503, ""), 0, false)];
            var o := Trip(0, backoff, script, NoBody, None);
            && o.result == Aborts(ContextDone)
            && Walk({}, 0, o.trace).Some? && Walk({}, 0, o.trace).value.0 == {0}
  {
    var script := [Attempt(true, true, true, Answers(503, ""), 0, false)];
    ResponseOwnership(0, backoff, script, NoBody, None);
    var o := Trip(0, backoff, script, NoBody, None);
    assert o.trace == [Issue(""), Contact, Opened(0), Slept(backoff(0))];
    PassWalks(None, None, 0, 0, "", Got(Response(0, 503, "")));
    assert o.trace[..3] == Closing(None) + Asked(None, 0, "", Got(Response(0, 503, "")));
    assert o.trace == o.trace[..3] + [Slept(backoff(0))];
    SleepWalks({}, 0, o.trace[..3], backoff(0));
  }

  // ---------------------------------------------------------------- when the loop stops

  /** The statuses that are tried again are 429 and every 5xx but 501; a Retry-After of n seconds sets the
      wait, exactly as long as n seconds fit a time.Duration. */
  lemma RetriedStatuses(id: nat, status: int, n: Int64)
    requires n >= 0
    ensures Classify(Got(Response(id, status, ""))) ==
            if status == 429 || (status >= 500 && status != 501) then Again(None) else Done
    ensures var v := Classify(Got(Response(id, status, FormatNat(n))));
            && (v.Again? <==> status == 429 || (status >= 500 && status != 501))
            && (v.Again? ==> (v.delay.Some? <==> status == 429 || status == 503))
            && (v.Again? && v.delay.Some? ==> (v.delay.value == n * SECOND <==> n <= 9_223_372_036))
  {
    ParseFormat(n);
    WrapExact(n * SECOND);
  }

  function Count(trace: seq<Event>, what: Event -> bool): nat {
    if trace == [] then 0 else (if what(trace[0]) then 1 else 0) + Count(trace[1..], what)
  }

  lemma {:induction false} CountAppend(a: seq<Event>, b: seq<Event>, what: Event -> bool)
    ensures Count(a + b, what) == Count(a, what) + Count(b, what)
  {
    if a == [] {
      assert a + b == b;
    } else {
      assert (a + b)[1..] == a[1..] + b;
      CountAppend(a[1..], b, what);
    }
  }

  function Requests(trace: seq<Event>): nat {
    Count(trace, (e: Event) => e.Issue?)
  }

  function Contacts(trace: seq<Event>): nat {
    Count(trace, (e: Event) => e.Contact?)
  }

  /** One pass issues at most one request, and one that goes round again exactly one; it contacts the
      server only through a closed breaker. */
  lemma PassCounts(backoff: nat -> int, a: Attempt, body: string, i: nat, held: Option<Response>, b: Option<Breaker>)
    ensures var pass := OnePass(backoff, a, body, i, held, b);
            var events := if pass.Ended? then pass.o.trace else pass.events;
            && Contacts(events) == (if Reaches(a, held, b) then 1 else 0)
            && Requests(events) == (if Asks(a, held) then 1 else 0)
  {
    var (reply, _) := Ask(b, i, a.reply);
    var d := if Classify(reply).Again? && Classify(reply).delay.Some? then Classify(reply).delay.value else backoff(i);
    PassEventCounts(held, b, i, body, reply, d, (e: Event) => e.Issue?);
    PassEventCounts(held, b, i, body, reply, d, (e: Event) => e.Contact?);
  }

  lemma PassSeesBody(backoff: nat -> int, a: Attempt, body: string, i: nat, held: Option<Response>, b: Option<Breaker>)
    ensures var pass := OnePass(backoff, a, body, i, held, b);
            SeesBody(if pass.Ended? then pass.o.trace else pass.events, body)
  {
    var (reply, _) := Ask(b, i, a.reply);
    assert Remaining(body, 0) == body;
    assert SeesBody(Closing(held), body);
    assert SeesBody(Asked(b, i, body, reply), body);
    assert SeesBody(Closing(held) + Asked(b, i, body, reply), body);
  }

  /** Every request was issued with the whole body ahead of it. */
  ghost predicate SeesBody(trace: seq<Event>, body: string) {
    forall e :: e in trace && e.Issue? ==> e.seen == body
  }

  lemma PassEventCounts(
    held: Option<Response>, b: Option<Breaker>, i: nat, body: string, reply: Reply, d: int, what: Event -> bool)
    requires !what(Closed(if held.Some? then held.value.id else 0)) && !what(Opened(i)) && !what(Slept(d))
    ensures var n := (if what(Issue(body)) then 1 else 0) + if !IsOpen(b) && what(Contact) then 1 else 0;
            var pass := Closing(held) + Asked(b, i, body, reply);
            Count(Closing(held), what) == 0 && Count(pass, what) == n && Count(pass + [Slept(d)], what) == n
  {
    SmallCounts(held, b, i, body, reply, what);
    CountAppend(Closing(held), Asked(b, i, body, reply), what);
    CountOne(Slept(d), what);
    CountAppend(Closing(held) + Asked(b, i, body, reply), [Slept(d)], what);
  }

  lemma CountOne(e: Event, what: Event -> bool)
    ensures Count([e], what) == if what(e) then 1 else 0
  {
    assert [e][1..] == [];
  }

  lemma SmallCounts(held: Option<Response>, b: Option<Breaker>, i: nat, body: string, reply: Reply, what: Event -> bool)
    ensures Count(Closing(held), what) == if held.Some? && what(Closed(held.value.id)) then 1 else 0
    ensures Count(Asked(b, i, body, reply), what) ==
            (if what(Issue(body)) then 1 else 0) + (if !IsOpen(b) && what(Contact) then 1 else 0)
            + if reply.Got? && what(Opened(i)) then 1 else 0
  {
    if held.Some? {
      CountOne(Closed(held.value.id), what);
    }
    CountOne(Issue(body), what);
    CountOne(Contact, what);
    CountOne(Opened(i), what);
    var contact := if IsOpen(b) then [] else [Contact];
    var opening := if reply.Got? then [Opened(i)] else [];
    assert Remaining(body, 0) == body;
    CountAppend([Issue(body)] + contact, opening, what);
    CountAppend([Issue(body)], contact, what);
  }

  /** How a run ends at attempt i, the one it does not go on from. */
  function LastResult(a: Attempt, i: nat, held: Option<Response>, b: Option<Breaker>): Result {
    if a.liveAtHead && held.Some? && !a.closes then Aborts(CloseFailed)
    else if !Asks(a, held) then Aborts(ContextDone)
    else if IsOpen(b) then Aborts(Surfaced(CircuitOpen))
    else if Retried(a.reply) && !a.wakes then Aborts(ContextDone)
    else if Retried(a.reply) || a.reply.Answers? then Returns(Obtained(a.reply, i))
    else Aborts(Surfaced(a.reply.err))
  }

  /** A run that goes on from attempt i: one request and one contact, and then the rest. */
  lemma FirstRound(
    max: nat, backoff: nat -> int, script: seq<Attempt>, body: string, i: nat, held: Option<Response>, b: Option<Breaker>)
    requires |script| > max && i < max && Onward(script[i], i, held, b).Some?
    ensures var on := Onward(script[i], i, held, b).value;
            var o, rest := Rounds(max, backoff, script, body, i, held, b), Rounds(max, backoff, script, body, i + 1, on.0, on.1);
            && o.result == rest.result && o.breaker == rest.breaker
            && Requests(o.trace) == 1 + Requests(rest.trace) && Contacts(o.trace) == 1 + Contacts(rest.trace)
  {
    PassCounts(backoff, script[i], body, i, held, b);
    PassGoesOn(backoff, script[i], body, i, held, b);
    var pass := OnePass(backoff, script[i], body, i, held, b);
    var rest := Rounds(max, backoff, script, body, i + 1, pass.held, pass.breaker);
    CountAppend(pass.events, rest.trace, (e: Event) => e.Issue?);
    CountAppend(pass.events, rest.trace, (e: Event) => e.Contact?);
  }

  /** A run whose last attempt is i. */
  lemma LastRound(
    max: nat, backoff: nat -> int, script: seq<Attempt>, body: string, i: nat, held: Option<Response>, b: Option<Breaker>)
    requires |script| > max && i <= max && (i < max ==> Onward(script[i], i, held, b).None?)
    ensures var o := Rounds(max, backoff, script, body, i, held, b);
            && o.result == LastResult(script[i], i, held, b)
            && Requests(o.trace) == (if Asks(script[i], held) then 1 else 0)
            && Contacts(o.trace) == (if Reaches(script[i], held, b) then 1 else 0)
            && o.breaker == if Reaches(script[i], held, b) then Observe(b, script[i].reply) else b
  {
    PassCounts(backoff, script[i], body, i, held, b);
    PassGoesOn(backoff, script[i], body, i, held, b);
    var pass := OnePass(backoff, script[i], body, i, held, b);
    if pass.Next? {
      assert Rounds(max, backoff, script, body, i + 1, pass.held, pass.breaker).trace == [];
      assert pass.events + [] == pass.events;
    }
  }

  /** Every run ends at the first attempt it does not go on from, or else at attempt maxAttempts, with that
      attempt's own outcome and with one request for every attempt that got so far. A response that is not
      retried is returned, and any error but a transient one surfaces as it is. */
  lemma {:induction false} StopsAtFirstFinal(
    max: nat, backoff: nat -> int, script: seq<Attempt>, body: string, i: nat, held: Option<Response>, b: Option<Breaker>)
    returns (k: nat)
    requires |script| > max && i <= max
    ensures i <= k <= max
    ensures var at := Arrives(script, i, held, b, k);
            var o := Rounds(max, backoff, script, body, i, held, b);
            && at.Some?
            && (k < max ==> Onward(script[k], k, at.value.0, at.value.1).None?)
            && o.result == LastResult(script[k], k, at.value.0, at.value.1)
            && Requests(o.trace) == k - i + (if Asks(script[k], at.value.0) then 1 else 0)
            && Contacts(o.trace) == k - i + (if Reaches(script[k], at.value.0, at.value.1) then 1 else 0)
            && o.breaker == if Reaches(script[k], at.value.0, at.value.1) then Observe(at.value.1, script[k].reply)
                            else at.value.1
    decreases max - i
  {
    k := i;
    var on := Onward(script[i], i, held, b);
    if on.Some? && i < max {
      k := StopsAtFirstFinal(max, backoff, script, body, i + 1, on.value.0, on.value.1);
      FirstRound(max, backoff, script, body, i, held, b);
    } else {
      LastRound(max, backoff, script, body, i, held, b);
    }
  }

  // ---------------------------------------------------------------- how long the loop waits

  /** Every sleep of a trace, with the number of requests issued before it. */
  function Sleeps(trace: seq<Event>, issued: nat): seq<(nat, int)> {
    if trace == [] then []
    else match trace[0]
      case Issue(_) => Sleeps(trace[1..], issued + 1)
      case Slept(d) => [(issued, d)] + Sleeps(trace[1..], issued)
      case _ => Sleeps(trace[1..], issued)
  }

  lemma {:induction false} SleepsAppend(a: seq<Event>, b: seq<Event>, issued: nat)
    ensures Sleeps(a + b, issued) == Sleeps(a, issued) + Sleeps(b, issued + Requests(a))
  {
    if a == [] {
      assert a + b == b;
    } else {
      assert (a + b)[1..] == a[1..] + b;
      SleepsAppend(a[1..], b, if a[0].Issue? then issued + 1 else issued);
    }
  }

  /** d is how long attempt j has to wait: a 429 or 503 whose Retry-After is a number of seconds waits that
      long, as far as the seconds fit a time.Duration; whatever else is retried waits as the backoff says. */
  ghost predicate RightWait(backoff: nat -> int, r: ClientReply, j: nat, d: int) {
    && (forall n: nat :: r.Answers? && r.status in {429, 503} && r.retryAfter == FormatNat(n) && n <= 9_223_372_036 ==>
          d == n * 1_000_000_000)
    && (r.Answers? && r.status in {429, 503} && ParseInt(r.retryAfter).Some? ==>
          d == Wrap64(ParseInt(r.retryAfter).value * 1_000_000_000))
    && (!r.Answers? || r.status !in {429, 503} || ParseInt(r.retryAfter).None? ==> d == backoff(j))
  }

  lemma DelayIsRight(backoff: nat -> int, b: Option<Breaker>, j: nat, r: ClientReply)
    requires !IsOpen(b) && Retried(r)
    ensures var v := Classify(Ask(b, j, r).0);
            v.Again? && RightWait(backoff, r, j, if v.delay.Some? then v.delay.value else backoff(j))
  {
    if r.Answers? {
      forall n: nat | r.retryAfter == FormatNat(n) && n <= 9_223_372_036
        ensures ParseInt(r.retryAfter) == Some(n) && Wrap64(n * SECOND) == n * 1_000_000_000 && r.retryAfter != ""
      {
        ParseFormat(n);
        WrapExact(n * SECOND);
      }
    }
  }

  lemma AskedSleepsNot(held: Option<Response>, b: Option<Breaker>, i: nat, body: string, reply: Reply)
    ensures var events := Closing(held) + Asked(b, i, body, reply);
            Sleeps(Closing(held), i) == [] && Sleeps(events, i) == [] && Requests(events) == 1
  {
    var contact := if IsOpen(b) then [] else [Contact];
    var opening := if reply.Got? then [Opened(i)] else [];
    var issue := [Issue(Remaining(body, 0))];
    assert Closing(held) != [] ==> Closing(held)[1..] == [];
    assert issue[1..] == [] && [Contact][1..] == [] && [Opened(i)][1..] == [];
    SleepsAppend(issue + contact, opening, i);
    SleepsAppend(issue, contact, i);
    SleepsAppend(Closing(held), Asked(b, i, body, reply), i);
    PassEventCounts(held, b, i, body, reply, 0, (e: Event) => e.Issue?);
    assert Sleeps(opening, i + 1) == [] && Sleeps(contact, i + 1) == [];
  }

  /** A pass sleeps once if its request reaches the server and is to be retried, and otherwise not at all. */
  lemma PassSleeps(backoff: nat -> int, a: Attempt, body: string, i: nat, held: Option<Response>, b: Option<Breaker>)
    ensures var pass := OnePass(backoff, a, body, i, held, b);
            var sleeps := Sleeps(if pass.Ended? then pass.o.trace else pass.events, i);
            if Reaches(a, held, b) && Retried(a.reply) then
              |sleeps| == 1 && sleeps[0].0 == i + 1 && RightWait(backoff, a.reply, i, sleeps[0].1)
            else sleeps == []
  {
    var (reply, _) := Ask(b, i, a.reply);
    AskedSleepsNot(held, b, i, body, reply);
    if Reaches(a, held, b) && Retried(a.reply) {
      DelayIsRight(backoff, b, i, a.reply);
      var v := Classify(reply);
      OneMoreSleep(held, b, i, body, reply, if v.delay.Some? then v.delay.value else backoff(i));
    }
  }

  lemma OneMoreSleep(held: Option<Response>, b: Option<Breaker>, i: nat, body: string, reply: Reply, d: int)
    ensures Sleeps(Closing(held) + Asked(b, i, body, reply) + [Slept(d)], i) == [(i + 1, d)]
  {
    AskedSleepsNot(held, b, i, body, reply);
    SleepsAppend(Closing(held) + Asked(b, i, body, reply), [Slept(d)], i);
    assert [Slept(d)][1..] == [];
  }

  /** The sleeps of a run from attempt i on are those of the attempts it arrives at, one each and in order. */
  ghost predicate SleepsRightly(backoff: nat -> int, script: seq<Attempt>, i: nat, sleeps: seq<(nat, int)>)
    requires i + |sleeps| <= |script|
  {
    forall j :: 0 <= j < |sleeps| ==>
      sleeps[j].0 == i + j + 1 && Retried(script[i + j].reply) && RightWait(backoff, script[i + j].reply, i + j, sleeps[j].1)
  }

  /** One request with its sleep in front of a trace that sleeps rightly. */
  lemma SleepsJoin(backoff: nat -> int, script: seq<Attempt>, i: nat, events: seq<Event>, more: seq<Event>)
    requires Requests(events) == 1 && |Sleeps(events, i)| == 1 && i + 1 + |Sleeps(more, i + 1)| <= |script|
    requires SleepsRightly(backoff, script, i, Sleeps(events, i)) && SleepsRightly(backoff, script, i + 1, Sleeps(more, i + 1))
    ensures Sleeps(events + more, i) == Sleeps(events, i) + Sleeps(more, i + 1)
    ensures SleepsRightly(backoff, script, i, Sleeps(events + more, i))
  {
    SleepsAppend(events, more, i);
    var all, rest := Sleeps(events + more, i), Sleeps(more, i + 1);
    forall j | 0 <= j < |all|
      ensures all[j].0 == i + j + 1 && Retried(script[i + j].reply)
              && RightWait(backoff, script[i + j].reply, i + j, all[j].1)
    {
      if j > 0 {
        assert all[j] == rest[j - 1] && i + 1 + (j - 1) == i + j;
      }
    }
  }

  /** A pass, told by the events it leaves and by where it leads. */
  lemma PassSummary(backoff: nat -> int, a: Attempt, body: string, i: nat, held: Option<Response>, b: Option<Breaker>)
    returns (events: seq<Event>)
    ensures var pass := OnePass(backoff, a, body, i, held, b);
            && events == (if pass.Ended? then pass.o.trace else pass.events)
            && (pass.Next? <==> Onward(a, i, held, b).Some?)
            && (pass.Next? ==> Onward(a, i, held, b) == Some((pass.held, pass.breaker)) && Requests(events) == 1)
    ensures var sleeps := Sleeps(events, i);
            if Reaches(a, held, b) && Retried(a.reply) then
              |sleeps| == 1 && sleeps[0].0 == i + 1 && RightWait(backoff, a.reply, i, sleeps[0].1)
            else sleeps == []
  {
    PassSleeps(backoff, a, body, i, held, b);
    PassCounts(backoff, a, body, i, held, b);
    PassGoesOn(backoff, a, body, i, held, b);
    var pass := OnePass(backoff, a, body, i, held, b);
    events := if pass.Ended? then pass.o.trace else pass.events;
  }

  /** A run, told by its first pass and what follows it. */
  lemma RoundSummary(
    max: nat, backoff: nat -> int, script: seq<Attempt>, body: string, i: nat, held: Option<Response>, b: Option<Breaker>)
    returns (events: seq<Event>)
    requires |script| > max && i <= max
    ensures var on := Onward(script[i], i, held, b);
            var trace := Rounds(max, backoff, script, body, i, held, b).trace;
            && (on.Some? ==> Requests(events) == 1)
            && (if on.Some? && i < max then
                  trace == events + Rounds(max, backoff, script, body, i + 1, on.value.0, on.value.1).trace
                else trace == events)
    ensures |Sleeps(events, i)| == (if Reaches(script[i], held, b) && Retried(script[i].reply) then 1 else 0)
    ensures SleepsRightly(backoff, script, i, Sleeps(events, i))
  {
    events := PassSummary(backoff, script[i], body, i, held, b);
    var on := Onward(script[i], i, held, b);
    if on.Some? && i == max {
      assert Rounds(max, backoff, script, body, i + 1, on.value.0, on.value.1).trace == [];
      assert events + [] == events;
    }
  }

  /** The loop sleeps exactly once after every attempt that reaches the server and is to be retried, the
      last one included, before the next request, and for the right time. */
  lemma {:induction false} SleepsAreRight(
    max: nat, backoff: nat -> int, script: seq<Attempt>, body: string, i: nat, held: Option<Response>, b: Option<Breaker>)
    returns (k: nat)
    requires |script| > max && i <= max
    ensures i <= k <= max && Arrives(script, i, held, b, k).Some?
    ensures var at := Arrives(script, i, held, b, k).value;
            var sleeps := Sleeps(Rounds(max, backoff, script, body, i, held, b).trace, i);
            && (k < max ==> Onward(script[k], k, at.0, at.1).None?)
            && |sleeps| == k - i + (if Reaches(script[k], at.0, at.1) && Retried(script[k].reply) then 1 else 0)
            && SleepsRightly(backoff, script, i, sleeps)
    decreases max - i
  {
    var events := RoundSummary(max, backoff, script, body, i, held, b);
    k := i;
    var on := Onward(script[i], i, held, b);
    if on.Some? && i < max {
      var more := Rounds(max, backoff, script, body, i + 1, on.value.0, on.value.1).trace;
      k := SleepsAreRight(max, backoff, script, body, i + 1, on.value.0, on.value.1);
      SleepsJoin(backoff, script, i, events, more);
    }
  }

  /** On every round trip the j-th sleep is that of attempt j, after its request and before the next one: n
      seconds when it was answered 429 or 503 with n seconds of Retry-After, and the backoff's j-th wait when
      it was retried for anything else. */
  lemma TripSleeps(max: nat, backoff: nat -> int, script: seq<Attempt>, body: RequestBody, b: Option<Breaker>)
    requires |script| > max
    ensures var sleeps := Sleeps(Trip(max, backoff, script, body, b).trace, 0);
            |sleeps| <= max + 1 && SleepsRightly(backoff, script, 0, sleeps)
  {
    if !body.Unreadable? {
      var k := SleepsAreRight(max, backoff, script, if body.Bytes? then body.text else "", 0, None, b);
    }
  }

  // ---------------------------------------------------------------- how the loop ends

  /** A run that arrives at attempt k and does not go on from it, or has no further one, ends as k does. */
  lemma EndsAt(
    max: nat, backoff: nat -> int, script: seq<Attempt>, body: string, i: nat, held: Option<Response>, b: Option<Breaker>,
    k: nat)
    requires |script| > max && i <= k <= max && Arrives(script, i, held, b, k).Some?
    requires var at := Arrives(script, i, held, b, k).value; k < max ==> Onward(script[k], k, at.0, at.1).None?
    ensures var at := Arrives(script, i, held, b, k).value;
            Rounds(max, backoff, script, body, i, held, b).result == LastResult(script[k], k, at.0, at.1)
  {
    var j := StopsAtFirstFinal(max, backoff, script, body, i, held, b);
    if j < k {
      ArrivesThrough(script, i, held, b, j, k);
    } else if k < j {
      ArrivesThrough(script, i, held, b, k, j);
    }
  }

  /** RoundTrip returns neither a response nor an error exactly when every attempt before the last is
      retried and the last one gets no reply but a transient error, and sleeps its wait out. */
  lemma NilResponseIff(max: nat, backoff: nat -> int, script: seq<Attempt>, body: RequestBody, b: Option<Breaker>)
    requires |script| > max
    ensures Trip(max, backoff, script, body, b).result == Returns(None) <==>
            && !body.Unreadable?
            && var at := Arrives(script, 0, None, b, max);
            && at.Some?
            && Reaches(script[max], at.value.0, at.value.1)
            && script[max].reply == Fails(Transient) && script[max].wakes
  {
    if !body.Unreadable? {
      var text := if body.Bytes? then body.text else "";
      var k := StopsAtFirstFinal(max, backoff, script, text, 0, None, b);
      if Arrives(script, 0, None, b, max).Some? {
        EndsAt(max, backoff, script, text, 0, None, b, max);
      }
    }
  }

  /** The error of an unreadable request body is returned exactly if the body is unreadable, and then nothing
      else happens. */
  lemma UnreadableBodyIff(max: nat, backoff: nat -> int, script: seq<Attempt>, body: RequestBody, b: Option<Breaker>)
    requires |script| > max
    ensures var o := Trip(max, backoff, script, body, b);
            (o.result == Aborts(BodyUnreadable) <==> body.Unreadable?) && (body.Unreadable? ==> o.trace == [] && o.breaker == b)
  {
    if !body.Unreadable? {
      var k := StopsAtFirstFinal(max, backoff, script, if body.Bytes? then body.text else "", 0, None, b);
    }
  }

  /** The zero limit that NewClient leaves makes a single transport failure such a run. */
  lemma TransientFailureIsSwallowed(backoff: nat -> int)
    ensures Trip(0, backoff, [Attempt(true, true, true, Fails(Transient), 0, true)], NoBody, None).result == Returns(None)
  {
    NilResponseIff(0, backoff, [Attempt(true, true, true, Fails(Transient), 0, true)], NoBody, None);
  }

  /** On every run there are at most maxAttempts + 1 requests, each with the whole body ahead of it. */
  lemma {:induction false} RequestsAreBounded(
    max: nat, backoff: nat -> int, script: seq<Attempt>, body: string, i: nat, held: Option<Response>, b: Option<Breaker>)
    requires |script| > max && i <= max + 1
    ensures var trace := Rounds(max, backoff, script, body, i, held, b).trace;
            Requests(trace) <= max + 1 - i && SeesBody(trace, body)
    decreases max + 1 - i
  {
    if i <= max {
      PassCounts(backoff, script[i], body, i, held, b);
      PassSeesBody(backoff, script[i], body, i, held, b);
      match OnePass(backoff, script[i], body, i, held, b)
      case Ended(_) =>
      case Next(events, held', b') =>
        RequestsAreBounded(max, backoff, script, body, i + 1, held', b');
        var rest := Rounds(max, backoff, script, body, i + 1, held', b');
        CountAppend(events, rest.trace, (e: Event) => e.Issue?);
    }
  }

  /** Nothing but the client itself interferes with the attempt. */
  predicate Calm(a: Attempt) {
    a.liveAtHead && a.closes && a.liveAfterClose && a.wakes
  }

  /** A run blames the context, or a close, only if it saw one fail. */
  lemma {:induction false} BlameIsFounded(
    max: nat, backoff: nat -> int, script: seq<Attempt>, body: string, i: nat, held: Option<Response>, b: Option<Breaker>)
    requires |script| > max && i <= max + 1
    requires Rounds(max, backoff, script, body, i, held, b).result in {Aborts(ContextDone), Aborts(CloseFailed)}
    ensures exists j :: i <= j <= max && !Calm(script[j])
    decreases max + 1 - i
  {
    match OnePass(backoff, script[i], body, i, held, b)
    case Ended(_) => assert !Calm(script[i]);
    case Next(_, held', b') => BlameIsFounded(max, backoff, script, body, i + 1, held', b');
  }

  const MAX_UINT: nat := TWO64 - 1

  /** i++ on Go's uint. */
  function Increment(i: nat): nat {
    (i + 1) % TWO64
  }

  lemma IncrementExact(i: nat)
    requires i < MAX_UINT
    ensures Increment(i) == i + 1
  {
  }

  /** The loop with its counter as it is, 64 bits wide, in a world that always has another attempt to offer:
      what it holds at the n-th test of its guard, None if it has ended before. */
  function LoopAt(max: nat, world: nat -> Attempt, b: Option<Breaker>, n: nat): Option<(Option<Response>, Option<Breaker>)> {
    if n == 0 then Some((None, b))
    else match LoopAt(max, world, b, n - 1)
      case None => None
      case Some(at) =>
        var i := (n - 1) % TWO64;
        if i > max then None else Onward(world(n - 1), i, at.0, at.1)
  }

  predicate GuardHolds(max: nat, world: nat -> Attempt, b: Option<Breaker>, n: nat) {
    LoopAt(max, world, b, n).Some? && n % TWO64 <= max
  }

  lemma SmallRemainder(n: nat)
    requires n < TWO64
    ensures n % TWO64 == n
  {
  }

  /** As long as the counter has not passed the limit this is the loop of the specification. */
  lemma {:induction false} LoopIsRounds(max: nat, world: nat -> Attempt, b: Option<Breaker>, script: seq<Attempt>, n: nat)
    requires max < TWO64 && n <= max + 1 <= |script| && forall j :: 0 <= j < |script| ==> script[j] == world(j)
    ensures LoopAt(max, world, b, n) == Arrives(script, 0, None, b, n)
  {
    if n > 0 {
      LoopIsRounds(max, world, b, script, n - 1);
      ArrivesNext(script, 0, None, b, n - 1);
      SmallRemainder(n - 1);
      assert script[n - 1] == world(n - 1);
    }
  }

  lemma {:induction false} LoopStopsPast(max: nat, world: nat -> Attempt, b: Option<Breaker>, n: nat)
    requires max < MAX_UINT && n > max
    ensures !GuardHolds(max, world, b, n) && (n > max + 1 ==> LoopAt(max, world, b, n).None?)
  {
    if n > max + 1 {
      LoopStopsPast(max, world, b, n - 1);
    }
  }

  /** A world in which every request fails and nothing else happens. */
  const FAILING: nat -> Attempt := (n: nat) => Attempt(true, true, true, Fails(Transient), 0, true)

  lemma {:induction false} LoopNeverStops(n: nat)
    ensures LoopAt(MAX_UINT, FAILING, None, n) == Some((None, None))
  {
    if n > 0 {
      LoopNeverStops(n - 1);
    }
  }

  /** The loop ends after at most maxAttempts + 1 passes in every world if and only if maxAttempts is not the
      largest uint; with that one the counter wraps to zero and a failing server is asked for ever. */
  lemma LoopIsBoundedIff(max: nat)
    requires max < TWO64
    ensures (forall world: nat -> Attempt, n: nat :: n > max ==> !GuardHolds(max, world, None, n)) <==> max < MAX_UINT
    ensures forall n: nat :: GuardHolds(MAX_UINT, FAILING, None, n)
  {
    forall n: nat ensures GuardHolds(MAX_UINT, FAILING, None, n) {
      LoopNeverStops(n);
    }
    if max < MAX_UINT {
      forall world: nat -> Attempt, n: nat | n > max ensures !GuardHolds(max, world, None, n) {
        LoopStopsPast(max, world, None, n);
      }
    } else {
      assert GuardHolds(max, FAILING, None, max + 1);
    }
  }

  // ---------------------------------------------------------------- the circuit breaker

  /** What the server did counts as a failure: no response, or a 5xx. */
  predicate Failed(r: ClientReply) {
    r.Answers? ==> r.status >= 500
  }

  /** Failures the breaker still tolerates. */
  function Slack(b: Breaker): nat {
    if b.failures >= b.threshold then 0 else b.threshold - b.failures
  }

  /** Against a server that only fails, the server is contacted no more often than the breaker tolerates
      and no more often than there are attempts. */
  lemma {:induction false} BreakerLimitsContacts(
    max: nat, backoff: nat -> int, script: seq<Attempt>, body: string, i: nat, held: Option<Response>, b: Option<Breaker>)
    requires |script| > max && i <= max + 1 && b.Some?
    requires forall j :: i <= j <= max ==> Failed(script[j].reply)
    ensures Contacts(Rounds(max, backoff, script, body, i, held, b).trace) <= Min(Slack(b.value), max + 1 - i)
    decreases max + 1 - i
  {
    if i <= max {
      PassCounts(backoff, script[i], body, i, held, b);
      match OnePass(backoff, script[i], body, i, held, b)
      case Ended(_) =>
      case Next(events, held', b') =>
        BreakerLimitsContacts(max, backoff, script, body, i + 1, held', b');
        var rest := Rounds(max, backoff, script, body, i + 1, held', b');
        CountAppend(events, rest.trace, (e: Event) => e.Contact?);
    }
  }

  /** Behind a breaker that starts closed with threshold k, a failing server sees at most
      min(k, maxAttempts + 1) requests of a round trip. */
  lemma FailingServerIsSpared(max: nat, backoff: nat -> int, script: seq<Attempt>, body: RequestBody, k: nat)
    requires |script| > max && forall j :: 0 <= j <= max ==> Failed(script[j].reply)
    ensures Contacts(Trip(max, backoff, script, body, Some(Breaker(k, 0))).trace) <= Min(k, max + 1)
  {
    if !body.Unreadable? {
      BreakerLimitsContacts(max, backoff, script, if body.Bytes? then body.text else "", 0, None, Some(Breaker(k, 0)));
    }
  }

  /** An open breaker ends the run at once: nothing is contacted any more, whatever the script says. */
  lemma OpenBreakerStops(
    max: nat, backoff: nat -> int, script: seq<Attempt>, body: string, i: nat, held: Option<Response>, b: Option<Breaker>)
    requires |script| > max && i <= max && IsOpen(b)
    ensures var o := Rounds(max, backoff, script, body, i, held, b);
            && Contacts(o.trace) == 0 && o.breaker == b
            && (Asks(script[i], held) ==> o.result == Aborts(Surfaced(CircuitOpen)))
  {
    PassCounts(backoff, script[i], body, i, held, b);
  }

  /** How many of the attempts before k failed in a row, counting on from f when all of them did. */
  function Streak(script: seq<Attempt>, i: nat, k: nat, f: nat): nat
    requires i <= k <= |script|
    decreases k
  {
    if i == k then f
    else if Failed(script[k - 1].reply) then Streak(script, i, k - 1, f) + 1
    else 0
  }

  ghost predicate AllFail(script: seq<Attempt>, i: int, k: nat)
    requires 0 <= i && k <= |script|
  {
    forall j :: i <= j < k ==> Failed(script[j].reply)
  }

  lemma {:induction false} StreakReaches(script: seq<Attempt>, i: nat, k: nat, f: nat, t: nat)
    requires i <= k <= |script|
    ensures Streak(script, i, k, f) >= t <==>
            (k - i >= t && AllFail(script, k - t, k)) || (f + k - i >= t && AllFail(script, i, k))
    decreases k
  {
    if i < k && t > 0 {
      StreakReaches(script, i, k - 1, f, t - 1);
      assert k - 1 - i >= t - 1 ==>
          (AllFail(script, k - t, k) <==> AllFail(script, k - t, k - 1) && Failed(script[k - 1].reply));
      assert AllFail(script, i, k) <==> AllFail(script, i, k - 1) && Failed(script[k - 1].reply);
    }
  }

  lemma {:induction false} BreakerCounts(
    script: seq<Attempt>, i: nat, held: Option<Response>, b: Breaker, k: nat)
    requires i <= k <= |script| && Arrives(script, i, held, Some(b), k).Some?
    ensures Arrives(script, i, held, Some(b), k).value.1 == Some(b.(failures := Streak(script, i, k, b.failures)))
    decreases k
  {
    if i < k {
      ArrivesThrough(script, i, held, Some(b), k - 1, k);
      ArrivesNext(script, i, held, Some(b), k - 1);
      BreakerCounts(script, i, held, b, k - 1);
    }
  }

  /** On every run, the breaker is open at attempt k exactly when the last `threshold` attempts before k all
      failed, or all of them did and with the failures before the run they make up the threshold. Every
      attempt before k reached the server. */
  lemma BreakerOpensIff(script: seq<Attempt>, i: nat, held: Option<Response>, b: Breaker, k: nat)
    requires i <= k <= |script| && Arrives(script, i, held, Some(b), k).Some?
    ensures IsOpen(Arrives(script, i, held, Some(b), k).value.1) <==>
            || (k - i >= b.threshold && AllFail(script, k - b.threshold, k))
            || (b.failures + k - i >= b.threshold && AllFail(script, i, k))
    ensures forall j :: i <= j < k ==>
              var at := Arrives(script, i, held, Some(b), j); at.Some? && !IsOpen(at.value.1)
  {
    BreakerCounts(script, i, held, b, k);
    StreakReaches(script, i, k, b.failures, b.threshold);
    forall j | i <= j < k
      ensures var at := Arrives(script, i, held, Some(b), j); at.Some? && !IsOpen(at.value.1)
    {
      ArrivesThrough(script, i, held, Some(b), j, k);
    }
  }

  /** Every response obtained through a closed breaker is judged by the loop, also the 5xx that the breaker
      counted as failures: it is retried, with its body still to be closed, or it is what the run returns. */
  lemma ResponsesReachLoop(
    max: nat, backoff: nat -> int, script: seq<Attempt>, body: string, i: nat, held: Option<Response>, b: Option<Breaker>,
    k: nat)
    requires |script| > max && i <= k <= max && Arrives(script, i, held, b, k).Some?
    requires var at := Arrives(script, i, held, b, k).value; !IsOpen(at.1) && Asks(script[k], at.0)
    requires script[k].reply.Answers? && script[k].wakes
    ensures var status := script[k].reply.status;
            var res := Some(Response(k, status, script[k].reply.retryAfter));
            if k < max && (status == 429 || (status >= 500 && status != 501)) then
              Arrives(script, i, held, b, k + 1).Some? && Arrives(script, i, held, b, k + 1).value.0 == res
            else
              Rounds(max, backoff, script, body, i, held, b).result == Returns(res)
  {
    ArrivesNext(script, i, held, b, k);
    var at := Arrives(script, i, held, b, k).value;
    if k == max || Onward(script[k], k, at.0, at.1).None? {
      EndsAt(max, backoff, script, body, i, held, b, k);
    }
  }

  // ---------------------------------------------------------------- the round tripper object

  /** A run that has produced `trace` since `start` and stands at attempt i will come to the outcome o. */
  ghost predicate Tracks(
    max: nat, backoff: nat -> int, script: seq<Attempt>, body: string, i: nat, held: Option<Response>, b: Option<Breaker>,
    trace: seq<Event>, start: seq<Event>, o: Outcome)
    requires |script| > max
  {
    var rest := Rounds(max, backoff, script, body, i, held, b);
    rest.result == o.result && rest.breaker == o.breaker && trace + rest.trace == start + o.trace
  }

  lemma TracksOn(
    max: nat, backoff: nat -> int, script: seq<Attempt>, body: string, i: nat, held: Option<Response>, b: Option<Breaker>,
    trace: seq<Event>, start: seq<Event>, o: Outcome)
    requires |script| > max && i <= max && Tracks(max, backoff, script, body, i, held, b, trace, start, o)
    ensures var pass := OnePass(backoff, script[i], body, i, held, b);
            && (pass.Next? ==> Tracks(max, backoff, script, body, i + 1, pass.held, pass.breaker, trace + pass.events, start, o))
            && (pass.Ended? ==> pass.o.result == o.result && pass.o.breaker == o.breaker && trace + pass.o.trace == start + o.trace)
  {
    var pass := OnePass(backoff, script[i], body, i, held, b);
    if pass.Next? {
      var rest := Rounds(max, backoff, script, body, i + 1, pass.held, pass.breaker);
      assert trace + (pass.events + rest.trace) == trace + pass.events + rest.trace;
    }
  }

  class Tripper {
    const maxAttempts: nat
    const backoff: nat -> int
    var circuitBreaker: Option<Breaker>
    ghost var trace: seq<Event>

    constructor (maxAttempts: nat, backoff: nat -> int, circuitBreaker: Option<Breaker>)
      ensures this.maxAttempts == maxAttempts && this.backoff == backoff && this.circuitBreaker == circuitBreaker
      ensures trace == []
    {
      this.maxAttempts, this.backoff, this.circuitBreaker := maxAttempts, backoff, circuitBreaker;
      trace := [];
    }

    /** One request, through the breaker if there is one. */
    method DoRequest(id: nat, client: ClientReply) returns (reply: Reply, ghost events: seq<Event>)
      modifies this`circuitBreaker
      ensures (reply, circuitBreaker) == Ask(old(circuitBreaker), id, client)
      ensures events == (if IsOpen(old(circuitBreaker)) then [] else [Contact]) + if reply.Got? then [Opened(id)] else []
    {
      if circuitBreaker.Some? && circuitBreaker.value.failures >= circuitBreaker.value.threshold {
        return NoReply(CircuitOpen), [];
      }
      if circuitBreaker.Some? {
        var failures := circuitBreaker.value.failures;
        circuitBreaker := Some(circuitBreaker.value.(failures := if CountsAsFailure(client) then failures + 1 else 0));
      }
      match client
      case Answers(status, after) => return Got(Response(id, status, after)), [Contact] + [Opened(id)];
      case Fails(e) => return NoReply(e), [Contact];
      case FailsWithResponse(e) => return Rejected(e), [Contact];
    }

    /** One pass of the loop. `pos` is where the reader of the buffered request body stands: the client
        reads some of the body, and the reader is rewound. */
    method Attempt(i: nat, a: Attempt, text: string, held: Option<Response>, pos: nat)
      returns (r: Option<Result>, res: Option<Response>, rewound: nat, ghost events: seq<Event>)
      requires pos == 0
      modifies this`circuitBreaker
      ensures var pass := OnePass(backoff, a, text, i, held, old(circuitBreaker));
              && r == (if pass.Ended? then Some(pass.o.result) else None)
              && events == (if pass.Ended? then pass.o.trace else pass.events)
              && circuitBreaker == (if pass.Ended? then pass.o.breaker else pass.breaker)
              && (pass.Next? ==> res == pass.held && rewound == 0)
    {
      res, rewound, events := held, pos, [];
      if !a.liveAtHead {
        return Some(Aborts(ContextDone)), res, rewound, events;
      }
      if res.Some? {
        events := [Closed(res.value.id)];
        if !a.closes {
          return Some(Aborts(CloseFailed)), res, rewound, events;
        }
      }
      if !a.liveAfterClose {
        return Some(Aborts(ContextDone)), res, rewound, events;
      }
      ghost var issue := [Issue(Remaining(text, rewound))];
      var reply;
      ghost var during;
      reply, during := DoRequest(i, a.reply);
      assert issue + during == Asked(old(circuitBreaker), i, text, reply);
      events := events + (issue + during);
      rewound := rewound + a.consumed;
      rewound := 0;
      res := Kept(reply);
      match Classify(reply)
      case Stop(e) => r := Some(Aborts(Surfaced(e)));
      case Done => r := Some(Returns(res));
      case Again(delay) =>
        events := events + [Slept(if delay.Some? then delay.value else backoff(i))];
        r := if a.wakes then None else Some(Aborts(ContextDone));
    }

    method RoundTrip(script: seq<Attempt>, body: RequestBody) returns (r: Result)
      requires maxAttempts < MAX_UINT && |script| > maxAttempts
      modifies this
      ensures var o := Trip(maxAttempts, backoff, script, body, old(circuitBreaker));
              r == o.result && trace == old(trace) + o.trace && circuitBreaker == o.breaker
    {
      if body.Unreadable? {
        return Aborts(BodyUnreadable);
      }
      var text := if body.Bytes? then body.text else "";
      var pos := 0;
      var res: Option<Response> := None;
      ghost var o := Rounds(maxAttempts, backoff, script, text, 0, None, circuitBreaker);
      var i := 0;
      while i <= maxAttempts
        invariant 0 <= i <= maxAttempts + 1 && pos == 0
        invariant Tracks(maxAttempts, backoff, script, text, i, res, circuitBreaker, trace, old(trace), o)
        decreases maxAttempts + 1 - i
      {
        TracksOn(maxAttempts, backoff, script, text, i, res, circuitBreaker, trace, old(trace), o);
        var end;
        ghost var events;
        end, res, pos, events := Attempt(i, script[i], text, res, pos);
        trace := trace + events;
        if end.Some? {
          return end.value;
        }
        IncrementExact(i);
        i := Increment(i);
      }
      r := Returns(res);
    }
  }
}
