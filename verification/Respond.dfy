/** How the HTTP and the gRPC responders answer an error, and how the management client classifies the
    statuses it receives. */
module Respond {
  import opened Prelude
  import opened Errors
  import TokenCache

  /** gRPC status codes. */
  datatype Code = CodeAlreadyExists | CodeNotFound | CodeUnauthenticated | CodePermissionDenied
                | CodeInvalidArgument | CodeUnavailable | CodeInternal

  /** The HTTP responder's status for an error; a status set by an option overrides the classification. */
  function HttpStatus(err: Error, override: int): int {
    var classified :=
      if Is(err, AlreadyExists) then 409
      else if Is(err, NotFound) then 404
      else if Is(err, Unauthenticated) then 401
      else if Is(err, Unauthorized) then 403
      else if Is(err, InvalidArgument) then 400
      else if Is(err, Unavailable) then 503
      else 500;
    if override != 0 then override else classified
  }

  /** The gRPC responder's code; it takes the same option but does not look at it. */
  function GrpcCode(err: Error): Code {
    if Is(err, AlreadyExists) then CodeAlreadyExists
    else if Is(err, NotFound) then CodeNotFound
    else if Is(err, Unauthenticated) then CodeUnauthenticated
    else if Is(err, Unauthorized) then CodePermissionDenied
    else if Is(err, InvalidArgument) then CodeInvalidArgument
    else if Is(err, Unavailable) then CodeUnavailable
    else CodeInternal
  }

  /** mapHTTPError. */
  function MapHttpError(status: int): Error {
    match status
    case 404 => Joined([Sentinel(NotFound), Plain("kinde management: status")])
    case 401 => Joined([Sentinel(Unauthenticated), Plain("kinde management: status")])
    case 403 => Joined([Sentinel(Unauthorized), Plain("kinde management: status")])
    case 409 => Joined([Sentinel(AlreadyExists), Plain("kinde management: status")])
    case 400 => Joined([Sentinel(InvalidArgument), Plain("kinde management: status")])
    case _ => Plain("kinde management: unexpected status")
  }

  // ---------------------------------------------------------------- one ranking behind both responders

  /** The rank of a sentinel, smaller ranks winning; kinds nobody answers specially share the last one. */
  function Rank(k: Kind): nat {
    match k
    case AlreadyExists => 0
    case NotFound => 1
    case Unauthenticated => 2
    case Unauthorized => 3
    case InvalidArgument => 4
    case Unavailable => 5
    case _ => 6
  }

  /** The best rank found anywhere in an error tree. */
  function Best(e: Error): nat {
    match e
    case Sentinel(k) => Rank(k)
    case Plain(_) => 6
    case Wrapped(_, inner) => Best(inner)
    case Joined(errs) => BestOf(errs)
    case RetryableMark(_, marked) => if marked.Some? then Best(marked.value) else 6
  }

  function BestOf(errs: seq<Error>): nat {
    if errs == [] then 6 else Min(Best(errs[0]), BestOf(errs[1..]))
  }

  /** The best rank is that of a sentinel in the tree, and no sentinel in the tree ranks better. */
  lemma {:induction false} BestIsLeast(e: Error, k: Kind)
    ensures Is(e, k) ==> Best(e) <= Rank(k)
    ensures Best(e) <= 6
    ensures Best(e) < 6 && Rank(k) == Best(e) ==> Is(e, k)
    decreases e, 0
  {
    match e
    case Sentinel(_) =>
    case Plain(_) =>
    case Wrapped(_, inner) => BestIsLeast(inner, k);
    case Joined(errs) => BestOfIsLeast(errs, k);
    case RetryableMark(_, marked) =>
      if marked.Some? {
        BestIsLeast(marked.value, k);
      }
  }

  lemma {:induction false} BestOfIsLeast(errs: seq<Error>, k: Kind)
    ensures (exists i :: 0 <= i < |errs| && Is(errs[i], k)) ==> BestOf(errs) <= Rank(k)
    ensures BestOf(errs) <= 6
    ensures BestOf(errs) < 6 && Rank(k) == BestOf(errs) ==> exists i :: 0 <= i < |errs| && Is(errs[i], k)
    decreases errs, 1
  {
    if errs != [] {
      BestIsLeast(errs[0], k);
      BestOfIsLeast(errs[1..], k);
      if i :| 0 <= i < |errs| && Is(errs[i], k) {
        if i > 0 {
          assert errs[1..][i - 1] == errs[i];
        }
      }
      if i :| 0 <= i < |errs[1..]| && Is(errs[1..][i], k) {
        assert errs[i + 1] == errs[1..][i];
      }
    }
  }

  function StatusOfRank(r: nat): int {
    match r
    case 0 => 409
    case 1 => 404
    case 2 => 401
    case 3 => 403
    case 4 => 400
    case 5 => 503
    case _ => 500
  }

  function CodeOfRank(r: nat): Code {
    match r
    case 0 => CodeAlreadyExists
    case 1 => CodeNotFound
    case 2 => CodeUnauthenticated
    case 3 => CodePermissionDenied
    case 4 => CodeInvalidArgument
    case 5 => CodeUnavailable
    case _ => CodeInternal
  }

  /** For every error tree both responders answer its best-ranked sentinel, except that a non-zero status
      option is what the HTTP responder answers, whatever the error. */
  lemma RespondersAgree(e: Error)
    ensures forall override: int :: override != 0 ==> HttpStatus(e, override) == override
    ensures HttpStatus(e, 0) == StatusOfRank(Best(e))
    ensures GrpcCode(e) == CodeOfRank(Best(e))
  {
    BestIsLeast(e, AlreadyExists);
    BestIsLeast(e, NotFound);
    BestIsLeast(e, Unauthenticated);
    BestIsLeast(e, Unauthorized);
    BestIsLeast(e, InvalidArgument);
    BestIsLeast(e, Unavailable);
  }

  /** The two answers determine each other. */
  lemma SameStatusSameCode(e: Error, f: Error)
    ensures HttpStatus(e, 0) == HttpStatus(f, 0) <==> GrpcCode(e) == GrpcCode(f)
  {
    RespondersAgree(e);
    RespondersAgree(f);
    BestIsLeast(e, AlreadyExists);
    BestIsLeast(f, AlreadyExists);
  }

  lemma {:induction false} BestOfAppend(a: seq<Error>, b: seq<Error>)
    ensures BestOf(a + b) == Min(BestOf(a), BestOf(b))
  {
    if a == [] {
      assert a + b == b;
      BestOfIsLeast(b, Canceled);
    } else {
      assert (a + b)[1..] == a[1..] + b;
      BestOfAppend(a[1..], b);
    }
  }

  /** Joining errors, in any number and order, answers the better-ranked side. */
  lemma JoinTakesBetter(a: seq<Error>, b: seq<Error>)
    ensures var joined := Joined(a + b);
            && HttpStatus(joined, 0) == StatusOfRank(Min(Best(Joined(a)), Best(Joined(b))))
            && GrpcCode(joined) == CodeOfRank(Min(Best(Joined(a)), Best(Joined(b))))
  {
    BestOfAppend(a, b);
    RespondersAgree(Joined(a + b));
  }

  /** inner sits inside e under any number of wrappings and joins whose other parts rank no better. */
  ghost predicate Carries(e: Error, inner: Error) {
    || e == inner
    || match e
       case Wrapped(_, below) => Carries(below, inner)
       case Joined(errs) =>
         && (exists i :: 0 <= i < |errs| && Carries(errs[i], inner))
         && forall i :: 0 <= i < |errs| ==> Best(errs[i]) >= Best(inner)
       case RetryableMark(_, marked) => marked.Some? && Carries(marked.value, inner)
       case _ => false
  }

  lemma {:induction false} CarriedRankSurvives(e: Error, inner: Error)
    requires Carries(e, inner)
    ensures Best(e) == Best(inner)
  {
    if e != inner {
      match e
      case Wrapped(_, below) => CarriedRankSurvives(below, inner);
      case Joined(errs) =>
        var i :| 0 <= i < |errs| && Carries(errs[i], inner);
        CarriedRankSurvives(errs[i], inner);
        BestIsLeast(errs[i], Canceled);
        BestOfIs(errs, i);
      case RetryableMark(_, marked) => CarriedRankSurvives(marked.value, inner);
    }
  }

  lemma {:induction false} BestOfIs(errs: seq<Error>, i: nat)
    requires i < |errs| && forall j :: 0 <= j < |errs| ==> Best(errs[j]) >= Best(errs[i])
    requires Best(errs[i]) <= 6
    ensures BestOf(errs) == Best(errs[i])
  {
    if i == 0 {
      BestOfAtLeast(errs[1..], Best(errs[0]));
    } else {
      assert errs[1..][i - 1] == errs[i];
      BestOfIs(errs[1..], i - 1);
    }
  }

  lemma {:induction false} BestOfAtLeast(errs: seq<Error>, r: nat)
    requires r <= 6 && forall j :: 0 <= j < |errs| ==> Best(errs[j]) >= r
    ensures BestOf(errs) >= r
  {
    if errs != [] {
      BestOfAtLeast(errs[1..], r);
    }
  }

  /** A status the management client received from upstream is the status its own caller is answered with,
      however the error was wrapped on the way. */
  lemma UpstreamStatusSurvives(status: int, e: Error)
    requires status in {400, 401, 403, 404, 409} && Carries(e, MapHttpError(status))
    ensures HttpStatus(e, 0) == status
  {
    CarriedRankSurvives(e, MapHttpError(status));
    RespondersAgree(e);
    MappedRank(status);
  }

  /** Any other upstream status is an internal error, through any wrapping that brings no sentinel along. */
  lemma OtherStatusIsInternal(status: int, e: Error)
    requires status !in {400, 401, 403, 404, 409} && Carries(e, MapHttpError(status))
    ensures HttpStatus(e, 0) == 500 && GrpcCode(e) == CodeInternal
  {
    CarriedRankSurvives(e, MapHttpError(status));
    RespondersAgree(e);
  }

  lemma MappedRank(status: int)
    requires status in {400, 401, 403, 404, 409}
    ensures StatusOfRank(Best(MapHttpError(status))) == status
  {
    var errs := MapHttpError(status).errs;
    assert errs[1..] == [errs[1]] && errs[1..][1..] == [];
    assert BestOf(errs[1..]) == 6;
  }

  /** The error a failed token request passes on from below: the request builder's, the transport's or the
      decoder's. An answer that decodes but lacks a field passes nothing on. */
  function Cause(reply: TokenCache.Reply): Option<Error> {
    match reply
    case NotSent(cause) => Some(cause)
    case TransportFailure(cause) => Some(cause)
    case Answer(_, body) => if body.Failure? then Some(body.error) else None
  }

  /** How a failed token request is answered, through any wrapping: 401 and Unauthenticated if the endpoint
      refused the client, otherwise as its cause is, so an internal error exactly if the cause carries none
      of the sentinels. */
  lemma TokenFailureAnswer(reply: TokenCache.Reply, e: Error)
    requires TokenCache.Accept(reply).Failure? && Carries(e, TokenCache.Accept(reply).error)
    ensures var refused := reply.Answer? && reply.status != 200;
            var best := if refused then 2 else if Cause(reply).Some? then Best(Cause(reply).value) else 6;
            && HttpStatus(e, 0) == StatusOfRank(best) && GrpcCode(e) == CodeOfRank(best)
            && (HttpStatus(e, 0) == 500 <==> best == 6)
            && (best == 6 <==> !refused && (Cause(reply).Some? ==> forall k :: Rank(k) < 6 ==> !Is(Cause(reply).value, k)))
  {
    CarriedRankSurvives(e, TokenCache.Accept(reply).error);
    RespondersAgree(e);
    if Cause(reply).Some? {
      var cause := Cause(reply).value;
      forall k | Rank(k) < 6 && Is(cause, k) ensures Best(cause) < 6 {
        BestIsLeast(cause, k);
      }
      BestHasSentinel(cause);
    }
  }

  /** A rank below 6 is the rank of a sentinel in the tree. */
  lemma BestHasSentinel(e: Error)
    ensures Best(e) <= 6
    ensures Best(e) < 6 ==> exists k :: Rank(k) == Best(e) && Is(e, k)
  {
    var k := match Best(e)
      case 0 => AlreadyExists
      case 1 => NotFound
      case 2 => Unauthenticated
      case 3 => Unauthorized
      case 4 => InvalidArgument
      case _ => Unavailable;
    BestIsLeast(e, k);
  }
}
