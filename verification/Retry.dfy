/** The three hand-written loops of "attempt, classify, wait 1, 3, 5 s": PostgreSQL operations
    (internal/repository/postgresstorage.go), the gRPC sender and the HTTP sender of the Agent
    (internal/agent/transport/grpc/sender.go, internal/agent/transport/http/http_sender.go). */
module Retry {
  import opened Options

  /** What a loop can tell about an error. Wrapped is fmt.Errorf with %w; UrlError is what an
      HTTP client returns when no response came, and is itself a net.Error. */
  datatype Error =
    | PgError(code: string)
    | GrpcStatus(grpc: GrpcCode)
    | UnexpectedStatus(status: int)
    | UrlError(cause: Error)
    | Canceled
    | DeadlineExceeded
    | MetricNotFound
    | OtherError
    | Wrapped(cause: Error)

  datatype GrpcCode = Unavailable | ResourceExhausted | OtherCode(number: nat)

  // ---------------------------------------------------------------------------
  // Classification
  // ---------------------------------------------------------------------------

  /** Class 08 of the PostgreSQL error codes. */
  const CONNECTION_EXCEPTIONS: set<string> := {"08000", "08003", "08006", "08001", "08004", "08007", "08P01"}

  /** errors.As and errors.Is look through the chain of causes. */
  predicate IsRetriablePGError(e: Error) {
    match e
    case PgError(code) => code in CONNECTION_EXCEPTIONS
    case Wrapped(cause) => IsRetriablePGError(cause)
    case UrlError(cause) => IsRetriablePGError(cause)
    case _ => false
  }

  predicate ContextError(e: Error) {
    match e
    case Canceled => true
    case DeadlineExceeded => true
    case Wrapped(cause) => ContextError(cause)
    case UrlError(cause) => ContextError(cause)
    case _ => false
  }

  function StatusOf(e: Error): Option<GrpcCode> {
    match e
    case GrpcStatus(code) => Some(code)
    case Wrapped(cause) => StatusOf(cause)
    case UrlError(cause) => StatusOf(cause)
    case _ => None
  }

  predicate IsRetriableGRPCError(e: Error) {
    !ContextError(e) && (StatusOf(e) == Some(Unavailable) || StatusOf(e) == Some(ResourceExhausted))
  }

  function HttpStatusOf(e: Error): Option<int> {
    match e
    case UnexpectedStatus(status) => Some(status)
    case Wrapped(cause) => HttpStatusOf(cause)
    case UrlError(cause) => HttpStatusOf(cause)
    case _ => None
  }

  /** A deadline error implements net.Error too; a cancellation does not. */
  predicate IsNetError(e: Error) {
    match e
    case UrlError(_) => true
    case DeadlineExceeded => true
    case Wrapped(cause) => IsNetError(cause)
    case _ => false
  }

  predicate IsRetriableSendError(e: Error) {
    match HttpStatusOf(e)
    case Some(status) => status == 429 || 500 <= status < 600
    case None => IsNetError(e)
  }

  /** The error and the causes it wraps, outermost first. */
  function Chain(e: Error): seq<Error> {
    match e
    case Wrapped(cause) => [e] + Chain(cause)
    case UrlError(cause) => [e] + Chain(cause)
    case _ => [e]
  }

  lemma ConnectionCodes(code: string)
    ensures code in CONNECTION_EXCEPTIONS
       <==> |code| == 5 && code[..2] == "08" && code[2..] in {"000", "001", "003", "004", "006", "007", "P01"}
  {
    if |code| == 5 && code[..2] == "08" {
      assert code == "08" + code[2..];
      assert "08000" == "08" + "000" && "08001" == "08" + "001" && "08003" == "08" + "003" && "08004" == "08" + "004";
      assert "08006" == "08" + "006" && "08007" == "08" + "007" && "08P01" == "08" + "P01";
    }
  }

  /** What the PostgreSQL loop tries again after: a connection exception anywhere in the chain. */
  lemma {:induction false} RetriablePGErrors(e: Error)
    ensures IsRetriablePGError(e)
       <==> exists x :: x in Chain(e) && x.PgError? && |x.code| == 5 && x.code[..2] == "08"
                        && x.code[2..] in {"000", "001", "003", "004", "006", "007", "P01"}
  {
    match e {
      case PgError(code) => ConnectionCodes(code);
      case Wrapped(cause) => RetriablePGErrors(cause);
      case UrlError(cause) => RetriablePGErrors(cause);
      case _ =>
    }
  }

  /** What the gRPC sender tries again after: one of two statuses, wrapped or not. */
  lemma {:induction false} RetriableGRPCErrors(e: Error)
    ensures IsRetriableGRPCError(e) <==> GrpcStatus(Unavailable) in Chain(e) || GrpcStatus(ResourceExhausted) in Chain(e)
  {
    match e {
      case Wrapped(cause) => RetriableGRPCErrors(cause);
      case UrlError(cause) => RetriableGRPCErrors(cause);
      case _ =>
    }
  }

  /** What the HTTP sender tries again after: a status 429 or 5xx; and without a status, a request that got
      no response, or a deadline. */
  lemma {:induction false} RetriableSendErrors(e: Error)
    ensures IsRetriableSendError(e)
       <==> if exists status :: UnexpectedStatus(status) in Chain(e)
            then exists status :: UnexpectedStatus(status) in Chain(e) && (status == 429 || status / 100 == 5)
            else DeadlineExceeded in Chain(e) || exists x :: x in Chain(e) && x.UrlError?
  {
    SendChain(e);
  }

  lemma {:induction false} SendChain(e: Error)
    ensures forall status :: HttpStatusOf(e) == Some(status) <==> UnexpectedStatus(status) in Chain(e)
    ensures IsNetError(e) <==> DeadlineExceeded in Chain(e) || exists x :: x in Chain(e) && x.UrlError?
  {
    match e {
      case Wrapped(cause) => SendChain(cause);
      case UrlError(cause) => SendChain(cause);
      case _ =>
    }
  }

  // ---------------------------------------------------------------------------
  // Traces
  // ---------------------------------------------------------------------------

  const DELAYS: seq<nat> := [1, 3, 5]

  /** results: what each attempt made returned; waits: the delays waited out; err: what the loop returns. */
  datatype Trace = Trace(results: seq<Option<Error>>, waits: seq<nat>, err: Option<Error>)

  /** The world a loop runs in: attempt i's outcome, the context's error before it, and the error
      that interrupts the wait after it. */
  datatype World = World(op: nat -> Option<Error>, before: nat -> Option<Error>, during: nat -> Option<Error>)

  /** A trace that went on after retriable errors only, waiting out the listed delays one after
      the other, and stopped for one of the four possible reasons. */
  ghost predicate Paced(before: nat -> Option<Error>, during: nat -> Option<Error>,
                        retriable: Error -> bool, delays: seq<nat>, t: Trace) {
    var n := |t.waits|;
    && n <= |delays| && t.waits == delays[..n]
    && n <= |t.results| <= n + 1
    && (forall i | 0 <= i < |t.results| :: before(i).None?)
    && (forall i | 0 <= i < n :: t.results[i].Some? && retriable(t.results[i].value) && during(i).None?)
    && if |t.results| == n then t.err.Some? && before(n) == t.err
       else Ended(t.results[n], t.err)
            && (t.err.Some? ==>
                  || (t.err == t.results[n] && (!retriable(t.err.value) || n == |delays|))
                  || (retriable(t.results[n].value) && n < |delays| && during(n) == t.err))
  }

  /** A loop about to make its next attempt: every attempt so far failed in a retriable way and was waited out. */
  ghost predicate Waited(before: nat -> Option<Error>, during: nat -> Option<Error>, retriable: Error -> bool,
                         delays: seq<nat>, results: seq<Option<Error>>, waits: seq<nat>) {
    && |results| == |waits| <= |delays| && waits == delays[..|waits|]
    && forall i | 0 <= i < |waits| ::
         before(i).None? && during(i).None? && results[i].Some? && retriable(results[i].value)
  }

  /** The ways to go on from there: wait and try again, or stop with the attempt's result, with the
      context's error before it, or with the error that interrupts the wait. */
  lemma AfterAttempt(before: nat -> Option<Error>, during: nat -> Option<Error>, retriable: Error -> bool,
                     delays: seq<nat>, results: seq<Option<Error>>, waits: seq<nat>, result: Option<Error>)
    requires Waited(before, during, retriable, delays, results, waits)
    ensures var n := |waits|;
            && (before(n).Some? ==> Paced(before, during, retriable, delays, Trace(results, waits, before(n))))
            && (before(n).None? && (result.None? || !retriable(result.value) || n == |delays|) ==>
                  Paced(before, during, retriable, delays, Trace(results + [result], waits, result)))
            && (before(n).None? && result.Some? && retriable(result.value) && n < |delays| ==>
                  if during(n).Some?
                  then Paced(before, during, retriable, delays, Trace(results + [result], waits, during(n)))
                  else Waited(before, during, retriable, delays, results + [result], waits + [delays[n]]))
  {
  }

  /** The trace is paced and made of this world's attempts. */
  ghost predicate Follows(w: World, retriable: Error -> bool, delays: seq<nat>, t: Trace) {
    Paced(w.before, w.during, retriable, delays, t) && Made(w, t.results)
  }

  ghost predicate Made(w: World, results: seq<Option<Error>>) {
    forall i | 0 <= i < |results| :: results[i] == w.op(i)
  }

  /** nil is returned exactly for a last attempt that succeeded. */
  predicate Ended(last: Option<Error>, err: Option<Error>) {
    err.None? <==> last.None?
  }

  function Sum(xs: seq<nat>): nat {
    if xs == [] then 0 else xs[0] + Sum(xs[1..])
  }

  lemma {:induction false} PrefixSum(xs: seq<nat>, n: nat)
    requires n <= |xs|
    ensures Sum(xs[..n]) <= Sum(xs)
  {
    if n > 0 {
      assert xs[..n][0] == xs[0] && xs[..n][1..] == xs[1..][..n - 1];
      PrefixSum(xs[1..], n - 1);
    }
  }

  /** At most one attempt more than there are delays, and never more waiting than all delays together. */
  lemma TraceBounds(before: nat -> Option<Error>, during: nat -> Option<Error>,
                    retriable: Error -> bool, delays: seq<nat>, t: Trace)
    requires Paced(before, during, retriable, delays, t)
    ensures |t.results| <= |delays| + 1 && Sum(t.waits) <= Sum(delays)
    ensures forall i | 0 <= i < |t.results| - 1 :: t.results[i].Some? && retriable(t.results[i].value)
    ensures t.err.None? <==> t.results != [] && t.results[|t.results| - 1].None?
  {
    PrefixSum(delays, |t.waits|);
  }

  /** With the delays as configured, four attempts and nine seconds. */
  lemma DefaultBounds(before: nat -> Option<Error>, during: nat -> Option<Error>, retriable: Error -> bool, t: Trace)
    requires Paced(before, during, retriable, DELAYS, t)
    ensures |t.results| <= 4 && Sum(t.waits) <= 9
  {
    TraceBounds(before, during, retriable, DELAYS, t);
    assert DELAYS[1..] == [3, 5] && DELAYS[1..][1..] == [5] && DELAYS[1..][1..][1..] == [];
    assert Sum(DELAYS) == 9;
  }

  /** The world and the classification leave a loop no choice. */
  lemma TraceUnique(w: World, retriable: Error -> bool, delays: seq<nat>, t: Trace, u: Trace)
    requires Follows(w, retriable, delays, t) && Follows(w, retriable, delays, u)
    ensures t == u
  {
  }

  /** Two loops that agree on the errors they meet make the same trace, whichever of the three they
      are: the checks that only the PostgreSQL loop makes matter only when they find a cancelled context. */
  lemma TracesCoincide(op: nat -> Option<Error>, before: nat -> Option<Error>, during: nat -> Option<Error>,
                       mine: Error -> bool, yours: Error -> bool, delays: seq<nat>, t: Trace, u: Trace)
    requires Follows(World(op, before, during), mine, delays, t)
    requires Follows(World(op, NeverCancelled, during), yours, delays, u)
    requires forall i :: before(i).None?
    requires forall i :: op(i).Some? ==> mine(op(i).value) == yours(op(i).value)
    ensures t == u
  {
  }

  /** A loop in this world about to make its next attempt. */
  ghost predicate Going(w: World, retriable: Error -> bool, delays: seq<nat>, results: seq<Option<Error>>, waits: seq<nat>) {
    Waited(w.before, w.during, retriable, delays, results, waits) && Made(w, results)
  }

  /** What the attempt makes of it. */
  lemma NextAttempt(w: World, retriable: Error -> bool, delays: seq<nat>, results: seq<Option<Error>>, waits: seq<nat>)
    requires Going(w, retriable, delays, results, waits)
    ensures var n := |waits|;
            var result, more := w.op(n), results + [w.op(n)];
            if w.before(n).Some? then Follows(w, retriable, delays, Trace(results, waits, w.before(n)))
            else if result.None? || !retriable(result.value) || n == |delays| then
              Follows(w, retriable, delays, Trace(more, waits, result))
            else if w.during(n).Some? then Follows(w, retriable, delays, Trace(more, waits, w.during(n)))
            else Going(w, retriable, delays, more, waits + [delays[n]])
  {
    AfterAttempt(w.before, w.during, retriable, delays, results, waits, w.op(|waits|));
  }

  function NeverCancelled(i: nat): Option<Error> {
    None
  }

  // ---------------------------------------------------------------------------
  // The loops
  // ---------------------------------------------------------------------------

  /** The loop of GRPCSender.Send, with the sender's own list of delays. */
  method SendGRPC(w: World, retryDelays: seq<nat>) returns (err: Option<Error>, t: Trace)
    ensures Follows(World(w.op, NeverCancelled, w.during), IsRetriableGRPCError, retryDelays, t)
    ensures err == if t.err.Some? then Some(Wrapped(t.err.value)) else None
  {
    ghost var world := World(w.op, NeverCancelled, w.during);
    var results: seq<Option<Error>>, waits: seq<nat> := [], [];
    var attempt := 0;
    while true
      invariant attempt == |waits| && Going(world, IsRetriableGRPCError, retryDelays, results, waits)
      decreases |retryDelays| - attempt
    {
      var lastErr := w.op(attempt);
      NextAttempt(world, IsRetriableGRPCError, retryDelays, results, waits);
      results := results + [lastErr];
      if lastErr.None? {
        return None, Trace(results, waits, None);
      }
      if attempt >= |retryDelays| || !IsRetriableGRPCError(lastErr.value) {
        return Some(Wrapped(lastErr.value)), Trace(results, waits, lastErr);
      }
      var interrupted := w.during(attempt);
      if interrupted.Some? {
        return Some(Wrapped(interrupted.value)), Trace(results, waits, interrupted);
      }
      waits := waits + [retryDelays[attempt]];
      attempt := attempt + 1;
    }
  }

  /** The loop of HTTPSender.postWithRetry. */
  method PostWithRetry(w: World) returns (err: Option<Error>, t: Trace)
    ensures Follows(World(w.op, NeverCancelled, w.during), IsRetriableSendError, DELAYS, t)
    ensures err == t.err
  {
    ghost var world := World(w.op, NeverCancelled, w.during);
    var retryDelays := DELAYS;
    var results: seq<Option<Error>>, waits: seq<nat> := [], [];
    var attempt := 0;
    while true
      invariant attempt == |waits| && Going(world, IsRetriableSendError, retryDelays, results, waits)
      decreases |retryDelays| - attempt
    {
      var lastErr := w.op(attempt);
      NextAttempt(world, IsRetriableSendError, retryDelays, results, waits);
      results := results + [lastErr];
      if lastErr.None? {
        return None, Trace(results, waits, None);
      }
      if attempt >= |retryDelays| || !IsRetriableSendError(lastErr.value) {
        return lastErr, Trace(results, waits, lastErr);
      }
      var interrupted := w.during(attempt);
      if interrupted.Some? {
        return interrupted, Trace(results, waits, interrupted);
      }
      waits := waits + [retryDelays[attempt]];
      attempt := attempt + 1;
    }
  }

  /** retryDBOperation around an operation without effects of its own; PostgresStorage runs the
      same loop around statements that change the table. */
  method RetryDBOperation(w: World) returns (err: Option<Error>, t: Trace)
    ensures Follows(w, IsRetriablePGError, DELAYS, t)
    ensures err == t.err
  {
    var retryDelays := DELAYS;
    var results: seq<Option<Error>>, waits: seq<nat> := [], [];
    for attempt := 0 to |retryDelays| + 1
      invariant attempt == |waits| && Going(w, IsRetriablePGError, retryDelays, results, waits)
    {
      var cancelled, result := w.before(attempt), w.op(attempt);
      NextAttempt(w, IsRetriablePGError, retryDelays, results, waits);
      if cancelled.Some? {
        return cancelled, Trace(results, waits, cancelled);
      }
      results := results + [result];
      if result.None? {
        return None, Trace(results, waits, None);
      }
      if !IsRetriablePGError(result.value) || attempt == |retryDelays| {
        return result, Trace(results, waits, result);
      }
      var interrupted := w.during(attempt);
      if interrupted.Some? {
        return interrupted, Trace(results, waits, interrupted);
      }
      waits := waits + [retryDelays[attempt]];
    }
    assert false;
  }
}
