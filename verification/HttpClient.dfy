/**
 The control state of HttpClient: which outcome of a request leads to another connection, and why that ends.
 The pool of connections, the cache and the request document are environment, given as functions.
 */
module HttpClients {
  import opened Ascii
  import G = HttpGrammar

  const MAX_REDIRECTS: nat := 5
  const DEFAULT_RETRIES: nat := 1

  const SEE_OTHER: nat := 303
  const PROXY_AUTHENTICATION_REQUIRED: nat := 407
  const INTERNAL_SERVER_ERROR: nat := 500

  datatype Mode = Idle | Connecting | Sending | Receiving
  datatype RedirectAction = Default | Always | Never
  datatype Verb = Get | Post | Put | Delete | ConnectVerb | Head

  /** What the pool has: no stream, one that is being opened, or an open one. */
  datatype Stream = Refused | Opening | Open

  /** The cache has nothing, has something that must not be used, or serves the request. */
  datatype CacheAnswer = NoEntry | Unusable | Served(response: Response, error: G.HttpError)

  /** Status code, whether there is a Location, and the first attribute of each Proxy-Authenticate header, if any. */
  datatype Response = Response(scode: nat, location: bool, schemes: seq<Option<string>>)

  /** A response after clear(). */
  const NO_RESPONSE := Response(INTERNAL_SERVER_ERROR, false, [])

  /** Configuration and environment; the environment answers by the number of connections, or starts, so far. */
  datatype Setup = Setup(
    retries: nat,
    action: RedirectAction,
    proxied: bool,
    username: string,
    chunkedRequest: bool,
    pool: nat -> Stream,
    cache: nat -> CacheAnswer,
    rewinds: nat -> bool)

  datatype Control = Control(
    attempt: nat,
    redirects: nat,
    context: Option<string>,
    mode: Mode,
    verb: Verb,
    document: bool,
    response: Response,
    starts: nat,
    connections: nat,
    signals: seq<G.HttpError>)

  predicate Sane(s: Setup, c: Control) {
    c.attempt <= s.retries && c.redirects <= MAX_REDIRECTS
  }

  // ---------------------------------------------------------------- authentication

  datatype AuthResult = Answer | Ignore | Credentials

  predicate Known(scheme: string) {
    EqualsNoCase(scheme, "basic") || EqualsNoCase(scheme, "digest")
  }

  /** HttpAuthenticate outside Windows; it makes a context exactly when it answers. */
  function Authenticate(context: Option<string>, username: string, scheme: string): AuthResult {
    if context.Some? && context.value != scheme then Ignore
    else if Known(scheme) then
      if context.Some? || username == "" then Credentials else Answer
    else Ignore
  }

  /** A header without attributes leaves the scheme of the one before in place. */
  function Carried(scheme: Option<string>, before: string): string {
    if scheme.Some? then scheme.value else before
  }

  /** The loop over the challenges: the context left behind, and the error, or None when a request is to be sent. */
  function Challenged(context: Option<string>, username: string, schemes: seq<Option<string>>, before: string,
                      blocked: bool, error: G.HttpError): (r: (Option<string>, Option<G.HttpError>))
    decreases |schemes|
  {
    if schemes == [] then (context, Some(error))
    else
      var scheme := Carried(schemes[0], before);
      match Authenticate(context, username, scheme)
      case Answer =>
        if blocked then Challenged(Some(scheme), username, schemes[1..], scheme, blocked, G.StreamFailed)
        else (Some(scheme), None)
      case Ignore => Challenged(context, username, schemes[1..], scheme, blocked, error)
      case Credentials => (context, Some(error))
  }

  lemma {:induction false} NeverTwice(context: Option<string>, username: string, schemes: seq<Option<string>>,
                                      before: string, blocked: bool, error: G.HttpError)
    requires context.Some? || username == ""
    ensures Challenged(context, username, schemes, before, blocked, error) == (context, Some(error))
    decreases |schemes|
  {
    if schemes != [] {
      NeverTwice(context, username, schemes[1..], Carried(schemes[0], before), blocked, error);
    }
  }

  predicate KnownAt(schemes: seq<Option<string>>, i: int)
    requires 0 <= i < |schemes|
  {
    schemes[i].Some? && Known(schemes[i].value)
  }

  /** There are credentials, none have been sent since the last redirect, and one of the schemes is known. */
  predicate Answerable(context: Option<string>, username: string, schemes: seq<Option<string>>) {
    context.None? && username != "" && exists i :: 0 <= i < |schemes| && KnownAt(schemes, i)
  }

  predicate FirstKnown(schemes: seq<Option<string>>, i: int) {
    0 <= i < |schemes| && KnownAt(schemes, i) && forall j :: 0 <= j < i ==> !KnownAt(schemes, j)
  }

  lemma NoSchemeIsUnknown()
    ensures !Known("")
  {
  }

  /**
   * A request with credentials is sent exactly when the challenge can be answered and the document can be sent
   * again; it answers the first scheme known. Headers without attributes, for which the scheme before them is tried
   * again, make no difference.
   */
  lemma {:induction false} AnswersIff(context: Option<string>, username: string, schemes: seq<Option<string>>,
                                      before: string, blocked: bool, error: G.HttpError)
    requires !Known(before)
    ensures var r := Challenged(context, username, schemes, before, blocked, error);
      var able := Answerable(context, username, schemes);
      && r.1 == (if !able then Some(error) else if blocked then Some(G.StreamFailed) else None)
      && (!able ==> r.0 == context)
      && (able ==> exists i :: FirstKnown(schemes, i) && r.0 == schemes[i])
    decreases |schemes|
  {
    hide Known;
    if context.Some? || username == "" {
      NeverTwice(context, username, schemes, before, blocked, error);
    } else if schemes != [] {
      var rest, scheme := schemes[1..], Carried(schemes[0], before);
      forall i | 1 <= i < |schemes| ensures KnownAt(schemes, i) == KnownAt(rest, i - 1) {
      }
      if KnownAt(schemes, 0) {
        NeverTwice(Some(scheme), username, rest, scheme, blocked, G.StreamFailed);
        assert FirstKnown(schemes, 0);
      } else {
        AnswersIff(context, username, rest, scheme, blocked, error);
        if Answerable(context, username, rest) {
          var i :| FirstKnown(rest, i) &&
            Challenged(context, username, rest, scheme, blocked, error).0 == rest[i];
          assert KnownAt(schemes, i + 1) && FirstKnown(schemes, i + 1);
        } else {
          assert !Answerable(context, username, schemes);
        }
      }
    }
  }

  // ---------------------------------------------------------------- the state machine

  predicate Lost(error: G.HttpError) {
    error == G.Disconnected || error == G.ConnectFailed || error == G.SocketError
  }

  predicate Redirects(s: Setup, c: Control) {
    && s.action != Never
    && c.response.scode / 100 == 3
    && c.response.location
    && c.redirects < MAX_REDIRECTS
    && (s.action == Always || c.response.scode == SEE_OTHER || c.verb == Head || c.verb == Get)
  }

  function Finish(c: Control, error: G.HttpError): Control {
    c.(mode := Idle, signals := c.signals + [error])
  }

  /** The connections that may still follow: retries, an answer with its own, and two rounds for each redirect. */
  function Left(retries: nat, attempt: nat, unused: bool, hops: nat): nat
    requires attempt <= retries
  {
    (retries - attempt) + (if unused then retries + 1 else 0) + hops * (2 * (retries + 1))
  }

  function Future(s: Setup, c: Control): nat
    requires Sane(s, c)
  {
    Left(s.retries, c.attempt, c.context.None?, MAX_REDIRECTS - c.redirects)
  }

  lemma RetryPays(retries: nat, attempt: nat, unused: bool, hops: nat)
    requires attempt < retries
    ensures Left(retries, attempt + 1, unused, hops) + 1 == Left(retries, attempt, unused, hops)
  {
  }

  lemma RedirectPays(retries: nat, attempt: nat, unused: bool, hops: nat)
    requires attempt <= retries
    ensures Left(retries, 0, true, hops) + 1 <= Left(retries, attempt, unused, hops + 1)
  {
    assert (hops + 1) * (2 * (retries + 1)) == hops * (2 * (retries + 1)) + 2 * (retries + 1);
  }

  lemma ContextPays(retries: nat, attempt: nat, hops: nat)
    requires attempt <= retries
    ensures Left(retries, attempt, false, hops) <= Left(retries, attempt, true, hops)
    ensures Left(retries, 0, false, hops) + 1 <= Left(retries, attempt, true, hops)
  {
  }

  /** From c to r no more connections were used than were left, and the caller was told exactly when it was over. */
  predicate Progress(s: Setup, c: Control, r: Control, left: nat) {
    && Sane(s, r)
    && c.connections <= r.connections && c.starts <= r.starts
    && r.connections + Future(s, r) <= c.connections + left
    && c.signals <= r.signals
    && |r.signals| == |c.signals| + if r.mode == Idle then 1 else 0
  }

  /** start(). */
  function Begin(s: Setup, c: Control): (r: Control)
    requires Sane(s, c)
    ensures c.mode == Idle && !s.chunkedRequest ==>
              Progress(s, c, r, Future(s, c.(attempt := 0)) + 1) && c.starts < r.starts
    ensures c.mode != Idle || s.chunkedRequest ==> r == c
    decreases MAX_REDIRECTS - c.redirects, if c.context.None? then 1 else 0, s.retries + 1, 0
  {
    if c.mode != Idle || s.chunkedRequest then c
    else
      var d := c.(attempt := 0, starts := c.starts + 1);
      match s.cache(c.starts)
      case Served(response, error) => Finish(d.(response := response), error)
      case Unusable => Connect(s, d.(response := NO_RESPONSE))
      case NoEntry => Connect(s, d)
  }

  /** connect(). */
  function Connect(s: Setup, c: Control): (r: Control)
    requires Sane(s, c) && c.mode == Idle && !s.chunkedRequest
    ensures Progress(s, c, r, Future(s, c) + 1)
    decreases MAX_REDIRECTS - c.redirects, if c.context.None? then 1 else 0, s.retries - c.attempt, 2
  {
    hide Left;
    var d := c.(connections := c.connections + 1);
    match s.pool(c.connections)
    case Refused => Completed(s, d, Connecting, G.ConnectFailed)
    case Opening => d.(mode := Connecting)
    case Open => d.(mode := Sending)
  }

  /** onHttpComplete(). */
  function Completed(s: Setup, c: Control, mode: Mode, error: G.HttpError): (r: Control)
    requires Sane(s, c) && c.mode == Idle && !s.chunkedRequest
    ensures Progress(s, c, r, Future(s, c))
    decreases MAX_REDIRECTS - c.redirects, if c.context.None? then 1 else 0, s.retries - c.attempt, 1
  {
    hide Left;
    var blocked := c.document && !s.rewinds(c.connections);
    if Lost(error) && c.response.scode == INTERNAL_SERVER_ERROR && c.attempt < s.retries then
      var d := c.(attempt := c.attempt + 1);
      RetryPays(s.retries, c.attempt, c.context.None?, MAX_REDIRECTS - c.redirects);
      if blocked then Finish(d, G.StreamFailed) else Connect(s, d)
    else if error != G.NoError then Finish(c, error)
    else if mode == Connecting then c.(mode := Sending)
    else if mode == Sending || c.response.scode / 100 == 1 then c.(mode := Receiving)
    else Answered(s, c)
  }

  /** The end of onHttpComplete() for a response that has been received. */
  function Answered(s: Setup, c: Control): (r: Control)
    requires Sane(s, c) && c.mode == Idle && !s.chunkedRequest
    ensures Progress(s, c, r, Future(s, c))
    decreases MAX_REDIRECTS - c.redirects, if c.context.None? then 1 else 0, s.retries - c.attempt, 0, 1
  {
    hide Left;
    if Redirects(s, c) then Followed(s, c)
    else if c.response.scode == PROXY_AUTHENTICATION_REQUIRED && s.proxied then Authorized(s, c)
    else Finish(c, G.NoError)
  }

  function Followed(s: Setup, c: Control): (r: Control)
    requires Sane(s, c) && c.mode == Idle && !s.chunkedRequest && c.redirects < MAX_REDIRECTS
    ensures Progress(s, c, r, Future(s, c))
    decreases MAX_REDIRECTS - c.redirects, if c.context.None? then 1 else 0, s.retries - c.attempt, 0, 0
  {
    hide Left;
    var d := c.(redirects := c.redirects + 1, context := None, response := NO_RESPONSE);
    RedirectPays(s.retries, c.attempt, c.context.None?, MAX_REDIRECTS - d.redirects);
    if c.response.scode == SEE_OTHER then Begin(s, d.(verb := Get, document := false))
    else if c.document && !s.rewinds(c.connections) then Finish(c, G.StreamFailed)
    else Begin(s, d)
  }

  function Authorized(s: Setup, c: Control): (r: Control)
    requires Sane(s, c) && c.mode == Idle && !s.chunkedRequest
    ensures Progress(s, c, r, Future(s, c))
    decreases MAX_REDIRECTS - c.redirects, if c.context.None? then 1 else 0, s.retries - c.attempt, 0, 0
  {
    hide Left, Challenged;
    var blocked := c.document && !s.rewinds(c.connections);
    var (context, failure) := Challenged(c.context, s.username, c.response.schemes, "", blocked, G.NoError);
    AnswersIff(c.context, s.username, c.response.schemes, "", blocked, G.NoError);
    ContextPays(s.retries, c.attempt, MAX_REDIRECTS - c.redirects);
    match failure
    case None => Begin(s, c.(context := context, response := NO_RESPONSE))
    case Some(e) => Finish(c.(context := context), e)
  }

  /** What the base reports next: the operation in progress is over, with what it has received meanwhile. */
  datatype Event = Event(error: G.HttpError, response: Response)

  function Deliver(s: Setup, c: Control, e: Event): (r: Control)
    requires Sane(s, c) && (c.mode != Idle ==> !s.chunkedRequest)
    ensures Sane(s, r) && (r.mode != Idle ==> !s.chunkedRequest)
  {
    if c.mode == Idle then c
    else
      var response := if c.mode == Receiving then e.response else c.response;
      Completed(s, c.(mode := Idle, response := response), c.mode, e.error)
  }

  function Run(s: Setup, c: Control, events: seq<Event>): (r: Control)
    requires Sane(s, c) && (c.mode != Idle ==> !s.chunkedRequest)
    ensures Sane(s, r)
    decreases |events|
  {
    if events == [] then c else Run(s, Deliver(s, c, events[0]), events[1..])
  }

  // ---------------------------------------------------------------- whole runs

  lemma {:induction false} RunProgress(s: Setup, c: Control, events: seq<Event>)
    requires Sane(s, c) && c.mode != Idle && !s.chunkedRequest
    ensures var r := Run(s, c, events);
      && c.connections <= r.connections
      && r.connections + Future(s, r) <= c.connections + Future(s, c)
      && c.signals <= r.signals && |r.signals| == |c.signals| + if r.mode == Idle then 1 else 0
    decreases |events|
  {
    hide Completed, Left;
    if events != [] {
      var d := Deliver(s, c, events[0]);
      if d.mode == Idle {
        RunIdle(s, d, events[1..]);
      } else {
        RunProgress(s, d, events[1..]);
      }
    }
  }

  lemma {:induction false} RunIdle(s: Setup, c: Control, events: seq<Event>)
    requires Sane(s, c) && c.mode == Idle
    ensures Run(s, c, events) == c
    decreases |events|
  {
    if events != [] {
      RunIdle(s, c, events[1..]);
    }
  }

  /** The largest number of connections for one request: five redirects, each hop answering one challenge. */
  function MostConnections(retries: nat): nat {
    2 * (MAX_REDIRECTS + 1) * (retries + 1)
  }

  /**
   * However the pool, the cache, the servers and the network behave, a request that is started after reset() asks
   * for at most MostConnections connections, and its owner is told of the end once, when it is over.
   */
  lemma OneRequest(s: Setup, c: Control, events: seq<Event>)
    requires c.mode == Idle && c.attempt <= s.retries && c.redirects == 0 && c.context.None? && !s.chunkedRequest
    ensures var r := Run(s, Begin(s, c), events);
      && r.connections <= c.connections + MostConnections(s.retries)
      && c.signals <= r.signals
      && |r.signals| == |c.signals| + if r.mode == Idle then 1 else 0
  {
    hide Begin, Run;
    var d := Begin(s, c);
    if d.mode == Idle {
      RunIdle(s, d, events);
    } else {
      RunProgress(s, d, events);
    }
  }

  // The bound is met: every hop loses its connections, is challenged, loses them again, and is redirected.

  const LOST := Event(G.Disconnected, NO_RESPONSE)
  const DONE := Event(G.NoError, NO_RESPONSE)
  const CHALLENGE := Event(G.NoError, Response(PROXY_AUTHENTICATION_REQUIRED, false, [Some("Basic")]))
  const MOVED := Event(G.NoError, Response(302, true, []))

  function Worst(retries: nat): Setup {
    Setup(retries, Always, true, "user", false, _ => Opening, _ => NoEntry, _ => true)
  }

  /** Loses n connections and then gets the response. */
  function Lose(n: nat, last: Event): seq<Event> {
    if n == 0 then [DONE, DONE, last] else [LOST] + Lose(n - 1, last)
  }

  const OKAY := Event(G.NoError, Response(200, false, []))

  function Hops(retries: nat, hops: nat): seq<Event> {
    if hops == 0 then []
    else Hops(retries, hops - 1) + Lose(retries, MOVED) + Lose(retries, CHALLENGE)
  }

  function WorstRun(retries: nat): seq<Event> {
    Lose(retries, CHALLENGE) + Hops(retries, MAX_REDIRECTS) + Lose(retries, OKAY)
  }

  lemma {:induction false} RunConcat(s: Setup, c: Control, first: seq<Event>, second: seq<Event>)
    requires Sane(s, c) && (c.mode != Idle ==> !s.chunkedRequest)
    ensures var d := Run(s, c, first);
      && (d.mode != Idle ==> !s.chunkedRequest)
      && Run(s, c, first + second) == Run(s, d, second)
    decreases |first|
  {
    hide Deliver;
    if first == [] {
      assert first + second == second;
    } else {
      assert (first + second)[0] == first[0] && (first + second)[1..] == first[1..] + second;
      RunConcat(s, Deliver(s, c, first[0]), first[1..], second);
    }
  }

  predicate Waiting(s: Setup, c: Control) {
    Sane(s, c) && c.mode == Connecting && c.response == NO_RESPONSE && !c.document
  }

  lemma {:induction false} LoseAll(retries: nat, c: Control, n: nat, last: Event)
    requires var s := Worst(retries); Waiting(s, c) && c.attempt + n <= retries
    ensures var s := Worst(retries);
      Run(s, c, Lose(n, last)) ==
      Completed(s, c.(mode := Idle, attempt := c.attempt + n, connections := c.connections + n,
                      response := last.response),
                Receiving, last.error)
    decreases n
  {
    hide Run, Deliver, Completed, Future, Progress;
    var s, events := Worst(retries), Lose(n, last);
    if n == 0 {
      GetsResponse(s, c, last);
    } else {
      var d := c.(attempt := c.attempt + 1, connections := c.connections + 1);
      LosesOne(retries, c);
      assert events[0] == LOST && events[1..] == Lose(n - 1, last);
      RunOnce(s, c, events);
      LoseAll(retries, d, n - 1, last);
    }
  }

  lemma RunOnce(s: Setup, c: Control, events: seq<Event>)
    requires Sane(s, c) && (c.mode != Idle ==> !s.chunkedRequest) && events != []
    ensures Run(s, c, events) == Run(s, Deliver(s, c, events[0]), events[1..])
  {
  }

  lemma GetsResponse(s: Setup, c: Control, last: Event)
    requires Waiting(s, c) && !s.chunkedRequest
    ensures Run(s, c, [DONE, DONE, last]) ==
            Completed(s, c.(mode := Idle, response := last.response), Receiving, last.error)
  {
    hide Run, Completed, Future, Progress;
    var events := [DONE, DONE, last];
    AfterConnecting(s, c);
    RunOnce(s, c, events);
    assert events[1..] == [DONE, last];
    RunOnce(s, c.(mode := Sending), [DONE, last]);
    assert [DONE, last][1..] == [last];
    RunOnce(s, c.(mode := Receiving), [last]);
    assert [last][1..] == [];
    RunNothing(s, Deliver(s, c.(mode := Receiving), last));
  }

  lemma Restarts(retries: nat, c: Control)
    requires Sane(Worst(retries), c) && c.mode == Idle
    ensures Connect(Worst(retries), c) == c.(connections := c.connections + 1, mode := Connecting)
    ensures Begin(Worst(retries), c) ==
            c.(attempt := 0, starts := c.starts + 1, connections := c.connections + 1, mode := Connecting)
  {
    var s := Worst(retries);
    assert s.cache(c.starts) == NoEntry && s.pool(c.connections) == Opening;
    hide Completed;
  }

  lemma AfterConnecting(s: Setup, c: Control)
    requires Waiting(s, c) && !s.chunkedRequest
    ensures Deliver(s, c, DONE) == c.(mode := Sending)
    ensures Deliver(s, c.(mode := Sending), DONE) == c.(mode := Receiving)
  {
  }

  lemma LosesOne(retries: nat, c: Control)
    requires Waiting(Worst(retries), c) && c.attempt < retries
    ensures Deliver(Worst(retries), c, LOST) == c.(attempt := c.attempt + 1, connections := c.connections + 1)
  {
    hide Connect;
    Restarts(retries, c.(mode := Idle, attempt := c.attempt + 1));
  }

  lemma Authorizes(s: Setup, c: Control)
    requires Sane(s, c) && c.mode == Idle && !s.chunkedRequest && !c.document && s.proxied && s.username == "user"
    requires c.response == CHALLENGE.response && c.context.None?
    ensures Completed(s, c, Receiving, CHALLENGE.error) ==
            Begin(s, c.(context := Some("Basic"), response := NO_RESPONSE))
  {
    hide Begin, Connect, Followed, Left, Progress, Challenged;
    assert !Redirects(s, c);
    assert Completed(s, c, Receiving, CHALLENGE.error) == Answered(s, c) == Authorized(s, c);
    AnswersBasic();
  }

  lemma AnswersBasic()
    ensures Challenged(None, "user", [Some("Basic")], "", false, G.NoError) == (Some("Basic"), None)
  {
    assert Authenticate(None, "user", "Basic") == Answer;
  }

  lemma Challenge(retries: nat, c: Control)
    requires var s := Worst(retries); Waiting(s, c) && c.attempt == 0 && c.context.None?
    ensures var s := Worst(retries);
      Run(s, c, Lose(retries, CHALLENGE)) ==
      c.(connections := c.connections + retries + 1, starts := c.starts + 1, context := Some("Basic"))
  {
    hide Lose, Begin, Run, Completed, Progress, Left, Future, Redirects;
    var d := c.(mode := Idle, attempt := retries, connections := c.connections + retries,
                response := CHALLENGE.response);
    LoseAll(retries, c, retries, CHALLENGE);
    Authorizes(Worst(retries), d);
    Restarts(retries, d.(context := Some("Basic"), response := NO_RESPONSE));
  }

  lemma Redirected(s: Setup, c: Control)
    requires Sane(s, c) && c.mode == Idle && !s.chunkedRequest && !c.document && s.action == Always
    requires c.response == MOVED.response && c.redirects < MAX_REDIRECTS
    ensures Completed(s, c, Receiving, MOVED.error) ==
            Begin(s, c.(redirects := c.redirects + 1, context := None, response := NO_RESPONSE))
  {
    hide Begin, Connect, Authorized, Left, Progress;
    assert Completed(s, c, Receiving, MOVED.error) == Answered(s, c) == Followed(s, c);
  }

  lemma Moved(retries: nat, c: Control)
    requires var s := Worst(retries); Waiting(s, c) && c.attempt == 0 && c.redirects < MAX_REDIRECTS
    ensures var s := Worst(retries);
      Run(s, c, Lose(retries, MOVED)) ==
      c.(connections := c.connections + retries + 1, starts := c.starts + 1, context := None,
         redirects := c.redirects + 1)
  {
    hide Lose, Begin, Run, Completed, Progress, Left, Future, Redirects;
    var d := c.(mode := Idle, attempt := retries, connections := c.connections + retries, response := MOVED.response);
    LoseAll(retries, c, retries, MOVED);
    Redirected(Worst(retries), d);
    Restarts(retries, d.(redirects := c.redirects + 1, context := None, response := NO_RESPONSE));
  }

  lemma {:induction false} HopsUse(retries: nat, c: Control, hops: nat)
    requires var s := Worst(retries); Waiting(s, c) && c.attempt == 0 && c.context == Some("Basic")
    requires c.redirects + hops <= MAX_REDIRECTS
    ensures var s := Worst(retries);
      Run(s, c, Hops(retries, hops)) ==
      c.(connections := c.connections + hops * (2 * (retries + 1)), starts := c.starts + 2 * hops,
         redirects := c.redirects + hops)
    decreases hops
  {
    hide Run, Lose;
    var s := Worst(retries);
    if hops == 0 {
      RunNothing(s, c);
    } else {
      var before, move, answer := Hops(retries, hops - 1), Lose(retries, MOVED), Lose(retries, CHALLENGE);
      HopsUse(retries, c, hops - 1);
      RunConcat(s, c, before + move, answer);
      RunConcat(s, c, before, move);
      var d := Run(s, c, before);
      Moved(retries, d);
      Challenge(retries, Run(s, d, move));
      assert hops * (2 * (retries + 1)) == (hops - 1) * (2 * (retries + 1)) + 2 * (retries + 1);
    }
  }

  lemma RunNothing(s: Setup, c: Control)
    requires Sane(s, c) && (c.mode != Idle ==> !s.chunkedRequest)
    ensures Run(s, c, []) == c
  {
  }

  lemma BoundIsMet(retries: nat)
    ensures var s, c := Worst(retries), Control(0, 0, None, Idle, Get, false, NO_RESPONSE, 0, 0, []);
      && Run(s, Begin(s, c), WorstRun(retries)).connections == MostConnections(retries)
      && Run(s, Begin(s, c), WorstRun(retries)).signals == [G.NoError]
  {
    hide Run, Lose, Hops;
    var s, c := Worst(retries), Control(0, 0, None, Idle, Get, false, NO_RESPONSE, 0, 0, []);
    var d := Begin(s, c);
    Restarts(retries, c);
    var first, hops, last := Lose(retries, CHALLENGE), Hops(retries, MAX_REDIRECTS), Lose(retries, OKAY);
    RunConcat(s, d, first + hops, last);
    RunConcat(s, d, first, hops);
    Challenge(retries, d);
    HopsUse(retries, Run(s, d, first), MAX_REDIRECTS);
    LoseAll(retries, Run(s, d, first + hops), retries, OKAY);
  }

  // ---------------------------------------------------------------- when a request ends well

  /** Neither a start nor a retry changes what is asked for. */
  predicate AsksTheSame(c: Control, r: Control) {
    r.redirects == c.redirects && r.context == c.context && r.verb == c.verb && r.document == c.document
  }

  /** Neither an error nor a retry that the pool refuses ends well, or starts anew. */
  lemma {:induction false} EndsBadly(s: Setup, c: Control, mode: Mode, error: G.HttpError)
    requires Sane(s, c) && c.mode == Idle && !s.chunkedRequest && error != G.NoError
    ensures var r := Completed(s, c, mode, error);
      && r.signals != c.signals + [G.NoError] && r.starts == c.starts && AsksTheSame(c, r)
      && r.response == c.response && c.attempt <= r.attempt
    decreases s.retries - c.attempt, 0
  {
    hide Answered, Connect, Left;
    if Lost(error) && c.response.scode == INTERNAL_SERVER_ERROR && c.attempt < s.retries {
      ConnectBadly(s, c.(attempt := c.attempt + 1));
    }
    LastSignal(c.signals, error);
    LastSignal(c.signals, G.StreamFailed);
    LastSignal(c.signals, G.NoError);
  }

  lemma {:induction false} ConnectBadly(s: Setup, c: Control)
    requires Sane(s, c) && c.mode == Idle && !s.chunkedRequest
    ensures var r := Connect(s, c);
      && r.signals != c.signals + [G.NoError] && r.starts == c.starts && AsksTheSame(c, r)
      && r.response == c.response && c.attempt <= r.attempt && c.connections < r.connections
    decreases s.retries - c.attempt, 1
  {
    hide Completed, Left;
    EndsBadly(s, c.(connections := c.connections + 1), Connecting, G.ConnectFailed);
    LastSignal(c.signals, G.NoError);
  }

  lemma LastSignal(signals: seq<G.HttpError>, error: G.HttpError)
    ensures |signals + [error]| == |signals| + 1 && (signals + [error])[|signals|] == error
  {
  }

  /** A start ends at once with what the cache says if it serves the request, and otherwise not well. */
  ghost predicate Started(s: Setup, before: seq<G.HttpError>, r: Control) {
    r.starts > 0 &&
    match s.cache(r.starts - 1)
    case Served(_, error) => r.mode == Idle && r.signals == before + [error]
    case _ => r.signals != before + [G.NoError]
  }

  lemma BeginStarts(s: Setup, c: Control)
    requires Sane(s, c) && c.mode == Idle && !s.chunkedRequest
    ensures var r := Begin(s, c);
      && r.starts == c.starts + 1 && Started(s, c.signals, r) && AsksTheSame(c, r)
      && (s.cache(c.starts).NoEntry? ==> r.response == c.response)
  {
    hide Connect, Progress, Left;
    var d := c.(attempt := 0, starts := c.starts + 1);
    ConnectBadly(s, d);
    ConnectBadly(s, d.(response := NO_RESPONSE));
  }

  /** A final response, received whole, that does not redirect and is no challenge that can be answered. */
  ghost predicate GoodResponse(s: Setup, c: Control, e: Event) {
    && c.mode == Receiving && e.error == G.NoError && !(100 <= e.response.scode < 200)
    && !IsRedirect(s, c, e.response) && !IsChallenge(s, c, e.response)
  }

  /** A redirect that is to be followed. */
  predicate IsRedirect(s: Setup, c: Control, response: Response) {
    && 300 <= response.scode < 400 && response.location && c.redirects < 5 && s.action != Never
    && (s.action == Always || response.scode == 303 || c.verb == Get || c.verb == Head)
  }

  /** A challenge that can be answered, as none has been since the last redirect. */
  ghost predicate IsChallenge(s: Setup, c: Control, response: Response) {
    && response.scode == 407 && s.proxied && c.context == None && s.username != ""
    && exists scheme :: Some(scheme) in response.schemes &&
         (EqualsNoCase(scheme, "basic") || EqualsNoCase(scheme, "digest"))
  }

  lemma RedirectsIff(s: Setup, c: Control)
    ensures Redirects(s, c) <==> IsRedirect(s, c, c.response)
    ensures Redirects(s, c) ==> c.response.scode != 407
  {
  }

  lemma ChallengeIff(s: Setup, c: Control)
    ensures IsChallenge(s, c, c.response) <==>
      && c.response.scode == PROXY_AUTHENTICATION_REQUIRED && s.proxied
      && Answerable(c.context, s.username, c.response.schemes)
  {
    hide EqualsNoCase;
    var schemes := c.response.schemes;
    if scheme :| Some(scheme) in schemes && (EqualsNoCase(scheme, "basic") || EqualsNoCase(scheme, "digest")) {
      var i :| 0 <= i < |schemes| && schemes[i] == Some(scheme);
      assert KnownAt(schemes, i);
    }
    if i :| 0 <= i < |schemes| && KnownAt(schemes, i) {
      assert Some(schemes[i].value) in schemes;
    }
  }

  /** What a final response leads to: a redirect, another request with credentials, or the end. */
  lemma AnsweredLeads(s: Setup, c: Control)
    requires Sane(s, c) && c.mode == Idle && !s.chunkedRequest
    ensures var r := Answered(s, c);
      var redirect, challenge := IsRedirect(s, c, c.response), IsChallenge(s, c, c.response);
      var stuck := c.document && !s.rewinds(c.connections) && !(redirect && c.response.scode == 303);
      if !redirect && !challenge then r == c.(mode := Idle, signals := c.signals + [G.NoError])
      else if stuck then r.starts == c.starts && r.redirects == c.redirects && r.mode == Idle
        && r.signals == c.signals + [G.StreamFailed]
      else
        && r.starts == c.starts + 1 && Started(s, c.signals, r)
        && (s.cache(c.starts).NoEntry? ==> r.response == Response(500, false, []))
        && if redirect then
             && r.redirects == c.redirects + 1 && r.context == None
             && r.verb == (if c.response.scode == 303 then Get else c.verb)
             && r.document == (c.response.scode != 303 && c.document)
           else
             && r.redirects == c.redirects && r.verb == c.verb && r.document == c.document
             && exists i :: FirstKnown(c.response.schemes, i) && r.context == c.response.schemes[i]
  {
    RedirectsIff(s, c);
    ChallengeIff(s, c);
    if Redirects(s, c) {
      FollowedLeads(s, c);
    } else {
      AuthorizedLeads(s, c);
    }
    hide Begin, Connect, Challenged, Progress, Left, Started, Answerable, Known, Followed, Authorized;
  }

  lemma FollowedLeads(s: Setup, c: Control)
    requires Sane(s, c) && c.mode == Idle && !s.chunkedRequest && c.redirects < MAX_REDIRECTS
    ensures var r := Followed(s, c);
      if c.document && !s.rewinds(c.connections) && c.response.scode != 303 then
        r == c.(signals := c.signals + [G.StreamFailed])
      else
        && r.starts == c.starts + 1 && Started(s, c.signals, r)
        && (s.cache(c.starts).NoEntry? ==> r.response == Response(500, false, []))
        && r.redirects == c.redirects + 1 && r.context == None
        && r.verb == (if c.response.scode == 303 then Get else c.verb)
        && r.document == (c.response.scode != 303 && c.document)
  {
    hide Begin, Connect, Progress, Left, Started;
    var d := c.(redirects := c.redirects + 1, context := None, response := NO_RESPONSE);
    BeginStarts(s, d);
    BeginStarts(s, d.(verb := Get, document := false));
  }

  lemma AuthorizedLeads(s: Setup, c: Control)
    requires Sane(s, c) && c.mode == Idle && !s.chunkedRequest
    ensures var r := Authorized(s, c);
      if !Answerable(c.context, s.username, c.response.schemes) then r == c.(signals := c.signals + [G.NoError])
      else if c.document && !s.rewinds(c.connections) then
        && r.starts == c.starts && r.redirects == c.redirects && r.mode == Idle
        && r.signals == c.signals + [G.StreamFailed]
      else
        && r.starts == c.starts + 1 && Started(s, c.signals, r)
        && (s.cache(c.starts).NoEntry? ==> r.response == Response(500, false, []))
        && r.redirects == c.redirects && r.verb == c.verb && r.document == c.document
        && exists i :: FirstKnown(c.response.schemes, i) && r.context == c.response.schemes[i]
  {
    hide Begin, Connect, Challenged, Progress, Left, Started, Answerable, FirstKnown;
    var blocked := c.document && !s.rewinds(c.connections);
    NoSchemeIsUnknown();
    AnswersIff(c.context, s.username, c.response.schemes, "", blocked, G.NoError);
    var context := Challenged(c.context, s.username, c.response.schemes, "", blocked, G.NoError).0;
    BeginStarts(s, c.(context := context, response := NO_RESPONSE));
  }

  /** What the base reports ends a request well exactly if it is a good response; or a further start follows. */
  lemma EndsWell(s: Setup, c: Control, e: Event)
    requires Sane(s, c) && c.mode != Idle && !s.chunkedRequest
    ensures var r := Deliver(s, c, e);
      && (GoodResponse(s, c, e) ==> r.starts == c.starts && r.signals == c.signals + [G.NoError])
      && (!GoodResponse(s, c, e) ==>
            if r.starts == c.starts then r.signals != c.signals + [G.NoError]
            else r.starts == c.starts + 1 && Started(s, c.signals, r))
  {
    hide Answered, Connect, Progress, Left, Started, IsRedirect, IsChallenge;
    var d := c.(mode := Idle, response := if c.mode == Receiving then e.response else c.response);
    if e.error != G.NoError {
      EndsBadly(s, d, c.mode, e.error);
    } else if c.mode == Receiving {
      SameLeads(s, c, d, e.response);
      AnsweredLeads(s, d);
    }
    LastSignal(c.signals, G.NoError);
    LastSignal(c.signals, G.StreamFailed);
  }

  lemma SameLeads(s: Setup, c: Control, d: Control, response: Response)
    requires c.redirects == d.redirects && c.verb == d.verb && c.context == d.context
    ensures IsRedirect(s, c, response) == IsRedirect(s, d, response)
    ensures IsChallenge(s, c, response) == IsChallenge(s, d, response)
  {
  }

  /**
   A final response makes the client start again as a redirect exactly if it is one: in the three hundreds, with a
   Location, not the sixth, allowed by the configuration, and by that or by 303 or the verb to be repeated; and the
   document can be sent again, or is not needed any more. Then no credentials have been sent, and after 303 it is a GET
   without a document.
   */
  lemma FollowsIff(s: Setup, c: Control, e: Event)
    requires Sane(s, c) && c.mode == Receiving && !s.chunkedRequest
    requires e.error == G.NoError && !(100 <= e.response.scode < 200)
    ensures var r := Deliver(s, c, e);
      var redirect := 300 <= e.response.scode < 400 && e.response.location && c.redirects < 5 && s.action != Never
        && (s.action == Always || e.response.scode == 303 || c.verb == Get || c.verb == Head);
      var again := e.response.scode == 303 || !c.document || s.rewinds(c.connections);
      && (r.redirects == c.redirects + 1 <==> redirect && again)
      && (r.redirects == c.redirects <==> !(redirect && again))
      && (redirect && again ==>
            && r.starts == c.starts + 1 && r.context == None
            && r.verb == (if e.response.scode == 303 then Get else c.verb)
            && r.document == (e.response.scode != 303 && c.document)
            && (s.cache(c.starts).NoEntry? ==> r.response == Response(500, false, [])))
      && (redirect && !again ==> r.starts == c.starts && r.signals == c.signals + [G.StreamFailed])
  {
    hide Answered, Started, IsChallenge, FirstKnown, Left, Progress;
    AnsweredLeads(s, c.(mode := Idle, response := e.response));
  }

  /**
   And it makes it start again with credentials exactly if it is no redirect but a 407 behind a proxy, there is a user
   name, none have been sent since the last redirect, one of the schemes is Basic or Digest, and the document can be
   sent again. The first such scheme is answered.
   */
  lemma AnswersChallengeIff(s: Setup, c: Control, e: Event)
    requires Sane(s, c) && c.mode == Receiving && !s.chunkedRequest
    requires e.error == G.NoError && !(100 <= e.response.scode < 200)
    ensures var r := Deliver(s, c, e);
      var challenge := e.response.scode == 407 && s.proxied && c.context == None && s.username != ""
        && exists scheme :: Some(scheme) in e.response.schemes &&
             (EqualsNoCase(scheme, "basic") || EqualsNoCase(scheme, "digest"));
      var again := !c.document || s.rewinds(c.connections);
      && (r.starts == c.starts + 1 && r.redirects == c.redirects <==> challenge && again)
      && (challenge && again ==>
            && r.verb == c.verb && r.document == c.document
            && (s.cache(c.starts).NoEntry? ==> r.response == Response(500, false, []))
            && exists i ::
                 && 0 <= i < |e.response.schemes| && e.response.schemes[i].Some? && r.context == e.response.schemes[i]
                 && (EqualsNoCase(r.context.value, "basic") || EqualsNoCase(r.context.value, "digest"))
                 && forall j, scheme :: 0 <= j < i && e.response.schemes[j] == Some(scheme) ==>
                      !EqualsNoCase(scheme, "basic") && !EqualsNoCase(scheme, "digest"))
      && (challenge && !again ==> r.starts == c.starts && r.signals == c.signals + [G.StreamFailed])
  {
    hide Answered, Started, EqualsNoCase, Left, Progress, Known, Future;
    var d := c.(mode := Idle, response := e.response);
    AnsweredLeads(s, d);
    assert IsChallenge(s, d, e.response) ==> !IsRedirect(s, d, e.response);
    var r := Deliver(s, c, e);
    if r.starts == c.starts + 1 && r.redirects == c.redirects {
      var i :| 0 <= i < |e.response.schemes| && FirstKnown(e.response.schemes, i) && r.context == e.response.schemes[i];
      FirstKnownIs(e.response.schemes, i);
    }
  }

  lemma FirstKnownIs(schemes: seq<Option<string>>, i: int)
    requires FirstKnown(schemes, i)
    ensures 0 <= i < |schemes| && schemes[i].Some?
    ensures EqualsNoCase(schemes[i].value, "basic") || EqualsNoCase(schemes[i].value, "digest")
    ensures forall j, scheme :: 0 <= j < i && schemes[j] == Some(scheme) ==>
      !EqualsNoCase(scheme, "basic") && !EqualsNoCase(scheme, "digest")
  {
    hide EqualsNoCase;
    assert KnownAt(schemes, i);
    forall j, scheme | 0 <= j < i && schemes[j] == Some(scheme)
      ensures !EqualsNoCase(scheme, "basic") && !EqualsNoCase(scheme, "digest")
    {
      assert !KnownAt(schemes, j);
    }
  }

  /**
   An error makes the client connect again exactly if the connection was lost or refused, nothing has been received yet,
   which shows in the status 500, retries are left, and the document can be sent again. Otherwise it is signalled.
   */
  lemma RetriesIff(s: Setup, c: Control, e: Event)
    requires Sane(s, c) && c.mode != Idle && !s.chunkedRequest && e.error != G.NoError
    ensures var r := Deliver(s, c, e);
      var status := if c.mode == Receiving then e.response.scode else c.response.scode;
      var retry := (e.error == G.Disconnected || e.error == G.ConnectFailed || e.error == G.SocketError)
        && status == 500 && c.attempt < s.retries;
      var again := !c.document || s.rewinds(c.connections);
      && r.starts == c.starts && AsksTheSame(c, r)
      && (r.connections > c.connections <==> retry && again)
      && (retry && again ==> r.attempt > c.attempt)
      && (!(retry && again) ==>
            r.mode == Idle && r.signals == c.signals + [if retry then G.StreamFailed else e.error])
  {
    hide Answered, Connect, Left, Progress;
    var d := c.(mode := Idle, response := if c.mode == Receiving then e.response else c.response);
    ConnectBadly(s, d.(attempt := if c.attempt < s.retries then c.attempt + 1 else c.attempt));
    EndsBadly(s, d, c.mode, e.error);
  }

  /** Without an error one operation leads to the next, and an informational response to another. */
  lemma GoesOn(s: Setup, c: Control, e: Event)
    requires Sane(s, c) && c.mode != Idle && !s.chunkedRequest && e.error == G.NoError
    ensures var r := Deliver(s, c, e);
      && (c.mode == Connecting ==> r == c.(mode := Sending))
      && (c.mode == Sending ==> r == c.(mode := Receiving))
      && (c.mode == Receiving && 100 <= e.response.scode < 200 ==> r == c.(response := e.response))
  {
    hide Answered, Connect, Left, Progress;
  }

  /** A start, unless a request is in progress or one is to be sent in chunks, asks the cache and then the pool. */
  lemma StartAsks(s: Setup, c: Control)
    requires Sane(s, c)
    ensures var r := Begin(s, c);
      if c.mode != Idle || s.chunkedRequest then r == c
      else
        var d := c.(attempt := 0, starts := c.starts + 1);
        match s.cache(c.starts)
        case Served(response, error) => r == d.(response := response, signals := c.signals + [error])
        case answer =>
          var asks := d.(connections := c.connections + 1,
                         response := if answer.Unusable? then Response(500, false, []) else c.response);
          && (s.pool(c.connections) == Open ==> r == asks.(mode := Sending))
          && (s.pool(c.connections) == Opening ==> r == asks.(mode := Connecting))
  {
    hide Completed, Left, Progress;
  }

  /** A pool without streams uses up the retries, each of which asks it once, and that is the end. */
  lemma {:induction false} NothingToConnect(s: Setup, c: Control)
    requires Sane(s, c) && c.mode == Idle && !s.chunkedRequest && c.response.scode == 500
    requires (forall n :: s.pool(n) == Refused) && (c.document ==> forall n :: s.rewinds(n))
    ensures Connect(s, c) == c.(attempt := s.retries, connections := c.connections + s.retries - c.attempt + 1,
                                signals := c.signals + [G.ConnectFailed])
    decreases s.retries - c.attempt
  {
    hide Left, Progress, Future;
    if c.attempt < s.retries {
      NothingToConnect(s, c.(attempt := c.attempt + 1, connections := c.connections + 1));
    }
  }

  /** After `k` of the events, a good response comes. */
  ghost predicate GoodAt(s: Setup, c: Control, events: seq<Event>, k: int)
    requires Sane(s, c) && (c.mode != Idle ==> !s.chunkedRequest) && 0 <= k < |events|
  {
    GoodResponse(s, Run(s, c, events[..k]), events[k])
  }

  lemma GoodAtNext(s: Setup, c: Control, events: seq<Event>, k: int)
    requires Sane(s, c) && (c.mode != Idle ==> !s.chunkedRequest) && 0 <= k < |events|
    ensures k == 0 ==> (GoodAt(s, c, events, k) <==> GoodResponse(s, c, events[0]))
    ensures k > 0 ==> (GoodAt(s, c, events, k) <==> GoodAt(s, Deliver(s, c, events[0]), events[1..], k - 1))
  {
    hide Deliver, GoodResponse;
    if k > 0 {
      assert events[..k][0] == events[0] && events[..k][1..] == events[1..][..k - 1];
      RunOnce(s, c, events[..k]);
    }
  }

  lemma NoneGoodWhenIdle(s: Setup, c: Control, events: seq<Event>)
    requires Sane(s, c) && c.mode == Idle
    ensures forall k :: 0 <= k < |events| ==> !GoodAt(s, c, events, k)
  {
    hide Run;
    forall k | 0 <= k < |events| ensures !GoodAt(s, c, events, k) {
      RunIdle(s, c, events[..k]);
    }
  }

  /** The last start has ended well: the cache has served it, or a good response has come. */
  ghost predicate GoodEnd(s: Setup, c: Control, events: seq<Event>, starts: nat)
    requires Sane(s, c) && (c.mode != Idle ==> !s.chunkedRequest) && starts > 0
  {
    match s.cache(starts - 1)
    case Served(_, error) => error == G.NoError
    case _ => exists k :: 0 <= k < |events| && GoodAt(s, c, events, k)
  }

  lemma {:induction false} RunEndsWellIff(s: Setup, c: Control, events: seq<Event>)
    requires Sane(s, c) && c.mode != Idle && !s.chunkedRequest && c.starts > 0 && !s.cache(c.starts - 1).Served?
    requires Run(s, c, events).mode == Idle
    ensures var r := Run(s, c, events);
      r.starts > 0 && (r.signals == c.signals + [G.NoError] <==> GoodEnd(s, c, events, r.starts))
    decreases |events|
  {
    hide Run, Deliver, GoodResponse, GoodAt;
    RunNothing(s, c);
    var d, rest := Deliver(s, c, events[0]), events[1..];
    RunOnce(s, c, events);
    EndsWell(s, c, events[0]);
    forall k | 0 <= k < |events|
      ensures GoodAt(s, c, events, k) <==> if k == 0 then GoodResponse(s, c, events[0]) else GoodAt(s, d, rest, k - 1)
    {
      GoodAtNext(s, c, events, k);
    }
    assert GoodAt(s, c, events, 0) == GoodResponse(s, c, events[0]);
    if d.mode == Idle {
      RunIdle(s, d, rest);
      NoneGoodWhenIdle(s, d, rest);
      if d.starts > c.starts {
        StartedWell(s, c.signals, d);
      }
    } else {
      StillGoing(s, c, events[0]);
      RunEndsWellIff(s, d, rest);
      assert forall k :: 0 <= k < |rest| ==> (GoodAt(s, d, rest, k) <==> GoodAt(s, c, events, k + 1));
    }
  }

  lemma StartedWell(s: Setup, before: seq<G.HttpError>, r: Control)
    requires Started(s, before, r)
    ensures r.signals == before + [G.NoError] <==>
      s.cache(r.starts - 1).Served? && s.cache(r.starts - 1).error == G.NoError
  {
    LastSignal(before, G.NoError);
    match s.cache(r.starts - 1)
    case Served(_, error) => LastSignal(before, error);
    case _ =>
  }

  lemma StillGoing(s: Setup, c: Control, e: Event)
    requires Sane(s, c) && c.mode != Idle && !s.chunkedRequest && Deliver(s, c, e).mode != Idle
    ensures Deliver(s, c, e).signals == c.signals && !GoodResponse(s, c, e)
  {
    hide Completed, Future, GoodResponse;
    EndsWell(s, c, e);
    LastSignal(c.signals, G.NoError);
  }

  /**
   When a request is over it has ended well exactly if the cache has served its last start without an error, or, that
   start not being served, a final response was received whole that neither redirects nor can be answered.
   */
  lemma EndsWellIff(s: Setup, c: Control, events: seq<Event>)
    requires Sane(s, c) && c.mode == Idle && !s.chunkedRequest && Run(s, Begin(s, c), events).mode == Idle
    ensures var r := Run(s, Begin(s, c), events);
      r.starts > 0 && (r.signals == c.signals + [G.NoError] <==> GoodEnd(s, Begin(s, c), events, r.starts))
  {
    hide Begin, Run, Deliver, GoodResponse, GoodAt;
    var d := Begin(s, c);
    BeginStarts(s, c);
    if d.mode == Idle {
      RunIdle(s, d, events);
      NoneGoodWhenIdle(s, d, events);
      StartedWell(s, c.signals, d);
    } else {
      RunEndsWellIff(s, d, events);
    }
  }

  // ---------------------------------------------------------------- the class

  class HttpClient {
    const setup: Setup
    var attempt: nat
    var redirects: nat
    var context: Option<string>
    var mode: Mode
    var verb: Verb
    var document: bool
    var response: Response
    var starts: nat
    var connections: nat
    var signals: seq<G.HttpError>

    ghost function View(): Control
      reads this
    {
      Control(attempt, redirects, context, mode, verb, document, response, starts, connections, signals)
    }

    constructor (setup: Setup, verb: Verb, document: bool)
      ensures this.setup == setup
      ensures View() == Control(0, 0, None, Idle, verb, document, NO_RESPONSE, 0, 0, [])
    {
      this.setup := setup;
      this.verb, this.document := verb, document;
      attempt, redirects, context, mode, response := 0, 0, None, Idle, NO_RESPONSE;
      starts, connections, signals := 0, 0, [];
    }

    method Start()
      requires Sane(setup, View())
      modifies this
      ensures View() == Begin(setup, old(View()))
      decreases MAX_REDIRECTS - redirects, if context.None? then 1 else 0, setup.retries + 1, 0
    {
      hide Connect, Progress, Left;
      if mode != Idle { return; }
      if setup.chunkedRequest { return; }
      attempt := 0;
      var answer := setup.cache(starts);
      starts := starts + 1;
      match answer {
        case Served(cached, error) =>
          response := cached;
          signals := signals + [error];
          return;
        case Unusable =>
          response := NO_RESPONSE;
        case NoEntry =>
      }
      ConnectToServer();
    }

    method ConnectToServer()
      requires Sane(setup, View()) && mode == Idle && !setup.chunkedRequest
      modifies this
      ensures View() == Connect(setup, old(View()))
      decreases MAX_REDIRECTS - redirects, if context.None? then 1 else 0, setup.retries - attempt, 2
    {
      var stream := setup.pool(connections);
      connections := connections + 1;
      match stream
      case Refused => OnHttpComplete(Connecting, G.ConnectFailed);
      case Opening => mode := Connecting;
      case Open => mode := Sending;
    }

    predicate ShouldRedirect()
      reads this
    {
      if setup.action == Never || response.scode / 100 != 3 || !response.location || redirects >= MAX_REDIRECTS then
        false
      else setup.action == Always || response.scode == SEE_OTHER || verb == Head || verb == Get
    }

    method OnHttpComplete(finished: Mode, err: G.HttpError)
      requires Sane(setup, View()) && mode == Idle && !setup.chunkedRequest
      modifies this
      ensures View() == Completed(setup, old(View()), finished, err)
      decreases MAX_REDIRECTS - redirects, if context.None? then 1 else 0, setup.retries - attempt, 1
    {
      hide Begin, Connect, Answered, Left, Progress, Future, Lost;
      var error := err;
      if Lost(error) && response.scode == INTERNAL_SERVER_ERROR && attempt < setup.retries {
        attempt := attempt + 1;
        if document && !setup.rewinds(connections) {
          error := G.StreamFailed;
        } else {
          ConnectToServer();
          return;
        }
      } else if error != G.NoError {
      } else if finished == Connecting {
        mode := Sending;
        return;
      } else if finished == Sending || response.scode / 100 == 1 {
        mode := Receiving;
        return;
      } else {
        OnResponse();
        return;
      }
      signals := signals + [error];
    }

    method OnResponse()
      requires Sane(setup, View()) && mode == Idle && !setup.chunkedRequest
      modifies this
      ensures View() == Answered(setup, old(View()))
      decreases MAX_REDIRECTS - redirects, if context.None? then 1 else 0, setup.retries - attempt, 0
    {
      hide Begin, Connect, Challenged, Left, Progress;
      var error := G.NoError;
      if ShouldRedirect() {
        if response.scode == SEE_OTHER {
          verb, document := Get, false;
        } else if document && !setup.rewinds(connections) {
          error := G.StreamFailed;
        }
        if error == G.NoError {
          redirects := redirects + 1;
          context, response := None, NO_RESPONSE;
          Start();
          return;
        }
      } else if response.scode == PROXY_AUTHENTICATION_REQUIRED && setup.proxied {
        var again;
        again, error := AnswerChallenges();
        if again {
          response := NO_RESPONSE;
          Start();
          return;
        }
      }
      signals := signals + [error];
    }

    method AnswerChallenges() returns (again: bool, error: G.HttpError)
      requires Sane(setup, View())
      modifies this`context
      ensures var blocked := document && !setup.rewinds(connections);
        Challenged(old(context), setup.username, response.schemes, "", blocked, G.NoError)
        == (context, if again then None else Some(error))
      ensures again && old(context).None? ==> context.Some?
      ensures again ==> old(context).None?
    {
      ghost var blocked := document && !setup.rewinds(connections);
      NoSchemeIsUnknown();
      AnswersIff(context, setup.username, response.schemes, "", blocked, G.NoError);
      again, error := false, G.NoError;
      var authMethod := "";
      var i := 0;
      while i < |response.schemes|
        invariant i <= |response.schemes|
        invariant Challenged(old(context), setup.username, response.schemes, "", blocked, G.NoError)
               == Challenged(context, setup.username, response.schemes[i..], authMethod, blocked, error)
      {
        if response.schemes[i].Some? {
          authMethod := response.schemes[i].value;
        }
        assert response.schemes[i..][1..] == response.schemes[i + 1..];
        var result := Authenticate(context, setup.username, authMethod);
        if result == Answer {
          context := Some(authMethod);
          if document && !setup.rewinds(connections) {
            error := G.StreamFailed;
          } else {
            again := true;
            return;
          }
        } else if result == Credentials {
          return;
        }
        i := i + 1;
      }
    }
  }
}
