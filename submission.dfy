/**
 * Sending one scraped listing to the Emlak API and logging in to it
 * (chrome-extension/background.js, postSinglePropertyToEmlak,
 * ensureCorsBypassForBase and emlakLogin). The network is a script of
 * outcomes: the n-th request made receives the n-th outcome, and a request
 * beyond the end of the script fails as an unreachable host does.
 */
module Submission {
  import opened Wrappers
  import opened JsText
  import EmlakConfig

  // ================================================================ responses

  /** One entry of a problem document's `fieldErrors`; an absent `field` or
      `error` prints as "undefined", an absent `message` is "". */
  datatype FieldError = FieldError(field: Option<string>, message: string, error: Option<string>)

  /** What `JSON.parse` finds in an error body: the `title` ("" when absent) and
      the `fieldErrors` list, if there is one. */
  datatype Problem = Problem(title: string, fieldErrors: Option<seq<FieldError>>)

  /** A response: its status, its body text, and the body parsed as JSON when
      it parses. */
  datatype Response = Response(status: int, text: string, problem: Option<Problem>)

  /** What a `fetch` yields: a response, or the message of the error it threw. */
  datatype Outcome = Answer(response: Response) | NetErr(message: string)

  /** The Fetch Standard's ok status range. */
  predicate IsOkStatus(status: int) {
    200 <= status <= 299
  }

  /** The outcome of the `i`-th request of a run. */
  function Nth(net: seq<Outcome>, i: nat): Outcome {
    if i < |net| then net[i] else NetErr("Failed to fetch")
  }

  // ================================================================ the fallback chain

  datatype Verb = Post | Put

  function VerbName(v: Verb): string {
    match v
    case Post => "POST"
    case Put => "PUT"
  }

  /** The import endpoints, in the order they are tried. */
  const ImportPaths: seq<string> := [
    "/api/custom/property-import",
    "/api/custom/properties/import",
    "/api/properties/import",
    "/api/custom/properties",
    "/api/properties"]

  /** An index into `ImportPaths`. */
  type Target = t: int | 0 <= t < 5

  datatype Request = Request(verb: Verb, target: Target)

  /** One request of a run and what it met. */
  datatype Attempt = Attempt(verb: Verb, target: Target, outcome: Outcome)

  function RequestOf(a: Attempt): Request {
    Request(a.verb, a.target)
  }

  predicate AttemptOk(a: Attempt) {
    a.outcome.Answer? && IsOkStatus(a.outcome.response.status)
  }

  predicate Answered(a: Attempt, status: int) {
    a.outcome.Answer? && a.outcome.response.status == status
  }

  /** The rule of the chain, read off the attempts so far: start with a POST to
      the first path; stop at an ok response; after a 405 to a POST on any
      later path, PUT to the same path; leave the first path for the second
      only on 404, 405 or no response, and for the third otherwise; after the
      last path, stop. */
  function NextRequest(log: seq<Attempt>): (r: Option<Request>)
    ensures r == Some(Request(Post, 0)) <==> log == []
    ensures r.Some? && r.value.verb == Put ==>
      log != [] && RequestOf(log[|log| - 1]) == Request(Post, r.value.target) && Answered(log[|log| - 1], 405)
  {
    if log == [] then Some(Request(Post, 0))
    else
      var last := log[|log| - 1];
      if AttemptOk(last) then None
      else if last.verb == Post && last.target > 0 && Answered(last, 405) then Some(Request(Put, last.target))
      else if last.target == 0 then
        if last.outcome.NetErr? || Answered(last, 404) || Answered(last, 405) then Some(Request(Post, 1))
        else Some(Request(Post, 2))
      else if last.target == 4 then None
      else Some(Request(Post, last.target + 1))
  }

  /** Every attempt of the log is the one the rule asks for after the attempts
      before it. */
  predicate Chain(log: seq<Attempt>) {
    log == [] || (Chain(Init(log)) && NextRequest(Init(log)) == Some(RequestOf(log[|log| - 1])))
  }

  /** The attempts met the scripted outcomes, in order. */
  predicate Follows(log: seq<Attempt>, net: seq<Outcome>) {
    log == [] || (Follows(Init(log), net) && log[|log| - 1].outcome == Nth(net, |log| - 1))
  }

  /** All attempts but the last. */
  function Init(log: seq<Attempt>): (r: seq<Attempt>)
    requires log != []
    ensures |r| == |log| - 1
  {
    log[..|log| - 1]
  }

  /** `lastErrText`: the message of the last attempt that got no response. */
  function LastNetErr(log: seq<Attempt>): string {
    if log == [] then ""
    else if log[|log| - 1].outcome.NetErr? then log[|log| - 1].outcome.message
    else LastNetErr(Init(log))
  }

  function ResponseOf(o: Outcome): Option<Response> {
    match o
    case Answer(r) => Some(r)
    case NetErr(_) => None
  }

  predicate RespOk(resp: Option<Response>) {
    resp.Some? && IsOkStatus(resp.value.status)
  }

  /** The inner `run(path, method)`: one request, logged. */
  method Run(net: seq<Outcome>, log: seq<Attempt>, lastErr: string, verb: Verb, target: Target)
    returns (resp: Option<Response>, log': seq<Attempt>, lastErr': string)
    requires Chain(log) && Follows(log, net) && lastErr == LastNetErr(log)
    requires NextRequest(log) == Some(Request(verb, target))
    ensures log' == log + [Attempt(verb, target, Nth(net, |log|))]
    ensures Chain(log') && Follows(log', net) && lastErr' == LastNetErr(log')
    ensures resp == ResponseOf(Nth(net, |log|))
  {
    var outcome := Nth(net, |log|);
    log' := log + [Attempt(verb, target, outcome)];
    assert Init(log') == log;
    match outcome
    case Answer(r) =>
      resp, lastErr' := Some(r), lastErr;
    case NetErr(m) =>
      resp, lastErr' := None, m;
  }

  /** What sending a listing reports. */
  datatype SendResult =
    | Sent
    | NoJwt
    | Failed(status: Option<int>, error: string)

  /** The report of a finished chain: success when its last response was ok,
      otherwise the last status (none when the last request got no response)
      and the failure message. */
  function Settle(log: seq<Attempt>): (r: SendResult)
    requires log != []
    ensures r.Sent? <==> AttemptOk(log[|log| - 1])
    ensures r.NoJwt? == false
    ensures r.Failed? ==> (r.status.None? <==> log[|log| - 1].outcome.NetErr?)
    ensures r.Failed? ==> StartsWith(r.error, "Emlak send failed ")
  {
    var last := log[|log| - 1];
    if AttemptOk(last) then Sent
    else Failed(
      if last.outcome.Answer? then Some(last.outcome.response.status) else None,
      FailureMessage(log, LastNetErr(log)))
  }

  /** The state of a run between two steps of the chain: the log so far is a
      chain over the script, `lastErr` is its last network error, `resp` is
      what its last attempt got, and the rule asks for nothing more after an
      ok response and for a POST to `next` otherwise. */
  predicate Between(net: seq<Outcome>, log: seq<Attempt>, lastErr: string, resp: Option<Response>, next: Option<Target>) {
    && log != [] && Chain(log) && Follows(log, net) && lastErr == LastNetErr(log)
    && resp == ResponseOf(log[|log| - 1].outcome)
    && (RespOk(resp) ==> NextRequest(log).None?)
    && (!RespOk(resp) ==> NextRequest(log) == (if next.Some? then Some(Request(Post, next.value)) else None))
  }

  /** The first POST, and the second path when the first gave 404, 405 or no
      response. */
  method TryFirstPaths(net: seq<Outcome>) returns (log: seq<Attempt>, lastErr: string, resp: Option<Response>)
    ensures Between(net, log, lastErr, resp, Some(2))
  {
    log, lastErr := [], "";
    resp, log, lastErr := Run(net, log, lastErr, Post, 0);
    if !RespOk(resp) && (resp.None? || resp.value.status == 404 || resp.value.status == 405) {
      assert NextRequest(log) == Some(Request(Post, 1));
      resp, log, lastErr := Run(net, log, lastErr, Post, 1);
      if resp.Some? && resp.value.status == 405 {
        assert NextRequest(log) == Some(Request(Put, 1));
        resp, log, lastErr := Run(net, log, lastErr, Put, 1);
      }
    }
  }

  /** One `if (!resp || !resp.ok) { POST path; on 405 PUT path }` block. */
  method TryPath(net: seq<Outcome>, log: seq<Attempt>, lastErr: string, resp: Option<Response>, t: Target)
    returns (log': seq<Attempt>, lastErr': string, resp': Option<Response>)
    requires t >= 2 && Between(net, log, lastErr, resp, Some(t))
    ensures Between(net, log', lastErr', resp', if t < 4 then Some(t + 1) else None)
    ensures RespOk(resp) ==> log' == log
  {
    log', lastErr', resp' := log, lastErr, resp;
    if !RespOk(resp) {
      resp', log', lastErr' := Run(net, log, lastErr, Post, t);
      if resp'.Some? && resp'.value.status == 405 {
        resp', log', lastErr' := Run(net, log', lastErr', Put, t);
      }
    }
  }

  /** `postSinglePropertyToEmlak(obj)` once the JWT is read: without one
      nothing is sent; otherwise the chain of requests runs to its end. The
      listing's body (`MapToPropertyDto`) is the same in every request and does
      not steer the chain, so it is not a parameter. */
  method PostSingleProperty(jwt: string, net: seq<Outcome>) returns (result: SendResult, log: seq<Attempt>)
    ensures jwt == "" ==> result == NoJwt && log == []
    ensures jwt != "" ==> log != [] && Chain(log) && Follows(log, net) && NextRequest(log).None?
    ensures jwt != "" ==> result == Settle(log)
  {
    log := [];
    if jwt == "" {
      return NoJwt, log;
    }
    var resp: Option<Response>;
    var lastErr: string;
    log, lastErr, resp := RunChain(net);
    SettleAtEnd(net, log, lastErr, resp);
    if !RespOk(resp) {
      var status := if resp.Some? then Some(resp.value.status) else None;
      result := Failed(status, FailureMessage(log, lastErr));
    } else {
      result := Sent;
    }
  }

  /** The whole chain: the first paths, then paths 2, 3 and 4 while no
      response was ok. */
  method RunChain(net: seq<Outcome>) returns (log: seq<Attempt>, lastErr: string, resp: Option<Response>)
    ensures Between(net, log, lastErr, resp, None)
  {
    log, lastErr, resp := TryFirstPaths(net);
    log, lastErr, resp := TryPath(net, log, lastErr, resp, 2);
    log, lastErr, resp := TryPath(net, log, lastErr, resp, 3);
    log, lastErr, resp := TryPath(net, log, lastErr, resp, 4);
  }

  /** Once the chain has nothing more to ask for, the result is settled by
      its last attempt. */
  lemma SettleAtEnd(net: seq<Outcome>, log: seq<Attempt>, lastErr: string, resp: Option<Response>)
    requires Between(net, log, lastErr, resp, None)
    ensures NextRequest(log).None?
    ensures Settle(log) == (if !RespOk(resp) then Failed(if resp.Some? then Some(resp.value.status) else None, FailureMessage(log, lastErr)) else Sent)
  {
  }

  // ================================================================ properties of the chain

  /** Position of a request in the order of the chain: the POST to a path, then
      the PUT to it, then the next path. */
  function Rank(r: Request): nat {
    2 * r.target + (if r.verb == Put then 1 else 0)
  }

  /** Each attempt of a chain is the one the rule asks for after those before it. */
  lemma {:induction false} ChainAt(log: seq<Attempt>, i: nat)
    requires Chain(log) && i < |log|
    ensures NextRequest(log[..i]) == Some(RequestOf(log[i]))
    decreases |log|
  {
    if i < |log| - 1 {
      ChainAt(Init(log), i);
      assert Init(log)[..i] == log[..i];
    }
  }

  /** The rule moves strictly forward, and never asks for a PUT to the first path. */
  lemma NextRankGrows(log: seq<Attempt>, r: Request)
    requires log != [] && NextRequest(log) == Some(r)
    ensures Rank(r) > Rank(RequestOf(log[|log| - 1]))
    ensures !AttemptOk(log[|log| - 1])
    ensures Rank(r) >= 2
  {
  }

  /** Attempts come in the order of the paths, POST before PUT, none repeated. */
  lemma {:induction false} ChainOrdered(log: seq<Attempt>)
    requires Chain(log)
    ensures forall i, j :: 0 <= i < j < |log| ==> Rank(RequestOf(log[i])) < Rank(RequestOf(log[j]))
    ensures forall j :: 0 < j < |log| ==> Rank(RequestOf(log[j])) >= j + 1
    decreases |log|
  {
    if log != [] {
      var init := Init(log);
      ChainOrdered(init);
      assert forall i :: 0 <= i < |init| ==> init[i] == log[i];
      if init != [] {
        NextRankGrows(init, RequestOf(log[|log| - 1]));
      }
    }
  }

  /** A run makes at most nine requests: a POST to each of the five paths and
      a PUT to each of the last four. */
  lemma ChainAtMostNine(log: seq<Attempt>)
    requires Chain(log)
    ensures |log| <= 9
  {
    ChainOrdered(log);
  }

  /** No request follows an ok response. */
  lemma ChainStopsAtOk(log: seq<Attempt>, i: nat)
    requires Chain(log) && i + 1 < |log|
    ensures !AttemptOk(log[i])
  {
    ChainAt(log, i + 1);
    assert log[..i + 1][i] == log[i];
    NextRankGrows(log[..i + 1], RequestOf(log[i + 1]));
  }

  /** A PUT is made only right after a POST to the same path was answered 405. */
  lemma ChainPutAfter405(log: seq<Attempt>, i: nat)
    requires Chain(log) && i < |log| && log[i].verb == Put
    ensures i > 0 && log[i - 1].verb == Post && log[i - 1].target == log[i].target && Answered(log[i - 1], 405)
  {
    ChainAt(log, i);
    if i > 0 {
      assert log[..i][i - 1] == log[i - 1];
    }
  }

  /** The second path is tried only when the first gave 404, 405 or no response. */
  lemma {:induction false} ChainSecondPath(log: seq<Attempt>, i: nat)
    requires Chain(log) && i < |log| && log[i].target == 1
    ensures |log| >= 2
    ensures log[0].outcome.NetErr? || Answered(log[0], 404) || Answered(log[0], 405)
  {
    ChainAt(log, i);
    assert i > 0;
    var prev := log[..i][i - 1];
    assert prev == log[i - 1];
    if prev.target == 1 {
      ChainSecondPath(log, i - 1);
    } else {
      assert i - 1 == 0 by {
        ChainOrdered(log);
      }
    }
  }

  /** A run that fails has gone on to the last path. */
  lemma ChainFailureReachesLastPath(log: seq<Attempt>)
    requires Chain(log) && log != [] && NextRequest(log).None? && !AttemptOk(log[|log| - 1])
    ensures log[|log| - 1].target == 4
  {
  }

  /** The script decides the run: two finished chains over the same script are
      the same chain. */
  lemma ChainUnique(a: seq<Attempt>, b: seq<Attempt>, net: seq<Outcome>)
    requires Chain(a) && Follows(a, net) && NextRequest(a).None?
    requires Chain(b) && Follows(b, net) && NextRequest(b).None?
    ensures a == b
  {
    if |a| <= |b| {
      ChainPrefix(a, b, net, |a|);
      if |a| < |b| {
        ChainAt(b, |a|);
      }
    } else {
      ChainPrefix(b, a, net, |b|);
      ChainAt(a, |b|);
    }
  }

  lemma {:induction false} ChainPrefix(a: seq<Attempt>, b: seq<Attempt>, net: seq<Outcome>, k: nat)
    requires Chain(a) && Follows(a, net) && Chain(b) && Follows(b, net)
    requires k <= |a| && k <= |b|
    ensures a[..k] == b[..k]
  {
    if k > 0 {
      ChainPrefix(a, b, net, k - 1);
      ChainAt(a, k - 1);
      ChainAt(b, k - 1);
      FollowsAt(a, net, k - 1);
      FollowsAt(b, net, k - 1);
      assert a[..k] == a[..k - 1] + [a[k - 1]];
      assert b[..k] == b[..k - 1] + [b[k - 1]];
    }
  }

  lemma {:induction false} FollowsAt(log: seq<Attempt>, net: seq<Outcome>, i: nat)
    requires Follows(log, net) && i < |log|
    ensures log[i].outcome == Nth(net, i)
    decreases |log|
  {
    if i < |log| - 1 {
      FollowsAt(Init(log), net, i);
    }
  }

  /** Example: a 404 on the first path and a 201 on the second is a run of two
      requests that succeeds. */
  lemma ChainExample(missing: Response, created: Response)
    requires missing.status == 404 && created.status == 201
    ensures var log := [Attempt(Post, 0, Answer(missing)), Attempt(Post, 1, Answer(created))];
      Chain(log) && Follows(log, [Answer(missing), Answer(created)]) && NextRequest(log).None? && Settle(log) == Sent
  {
    var net := [Answer(missing), Answer(created)];
    var first := [Attempt(Post, 0, Answer(missing))];
    var log := first + [Attempt(Post, 1, Answer(created))];
    assert Init(first) == [];
    assert Chain(first) && Follows(first, net);
    assert Init(log) == first;
    assert Chain(log) && Follows(log, net);
    assert log == [Attempt(Post, 0, Answer(missing)), Attempt(Post, 1, Answer(created))];
  }

  // ================================================================ the failure report

  /** `${fe.field}: ${fe.message || fe.error}` */
  function FieldErrorText(fe: FieldError): string {
    fe.field.GetOr("undefined") + ": " + (if fe.message != "" then fe.message else fe.error.GetOr("undefined"))
  }

  /** The body as the report shows it: a problem document with `fieldErrors`
      is flattened to "title [field: message, …]", anything else is its text. */
  function BodyText(r: Response): string {
    match r.problem
    case Some(Problem(title, Some(fes))) =>
      (if title != "" then title else "Validation error") + " ["
        + Join(seq(|fes|, i requires 0 <= i < |fes| => FieldErrorText(fes[i])), ", ") + "]"
    case _ => r.text
  }

  /** The `tail` of the failure message: the last response's body, cut to 500
      characters, or else the last network error. */
  function FailureTail(resp: Option<Response>, lastErr: string): (tail: string)
    ensures resp.Some? && BodyText(resp.value) != "" ==>
      tail == ": " + Take(BodyText(resp.value), 500) && |tail| <= 502
    ensures (resp.None? || BodyText(resp.value) == "") ==>
      tail == (if lastErr != "" then ": " + lastErr else "")
  {
    if resp.Some? then
      var txt := BodyText(resp.value);
      if txt != "" then ": " + Take(txt, 500)
      else if lastErr != "" then ": " + lastErr
      else ""
    else if lastErr != "" then ": " + lastErr
    else ""
  }

  /** One diagnostic line: `${method} ${path} -> ${status}` or
      `${method} ${path} -> error: ${msg}`. */
  function AttemptLine(a: Attempt): string {
    VerbName(a.verb) + " " + ImportPaths[a.target] + " -> "
      + match a.outcome
        case Answer(r) => IntToString(r.status)
        case NetErr(m) => "error: " + m
  }

  function AttemptLines(log: seq<Attempt>): (lines: seq<string>)
    ensures |lines| == |log|
    ensures forall i :: 0 <= i < |log| ==> lines[i] == AttemptLine(log[i])
  {
    seq(|log|, i requires 0 <= i < |log| => AttemptLine(log[i]))
  }

  /** `Emlak send failed ${tail}${diag}`, the diagnostics listing every attempt. */
  function FailureMessage(log: seq<Attempt>, lastErr: string): string
    requires log != []
  {
    "Emlak send failed " + FailureTail(ResponseOf(log[|log| - 1].outcome), lastErr)
      + " | attempts: " + Join(AttemptLines(log), " ; ")
  }

  /** The report ends with the diagnostics: every attempt's line, in the order
      the attempts were made, so one more attempt adds " ; " and its own line. */
  lemma FailureMessageDiagnostics(log: seq<Attempt>, lastErr: string, a: Attempt)
    requires log != []
    ensures EndsWith(FailureMessage(log, lastErr), " | attempts: " + Join(AttemptLines(log), " ; "))
    ensures Join(AttemptLines(log + [a]), " ; ") == Join(AttemptLines(log), " ; ") + " ; " + AttemptLine(a)
  {
    var diag := " | attempts: " + Join(AttemptLines(log), " ; ");
    var head := "Emlak send failed " + FailureTail(ResponseOf(log[|log| - 1].outcome), lastErr);
    assert FailureMessage(log, lastErr) == head + diag;
    assert (head + diag)[|head + diag| - |diag|..] == diag;
    assert AttemptLines(log + [a]) == AttemptLines(log) + [AttemptLine(a)];
    JoinAppend(AttemptLines(log), AttemptLine(a), " ; ");
  }

  /** A title-less problem with field errors reads "Validation error [...]"
      around the field texts joined by ", ". */
  lemma UntitledProblemText(r: Response, fes: seq<FieldError>, texts: seq<string>)
    requires r.problem == Some(Problem("", Some(fes)))
    requires |texts| == |fes|
    requires forall i :: 0 <= i < |fes| ==> texts[i] == FieldErrorText(fes[i])
    ensures BodyText(r) == "Validation error" + " [" + Join(texts, ", ") + "]"
  {
    var shown := seq(|fes|, i requires 0 <= i < |fes| => FieldErrorText(fes[i]));
    assert shown == texts by {
      forall i | 0 <= i < |fes|
        ensures shown[i] == texts[i]
      {
      }
    }
    assert BodyText(r) == "Validation error" + " [" + Join(shown, ", ") + "]";
  }

  /** Example: a validation problem with a missing message and no error code. */
  lemma ValidationReportExample()
    ensures BodyText(Response(400, "{…}", Some(Problem("", Some([FieldError(Some("price"), "", Some("NotNull")), FieldError(Some("title"), "", None)])))))
         == "Validation error [" + ("price: NotNull" + ", " + "title: undefined") + "]"
  {
    var fes := [FieldError(Some("price"), "", Some("NotNull")), FieldError(Some("title"), "", None)];
    var texts := ["price: NotNull", "title: undefined"];
    assert FieldErrorText(fes[0]) == texts[0];
    assert FieldErrorText(fes[1]) == texts[1];
    UntitledProblemText(Response(400, "{…}", Some(Problem("", Some(fes)))), fes, texts);
    assert Join(texts, ", ") == texts[0] + ", " + texts[1] by {
      assert texts[1..] == [texts[1]];
    }
  }

  // ================================================================ the CORS rule

  /** The parts of `new URL(baseUrl)` the rule is built from. */
  datatype Origin = Origin(scheme: string, host: string, port: string)

  /** `${scheme}://${host}${port ? ':' + port : ''}` */
  function OriginText(o: Origin): string {
    o.scheme + "://" + o.host + (if o.port != "" then ":" + o.port else "")
  }

  /** The characters the escaping step puts a backslash before. */
  predicate IsRegexSpecial(c: char) {
    c in ".*+?^${}()|[]\\"
  }

  /** Read left to right, the text is a series of escape pairs -- a backslash
      and a special character -- and plain characters that are not special:
      every backslash starts a pair, and no special character stands bare. */
  predicate WellEscaped(r: string)
    decreases |r|
  {
    || r == []
    || (|r| >= 2 && r[0] == '\\' && IsRegexSpecial(r[1]) && WellEscaped(r[2..]))
    || (!IsRegexSpecial(r[0]) && WellEscaped(r[1..]))
  }

  /** `s.replace(/[.*+?^${}()|[\]\\]/g, '\\$&')` */
  function EscapeRegex(s: string): (r: string)
    ensures |r| >= |s|
    ensures WellEscaped(r)
  {
    if s == [] then []
    else
      var rest := EscapeRegex(s[1..]);
      if IsRegexSpecial(s[0]) then
        assert (['\\', s[0]] + rest)[2..] == rest;
        ['\\', s[0]] + rest
      else
        assert ([s[0]] + rest)[1..] == rest;
        [s[0]] + rest
  }

  /** A well-escaped text is the escaping of what it reads back as: escaping
      puts a backslash before exactly the special characters. */
  lemma {:induction false} WellEscapedIsEscape(r: string)
    requires WellEscaped(r)
    ensures EscapeRegex(UnescapeRegex(r)) == r
    decreases |r|
  {
    if r != [] {
      if |r| >= 2 && r[0] == '\\' && IsRegexSpecial(r[1]) && WellEscaped(r[2..]) {
        WellEscapedIsEscape(r[2..]);
        var u := UnescapeRegex(r);
        assert u == [r[1]] + UnescapeRegex(r[2..]);
        assert u[1..] == UnescapeRegex(r[2..]);
        assert r == ['\\', r[1]] + r[2..];
      } else {
        assert !IsRegexSpecial(r[0]) && WellEscaped(r[1..]);
        WellEscapedIsEscape(r[1..]);
        var u := UnescapeRegex(r);
        assert u == [r[0]] + UnescapeRegex(r[1..]);
        assert u[1..] == UnescapeRegex(r[1..]);
        assert r == [r[0]] + r[1..];
      }
    }
  }

  /** Reading an escaped text back: a backslash stands for the character after it. */
  function UnescapeRegex(s: string): string
    decreases |s|
  {
    if s == [] then []
    else if s[0] == '\\' && |s| >= 2 then [s[1]] + UnescapeRegex(s[2..])
    else [s[0]] + UnescapeRegex(s[1..])
  }

  /** The number of characters that get escaped. */
  function SpecialCount(s: string): nat {
    if s == [] then 0 else (if IsRegexSpecial(s[0]) then 1 else 0) + SpecialCount(s[1..])
  }

  /** Escaping loses nothing, and adds exactly one backslash per special
      character: no other character is escaped. */
  lemma {:induction false} EscapeRegexRoundTrip(s: string)
    ensures UnescapeRegex(EscapeRegex(s)) == s
    ensures |EscapeRegex(s)| == |s| + SpecialCount(s)
  {
    if s != [] {
      EscapeRegexRoundTrip(s[1..]);
      var e := EscapeRegex(s);
      if IsRegexSpecial(s[0]) {
        assert e[2..] == EscapeRegex(s[1..]);
      } else {
        assert e[1..] == EscapeRegex(s[1..]);
      }
      assert s == [s[0]] + s[1..];
    }
  }

  /** The rule's `regexFilter`: this origin, then a path. */
  function RegexFilter(o: Origin): string {
    "^" + EscapeRegex(OriginText(o)) + "/.*"
  }

  const TwoTo32 := 0x1_0000_0000

  /** The hash after each character: `h = (h * 31 + code) >>> 0`. Every `h` is
      below 2^32 and every code unit below 2^16, so `h * 31 + code` stays far
      below 2^53 and the double arithmetic is exact. */
  function OriginHash(s: string): nat
  {
    if s == [] then 0 else (OriginHash(s[..|s| - 1]) * 31 + s[|s| - 1] as int) % TwoTo32
  }

  /** The polynomial the hash truncates: the sum of code(s[i]) * 31^(n-1-i). */
  function Poly(s: string): nat {
    if s == [] then 0 else Poly(s[..|s| - 1]) * 31 + s[|s| - 1] as int
  }

  lemma MulAddMod(a: int, c: int, m: int)
    requires m > 0
    ensures ((a % m) * 31 + c) % m == (a * 31 + c) % m
  {
    var q := a / m;
    var x := a * 31 + c;
    var y := (a % m) * 31 + c;
    assert a == q * m + a % m;
    assert x == y + (q * 31) * m;
    var k := q * 31 + y / m - x / m;
    assert x % m - y % m == k * m;
    SmallMultipleIsZero(x % m - y % m, k, m);
  }

  lemma SmallMultipleIsZero(d: int, k: int, m: int)
    requires m > 0 && -m < d < m && d == k * m
    ensures d == 0
  {
  }

  /** Truncating at every step gives the polynomial hash modulo 2^32. */
  lemma {:induction false} OriginHashIsPolyMod(s: string)
    ensures OriginHash(s) == Poly(s) % TwoTo32
  {
    if s != [] {
      OriginHashIsPolyMod(s[..|s| - 1]);
      MulAddMod(Poly(s[..|s| - 1]), s[|s| - 1] as int, TwoTo32);
    }
  }

  /** The rule id of `ensureCorsBypassForBase`: the hash loop over the origin,
      then `10000 + h % 40000`. */
  method RuleId(o: Origin) returns (id: int)
    ensures id == 10000 + OriginHash(OriginText(o)) % 40000
    ensures 10000 <= id <= 49999
  {
    var origin := OriginText(o);
    var h := 0;
    var i := 0;
    while i < |origin|
      invariant 0 <= i <= |origin|
      invariant h == OriginHash(origin[..i])
    {
      assert origin[..i + 1][..i] == origin[..i];
      h := (h * 31 + origin[i] as int) % TwoTo32;
      i := i + 1;
    }
    assert origin[..|origin|] == origin;
    id := 10000 + h % 40000;
  }

  // ================================================================ login

  const LoginPaths: seq<string> := ["/api/custom/authenticate", "/api/authenticate"]

  const DefaultLoginBase := "http://localhost:8080"

  /** What `resp.json()` yields for a JSON login response: a string, an object
      (its `id_token`, `token` and `jwt`, "" when absent), `null`, or anything
      else (a number, an array, or a body that does not parse, read as `{}`). */
  datatype LoginJson = JsonText(s: string) | JsonRecord(idToken: string, token: string, jwt: string) | JsonNull | JsonOther

  /** A login response: its status, its body text, and — when its content type
      is JSON — what `resp.json()` yields. */
  datatype LoginResponse = LoginResponse(status: int, text: string, json: Option<LoginJson>)

  datatype LoginOutcome = LoginAnswer(response: LoginResponse) | LoginNetErr(message: string)

  function LoginNth(net: seq<LoginOutcome>, i: nat): LoginOutcome {
    if i < |net| then net[i] else LoginNetErr("Failed to fetch")
  }

  datatype LoginResult = LoggedIn(token: string, baseUrl: string) | LoginFailed(error: string)

  /** What to do after one login request: stop with a result, or go on to the
      next path with a new last error. */
  datatype LoginStep = Done(result: LoginResult) | Continue(lastErr: string)

  /** The message of the TypeError thrown by reading `id_token` of `null`. */
  const NullTokenError := "Cannot read properties of null (reading 'id_token')"

  /** The token of an ok response: a JSON string, else `id_token || token || jwt`;
      a body that is not JSON is trimmed. */
  function TokenOf(r: LoginResponse): string
    requires r.json != Some(JsonNull)
  {
    match r.json
    case None => Trim(r.text)
    case Some(JsonText(s)) => s
    case Some(JsonRecord(idToken, token, jwt)) => if idToken != "" then idToken else if token != "" then token else jwt
    case Some(JsonOther) => ""
  }

  /** The body of the loop of `emlakLogin` for one path. */
  function LoginStepOf(o: LoginOutcome, baseUrl: string): (s: LoginStep)
    ensures s.Done? && s.result.LoggedIn? ==> s.result.token != "" && s.result.baseUrl == baseUrl
  {
    match o
    case LoginNetErr(m) => Continue(m)
    case LoginAnswer(r) =>
      if IsOkStatus(r.status) then
        if r.json == Some(JsonNull) then Continue(NullTokenError)
        else if TokenOf(r) == "" then Done(LoginFailed("Sunucudan token alınamadı."))
        else Done(LoggedIn(TokenOf(r), baseUrl))
      else if r.status == 404 || r.status == 405 || r.status == 401 then
        Continue("HTTP " + IntToString(r.status))
      else
        Done(LoginFailed("HTTP " + IntToString(r.status) + (if r.text != "" then ": " + Take(r.text, 300) else "")))
  }

  /** The base address of login: the given value or the default, one trailing
      slash removed — without the trimming the shared resolver does. */
  function LoginBaseUrl(input: string): string {
    EmlakConfig.StripTrailingSlash(if input == "" then DefaultLoginBase else input)
  }

  /** The outcome of the login loop from path `i` on, with the error so far,
      and the number of requests it makes. */
  function LoginFrom(net: seq<LoginOutcome>, baseUrl: string, i: nat, lastErr: string): (LoginResult, nat)
    requires i <= 2
    decreases 2 - i
  {
    if i == 2 then (LoginFailed(if lastErr != "" then lastErr else "Kimlik doğrulama başarısız."), 2)
    else
      match LoginStepOf(LoginNth(net, i), baseUrl)
      case Done(r) => (r, i + 1)
      case Continue(e) => LoginFrom(net, baseUrl, i + 1, e)
  }

  /** `emlakLogin(email, password, baseUrlInput)`: the credentials go in every
      request body unchanged and do not steer the loop. */
  method EmlakLogin(baseUrlInput: string, net: seq<LoginOutcome>) returns (result: LoginResult, calls: nat)
    ensures (result, calls) == LoginFrom(net, LoginBaseUrl(baseUrlInput), 0, "")
    ensures 1 <= calls <= 2
  {
    var baseUrl := LoginBaseUrl(baseUrlInput);
    var lastErr := "";
    var i := 0;
    while i < |LoginPaths|
      invariant 0 <= i <= 2
      invariant LoginFrom(net, baseUrl, 0, "") == LoginFrom(net, baseUrl, i, lastErr)
      invariant i == 0 ==> lastErr == ""
    {
      var step := LoginStepOf(LoginNth(net, i), baseUrl);
      match step
      case Done(r) =>
        return r, i + 1;
      case Continue(e) =>
        lastErr := e;
      i := i + 1;
    }
    result := LoginFailed(if lastErr != "" then lastErr else "Kimlik doğrulama başarısız.");
    calls := 2;
  }

  /** A login succeeds only with a non-empty token from an ok response, and
      carries the resolved base address. */
  lemma LoginSuccess(net: seq<LoginOutcome>, input: string)
    requires LoginFrom(net, LoginBaseUrl(input), 0, "").0.LoggedIn?
    ensures var (r, calls) := LoginFrom(net, LoginBaseUrl(input), 0, "");
      && r.token != "" && r.baseUrl == LoginBaseUrl(input)
      && LoginNth(net, calls - 1).LoginAnswer? && IsOkStatus(LoginNth(net, calls - 1).response.status)
  {
    var base := LoginBaseUrl(input);
    if LoginStepOf(LoginNth(net, 0), base).Continue? {
      var e := LoginStepOf(LoginNth(net, 0), base).lastErr;
      assert LoginFrom(net, base, 0, "") == LoginFrom(net, base, 1, e);
    }
  }

  /** The second path is tried only after no response, a 404, 405 or 401, or an
      ok response whose JSON body is null. */
  lemma LoginSecondPathOnlyAfter(net: seq<LoginOutcome>, input: string)
    requires LoginFrom(net, LoginBaseUrl(input), 0, "").1 == 2
    ensures LoginNth(net, 0).LoginNetErr?
         || LoginNth(net, 0).response.status in {404, 405, 401}
         || (IsOkStatus(LoginNth(net, 0).response.status) && LoginNth(net, 0).response.json == Some(JsonNull))
  {
  }

  /** Any other non-ok status ends the login at once, with at most 300
      characters of the body. */
  lemma LoginFailsFast(net: seq<LoginOutcome>, input: string)
    requires LoginNth(net, 0).LoginAnswer?
    requires var s := LoginNth(net, 0).response.status; !IsOkStatus(s) && s !in {404, 405, 401}
    ensures var (r, calls) := LoginFrom(net, LoginBaseUrl(input), 0, "");
      && calls == 1 && r.LoginFailed?
      && StartsWith(r.error, "HTTP " + IntToString(LoginNth(net, 0).response.status))
      && |r.error| <= |"HTTP " + IntToString(LoginNth(net, 0).response.status)| + 2 + 300
  {
  }

  /** The token comes from `id_token`, else `token`, else `jwt`. */
  lemma TokenPrecedence(idToken: string, token: string, jwt: string, status: int, text: string)
    ensures var r := LoginResponse(status, text, Some(JsonRecord(idToken, token, jwt)));
      && (idToken != "" ==> TokenOf(r) == idToken)
      && (idToken == "" && token != "" ==> TokenOf(r) == token)
      && (idToken == "" && token == "" ==> TokenOf(r) == jwt)
  {
  }

  /** When both paths only give reasons to go on, the last reason is reported,
      or a generic message when there is none. */
  lemma LoginExhausted(net: seq<LoginOutcome>, input: string)
    requires LoginStepOf(LoginNth(net, 0), LoginBaseUrl(input)).Continue?
    requires LoginStepOf(LoginNth(net, 1), LoginBaseUrl(input)).Continue?
    ensures var e := LoginStepOf(LoginNth(net, 1), LoginBaseUrl(input)).lastErr;
      LoginFrom(net, LoginBaseUrl(input), 0, "") == (LoginFailed(if e != "" then e else "Kimlik doğrulama başarısız."), 2)
  {
  }

  /** Unlike the shared resolver, login does not trim: surrounding white space
      stays in the address. */
  lemma LoginBaseUntrimmed()
    ensures LoginBaseUrl(" http://h/") == " http://h"
    ensures LoginBaseUrl("") == DefaultLoginBase
  {
  }
}
