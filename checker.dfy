/** The verdict policy of `check_link`: a HEAD request first, a GET only when
    the HEAD request fails at the transport level, and an error verdict when the
    GET fails too. The two requests are represented by what they produced, so
    the policy is a function of two outcomes; the requests it actually sends are
    part of its result. */
module Checker {
  import opened Text

  /** What one request produced: the status code of the final response (after
      redirects), or a `requests.RequestException` with its message. */
  datatype Outcome = Status(code: int) | Transport(msg: string)

  datatype Method = Head | Get

  function MethodName(m: Method): string {
    match m
    case Head => "HEAD"
    case Get => "GET"
  }

  /** `check_link`'s pair `(is_broken, info)`, with the requests it sent, in order. */
  datatype LinkCheck = LinkCheck(broken: bool, info: string, sent: seq<Method>)

  /** `f"HTTP {code} ({method})"`. */
  function Describe(code: int, m: Method): string {
    "HTTP " + IntToString(code) + " (" + MethodName(m) + ")"
  }

  /** The GET issued from the `except` branch after HEAD was given up. */
  function GetFallback(get: Outcome): (r: LinkCheck)
    ensures r.sent == [Head, Get]
  {
    match get
    case Status(code) =>
      if code >= 400 then LinkCheck(true, Describe(code, Get), [Head, Get])
      else LinkCheck(false, Describe(code, Get), [Head, Get])
    case Transport(msg) => LinkCheck(true, "Error: " + msg, [Head, Get])
  }

  /** `check_link(session, url)` as written: any HEAD status of 400 or more is
      reported before the test for 403 and 405 is reached. */
  function CheckLink(head: Outcome, get: Outcome): (r: LinkCheck)
    ensures r.sent == [Head] <==> head.Status?
    ensures r.sent == [Head, Get] <==> head.Transport?
  {
    match head
    case Status(code) =>
      if code >= 400 then LinkCheck(true, Describe(code, Head), [Head])
      else if code == 405 || code == 403 then GetFallback(get)
      else LinkCheck(false, Describe(code, Head), [Head])
    case Transport(_) => GetFallback(get)
  }

  /** The response whose result becomes the verdict: HEAD's when it came back,
      GET's otherwise. */
  function Decisive(head: Outcome, get: Outcome): Outcome {
    if head.Status? then head else get
  }

  /** The verdict stated without the policy's control flow: the link is broken
      exactly when the decisive request failed or answered 400 or more, and the
      info names that status and method, or carries the failure's message. */
  lemma CheckLinkVerdict(head: Outcome, get: Outcome)
    ensures var r, d := CheckLink(head, get), Decisive(head, get);
      && (r.broken <==> d.Transport? || d.code >= 400)
      && r.info == (if d.Status? then Describe(d.code, r.sent[|r.sent| - 1]) else "Error: " + d.msg)
  {
    var r := CheckLink(head, get);
    assert r.sent[|r.sent| - 1] == (if head.Status? then Head else Get);
  }

  /** When HEAD answers, its status alone decides and GET is never sent. */
  lemma HeadStatusDecides(code: int, get: Outcome)
    ensures CheckLink(Status(code), get) == LinkCheck(code >= 400, Describe(code, Head), [Head])
  {
  }

  /** The 403/405 fallback is unreachable: those codes are already reported
      broken by the `>= 400` test, from HEAD alone. */
  lemma ForbiddenAndNotAllowedNeverFallBack(code: int, get: Outcome)
    requires code == 403 || code == 405
    ensures CheckLink(Status(code), get).broken
    ensures CheckLink(Status(code), get).sent == [Head]
  {
  }

  /** When HEAD fails in transit the verdict is GET's, and an error when GET
      fails too. */
  lemma TransportFallsBackToGet(msg: string, get: Outcome)
    ensures CheckLink(Transport(msg), get) == GetFallback(get)
    ensures get.Status? ==> CheckLink(Transport(msg), get)
                            == LinkCheck(get.code >= 400, Describe(get.code, Get), [Head, Get])
    ensures get.Transport? ==> CheckLink(Transport(msg), get)
                               == LinkCheck(true, "Error: " + get.msg, [Head, Get])
  {
  }

  /** The policy the code evidently intends: 403 and 405 from HEAD are not
      trusted, and GET decides instead. */
  function CheckLinkIntended(head: Outcome, get: Outcome): (r: LinkCheck)
    ensures r.sent == [Head, Get] <==> head.Transport? || head.code == 403 || head.code == 405
  {
    match head
    case Status(code) =>
      if code == 405 || code == 403 then GetFallback(get)
      else if code >= 400 then LinkCheck(true, Describe(code, Head), [Head])
      else LinkCheck(false, Describe(code, Head), [Head])
    case Transport(_) => GetFallback(get)
  }

  /** The intended policy sends GET after a 403 or 405 and takes GET's verdict,
      and agrees with the code as written on every other HEAD outcome. */
  lemma IntendedFallback(head: Outcome, get: Outcome)
    ensures head.Status? && (head.code == 403 || head.code == 405) ==>
              CheckLinkIntended(head, get) == GetFallback(get)
    ensures !(head.Status? && (head.code == 403 || head.code == 405)) ==>
              CheckLinkIntended(head, get) == CheckLink(head, get)
  {
  }

  lemma DescribeExamples()
    ensures Describe(200, Head) == "HTTP 200 (HEAD)"
    ensures Describe(200, Get) == "HTTP 200 (GET)"
    ensures Describe(404, Head) == "HTTP 404 (HEAD)"
    ensures Describe(405, Head) == "HTTP 405 (HEAD)"
  {
    assert NatToString(20) == NatToString(2) + [Digit(0)];
    assert NatToString(200) == NatToString(20) + [Digit(0)];
    assert NatToString(40) == NatToString(4) + [Digit(0)];
    assert NatToString(404) == NatToString(40) + [Digit(4)];
    assert NatToString(405) == NatToString(40) + [Digit(5)];
  }

  /** HEAD answering 405 and GET answering 200: the code as written reports the
      link broken from HEAD; the intended policy reports it reachable from GET. */
  lemma NotAllowedThenOk()
    ensures CheckLink(Status(405), Status(200)) == LinkCheck(true, "HTTP 405 (HEAD)", [Head])
    ensures CheckLinkIntended(Status(405), Status(200)) == LinkCheck(false, "HTTP 200 (GET)", [Head, Get])
  {
    DescribeExamples();
  }

  /** A HEAD answer of 200 gives a reachable link described from HEAD. */
  lemma HeadOk(get: Outcome)
    ensures CheckLink(Status(200), get) == LinkCheck(false, "HTTP 200 (HEAD)", [Head])
  {
    DescribeExamples();
  }

  /** A HEAD answer of 404 gives a broken link described from HEAD. */
  lemma HeadNotFound(get: Outcome)
    ensures CheckLink(Status(404), get) == LinkCheck(true, "HTTP 404 (HEAD)", [Head])
  {
    DescribeExamples();
  }

  /** `check_link`'s returned pair. */
  function Verdict(c: LinkCheck): (bool, string) {
    (c.broken, c.info)
  }

  /** `check_link(session, url)` as a function of the URL, given what HEAD and
      GET would produce for each URL. */
  function LinkChecker(head: string -> Outcome, get: string -> Outcome): string -> (bool, string) {
    u => Verdict(CheckLink(head(u), get(u)))
  }
}
