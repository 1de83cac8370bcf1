/** The redirect loop of `WispHandle::perform` in `drift-core/src/handle.rs`. */
module Redirects {
  import opened Bytes
  import opened Text
  import opened Url

  datatype Verb = Get | Other(name: bytes)

  datatype Header = Header(name: bytes, value: bytes)

  datatype Response = Response(status: nat, headers: seq<Header>, body: bytes)

  datatype Error = NoUrl | BadUrl(error: UrlError) | RedirectLoop | Exchange(cause: nat)

  type Answer = Result<Response, nat>

  /** A request that was made, and how it was answered. */
  datatype Request = Request(url: bytes, verb: Verb, answer: Answer)

  /** `eq_ignore_ascii_case`. */
  predicate SameName(a: bytes, b: bytes) {
    |a| == |b| && forall i | 0 <= i < |a| :: LowerByte(a[i]) == LowerByte(b[i])
  }

  /** The value of the first header of that name. */
  function HeaderValue(headers: seq<Header>, name: bytes): Option<bytes> {
    if headers == [] then None
    else if SameName(headers[0].name, name) then Some(headers[0].value)
    else HeaderValue(headers[1..], name)
  }

  /** The same name, in any case. */
  predicate Spelled(a: bytes, b: bytes) {
    |a| == |b| && forall i | 0 <= i < |a| :: SameLetter(a[i], b[i])
  }

  lemma SameNameIff(a: bytes, b: bytes)
    ensures SameName(a, b) <==> Spelled(a, b)
  {
    hide LowerByte, SameLetter;
    if |a| == |b| {
      forall i | 0 <= i < |a|
        ensures LowerByte(a[i]) == LowerByte(b[i]) <==> SameLetter(a[i], b[i])
      {
        LowerIff(a[i], b[i]);
      }
    }
  }

  /** The first header of that name has this value. */
  ghost predicate FirstNamed(headers: seq<Header>, name: bytes, value: bytes) {
    exists k ::
      && 0 <= k < |headers| && Spelled(headers[k].name, name) && headers[k].value == value
      && forall j | 0 <= j < k :: !Spelled(headers[j].name, name)
  }

  lemma {:induction false} HeaderValueIff(headers: seq<Header>, name: bytes, value: bytes)
    ensures HeaderValue(headers, name) == Some(value) <==> FirstNamed(headers, name, value)
    decreases |headers|
  {
    hide SameName, Spelled;
    if headers != [] {
      SameNameIff(headers[0].name, name);
    }
    if headers != [] && !Spelled(headers[0].name, name) {
      var more := headers[1..];
      HeaderValueIff(more, name, value);
      if FirstNamed(more, name, value) {
        var k :| 0 <= k < |more| && Spelled(more[k].name, name) && more[k].value == value
                 && forall j | 0 <= j < k :: !Spelled(more[j].name, name);
        assert headers[k + 1] == more[k];
        assert forall j | 0 <= j < k + 1 :: headers[j] == if j == 0 then headers[0] else more[j - 1];
      }
      if FirstNamed(headers, name, value) {
        var k :| 0 <= k < |headers| && Spelled(headers[k].name, name) && headers[k].value == value
                 && forall j | 0 <= j < k :: !Spelled(headers[j].name, name);
        assert more[k - 1] == headers[k];
        assert forall j | 0 <= j < k - 1 :: more[j] == headers[j + 1];
      }
    }
  }

  function Location(resp: Response): Option<bytes> {
    HeaderValue(resp.headers, Ascii("location"))
  }

  /** The response sends the client elsewhere, and says where. */
  predicate Redirects(resp: Response) {
    IsRedirectStatus(resp.status) && Location(resp).Some?
  }

  function Next(url: bytes, resp: Response): bytes
    requires Redirects(resp)
  {
    ResolveUrl(url, Location(resp).value)
  }

  function NextVerb(verb: Verb, resp: Response): Verb {
    if resp.status == 303 then Get else verb
  }

  /** What `perform` did: how it ended, the requests it made and the method the handle is left with. */
  datatype Journey = Journey(result: Result<Response, Error>, made: seq<Request>, verb: Verb)

  /** Following redirects from `url`, when the requests get `answers` in turn. */
  function Follow(url: bytes, verb: Verb, remaining: nat, answers: seq<Answer>): Journey
    requires |answers| > remaining
    decreases remaining
  {
    if ParseUrl(url).Err? then Journey(Err(BadUrl(ParseUrl(url).error)), [], verb)
    else
      var here := Request(url, verb, answers[0]);
      match answers[0]
      case Err(cause) => Journey(Err(Exchange(cause)), [here], verb)
      case Ok(resp) =>
        if remaining == 0 || !Redirects(resp) then Journey(Ok(resp), [here], verb)
        else if Next(url, resp) == url then Journey(Err(RedirectLoop), [here], verb)
        else
          var later := Follow(Next(url, resp), NextVerb(verb, resp), remaining - 1, answers[1..]);
          Journey(later.result, [here] + later.made, later.verb)
  }

  // ---- Which answers are followed ----

  /** An answer to a request for `url` that sends the client to `next`: one of five numbers, and a Location header. */
  ghost predicate SendsTo(resp: Response, url: bytes, next: bytes) {
    && resp.status in {301, 302, 303, 307, 308}
    && exists location :: FirstNamed(resp.headers, Ascii("location"), location) && next == ResolveUrl(url, location)
  }

  lemma SendsToIff(resp: Response, url: bytes, next: bytes)
    ensures SendsTo(resp, url, next) <==> Redirects(resp) && next == Next(url, resp)
  {
    hide ResolveUrl, FirstNamed, HeaderValue;
    forall location
      ensures Location(resp) == Some(location) <==> FirstNamed(resp.headers, Ascii("location"), location)
    {
      HeaderValueIff(resp.headers, Ascii("location"), location);
    }
  }

  /** The answer to a request for `url` sends the client to another URL that parses. */
  ghost predicate SendsOn(resp: Response, url: bytes) {
    exists next :: SendsTo(resp, url, next) && next != url && ParseUrl(next).Ok?
  }

  lemma SendsOnIff(resp: Response, url: bytes)
    ensures SendsOn(resp, url) <==> Redirects(resp) && Next(url, resp) != url && ParseUrl(Next(url, resp)).Ok?
  {
    hide SendsTo, Redirects, Next, ParseUrl;
    forall next
      ensures SendsTo(resp, url, next) <==> Redirects(resp) && next == Next(url, resp)
    {
      SendsToIff(resp, url, next);
    }
    if Redirects(resp) {
      assert SendsTo(resp, url, Next(url, resp));
    }
  }

  /**
   The `i`-th request, when `remaining` redirects may be followed, has a successor exactly when its answer sends the
   client to another URL that parses; that is the URL requested next, by GET after a 303 and by the same method otherwise.
   */
  ghost predicate FollowedRight(made: seq<Request>, i: nat, remaining: nat)
    requires i < |made|
  {
    var here := made[i];
    && (i + 1 < |made| <==> i < remaining && here.answer.Ok? && SendsOn(here.answer.value, here.url))
    && (i + 1 < |made| ==>
          && here.answer.Ok? && SendsTo(here.answer.value, here.url, made[i + 1].url)
          && made[i + 1].verb == if here.answer.value.status == 303 then Get else here.verb)
  }

  ghost predicate AllFollowedRight(made: seq<Request>, remaining: nat) {
    forall i | 0 <= i < |made| :: FollowedRight(made, i, remaining)
  }

  lemma FollowedLater(here: Request, made: seq<Request>, i: nat, remaining: nat)
    requires i < |made| && remaining > 0 && FollowedRight(made, i, remaining - 1)
    ensures FollowedRight([here] + made, i + 1, remaining)
  {
    hide SendsTo, SendsOn;
    var all := [here] + made;
    assert all[i + 1] == made[i];
    assert i + 1 < |made| ==> all[i + 2] == made[i + 1];
  }

  lemma OtherStatus(resp: Response)
    ensures resp.status !in {301, 302, 303, 307, 308} ==> !Redirects(resp)
  {
  }

  lemma FirstStops(here: Request, remaining: nat)
    requires !(remaining > 0 && here.answer.Ok? && SendsOn(here.answer.value, here.url))
    ensures FollowedRight([here], 0, remaining)
  {
    hide SendsOn, SendsTo;
  }

  lemma FirstGoesOn(here: Request, made: seq<Request>, remaining: nat)
    requires remaining > 0 && here.answer.Ok? && made != [] && SendsOn(here.answer.value, here.url)
    requires Redirects(here.answer.value) && made[0].url == Next(here.url, here.answer.value)
    requires made[0].verb == NextVerb(here.verb, here.answer.value)
    ensures FollowedRight([here] + made, 0, remaining)
  {
    SendsToIff(here.answer.value, here.url, made[0].url);
    hide SendsOn, SendsTo, Redirects, Next;
    assert ([here] + made)[1] == made[0];
  }

  lemma FirstRequest(url: bytes, verb: Verb, remaining: nat, answers: seq<Answer>)
    requires |answers| > remaining
    ensures var made := Follow(url, verb, remaining, answers).made;
            if ParseUrl(url).Ok? then made != [] && made[0] == Request(url, verb, answers[0]) else made == []
  {
    hide ParseUrl, Redirects, Next, NextVerb;
  }

  lemma FollowedFirst(url: bytes, verb: Verb, remaining: nat, answers: seq<Answer>)
    requires |answers| > remaining && ParseUrl(url).Ok?
    ensures FollowedRight(Follow(url, verb, remaining, answers).made, 0, remaining)
    ensures answers[0].Ok? && answers[0].value.status !in {301, 302, 303, 307, 308} ==>
              Follow(url, verb, remaining, answers) == Journey(Ok(answers[0].value), [Request(url, verb, answers[0])], verb)
  {
    hide SendsTo, SendsOn, FollowedRight, Redirects, Next, NextVerb, ParseUrl;
    var here := Request(url, verb, answers[0]);
    if answers[0].Ok? {
      OtherStatus(answers[0].value);
      SendsOnIff(answers[0].value, url);
    }
    if remaining > 0 && answers[0].Ok? && Redirects(answers[0].value) && Next(url, answers[0].value) != url {
      var next, verb' := Next(url, answers[0].value), NextVerb(verb, answers[0].value);
      var later := Follow(next, verb', remaining - 1, answers[1..]);
      FirstRequest(next, verb', remaining - 1, answers[1..]);
      if ParseUrl(next).Ok? {
        FirstGoesOn(here, later.made, remaining);
      } else {
        assert [here] + later.made == [here];
        FirstStops(here, remaining);
      }
    } else {
      FirstStops(here, remaining);
    }
  }

  /** Every journey follows exactly the answers it should, and ends with the first answer that is no redirect. */
  lemma {:induction false} FollowedExactly(url: bytes, verb: Verb, remaining: nat, answers: seq<Answer>)
    requires |answers| > remaining && ParseUrl(url).Ok?
    ensures var j := Follow(url, verb, remaining, answers);
            && j.made != [] && AllFollowedRight(j.made, remaining)
            && var last := j.made[|j.made| - 1];
               last.answer.Ok? && last.answer.value.status !in {301, 302, 303, 307, 308} ==>
                 j.result == Ok(last.answer.value) && j.verb == last.verb
    decreases remaining
  {
    hide ParseUrl, Redirects, Next, NextVerb, FollowedRight;
    FollowedFirst(url, verb, remaining, answers);
    var j := Follow(url, verb, remaining, answers);
    if |j.made| > 1 {
      var resp, here := answers[0].value, Request(url, verb, answers[0]);
      var next, verb' := Next(url, resp), NextVerb(verb, resp);
      var later := Follow(next, verb', remaining - 1, answers[1..]);
      FollowedExactly(next, verb', remaining - 1, answers[1..]);
      forall i | 0 < i < |j.made|
        ensures FollowedRight(j.made, i, remaining)
      {
        FollowedLater(here, later.made, i - 1, remaining);
      }
    }
  }

  /** The same journey with requests already made before it. */
  function After(made: seq<Request>, j: Journey): Journey {
    j.(made := made + j.made)
  }

  lemma NothingMade(j: Journey)
    ensures After([], j) == j
  {
    assert [] + j.made == j.made;
  }

  lemma BadUrlStops(made: seq<Request>, url: bytes, verb: Verb, remaining: nat, answers: seq<Answer>)
    requires |answers| > remaining && ParseUrl(url).Err?
    ensures After(made, Follow(url, verb, remaining, answers)) == Journey(Err(BadUrl(ParseUrl(url).error)), made, verb)
  {
    assert made + [] == made;
  }

  lemma FailureStops(made: seq<Request>, url: bytes, verb: Verb, remaining: nat, answers: seq<Answer>)
    requires |answers| > remaining && ParseUrl(url).Ok? && answers[0].Err?
    ensures After(made, Follow(url, verb, remaining, answers))
            == Journey(Err(Exchange(answers[0].error)), made + [Request(url, verb, answers[0])], verb)
  {
  }

  lemma ResponseStops(made: seq<Request>, url: bytes, verb: Verb, remaining: nat, answers: seq<Answer>)
    requires |answers| > remaining && ParseUrl(url).Ok? && answers[0].Ok?
    requires remaining == 0 || !Redirects(answers[0].value)
    ensures After(made, Follow(url, verb, remaining, answers))
            == Journey(Ok(answers[0].value), made + [Request(url, verb, answers[0])], verb)
  {
    hide ParseUrl, Redirects;
  }

  lemma RedirectGoesOn(made: seq<Request>, url: bytes, verb: Verb, remaining: nat, answers: seq<Answer>)
    requires |answers| > remaining > 0 && ParseUrl(url).Ok? && answers[0].Ok? && Redirects(answers[0].value)
    ensures var resp := answers[0].value;
            var here := made + [Request(url, verb, answers[0])];
            After(made, Follow(url, verb, remaining, answers))
            == if Next(url, resp) == url then Journey(Err(RedirectLoop), here, verb)
               else After(here, Follow(Next(url, resp), NextVerb(verb, resp), remaining - 1, answers[1..]))
  {
    hide ParseUrl, Redirects, Next;
    var resp, here := answers[0].value, Request(url, verb, answers[0]);
    if Next(url, resp) != url {
      var later := Follow(Next(url, resp), NextVerb(verb, resp), remaining - 1, answers[1..]);
      assert Follow(url, verb, remaining, answers) == Journey(later.result, [here] + later.made, later.verb);
      hide Follow;
      assert made + ([here] + later.made) == made + [here] + later.made;
    }
  }

  /** The far end, which will give `answers` to the requests of one `perform`. */
  class Server {
    const answers: seq<Answer>
    var made: seq<Request>

    constructor (answers: seq<Answer>)
      ensures this.answers == answers && made == []
    {
      this.answers := answers;
      made := [];
    }

    method Exchange(url: bytes, verb: Verb) returns (answer: Answer)
      requires |made| < |answers|
      modifies this
      ensures answer == answers[|old(made)|] && made == old(made) + [Request(url, verb, answer)]
    {
      answer := answers[|made|];
      made := made + [Request(url, verb, answer)];
    }
  }

  class WispHandle {
    var url: Option<bytes>
    var verb: Verb
    var followRedirects: bool
    var maxRedirects: u32

    constructor (url: Option<bytes>, verb: Verb, followRedirects: bool, maxRedirects: u32)
      ensures this.url == url && this.verb == verb
      ensures this.followRedirects == followRedirects && this.maxRedirects == maxRedirects
    {
      this.url, this.verb, this.followRedirects, this.maxRedirects := url, verb, followRedirects, maxRedirects;
    }

    function Allowed(): nat
      reads this
    {
      if followRedirects then maxRedirects else 0
    }

    /** Where a response to `current` sends the client; a 303 turns the handle's method into GET. */
    method Redirected(current: bytes, resp: Response) returns (r: Result<Option<bytes>, Error>)
      modifies this`verb
      ensures resp.status !in {301, 302, 303, 307, 308} ==> r == Ok(None) && verb == old(verb)
      ensures forall next | SendsTo(resp, current, next) && next != current && ParseUrl(next).Ok? ::
                r == Ok(Some(next)) && verb == if resp.status == 303 then Get else old(verb)
      ensures !Redirects(resp) ==> r == Ok(None) && verb == old(verb)
      ensures Redirects(resp) && Next(current, resp) == current ==> r == Err(RedirectLoop) && verb == old(verb)
      ensures Redirects(resp) && Next(current, resp) != current ==> verb == NextVerb(old(verb), resp)
      ensures Redirects(resp) && Next(current, resp) != current ==>
                r == match ParseUrl(Next(current, resp)) case Ok(_) => Ok(Some(Next(current, resp))) case Err(e) => Err(BadUrl(e))
    {
      hide ResolveUrl, ParseUrl, Location, SendsTo;
      forall next
        ensures SendsTo(resp, current, next) <==> Redirects(resp) && next == Next(current, resp)
      {
        SendsToIff(resp, current, next);
      }
      if !IsRedirectStatus(resp.status) {
        return Ok(None);
      }
      var location := Location(resp);
      if location.None? {
        return Ok(None);
      }
      var next := ResolveUrl(current, location.value);
      if next == current {
        return Err(RedirectLoop);
      }
      if resp.status == 303 {
        verb := Get;
      }
      var parsed := ParseUrl(next);
      return if parsed.Ok? then Ok(Some(next)) else Err(BadUrl(parsed.error));
    }

    method Perform(server: Server) returns (r: Result<Response, Error>)
      requires server.made == [] && |server.answers| > Allowed()
      modifies this`verb, server
      ensures url.None? ==> r == Err(NoUrl) && server.made == [] && verb == old(verb)
      ensures url.Some? ==> Journey(r, server.made, verb) == Follow(url.value, old(verb), Allowed(), server.answers)
      ensures url.Some? && ParseUrl(url.value).Ok? ==> AllFollowedRight(server.made, Allowed())
      ensures |server.made| <= 1 + if followRedirects then maxRedirects else 0
    {
      hide Follow, After, ResolveUrl, ParseUrl, Redirects, Next, NextVerb, AllFollowedRight, SendsTo;
      if url.None? {
        return Err(NoUrl);
      }
      if ParseUrl(url.value).Ok? {
        FollowedExactly(url.value, verb, Allowed(), server.answers);
      }
      var current, remaining := url.value, Allowed();
      ghost var whole, left := Follow(current, verb, remaining, server.answers), server.answers;
      NothingMade(whole);
      assert left == server.answers[0..];
      while true
        invariant |server.made| + remaining == Allowed() == old(Allowed())
        invariant left == server.answers[|server.made|..]
        invariant whole == After(server.made, Follow(current, verb, remaining, left))
        decreases remaining
      {
        ghost var before := server.made;
        var parsed := ParseUrl(current);
        if parsed.Err? {
          BadUrlStops(before, current, verb, remaining, left);
          return Err(BadUrl(parsed.error));
        }
        var answer := server.Exchange(current, verb);
        if answer.Err? {
          FailureStops(before, current, verb, remaining, left);
          return Err(Exchange(answer.error));
        }
        var resp := answer.value;
        if remaining == 0 || !Redirects(resp) {
          ResponseStops(before, current, verb, remaining, left);
          return Ok(resp);
        }
        RedirectGoesOn(before, current, verb, remaining, left);
        var next := Redirected(current, resp);
        left := left[1..];
        if next.Err? {
          if next.error.BadUrl? {
            BadUrlStops(server.made, Next(current, resp), verb, remaining - 1, left);
          }
          return Err(next.error);
        }
        current := next.value.value;
        remaining := remaining - 1;
      }
    }
  }

  // ---- What every journey keeps ----

  /** `b` is the request that the answer to `a` sent the client on to make. */
  predicate Leads(a: Request, b: Request) {
    && a.answer.Ok? && Redirects(a.answer.value)
    && b.url == Next(a.url, a.answer.value) && b.url != a.url && b.verb == NextVerb(a.verb, a.answer.value)
  }

  ghost predicate Trail(made: seq<Request>) {
    forall i | 0 < i < |made| :: Leads(made[i - 1], made[i])
  }

  /** How the last request explains the way a journey ended, and the method it left the handle with. */
  predicate Explains(last: Request, result: Result<Response, Error>, left: Verb, more: bool) {
    match result
    case Ok(resp) => last.answer == Ok(resp) && left == last.verb && (more ==> !Redirects(resp))
    case Err(Exchange(cause)) => last.answer == Err(cause) && left == last.verb
    case Err(RedirectLoop) =>
      && last.answer.Ok? && Redirects(last.answer.value) && left == last.verb
      && Next(last.url, last.answer.value) == last.url
    case Err(BadUrl(e)) =>
      && last.answer.Ok? && Redirects(last.answer.value) && left == NextVerb(last.verb, last.answer.value)
      && ParseUrl(Next(last.url, last.answer.value)) == Err(e)
    case Err(NoUrl) => false
  }

  /**
   At most one request more than the redirects allowed, each but the first the one its predecessor's answer led
   to; the journey ends as the last answer says, and only an exhausted allowance leaves a redirect unfollowed.
   */
  ghost predicate Proper(j: Journey, url: bytes, verb: Verb, remaining: nat, answers: seq<Answer>)
    requires |answers| > remaining
  {
    && 1 <= |j.made| <= remaining + 1 && Trail(j.made)
    && j.made[0].url == url && j.made[0].verb == verb
    && (forall i | 0 <= i < |j.made| :: j.made[i].answer == answers[i])
    && Explains(j.made[|j.made| - 1], j.result, j.verb, |j.made| <= remaining)
  }

  lemma OneRequest(here: Request, result: Result<Response, Error>, left: Verb, remaining: nat, answers: seq<Answer>)
    requires |answers| > remaining && here.answer == answers[0] && Explains(here, result, left, 1 <= remaining)
    ensures Proper(Journey(result, [here], left), here.url, here.verb, remaining, answers)
  {
  }

  lemma TrailGrows(first: Request, made: seq<Request>)
    requires made != [] && Leads(first, made[0]) && Trail(made)
    ensures Trail([first] + made)
  {
    hide Leads;
    var all := [first] + made;
    forall i | 0 < i < |all| ensures Leads(all[i - 1], all[i]) {
      if i > 1 {
        assert Leads(made[i - 2], made[i - 1]);
      }
    }
  }

  lemma ProperGrows(here: Request, later: Journey, next: bytes, verb': Verb, remaining: nat, answers: seq<Answer>)
    requires |answers| > remaining > 0 && Proper(later, next, verb', remaining - 1, answers[1..])
    requires here.answer == answers[0] && Leads(here, later.made[0])
    ensures Proper(Journey(later.result, [here] + later.made, later.verb), here.url, here.verb, remaining, answers)
  {
    hide Leads, Explains;
    TrailGrows(here, later.made);
    hide Trail;
    var all := [here] + later.made;
    forall i | 0 <= i < |all| ensures all[i].answer == answers[i] {
      if i > 0 {
        assert later.made[i - 1].answer == answers[1..][i - 1];
      }
    }
  }

  lemma {:induction false} JourneysAreProper(url: bytes, verb: Verb, remaining: nat, answers: seq<Answer>)
    requires |answers| > remaining && ParseUrl(url).Ok?
    ensures Proper(Follow(url, verb, remaining, answers), url, verb, remaining, answers)
    decreases remaining
  {
    hide ParseUrl, Redirects, Next, NextVerb, Proper;
    var here := Request(url, verb, answers[0]);
    if answers[0].Err? {
      OneRequest(here, Err(Exchange(answers[0].error)), verb, remaining, answers);
    } else if remaining == 0 || !Redirects(answers[0].value) {
      OneRequest(here, Ok(answers[0].value), verb, remaining, answers);
    } else {
      var resp := answers[0].value;
      var next, verb' := Next(url, resp), NextVerb(verb, resp);
      if next == url {
        OneRequest(here, Err(RedirectLoop), verb, remaining, answers);
      } else if ParseUrl(next).Err? {
        var later := Follow(next, verb', remaining - 1, answers[1..]);
        assert [here] + later.made == [here];
        OneRequest(here, Err(BadUrl(ParseUrl(next).error)), verb', remaining, answers);
      } else {
        JourneysAreProper(next, verb', remaining - 1, answers[1..]);
        ProperGrows(here, Follow(next, verb', remaining - 1, answers[1..]), next, verb', remaining, answers);
      }
    }
  }

  /** After a followed 303 every later request is a GET. */
  lemma {:induction false} SeeOtherMeansGet(made: seq<Request>, i: nat, j: nat)
    requires Trail(made) && i < j < |made| && made[i].answer.Ok? && made[i].answer.value.status == 303
    ensures made[j].verb == Get
    decreases j
  {
    hide Redirects, Next;
    assert Leads(made[j - 1], made[j]);
    if i < j - 1 {
      SeeOtherMeansGet(made, i, j - 1);
    }
  }

  predicate NamesPath(resp: Response) {
    Location(resp).Some? && Location(resp).value != [] && Location(resp).value[0] == SLASH
  }

  /** Every redirect so far named only a path. */
  ghost predicate PathsOnly(made: seq<Request>) {
    forall i | 0 <= i < |made| :: made[i].answer.Ok? && Redirects(made[i].answer.value) ==> NamesPath(made[i].answer.value)
  }

  /** Redirects to paths never leave the server the first request went to. */
  lemma {:induction false} PathsKeepTheOrigin(made: seq<Request>, j: nat)
    requires Trail(made) && PathsOnly(made) && j < |made| && ParseUrl(made[0].url).Ok?
    ensures ParseUrl(made[j].url).Ok?
    ensures var first, here := ParseUrl(made[0].url).value, ParseUrl(made[j].url).value;
            here.scheme == first.scheme && here.host == first.host && here.port == first.port
    ensures j > 0 ==> ParseUrl(made[j].url).value.path == Location(made[j - 1].answer.value).value
    decreases j
  {
    hide ParseUrl, ResolveUrl, Location;
    if j > 0 {
      PathsKeepTheOrigin(made, j - 1);
      assert Leads(made[j - 1], made[j]) && NamesPath(made[j - 1].answer.value);
      ResolvedPathKeepsOrigin(made[j - 1].url, Location(made[j - 1].answer.value).value);
    }
  }
}
