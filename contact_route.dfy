/**
 * The contact form endpoint of `app/api/contact/route.ts`: field and e-mail validation,
 * and the per-client sliding-window rate limiter kept in the module-level
 * `submissionTimes` map. The request body, the `x-forwarded-for` header and `Date.now()`
 * are parameters of a request; the log line and the e-mail sent through Resend do not
 * change the response and are not modelled.
 */
module ContactRoute {
  import opened Wrappers
  import opened Text
  import opened Lists

  const RateLimitWindow: int := 60 * 1000
  const MaxSubmissions: nat := 3

  /** The 429 error and the 200 acknowledgement. */
  const TooMany := "Too many requests. Please try again later."
  const ReceivedMsg := "Message received successfully"

  /** The fields of an object body; a field that is absent or not a string is `None`. */
  datatype ContactBody = ContactBody(name: Option<string>, email: Option<string>, message: Option<string>)

  /** What `await request.json()` gives: text that is not JSON (the promise rejects), `null`,
      another value that is not an object (a number, string, boolean or array), or an object. */
  datatype RequestBody = Unreadable | Null | NotObject | Object(fields: ContactBody)

  /** `const { name, email, message } = body`: it throws (`None`) only for `null`, and
      reaches this point only once the body was read; any other value that is not an object
      has none of the three properties. */
  function Destructure(body: RequestBody): (r: Option<ContactBody>)
    ensures r.None? <==> body.Unreadable? || body.Null?
    ensures r.Some? && !body.Object? ==> r.value.name.None? && r.value.email.None? && r.value.message.None?
  {
    match body
    case Unreadable => None
    case Null => None
    case NotObject => Some(ContactBody(None, None, None))
    case Object(fields) => Some(fields)
  }

  /** The JSON response: an error with its status, or the 200 acknowledgement. */
  datatype Reply = Failure(status: nat, error: string) | Received(message: string)

  /** A truthy string field: present and not empty. */
  predicate Present(field: Option<string>) {
    field.Some? && field.value != ""
  }

  // ---------------------------------------------------------------------------
  // E-mail check: /^[^\s@]+@[^\s@]+\.[^\s@]+$/

  /** A character of the class `[^\s@]`. */
  predicate Plain(c: char) {
    !IsWhitespace(c) && c != '@'
  }

  predicate AllPlain(s: string) {
    forall j :: 0 <= j < |s| ==> Plain(s[j])
  }

  /** The pattern matches with its `@` at `i` and the `.` it requires at `k`: one or more
      plain characters, `@`, one or more, `.`, one or more. */
  predicate EmailAt(e: string, i: int, k: int) {
    && 0 < i && i + 1 < k && k + 1 < |e|
    && e[i] == '@' && e[k] == '.'
    && forall m :: 0 <= m < |e| && m != i ==> Plain(e[m])
  }

  /** The index of the first `@`. */
  function FirstAt(e: string): (r: Option<nat>)
    ensures r.Some? ==> r.value < |e| && e[r.value] == '@' && forall m :: 0 <= m < r.value ==> e[m] != '@'
    ensures r.None? ==> forall m :: 0 <= m < |e| ==> e[m] != '@'
  {
    if e == [] then None
    else if e[0] == '@' then Some(0)
    else
      var rest := FirstAt(e[1..]);
      if rest.Some? then Some(rest.value + 1) else None
  }

  /** `emailRegex.test(email)`, as a scan: a non-empty plain part before the first `@`,
      and a plain remainder with a `.` that is neither its first nor its last character. */
  function MatchesEmail(e: string): bool {
    match FirstAt(e)
    case None => false
    case Some(i) =>
      var local := e[..i];
      var domain := e[i + 1..];
      local != [] && AllPlain(local) && AllPlain(domain) && |domain| >= 3 && '.' in domain[1..|domain| - 1]
  }

  /** The scan accepts exactly the strings the pattern matches. */
  lemma {:induction false} MatchesEmailIff(e: string)
    ensures MatchesEmail(e) <==> exists i, k :: EmailAt(e, i, k)
  {
    if MatchesEmail(e) {
      var i := FirstAt(e).value;
      var domain := e[i + 1..];
      var inner := domain[1..|domain| - 1];
      var j :| 0 <= j < |inner| && inner[j] == '.';
      var k := i + 2 + j;
      assert e[k] == '.';
      forall m | 0 <= m < |e| && m != i ensures Plain(e[m]) {
        if m < i {
          assert e[m] == e[..i][m];
        } else {
          assert e[m] == domain[m - i - 1];
        }
      }
      assert EmailAt(e, i, k);
    }
    if exists i, k :: EmailAt(e, i, k) {
      var i, k :| EmailAt(e, i, k);
      var r := FirstAt(e);
      assert r.Some? by {
        assert e[i] == '@';
      }
      assert r.value == i by {
        assert e[r.value] == '@';
        assert !Plain(e[r.value]);
      }
      var domain := e[i + 1..];
      assert AllPlain(e[..i]) by {
        forall m | 0 <= m < i ensures Plain(e[..i][m]) {
          assert e[..i][m] == e[m];
        }
      }
      assert AllPlain(domain) by {
        forall m | 0 <= m < |domain| ensures Plain(domain[m]) {
          assert domain[m] == e[i + 1 + m];
        }
      }
      assert domain[1..|domain| - 1][k - i - 2] == '.';
    }
  }

  lemma {:induction false} MatchesEmailExample()
    ensures MatchesEmail("a@b.co")
    ensures !MatchesEmail("a@b") && !MatchesEmail("a b@c.d") && !MatchesEmail("a@@b.c")
  {
    assert EmailAt("a@b.co", 1, 3);
    MatchesEmailIff("a@b.co");
    assert FirstAt("a@b") == Some(1);
    assert FirstAt("a b@c.d") == Some(3);
    assert !Plain("a b@c.d"[..3][1]);
    assert FirstAt("a@@b.c") == Some(1);
    assert !Plain("a@@b.c"[2..][0]);
  }

  /** `\s` covers the Unicode space separators too: an em space rejects the address. */
  lemma {:induction false} MatchesEmailEmSpace()
    ensures !MatchesEmail("a\U{2003}b@c.de")
  {
    var e := "a\U{2003}b@c.de";
    assert FirstAt(e) == Some(3);
    assert !Plain(e[..3][1]);
  }

  // ---------------------------------------------------------------------------
  // Rate limiting

  /** The client key: the `x-forwarded-for` header, or `unknown` when it is absent or
      empty. */
  function ClientKey(forwardedFor: Option<string>): (key: string)
    ensures key != ""
    ensures forwardedFor.Some? && forwardedFor.value != "" ==> key == forwardedFor.value
  {
    if forwardedFor.Some? && forwardedFor.value != "" then forwardedFor.value else "unknown"
  }

  /** `submissionTimes.get(key) || []`. */
  function History(times: map<string, seq<int>>, key: string): seq<int> {
    if key in times then times[key] else []
  }

  function RecentAt(now: int): int -> bool {
    t => now - t < RateLimitWindow
  }

  /** The submissions less than a window old at `now`, in their order: the `filter` of
      the stored list, written out so that it names no closure. */
  function Recent(ts: seq<int>, now: int): seq<int>
    decreases |ts|
  {
    if ts == [] then []
    else
      var last := ts[|ts| - 1];
      Recent(ts[..|ts| - 1], now) + (if now - last < RateLimitWindow then [last] else [])
  }

  lemma {:induction false} RecentIsFilter(ts: seq<int>, now: int)
    ensures Recent(ts, now) == Filter(ts, RecentAt(now))
    decreases |ts|
  {
    if ts != [] {
      RecentIsFilter(ts[..|ts| - 1], now);
    }
  }

  /** The times of `ts` that fall in the window starting at `start`. */
  function InWindow(ts: seq<int>, start: int): seq<int> {
    Filter(ts, InWindowAt(start))
  }

  function InWindowAt(start: int): int -> bool {
    t => start <= t < start + RateLimitWindow
  }

  /** Every accepted submission found fewer than `MaxSubmissions` earlier ones in the
      window before it. */
  ghost predicate Spaced(ts: seq<int>) {
    forall j :: 0 <= j < |ts| ==> SpacedAt(ts, j)
  }

  ghost predicate SpacedAt(ts: seq<int>, j: nat)
    requires j < |ts|
  {
    |Recent(ts[..j], ts[j])| < MaxSubmissions
  }

  lemma {:induction false} SpacedPrefix(ts: seq<int>)
    requires Spaced(ts) && ts != []
    ensures Spaced(ts[..|ts| - 1])
  {
    var front := ts[..|ts| - 1];
    forall j | 0 <= j < |front| ensures SpacedAt(front, j) {
      assert SpacedAt(ts, j);
      assert front[..j] == ts[..j];
    }
  }

  /** Submissions spaced that way never put more than `MaxSubmissions` into one window,
      wherever the window starts. */
  lemma {:induction false} SpacedWindow(ts: seq<int>, start: int)
    requires Spaced(ts)
    ensures |InWindow(ts, start)| <= MaxSubmissions
    decreases |ts|
  {
    if ts != [] {
      var m := |ts| - 1;
      var front := ts[..m];
      SpacedPrefix(ts);
      SpacedWindow(front, start);
      var last := ts[m];
      assert SpacedAt(ts, m);
      assert ts[..m] == front;
      if InWindowAt(start)(last) {
        assert |InWindow(ts, start)| == |InWindow(front, start)| + 1;
        RecentIsFilter(front, last);
        FilterCountMonotone(front, InWindowAt(start), RecentAt(last));
      } else {
        assert InWindow(ts, start) == InWindow(front, start);
      }
    }
  }

  /** Pruning at `now` and then at a later time prunes at the later time. */
  lemma {:induction false} RecentLater(ts: seq<int>, now: int, later: int)
    requires now <= later
    ensures Recent(Recent(ts, now), later) == Recent(ts, later)
  {
    RecentIsFilter(ts, now);
    RecentIsFilter(ts, later);
    RecentIsFilter(Recent(ts, now), later);
    FilterNarrow(ts, RecentAt(now), RecentAt(later));
  }

  lemma {:induction false} RecentSnoc(ts: seq<int>, x: int, now: int)
    ensures Recent(ts + [x], now) == Recent(ts, now) + Recent([x], now)
  {
    assert (ts + [x])[..|ts|] == ts;
  }

  /** The two validation steps: a 500 when reading or destructuring the body throws, a 400
      for a missing or empty field, a 400 for an e-mail the pattern rejects; `None` when the
      body passes. */
  function Validate(body: RequestBody): (r: Option<Reply>)
    ensures r.Some? ==> r.value.Failure?
  {
    var fields := Destructure(body);
    if fields.None? then Some(Failure(500, "Internal server error"))
    else if !Present(fields.value.name) || !Present(fields.value.email) || !Present(fields.value.message) then
      Some(Failure(400, "Missing required fields"))
    else if !MatchesEmail(fields.value.email.value) then Some(Failure(400, "Invalid email address"))
    else None
  }

  /** The reply to one request and the new `submissionTimes`. */
  function Respond(stored: map<string, seq<int>>, body: RequestBody, forwardedFor: Option<string>,
                   now: int): (Reply, map<string, seq<int>>)
  {
    var invalid := Validate(body);
    if invalid.Some? then (invalid.value, stored)
    else Admission(stored, ClientKey(forwardedFor), now)
  }

  /** The rate-limit step for a valid request from `key`: a 429 when the key already has
      `MaxSubmissions` recent submissions, otherwise the acknowledgement and the key's
      recent submissions followed by this one. */
  function Admission(stored: map<string, seq<int>>, key: string, now: int): (Reply, map<string, seq<int>>) {
    var recent := Recent(History(stored, key), now);
    if |recent| >= MaxSubmissions then (Failure(429, TooMany), stored)
    else (Received(ReceivedMsg), stored[key := recent + [now]])
  }

  /** A request is answered 500 exactly when its body cannot be read or is `null`, and 400
      exactly when, among the rest, a field is missing or empty or the e-mail does not
      match. */
  lemma {:induction false} ValidationReplies(stored: map<string, seq<int>>, body: RequestBody,
                                             forwardedFor: Option<string>, now: int)
    ensures var reply := Respond(stored, body, forwardedFor, now).0;
      && (reply.Failure? && reply.status == 500 <==> body.Unreadable? || body.Null?)
      && (reply.Failure? && reply.status == 400 <==>
            var fields := Destructure(body);
            fields.Some? && !(Present(fields.value.name) && Present(fields.value.email) && Present(fields.value.message)
                              && MatchesEmail(fields.value.email.value)))
  {
  }

  /** A JSON value that is neither an object nor `null` lacks every field: 400. */
  lemma NotObjectMissingFields(stored: map<string, seq<int>>, forwardedFor: Option<string>, now: int)
    ensures Respond(stored, NotObject, forwardedFor, now) == (Failure(400, "Missing required fields"), stored)
  {
  }

  /** Every rejection leaves the stored history as it was; only a 200 changes it. */
  lemma {:induction false} RejectionKeepsHistory(stored: map<string, seq<int>>, body: RequestBody,
                                                 forwardedFor: Option<string>, now: int)
    ensures var (reply, stored') := Respond(stored, body, forwardedFor, now);
      reply.Failure? ==> reply.status in {400, 429, 500} && stored' == stored
  {
  }

  /** A well-formed request is refused with 429 exactly when its client already has
      `MaxSubmissions` submissions less than a window old; otherwise it is accepted, and the
      client's history becomes those recent submissions followed by this one. Other clients'
      histories do not change. */
  lemma {:induction false} RateLimitDecision(stored: map<string, seq<int>>, body: RequestBody,
                                             forwardedFor: Option<string>, now: int)
    requires Validate(body).None?
    ensures var (reply, stored') := Respond(stored, body, forwardedFor, now);
      var key := ClientKey(forwardedFor);
      && (reply.Failure? <==> |Recent(History(stored, key), now)| >= MaxSubmissions)
      && (reply.Failure? ==> reply.status == 429)
      && (reply.Received? ==> History(stored', key) == Recent(History(stored, key), now) + [now]
                              && forall other :: other != key ==> History(stored', other) == History(stored, other))
  {
  }

  /** `stored` and `all` keep the same recent part at every time from `clock` on. */
  ghost predicate SameFrom(stored: seq<int>, all: seq<int>, clock: int) {
    forall later :: later >= clock ==> Recent(stored, later) == Recent(all, later)
  }

  ghost predicate SpacedKey(accepted: map<string, seq<int>>, key: string) {
    Spaced(History(accepted, key))
  }

  /** The limiter's list for `key` agrees with what was accepted for it from `clock` on. */
  ghost predicate KeyAgrees(stored: map<string, seq<int>>, accepted: map<string, seq<int>>, key: string, clock: int) {
    SameFrom(History(stored, key), History(accepted, key), clock)
  }

  /** What the limiter remembers is exactly the recent part of what it accepted, at the
      latest time seen and at every later time; with times in order, the accepted
      submissions are spaced. */
  ghost predicate LimiterInvariant(stored: map<string, seq<int>>, accepted: map<string, seq<int>>, clock: int, inOrder: bool) {
    && (forall key :: KeyAgrees(stored, accepted, key, clock))
    && (inOrder ==> forall key :: SpacedKey(accepted, key))
  }

  lemma {:induction false} SameFromLater(stored: seq<int>, all: seq<int>, clock: int, clock': int)
    requires SameFrom(stored, all, clock) && clock <= clock'
    ensures SameFrom(stored, all, clock')
  {
  }

  /** Time passing, in order or not, keeps the invariant. */
  lemma {:induction false} LaterClock(stored: map<string, seq<int>>, accepted: map<string, seq<int>>,
                                      clock: int, inOrder: bool, now: int)
    requires LimiterInvariant(stored, accepted, clock, inOrder)
    ensures LimiterInvariant(stored, accepted, if now > clock then now else clock, inOrder && now >= clock)
  {
    var clock' := if now > clock then now else clock;
    forall key ensures KeyAgrees(stored, accepted, key, clock') {
      assert KeyAgrees(stored, accepted, key, clock);
      SameFromLater(History(stored, key), History(accepted, key), clock, clock');
    }
  }

  /** Accepting a submission of `key` at `now` keeps the invariant. */
  lemma {:induction false} AcceptKeepsInvariant(stored: map<string, seq<int>>, accepted: map<string, seq<int>>,
                                                clock: int, inOrder: bool, key: string, now: int)
    requires LimiterInvariant(stored, accepted, clock, inOrder)
    requires inOrder && now >= clock ==> |Recent(History(stored, key), now)| < MaxSubmissions
    ensures LimiterInvariant(stored[key := Recent(History(stored, key), now) + [now]],
                             accepted[key := History(accepted, key) + [now]],
                             if now > clock then now else clock, inOrder && now >= clock)
  {
    var stored' := stored[key := Recent(History(stored, key), now) + [now]];
    var accepted' := accepted[key := History(accepted, key) + [now]];
    var clock' := if now > clock then now else clock;
    assert KeyAgrees(stored, accepted, key, clock);
    forall k ensures KeyAgrees(stored', accepted', k, clock') {
      if k != key {
        assert History(stored', k) == History(stored, k);
        assert History(accepted', k) == History(accepted, k);
        assert KeyAgrees(stored, accepted, k, clock);
        SameFromLater(History(stored, k), History(accepted, k), clock, clock');
      } else {
        assert History(stored', k) == Recent(History(stored, key), now) + [now];
        assert History(accepted', k) == History(accepted, key) + [now];
        AcceptKeepsRecent(History(stored, key), History(accepted, key), now, clock);
      }
    }
    if inOrder && now >= clock {
      assert SpacedKey(accepted, key);
      AcceptKeepsSpaced(History(stored, key), History(accepted, key), now, clock);
      forall k ensures SpacedKey(accepted', k) {
        if k != key {
          assert History(accepted', k) == History(accepted, k);
          assert SpacedKey(accepted, k);
        }
      }
    }
  }

  /** The rate limiter of the contact endpoint. `accepted` and `clock` are the model's
      record of every accepted submission per key and of the latest time seen;
      `inOrder` records whether the times seen never went backwards. */
  class ContactEndpoint {
    var submissionTimes: map<string, seq<int>>
    ghost var accepted: map<string, seq<int>>
    ghost var clock: int
    ghost var inOrder: bool

    /** The invariant of the limiter over this endpoint's state. */
    ghost predicate Valid()
      reads this
    {
      LimiterInvariant(submissionTimes, accepted, clock, inOrder)
    }

    constructor ()
      ensures Valid() && submissionTimes == map[] && inOrder
    {
      submissionTimes := map[];
      accepted := map[];
      clock := 0;
      inOrder := true;
    }

    /** `POST`: validate the body, then admit the submission unless the client already has
        `MaxSubmissions` within the window. */
    method Post(body: RequestBody, forwardedFor: Option<string>, now: int) returns (reply: Reply)
      requires Valid()
      modifies this
      ensures Valid()
      ensures (reply, submissionTimes) == Respond(old(submissionTimes), body, forwardedFor, now)
      ensures accepted == if reply.Received?
                          then old(accepted)[ClientKey(forwardedFor) := History(old(accepted), ClientKey(forwardedFor)) + [now]]
                          else old(accepted)
      ensures clock == if now > old(clock) then now else old(clock)
      ensures inOrder == (old(inOrder) && now >= old(clock))
    {
      var invalid := Validate(body);
      if invalid.Some? {
        reply := invalid.value;
        LaterClock(submissionTimes, accepted, clock, inOrder, now);
        clock, inOrder := if now > clock then now else clock, inOrder && now >= clock;
        return;
      }
      var clientIP := ClientKey(forwardedFor);
      reply := Admit(clientIP, now);
    }

    /** The rate-limit step of `POST` for a request that passed validation. */
    method Admit(clientIP: string, now: int) returns (reply: Reply)
      requires Valid()
      modifies this
      ensures Valid()
      ensures (reply, submissionTimes) == Admission(old(submissionTimes), clientIP, now)
      ensures accepted == if reply.Received?
                          then old(accepted)[clientIP := History(old(accepted), clientIP) + [now]]
                          else old(accepted)
      ensures clock == if now > old(clock) then now else old(clock)
      ensures inOrder == (old(inOrder) && now >= old(clock))
    {
      ghost var newClock := if now > clock then now else clock;
      ghost var newInOrder := inOrder && now >= clock;
      var submissions := History(submissionTimes, clientIP);
      var recentSubmissions := Recent(submissions, now);
      if |recentSubmissions| >= MaxSubmissions {
        reply := Failure(429, TooMany);
        LaterClock(submissionTimes, accepted, clock, inOrder, now);
        clock, inOrder := newClock, newInOrder;
        return;
      }
      recentSubmissions := recentSubmissions + [now];
      AcceptKeepsInvariant(submissionTimes, accepted, clock, inOrder, clientIP, now);
      submissionTimes, accepted, clock, inOrder :=
        submissionTimes[clientIP := recentSubmissions], accepted[clientIP := History(accepted, clientIP) + [now]],
        newClock, newInOrder;
      reply := Received(ReceivedMsg);
    }
  }

  /** While the times seen have been in order, no client has had more than
      `MaxSubmissions` submissions accepted in any window of `RateLimitWindow`
      milliseconds. */
  lemma {:induction false} AtMostThreePerWindow(endpoint: ContactEndpoint, key: string, start: int)
    requires endpoint.Valid() && endpoint.inOrder
    ensures |InWindow(History(endpoint.accepted, key), start)| <= MaxSubmissions
  {
    assert SpacedKey(endpoint.accepted, key);
    SpacedWindow(History(endpoint.accepted, key), start);
  }

  /** Accepting at `now` keeps the stored list equal, at every later time, to the recent
      part of what was accepted. */
  lemma {:induction false} AcceptKeepsRecent(stored: seq<int>, all: seq<int>, now: int, clock: int)
    requires SameFrom(stored, all, clock)
    ensures SameFrom(Recent(stored, now) + [now], all + [now], if now > clock then now else clock)
  {
    forall later | later >= clock && later >= now
      ensures Recent(Recent(stored, now) + [now], later) == Recent(all + [now], later)
    {
      RecentSnoc(Recent(stored, now), now, later);
      RecentLater(stored, now, later);
      RecentSnoc(all, now, later);
    }
  }

  /** With times in order, the accepted submission finds the same recent list the limiter
      counted, so it leaves the accepted submissions spaced. */
  lemma {:induction false} AcceptKeepsSpaced(stored: seq<int>, all: seq<int>, now: int, clock: int)
    requires now >= clock
    requires SameFrom(stored, all, clock)
    requires Spaced(all) && |Recent(stored, now)| < MaxSubmissions
    ensures Spaced(all + [now])
  {
    var ts := all + [now];
    forall j | 0 <= j < |ts| ensures SpacedAt(ts, j) {
      if j < |all| {
        assert SpacedAt(all, j);
        assert ts[..j] == all[..j];
      } else {
        assert ts[..j] == all;
        assert Recent(stored, now) == Recent(all, now);
      }
    }
  }
}
