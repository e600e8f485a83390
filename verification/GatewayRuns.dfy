/** Runs of the whole gateway: many requests, many buckets, one Redis. */
module GatewayRuns {
  import opened Common
  import opened SlidingWindow
  import opened SlidingWindowProofs
  import opened SlidingWindowExact
  import opened SlidingWindowWait
  import opened RouteTable
  import opened RateLimiter
  import opened Gateway

  /** A request that some replica handles, or the Redis background cycle at some key. */
  datatype Call =
    | Handle(request: Request, now: int, member: Uuid, net: Network)
    | Sweep(name: string, at: int)

  type Keys = map<string, Key>

  function Get(keys: Keys, name: string): Key {
    if name in keys then keys[name] else ABSENT
  }

  /** The keys after one call, as `Gateway.GatewayMiddleware.Use` leaves them. */
  function Next(c: Config, keys: Keys, call: Call): Keys {
    match call
    case Handle(r, now, member, net) =>
      if !IsMetered(c, r) then keys
      else
        var b := BucketOf(c, r);
        keys[KeyName(b) := KeyAfterConsume(QuotaOf(c, b.scope), Get(keys, KeyName(b)), now, member, net)]
    case Sweep(name, at) =>
      var k := Get(keys, name);
      if k.expiresAt.Some? && k.expiresAt.value <= at then keys[name := ABSENT] else keys
  }

  function After(c: Config, calls: seq<Call>): Keys {
    if calls == [] then map[]
    else Next(c, After(c, calls[..|calls| - 1]), calls[|calls| - 1])
  }

  /** What one bucket's key sees of a call. */
  function EventsFor(c: Config, b: Bucket, call: Call): seq<Event> {
    match call
    case Handle(r, now, member, net) =>
      if IsMetered(c, r) && BucketOf(c, r) == b && !net.Lost? then [Check(net.at, now, member)] else []
    case Sweep(name, at) =>
      if name == KeyName(b) then [ActiveExpiry(at)] else []
  }

  function Project(c: Config, b: Bucket, calls: seq<Call>): seq<Event> {
    if calls == [] then []
    else Project(c, b, calls[..|calls| - 1]) + EventsFor(c, b, calls[|calls| - 1])
  }

  predicate IsBucket(b: Bucket) {
    b.scope == "auth" || b.scope == "general"
  }

  lemma OtherBucketOtherKey(c: Config, b: Bucket, r: Request)
    requires IsBucket(b)
    ensures KeyName(BucketOf(c, r)) == KeyName(b) <==> BucketOf(c, r) == b
  {
    KeysAreInjective(b, BucketOf(c, r));
  }

  lemma SeenByKey(c: Config, b: Bucket, keys: Keys, call: Call, w: World)
    requires IsBucket(b) && Get(keys, KeyName(b)) == w.key
    ensures Get(Next(c, keys, call), KeyName(b)) ==
            if EventsFor(c, b, call) == [] then w.key else Step(QuotaOf(c, b.scope), w, EventsFor(c, b, call)[0]).key
  {
    var name := KeyName(b);
    match call
    case Handle(r, now, member, net) =>
      if IsMetered(c, r) {
        OtherBucketOtherKey(c, b, r);
        var touched := KeyName(BucketOf(c, r));
        assert touched != name ==> Get(Next(c, keys, call), name) == Get(keys, name);
      }
    case Sweep(other, at) =>
  }

  /** Quotas never affect each other: a bucket's key evolves as if its own calls were
      the only ones. */
  lemma {:induction false} BucketsAreIndependent(c: Config, b: Bucket, calls: seq<Call>)
    requires IsBucket(b)
    ensures Get(After(c, calls), KeyName(b)) == Run(QuotaOf(c, b.scope), Project(c, b, calls)).key
  {
    if calls != [] {
      var n := |calls| - 1;
      var q, events, seen := QuotaOf(c, b.scope), Project(c, b, calls[..n]), EventsFor(c, b, calls[n]);
      BucketsAreIndependent(c, b, calls[..n]);
      SeenByKey(c, b, After(c, calls[..n]), calls[n], Run(q, events));
      ProjectGrows(c, b, calls);
    }
  }

  lemma ProjectGrows(c: Config, b: Bucket, calls: seq<Call>)
    requires calls != []
    ensures var events, seen := Project(c, b, calls[..|calls| - 1]), EventsFor(c, b, calls[|calls| - 1]);
            Run(QuotaOf(c, b.scope), Project(c, b, calls)) ==
            if seen == [] then Run(QuotaOf(c, b.scope), events)
            else Step(QuotaOf(c, b.scope), Run(QuotaOf(c, b.scope), events), seen[0])
  {
    var events, seen := Project(c, b, calls[..|calls| - 1]), EventsFor(c, b, calls[|calls| - 1]);
    if seen == [] {
      assert events + seen == events;
    } else {
      assert seen == [seen[0]];
      RunGrows(QuotaOf(c, b.scope), events, seen[0]);
    }
  }

  /** The call is a metered request of the bucket, stamped in (lo, hi]. */
  predicate Counts(c: Config, b: Bucket, lo: int, hi: int, call: Call) {
    call.Handle? && IsMetered(c, call.request) && BucketOf(c, call.request) == b && lo < call.now <= hi
  }

  /** How many of the bucket's requests stamped in (lo, hi] the gateway let through. */
  ghost function Passed(c: Config, b: Bucket, lo: int, hi: int, calls: seq<Call>): nat {
    if calls == [] then 0
    else
      var n := |calls| - 1;
      var call := calls[n];
      var k := Get(After(c, calls[..n]), KeyName(b));
      Passed(c, b, lo, hi, calls[..n]) +
      if Counts(c, b, lo, hi, call) && Decide(QuotaOf(c, b.scope), k, call.now, call.net).allowed then 1 else 0
  }

  /** How many of them Redis did not answer in time. */
  function FailOpens(c: Config, b: Bucket, lo: int, hi: int, calls: seq<Call>): nat {
    if calls == [] then 0
    else
      var n := |calls| - 1;
      FailOpens(c, b, lo, hi, calls[..n]) +
      if Counts(c, b, lo, hi, calls[n]) && !calls[n].net.Answered? then 1 else 0
  }

  lemma {:induction false} PassedWereAccepted(c: Config, b: Bucket, lo: int, hi: int, calls: seq<Call>)
    requires IsBucket(b)
    ensures Passed(c, b, lo, hi, calls)
         <= CountIn(Stamps(Run(QuotaOf(c, b.scope), Project(c, b, calls)).log), lo, hi)
          + FailOpens(c, b, lo, hi, calls)
  {
    if calls != [] {
      var n := |calls| - 1;
      var q, events, seen := QuotaOf(c, b.scope), Project(c, b, calls[..n]), EventsFor(c, b, calls[n]);
      PassedWereAccepted(c, b, lo, hi, calls[..n]);
      BucketsAreIndependent(c, b, calls[..n]);
      ProjectGrows(c, b, calls);
      if seen != [] && seen[0].Check? {
        StampsGrow(Run(q, events).log, Accept(seen[0].now, seen[0].at, seen[0].member));
      }
    }
  }

  lemma AcceptedWithinQuota(c: Config, b: Bucket, band: Band, lo: int, calls: seq<Call>)
    requires c.windowMs > 0 && Valid(band, Project(c, b, calls))
    ensures CountIn(Stamps(Run(QuotaOf(c, b.scope), Project(c, b, calls)).log), lo, lo + c.windowMs - band.width)
         <= Max(0, QuotaOf(c, b.scope).limit)
  {
    Bound(QuotaOf(c, b.scope), band, Project(c, b, calls), lo);
  }

  /** In any stamp interval as long as the window less the skew, the gateway lets through
      at most `limit` requests of a bucket, besides those it let through because Redis
      did not answer. */
  lemma PassedWithinQuota(c: Config, b: Bucket, band: Band, lo: int, calls: seq<Call>)
    requires IsBucket(b) && c.windowMs > 0 && Valid(band, Project(c, b, calls))
    ensures var hi := lo + c.windowMs - band.width;
            Passed(c, b, lo, hi, calls)
            <= Max(0, QuotaOf(c, b.scope).limit) + FailOpens(c, b, lo, hi, calls)
  {
    AcceptedWithinQuota(c, b, band, lo, calls);
    PassedWereAccepted(c, b, lo, lo + c.windowMs - band.width, calls);
  }

  /** Whole seconds that cover the wait of a denied request are long enough on its key,
      with any clocks, unless somebody else was accepted; and they are less than a second
      longer than the wait, so than a window while the stamps keep pace. */
  lemma WholeSecondsSuffice(q: Quota, history: seq<Event>, n: nat, e: Event, seconds: int)
    requires q.limit >= 1 && n < |history| && history[n].Check? && e.Check?
    requires !Answer(q, Run(q, history[..n]).key, history[n].at, history[n].now).allowed
    requires IsWholeSeconds(Answer(q, Run(q, history[..n]).key, history[n].at, history[n].now).retryAfterMs, seconds)
    requires Run(q, history).log == Run(q, history[..n]).log
    requires e.now >= history[n].now + 1000 * seconds
    ensures Answer(q, Run(q, history).key, e.at, e.now).allowed
    ensures q.window > 0 && Timely(q, history[..n] + [history[n]]) ==> 1 <= seconds && 1000 * (seconds - 1) < q.window
  {
    WaitSuffices(q, history, n, e);
    if q.window > 0 && Timely(q, history[..n] + [history[n]]) {
      RetryTarget(q, history[..n], history[n]);
    }
  }

  // ----- The quotas as they are configured -----

  /** How many calls of a kind the gateway let through. */
  ghost function LetThrough(c: Config, isKind: Call -> bool, calls: seq<Call>): nat {
    if calls == [] then 0
    else
      var n := |calls| - 1;
      LetThrough(c, isKind, calls[..n]) + if isKind(calls[n]) && IsLet(c, After(c, calls[..n]), calls[n]) then 1 else 0
  }

  ghost predicate IsLet(c: Config, keys: Keys, call: Call) {
    call.Handle? && LetsThrough(c, call.request, Get(keys, KeyName(BucketOf(c, call.request))), call.now, call.net)
  }

  /** How many calls of a kind Redis did not answer in time. */
  function Unanswered(isKind: Call -> bool, calls: seq<Call>): nat {
    if calls == [] then 0
    else
      var n := |calls| - 1;
      Unanswered(isKind, calls[..n]) + if isKind(calls[n]) && calls[n].Handle? && !calls[n].net.Answered? then 1 else 0
  }

  /** One more call of a kind that lies within a bucket: if it passes, either Redis did not
      answer, or the script accepted it. */
  lemma LetWasAccepted(c: Config, b: Bucket, lo: int, hi: int, calls: seq<Call>)
    requires IsBucket(b) && calls != [] && Counts(c, b, lo, hi, calls[|calls| - 1])
    requires IsLet(c, After(c, calls[..|calls| - 1]), calls[|calls| - 1]) && calls[|calls| - 1].net.Answered?
    ensures CountIn(Stamps(Run(QuotaOf(c, b.scope), Project(c, b, calls)).log), lo, hi) ==
            CountIn(Stamps(Run(QuotaOf(c, b.scope), Project(c, b, calls[..|calls| - 1])).log), lo, hi) + 1
  {
    var n := |calls| - 1;
    var q, events, call := QuotaOf(c, b.scope), Project(c, b, calls[..n]), calls[n];
    BucketsAreIndependent(c, b, calls[..n]);
    ProjectGrows(c, b, calls);
    StampsGrow(Run(q, events).log, Accept(call.now, call.net.at, call.member));
    assert Stamps(Run(q, Project(c, b, calls)).log) == Stamps(Run(q, events).log) + [call.now];
    CountGrows(Stamps(Run(q, events).log), call.now, lo, hi);
  }

  lemma CountsGrow(c: Config, b: Bucket, lo: int, hi: int, calls: seq<Call>)
    requires calls != []
    ensures CountIn(Stamps(Run(QuotaOf(c, b.scope), Project(c, b, calls)).log), lo, hi) >=
            CountIn(Stamps(Run(QuotaOf(c, b.scope), Project(c, b, calls[..|calls| - 1])).log), lo, hi)
  {
    var q, events, seen := QuotaOf(c, b.scope), Project(c, b, calls[..|calls| - 1]), EventsFor(c, b, calls[|calls| - 1]);
    ProjectGrows(c, b, calls);
    if seen != [] && seen[0].Check? {
      StampsGrow(Run(q, events).log, Accept(seen[0].now, seen[0].at, seen[0].member));
    }
  }

  lemma {:induction false} KindWasAccepted(c: Config, b: Bucket, isKind: Call -> bool, lo: int, hi: int, calls: seq<Call>)
    requires IsBucket(b) && forall call | isKind(call) :: Counts(c, b, lo, hi, call)
    ensures LetThrough(c, isKind, calls)
         <= CountIn(Stamps(Run(QuotaOf(c, b.scope), Project(c, b, calls)).log), lo, hi) + Unanswered(isKind, calls)
  {
    if calls != [] {
      var n := |calls| - 1;
      KindWasAccepted(c, b, isKind, lo, hi, calls[..n]);
      CountsGrow(c, b, lo, hi, calls);
      if isKind(calls[n]) && IsLet(c, After(c, calls[..n]), calls[n]) && calls[n].net.Answered? {
        LetWasAccepted(c, b, lo, hi, calls);
      }
    }
  }

  lemma KindWithinQuota(c: Config, b: Bucket, band: Band, lo: int, isKind: Call -> bool, calls: seq<Call>)
    requires IsBucket(b) && c.windowMs > 0 && Valid(band, Project(c, b, calls))
    requires forall call | isKind(call) :: Counts(c, b, lo, lo + c.windowMs - band.width, call)
    ensures LetThrough(c, isKind, calls) <= Max(0, QuotaOf(c, b.scope).limit) + Unanswered(isKind, calls)
  {
    AcceptedWithinQuota(c, b, band, lo, calls);
    KindWasAccepted(c, b, isKind, lo, lo + c.windowMs - band.width, calls);
  }

  predicate IsLoginOrRefresh(c: Config, r: Request) {
    r.path == c.apiPrefix + "/auth/login" || r.path == c.apiPrefix + "/auth/refresh"
  }

  /** Any other path below the prefix, except the health check. */
  predicate IsOrdinary(c: Config, r: Request) {
    c.apiPrefix + "/" <= r.path && !IsLoginOrRefresh(c, r) && r.path != c.apiPrefix + "/healthz"
  }

  predicate ComesFrom(r: Request, address: string) {
    r.ip == Some(address) || (r.ip == None && address == "unknown")
  }

  predicate IsBy(r: Request, who: string) {
    r.user == Some(who) || (r.user == None && ComesFrom(r, who))
  }

  /** In any stamp interval as long as the window less the skew, the gateway lets through at
      most `authMaxRequests` logins and refreshes from one address, besides those for which
      Redis did not answer. */
  lemma LoginsWithinQuota(c: Config, address: string, band: Band, lo: int, calls: seq<Call>)
    requires c.windowMs > 0 && Valid(band, Project(c, Bucket("auth", address), calls))
    ensures var isKind := (call: Call) =>
              call.Handle? && IsLoginOrRefresh(c, call.request) && ComesFrom(call.request, address)
              && lo < call.now <= lo + c.windowMs - band.width;
            LetThrough(c, isKind, calls) <= Max(0, c.authMaxRequests) + Unanswered(isKind, calls)
  {
    var b, hi := Bucket("auth", address), lo + c.windowMs - band.width;
    var isKind := (call: Call) =>
      call.Handle? && IsLoginOrRefresh(c, call.request) && ComesFrom(call.request, address)
      && lo < call.now <= lo + c.windowMs - band.width;
    forall call | isKind(call) ensures Counts(c, b, lo, hi, call) {
      var p := if call.request.path == c.apiPrefix + "/auth/login" then "/auth/login" else "/auth/refresh";
      GuardOfPath(c, call.request, p);
    }
    KindWithinQuota(c, b, band, lo, isKind, calls);
  }

  /** And at most `generalMaxRequests` other requests by one user, or by one address when
      nobody is logged in. */
  lemma OthersWithinQuota(c: Config, who: string, band: Band, lo: int, calls: seq<Call>)
    requires c.windowMs > 0 && Valid(band, Project(c, Bucket("general", who), calls))
    ensures var isKind := (call: Call) =>
              call.Handle? && IsOrdinary(c, call.request) && IsBy(call.request, who)
              && lo < call.now <= lo + c.windowMs - band.width;
            LetThrough(c, isKind, calls) <= Max(0, c.generalMaxRequests) + Unanswered(isKind, calls)
  {
    var b := Bucket("general", who);
    var isKind := (call: Call) =>
      call.Handle? && IsOrdinary(c, call.request) && IsBy(call.request, who)
      && lo < call.now <= lo + c.windowMs - band.width;
    var isRouted := (call: Call) => isKind(call) && ResolveRoute(StrippedPath(c, call.request)) != NotFound;
    forall call | isRouted(call) ensures Counts(c, b, lo, lo + c.windowMs - band.width, call) {
      OrdinaryIsGeneral(c, call.request, who);
    }
    KindWithinQuota(c, b, band, lo, isRouted, calls);
    OnlyRoutedPass(c, isKind, isRouted, calls);
  }

  lemma OrdinaryIsGeneral(c: Config, r: Request, who: string)
    requires IsOrdinary(c, r) && IsBy(r, who)
    ensures BucketOf(c, r) == Bucket("general", who)
    ensures ResolveRoute(StrippedPath(c, r)) != NotFound ==> IsMetered(c, r)
  {
    var p := r.path[|c.apiPrefix|..];
    assert r.path == c.apiPrefix + p;
    assert "/" <= p by {
      assert (c.apiPrefix + "/")[|c.apiPrefix|] == '/';
    }
    GuardOfPath(c, r, p);
  }

  lemma {:induction false} OnlyRoutedPass(c: Config, isKind: Call -> bool, isRouted: Call -> bool, calls: seq<Call>)
    requires forall call: Call | call.Handle? ::
               isRouted(call) <==> isKind(call) && ResolveRoute(StrippedPath(c, call.request)) != NotFound
    ensures LetThrough(c, isKind, calls) <= LetThrough(c, isRouted, calls)
    ensures Unanswered(isRouted, calls) <= Unanswered(isKind, calls)
  {
    if calls != [] {
      OnlyRoutedPass(c, isKind, isRouted, calls[..|calls| - 1]);
    }
  }

  predicate IsFor(c: Config, b: Bucket, call: Call) {
    call.Handle? && IsMetered(c, call.request) && BucketOf(c, call.request) == b
  }

  ghost predicate IsLater(c: Config, b: Bucket, calls: seq<Call>, n: nat, e: Event) {
    exists j :: n < j < |calls| && EventsFor(c, b, calls[j]) == [e]
  }

  function Concat(parts: seq<seq<Event>>): seq<Event> {
    if parts == [] then [] else Concat(parts[..|parts| - 1]) + parts[|parts| - 1]
  }

  /** Part n keeps its place, between the parts before and those after it. */
  lemma {:induction false} ConcatAt(parts: seq<seq<Event>>, n: nat)
    requires n < |parts| && |parts[n]| == 1 && forall i | 0 <= i < |parts| :: |parts[i]| <= 1
    ensures var m, all := |Concat(parts[..n])|, Concat(parts);
            && m < |all| && all[..m] == Concat(parts[..n]) && all[m] == parts[n][0]
            && forall i | m < i < |all| :: exists j :: n < j < |parts| && parts[j] == [all[i]]
    decreases |parts|
  {
    var last := |parts| - 1;
    var m, all, before := |Concat(parts[..n])|, Concat(parts), Concat(parts[..last]);
    if n < last {
      ConcatAt(parts[..last], n);
      assert parts[..last][..n] == parts[..n];
      forall i | m < i < |all| ensures exists j :: n < j < |parts| && parts[j] == [all[i]] {
        if i < |before| {
          var j :| n < j < last && parts[..last][j] == [before[i]];
          assert parts[j] == [all[i]];
        } else {
          assert parts[last] == [all[i]];
        }
      }
    }
  }

  function PartsOf(c: Config, b: Bucket, calls: seq<Call>): (parts: seq<seq<Event>>)
    ensures |parts| == |calls|
    ensures forall i | 0 <= i < |calls| :: parts[i] == EventsFor(c, b, calls[i])
  {
    seq(|calls|, i requires 0 <= i < |calls| => EventsFor(c, b, calls[i]))
  }

  lemma {:induction false} ProjectIsConcat(c: Config, b: Bucket, calls: seq<Call>)
    ensures Project(c, b, calls) == Concat(PartsOf(c, b, calls))
  {
    if calls != [] {
      var n := |calls| - 1;
      ProjectIsConcat(c, b, calls[..n]);
      assert PartsOf(c, b, calls)[..n] == PartsOf(c, b, calls[..n]);
    }
  }

  lemma PrefixIsConcat(c: Config, b: Bucket, calls: seq<Call>, n: nat)
    requires n <= |calls|
    ensures Project(c, b, calls[..n]) == Concat(PartsOf(c, b, calls)[..n])
  {
    ProjectIsConcat(c, b, calls[..n]);
    assert PartsOf(c, b, calls[..n]) == PartsOf(c, b, calls)[..n];
  }

  lemma AllAtMostOne(c: Config, b: Bucket, calls: seq<Call>)
    ensures forall i | 0 <= i < |calls| :: |PartsOf(c, b, calls)[i]| <= 1
  {
    forall i | 0 <= i < |calls| ensures |PartsOf(c, b, calls)[i]| <= 1 {
      AtMostOneEvent(c, b, calls[i]);
    }
  }

  lemma AtMostOneEvent(c: Config, b: Bucket, call: Call)
    ensures |EventsFor(c, b, call)| <= 1
  {
  }

  /** A call's event keeps its place in what its bucket sees, between those of earlier and
      those of later calls. */
  lemma ProjectAt(c: Config, b: Bucket, calls: seq<Call>, n: nat)
    requires n < |calls| && EventsFor(c, b, calls[n]) != []
    ensures var m, all := |Project(c, b, calls[..n])|, Project(c, b, calls);
            && m < |all| && all[..m] == Project(c, b, calls[..n]) && all[m] == EventsFor(c, b, calls[n])[0]
            && forall i | m < i < |all| :: IsLater(c, b, calls, n, all[i])
  {
    var parts := PartsOf(c, b, calls);
    AllAtMostOne(c, b, calls);
    ProjectIsConcat(c, b, calls);
    PrefixIsConcat(c, b, calls, n);
    ConcatAt(parts, n);
    var m, all := |Concat(parts[..n])|, Concat(parts);
    forall i | m < i < |all| ensures IsLater(c, b, calls, n, all[i]) {
      var j :| n < j < |parts| && parts[j] == [all[i]];
      assert EventsFor(c, b, calls[j]) == [all[i]];
    }
  }

  /** The script ran for this call and gave it a slot of the bucket, whether or not the
      gateway heard of it. */
  ghost predicate TakesSlot(c: Config, b: Bucket, calls: seq<Call>, i: nat)
    requires i < |calls|
  {
    && IsFor(c, b, calls[i]) && !calls[i].net.Lost?
    && Answer(QuotaOf(c, b.scope), Get(After(c, calls[..i]), KeyName(b)), calls[i].net.at, calls[i].now).allowed
  }

  lemma EventOf(c: Config, b: Bucket, call: Call)
    ensures EventsFor(c, b, call) != [] && EventsFor(c, b, call)[0].Check? ==>
              && IsFor(c, b, call) && !call.net.Lost?
              && EventsFor(c, b, call)[0] == Check(call.net.at, call.now, call.member)
    ensures IsFor(c, b, call) && !call.net.Lost? ==>
              EventsFor(c, b, call) == [Check(call.net.at, call.now, call.member)]
  {
  }

  lemma RefusedKeepsLog(q: Quota, w: World, e: Event)
    requires e.Check? ==> !Answer(q, w.key, e.at, e.now).allowed
    ensures Step(q, w, e).log == w.log
  {
  }

  lemma {:induction false} NobodyTakes(c: Config, b: Bucket, calls: seq<Call>, n: nat)
    requires IsBucket(b) && n <= |calls| && forall i | n <= i < |calls| :: !TakesSlot(c, b, calls, i)
    ensures Run(QuotaOf(c, b.scope), Project(c, b, calls)).log ==
            Run(QuotaOf(c, b.scope), Project(c, b, calls[..n])).log
    decreases |calls|
  {
    if n == |calls| {
      assert calls[..n] == calls;
    } else {
      var m, q := |calls| - 1, QuotaOf(c, b.scope);
      var w, seen := Run(q, Project(c, b, calls[..m])), EventsFor(c, b, calls[m]);
      assert calls[..m][..n] == calls[..n];
      forall i | n <= i < m ensures !TakesSlot(c, b, calls[..m], i) {
        assert calls[..m][..i] == calls[..i] && !TakesSlot(c, b, calls, i);
      }
      NobodyTakes(c, b, calls[..m], n);
      ProjectGrows(c, b, calls);
      BucketsAreIndependent(c, b, calls[..m]);
      EventOf(c, b, calls[m]);
      if seen != [] {
        assert !TakesSlot(c, b, calls, m);
        RefusedKeepsLog(q, w, seen[0]);
      }
    }
  }

  /** With any clocks at any replica, a client that gets a 429 and comes back after its
      Retry-After seconds passes, unless somebody else was given a slot of its bucket in
      between; whatever else the gateway handles meanwhile. */
  lemma WaitingIsEnough(c: Config, b: Bucket, calls: seq<Call>, n: nat, again: Call, seconds: int)
    requires IsBucket(b) && QuotaOf(c, b.scope).limit >= 1
    requires n < |calls| && IsFor(c, b, calls[n]) && IsFor(c, b, again)
    requires var d := Decide(QuotaOf(c, b.scope), Get(After(c, calls[..n]), KeyName(b)), calls[n].now, calls[n].net);
             !d.allowed && IsWholeSeconds(d.retryAfterMs, seconds)
    requires forall i | n < i < |calls| :: !TakesSlot(c, b, calls, i)
    requires again.now >= calls[n].now + 1000 * seconds
    ensures Decide(QuotaOf(c, b.scope), Get(After(c, calls), KeyName(b)), again.now, again.net).allowed
  {
    if again.net.Answered? {
      var q, history, m := QuotaOf(c, b.scope), Project(c, b, calls), |Project(c, b, calls[..n])|;
      BucketsAreIndependent(c, b, calls[..n]);
      BucketsAreIndependent(c, b, calls);
      EventOf(c, b, calls[n]);
      ProjectAt(c, b, calls, n);
      forall i | n <= i < |calls| ensures !TakesSlot(c, b, calls, i) {
      }
      NobodyTakes(c, b, calls, n);
      WholeSecondsSuffice(q, history, m, Check(again.net.at, again.now, again.member), seconds);
    }
  }

  /** While the stamps of the bucket keep pace, nobody is given a slot before the exact wait
      is over, so it is enough that nobody else asks between then and the return. */
  lemma RetryAfterIsEnough(c: Config, b: Bucket, calls: seq<Call>, n: nat, again: Call, seconds: int)
    requires IsBucket(b) && c.windowMs > 0 && QuotaOf(c, b.scope).limit >= 1
    requires Timely(QuotaOf(c, b.scope), Project(c, b, calls + [again]))
    requires n < |calls| && IsFor(c, b, calls[n]) && IsFor(c, b, again)
    requires var d := Decide(QuotaOf(c, b.scope), Get(After(c, calls[..n]), KeyName(b)), calls[n].now, calls[n].net);
             && !d.allowed && IsWholeSeconds(d.retryAfterMs, seconds)
             && forall i | n < i < |calls| && IsFor(c, b, calls[i]) :: calls[i].now < calls[n].now + d.retryAfterMs
    requires again.now >= calls[n].now + 1000 * seconds
    ensures Decide(QuotaOf(c, b.scope), Get(After(c, calls), KeyName(b)), again.now, again.net).allowed
  {
    if again.net.Answered? {
      var q, history, m := QuotaOf(c, b.scope), Project(c, b, calls), |Project(c, b, calls[..n])|;
      ProjectAt(c, b, calls, n);
      BucketsAreIndependent(c, b, calls[..n]);
      BucketsAreIndependent(c, b, calls);
      assert (calls + [again])[..|calls|] == calls;
      var e := Check(again.net.at, again.now, again.member);
      assert Project(c, b, calls + [again]) == history + [e];
      var until := calls[n].now
                   + Answer(q, Run(q, history[..m]).key, history[m].at, history[m].now).retryAfterMs;
      forall i | m < i < |history| && history[i].Check? ensures history[i].now < until {
        assert IsLater(c, b, calls, n, history[i]);
        var j :| n < j < |calls| && EventsFor(c, b, calls[j]) == [history[i]];
        assert IsFor(c, b, calls[j]);
      }
      RetryIsExact(q, history, m, e);
    }
  }
}
