/** The gateway around the limiter: its route table, the limiter service with its
    fail-open path, the request pipeline, and what they add up to. */
module RouteTable {

  datatype Service = UserService | LeadService | AiOrchestrator

  datatype RouteTarget = Proxy(service: Service) | Local | NotFound

  /** The path is the base itself or lies below it. */
  predicate Under(path: string, base: string) {
    path == base || base + "/" <= path
  }

  function ResolveRoute(path: string): RouteTarget {
    if path == "/healthz" then Local
    else if Under(path, "/dashboard") then Local
    else if Under(path, "/auth") then Proxy(UserService)
    else if Under(path, "/users") then Proxy(UserService)
    else if Under(path, "/leads") then Proxy(LeadService)
    else if Under(path, "/ai") then Proxy(AiOrchestrator)
    else NotFound
  }

  predicate IsAuthRateLimitScope(path: string) {
    path == "/auth/login" || path == "/auth/refresh"
  }

  function StripApiPrefix(path: string, prefix: string): string {
    if path == prefix then "/"
    else if prefix + "/" <= path then
      var rest := path[|prefix|..];
      if rest == "" then "/" else rest
    else path
  }

  const BASES: seq<(string, RouteTarget)> :=
    [("/dashboard", Local), ("/auth", Proxy(UserService)), ("/users", Proxy(UserService)),
     ("/leads", Proxy(LeadService)), ("/ai", Proxy(AiOrchestrator))]

  lemma SecondAndThird(path: string, base: string)
    requires Under(path, base) && |base| >= 3
    ensures |path| >= 3 && path[1] == base[1] && path[2] == base[2]
  {
    if path != base {
      assert (base + "/")[1] == base[1] && (base + "/")[2] == base[2];
    }
  }

  /** No path lies under two bases. */
  lemma BasesAreExclusive(path: string, i: nat, j: nat)
    requires i < |BASES| && j < |BASES| && Under(path, BASES[i].0) && Under(path, BASES[j].0)
    ensures i == j && path != "/healthz"
  {
    SecondAndThird(path, BASES[i].0);
    SecondAndThird(path, BASES[j].0);
  }

  /** The order of the tests is irrelevant: whichever base a path lies under names its
      target, and a path under none, other than the health check, has no route. */
  lemma RouteIsThatOfItsBase(path: string)
    ensures forall i | 0 <= i < |BASES| && Under(path, BASES[i].0) :: ResolveRoute(path) == BASES[i].1
    ensures ResolveRoute(path) == NotFound
            <==> path != "/healthz" && forall i | 0 <= i < |BASES| :: !Under(path, BASES[i].0)
  {
    forall i | 0 <= i < |BASES| && Under(path, BASES[i].0)
      ensures ResolveRoute(path) == BASES[i].1
    {
      forall j | 0 <= j < |BASES| && Under(path, BASES[j].0) ensures j == i {
        BasesAreExclusive(path, i, j);
      }
      BasesAreExclusive(path, i, i);
      assert BASES[0].0 == "/dashboard" && BASES[1].0 == "/auth" && BASES[2].0 == "/users";
      assert BASES[3].0 == "/leads" && BASES[4].0 == "/ai";
    }
    if ResolveRoute(path) != NotFound && path != "/healthz" {
      assert Under(path, BASES[0].0) || Under(path, BASES[1].0) || Under(path, BASES[2].0)
             || Under(path, BASES[3].0) || Under(path, BASES[4].0);
    }
  }

  /** Which service owns which paths. */
  lemma RoutesAre(path: string)
    ensures ResolveRoute(path) == Local <==> path == "/healthz" || path == "/dashboard" || "/dashboard/" <= path
    ensures ResolveRoute(path) == Proxy(UserService) <==>
              path == "/auth" || "/auth/" <= path || path == "/users" || "/users/" <= path
    ensures ResolveRoute(path) == Proxy(LeadService) <==> path == "/leads" || "/leads/" <= path
    ensures ResolveRoute(path) == Proxy(AiOrchestrator) <==> path == "/ai" || "/ai/" <= path
  {
    RouteIsThatOfItsBase(path);
    assert BASES[0].0 + "/" == "/dashboard/" && BASES[1].0 + "/" == "/auth/" && BASES[2].0 + "/" == "/users/";
    assert BASES[3].0 + "/" == "/leads/" && BASES[4].0 + "/" == "/ai/";
    assert Under(path, BASES[0].0) <==> path == "/dashboard" || "/dashboard/" <= path;
    assert Under(path, BASES[1].0) <==> path == "/auth" || "/auth/" <= path;
    assert Under(path, BASES[2].0) <==> path == "/users" || "/users/" <= path;
    assert Under(path, BASES[3].0) <==> path == "/leads" || "/leads/" <= path;
    assert Under(path, BASES[4].0) <==> path == "/ai" || "/ai/" <= path;
  }

  /** The prefix alone is the root, and a path without the prefix passes unchanged. */
  lemma StripLeavesOthers(path: string, prefix: string)
    ensures StripApiPrefix(prefix, prefix) == "/"
    ensures path != prefix && !(prefix + "/" <= path) ==> StripApiPrefix(path, prefix) == path
  {
  }

  /** Stripping undoes prefixing, for every path that starts with a slash. */
  lemma StripInvertsPrefix(path: string, prefix: string)
    requires "/" <= path
    ensures StripApiPrefix(prefix + path, prefix) == path
  {
    assert prefix + path != prefix by {
      assert |prefix + path| > |prefix|;
    }
    assert prefix + "/" <= prefix + path by {
      assert path == "/" + path[1..];
      assert prefix + path == prefix + "/" + path[1..];
    }
    assert (prefix + path)[|prefix|..] == path;
  }
}

module RateLimiter {
  import opened Common
  import opened SlidingWindow

  datatype Decision = Decision(allowed: bool, limit: int, remaining: int, retryAfterMs: int)

  /** How the command fared on the way to Redis and back: answered, executed without an
      answer in time, or never executed. */
  datatype Network = Answered(at: int) | Unanswered(at: int) | Lost

  /** What an identity may use in a scope is counted under one key. */
  datatype Bucket = Bucket(scope: string, identity: string)

  const KEY_PREFIX := "ratelimit:"

  function KeyName(b: Bucket): string {
    KEY_PREFIX + b.scope + ":" + b.identity
  }

  predicate Plain(scope: string) {
    ':' !in scope
  }

  lemma FirstColon(x: string, y: string, s: string, t: string)
    requires Plain(x) && Plain(y) && x + ":" + s == y + ":" + t
    ensures x == y && s == t
  {
    var whole := x + ":" + s;
    ColonIsFirst(x, s, whole);
    ColonIsFirst(y, t, whole);
    assert x == whole[..|x|] && y == whole[..|y|];
    assert s == whole[|x| + 1..] && t == whole[|y| + 1..];
  }

  lemma ColonIsFirst(x: string, s: string, whole: string)
    requires Plain(x) && whole == x + ":" + s
    ensures |x| < |whole| && whole[|x|] == ':'
    ensures forall k | 0 <= k < |x| :: whole[k] != ':'
  {
    forall k | 0 <= k < |x| ensures whole[k] != ':' {
      assert whole[k] == x[k];
    }
  }

  /** Different buckets have different keys, because no scope contains a colon. */
  lemma KeysAreInjective(b: Bucket, c: Bucket)
    requires Plain(b.scope) && Plain(c.scope)
    ensures KeyName(b) == KeyName(c) <==> b == c
  {
    if KeyName(b) == KeyName(c) {
      var p := |KEY_PREFIX|;
      assert KeyName(b)[p..] == b.scope + ":" + b.identity;
      assert KeyName(c)[p..] == c.scope + ":" + c.identity;
      FirstColon(b.scope, c.scope, b.identity, c.identity);
    }
  }

  /** The caller's decision: Redis's answer, or open when none came in time. */
  ghost function Decide(q: Quota, k: Key, now: int, net: Network): Decision {
    match net
    case Answered(at) =>
      var r := Answer(q, k, at, now);
      Decision(r.allowed, q.limit, r.remaining, r.retryAfterMs)
    case _ => Decision(true, q.limit, q.limit, 0)
  }

  /** The key's state afterwards; a late answer does not undo the script. */
  function KeyAfterConsume(q: Quota, k: Key, now: int, member: Uuid, net: Network): Key {
    match net
    case Lost => k
    case _ => KeyAfter(q, k, net.at, now, member)
  }

  class SlidingWindowRateLimiterService {
    const redis: Redis

    constructor (redis: Redis)
      ensures this.redis == redis
    {
      this.redis := redis;
    }

    method Consume(scope: string, identity: string, limit: int, windowMs: int,
                   now: int, member: Uuid, net: Network) returns (d: Decision)
      modifies redis
      ensures var name, q := KeyName(Bucket(scope, identity)), Quota(windowMs, limit);
              && d == Decide(q, old(redis.At(name)), now, net)
              && redis.At(name) == KeyAfterConsume(q, old(redis.At(name)), now, member, net)
              && forall other | other != name :: redis.At(other) == old(redis.At(other))
      ensures d.limit == limit
      ensures !net.Answered? ==> d.allowed && d.remaining == limit && d.retryAfterMs == 0
      ensures net.Answered? ==>
                var r := Answer(Quota(windowMs, limit), old(redis.At(KeyName(Bucket(scope, identity)))), net.at, now);
                d.allowed == r.allowed && d.remaining == r.remaining && d.retryAfterMs == r.retryAfterMs
      ensures net.Lost? ==> forall name :: redis.At(name) == old(redis.At(name))
    {
      var name := KeyName(Bucket(scope, identity));
      if net.Lost? {
        return Decision(true, limit, limit, 0);
      }
      var reply := redis.SlidingWindowLua(name, net.at, now, windowMs, limit, member);
      if net.Unanswered? {
        return Decision(true, limit, limit, 0);
      }
      return Decision(reply.allowed, limit, reply.remaining, reply.retryAfterMs);
    }
  }
}

module Gateway {
  import opened Common
  import opened SlidingWindow
  import opened RouteTable
  import opened RateLimiter

  datatype Config = Config(apiPrefix: string, windowMs: int, generalMaxRequests: int, authMaxRequests: int)

  /** `url` is the path and, from the first '?', the query. `user` is the verified token's
      user, `ip` the peer address. */
  datatype Request = Request(path: string, query: string, ip: Option<string>, user: Option<string>)

  datatype Response =
    | NoRoute404
    | TooManyRequests429(retryAfterSeconds: int)
    | HandledLocally(url: string)
    | Forwarded(service: Service, url: string)

  function OrElse(o: Option<string>, default: string): string {
    if o.Some? then o.value else default
  }

  function StrippedPath(c: Config, r: Request): string {
    StripApiPrefix(r.path, c.apiPrefix)
  }

  /** Which requests are counted at all: those with a route, except the health check. */
  predicate IsMetered(c: Config, r: Request) {
    ResolveRoute(StrippedPath(c, r)) != NotFound && StrippedPath(c, r) != "/healthz"
  }

  function BucketOf(c: Config, r: Request): Bucket {
    if IsAuthRateLimitScope(StrippedPath(c, r)) then Bucket("auth", OrElse(r.ip, "unknown"))
    else Bucket("general", if r.user.Some? then r.user.value else OrElse(r.ip, "unknown"))
  }

  function QuotaOf(c: Config, scope: string): Quota {
    Quota(c.windowMs, if scope == "auth" then c.authMaxRequests else c.generalMaxRequests)
  }

  function AddressOf(r: Request): string {
    OrElse(r.ip, "unknown")
  }

  /** Who shares a quota: on the brute-force-sensitive paths requests from one address,
      whoever is logged in; elsewhere requests of one user, from whatever address, and
      anonymous requests from one address, an absent one counting as "unknown". A user
      shares with anonymous requests only if the user id reads like their address. The two
      scopes never share. */
  lemma SharedQuotas(c: Config, r: Request, s: Request)
    ensures var auth, auth' := IsAuthRateLimitScope(StrippedPath(c, r)), IsAuthRateLimitScope(StrippedPath(c, s));
            var shared := KeyName(BucketOf(c, r)) == KeyName(BucketOf(c, s));
            && (auth != auth' ==> !shared)
            && (auth && auth' ==> (shared <==> AddressOf(r) == AddressOf(s)))
            && (!auth && !auth' ==>
                  && (r.user.Some? && s.user.Some? ==> (shared <==> r.user == s.user))
                  && (r.user.None? && s.user.None? ==> (shared <==> AddressOf(r) == AddressOf(s)))
                  && (r.user.Some? && s.user.None? ==> (shared <==> r.user.value == AddressOf(s)))
                  && (r.user.None? && s.user.Some? ==> (shared <==> AddressOf(r) == s.user.value)))
  {
    KeysAreInjective(BucketOf(c, r), BucketOf(c, s));
  }

  /** Which setting guards which path: login and refresh are counted for each address
      against the authentication limit, everything else that has a route, except the health
      check, for each user, or else each address, against the general one. */
  lemma GuardOfPath(c: Config, r: Request, p: string)
    requires "/" <= p && r.path == c.apiPrefix + p
    ensures StrippedPath(c, r) == p && (IsMetered(c, r) <==> ResolveRoute(p) != NotFound && p != "/healthz")
    ensures p == "/auth/login" || p == "/auth/refresh" ==>
              && IsMetered(c, r)
              && BucketOf(c, r) == Bucket("auth", if r.ip.Some? then r.ip.value else "unknown")
              && KeyName(BucketOf(c, r)) == "ratelimit:auth:" + (if r.ip.Some? then r.ip.value else "unknown")
              && QuotaOf(c, BucketOf(c, r).scope) == Quota(c.windowMs, c.authMaxRequests)
    ensures p != "/auth/login" && p != "/auth/refresh" ==>
              var who := if r.user.Some? then r.user.value else if r.ip.Some? then r.ip.value else "unknown";
              && BucketOf(c, r) == Bucket("general", who)
              && KeyName(BucketOf(c, r)) == "ratelimit:general:" + who
              && QuotaOf(c, BucketOf(c, r).scope) == Quota(c.windowMs, c.generalMaxRequests)
  {
    StripInvertsPrefix(p, c.apiPrefix);
    RoutesAre(p);
    assert KEY_PREFIX + "auth" + ":" == "ratelimit:auth:" && KEY_PREFIX + "general" + ":" == "ratelimit:general:";
  }

  /** The request has a route, and its decision, if it is counted, lets it go on. */
  ghost predicate LetsThrough(c: Config, r: Request, k: Key, now: int, net: Network) {
    && ResolveRoute(StrippedPath(c, r)) != NotFound
    && (IsMetered(c, r) ==> Decide(QuotaOf(c, BucketOf(c, r).scope), k, now, net).allowed)
  }

  /** `Math.ceil(ms / 1000)`. */
  function CeilSeconds(ms: int): int {
    (ms + 999) / 1000
  }

  /** The least number of seconds that is not shorter than the wait. */
  predicate IsWholeSeconds(ms: int, seconds: int) {
    1000 * (seconds - 1) < ms <= 1000 * seconds
  }

  predicate Passes(r: Response) {
    r.HandledLocally? || r.Forwarded?
  }

  class GatewayMiddleware {
    const config: Config
    const rateLimiter: SlidingWindowRateLimiterService

    constructor (config: Config, rateLimiter: SlidingWindowRateLimiterService)
      ensures this.config == config && this.rateLimiter == rateLimiter
    {
      this.config, this.rateLimiter := config, rateLimiter;
    }

    method Use(r: Request, now: int, member: Uuid, net: Network) returns (resp: Response)
      modifies rateLimiter.redis
      ensures resp == NoRoute404 <==> ResolveRoute(StrippedPath(config, r)) == NotFound
      ensures !IsMetered(config, r) ==> unchanged(rateLimiter.redis)
      ensures IsMetered(config, r) ==>
                var b, redis := BucketOf(config, r), rateLimiter.redis;
                var q, k := QuotaOf(config, b.scope), old(redis.At(KeyName(b)));
                var d := Decide(q, k, now, net);
                && (Passes(resp) <==> d.allowed)
                && (!d.allowed ==>
                      (resp.TooManyRequests429? && IsWholeSeconds(d.retryAfterMs, resp.retryAfterSeconds)))
                && redis.At(KeyName(b)) == KeyAfterConsume(q, k, now, member, net)
                && forall other | other != KeyName(b) :: redis.At(other) == old(redis.At(other))
      ensures Passes(resp) <==> LetsThrough(config, r, old(rateLimiter.redis.At(KeyName(BucketOf(config, r)))), now, net)
      ensures Passes(resp) ==> resp.url == StrippedPath(config, r) + r.query
      ensures resp.Forwarded? ==> ResolveRoute(StrippedPath(config, r)) == Proxy(resp.service)
      ensures resp.HandledLocally? ==> ResolveRoute(StrippedPath(config, r)) == Local
    {
      var strippedPath := StripApiPrefix(r.path, config.apiPrefix);
      var route := ResolveRoute(strippedPath);
      if route == NotFound {
        return NoRoute404;
      }
      var url := strippedPath + r.query;
      if strippedPath == "/healthz" {
        return HandledLocally(url);
      }
      var scope := if IsAuthRateLimitScope(strippedPath) then "auth" else "general";
      var identity := if scope == "auth" then r.ip else if r.user.Some? then r.user else r.ip;
      var limit := if scope == "auth" then config.authMaxRequests else config.generalMaxRequests;
      var decision := rateLimiter.Consume(scope, OrElse(identity, "unknown"), limit, config.windowMs, now, member, net);
      if !decision.allowed {
        return TooManyRequests429(CeilSeconds(decision.retryAfterMs));
      }
      if route == Local {
        return HandledLocally(url);
      }
      return Forwarded(route.service, url);
    }
  }
}
