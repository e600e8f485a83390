/** The sliding-window-log rate limiter of the API gateway: one Redis key, the
    script that checks and updates it, and whole runs of that script.

    Two clocks appear. `at` is the time of the Redis server, which orders the
    executions of the script. `now` is the stamp a gateway replica took before it
    sent the command, so it may lag behind or run ahead of `at`. */
module SlidingWindow {
  import opened Common

  type Uuid = nat

  /** A Redis key holding a ZSET (member to score) and its expiry. An empty ZSET
      is an absent key, and an absent key has no expiry. */
  datatype Key = Key(zset: map<Uuid, int>, expiresAt: Option<int>)

  const ABSENT := Key(map[], None)

  datatype Quota = Quota(window: int, limit: int)

  /** What the script returns: allowed, remaining, retryAfterMs. */
  datatype Reply = Reply(allowed: bool, remaining: int, retryAfterMs: int)

  /** A key is gone for every command once the clock has passed its expiry. */
  function Seen(k: Key, at: int): Key {
    if k.expiresAt.Some? && k.expiresAt.value < at then ABSENT else k
  }

  /** Redis deletes a key, with its expiry, when its last member is removed. */
  function Stored(zset: map<Uuid, int>, expiresAt: Option<int>): Key {
    if zset == map[] then ABSENT else Key(zset, expiresAt)
  }

  /** The members that survive `ZREMRANGEBYSCORE -inf cutoff`. */
  function Younger(zset: map<Uuid, int>, cutoff: int): map<Uuid, int> {
    map m | m in zset && zset[m] > cutoff :: zset[m]
  }

  ghost predicate IsOldest(zset: map<Uuid, int>, m: Uuid) {
    m in zset && forall n | n in zset :: zset[m] <= zset[n]
  }

  lemma {:induction false} OldestExists(zset: map<Uuid, int>)
    requires zset != map[]
    ensures exists m :: IsOldest(zset, m)
    decreases |zset|
  {
    var m :| m in zset;
    var rest := zset - {m};
    if rest == map[] {
      assert zset.Keys == rest.Keys + {m};
      assert IsOldest(zset, m);
    } else {
      OldestExists(rest);
      var o :| IsOldest(rest, o);
      assert forall n | n in zset :: n == m || n in rest;
      assert IsOldest(zset, if zset[m] <= zset[o] then m else o);
    }
  }

  /** The score that `ZRANGE key 0 0 WITHSCORES` reports. */
  ghost function OldestScore(zset: map<Uuid, int>): (s: int)
    requires zset != map[]
    ensures exists m :: IsOldest(zset, m) && zset[m] == s
  {
    OldestExists(zset);
    var m :| IsOldest(zset, m);
    zset[m]
  }

  /** `PEXPIRE`: a period that is not positive deletes the key at once. */
  function Expiring(zset: map<Uuid, int>, at: int, period: int): Key {
    if period <= 0 then ABSENT else Key(zset, Some(at + period))
  }

  /** The members one execution of the script counts. */
  function Live(q: Quota, k: Key, at: int, now: int): map<Uuid, int> {
    Younger(Seen(k, at).zset, now - q.window)
  }

  /** What one execution of the script leaves in the key. */
  function KeyAfter(q: Quota, k: Key, at: int, now: int, member: Uuid): Key {
    var live := Live(q, k, at, now);
    if |live| < q.limit then Expiring(live[member := now], at, q.window)
    else Stored(live, Seen(k, at).expiresAt)
  }

  /** What one execution of the script answers. */
  ghost function Answer(q: Quota, k: Key, at: int, now: int): Reply {
    var live := Live(q, k, at, now);
    if |live| < q.limit then Reply(true, q.limit - |live| - 1, 0)
    else Reply(false, 0, if live == map[] then q.window else OldestScore(live) + q.window - now)
  }

  /** The Redis server that all gateway replicas share, as far as the script uses it. */
  class Redis {
    var keys: map<string, Key>

    function At(name: string): Key
      reads this
    {
      if name in keys then keys[name] else ABSENT
    }

    constructor ()
      ensures keys == map[]
    {
      keys := map[];
    }

    /** Lazy expiry: every command first drops a key whose time has passed. */
    method ExpireIfNeeded(name: string, at: int)
      modifies this
      ensures At(name) == Seen(old(At(name)), at)
      ensures forall other | other != name :: At(other) == old(At(other))
    {
      var k := At(name);
      if k.expiresAt.Some? && k.expiresAt.value < at {
        keys := keys - {name};
      }
    }

    method ZRemRangeByScore(name: string, cutoff: int)
      modifies this
      ensures At(name) == Stored(Younger(old(At(name)).zset, cutoff), old(At(name)).expiresAt)
      ensures forall other | other != name :: At(other) == old(At(other))
    {
      var k := At(name);
      keys := keys[name := Stored(Younger(k.zset, cutoff), k.expiresAt)];
    }

    method ZCard(name: string) returns (count: nat)
      ensures count == |At(name).zset|
    {
      count := |At(name).zset|;
    }

    /** `ZRANGE key 0 0 WITHSCORES`: the lowest score, or nothing on an absent key. */
    method ZRangeFirst(name: string) returns (score: Option<int>)
      ensures score == if At(name).zset == map[] then None else Some(OldestScore(At(name).zset))
    {
      var zset := At(name).zset;
      if zset == map[] {
        return None;
      }
      OldestExists(zset);
      var m :| m in zset && forall n | n in zset :: zset[m] <= zset[n];
      assert IsOldest(zset, m);
      return Some(zset[m]);
    }

    method ZAdd(name: string, score: int, member: Uuid)
      modifies this
      ensures At(name) == old(At(name)).(zset := old(At(name)).zset[member := score])
      ensures forall other | other != name :: At(other) == old(At(other))
    {
      var k := At(name);
      keys := keys[name := k.(zset := k.zset[member := score])];
    }

    method PExpire(name: string, at: int, period: int)
      modifies this
      ensures At(name) == Expiring(old(At(name)).zset, at, period)
      ensures forall other | other != name :: At(other) == old(At(other))
    {
      keys := keys[name := Expiring(At(name).zset, at, period)];
    }

    /** The script: prune, count, and either add the stamp or report when to retry. */
    method SlidingWindowLua(name: string, at: int, now: int, window: int, limit: int, member: Uuid)
      returns (reply: Reply)
      modifies this
      ensures At(name) == KeyAfter(Quota(window, limit), old(At(name)), at, now, member)
      ensures reply == Answer(Quota(window, limit), old(At(name)), at, now)
      ensures forall other | other != name :: At(other) == old(At(other))
    {
      ExpireIfNeeded(name, at);
      ZRemRangeByScore(name, now - window);
      var count := ZCard(name);
      if count < limit {
        ZAdd(name, now, member);
        PExpire(name, at, window);
        return Reply(true, limit - count - 1, 0);
      } else {
        var oldest := ZRangeFirst(name);
        var retryAfterMs := window;
        if oldest.Some? {
          retryAfterMs := oldest.value + window - now;
        }
        return Reply(false, 0, retryAfterMs);
      }
    }
  }

  // ----- Whole runs on one key -----

  /** Either a request's script execution, or the Redis background cycle dropping a
      key whose expiry has come. */
  datatype Event =
    | Check(at: int, now: int, member: Uuid)
    | ActiveExpiry(at: int)

  datatype Accept = Accept(stamp: int, at: int, member: Uuid)

  /** The key together with the log of every request ever accepted, never pruned. */
  datatype World = World(key: Key, log: seq<Accept>)

  ghost function Step(q: Quota, w: World, e: Event): World {
    match e
    case Check(at, now, member) =>
      World(KeyAfter(q, w.key, at, now, member),
            if Answer(q, w.key, at, now).allowed then w.log + [Accept(now, at, member)] else w.log)
    case ActiveExpiry(at) =>
      if w.key.expiresAt.Some? && w.key.expiresAt.value <= at then w.(key := ABSENT) else w
  }

  ghost function Run(q: Quota, events: seq<Event>): World {
    if events == [] then World(ABSENT, [])
    else Step(q, Run(q, events[..|events| - 1]), events[|events| - 1])
  }

  /** `now - at` stays between `low` and `low + width` for every request. */
  datatype Band = Band(low: int, width: nat)

  ghost predicate InBand(band: Band, at: int, now: int) {
    band.low <= now - at <= band.low + band.width
  }

  /** Event i comes before event j, and brings another member if both are requests. */
  ghost predicate InOrder(events: seq<Event>, i: nat, j: nat)
    requires i < j < |events|
  {
    && events[i].at <= events[j].at
    && (events[i].Check? && events[j].Check? ==> events[i].member != events[j].member)
  }

  ghost predicate Stamped(band: Band, e: Event) {
    e.Check? ==> InBand(band, e.at, e.now)
  }

  /** The Redis clock never goes back, stamps stay in the band, and every request
      brings a member of its own. */
  ghost predicate Valid(band: Band, events: seq<Event>) {
    && (forall i, j {:trigger InOrder(events, i, j)} | 0 <= i < j < |events| :: InOrder(events, i, j))
    && (forall i {:trigger Stamped(band, events[i])} | 0 <= i < |events| :: Stamped(band, events[i]))
  }

  function Stamps(log: seq<Accept>): (s: seq<int>)
    ensures |s| == |log|
    ensures forall i | 0 <= i < |log| :: s[i] == log[i].stamp
  {
    seq(|log|, i requires 0 <= i < |log| => log[i].stamp)
  }

  /** How many stamps lie in the half-open interval (a, b]. */
  function CountIn(stamps: seq<int>, a: int, b: int): nat {
    if stamps == [] then 0
    else
      var n := |stamps| - 1;
      CountIn(stamps[..n], a, b) + if a < stamps[n] <= b then 1 else 0
  }
}
