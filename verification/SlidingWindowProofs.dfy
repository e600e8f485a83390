/** What the limiter guarantees over every run: what Redis keeps, the bound under clock
    skew, and that no longer interval holds. */
module SlidingWindowProofs {
  import opened Common
  import opened SlidingWindow

  // ----- Counting -----

  lemma {:induction false} CountAtMostKeys(log: seq<Accept>, a: int, b: int, keys: set<Uuid>)
    requires Distinct(log)
    requires forall i | 0 <= i < |log| && a < log[i].stamp <= b :: log[i].member in keys
    ensures CountIn(Stamps(log), a, b) <= |keys|
  {
    if log != [] {
      var n := |log| - 1;
      assert Stamps(log)[..n] == Stamps(log[..n]);
      if a < log[n].stamp <= b {
        CountAtMostKeys(log[..n], a, b, keys - {log[n].member});
      } else {
        CountAtMostKeys(log[..n], a, b, keys);
      }
    }
  }

  lemma {:induction false} KeysAtMostCount(log: seq<Accept>, a: int, b: int, keys: set<Uuid>)
    requires forall m | m in keys :: exists i :: 0 <= i < |log| && log[i].member == m && a < log[i].stamp <= b
    ensures |keys| <= CountIn(Stamps(log), a, b)
  {
    if log == [] {
      assert keys == {};
    } else {
      var n := |log| - 1;
      assert Stamps(log)[..n] == Stamps(log[..n]);
      var rest := if a < log[n].stamp <= b then keys - {log[n].member} else keys;
      forall m | m in rest
        ensures exists i :: 0 <= i < n && log[..n][i].member == m && a < log[..n][i].stamp <= b
      {
        var i :| 0 <= i < |log| && log[i].member == m && a < log[i].stamp <= b;
        assert log[..n][i] == log[i];
      }
      KeysAtMostCount(log[..n], a, b, rest);
      assert keys <= rest + {log[n].member};
    }
  }

  lemma StampsGrow(log: seq<Accept>, e: Accept)
    ensures Stamps(log + [e])[..|log|] == Stamps(log)
    ensures Stamps(log + [e]) == Stamps(log) + [e.stamp]
  {
  }

  ghost predicate Sorted(s: seq<int>) {
    forall i, j | 0 <= i < j < |s| :: s[i] <= s[j]
  }

  /** In sorted stamps up to b, at least k lie above a exactly when the k-th from the end does. */
  lemma {:induction false} CountSuffix(s: seq<int>, a: int, b: int, k: nat)
    requires Sorted(s) && 1 <= k <= |s|
    requires forall i | 0 <= i < |s| :: s[i] <= b
    ensures CountIn(s, a, b) >= k <==> s[|s| - k] > a
  {
    var n := |s| - 1;
    if s[n] <= a {
      CountNone(s, a, b);
    } else if k > 1 {
      CountSuffix(s[..n], a, b, k - 1);
    }
  }

  lemma {:induction false} CountNone(s: seq<int>, a: int, b: int)
    requires forall i | 0 <= i < |s| :: s[i] <= a
    ensures CountIn(s, a, b) == 0
  {
    if s != [] {
      CountNone(s[..|s| - 1], a, b);
    }
  }

  lemma {:induction false} CountEmpty(s: seq<int>, a: int, b: int)
    requires b <= a
    ensures CountIn(s, a, b) == 0
  {
    if s != [] {
      CountEmpty(s[..|s| - 1], a, b);
    }
  }

  lemma CountGrows(s: seq<int>, x: int, a: int, b: int)
    ensures CountIn(s + [x], a, b) == CountIn(s, a, b) + if a < x <= b then 1 else 0
  {
    assert (s + [x])[..|s|] == s;
  }

  lemma RunGrows(q: Quota, events: seq<Event>, e: Event)
    ensures Run(q, events + [e]) == Step(q, Run(q, events), e)
  {
    assert (events + [e])[..|events|] == events;
  }

  lemma {:induction false} CountAtMostLength(s: seq<int>, a: int, b: int)
    ensures CountIn(s, a, b) <= |s|
  {
    if s != [] {
      CountAtMostLength(s[..|s| - 1], a, b);
    }
  }

  // ----- What every run keeps -----

  ghost predicate InLog(log: seq<Accept>, m: Uuid, stamp: int) {
    exists i :: 0 <= i < |log| && log[i].member == m && log[i].stamp == stamp
  }

  /** Redis counts only requests that were accepted, under the stamps they came with. */
  ghost predicate OnlyLogged(log: seq<Accept>, zset: map<Uuid, int>) {
    forall m | m in zset :: InLog(log, m, zset[m])
  }

  ghost predicate Distinct(log: seq<Accept>) {
    forall i, j | 0 <= i < |log| && 0 <= j < |log| && log[i].member == log[j].member :: i == j
  }

  ghost predicate OnTime(band: Band, log: seq<Accept>, clock: int) {
    && (forall i | 0 <= i < |log| :: log[i].at <= clock && InBand(band, log[i].at, log[i].stamp))
    && (forall i, j | 0 <= i < j < |log| :: log[i].at <= log[j].at)
  }

  /** Every accepted stamp above the cutoff is still in the ZSET. */
  ghost predicate Holds(log: seq<Accept>, zset: map<Uuid, int>, cutoff: int) {
    forall i | 0 <= i < |log| && log[i].stamp > cutoff :: log[i].member in zset
  }

  ghost predicate ExpiryCovers(log: seq<Accept>, window: int, deadline: int) {
    forall i | 0 <= i < |log| :: log[i].at + window <= deadline
  }

  /** The latest stamp a request made at Redis time `clock` can carry, less the window: up
      to here stamps may have been pruned by such a request. One that lags behind it by
      the skew may still have wanted them. */
  function Cutoff(q: Quota, band: Band, clock: int): int {
    clock + band.low + band.width - q.window
  }

  ghost predicate Keeps(q: Quota, band: Band, w: World, clock: int) {
    && OnlyLogged(w.log, w.key.zset)
    && |w.key.zset| <= Max(0, q.limit)
    && Holds(w.log, w.key.zset, Cutoff(q, band, clock))
    && (w.key.expiresAt.Some? ==> ExpiryCovers(w.log, q.window, w.key.expiresAt.value))
    && OnTime(band, w.log, clock)
    && Distinct(w.log)
  }

  lemma SmallerMap(x: map<Uuid, int>, y: map<Uuid, int>)
    requires x.Keys <= y.Keys
    ensures |x| <= |y|
  {
    assert y.Keys == x.Keys + (y.Keys - x.Keys);
  }

  /** Neither pruning nor lazy expiry drops a stamp above the cutoff. */
  lemma StillHeld(q: Quota, band: Band, w: World, at: int, now: int)
    requires InBand(band, at, now) && Keeps(q, band, w, at)
    ensures Holds(w.log, Live(q, w.key, at, now), Cutoff(q, band, at))
    ensures OnlyLogged(w.log, Live(q, w.key, at, now))
    ensures |Live(q, w.key, at, now)| <= |w.key.zset|
  {
    var live := Live(q, w.key, at, now);
    SmallerMap(live, w.key.zset);
    forall i | 0 <= i < |w.log| && w.log[i].stamp > Cutoff(q, band, at)
      ensures w.log[i].member in live
    {
      var m := w.log[i].member;
      assert m in w.key.zset;
      assert InLog(w.log, m, w.key.zset[m]);
    }
  }

  lemma LogGrows(log: seq<Accept>, zset: map<Uuid, int>, a: Accept)
    requires OnlyLogged(log, zset)
    ensures OnlyLogged(log + [a], zset[a.member := a.stamp])
  {
    var log', zset' := log + [a], zset[a.member := a.stamp];
    assert log'[|log|] == a;
    forall m | m in zset' ensures InLog(log', m, zset'[m]) {
      if m != a.member {
        var i :| 0 <= i < |log| && log[i].member == m && log[i].stamp == zset[m];
        assert log'[i] == log[i];
      }
    }
  }

  lemma HoldsAfterAccept(log: seq<Accept>, zset: map<Uuid, int>, a: Accept, cutoff: int)
    requires Holds(log, zset, cutoff)
    ensures Holds(log + [a], zset[a.member := a.stamp], cutoff)
  {
  }

  lemma TimedAfterAccept(q: Quota, band: Band, log: seq<Accept>, a: Accept)
    requires OnTime(band, log, a.at) && Distinct(log) && InBand(band, a.at, a.stamp)
    requires forall i | 0 <= i < |log| :: log[i].member != a.member
    ensures OnTime(band, log + [a], a.at)
    ensures Distinct(log + [a])
    ensures ExpiryCovers(log + [a], q.window, a.at + q.window)
  {
  }

  lemma KeptByAccept(q: Quota, band: Band, w: World, live: map<Uuid, int>, a: Accept)
    requires OnlyLogged(w.log, live) && |live| < q.limit && Holds(w.log, live, Cutoff(q, band, a.at))
    requires OnTime(band, w.log, a.at) && Distinct(w.log) && InBand(band, a.at, a.stamp)
    requires forall i | 0 <= i < |w.log| :: w.log[i].member != a.member
    ensures Keeps(q, band, World(Key(live[a.member := a.stamp], Some(a.at + q.window)), w.log + [a]), a.at)
  {
    LogGrows(w.log, live, a);
    HoldsAfterAccept(w.log, live, a, Cutoff(q, band, a.at));
    TimedAfterAccept(q, band, w.log, a);
    assert |live[a.member := a.stamp]| <= |live| + 1;
  }

  lemma KeptByCheck(q: Quota, band: Band, w: World, e: Event)
    requires q.window > 0 && e.Check? && InBand(band, e.at, e.now)
    requires Keeps(q, band, w, e.at)
    requires forall i | 0 <= i < |w.log| :: w.log[i].member != e.member
    ensures Keeps(q, band, Step(q, w, e), e.at)
  {
    var live := Live(q, w.key, e.at, e.now);
    StillHeld(q, band, w, e.at, e.now);
    if |live| < q.limit {
      KeptByAccept(q, band, w, live, Accept(e.now, e.at, e.member));
    }
  }

  /** Every logged request is one of the run's requests. */
  ghost predicate WasChecked(events: seq<Event>, member: Uuid) {
    exists j :: 0 <= j < |events| && events[j].Check? && events[j].member == member
  }

  lemma {:induction false} LoggedWereChecked(q: Quota, events: seq<Event>)
    ensures forall i | 0 <= i < |Run(q, events).log| :: WasChecked(events, Run(q, events).log[i].member)
  {
    if events != [] {
      var n := |events| - 1;
      LoggedWereChecked(q, events[..n]);
      var log := Run(q, events[..n]).log;
      forall i | 0 <= i < |log| ensures WasChecked(events, log[i].member) {
        assert WasChecked(events[..n], log[i].member);
        var j :| 0 <= j < n && events[..n][j].Check? && events[..n][j].member == log[i].member;
        assert events[j] == events[..n][j];
      }
      if events[n].Check? {
        assert WasChecked(events, events[n].member);
      }
    }
  }

  /** What validity says of the last event, and of the events before it. */
  lemma LastEvent(band: Band, events: seq<Event>)
    requires Valid(band, events) && events != []
    ensures var n, e := |events| - 1, events[|events| - 1];
            && Valid(band, events[..n]) && Stamped(band, e)
            && (forall i | 0 <= i < n :: events[..n][i].at <= e.at)
            && (forall i | 0 <= i < n && e.Check? && events[..n][i].Check? :: events[..n][i].member != e.member)
  {
    var n, e := |events| - 1, events[|events| - 1];
    assert Stamped(band, e);
    forall i | 0 <= i < n
      ensures events[..n][i].at <= e.at
      ensures e.Check? && events[..n][i].Check? ==> events[..n][i].member != e.member
    {
      assert InOrder(events, i, n);
    }
    forall i, j | 0 <= i < j < n ensures InOrder(events[..n], i, j) {
      assert InOrder(events, i, j);
    }
    forall i | 0 <= i < n ensures Stamped(band, events[..n][i]) {
      assert Stamped(band, events[i]);
    }
  }

  /** After every run Redis holds each accept above the cutoff, and nothing that was not
      accepted. */
  lemma {:induction false} KeptByRuns(q: Quota, band: Band, events: seq<Event>, clock: int)
    requires q.window > 0 && Valid(band, events)
    requires forall i | 0 <= i < |events| :: events[i].at <= clock
    ensures Keeps(q, band, Run(q, events), clock)
  {
    if events != [] {
      var n := |events| - 1;
      var e, w := events[n], Run(q, events[..n]);
      LastEvent(band, events);
      KeptByRuns(q, band, events[..n], e.at);
      if e.Check? {
        LoggedWereChecked(q, events[..n]);
        KeptByCheck(q, band, w, e);
      }
    }
  }

  /** What one execution of the script counts: the members of a key that has not expired
      whose scores lie within the window. */
  lemma ScriptCounts(q: Quota, k: Key, at: int, now: int, m: Uuid)
    ensures m in Live(q, k, at, now) <==>
              m in k.zset && k.zset[m] > now - q.window && (k.expiresAt == None || at <= k.expiresAt.value)
    ensures m in Live(q, k, at, now) ==> Live(q, k, at, now)[m] == k.zset[m]
  {
  }

  /** If there is room it adds the request and renews the expiry. */
  lemma ScriptAdmits(q: Quota, k: Key, at: int, now: int, member: Uuid)
    requires |Live(q, k, at, now)| < q.limit
    ensures Answer(q, k, at, now) == Reply(true, q.limit - |Live(q, k, at, now)| - 1, 0)
    ensures q.window > 0 ==>
              KeyAfter(q, k, at, now, member) == Key(Live(q, k, at, now)[member := now], Some(at + q.window))
  {
  }

  lemma OldestMember(live: map<Uuid, int>) returns (m: Uuid)
    requires live != map[]
    ensures m in live && live[m] == OldestScore(live) && forall n | n in live :: live[m] <= live[n]
  {
    var score := OldestScore(live);
    m :| IsOldest(live, m) && live[m] == score;
    assert IsOldest(live, m);
  }

  /** If there is none it keeps the rest of the key as it is, and tells when the oldest
      member m leaves the window. */
  lemma ScriptRefuses(q: Quota, k: Key, at: int, now: int, member: Uuid) returns (m: Uuid)
    requires q.limit <= |Live(q, k, at, now)| && Live(q, k, at, now) != map[]
    ensures var live := Live(q, k, at, now);
            && KeyAfter(q, k, at, now, member) == Key(live, k.expiresAt)
            && m in live && (forall n | n in live :: live[m] <= live[n])
            && Answer(q, k, at, now) == Reply(false, 0, live[m] + q.window - now)
  {
    m := OldestMember(Live(q, k, at, now));
  }

  /** A window that is not positive remembers nothing: every request is admitted, unless
      the limit admits none at all. */
  lemma {:induction false} NoWindowNoMemory(q: Quota, events: seq<Event>, at: int, now: int)
    requires q.window <= 0
    ensures Run(q, events).key == ABSENT
    ensures Answer(q, Run(q, events).key, at, now) ==
            if q.limit >= 1 then Reply(true, q.limit - 1, 0) else Reply(false, 0, q.window)
  {
    if events != [] {
      NoWindowNoMemory(q, events[..|events| - 1], at, now);
    }
    assert Live(q, ABSENT, at, now) == map[];
  }

  // ----- The bound under skew, and why it cannot be widened -----

  lemma HeldAreCounted(log: seq<Accept>, live: map<Uuid, int>, a: int, b: int)
    requires Distinct(log) && Holds(log, live, a)
    ensures CountIn(Stamps(log), a, b) <= |live|
  {
    CountAtMostKeys(log, a, b, live.Keys);
  }

  lemma HoldsAbove(log: seq<Accept>, live: map<Uuid, int>, cutoff: int, a: int)
    requires Holds(log, live, cutoff) && cutoff <= a
    ensures Holds(log, live, a)
  {
  }

  /** Redis still counts every logged stamp of an interval that the new stamp falls into. */
  lemma OthersAreLive(q: Quota, band: Band, w: World, e: Event, a: int)
    requires e.Check? && InBand(band, e.at, e.now) && Keeps(q, band, w, e.at)
    requires e.now <= a + q.window - band.width
    ensures CountIn(Stamps(w.log), a, a + q.window - band.width) <= |Live(q, w.key, e.at, e.now)|
  {
    StillHeld(q, band, w, e.at, e.now);
    HoldsAbove(w.log, Live(q, w.key, e.at, e.now), Cutoff(q, band, e.at), a);
    HeldAreCounted(w.log, Live(q, w.key, e.at, e.now), a, a + q.window - band.width);
  }

  lemma AcceptCounts(log: seq<Accept>, x: Accept, a: int, b: int)
    ensures CountIn(Stamps(log + [x]), a, b) == CountIn(Stamps(log), a, b) + if a < x.stamp <= b then 1 else 0
  {
    assert Stamps(log + [x]) == Stamps(log) + [x.stamp];
    CountGrows(Stamps(log), x.stamp, a, b);
  }

  lemma StepCounts(q: Quota, w: World, e: Event, a: int, b: int)
    requires e.Check? && CountIn(Stamps(w.log), a, b) <= Max(0, q.limit)
    requires a < e.now <= b ==> CountIn(Stamps(w.log), a, b) <= |Live(q, w.key, e.at, e.now)|
    ensures CountIn(Stamps(Step(q, w, e).log), a, b) <= Max(0, q.limit)
  {
    AcceptCounts(w.log, Accept(e.now, e.at, e.member), a, b);
  }

  /** So one more request keeps the bound. */
  lemma BoundStep(q: Quota, band: Band, w: World, e: Event, a: int)
    requires e.Check? && InBand(band, e.at, e.now) && Keeps(q, band, w, e.at)
    requires CountIn(Stamps(w.log), a, a + q.window - band.width) <= Max(0, q.limit)
    ensures CountIn(Stamps(Step(q, w, e).log), a, a + q.window - band.width) <= Max(0, q.limit)
  {
    if a < e.now <= a + q.window - band.width {
      OthersAreLive(q, band, w, e, a);
    }
    StepCounts(q, w, e, a, a + q.window - band.width);
  }

  /** Replicas whose stamps differ from Redis time within a band of width d still
      accept at most `limit` requests in any stamp interval of length window - d. */
  lemma {:induction false} Bound(q: Quota, band: Band, events: seq<Event>, a: int)
    requires q.window > 0 && Valid(band, events)
    ensures CountIn(Stamps(Run(q, events).log), a, a + q.window - band.width) <= Max(0, q.limit)
  {
    if events != [] {
      var n := |events| - 1;
      LastEvent(band, events);
      Bound(q, band, events[..n], a);
      if events[n].Check? {
        KeptByRuns(q, band, events[..n], events[n].at);
        BoundStep(q, band, Run(q, events[..n]), events[n], a);
      }
    }
  }

  lemma FirstCheck(q: Quota, w: World, e: Event)
    requires w.key == ABSENT && q.limit >= 1 && q.window > 0 && e.Check?
    ensures Step(q, w, e) == World(Key(map[e.member := e.now], Some(e.at + q.window)),
                                   w.log + [Accept(e.now, e.at, e.member)])
  {
    assert Live(q, ABSENT, e.at, e.now) == map[];
  }

  /** Two requests, one stamped early for its time, the other exactly `window` of Redis
      time later: the key has just expired, and the two stamps are less than a window apart. */
  lemma SkewBreaksWindow(q: Quota, band: Band) returns (events: seq<Event>, a: int)
    requires q.window > 0 && q.limit == 1 && band.width > 0
    ensures Valid(band, events)
    ensures CountIn(Stamps(Run(q, events).log), a, a + q.window) == 2
  {
    var first := Check(0, band.low + 1, 0);
    var second := Check(q.window, band.low + q.window, 1);
    events, a := [first, ActiveExpiry(q.window), second], band.low;
    assert events[..2] == [first, ActiveExpiry(q.window)];
    assert events[..2][..1] == [first];
    FirstCheck(q, Run(q, []), first);
    var w1 := Run(q, [first]);
    assert w1 == Step(q, Run(q, []), first);
    var w2 := Run(q, events[..2]);
    assert w2 == World(ABSENT, w1.log);
    FirstCheck(q, w2, second);
    var s := Stamps(Run(q, events).log);
    assert s == [band.low + 1, band.low + q.window];
    assert s[..1] == [band.low + 1] && s[..1][..0] == [];
    assert CountIn(s[..1], a, a + q.window) == 1;
  }

  /** A check that finds room in a key it sees. */
  lemma Admits(q: Quota, w: World, e: Event, live: map<Uuid, int>)
    requires e.Check? && q.window > 0 && Live(q, w.key, e.at, e.now) == live && |live| < q.limit
    ensures Step(q, w, e) == World(Key(live[e.member := e.now], Some(e.at + q.window)),
                                   w.log + [Accept(e.now, e.at, e.member)])
  {
  }

  // ----- What a lagging request misses -----

  /** Redis still counts every accept in the request's own window. */
  ghost predicate OwnWindowHeld(q: Quota, events: seq<Event>, e: Event)
    requires e.Check?
  {
    var w := Run(q, events);
    forall i | 0 <= i < |w.log| && e.now - q.window < w.log[i].stamp <= e.now ::
      w.log[i].member in Live(q, w.key, e.at, e.now)
  }

  ghost predicate OwnWindowsHeld(q: Quota, band: Band) {
    forall events: seq<Event>, e: Event | e.Check? && Valid(band, events + [e]) :: OwnWindowHeld(q, events, e)
  }

  lemma FrontAccept(q: Quota, front: int)
    requires q.window > 0 && q.limit >= 1
    ensures Step(q, World(ABSENT, []), Check(0, front, 0)) ==
            World(Key(map[0 := front], Some(q.window)), [Accept(front, 0, 0)])
  {
    Admits(q, World(ABSENT, []), Check(0, front, 0), map[]);
  }

  lemma FrontPrunes(q: Quota, front: int, w: World)
    requires q.window > 0 && q.limit >= 1 && w.key == Key(map[0 := front], Some(q.window))
    ensures var w' := Step(q, w, Check(q.window, front + q.window, 1));
            w.log <= w'.log && 0 !in w'.key.zset
  {
    assert Live(q, w.key, q.window, front + q.window) == map[];
    Admits(q, w, Check(q.window, front + q.window, 1), map[]);
  }

  lemma ThreeInOrder(band: Band, window: int, front: int, events: seq<Event>)
    requires window > 0 && front == band.low + band.width && band.width > 0
    requires events == [Check(0, front, 0)] + [Check(window, front + window, 1)]
                       + [Check(window, front + window - 1, 2)]
    ensures Valid(band, events)
  {
  }

  /** An accept at the front of the band; a window later a request at the front, which
      prunes it; and with that one a request a millisecond behind, whose window begins
      just before the accept. */
  lemma SkewLosesAccept(q: Quota, band: Band) returns (events: seq<Event>, e: Event)
    requires q.window > 0 && q.limit >= 1 && band.width > 0
    ensures e.Check? && Valid(band, events + [e]) && !OwnWindowHeld(q, events, e)
  {
    var front := band.low + band.width;
    var e0, e1 := Check(0, front, 0), Check(q.window, front + q.window, 1);
    e := Check(q.window, front + q.window - 1, 2);
    events := [e0] + [e1];
    assert Run(q, [e0]) == World(Key(map[0 := front], Some(q.window)), [Accept(front, 0, 0)]) by {
      RunGrows(q, [], e0);
      assert [] + [e0] == [e0];
      FrontAccept(q, front);
    }
    RunGrows(q, [e0], e1);
    FrontPrunes(q, front, Run(q, [e0]));
    ThreeInOrder(band, q.window, front, events + [e]);
    assert Run(q, events).log[0] == Accept(front, 0, 0);
  }

  /** For every limit, a request finds all accepts of its own window exactly when there is
      no skew. */
  lemma OwnWindowHeldIffNoSkew(q: Quota, band: Band)
    requires q.window > 0 && q.limit >= 1
    ensures OwnWindowsHeld(q, band) <==> band.width == 0
  {
    if band.width == 0 {
      forall events: seq<Event>, e: Event | e.Check? && Valid(band, events + [e]) ensures OwnWindowHeld(q, events, e) {
        LastEvent(band, events + [e]);
        assert (events + [e])[..|events|] == events;
        KeptByRuns(q, band, events, e.at);
        StillHeld(q, band, Run(q, events), e.at, e.now);
      }
    } else {
      var events, e := SkewLosesAccept(q, band);
      assert !OwnWindowHeld(q, events, e);
    }
  }

  // ----- Which intervals hold -----

  /** At most `limit` accepts in any stamp interval of the given length, after any run. */
  ghost predicate IntervalsHold(q: Quota, band: Band, length: int) {
    forall events | Valid(band, events) :: forall a :: IntervalHolds(q, events, a, length)
  }

  ghost predicate IntervalHolds(q: Quota, events: seq<Event>, a: int, length: int) {
    CountIn(Stamps(Run(q, events).log), a, a + length) <= Max(0, q.limit)
  }

  lemma {:induction false} CountMonotone(s: seq<int>, a: int, b: int, b': int)
    requires b <= b'
    ensures CountIn(s, a, b) <= CountIn(s, a, b')
  {
    if s != [] {
      CountMonotone(s[..|s| - 1], a, b, b');
    }
  }

  /** Two requests at once. */
  lemma FirstTwo(q: Quota, low: int) returns (first: seq<Event>)
    requires q.window > 0 && q.limit == 2
    ensures |first| == 2 && first[0] == Check(0, low, 0) && first[1] == Check(0, low, 1)
    ensures Run(q, first) ==
            World(Key(map[0 := low, 1 := low], Some(q.window)), [Accept(low, 0, 0), Accept(low, 0, 1)])
  {
    first := [] + [Check(0, low, 0)] + [Check(0, low, 1)];
    RunGrows(q, [], Check(0, low, 0));
    RunGrows(q, [] + [Check(0, low, 0)], Check(0, low, 1));
    var w1 := World(Key(map[0 := low], Some(q.window)), [Accept(low, 0, 0)]);
    Admits(q, World(ABSENT, []), Check(0, low, 0), map[]);
    Admits(q, w1, Check(0, low, 1), map[0 := low]);
  }

  /** The third request, at most a window later, finds both stamps too old. */
  lemma ThirdOne(q: Quota, low: int, at: int, w: World)
    requires q.window > 0 && q.limit == 2 && at <= q.window
    requires w.key == Key(map[0 := low, 1 := low], Some(q.window))
    ensures Step(q, w, Check(at, low + q.window, 2)) ==
            World(Key(map[2 := low + q.window], Some(at + q.window)), w.log + [Accept(low + q.window, at, 2)])
  {
    assert Live(q, w.key, at, low + q.window) == map[];
    Admits(q, w, Check(at, low + q.window, 2), map[]);
  }

  lemma FourthOne(q: Quota, late: int, early: int, at: int, w: World)
    requires q.window > 0 && q.limit == 2 && early <= late
    requires w.key == Key(map[2 := late], Some(at + q.window))
    ensures Step(q, w, Check(at, early, 3)).log == w.log + [Accept(early, at, 3)]
  {
    assert Live(q, w.key, at, early) == map[2 := late];
    Admits(q, w, Check(at, early, 3), map[2 := late]);
  }

  lemma TwoMore(q: Quota, low: int, at: int, w: World)
    requires q.window > 0 && q.limit == 2 && at <= q.window
    requires w.key == Key(map[0 := low, 1 := low], Some(q.window))
    ensures Step(q, Step(q, w, Check(at, low + q.window, 2)), Check(at, low + at, 3)).log ==
            w.log + [Accept(low + q.window, at, 2)] + [Accept(low + at, at, 3)]
  {
    var w3 := World(Key(map[2 := low + q.window], Some(at + q.window)), w.log + [Accept(low + q.window, at, 2)]);
    ThirdOne(q, low, at, w);
    FourthOne(q, low + q.window, low + at, at, w3);
  }

  lemma RunTwoMore(q: Quota, first: seq<Event>, x: Event, y: Event)
    ensures Run(q, first + [x] + [y]) == Step(q, Step(q, Run(q, first), x), y)
  {
    RunGrows(q, first, x);
    RunGrows(q, first + [x], y);
  }

  lemma FourLogged(q: Quota, low: int, at: int, first: seq<Event>, w: World)
    requires q.window > 0 && q.limit == 2 && at <= q.window && w == Run(q, first)
    requires w == World(Key(map[0 := low, 1 := low], Some(q.window)), [Accept(low, 0, 0), Accept(low, 0, 1)])
    ensures Run(q, first + [Check(at, low + q.window, 2)] + [Check(at, low + at, 3)]).log ==
            [Accept(low, 0, 0), Accept(low, 0, 1)] + [Accept(low + q.window, at, 2)] + [Accept(low + at, at, 3)]
  {
    RunTwoMore(q, first, Check(at, low + q.window, 2), Check(at, low + at, 3));
    TwoMore(q, low, at, w);
  }

  lemma StampsOfFour(log: seq<Accept>, a: Accept, b: Accept, c: Accept, d: Accept)
    requires log == [a, b] + [c] + [d]
    ensures Stamps(log) == [a.stamp, b.stamp, c.stamp, d.stamp]
  {
  }

  lemma FourInOrder(band: Band, window: int, at: int, first: seq<Event>, events: seq<Event>)
    requires |first| == 2 && first[0] == Check(0, band.low, 0) && first[1] == Check(0, band.low, 1)
    requires events == first + [Check(at, band.low + window, 2)] + [Check(at, band.low + at, 3)]
    requires 0 <= at <= window <= at + band.width
    ensures Valid(band, events) && forall i | 0 <= i < |events| :: events[i].Check?
  {
  }

  lemma FourRun(q: Quota, low: int, at: int) returns (first: seq<Event>, events: seq<Event>)
    requires q.window > 0 && q.limit == 2 && at <= q.window
    ensures |first| == 2 && first[0] == Check(0, low, 0) && first[1] == Check(0, low, 1)
    ensures events == first + [Check(at, low + q.window, 2)] + [Check(at, low + at, 3)]
    ensures Run(q, events).log ==
            [Accept(low, 0, 0), Accept(low, 0, 1)] + [Accept(low + q.window, at, 2)] + [Accept(low + at, at, 3)]
  {
    first := FirstTwo(q, low);
    events := first + [Check(at, low + q.window, 2)] + [Check(at, low + at, 3)];
    FourLogged(q, low, at, first, Run(q, first));
  }

  /** Two requests at once; a window less the lag later one stamped as late as the skew
      allows, which pushes both out; and then one stamped as early as it allows. No key
      expires, and all four are accepted under a limit of two. */
  lemma FourRequests(q: Quota, band: Band, lag: nat) returns (events: seq<Event>)
    requires q.window > 0 && q.limit == 2 && lag <= q.window && lag <= band.width
    ensures Valid(band, events) && forall i | 0 <= i < |events| :: events[i].Check?
    ensures Stamps(Run(q, events).log) == [band.low, band.low, band.low + q.window, band.low + (q.window - lag)]
  {
    var low, at := band.low, q.window - lag;
    var first;
    first, events := FourRun(q, low, at);
    StampsOfFour(Run(q, events).log,
                 Accept(low, 0, 0), Accept(low, 0, 1), Accept(low + q.window, at, 2), Accept(low + at, at, 3));
    FourInOrder(band, q.window, at, first, events);
  }

  /** As soon as an interval is longer than the window less the skew, three accepts can
      lie in it under a limit of two. */
  lemma SkewBreaksInterval(q: Quota, band: Band, length: int) returns (events: seq<Event>, a: int)
    requires q.window > 0 && q.limit == 2 && band.width > 0 && length > Max(0, q.window - band.width)
    ensures Valid(band, events) && forall i | 0 <= i < |events| :: events[i].Check?
    ensures CountIn(Stamps(Run(q, events).log), a, a + length) >= 3
  {
    var lag: nat := if band.width < q.window then band.width else q.window;
    events := FourRequests(q, band, lag);
    a := band.low - 1;
    ThreeOfFour(band.low, band.low + q.window, band.low + (q.window - lag), a, a + length);
  }

  lemma ThreeOfFour(x: int, y: int, z: int, a: int, b: int)
    requires a < x <= b && a < z <= b
    ensures CountIn([x, x, y, z], a, b) >= 3
  {
    CountGrows([], x, a, b);
    CountGrows([] + [x], x, a, b);
    CountGrows([] + [x] + [x], y, a, b);
    CountGrows([] + [x] + [x] + [y], z, a, b);
    assert [x, x, y, z] == [] + [x] + [x] + [y] + [z];
  }

  /** Without skew, two requests a window apart lie in every interval longer than that. */
  lemma LongerIntervalBreaks(q: Quota, band: Band, length: int) returns (events: seq<Event>, a: int)
    requires q.window > 0 && q.limit == 1 && band.width == 0 && length > q.window
    ensures Valid(band, events)
    ensures CountIn(Stamps(Run(q, events).log), a, a + length) >= 2
  {
    var e0, e1 := Check(0, band.low, 0), Check(q.window, band.low + q.window, 1);
    events, a := [] + [e0] + [e1], band.low - 1;
    RunGrows(q, [], e0);
    RunGrows(q, [] + [e0], e1);
    Admits(q, World(ABSENT, []), e0, map[]);
    Admits(q, Run(q, [] + [e0]), e1, map[]);
    CountGrows([], band.low, a, a + length);
    CountGrows([] + [band.low], band.low + q.window, a, a + length);
    assert Stamps(Run(q, events).log) == [] + [band.low] + [band.low + q.window];
  }

  /** The bound cannot be widened: intervals of a length hold for all limits exactly when
      the length is at most the window less the skew, or the interval is empty. */
  lemma IntervalsHoldIffWithinSkew(window: int, band: Band, length: int)
    requires window > 0
    ensures (forall limit :: IntervalsHold(Quota(window, limit), band, length))
            <==> length <= Max(0, window - band.width)
  {
    if length <= Max(0, window - band.width) {
      forall limit, events, a | Valid(band, events)
        ensures IntervalHolds(Quota(window, limit), events, a, length)
      {
        var s := Stamps(Run(Quota(window, limit), events).log);
        if length <= window - band.width {
          Bound(Quota(window, limit), band, events, a);
          CountMonotone(s, a, a + length, a + window - band.width);
        } else {
          CountEmpty(s, a, a + length);
        }
      }
    } else if band.width == 0 {
      var q := Quota(window, 1);
      var events, a := LongerIntervalBreaks(q, band, length);
      assert !IntervalHolds(q, events, a, length);
      assert !IntervalsHold(q, band, length);
    } else {
      var q := Quota(window, 2);
      var events, a := SkewBreaksInterval(q, band, length);
      assert !IntervalHolds(q, events, a, length);
      assert !IntervalsHold(q, band, length);
    }
  }

  /** The documented promise, `limit` requests for any window whatever, holds for every
      limit exactly when the stamps keep a constant distance from Redis time. */
  lemma AnyWindowIffNoSkew(window: int, band: Band)
    requires window > 0
    ensures (forall limit :: IntervalsHold(Quota(window, limit), band, window)) <==> band.width == 0
  {
    IntervalsHoldIffWithinSkew(window, band, window);
  }
}
