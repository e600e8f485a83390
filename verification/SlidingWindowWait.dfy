/** The wait told to a refused request, whatever the clocks do: after it the request is
    admitted unless somebody else was in between, and skew lengthens it by no more than
    its own width. */
module SlidingWindowWait {
  import opened Common
  import opened SlidingWindow
  import opened SlidingWindowProofs

  // ----- Without a request that is accepted, the ZSET only shrinks -----

  ghost predicate Within(small: map<Uuid, int>, big: map<Uuid, int>) {
    forall m | m in small :: m in big && small[m] == big[m]
  }

  lemma RefusedShrinks(q: Quota, w: World, e: Event)
    requires Step(q, w, e).log == w.log
    ensures Within(Step(q, w, e).key.zset, w.key.zset)
  {
  }

  lemma LogGrowsByStep(q: Quota, w: World, e: Event)
    ensures w.log <= Step(q, w, e).log
  {
  }

  lemma {:induction false} LogsGrow(q: Quota, history: seq<Event>, n: nat)
    requires n <= |history|
    ensures Run(q, history[..n]).log <= Run(q, history).log
    decreases |history|
  {
    if n == |history| {
      assert history[..n] == history;
    } else {
      var m := |history| - 1;
      LogsGrow(q, history[..m], n);
      assert history[..m][..n] == history[..n];
      LogGrowsByStep(q, Run(q, history[..m]), history[m]);
    }
  }

  lemma {:induction false} OnlyShrinks(q: Quota, history: seq<Event>, n: nat)
    requires n <= |history| && Run(q, history).log == Run(q, history[..n]).log
    ensures Within(Run(q, history).key.zset, Run(q, history[..n]).key.zset)
    decreases |history|
  {
    if n == |history| {
      assert history[..n] == history;
    } else {
      var m := |history| - 1;
      var w := Run(q, history[..m]);
      assert history[..m][..n] == history[..n];
      LogsGrow(q, history[..m], n);
      LogGrowsByStep(q, w, history[m]);
      assert w.log == Run(q, history).log;
      OnlyShrinks(q, history[..m], n);
      RefusedShrinks(q, w, history[m]);
    }
  }

  lemma StepFits(q: Quota, w: World, e: Event)
    requires |w.key.zset| <= Max(0, q.limit)
    ensures |Step(q, w, e).key.zset| <= Max(0, q.limit)
  {
    if e.Check? {
      var live := Live(q, w.key, e.at, e.now);
      SmallerMap(live, w.key.zset);
      assert |live[e.member := e.now]| <= |live| + 1;
    }
  }

  /** Every run at all leaves at most `limit` members. */
  lemma {:induction false} RunFits(q: Quota, events: seq<Event>)
    ensures |Run(q, events).key.zset| <= Max(0, q.limit)
  {
    if events != [] {
      var n := |events| - 1;
      RunFits(q, events[..n]);
      StepFits(q, Run(q, events[..n]), events[n]);
    }
  }

  // ----- The wait -----

  /** A refused request saw a full ZSET, and its wait ends when the oldest member leaves. */
  lemma RefusedSawFull(q: Quota, w: World, x: Event)
    requires q.limit >= 1 && x.Check? && |w.key.zset| <= q.limit
    requires !Answer(q, w.key, x.at, x.now).allowed
    ensures var live := Live(q, w.key, x.at, x.now);
            && |live| == q.limit && live != map[] && Step(q, w, x) == World(Step(q, w, x).key, w.log)
            && Step(q, w, x).key.zset == live
            && x.now + Answer(q, w.key, x.at, x.now).retryAfterMs == OldestScore(live) + q.window
  {
    SmallerMap(Live(q, w.key, x.at, x.now), w.key.zset);
  }

  lemma RoomWithoutOldest(q: Quota, k: Key, full: map<Uuid, int>, at: int, now: int)
    requires Within(k.zset, full) && full != map[] && |full| <= q.limit
    requires now >= OldestScore(full) + q.window
    ensures Answer(q, k, at, now).allowed
  {
    var m :| IsOldest(full, m) && full[m] == OldestScore(full);
    var live := Live(q, k, at, now);
    assert live.Keys <= full.Keys - {m};
    FewerKeys(live.Keys, full.Keys - {m});
  }

  lemma FewerKeys(x: set<Uuid>, y: set<Uuid>)
    requires x <= y
    ensures |x| <= |y|
  {
    assert y == x + (y - x);
  }

  /** Waiting suffices, with any clocks at all, at any replica: a refused request that
      comes back no earlier than it was told is admitted, if nothing was accepted on its
      key in between. */
  lemma WaitSuffices(q: Quota, history: seq<Event>, n: nat, e: Event)
    requires q.limit >= 1 && n < |history| && history[n].Check? && e.Check?
    requires !Answer(q, Run(q, history[..n]).key, history[n].at, history[n].now).allowed
    requires Run(q, history).log == Run(q, history[..n]).log
    requires e.now >= history[n].now
                      + Answer(q, Run(q, history[..n]).key, history[n].at, history[n].now).retryAfterMs
    ensures Answer(q, Run(q, history).key, e.at, e.now).allowed
  {
    var w, x := Run(q, history[..n]), history[n];
    var full := Live(q, w.key, x.at, x.now);
    RunFits(q, history[..n]);
    RefusedSawFull(q, w, x);
    assert history[..n + 1] == history[..n] + [x];
    RunGrows(q, history[..n], x);
    OnlyShrinks(q, history, n + 1);
    RoomWithoutOldest(q, Run(q, history).key, full, e.at, e.now);
  }

  /** The wait is always positive, and skew makes it longer than the window by at most its
      own width. */
  lemma RetryBound(q: Quota, band: Band, events: seq<Event>, e: Event)
    requires q.window > 0 && q.limit >= 1 && e.Check? && Valid(band, events + [e])
    requires !Answer(q, Run(q, events).key, e.at, e.now).allowed
    ensures 0 < Answer(q, Run(q, events).key, e.at, e.now).retryAfterMs <= q.window + band.width
  {
    var w := Run(q, events);
    LastEvent(band, events + [e]);
    assert (events + [e])[..|events|] == events;
    KeptByRuns(q, band, events, e.at);
    RefusedSawFull(q, w, e);
    var live := Live(q, w.key, e.at, e.now);
    var m :| IsOldest(live, m) && live[m] == OldestScore(live);
    assert IsOldest(live, m);
    assert InLog(w.log, m, w.key.zset[m]);
  }
}
