/** The limiter when stamps never go back and no key expires before its stamps have left
    the window: it decides as the never-pruned log would, its retry times are exact, and
    no policy that keeps the quota ever admits more. */
module SlidingWindowExact {
  import opened Common
  import opened SlidingWindow
  import opened SlidingWindowProofs

  // ----- Redis against the log, whatever the skew -----

  lemma LoggedAreCounted(log: seq<Accept>, live: map<Uuid, int>, a: int, b: int)
    requires OnlyLogged(log, live)
    requires forall m | m in live :: a < live[m] <= b
    ensures |live| <= CountIn(Stamps(log), a, b)
  {
    forall m | m in live.Keys
      ensures exists i :: 0 <= i < |log| && log[i].member == m && a < log[i].stamp <= b
    {
      assert InLog(log, m, live[m]);
    }
    KeysAtMostCount(log, a, b, live.Keys);
    assert |live| == |live.Keys|;
  }

  lemma LiveIsLogged(q: Quota, w: World, at: int, now: int)
    requires OnlyLogged(w.log, w.key.zset)
    ensures OnlyLogged(w.log, Live(q, w.key, at, now))
  {
  }

  lemma LiveScores(q: Quota, band: Band, w: World, at: int, now: int)
    requires OnTime(band, w.log, at) && OnlyLogged(w.log, w.key.zset)
    ensures forall m | m in Live(q, w.key, at, now) ::
              now - q.window < Live(q, w.key, at, now)[m] <= at + band.low + band.width
  {
    var live := Live(q, w.key, at, now);
    forall m | m in live ensures now - q.window < live[m] <= at + band.low + band.width {
      assert InLog(w.log, m, w.key.zset[m]);
    }
  }

  lemma CountAtLeast(q: Quota, band: Band, w: World, at: int, now: int)
    requires InBand(band, at, now) && Keeps(q, band, w, at)
    ensures CountIn(Stamps(w.log), Cutoff(q, band, at), at + band.low + band.width) <= |Live(q, w.key, at, now)|
  {
    StillHeld(q, band, w, at, now);
    HeldAreCounted(w.log, Live(q, w.key, at, now), Cutoff(q, band, at), at + band.low + band.width);
  }

  lemma CountAtMost(q: Quota, band: Band, w: World, at: int, now: int)
    requires OnTime(band, w.log, at) && OnlyLogged(w.log, w.key.zset)
    ensures |Live(q, w.key, at, now)| <= CountIn(Stamps(w.log), now - q.window, at + band.low + band.width)
  {
    LiveIsLogged(q, w, at, now);
    LiveScores(q, band, w, at, now);
    LoggedAreCounted(w.log, Live(q, w.key, at, now), now - q.window, at + band.low + band.width);
  }

  /** Whatever the skew, Redis counts every accept above the cutoff and no accept
      that has left the request's own window. */
  lemma CountSandwich(q: Quota, band: Band, w: World, at: int, now: int)
    requires InBand(band, at, now) && Keeps(q, band, w, at)
    ensures CountIn(Stamps(w.log), Cutoff(q, band, at), at + band.low + band.width) <= |Live(q, w.key, at, now)|
    ensures |Live(q, w.key, at, now)| <= CountIn(Stamps(w.log), now - q.window, at + band.low + band.width)
  {
    CountAtLeast(q, band, w, at, now);
    CountAtMost(q, band, w, at, now);
  }

  // ----- Runs in which the stamps keep pace -----

  /** The later request has a stamp no earlier; and if Redis time moved on by a window
      between the two, so did the stamps. */
  ghost predicate KeepsPace(q: Quota, earlier: Event, later: Event) {
    earlier.Check? && later.Check? ==>
      && earlier.now <= later.now
      && (earlier.at + q.window <= later.at ==> earlier.now + q.window <= later.now)
  }

  ghost predicate InPace(q: Quota, events: seq<Event>, i: nat, j: nat)
    requires i < j < |events|
  {
    InOrder(events, i, j) && KeepsPace(q, events[i], events[j])
  }

  ghost predicate Timely(q: Quota, events: seq<Event>) {
    forall i, j {:trigger InPace(q, events, i, j)} | 0 <= i < j < |events| :: InPace(q, events, i, j)
  }

  /** A constant distance between stamps and Redis time is the simplest such case. */
  lemma ConstantDelayIsTimely(q: Quota, low: int, events: seq<Event>)
    requires Valid(Band(low, 0), events)
    ensures Timely(q, events)
  {
    forall i, j | 0 <= i < j < |events| ensures InPace(q, events, i, j) {
      assert InOrder(events, i, j);
      assert Stamped(Band(low, 0), events[i]) && Stamped(Band(low, 0), events[j]);
    }
  }

  lemma TimelyTake(q: Quota, events: seq<Event>, n: nat)
    requires Timely(q, events) && n <= |events|
    ensures Timely(q, events[..n])
  {
    forall i, j | 0 <= i < j < n ensures InPace(q, events[..n], i, j) {
      assert InPace(q, events, i, j);
    }
  }

  lemma TimelyPrefix(q: Quota, events: seq<Event>, e: Event)
    requires Timely(q, events + [e])
    ensures Timely(q, events)
    ensures forall i | 0 <= i < |events| :: events[i].at <= e.at && KeepsPace(q, events[i], e)
    ensures forall i | 0 <= i < |events| && events[i].Check? && e.Check? :: events[i].member != e.member
  {
    TimelyTake(q, events + [e], |events|);
    assert (events + [e])[..|events|] == events;
    forall i | 0 <= i < |events|
      ensures events[i].at <= e.at && KeepsPace(q, events[i], e)
      ensures events[i].Check? && e.Check? ==> events[i].member != e.member
    {
      assert InPace(q, events + [e], i, |events|);
    }
  }

  lemma TimelyUpTo(q: Quota, events: seq<Event>, n: nat)
    requires Timely(q, events) && n < |events|
    ensures Timely(q, events[..n] + [events[n]]) && Timely(q, events[..n])
  {
    TimelyTake(q, events, n);
    TimelyTake(q, events, n + 1);
    assert events[..n + 1] == events[..n] + [events[n]];
  }

  /** The run may skip the event before the last one. */
  lemma TimelyWithout(q: Quota, events: seq<Event>, x: Event, e: Event)
    requires Timely(q, events + [x] + [e])
    ensures Timely(q, events + [e]) && Timely(q, events + [x]) && Timely(q, [x] + [e])
  {
    var all, some, n := events + [x] + [e], events + [e], |events|;
    TimelyPrefix(q, events + [x], e);
    forall i, j | 0 <= i < j < |some| ensures InPace(q, some, i, j) {
      assert InPace(q, all, i, if j == n then n + 1 else j);
    }
    assert InPace(q, all, n, n + 1);
    assert InPace(q, [x] + [e], 0, 1);
  }

  // ----- What such runs keep -----

  /** The accept is that of one of the run's requests. */
  ghost predicate ComesFrom(events: seq<Event>, a: Accept) {
    exists j :: 0 <= j < |events| && events[j] == Check(a.at, a.stamp, a.member)
  }

  lemma {:induction false} LogComesFrom(q: Quota, events: seq<Event>)
    ensures forall i | 0 <= i < |Run(q, events).log| :: ComesFrom(events, Run(q, events).log[i])
  {
    if events != [] {
      var n := |events| - 1;
      LogComesFrom(q, events[..n]);
      var log := Run(q, events[..n]).log;
      forall i | 0 <= i < |log| ensures ComesFrom(events, log[i]) {
        assert ComesFrom(events[..n], log[i]);
        var j :| 0 <= j < n && events[..n][j] == Check(log[i].at, log[i].stamp, log[i].member);
        assert events[j] == events[..n][j];
      }
      if events[n].Check? {
        assert ComesFrom(events, Accept(events[n].now, events[n].at, events[n].member));
      }
    }
  }

  /** Whatever was accepted before the next request has an earlier stamp and another member. */
  lemma AcceptedBefore(q: Quota, events: seq<Event>, e: Event)
    requires e.Check? && Timely(q, events + [e])
    ensures forall i | 0 <= i < |Run(q, events).log| ::
              Run(q, events).log[i].stamp <= e.now && Run(q, events).log[i].member != e.member
  {
    LogComesFrom(q, events);
    TimelyPrefix(q, events, e);
    forall i | 0 <= i < |Run(q, events).log|
      ensures Run(q, events).log[i].stamp <= e.now && Run(q, events).log[i].member != e.member
    {
      var a := Run(q, events).log[i];
      assert ComesFrom(events, a);
      var j :| 0 <= j < |events| && events[j] == Check(a.at, a.stamp, a.member);
      assert KeepsPace(q, events[j], e);
    }
  }

  ghost predicate Tidy(q: Quota, w: World) {
    OnlyLogged(w.log, w.key.zset) && |w.key.zset| <= Max(0, q.limit) && Distinct(w.log) && Sorted(Stamps(w.log))
  }

  lemma TidyAfterAccept(q: Quota, log: seq<Accept>, live: map<Uuid, int>, a: Accept, expiresAt: Option<int>)
    requires OnlyLogged(log, live) && |live| < q.limit && Distinct(log) && Sorted(Stamps(log))
    requires forall i | 0 <= i < |log| :: log[i].stamp <= a.stamp && log[i].member != a.member
    ensures Tidy(q, World(Key(live[a.member := a.stamp], expiresAt), log + [a]))
  {
    LogGrows(log, live, a);
    assert Stamps(log + [a]) == Stamps(log) + [a.stamp];
    assert |live[a.member := a.stamp]| <= |live| + 1;
  }

  lemma TidyAfterCheck(q: Quota, w: World, e: Event)
    requires q.window > 0 && Tidy(q, w) && e.Check?
    requires forall i | 0 <= i < |w.log| :: w.log[i].stamp <= e.now && w.log[i].member != e.member
    ensures Tidy(q, Step(q, w, e))
  {
    var live := Live(q, w.key, e.at, e.now);
    LiveIsLogged(q, w, e.at, e.now);
    SmallerMap(live, w.key.zset);
    if |live| < q.limit {
      TidyAfterAccept(q, w.log, live, Accept(e.now, e.at, e.member), Some(e.at + q.window));
    }
  }

  lemma {:induction false} RunIsTidy(q: Quota, events: seq<Event>)
    requires q.window > 0 && Timely(q, events)
    ensures Tidy(q, Run(q, events))
  {
    if events != [] {
      var n := |events| - 1;
      assert events == events[..n] + [events[n]];
      TimelyPrefix(q, events[..n], events[n]);
      RunIsTidy(q, events[..n]);
      if events[n].Check? {
        AcceptedBefore(q, events[..n], events[n]);
        TidyAfterCheck(q, Run(q, events[..n]), events[n]);
      }
    }
  }

  ghost predicate AllOld(log: seq<Accept>, cutoff: int) {
    forall i | 0 <= i < |log| :: log[i].stamp <= cutoff
  }

  /** For the later request e, the ZSET still holds what e has to count; and if the key
      may be gone by then, nothing is left to count. */
  ghost predicate Covers(q: Quota, w: World, e: Event)
    requires e.Check?
  {
    && Holds(w.log, w.key.zset, e.now - q.window)
    && (w.key.expiresAt.Some? && w.key.expiresAt.value <= e.at ==> AllOld(w.log, e.now - q.window))
  }

  /** What e will see after x has pruned for its own earlier window. */
  lemma LiveCovers(q: Quota, w: World, at: int, now: int, e: Event)
    requires e.Check? && at <= e.at && now <= e.now && Tidy(q, w) && Covers(q, w, e)
    ensures Holds(w.log, Live(q, w.key, at, now), e.now - q.window)
  {
    var live := Live(q, w.key, at, now);
    forall i | 0 <= i < |w.log| && w.log[i].stamp > e.now - q.window ensures w.log[i].member in live {
      ScoreIsStamp(w.log, w.key.zset, i);
    }
  }

  lemma CoversAfter(q: Quota, w: World, x: Event, e: Event)
    requires q.window > 0 && e.Check? && Tidy(q, w) && Covers(q, w, e)
    requires x.at <= e.at && KeepsPace(q, x, e)
    requires x.Check? ==> AllOld(w.log, x.now)
    ensures Covers(q, Step(q, w, x), e)
  {
    if x.Check? {
      var live := Live(q, w.key, x.at, x.now);
      LiveCovers(q, w, x.at, x.now, e);
      if |live| < q.limit {
        HoldsAfterAccept(w.log, live, Accept(x.now, x.at, x.member), e.now - q.window);
      }
    }
  }

  lemma {:induction false} RunCovers(q: Quota, events: seq<Event>, e: Event)
    requires q.window > 0 && e.Check? && Timely(q, events + [e])
    ensures Covers(q, Run(q, events), e)
  {
    if events != [] {
      var n := |events| - 1;
      var before, x := events[..n], events[n];
      assert events + [e] == before + [x] + [e];
      TimelyWithout(q, before, x, e);
      RunCovers(q, before, e);
      TimelyPrefix(q, before, x);
      TimelyPrefix(q, [x], e);
      RunIsTidy(q, before);
      if x.Check? {
        AcceptedBefore(q, before, x);
      }
      assert [x][0] == x;
      CoversAfter(q, Run(q, before), x, e);
    }
  }

  /** What the next request e finds after a run. */
  ghost predicate Ready(q: Quota, w: World, e: Event)
    requires e.Check?
  {
    && Tidy(q, w) && AllOld(w.log, e.now)
    && Holds(w.log, Live(q, w.key, e.at, e.now), e.now - q.window)
  }

  lemma ReadyAfterRun(q: Quota, events: seq<Event>, e: Event)
    requires q.window > 0 && e.Check? && Timely(q, events + [e])
    ensures Ready(q, Run(q, events), e)
  {
    TimelyPrefix(q, events, e);
    RunIsTidy(q, events);
    RunCovers(q, events, e);
    AcceptedBefore(q, events, e);
    LiveCovers(q, Run(q, events), e.at, e.now, e);
  }

  // ----- Agreement with the never-pruned log -----

  /** The answer a limiter gives that never prunes and never expires anything. */
  function LogAnswer(q: Quota, stamps: seq<int>, now: int): Reply {
    var used := CountIn(stamps, now - q.window, now);
    if used < q.limit then Reply(true, q.limit - used - 1, 0)
    else if 1 <= q.limit <= |stamps| then Reply(false, 0, stamps[|stamps| - q.limit] + q.window - now)
    else Reply(false, 0, q.window)
  }

  lemma ScoreIsStamp(log: seq<Accept>, live: map<Uuid, int>, k: nat)
    requires OnlyLogged(log, live) && Distinct(log)
    requires k < |log| && log[k].member in live
    ensures live[log[k].member] == log[k].stamp
  {
    assert InLog(log, log[k].member, live[log[k].member]);
  }

  /** When exactly `limit` sorted stamps lie above a, they are the last `limit` ones. */
  lemma LastOnes(s: seq<int>, limit: nat, a: int, b: int)
    requires Sorted(s) && CountIn(s, a, b) == limit >= 1
    requires forall i | 0 <= i < |s| :: s[i] <= b
    ensures limit <= |s| && s[|s| - limit] > a
    ensures forall i | 0 <= i < |s| - limit :: s[i] <= a
  {
    CountAtMostLength(s, a, b);
    CountSuffix(s, a, b, limit);
    if limit < |s| {
      CountSuffix(s, a, b, limit + 1);
    }
  }

  /** A full ZSET holds exactly the last `limit` accepts, so its lowest score is theirs. */
  lemma OldestIsLimitth(log: seq<Accept>, live: map<Uuid, int>, k: nat, a: int)
    requires OnlyLogged(log, live) && Holds(log, live, a) && Distinct(log)
    requires forall m | m in live :: live[m] > a
    requires k < |log| && log[k].stamp > a
    requires forall i | 0 <= i < k :: log[i].stamp <= a
    requires forall i | k <= i < |log| :: log[k].stamp <= log[i].stamp
    ensures log[k].member in live && OldestScore(live) == log[k].stamp
  {
    ScoreIsStamp(log, live, k);
    var m :| IsOldest(live, m) && live[m] == OldestScore(live);
    assert IsOldest(live, m);
    assert InLog(log, m, live[m]);
  }

  lemma LowestScore(q: Quota, w: World, e: Event)
    requires e.Check? && Ready(q, w, e)
    requires 1 <= q.limit <= |w.log| && w.log[|w.log| - q.limit].stamp > e.now - q.window
    requires forall i | 0 <= i < |w.log| - q.limit :: w.log[i].stamp <= e.now - q.window
    ensures Live(q, w.key, e.at, e.now) != map[]
    ensures OldestScore(Live(q, w.key, e.at, e.now)) == w.log[|w.log| - q.limit].stamp
  {
    LiveIsLogged(q, w, e.at, e.now);
    SortedMeans(w.log);
    OldestIsLimitth(w.log, Live(q, w.key, e.at, e.now), |w.log| - q.limit, e.now - q.window);
  }

  lemma SortedMeans(log: seq<Accept>)
    requires Sorted(Stamps(log))
    ensures forall i, j | 0 <= i < j < |log| :: log[i].stamp <= log[j].stamp
  {
    forall i, j | 0 <= i < j < |log| ensures log[i].stamp <= log[j].stamp {
      assert Stamps(log)[i] <= Stamps(log)[j];
    }
  }

  lemma LiveInWindow(q: Quota, w: World, e: Event)
    requires e.Check? && Ready(q, w, e)
    ensures forall m | m in Live(q, w.key, e.at, e.now) ::
              e.now - q.window < Live(q, w.key, e.at, e.now)[m] <= e.now
  {
    var live := Live(q, w.key, e.at, e.now);
    LiveIsLogged(q, w, e.at, e.now);
    forall m | m in live ensures e.now - q.window < live[m] <= e.now {
      assert InLog(w.log, m, live[m]);
    }
  }

  lemma LiveAtMostCount(q: Quota, w: World, e: Event)
    requires e.Check? && Ready(q, w, e)
    ensures |Live(q, w.key, e.at, e.now)| <= CountIn(Stamps(w.log), e.now - q.window, e.now)
  {
    LiveIsLogged(q, w, e.at, e.now);
    LiveInWindow(q, w, e);
    LoggedAreCounted(w.log, Live(q, w.key, e.at, e.now), e.now - q.window, e.now);
  }

  lemma LiveIsCount(q: Quota, w: World, e: Event)
    requires e.Check? && Ready(q, w, e)
    ensures |Live(q, w.key, e.at, e.now)| == CountIn(Stamps(w.log), e.now - q.window, e.now) <= Max(0, q.limit)
  {
    var live := Live(q, w.key, e.at, e.now);
    SmallerMap(live, w.key.zset);
    HeldAreCounted(w.log, live, e.now - q.window, e.now);
    LiveAtMostCount(q, w, e);
  }

  lemma SortedStamps(q: Quota, events: seq<Event>, e: Event)
    requires q.window > 0 && e.Check? && Timely(q, events + [e])
    ensures Sorted(Stamps(Run(q, events).log))
    ensures forall i | 0 <= i < |Run(q, events).log| :: Run(q, events).log[i].stamp <= e.now
  {
    ReadyAfterRun(q, events, e);
  }

  /** What a run leaves for the next request `e`, in terms of the log alone. */
  lemma LogFacts(q: Quota, events: seq<Event>, e: Event)
    requires q.window > 0 && e.Check? && Timely(q, events + [e])
    ensures var log, live := Run(q, events).log, Live(q, Run(q, events).key, e.at, e.now);
            && |live| == CountIn(Stamps(log), e.now - q.window, e.now) <= Max(0, q.limit)
            && (1 <= q.limit <= |live| ==>
                  q.limit <= |log| && OldestScore(live) == log[|log| - q.limit].stamp)
  {
    var w := Run(q, events);
    assert |Live(q, w.key, e.at, e.now)| == CountIn(Stamps(w.log), e.now - q.window, e.now) <= Max(0, q.limit) by {
      ReadyAfterRun(q, events, e);
      LiveIsCount(q, w, e);
    }
    if 1 <= q.limit <= |Live(q, w.key, e.at, e.now)| {
      LowestIsLimitth(q, events, e);
    }
  }

  lemma LowestIsLimitth(q: Quota, events: seq<Event>, e: Event)
    requires q.window > 0 && e.Check? && Timely(q, events + [e])
    requires CountIn(Stamps(Run(q, events).log), e.now - q.window, e.now) == q.limit >= 1
    ensures var log, live := Run(q, events).log, Live(q, Run(q, events).key, e.at, e.now);
            live != map[] && q.limit <= |log| && OldestScore(live) == log[|log| - q.limit].stamp
  {
    var w := Run(q, events);
    assert q.limit <= |w.log|
           && w.log[|w.log| - q.limit].stamp > e.now - q.window
           && (forall i | 0 <= i < |w.log| - q.limit :: w.log[i].stamp <= e.now - q.window) by {
      SortedStamps(q, events, e);
      LastOnes(Stamps(w.log), q.limit, e.now - q.window, e.now);
    }
    ReadyAfterRun(q, events, e);
    LowestScore(q, w, e);
  }

  /** Pruning and key expiry are invisible: after any run the script answers as if it
      still had every accept, in all three of its values. */
  lemma LogRefinement(q: Quota, events: seq<Event>, e: Event)
    requires q.window > 0 && e.Check? && Timely(q, events + [e])
    ensures Answer(q, Run(q, events).key, e.at, e.now) == LogAnswer(q, Stamps(Run(q, events).log), e.now)
  {
    LogFacts(q, events, e);
    AnswerOfLog(q, Run(q, events), e);
  }

  lemma AnswerOfLog(q: Quota, w: World, e: Event)
    requires e.Check?
    requires var live := Live(q, w.key, e.at, e.now);
             && |live| == CountIn(Stamps(w.log), e.now - q.window, e.now) <= Max(0, q.limit)
             && (1 <= q.limit <= |live| ==>
                   q.limit <= |w.log| && OldestScore(live) == w.log[|w.log| - q.limit].stamp)
    ensures Answer(q, w.key, e.at, e.now) == LogAnswer(q, Stamps(w.log), e.now)
  {
    CountAtMostLength(Stamps(w.log), e.now - q.window, e.now);
    assert 1 <= q.limit <= |w.log| ==> Stamps(w.log)[|w.log| - q.limit] == w.log[|w.log| - q.limit].stamp;
  }

  // ----- Exact retry times -----

  lemma DeniedIffWindowFull(q: Quota, events: seq<Event>, e: Event)
    requires q.window > 0 && e.Check? && Timely(q, events + [e]) && q.limit >= 1
    ensures var s := Stamps(Run(q, events).log);
            !Answer(q, Run(q, events).key, e.at, e.now).allowed
            <==> q.limit <= |s| && e.now < s[|s| - q.limit] + q.window
  {
    var s := Stamps(Run(q, events).log);
    assert Sorted(s) && forall i | 0 <= i < |s| :: s[i] <= e.now by {
      SortedStamps(q, events, e);
    }
    LogRefinement(q, events, e);
    FullMeans(q, s, e.now);
  }

  lemma FullMeans(q: Quota, s: seq<int>, now: int)
    requires q.limit >= 1 && Sorted(s) && forall i | 0 <= i < |s| :: s[i] <= now
    ensures !LogAnswer(q, s, now).allowed <==> q.limit <= |s| && now < s[|s| - q.limit] + q.window
  {
    CountAtMostLength(s, now - q.window, now);
    if q.limit <= |s| {
      CountSuffix(s, now - q.window, now, q.limit);
    }
  }

  lemma EarlyRequestDenied(q: Quota, events: seq<Event>, e: Event, until: int)
    requires q.window > 0 && Timely(q, events + [e])
    requires 1 <= q.limit <= |Run(q, events).log|
    requires until == Run(q, events).log[|Run(q, events).log| - q.limit].stamp + q.window
    requires e.Check? ==> e.now < until
    ensures Run(q, events + [e]).log == Run(q, events).log
  {
    assert (events + [e])[..|events|] == events;
    if e.Check? {
      DeniedIffWindowFull(q, events, e);
    }
  }

  /** Denials leave the log alone, so a denied request's answer stays the log's answer. */
  lemma {:induction false} DeniedUntilRetry(q: Quota, history: seq<Event>, n: nat, until: int)
    requires q.window > 0 && Timely(q, history) && n <= |history|
    requires 1 <= q.limit <= |Run(q, history[..n]).log|
    requires until == Run(q, history[..n]).log[|Run(q, history[..n]).log| - q.limit].stamp + q.window
    requires forall i | n <= i < |history| && history[i].Check? :: history[i].now < until
    ensures Run(q, history).log == Run(q, history[..n]).log
    decreases |history|
  {
    if n == |history| {
      assert history[..n] == history;
    } else {
      var m := |history| - 1;
      var before, e := history[..m], history[m];
      assert history == before + [e];
      TimelyPrefix(q, before, e);
      assert before[..n] == history[..n];
      DeniedUntilRetry(q, before, n, until);
      EarlyRequestDenied(q, before, e, until);
    }
  }

  /** The wait told to a denied request ends when the limit-th accept from the end leaves
      the window. */
  lemma RetryTarget(q: Quota, events: seq<Event>, e: Event)
    requires q.window > 0 && q.limit >= 1 && e.Check? && Timely(q, events + [e])
    requires !Answer(q, Run(q, events).key, e.at, e.now).allowed
    ensures var retry := Answer(q, Run(q, events).key, e.at, e.now).retryAfterMs;
            var log := Run(q, events).log;
            && q.limit <= |log|
            && e.now + retry == log[|log| - q.limit].stamp + q.window
            && 0 < retry <= q.window
  {
    SortedStamps(q, events, e);
    DeniedIffWindowFull(q, events, e);
    LogRefinement(q, events, e);
    assert Stamps(Run(q, events).log)[|Run(q, events).log| - q.limit] ==
           Run(q, events).log[|Run(q, events).log| - q.limit].stamp;
  }

  /** Until a denied request's wait is over, nothing is accepted. */
  lemma NothingMeanwhile(q: Quota, history: seq<Event>, n: nat, retry: int)
    requires q.window > 0 && q.limit >= 1 && Timely(q, history)
    requires n < |history| && history[n].Check?
    requires Answer(q, Run(q, history[..n]).key, history[n].at, history[n].now) == Reply(false, 0, retry)
    requires forall i | n < i < |history| && history[i].Check? :: history[i].now < history[n].now + retry
    ensures 0 < retry <= q.window
    ensures Run(q, history).log == Run(q, history[..n]).log
    ensures var s := Stamps(Run(q, history).log);
            q.limit <= |s| && history[n].now + retry == s[|s| - q.limit] + q.window
  {
    TimelyUpTo(q, history, n);
    RetryTarget(q, history[..n], history[n]);
    DeniedUntilRetry(q, history, n, history[n].now + retry);
  }

  lemma DenialSaysOnlyWhen(q: Quota, k: Key, at: int, now: int)
    requires !Answer(q, k, at, now).allowed
    ensures Answer(q, k, at, now) == Reply(false, 0, Answer(q, k, at, now).retryAfterMs)
  {
  }

  /** The request at position n of a run is denied. It is told a wait in (0, window];
      whatever else arrives meanwhile is denied too, and the next request is admitted
      exactly when that wait is over. */
  lemma RetryIsExact(q: Quota, history: seq<Event>, n: nat, e: Event)
    requires q.window > 0 && q.limit >= 1 && Timely(q, history + [e]) && e.Check?
    requires n < |history| && history[n].Check?
    requires !Answer(q, Run(q, history[..n]).key, history[n].at, history[n].now).allowed
    requires var until := history[n].now + Answer(q, Run(q, history[..n]).key, history[n].at, history[n].now).retryAfterMs;
             forall i | n < i < |history| && history[i].Check? :: history[i].now < until
    ensures var retry := Answer(q, Run(q, history[..n]).key, history[n].at, history[n].now).retryAfterMs;
            && 0 < retry <= q.window
            && Run(q, history).log == Run(q, history[..n]).log
            && (Answer(q, Run(q, history).key, e.at, e.now).allowed <==> e.now >= history[n].now + retry)
  {
    var k := Run(q, history[..n]).key;
    DenialSaysOnlyWhen(q, k, history[n].at, history[n].now);
    TimelyPrefix(q, history, e);
    NothingMeanwhile(q, history, n, Answer(q, k, history[n].at, history[n].now).retryAfterMs);
    DeniedIffWindowFull(q, history, e);
  }

  // ----- Optimality -----

  /** The stamps of the requests that another policy admits out of the same arrivals. */
  function Admitted(events: seq<Event>, choice: seq<bool>): seq<int>
    requires |choice| == |events|
  {
    if events == [] then []
    else
      var n := |events| - 1;
      Admitted(events[..n], choice[..n]) + if events[n].Check? && choice[n] then [events[n].now] else []
  }

  /** At most `limit` admissions in every window (t - window, t]. */
  ghost predicate KeepsQuota(q: Quota, stamps: seq<int>) {
    forall t :: KeepsQuotaAt(q, stamps, t)
  }

  ghost predicate KeepsQuotaAt(q: Quota, stamps: seq<int>, t: int) {
    CountIn(stamps, t - q.window, t) <= Max(0, q.limit)
  }

  lemma KeepsQuotaPrefix(q: Quota, stamps: seq<int>, x: seq<int>)
    requires KeepsQuota(q, stamps + x) && |x| <= 1
    ensures KeepsQuota(q, stamps)
  {
    forall t ensures KeepsQuotaAt(q, stamps, t) {
      assert KeepsQuotaAt(q, stamps + x, t);
      if |x| == 1 {
        assert (stamps + x)[..|stamps|] == stamps;
        assert CountIn(stamps + x, t - q.window, t) >= CountIn(stamps, t - q.window, t);
      } else {
        assert stamps + x == stamps;
      }
    }
  }

  lemma {:induction false} AdmittedAreArrivals(q: Quota, events: seq<Event>, choice: seq<bool>, latest: int)
    requires |choice| == |events| && Timely(q, events)
    requires forall i | 0 <= i < |events| && events[i].Check? :: events[i].now <= latest
    ensures Sorted(Admitted(events, choice))
    ensures forall i | 0 <= i < |Admitted(events, choice)| :: Admitted(events, choice)[i] <= latest
  {
    if events != [] {
      var n := |events| - 1;
      assert events == events[..n] + [events[n]];
      TimelyPrefix(q, events[..n], events[n]);
      forall i | 0 <= i < n && events[..n][i].Check?
        ensures events[..n][i].now <= if events[n].Check? then events[n].now else latest
      {
        assert KeepsPace(q, events[..n][i], events[n]);
      }
      AdmittedAreArrivals(q, events[..n], choice[..n], if events[n].Check? then events[n].now else latest);
    }
  }

  lemma NoneLater(q: Quota, events: seq<Event>, e: Event)
    requires Timely(q, events + [e]) && e.Check?
    ensures forall i | 0 <= i < |events| && events[i].Check? :: events[i].now <= e.now
  {
    TimelyPrefix(q, events, e);
    forall i | 0 <= i < |events| && events[i].Check? ensures events[i].now <= e.now {
      assert KeepsPace(q, events[i], e);
    }
  }

  ghost predicate Ahead(greedy: seq<int>, rival: seq<int>) {
    |rival| <= |greedy| && forall i | 0 <= i < |rival| :: greedy[i] <= rival[i]
  }

  /** If the limiter denies an arrival at which it is level with its rival, the rival has
      no room for it either. */
  lemma NoRoomForRival(q: Quota, greedy: seq<int>, rival: seq<int>, now: int)
    requires Ahead(greedy, rival) && |greedy| == |rival| && q.limit >= 1 && q.window > 0
    requires q.limit <= |greedy| && now < greedy[|greedy| - q.limit] + q.window
    requires Sorted(rival + [now])
    ensures !KeepsQuota(q, rival + [now])
  {
    var s := rival + [now];
    assert s[|rival|] == now;
    assert s[|s| - (q.limit + 1)] == rival[|rival| - q.limit];
    CountSuffix(s, now - q.window, now, q.limit + 1);
    assert !KeepsQuotaAt(q, s, now);
  }

  lemma {:induction false} StaysAhead(q: Quota, events: seq<Event>, choice: seq<bool>)
    requires q.window > 0 && Timely(q, events) && |choice| == |events|
    requires KeepsQuota(q, Admitted(events, choice))
    ensures Ahead(Stamps(Run(q, events).log), Admitted(events, choice))
  {
    if events != [] {
      var n := |events| - 1;
      var before, e := events[..n], events[n];
      assert events == before + [e];
      TimelyPrefix(q, before, e);
      var greedy, rival := Stamps(Run(q, before).log), Admitted(before, choice[..n]);
      var x := if e.Check? && choice[n] then [e.now] else [];
      assert Admitted(events, choice) == rival + x;
      KeepsQuotaPrefix(q, rival, x);
      StaysAhead(q, before, choice[..n]);
      if e.Check? {
        SortedStamps(q, before, e);
        NoneLater(q, before, e);
        AdmittedAreArrivals(q, events, choice, e.now);
        if Answer(q, Run(q, before).key, e.at, e.now).allowed {
          StampsGrow(Run(q, before).log, Accept(e.now, e.at, e.member));
        } else if choice[n] && |greedy| == |rival| {
          DeniedLeavesNoRoom(q, before, e, rival);
        }
      }
    }
  }

  lemma DeniedLeavesNoRoom(q: Quota, events: seq<Event>, e: Event, rival: seq<int>)
    requires q.window > 0 && e.Check? && Timely(q, events + [e])
    requires !Answer(q, Run(q, events).key, e.at, e.now).allowed
    requires Ahead(Stamps(Run(q, events).log), rival) && |rival| == |Run(q, events).log|
    requires Sorted(rival + [e.now])
    ensures !KeepsQuota(q, rival + [e.now])
  {
    if q.limit >= 1 {
      DeniedIffWindowFull(q, events, e);
      NoRoomForRival(q, Stamps(Run(q, events).log), rival, e.now);
    } else {
      NoRoomAtAll(q, rival, e.now);
    }
  }

  lemma NoRoomAtAll(q: Quota, rival: seq<int>, now: int)
    requires q.limit <= 0 && q.window > 0 && Sorted(rival + [now])
    ensures !KeepsQuota(q, rival + [now])
  {
    var s := rival + [now];
    assert s[|rival|] == now;
    CountSuffix(s, now - q.window, now, 1);
    assert !KeepsQuotaAt(q, s, now);
  }

  lemma {:induction false} KeepsQuotaAtPrefix(q: Quota, events: seq<Event>, choice: seq<bool>, n: nat)
    requires |choice| == |events| && n <= |events| && KeepsQuota(q, Admitted(events, choice))
    ensures KeepsQuota(q, Admitted(events[..n], choice[..n]))
    decreases |events|
  {
    if n == |events| {
      assert events[..n] == events && choice[..n] == choice;
    } else {
      var m := |events| - 1;
      KeepsQuotaPrefix(q, Admitted(events[..m], choice[..m]),
                       if events[m].Check? && choice[m] then [events[m].now] else []);
      KeepsQuotaAtPrefix(q, events[..m], choice[..m], n);
      assert events[..m][..n] == events[..n] && choice[..m][..n] == choice[..n];
    }
  }

  lemma AcceptKeepsQuotaAt(q: Quota, stamps: seq<int>, now: int, t: int)
    requires KeepsQuotaAt(q, stamps, t)
    requires t - q.window < now <= t ==> CountIn(stamps, t - q.window, t) < q.limit
    ensures KeepsQuotaAt(q, stamps + [now], t)
  {
    CountGrows(stamps, now, t - q.window, t);
  }

  /** One more accept keeps the quota in every window, because the request counted those
      of its own. */
  lemma AcceptKeepsQuota(q: Quota, stamps: seq<int>, now: int)
    requires KeepsQuota(q, stamps) && forall i | 0 <= i < |stamps| :: stamps[i] <= now
    requires CountIn(stamps, now - q.window, now) < q.limit
    ensures KeepsQuota(q, stamps + [now])
  {
    forall t ensures KeepsQuotaAt(q, stamps + [now], t) {
      assert KeepsQuotaAt(q, stamps, t);
      if t - q.window < now <= t {
        CountNarrows(stamps, t - q.window, now - q.window, t, now);
      }
      AcceptKeepsQuotaAt(q, stamps, now, t);
    }
  }

  /** Raising the lower end and cutting off above all stamps loses counted stamps only. */
  lemma {:induction false} CountNarrows(s: seq<int>, a: int, a': int, b: int, b': int)
    requires a' <= a && forall i | 0 <= i < |s| :: s[i] <= b'
    ensures CountIn(s, a, b) <= CountIn(s, a', b')
  {
    if s != [] {
      CountNarrows(s[..|s| - 1], a, a', b, b');
    }
  }

  lemma {:induction false} RunKeepsQuota(q: Quota, events: seq<Event>)
    requires q.window > 0 && Timely(q, events)
    ensures KeepsQuota(q, Stamps(Run(q, events).log))
  {
    if events == [] {
      forall t ensures KeepsQuotaAt(q, Stamps(Run(q, events).log), t) {
        assert Stamps(Run(q, events).log) == [];
      }
    } else {
      var n := |events| - 1;
      var before, e := events[..n], events[n];
      assert events == before + [e];
      TimelyPrefix(q, before, e);
      RunKeepsQuota(q, before);
      RunGrows(q, before, e);
      if e.Check? && Answer(q, Run(q, before).key, e.at, e.now).allowed {
        LogRefinement(q, before, e);
        SortedStamps(q, before, e);
        AcceptKeepsQuota(q, Stamps(Run(q, before).log), e.now);
        assert Stamps(Run(q, events).log) == Stamps(Run(q, before).log) + [e.now];
      }
    }
  }

  /** At every moment of every run the limiter has admitted at least as many requests as
      any policy that keeps the quota, even one that knows the future; and it keeps the
      quota itself. */
  lemma GreedyIsOptimal(q: Quota, events: seq<Event>, choice: seq<bool>, n: nat)
    requires q.window > 0 && Timely(q, events) && |choice| == |events| && n <= |events|
    requires KeepsQuota(q, Admitted(events, choice))
    ensures |Run(q, events[..n]).log| >= |Admitted(events[..n], choice[..n])|
    ensures KeepsQuota(q, Stamps(Run(q, events).log))
  {
    KeepsQuotaAtPrefix(q, events, choice, n);
    TimelyTake(q, events, n);
    StaysAhead(q, events[..n], choice[..n]);
    RunKeepsQuota(q, events);
  }
}
