/** The cache when nothing is evicted, entries vanish only when their TTL is over, and one
    clock stamps everything: it agrees with a plain list of everything ever stored. */
module SemanticCacheComplete {
  import opened Common
  import opened Cosine
  import opened SemanticCache
  import opened SemanticCacheProofs

  // ----- Order of the index -----

  ghost predicate Sorted(index: seq<Member>) {
    forall i, j | 0 <= i < j < |index| :: Before(index[i], index[j])
  }

  lemma SortedCons(m: Member, rest: seq<Member>)
    requires Sorted(rest) && forall x | x in rest :: Before(m, x)
    ensures Sorted([m] + rest)
  {
  }

  lemma HeadFirst(index: seq<Member>, x: Member)
    requires Sorted(index) && index != [] && x in index[1..]
    ensures Before(index[0], x)
  {
    var j :| 0 <= j < |index| - 1 && index[1..][j] == x;
    assert index[j + 1] == x;
  }

  lemma {:induction false} InsertKeepsSorted(index: seq<Member>, m: Member)
    requires Sorted(index) && forall x | x in index :: x.id != m.id
    ensures Sorted(Insert(index, m))
  {
    if index == [] || Before(m, index[0]) {
      forall x | x in index ensures Before(m, x) {
        if x != index[0] {
          assert index == [index[0]] + index[1..];
          HeadFirst(index, x);
        }
      }
      SortedCons(m, index);
    } else {
      InsertKeepsSorted(index[1..], m);
      forall x | x in Insert(index[1..], m) ensures Before(index[0], x) {
        InsertMembers(index[1..], m, x);
        if x != m {
          HeadFirst(index, x);
        }
      }
      SortedCons(index[0], Insert(index[1..], m));
    }
  }

  lemma {:induction false} YoungerKeepsSorted(index: seq<Member>, cutoff: int)
    requires Sorted(index)
    ensures Sorted(Younger(index, cutoff))
  {
    if index != [] {
      YoungerKeepsSorted(index[1..], cutoff);
      forall x | x in Younger(index[1..], cutoff) ensures Before(index[0], x) {
        YoungerMembers(index[1..], cutoff, x);
        HeadFirst(index, x);
      }
      SortedCons(index[0], Younger(index[1..], cutoff));
    }
  }

  lemma {:induction false} WithoutKeepsSorted(index: seq<Member>, ids: seq<Id>)
    requires Sorted(index)
    ensures Sorted(Without(index, ids))
  {
    if index != [] {
      WithoutKeepsSorted(index[1..], ids);
      forall x | x in Without(index[1..], ids) ensures Before(index[0], x) {
        WithoutMembers(index[1..], ids, x);
        HeadFirst(index, x);
      }
      SortedCons(index[0], Without(index[1..], ids));
    }
  }

  // ----- Runs without eviction -----

  function Ttl(c: Config): int {
    c.ttlSeconds * 1000
  }

  datatype Op =
    | StoreOp(id: Id, entry: Entry)
    | LookupOp(now: int)
    | ExpireOp(id: Id, at: int)

  function Time(op: Op): int {
    match op
    case StoreOp(_, e) => e.cachedAt
    case LookupOp(now) => now
    case ExpireOp(_, at) => at
  }

  /** Ids are new, and Redis drops an entry only when its time has come. */
  ghost predicate Proper(w: World, op: Op) {
    match op
    case StoreOp(id, _) => id !in w.log
    case LookupOp(_) => true
    case ExpireOp(id, at) => id in w.space.entries ==> w.space.entries[id].expiresAt <= at
  }

  function Apply(c: Config, w: World, op: Op): World {
    match op
    case StoreOp(id, e) => World(Store(c, w.space, id, e, e.cachedAt), w.log[id := e])
    case LookupOp(now) => w.(space := AfterLookup(c, w.space, now, now))
    case ExpireOp(id, at) => w.(space := w.space.(entries := w.space.entries - {id}))
  }

  /** The clock never goes back. */
  ghost predicate Timely(c: Config, w: World, clock: int, ops: seq<Op>)
    decreases |ops|
  {
    if ops == [] then true
    else
      && clock <= Time(ops[0]) && Proper(w, ops[0])
      && Timely(c, Apply(c, w, ops[0]), Time(ops[0]), ops[1..])
  }

  function ApplyAll(c: Config, w: World, ops: seq<Op>): World
    decreases |ops|
  {
    if ops == [] then w else ApplyAll(c, Apply(c, w, ops[0]), ops[1..])
  }

  function LastTime(clock: int, ops: seq<Op>): int {
    if ops == [] then clock else Time(ops[|ops| - 1])
  }

  // ----- Nothing live is ever missing -----

  predicate IsLive(c: Config, log: map<Id, Entry>, id: Id, now: int) {
    id in log && log[id].cachedAt > now - Ttl(c)
  }

  ghost predicate Available(c: Config, w: World, id: Id) {
    && id in w.log && Member(id, w.log[id].cachedAt) in w.space.index
    && id in w.space.entries
  }

  ghost predicate Deadlines(c: Config, w: World) {
    forall id | id in w.space.entries ::
      id in w.log && w.space.entries[id].expiresAt == w.log[id].cachedAt + Ttl(c)
  }

  ghost predicate NothingMissing(c: Config, w: World, clock: int) {
    forall id {:trigger Available(c, w, id)} | IsLive(c, w.log, id, clock) :: Available(c, w, id)
  }

  ghost predicate Complete(c: Config, w: World, clock: int) {
    Logged(w) && Sorted(w.space.index) && Deadlines(c, w) && NothingMissing(c, w, clock)
  }

  lemma StoreKeepsComplete(c: Config, w: World, clock: int, id: Id, e: Entry)
    requires Complete(c, w, clock) && clock <= e.cachedAt && id !in w.log
    ensures Complete(c, Apply(c, w, StoreOp(id, e)), e.cachedAt)
  {
    var w' := Apply(c, w, StoreOp(id, e));
    assert w' == Next(w, Put(id, e, e.cachedAt + Ttl(c)));
    NextKeepsLogged(w, Put(id, e, e.cachedAt + Ttl(c)));
    forall x | x in w.space.index ensures x.id != id {
      assert MemberLogged(w.log, x);
    }
    InsertKeepsSorted(w.space.index, Member(id, e.cachedAt));
    forall k | IsLive(c, w'.log, k, e.cachedAt) ensures Available(c, w', k) {
      InsertMembers(w.space.index, Member(id, e.cachedAt), Member(k, w'.log[k].cachedAt));
      if k != id {
        assert IsLive(c, w.log, k, clock);
        assert Available(c, w, k);
      }
    }
  }

  lemma StaleIsNotLive(c: Config, w: World, clock: int, now: int, id: Id)
    requires Complete(c, w, clock) && clock <= now
    requires id in StaleIds(Candidates(c, w.space, now), FetchAll(w.space.entries, Candidates(c, w.space, now), now))
    ensures !IsLive(c, w.log, id, now)
  {
    var members := Candidates(c, w.space, now);
    var raw := FetchAll(w.space.entries, members, now);
    StaleIff(members, raw, id);
    var i :| 0 <= i < |raw| && members[i].id == id && raw[i] == None;
    FetchedWhileLive(c, w, clock, now, id);
  }

  lemma FetchedWhileLive(c: Config, w: World, clock: int, now: int, id: Id)
    requires Complete(c, w, clock) && clock <= now
    ensures IsLive(c, w.log, id, now) ==> Fetch(w.space.entries, id, now) == Some(w.log[id])
  {
    if IsLive(c, w.log, id, now) {
      assert Available(c, w, id);
    }
  }

  lemma LookupKeepsComplete(c: Config, w: World, clock: int, now: int)
    requires Complete(c, w, clock) && clock <= now
    ensures Complete(c, Apply(c, w, LookupOp(now)), now)
  {
    var w' := Apply(c, w, LookupOp(now));
    var pruned := Next(w, Prune(Cutoff(c, now)));
    var members := Candidates(c, w.space, now);
    var stale := StaleIds(members, FetchAll(w.space.entries, members, now));
    assert w' == Next(pruned, Heal(stale));
    NextKeepsLogged(w, Prune(Cutoff(c, now)));
    NextKeepsLogged(pruned, Heal(stale));
    YoungerKeepsSorted(w.space.index, Cutoff(c, now));
    WithoutKeepsSorted(pruned.space.index, stale);
    forall id | IsLive(c, w'.log, id, now) ensures Available(c, w', id) {
      assert IsLive(c, w.log, id, clock);
      assert Available(c, w, id);
      var m := Member(id, w.log[id].cachedAt);
      YoungerMembers(w.space.index, Cutoff(c, now), m);
      WithoutMembers(pruned.space.index, stale, m);
      if id in stale {
        StaleIsNotLive(c, w, clock, now, id);
      }
    }
  }

  lemma ExpireKeepsComplete(c: Config, w: World, clock: int, id: Id, at: int)
    requires Complete(c, w, clock) && clock <= at && Proper(w, ExpireOp(id, at))
    ensures Complete(c, Apply(c, w, ExpireOp(id, at)), at)
  {
    var w' := Apply(c, w, ExpireOp(id, at));
    NextKeepsLogged(w, LoseEntry(id));
    assert w' == Next(w, LoseEntry(id));
    forall k | IsLive(c, w'.log, k, at) ensures Available(c, w', k) {
      assert IsLive(c, w.log, k, clock);
      assert Available(c, w, k);
    }
  }

  lemma {:induction false} CompleteAlways(c: Config, w: World, clock: int, ops: seq<Op>)
    requires Complete(c, w, clock) && Timely(c, w, clock, ops)
    ensures Complete(c, ApplyAll(c, w, ops), LastTime(clock, ops))
    decreases |ops|
  {
    if ops != [] {
      match ops[0] {
        case StoreOp(id, e) => StoreKeepsComplete(c, w, clock, id, e);
        case LookupOp(now) => LookupKeepsComplete(c, w, clock, now);
        case ExpireOp(id, at) => ExpireKeepsComplete(c, w, clock, id, at);
      }
      CompleteAlways(c, Apply(c, w, ops[0]), Time(ops[0]), ops[1..]);
    }
  }

  // ----- What a lookup answers -----

  /** The index a lookup lists holds the live stores and nothing else. */
  lemma ListedIffLive(c: Config, w: World, now: int, m: Member)
    requires Complete(c, w, now)
    ensures m in Younger(w.space.index, Cutoff(c, now))
            <==> IsLive(c, w.log, m.id, now) && m.score == w.log[m.id].cachedAt
  {
    YoungerMembers(w.space.index, Cutoff(c, now), m);
    if m in w.space.index {
      assert MemberLogged(w.log, m);
    }
    if IsLive(c, w.log, m.id, now) {
      assert Available(c, w, m.id);
    }
  }

  /** The order of the answers: later stores first, and among simultaneous ones the greater
      id. */
  predicate Newer(log: map<Id, Entry>, a: Id, b: Id)
    requires a in log && b in log
  {
    log[a].cachedAt > log[b].cachedAt || (log[a].cachedAt == log[b].cachedAt && a > b)
  }

  function NewerLive(c: Config, log: map<Id, Entry>, now: int, id: Id): set<Id>
    requires id in log
  {
    set other | other in log && IsLive(c, log, other, now) && Newer(log, other, id)
  }

  function LiveIds(c: Config, log: map<Id, Entry>, now: int): set<Id> {
    set id | id in log && IsLive(c, log, id, now)
  }

  /** How many stores a lookup considers: `maxCandidates`, but all for 0, and all but the
      oldest m for -m, because the range's end then counts from the end of the index. */
  function Cap(c: Config, log: map<Id, Entry>, now: int): int {
    if c.maxCandidates >= 1 then c.maxCandidates else |LiveIds(c, log, now)| + c.maxCandidates
  }

  /** A live store with fewer newer live ones than a lookup considers. */
  predicate IsConsidered(c: Config, log: map<Id, Entry>, id: Id, now: int) {
    IsLive(c, log, id, now) && |NewerLive(c, log, now, id)| < Cap(c, log, now)
  }

  /** Entry a is a better answer than b: it scores more, or as much and is newer. */
  ghost predicate Better(sqrt: real -> real, q: seq<real>, log: map<Id, Entry>, a: Id, b: Id)
    requires IsSqrt(sqrt) && a in log && b in log
  {
    var sa, sb := Similarity(sqrt, q, log[a].embedding), Similarity(sqrt, q, log[b].embedding);
    sa > sb || (sa == sb && Newer(log, a, b))
  }

  /** The answer a plain list of all stores gives: nothing when none of the considered ones
      reaches the threshold, and otherwise the best of them. */
  ghost predicate IsListAnswer(sqrt: real -> real, c: Config, q: seq<real>, log: map<Id, Entry>, now: int, r: Option<Hit>)
    requires IsSqrt(sqrt)
  {
    match r
    case None =>
      forall id | IsConsidered(c, log, id, now) :: Similarity(sqrt, q, log[id].embedding) < c.similarityThreshold
    case Some(hit) =>
      exists id :: IsConsidered(c, log, id, now)
        && hit == Hit(log[id].answer, Similarity(sqrt, q, log[id].embedding), log[id].cachedAt)
        && hit.score >= c.similarityThreshold
        && forall other | IsConsidered(c, log, other, now) && other != id :: Better(sqrt, q, log, id, other)
  }

  function IdsOf(members: seq<Member>): set<Id> {
    set m | m in members :: m.id
  }

  lemma IdsGrow(members: seq<Member>, m: Member)
    ensures IdsOf(members + [m]) == IdsOf(members) + {m.id}
  {
    forall id ensures id in IdsOf(members + [m]) <==> id in IdsOf(members) + {m.id} {
      if id in IdsOf(members) {
        var x :| x in members && x.id == id;
        assert x in members + [m];
      }
      assert m in members + [m];
    }
  }

  lemma LastIdIsNew(log: map<Id, Entry>, members: seq<Member>, m: Member)
    requires Sorted(members + [m]) && forall x | x in members + [m] :: MemberLogged(log, x)
    ensures m.id !in IdsOf(members)
  {
    forall i | 0 <= i < |members| ensures members[i].id != m.id {
      assert Before((members + [m])[i], (members + [m])[|members|]);
      assert members[i] in members + [m] && m in members + [m];
      assert MemberLogged(log, members[i]) && MemberLogged(log, m);
    }
  }

  /** In order and logged, no two members share an id. */
  lemma {:induction false} OneMemberPerId(log: map<Id, Entry>, members: seq<Member>)
    requires Sorted(members) && forall m | m in members :: MemberLogged(log, m)
    ensures |IdsOf(members)| == |members|
  {
    if members == [] {
      assert IdsOf(members) == {};
    } else {
      var n := |members| - 1;
      assert members == members[..n] + [members[n]];
      OneMemberPerId(log, members[..n]);
      LastIdIsNew(log, members[..n], members[n]);
      IdsGrow(members[..n], members[n]);
    }
  }

  /** In the pruned index, the members ahead of a store are the newer live ones. */
  lemma AheadAreNewer(c: Config, w: World, now: int, k: nat)
    requires Complete(c, w, now) && k < |Younger(w.space.index, Cutoff(c, now))|
    ensures var index := Younger(w.space.index, Cutoff(c, now));
            index[k].id in w.log && NewerLive(c, w.log, now, index[k].id) == IdsOf(index[..k])
  {
    var index := Younger(w.space.index, Cutoff(c, now));
    YoungerKeepsSorted(w.space.index, Cutoff(c, now));
    ListedIffLive(c, w, now, index[k]);
    forall id ensures id in NewerLive(c, w.log, now, index[k].id) <==> id in IdsOf(index[..k]) {
      if id in NewerLive(c, w.log, now, index[k].id) {
        var m := Member(id, w.log[id].cachedAt);
        ListedIffLive(c, w, now, m);
        var i :| 0 <= i < |index| && index[i] == m;
        assert !Before(index[k], index[i]);
        assert index[..k][i] == m;
      }
      if id in IdsOf(index[..k]) {
        var i :| 0 <= i < k && index[i].id == id;
        ListedIffLive(c, w, now, index[i]);
        assert Before(index[i], index[k]);
      }
    }
  }

  /** The pruned index has one member for each live store. */
  lemma IndexSize(c: Config, w: World, now: int)
    requires Complete(c, w, now)
    ensures |Younger(w.space.index, Cutoff(c, now))| == |LiveIds(c, w.log, now)|
  {
    var index := Younger(w.space.index, Cutoff(c, now));
    YoungerKeepsSorted(w.space.index, Cutoff(c, now));
    forall m | m in index ensures MemberLogged(w.log, m) && m.id in LiveIds(c, w.log, now) {
      ListedIffLive(c, w, now, m);
    }
    forall id | id in LiveIds(c, w.log, now) ensures id in IdsOf(index) {
      ListedIffLive(c, w, now, Member(id, w.log[id].cachedAt));
      assert Member(id, w.log[id].cachedAt).id in IdsOf(index);
    }
    OneMemberPerId(w.log, index);
    assert IdsOf(index) == LiveIds(c, w.log, now);
  }

  lemma AheadCount(c: Config, w: World, now: int, k: nat)
    requires Complete(c, w, now) && k < |Younger(w.space.index, Cutoff(c, now))|
    ensures var id := Younger(w.space.index, Cutoff(c, now))[k].id;
            IsLive(c, w.log, id, now) && |NewerLive(c, w.log, now, id)| == k
  {
    var index := Younger(w.space.index, Cutoff(c, now));
    YoungerKeepsSorted(w.space.index, Cutoff(c, now));
    ListedIffLive(c, w, now, index[k]);
    AheadAreNewer(c, w, now, k);
    forall m | m in index[..k] ensures MemberLogged(w.log, m) {
      ListedIffLive(c, w, now, m);
    }
    OneMemberPerId(w.log, index[..k]);
  }

  /** The candidates are the considered stores, for every setting of `maxCandidates`. */
  lemma CandidatesAreConsidered(c: Config, w: World, now: int, k: nat)
    requires Complete(c, w, now) && k < |Younger(w.space.index, Cutoff(c, now))|
    ensures var index := Younger(w.space.index, Cutoff(c, now));
            && (IsConsidered(c, w.log, index[k].id, now) <==> k < |Candidates(c, w.space, now)|)
            && (k < |Candidates(c, w.space, now)| ==> Candidates(c, w.space, now)[k] == index[k])
  {
    IndexSize(c, w, now);
    AheadCount(c, w, now, k);
  }

  /** The position of a considered store among the candidates. */
  lemma ConsideredIsCandidate(c: Config, w: World, now: int, id: Id) returns (i: nat)
    requires Complete(c, w, now) && IsConsidered(c, w.log, id, now)
    ensures i < |Candidates(c, w.space, now)|
    ensures Candidates(c, w.space, now)[i] == Member(id, w.log[id].cachedAt)
  {
    var m := Member(id, w.log[id].cachedAt);
    ListedIffLive(c, w, now, m);
    var index := Younger(w.space.index, Cutoff(c, now));
    i :| 0 <= i < |index| && index[i] == m;
    CandidatesAreConsidered(c, w, now, i);
  }

  lemma CandidateIsConsidered(c: Config, w: World, now: int, k: nat)
    requires Complete(c, w, now) && k < |Candidates(c, w.space, now)|
    ensures var m := Candidates(c, w.space, now)[k];
            IsConsidered(c, w.log, m.id, now) && m.score == w.log[m.id].cachedAt
            && Fetch(w.space.entries, m.id, now) == Some(w.log[m.id])
  {
    var m := Candidates(c, w.space, now)[k];
    assert m == Younger(w.space.index, Cutoff(c, now))[k];
    ListedIffLive(c, w, now, m);
    CandidatesAreConsidered(c, w, now, k);
    FetchedWhileLive(c, w, now, now, m.id);
  }

  lemma CandidatesSorted(c: Config, w: World, now: int)
    requires Complete(c, w, now)
    ensures Sorted(Candidates(c, w.space, now))
  {
    YoungerKeepsSorted(w.space.index, Cutoff(c, now));
  }

  lemma OtherIsWorse(sqrt: real -> real, c: Config, w: World, q: seq<real>, now: int, k: nat, best: Best, other: Id)
    requires IsSqrt(sqrt) && Complete(c, w, now)
    requires IsFirstBest(sqrt, q, FetchAll(w.space.entries, Candidates(c, w.space, now), now), k, best)
    requires IsConsidered(c, w.log, other, now) && other != Candidates(c, w.space, now)[k].id
    ensures Candidates(c, w.space, now)[k].id in w.log
    ensures Better(sqrt, q, w.log, Candidates(c, w.space, now)[k].id, other)
  {
    var members := Candidates(c, w.space, now);
    var raw := FetchAll(w.space.entries, members, now);
    CandidateIsConsidered(c, w, now, k);
    var i := ConsideredIsCandidate(c, w, now, other);
    FetchedWhileLive(c, w, now, now, other);
    assert raw[i] == Some(w.log[other]);
    assert Scores(sqrt, q, raw, i, best.score);
    CandidatesSorted(c, w, now);
    assert members[k] == Member(members[k].id, w.log[members[k].id].cachedAt);
    if k < i {
      assert Before(members[k], members[i]);
    }
  }

  lemma BestIsBetter(sqrt: real -> real, c: Config, w: World, q: seq<real>, now: int, k: nat)
    requires IsSqrt(sqrt) && Complete(c, w, now)
    requires var raw := FetchAll(w.space.entries, Candidates(c, w.space, now), now);
             BestOf(sqrt, q, raw) != None && IsFirstBest(sqrt, q, raw, k, BestOf(sqrt, q, raw).value)
    requires Lookup(sqrt, c, w.space, q, now, now) != None
    ensures IsListAnswer(sqrt, c, q, w.log, now, Lookup(sqrt, c, w.space, q, now, now))
  {
    var members := Candidates(c, w.space, now);
    var raw := FetchAll(w.space.entries, members, now);
    var best, id := BestOf(sqrt, q, raw).value, members[k].id;
    CandidateIsConsidered(c, w, now, k);
    assert raw[k] == Fetch(w.space.entries, id, now);
    forall other | IsConsidered(c, w.log, other, now) && other != id ensures Better(sqrt, q, w.log, id, other) {
      OtherIsWorse(sqrt, c, w, q, now, k, best, other);
    }
  }

  /** A lookup answers as the plain list does. */
  lemma LookupIsListAnswer(sqrt: real -> real, c: Config, w: World, q: seq<real>, now: int)
    requires IsSqrt(sqrt) && Complete(c, w, now)
    ensures IsListAnswer(sqrt, c, q, w.log, now, Lookup(sqrt, c, w.space, q, now, now))
  {
    var members := Candidates(c, w.space, now);
    var raw := FetchAll(w.space.entries, members, now);
    var k := BestIsArgmax(sqrt, q, raw);
    var best, r := BestOf(sqrt, q, raw), Lookup(sqrt, c, w.space, q, now, now);
    if r == None {
      forall id | IsConsidered(c, w.log, id, now)
        ensures Similarity(sqrt, q, w.log[id].embedding) < c.similarityThreshold
      {
        var i := ConsideredIsCandidate(c, w, now, id);
        FetchedWhileLive(c, w, now, now, id);
        assert raw[i] == Some(w.log[id]);
        assert Scores(sqrt, q, raw, i, best.value.score);
      }
    } else {
      BestIsBetter(sqrt, c, w, q, now, k);
    }
  }

  lemma StillComplete(c: Config, w: World, clock: int, now: int)
    requires Complete(c, w, clock) && clock <= now
    ensures Complete(c, w, now)
  {
    forall id | IsLive(c, w.log, id, now) ensures Available(c, w, id) {
      assert IsLive(c, w.log, id, clock);
    }
  }

  /** From an empty cache, after any run of stores, lookups and expiries, a lookup answers
      as the plain list of all stores does: the best of the newest `Cap` live ones, and a
      miss exactly when none of them reaches the threshold. */
  lemma CacheIsList(sqrt: real -> real, c: Config, clock: int, ops: seq<Op>, q: seq<real>, now: int)
    requires IsSqrt(sqrt)
    requires Timely(c, World(NO_SPACE, map[]), clock, ops) && LastTime(clock, ops) <= now
    ensures var w := ApplyAll(c, World(NO_SPACE, map[]), ops);
            IsListAnswer(sqrt, c, q, w.log, now, Lookup(sqrt, c, w.space, q, now, now))
  {
    var w := ApplyAll(c, World(NO_SPACE, map[]), ops);
    CompleteAlways(c, World(NO_SPACE, map[]), clock, ops);
    StillComplete(c, w, LastTime(clock, ops), now);
    LookupIsListAnswer(sqrt, c, w, q, now);
  }

  lemma SmallerSet(x: set<Id>, y: set<Id>)
    requires x <= y
    ensures |x| <= |y|
  {
    assert |y| == |x| + |y - x| by {
      assert y == x + (y - x);
    }
  }

  /** As long as at most `maxCandidates` stores are live, and always when that is 0, all
      of them are considered. */
  lemma FewAreAllConsidered(c: Config, log: map<Id, Entry>, id: Id, now: int)
    requires |LiveIds(c, log, now)| <= c.maxCandidates || c.maxCandidates == 0
    ensures IsConsidered(c, log, id, now) <==> IsLive(c, log, id, now)
  {
    if IsLive(c, log, id, now) {
      SmallerSet(NewerLive(c, log, now, id) + {id}, LiveIds(c, log, now));
      assert id !in NewerLive(c, log, now, id);
    }
  }

  // ----- Asking again -----

  /** A question asked again within the TTL, while its entry is still considered, is
      answered from the cache and never reaches the model, for any threshold up to 1. */
  lemma AskingAgainHits(sqrt: real -> real, c: Config, clock: int, ops: seq<Op>, id: Id, now: int)
    requires IsSqrt(sqrt) && c.similarityThreshold <= 1.0
    requires Timely(c, World(NO_SPACE, map[]), clock, ops) && LastTime(clock, ops) <= now
    requires var log := ApplyAll(c, World(NO_SPACE, map[]), ops).log;
             IsConsidered(c, log, id, now) && Nonzero(log[id].embedding)
    ensures var w := ApplyAll(c, World(NO_SPACE, map[]), ops);
            Lookup(sqrt, c, w.space, w.log[id].embedding, now, now).Some?
  {
    var w := ApplyAll(c, World(NO_SPACE, map[]), ops);
    CompleteAlways(c, World(NO_SPACE, map[]), clock, ops);
    StillComplete(c, w, LastTime(clock, ops), now);
    LookupIsListAnswer(sqrt, c, w, w.log[id].embedding, now);
    SelfSimilarity(sqrt, w.log[id].embedding);
  }
}
