/** What a cache hit, a miss and a repeated question mean, under evictions and without. */
module SemanticCacheProofs {
  import opened Common
  import opened Cosine
  import opened SemanticCache

  // ----- The scan is an argmax -----

  ghost predicate Scores(sqrt: real -> real, q: seq<real>, raw: seq<Option<Entry>>, i: nat, bound: real)
    requires IsSqrt(sqrt) && i < |raw|
  {
    raw[i].Some? ==> Similarity(sqrt, q, raw[i].value.embedding) <= bound
  }

  /** Entry k is fetched and has the best score; no entry scores more, and no entry before
      k scores as much. */
  ghost predicate IsFirstBest(sqrt: real -> real, q: seq<real>, raw: seq<Option<Entry>>, k: nat, best: Best)
    requires IsSqrt(sqrt)
  {
    && k < |raw| && raw[k] == Some(best.entry) && best.score == Similarity(sqrt, q, best.entry.embedding)
    && (forall i {:trigger Scores(sqrt, q, raw, i, best.score)} | 0 <= i < |raw| :: Scores(sqrt, q, raw, i, best.score))
    && (forall i | 0 <= i < k && raw[i].Some? :: Similarity(sqrt, q, raw[i].value.embedding) < best.score)
  }

  /** The scan finds nothing exactly when nothing was fetched, and otherwise the first
      entry with the best score. */
  lemma {:induction false} BestIsArgmax(sqrt: real -> real, q: seq<real>, raw: seq<Option<Entry>>) returns (k: nat)
    requires IsSqrt(sqrt)
    ensures BestOf(sqrt, q, raw) == None <==> forall i | 0 <= i < |raw| :: raw[i] == None
    ensures BestOf(sqrt, q, raw) != None ==> IsFirstBest(sqrt, q, raw, k, BestOf(sqrt, q, raw).value)
  {
    k := 0;
    if raw != [] {
      var n := |raw| - 1;
      k := BestIsArgmax(sqrt, q, raw[..n]);
      var before := BestOf(sqrt, q, raw[..n]);
      var best := BestOf(sqrt, q, raw);
      assert forall i | 0 <= i < n :: raw[..n][i] == raw[i];
      if best != None {
        if best != before {
          k := n;
        }
        forall i | 0 <= i < |raw| ensures Scores(sqrt, q, raw, i, best.value.score) {
          if i < n && before != None {
            assert Scores(sqrt, q, raw[..n], i, before.value.score);
          }
        }
        forall i | 0 <= i < k && raw[i].Some? ensures Similarity(sqrt, q, raw[i].value.embedding) < best.value.score {
          if best != before && before != None {
            assert Scores(sqrt, q, raw[..n], i, before.value.score);
          }
        }
      }
    }
  }

  // ----- Members of the index -----

  lemma {:induction false} YoungerMembers(index: seq<Member>, cutoff: int, m: Member)
    ensures m in Younger(index, cutoff) <==> m in index && m.score > cutoff
  {
    if index != [] {
      YoungerMembers(index[1..], cutoff, m);
      assert index == [index[0]] + index[1..];
    }
  }

  lemma {:induction false} WithoutMembers(index: seq<Member>, ids: seq<Id>, m: Member)
    ensures m in Without(index, ids) <==> m in index && m.id !in ids
  {
    if index != [] {
      WithoutMembers(index[1..], ids, m);
      assert index == [index[0]] + index[1..];
    }
  }

  lemma {:induction false} InsertMembers(index: seq<Member>, x: Member, m: Member)
    ensures m in Insert(index, x) <==> m == x || m in index
  {
    if index != [] && !Before(x, index[0]) {
      InsertMembers(index[1..], x, m);
      assert index == [index[0]] + index[1..];
    }
  }

  lemma RangeMembers(index: seq<Member>, stop: int, m: Member)
    ensures m in RevRange(index, stop) ==> m in index
  {
  }

  // ----- Soundness under interference and evictions -----

  /** The namespace, and every entry ever stored in it. */
  datatype World = World(space: Space, log: map<Id, Entry>)

  /** Atomic commands, of this and every other request, and losses: by expiry, eviction
      or otherwise, an entry or the whole index may vanish at any time. */
  datatype Move =
    | Put(id: Id, entry: Entry, expiresAt: int)
    | Prune(cutoff: int)
    | Heal(ids: seq<Id>)
    | LoseEntry(id: Id)
    | LoseIndex

  ghost predicate Enabled(w: World, m: Move) {
    m.Put? ==> m.id !in w.log
  }

  function Next(w: World, m: Move): World {
    match m
    case Put(id, e, expiresAt) =>
      World(Space(Insert(w.space.index, Member(id, e.cachedAt)), w.space.entries[id := Kept(e, expiresAt)]),
            w.log[id := e])
    case Prune(cutoff) => w.(space := w.space.(index := Younger(w.space.index, cutoff)))
    case Heal(ids) => w.(space := w.space.(index := Without(w.space.index, ids)))
    case LoseEntry(id) => w.(space := w.space.(entries := w.space.entries - {id}))
    case LoseIndex => w.(space := w.space.(index := []))
  }

  ghost predicate Possible(w: World, moves: seq<Move>)
    decreases |moves|
  {
    if moves == [] then true else Enabled(w, moves[0]) && Possible(Next(w, moves[0]), moves[1..])
  }

  function After(w: World, moves: seq<Move>): World
    decreases |moves|
  {
    if moves == [] then w else After(Next(w, moves[0]), moves[1..])
  }

  ghost predicate MemberLogged(log: map<Id, Entry>, m: Member) {
    m.id in log && log[m.id].cachedAt == m.score
  }

  ghost predicate IndexLogged(w: World) {
    forall m {:trigger MemberLogged(w.log, m)} | m in w.space.index :: MemberLogged(w.log, m)
  }

  ghost predicate EntriesLogged(w: World) {
    forall id | id in w.space.entries :: id in w.log && w.space.entries[id].entry == w.log[id]
  }

  ghost predicate Logged(w: World) {
    IndexLogged(w) && EntriesLogged(w)
  }

  ghost predicate AllYounger(index: seq<Member>, cutoff: int) {
    forall m | m in index :: m.score > cutoff
  }

  lemma NextMembers(w: World, move: Move, m: Member)
    requires m in Next(w, move).space.index
    ensures m in w.space.index || (move.Put? && m == Member(move.id, move.entry.cachedAt))
  {
    match move
    case Put(id, e, _) => InsertMembers(w.space.index, Member(id, e.cachedAt), m);
    case Prune(cutoff) => YoungerMembers(w.space.index, cutoff, m);
    case Heal(ids) => WithoutMembers(w.space.index, ids, m);
    case _ =>
  }

  lemma NextKeepsLogged(w: World, move: Move)
    requires Logged(w) && Enabled(w, move)
    ensures Logged(Next(w, move))
  {
    var w' := Next(w, move);
    forall m | m in w'.space.index ensures MemberLogged(w'.log, m) {
      NextMembers(w, move, m);
      if m in w.space.index {
        assert MemberLogged(w.log, m);
      }
    }
  }

  lemma {:induction false} LoggedAlways(w: World, moves: seq<Move>)
    requires Logged(w) && Possible(w, moves)
    ensures Logged(After(w, moves))
    ensures forall id | id in w.log :: id in After(w, moves).log && After(w, moves).log[id] == w.log[id]
    decreases |moves|
  {
    if moves != [] {
      NextKeepsLogged(w, moves[0]);
      LoggedAlways(Next(w, moves[0]), moves[1..]);
    }
  }

  /** The member is younger than the cutoff, or one of these moves put it. */
  ghost predicate IsFreshOrPut(m: Member, cutoff: int, moves: seq<Move>) {
    m.score > cutoff || exists i :: 0 <= i < |moves| && moves[i].Put? && moves[i].id == m.id
  }

  lemma {:induction false} FreshOrPut(w: World, moves: seq<Move>, cutoff: int, m: Member)
    requires AllYounger(w.space.index, cutoff) && m in After(w, moves).space.index
    ensures IsFreshOrPut(m, cutoff, moves)
    decreases |moves|
  {
    if moves != [] {
      var n := |moves| - 1;
      LastMove(w, moves);
      NextMembers(After(w, moves[..n]), moves[n], m);
      if m in After(w, moves[..n]).space.index {
        FreshOrPut(w, moves[..n], cutoff, m);
        assert forall i | 0 <= i < n :: moves[..n][i] == moves[i];
      }
    }
  }

  lemma {:induction false} LastMove(w: World, moves: seq<Move>)
    requires moves != []
    ensures After(w, moves) == Next(After(w, moves[..|moves| - 1]), moves[|moves| - 1])
    decreases |moves|
  {
    var n := |moves| - 1;
    if n > 0 {
      LastMove(Next(w, moves[0]), moves[1..]);
      assert moves[1..][..n - 1] == moves[..n][1..];
    }
  }

  /** A hit is an entry that was stored in this namespace, under the given id, and scores at
      least the threshold against the question. */
  ghost predicate IsHitOn(sqrt: real -> real, c: Config, q: seq<real>, log: map<Id, Entry>, id: Id, hit: Hit)
    requires IsSqrt(sqrt)
  {
    && id in log
    && hit == Hit(log[id].answer, Similarity(sqrt, q, log[id].embedding), log[id].cachedAt)
    && hit.score >= c.similarityThreshold
  }

  /** It is such a hit and younger than the TTL. */
  ghost predicate IsSoundHit(sqrt: real -> real, c: Config, q: seq<real>, cutoff: int, log: map<Id, Entry>, hit: Hit)
    requires IsSqrt(sqrt)
  {
    exists id :: IsHitOn(sqrt, c, q, log, id, hit) && hit.cachedAt > cutoff
  }

  lemma FetchedHitIsLogged(sqrt: real -> real, c: Config, q: seq<real>, w: World, members: seq<Member>, at: int)
    returns (k: nat)
    requires IsSqrt(sqrt) && EntriesLogged(w)
    ensures var hit := HitOf(c, BestOf(sqrt, q, FetchAll(w.space.entries, members, at)));
            hit.Some? ==> k < |members| && IsHitOn(sqrt, c, q, w.log, members[k].id, hit.value)
  {
    var raw := FetchAll(w.space.entries, members, at);
    k := BestIsArgmax(sqrt, q, raw);
    if HitOf(c, BestOf(sqrt, q, raw)).Some? {
      assert raw[k] == Fetch(w.space.entries, members[k].id, at);
      assert w.log[members[k].id] == w.space.entries[members[k].id].entry;
    }
  }

  function ListedBy(c: Config, start: World, cutoff: int, beforeList: seq<Move>): seq<Member> {
    RevRange(After(Next(start, Prune(cutoff)), beforeList).space.index, c.maxCandidates - 1)
  }

  /** What a lookup answers that prunes at `start`, lists after `beforeList` and fetches
      after `beforeFetch`. */
  ghost function InterleavedLookup(sqrt: real -> real, c: Config, q: seq<real>, cutoff: int, start: World,
                                   beforeList: seq<Move>, beforeFetch: seq<Move>, at: int): Option<Hit>
    requires IsSqrt(sqrt)
  {
    var fetched := After(After(Next(start, Prune(cutoff)), beforeList), beforeFetch);
    HitOf(c, BestOf(sqrt, q, FetchAll(fetched.space.entries, ListedBy(c, start, cutoff, beforeList), at)))
  }

  /** Whatever other requests do between the commands of a lookup, and whatever is lost at
      any time, a hit is a stored answer that scores at least the threshold; and it is
      younger than the TTL, or was itself stored between the lookup's prune and its list. */
  lemma HitsAreLogged(sqrt: real -> real, c: Config, q: seq<real>, cutoff: int, start: World,
                      beforeList: seq<Move>, beforeFetch: seq<Move>, at: int) returns (id: Id)
    requires IsSqrt(sqrt) && Logged(start)
    requires Possible(Next(start, Prune(cutoff)), beforeList)
    requires Possible(After(Next(start, Prune(cutoff)), beforeList), beforeFetch)
    ensures var log := After(After(Next(start, Prune(cutoff)), beforeList), beforeFetch).log;
            var hit := InterleavedLookup(sqrt, c, q, cutoff, start, beforeList, beforeFetch, at);
            hit.Some? ==>
              && IsHitOn(sqrt, c, q, log, id, hit.value)
              && (hit.value.cachedAt > cutoff
                  || exists i :: 0 <= i < |beforeList| && beforeList[i].Put? && beforeList[i].id == id)
  {
    var pruned := Next(start, Prune(cutoff));
    var listed := After(pruned, beforeList);
    var fetched := After(listed, beforeFetch);
    var members := ListedBy(c, start, cutoff, beforeList);
    NextKeepsLogged(start, Prune(cutoff));
    LoggedAlways(pruned, beforeList);
    LoggedAlways(listed, beforeFetch);
    var k := FetchedHitIsLogged(sqrt, c, q, fetched, members, at);
    id := if k < |members| then members[k].id else 0;
    if InterleavedLookup(sqrt, c, q, cutoff, start, beforeList, beforeFetch, at).Some? {
      RangeMembers(listed.space.index, c.maxCandidates - 1, members[k]);
      assert MemberLogged(listed.log, members[k]);
      PrunedIsYounger(start, cutoff);
      FreshOrPut(pruned, beforeList, cutoff, members[k]);
    }
  }

  lemma PrunedIsYounger(start: World, cutoff: int)
    ensures AllYounger(Next(start, Prune(cutoff)).space.index, cutoff)
  {
    forall m | m in Next(start, Prune(cutoff)).space.index ensures m.score > cutoff {
      YoungerMembers(start.space.index, cutoff, m);
    }
  }

  lemma {:induction false} PutIsLogged(w: World, moves: seq<Move>, i: nat)
    requires Logged(w) && Possible(w, moves) && i < |moves| && moves[i].Put?
    ensures moves[i].id in After(w, moves).log && After(w, moves).log[moves[i].id] == moves[i].entry
    decreases |moves|
  {
    NextKeepsLogged(w, moves[0]);
    if i == 0 {
      LoggedAlways(Next(w, moves[0]), moves[1..]);
    } else {
      PutIsLogged(Next(w, moves[0]), moves[1..], i - 1);
    }
  }

  /** So a hit is older than the TTL only if a store was stamped that long before it was
      executed. */
  lemma HitsAreSound(sqrt: real -> real, c: Config, q: seq<real>, cutoff: int, start: World,
                     beforeList: seq<Move>, beforeFetch: seq<Move>, at: int)
    requires IsSqrt(sqrt) && Logged(start)
    requires Possible(Next(start, Prune(cutoff)), beforeList)
    requires forall i | 0 <= i < |beforeList| && beforeList[i].Put? :: beforeList[i].entry.cachedAt > cutoff
    requires Possible(After(Next(start, Prune(cutoff)), beforeList), beforeFetch)
    ensures var log := After(After(Next(start, Prune(cutoff)), beforeList), beforeFetch).log;
            var hit := InterleavedLookup(sqrt, c, q, cutoff, start, beforeList, beforeFetch, at);
            hit.Some? ==> IsSoundHit(sqrt, c, q, cutoff, log, hit.value)
  {
    var hit := InterleavedLookup(sqrt, c, q, cutoff, start, beforeList, beforeFetch, at);
    var pruned := Next(start, Prune(cutoff));
    var listed := After(pruned, beforeList);
    var id := HitsAreLogged(sqrt, c, q, cutoff, start, beforeList, beforeFetch, at);
    if hit.Some? && hit.value.cachedAt <= cutoff {
      var i :| 0 <= i < |beforeList| && beforeList[i].Put? && beforeList[i].id == id;
      NextKeepsLogged(start, Prune(cutoff));
      PutIsLogged(pruned, beforeList, i);
      LoggedAlways(pruned, beforeList);
      LoggedAlways(listed, beforeFetch);
    }
  }

  /** Such a store does give an old hit: in an empty cache, it is executed between the
      prune and the list of a lookup that asks its own question. */
  lemma LateStoreIsOldHit(sqrt: real -> real, c: Config, id: Id, e: Entry, cutoff: int, expiresAt: int, at: int)
    requires IsSqrt(sqrt) && c.maxCandidates >= 1 && c.similarityThreshold <= 1.0
    requires Nonzero(e.embedding) && e.cachedAt <= cutoff && at <= expiresAt
    ensures Possible(Next(World(NO_SPACE, map[]), Prune(cutoff)), [Put(id, e, expiresAt)])
    ensures InterleavedLookup(sqrt, c, e.embedding, cutoff, World(NO_SPACE, map[]), [Put(id, e, expiresAt)], [], at)
            == Some(Hit(e.answer, 1.0, e.cachedAt))
  {
    var pruned, moves := Next(World(NO_SPACE, map[]), Prune(cutoff)), [Put(id, e, expiresAt)];
    assert moves[1..] == [];
    var listed := Next(pruned, moves[0]);
    assert After(pruned, moves) == After(listed, []) == listed;
    var members := [Member(id, e.cachedAt)];
    assert ListedBy(c, World(NO_SPACE, map[]), cutoff, moves) == members;
    var raw := FetchAll(listed.space.entries, members, at);
    assert raw == [Some(e)] && raw[..0] == [];
    SelfSimilarity(sqrt, e.embedding);
    assert BestOf(sqrt, e.embedding, raw) == Some(Best(e, 1.0));
    assert InterleavedLookup(sqrt, c, e.embedding, cutoff, World(NO_SPACE, map[]), moves, [], at)
           == HitOf(c, BestOf(sqrt, e.embedding, raw));
  }

  // ----- What a lookup leaves in the index -----

  lemma {:induction false} StaleIff(members: seq<Member>, raw: seq<Option<Entry>>, id: Id)
    requires |members| == |raw|
    ensures id in StaleIds(members, raw) <==> exists i :: 0 <= i < |raw| && members[i].id == id && raw[i] == None
  {
    if raw != [] {
      var n := |raw| - 1;
      StaleIff(members[..n], raw[..n], id);
      assert forall i | 0 <= i < n :: members[..n][i] == members[i] && raw[..n][i] == raw[i];
    }
  }

  /** The member was listed by the lookup, and its entry is gone. */
  ghost predicate IsListedAndGone(c: Config, s: Space, now: int, at: int, id: Id) {
    && (exists m :: m in Candidates(c, s, now) && m.id == id)
    && (id !in s.entries || s.entries[id].expiresAt < at)
  }

  /** After a lookup the index holds exactly the members it held that are younger than the
      TTL and were not listed with their entry gone; the entries are as before. */
  lemma IndexIsHealed(c: Config, s: Space, now: int, at: int, m: Member)
    ensures m in AfterLookup(c, s, now, at).index <==>
              m in s.index && m.score > now - c.ttlSeconds * 1000 && !IsListedAndGone(c, s, now, at, m.id)
    ensures AfterLookup(c, s, now, at).entries == s.entries
  {
    var members := Candidates(c, s, now);
    var raw := FetchAll(s.entries, members, at);
    YoungerMembers(s.index, Cutoff(c, now), m);
    WithoutMembers(Younger(s.index, Cutoff(c, now)), StaleIds(members, raw), m);
    StaleIff(members, raw, m.id);
    if i :| 0 <= i < |raw| && members[i].id == m.id && raw[i] == None {
      assert members[i] in members;
    }
    if IsListedAndGone(c, s, now, at, m.id) {
      var x :| x in members && x.id == m.id;
      var i :| 0 <= i < |members| && members[i] == x;
      assert raw[i] == None;
    }
  }

  /** Without interference this is the lookup of the service. */
  lemma LookupAlone(sqrt: real -> real, c: Config, q: seq<real>, start: World, now: int, at: int)
    requires IsSqrt(sqrt)
    ensures InterleavedLookup(sqrt, c, q, Cutoff(c, now), start, [], [], at) == Lookup(sqrt, c, start.space, q, now, at)
  {
    var pruned := Next(start, Prune(Cutoff(c, now)));
    assert After(pruned, []) == pruned;
    assert ListedBy(c, start, Cutoff(c, now), []) == Candidates(c, start.space, now);
  }
}
