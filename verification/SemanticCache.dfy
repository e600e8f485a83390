/** The semantic cache of one namespace on plain Redis: a ZSET of entry ids by store time
    and one expiring string per entry, kept apart per namespace. */
module SemanticCache {
  import opened Common
  import opened Cosine

  type Id = nat

  datatype Entry = Entry(query: string, answer: string, embedding: seq<real>, cachedAt: int)

  /** A member of the index. Ids stand for random UUIDs with their lexicographic order. */
  datatype Member = Member(id: Id, score: int)

  /** An entry string and the time after which Redis no longer shows it. */
  datatype Kept = Kept(entry: Entry, expiresAt: int)

  /** The index newest first, as `ZREVRANGE` lists it, and the entry strings. */
  datatype Space = Space(index: seq<Member>, entries: map<Id, Kept>)

  const NO_SPACE := Space([], map[])

  datatype Config = Config(ttlSeconds: int, similarityThreshold: real, maxCandidates: int)

  datatype Hit = Hit(answer: string, score: real, cachedAt: int)

  /** `ZREVRANGE` order: higher scores first, and equal scores by descending member. */
  predicate Before(a: Member, b: Member) {
    a.score > b.score || (a.score == b.score && a.id > b.id)
  }

  /** `ZADD` of a new member. */
  function Insert(index: seq<Member>, m: Member): seq<Member> {
    if index == [] || Before(m, index[0]) then [m] + index
    else [index[0]] + Insert(index[1..], m)
  }

  /** `ZREMRANGEBYSCORE -inf cutoff`. */
  function Younger(index: seq<Member>, cutoff: int): seq<Member> {
    if index == [] then []
    else (if index[0].score > cutoff then [index[0]] else []) + Younger(index[1..], cutoff)
  }

  /** `ZREM` of the given ids. */
  function Without(index: seq<Member>, ids: seq<Id>): seq<Member> {
    if index == [] then []
    else (if index[0].id in ids then [] else [index[0]]) + Without(index[1..], ids)
  }

  /** `ZREVRANGE index 0 stop`; a negative stop counts from the end. */
  function RevRange(index: seq<Member>, stop: int): seq<Member> {
    var last := if stop < 0 then |index| + stop else stop;
    if last < 0 then [] else if last >= |index| then index else index[..last + 1]
  }

  /** What `MGET` shows of an entry. */
  function Fetch(entries: map<Id, Kept>, id: Id, at: int): Option<Entry> {
    if id in entries && at <= entries[id].expiresAt then Some(entries[id].entry) else None
  }

  function FetchAll(entries: map<Id, Kept>, members: seq<Member>, at: int): (r: seq<Option<Entry>>)
    ensures |r| == |members|
    ensures forall i | 0 <= i < |members| :: r[i] == Fetch(entries, members[i].id, at)
  {
    seq(|members|, i requires 0 <= i < |members| => Fetch(entries, members[i].id, at))
  }

  // ----- Key names -----

  /** The index of a namespace. */
  function IndexKey(namespace: string): string {
    "semcache:index:" + namespace
  }

  /** The entry of a namespace with a given UUID, as text. */
  function EntryKey(namespace: string, uuid: string): string {
    "semcache:entry:" + namespace + ":" + uuid
  }

  lemma LastColon(x: string, s: string, y: string, t: string)
    requires ':' !in s && ':' !in t && x + ":" + s == y + ":" + t
    ensures x == y && s == t
  {
    var whole := x + ":" + s;
    ColonIsLast(x, s, whole);
    ColonIsLast(y, t, whole);
    assert x == whole[..|x|] && y == whole[..|y|];
    assert s == whole[|x| + 1..] && t == whole[|y| + 1..];
  }

  lemma ColonIsLast(x: string, s: string, whole: string)
    requires ':' !in s && whole == x + ":" + s
    ensures |x| < |whole| && whole[|x|] == ':'
    ensures forall k | |x| < k < |whole| :: whole[k] != ':'
  {
    forall k | |x| < k < |whole| ensures whole[k] != ':' {
      assert whole[k] == s[k - |x| - 1];
    }
  }

  /** Namespaces cannot touch each other's indexes or entries, whatever they are called,
      because no UUID contains a colon; and no index is an entry. */
  lemma CacheKeysAreInjective(ns: string, id: string, ns': string, id': string)
    requires ':' !in id && ':' !in id'
    ensures IndexKey(ns) == IndexKey(ns') <==> ns == ns'
    ensures EntryKey(ns, id) == EntryKey(ns', id') <==> ns == ns' && id == id'
    ensures IndexKey(ns) != EntryKey(ns', id')
  {
    var p := |"semcache:index:"|;
    assert IndexKey(ns)[p..] == ns && IndexKey(ns')[p..] == ns';
    assert EntryKey(ns, id)[p..] == ns + ":" + id && EntryKey(ns', id')[p..] == ns' + ":" + id';
    if EntryKey(ns, id) == EntryKey(ns', id') {
      LastColon(ns, id, ns', id');
    }
    assert IndexKey(ns)[9] == 'i' && EntryKey(ns', id')[9] == 'e';
  }

  // ----- The scan -----

  datatype Best = Best(entry: Entry, score: real)

  /** The best of the fetched entries, the first one among equals. */
  ghost function BestOf(sqrt: real -> real, q: seq<real>, raw: seq<Option<Entry>>): Option<Best>
    requires IsSqrt(sqrt)
  {
    if raw == [] then None
    else
      var n := |raw| - 1;
      var best := BestOf(sqrt, q, raw[..n]);
      if raw[n] == None then best
      else
        var score := Similarity(sqrt, q, raw[n].value.embedding);
        if best == None || score > best.value.score then Some(Best(raw[n].value, score)) else best
  }

  /** The ids whose entry is gone. */
  function StaleIds(members: seq<Member>, raw: seq<Option<Entry>>): seq<Id>
    requires |members| == |raw|
  {
    if raw == [] then []
    else
      var n := |raw| - 1;
      StaleIds(members[..n], raw[..n]) + if raw[n] == None then [members[n].id] else []
  }

  ghost function HitOf(c: Config, best: Option<Best>): Option<Hit> {
    if best == None || best.value.score < c.similarityThreshold then None
    else Some(Hit(best.value.entry.answer, best.value.score, best.value.entry.cachedAt))
  }

  // ----- Lookups and stores without interference -----

  function Cutoff(c: Config, now: int): int {
    now - c.ttlSeconds * 1000
  }

  function Candidates(c: Config, s: Space, now: int): seq<Member> {
    RevRange(Younger(s.index, Cutoff(c, now)), c.maxCandidates - 1)
  }

  ghost function Lookup(sqrt: real -> real, c: Config, s: Space, q: seq<real>, now: int, at: int): Option<Hit>
    requires IsSqrt(sqrt)
  {
    HitOf(c, BestOf(sqrt, q, FetchAll(s.entries, Candidates(c, s, now), at)))
  }

  function AfterLookup(c: Config, s: Space, now: int, at: int): Space {
    var index, members := Younger(s.index, Cutoff(c, now)), Candidates(c, s, now);
    s.(index := Without(index, StaleIds(members, FetchAll(s.entries, members, at))))
  }

  function Store(c: Config, s: Space, id: Id, e: Entry, at: int): Space {
    Space(Insert(s.index, Member(id, e.cachedAt)), s.entries[id := Kept(e, at + c.ttlSeconds * 1000)])
  }

  // ----- The services -----

  /** The Redis server, as far as the cache uses it: keys of different names do not meet, so
      each namespace has an index and entries of its own. */
  class Redis {
    var index: map<string, seq<Member>>
    var entries: map<string, map<Id, Kept>>

    function At(namespace: string): Space
      reads this
    {
      Space(if namespace in index then index[namespace] else [],
            if namespace in entries then entries[namespace] else map[])
    }

    constructor ()
      ensures forall ns :: At(ns) == NO_SPACE
    {
      index, entries := map[], map[];
    }

    method ZRemRangeByScore(namespace: string, cutoff: int)
      modifies this
      ensures At(namespace) == old(At(namespace)).(index := Younger(old(At(namespace)).index, cutoff))
      ensures forall ns | ns != namespace :: At(ns) == old(At(ns))
    {
      index := index[namespace := Younger(At(namespace).index, cutoff)];
    }

    method ZRem(namespace: string, ids: seq<Id>)
      modifies this
      ensures At(namespace) == old(At(namespace)).(index := Without(old(At(namespace)).index, ids))
      ensures forall ns | ns != namespace :: At(ns) == old(At(ns))
    {
      index := index[namespace := Without(At(namespace).index, ids)];
    }

    /** `MULTI`: the entry string with its expiry, and the index member. */
    method SetAndZAdd(namespace: string, id: Id, e: Entry, expiresAt: int)
      modifies this
      ensures At(namespace) == Space(Insert(old(At(namespace)).index, Member(id, e.cachedAt)),
                                     old(At(namespace)).entries[id := Kept(e, expiresAt)])
      ensures forall ns | ns != namespace :: At(ns) == old(At(ns))
    {
      var s := At(namespace);
      entries := entries[namespace := s.entries[id := Kept(e, expiresAt)]];
      index := index[namespace := Insert(s.index, Member(id, e.cachedAt))];
    }
  }

  lemma {:induction false} WithoutNothing(index: seq<Member>)
    ensures Without(index, []) == index
  {
    if index != [] {
      WithoutNothing(index[1..]);
    }
  }

  class RedisSemanticCacheService {
    const redis: Redis
    const config: Config
    const sqrt: real -> real

    constructor (redis: Redis, config: Config, sqrt: real -> real)
      ensures this.redis == redis && this.config == config && this.sqrt == sqrt
    {
      this.redis, this.config, this.sqrt := redis, config, sqrt;
    }

    /** The scan over what `MGET` returned. */
    method ScanCandidates(q: seq<real>, candidates: seq<Member>, raw: seq<Option<Entry>>)
      returns (best: Option<Best>, staleIds: seq<Id>)
      requires IsSqrt(sqrt) && |candidates| == |raw|
      ensures best == BestOf(sqrt, q, raw)
      ensures staleIds == StaleIds(candidates, raw)
    {
      best, staleIds := None, [];
      for i := 0 to |raw|
        invariant best == BestOf(sqrt, q, raw[..i])
        invariant staleIds == StaleIds(candidates[..i], raw[..i])
      {
        assert raw[..i + 1][..i] == raw[..i] && candidates[..i + 1][..i] == candidates[..i];
        if raw[i] == None {
          staleIds := staleIds + [candidates[i].id];
        } else {
          var score := CosineSimilarity(sqrt, q, raw[i].value.embedding);
          if best == None || score > best.value.score {
            best := Some(Best(raw[i].value, score));
          }
        }
      }
      assert raw[..|raw|] == raw && candidates[..|raw|] == candidates;
    }

    /** Prune, list the candidates, fetch them, keep the best, heal the index. */
    method LookupBest(namespace: string, q: seq<real>, now: int, at: int) returns (hit: Option<Hit>)
      requires IsSqrt(sqrt)
      modifies redis
      ensures hit == Lookup(sqrt, config, old(redis.At(namespace)), q, now, at)
      ensures redis.At(namespace) == AfterLookup(config, old(redis.At(namespace)), now, at)
      ensures forall ns | ns != namespace :: redis.At(ns) == old(redis.At(ns))
    {
      redis.ZRemRangeByScore(namespace, now - config.ttlSeconds * 1000);
      assert redis.At(namespace).index == Younger(old(redis.At(namespace)).index, Cutoff(config, now));
      WithoutNothing(redis.At(namespace).index);
      var candidates := RevRange(redis.At(namespace).index, config.maxCandidates - 1);
      if candidates == [] {
        return None;
      }
      var raw := FetchAll(redis.At(namespace).entries, candidates, at);
      var best, staleIds := ScanCandidates(q, candidates, raw);
      if |staleIds| > 0 {
        redis.ZRem(namespace, staleIds);
      }
      if best == None || best.value.score < config.similarityThreshold {
        return None;
      }
      return Some(Hit(best.value.entry.answer, best.value.score, best.value.entry.cachedAt));
    }

    method StoreAnswer(namespace: string, id: Id, query: string, answer: string, embedding: seq<real>, now: int, at: int)
      modifies redis
      ensures redis.At(namespace) ==
              Store(config, old(redis.At(namespace)), id, Entry(query, answer, embedding, now), at)
      ensures forall ns | ns != namespace :: redis.At(ns) == old(redis.At(ns))
    {
      redis.SetAndZAdd(namespace, id, Entry(query, answer, embedding, now), at + config.ttlSeconds * 1000);
    }
  }

  const CACHE_NAMESPACE := "policy-qa"

  datatype QaAnswer = QaAnswer(answer: string, cacheHit: bool)

  class QaService {
    const cache: RedisSemanticCacheService

    constructor (cache: RedisSemanticCacheService)
      ensures this.cache == cache
    {
      this.cache := cache;
    }

    /** `llmAnswer` is what the model would say; it is used, and stored, only on a miss. */
    method Ask(question: string, embedding: seq<real>, llmAnswer: string, id: Id, now: int, later: int)
      returns (r: QaAnswer)
      requires IsSqrt(cache.sqrt)
      modifies cache.redis
      ensures var s := old(cache.redis.At(CACHE_NAMESPACE));
              var hit := Lookup(cache.sqrt, cache.config, s, embedding, now, now);
              var s' := AfterLookup(cache.config, s, now, now);
              && r == (if hit.Some? then QaAnswer(hit.value.answer, true) else QaAnswer(llmAnswer, false))
              && cache.redis.At(CACHE_NAMESPACE) ==
                 if hit.Some? then s'
                 else Store(cache.config, s', id, Entry(question, llmAnswer, embedding, later), later)
    {
      var cached := cache.LookupBest(CACHE_NAMESPACE, embedding, now, now);
      if cached.Some? {
        return QaAnswer(cached.value.answer, true);
      }
      cache.StoreAnswer(CACHE_NAMESPACE, id, question, llmAnswer, embedding, later, later);
      return QaAnswer(llmAnswer, false);
    }
  }
}
