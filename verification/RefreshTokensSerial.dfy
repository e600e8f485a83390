/** Refresh tokens when every service call runs as one step: each family is one chain
    with at most one live token, a token is exchanged at most once, reuse kills a family
    for good, and issuance stops for deactivated users and idle families. */
module RefreshTokensSerial {
  import opened Common
  import opened RefreshTokens

  // ----- Runs -----

  /** New families and tokens are new. */
  ghost predicate Fresh(db: Db, call: Call) {
    match call
    case Register(_, f, minted, _) => f !in db.chains && minted !in db.table
    case Login(_, _, f, minted, _) => f !in db.chains && minted !in db.table
    case Refresh(presented, minted, _) => minted !in db.table && minted != presented
    case _ => true
  }

  ghost predicate Admissible(ttl: int, db: Db, calls: seq<Call>)
    decreases |calls|
  {
    if calls == [] then true
    else Fresh(db, calls[0]) && Admissible(ttl, Step(ttl, db, calls[0]), calls[1..])
  }

  function Run(ttl: int, db: Db, calls: seq<Call>): Db
    decreases |calls|
  {
    if calls == [] then db else Run(ttl, Step(ttl, db, calls[0]), calls[1..])
  }

  // ----- The invariant -----

  /** The tokens c are rows of family f, all of one user. */
  ghost predicate RowsOf(table: map<Token, Row>, f: Family, c: seq<Token>) {
    && (forall i | 0 <= i < |c| :: c[i] in table && table[c[i]].family == f)
    && (forall i | 0 <= i < |c| :: table[c[i]].userId == table[c[0]].userId)
  }

  /** Each but the last is revoked and points to the next one; the last points nowhere. */
  ghost predicate Linked(table: map<Token, Row>, f: Family, c: seq<Token>)
    requires c != [] && RowsOf(table, f, c)
  {
    && (forall i | 0 <= i < |c| - 1 :: table[c[i]].revoked && table[c[i]].replacedBy == Some(c[i + 1]))
    && table[c[|c| - 1]].replacedBy == None
  }

  ghost predicate Distinct(c: seq<Token>) {
    forall i, j | 0 <= i < |c| && 0 <= j < |c| && c[i] == c[j] :: i == j
  }

  /** The rows of family f, all of them, are the acyclic chain c of successors. */
  ghost predicate IsChain(table: map<Token, Row>, f: Family, c: seq<Token>) {
    && c != [] && RowsOf(table, f, c) && Linked(table, f, c) && Distinct(c)
    && (forall t | t in table && table[t].family == f :: t in c)
  }

  ghost predicate AllChains(db: Db) {
    forall f {:trigger IsChain(db.table, f, db.chains[f])} | f in db.chains :: IsChain(db.table, f, db.chains[f])
  }

  ghost predicate RowsKnown(db: Db) {
    forall t | t in db.table :: db.table[t].family in db.chains && db.table[t].userId in db.users
  }

  ghost predicate ExchangedOnce(db: Db) {
    && Distinct(db.exchanged)
    && forall i | 0 <= i < |db.exchanged| ::
         db.exchanged[i] in db.table && db.table[db.exchanged[i]].revoked
         && db.table[db.exchanged[i]].replacedBy.Some?
  }

  ghost predicate Inv(db: Db) {
    AllChains(db) && RowsKnown(db) && ExchangedOnce(db)
  }

  // ----- Every statement keeps it -----

  /** Same rows, except that some are now revoked. */
  ghost predicate OnlyRevokes(before: map<Token, Row>, after: map<Token, Row>) {
    && after.Keys == before.Keys
    && forall t | t in before :: after[t] == before[t] || after[t] == before[t].(revoked := true)
  }

  lemma RevokingKeepsChain(before: map<Token, Row>, after: map<Token, Row>, f: Family, c: seq<Token>)
    requires OnlyRevokes(before, after) && IsChain(before, f, c)
    ensures IsChain(after, f, c)
  {
  }

  lemma RevokingKeepsExchanged(db: Db, db': Db)
    requires ExchangedOnce(db) && db'.exchanged == db.exchanged && OnlyRevokes(db.table, db'.table)
    ensures ExchangedOnce(db')
  {
  }

  lemma RevokingKeepsKnown(db: Db, db': Db)
    requires RowsKnown(db) && db'.chains == db.chains && db.users.Keys <= db'.users.Keys
    requires OnlyRevokes(db.table, db'.table)
    ensures RowsKnown(db')
  {
  }

  lemma RevokingKeepsInv(db: Db, db': Db)
    requires Inv(db) && db'.chains == db.chains && db'.exchanged == db.exchanged && db.users.Keys <= db'.users.Keys
    requires OnlyRevokes(db.table, db'.table)
    ensures Inv(db')
  {
    RevokingKeepsExchanged(db, db');
    RevokingKeepsKnown(db, db');
    forall f | f in db'.chains ensures IsChain(db'.table, f, db'.chains[f]) {
      assert IsChain(db.table, f, db.chains[f]);
      RevokingKeepsChain(db.table, db'.table, f, db.chains[f]);
    }
  }

  /** A row of another family is no concern of a chain. */
  lemma OtherRowKeepsChain(table: map<Token, Row>, f: Family, c: seq<Token>, t: Token, row: Row)
    requires IsChain(table, f, c) && row.family != f
    requires t in table ==> table[t].family != f
    ensures IsChain(table[t := row], f, c)
  {
  }

  lemma IssueKeepsInv(db: Db, u: UserId, f: Family, minted: Token, expiresAt: int)
    requires Inv(db) && u in db.users && f !in db.chains && minted !in db.table
    ensures Inv(Issue(db, u, f, minted, expiresAt))
  {
    var db' := Issue(db, u, f, minted, expiresAt);
    forall g | g in db'.chains ensures IsChain(db'.table, g, db'.chains[g]) {
      if g != f {
        assert IsChain(db.table, g, db.chains[g]);
        OtherRowKeepsChain(db.table, g, db.chains[g], minted, db'.table[minted]);
      }
    }
  }

  lemma ChainGrows(table: map<Token, Row>, f: Family, c: seq<Token>, minted: Token, expiresAt: int)
    requires IsChain(table, f, c) && minted !in table
    ensures var tip := table[c[|c| - 1]];
            IsChain(table[c[|c| - 1] := tip.(revoked := true, replacedBy := Some(minted))]
                         [minted := Row(tip.userId, f, false, None, expiresAt)],
                    f, c + [minted])
  {
  }

  lemma LinkAt(table: map<Token, Row>, f: Family, c: seq<Token>, i: nat)
    requires IsChain(table, f, c) && i < |c|
    ensures table[c[i]].replacedBy == if i + 1 < |c| then Some(c[i + 1]) else None
  {
    if i + 1 < |c| {
      assert table[c[i]].replacedBy == Some(c[i + 1]);
    }
  }

  lemma NoSuccessorIsTip(db: Db, t: Token)
    requires Inv(db) && t in db.table && db.table[t].replacedBy == None
    ensures var c := db.chains[db.table[t].family]; c != [] && t == c[|c| - 1]
  {
    var c := db.chains[db.table[t].family];
    assert IsChain(db.table, db.table[t].family, c);
    var i :| 0 <= i < |c| && c[i] == t;
    LinkAt(db.table, db.table[t].family, c, i);
  }

  lemma UnrevokedHasNoSuccessor(db: Db, t: Token)
    requires Inv(db) && t in db.table && !db.table[t].revoked
    ensures db.table[t].replacedBy == None
  {
    var c := db.chains[db.table[t].family];
    assert IsChain(db.table, db.table[t].family, c);
    var i :| 0 <= i < |c| && c[i] == t;
  }

  lemma ReplaceKeepsChains(db: Db, used: Token, minted: Token, expiresAt: int)
    requires Inv(db) && used in db.table && minted !in db.table
    requires db.table[used].replacedBy == None
    ensures AllChains(Replace(db, used, minted, expiresAt))
  {
    var db' := Replace(db, used, minted, expiresAt);
    var f := db.table[used].family;
    NoSuccessorIsTip(db, used);
    forall g | g in db'.chains ensures IsChain(db'.table, g, db'.chains[g]) {
      assert IsChain(db.table, g, db.chains[g]);
      if g == f {
        ChainGrows(db.table, f, db.chains[f], minted, expiresAt);
      } else {
        OtherRowKeepsChain(db.table, g, db.chains[g], used, db'.table[used]);
        OtherRowKeepsChain(db.table[used := db'.table[used]], g, db.chains[g], minted, db'.table[minted]);
      }
    }
  }

  /** Rotation keeps the invariant whenever the row it replaces has no successor yet. */
  lemma ReplaceKeepsInv(db: Db, used: Token, minted: Token, expiresAt: int)
    requires Inv(db) && used in db.table && minted !in db.table
    requires db.table[used].replacedBy == None
    ensures Inv(Replace(db, used, minted, expiresAt))
  {
    ReplaceKeepsChains(db, used, minted, expiresAt);
  }

  lemma RefreshKeepsInv(ttl: int, db: Db, presented: Token, minted: Token, now: int)
    requires Inv(db) && Fresh(db, Refresh(presented, minted, now))
    ensures Inv(Step(ttl, db, Refresh(presented, minted, now)))
  {
    if Verdict(db, presented, now) == None {
      UnrevokedHasNoSuccessor(db, presented);
      ReplaceKeepsInv(db, presented, minted, now + ttl);
    } else if Verdict(db, presented, now) == Some(ReuseDetected) {
      RevokingKeepsInv(db, RevokeFamily(db, db.table[presented].family));
    }
  }

  lemma IssuingKeepsInv(ttl: int, db: Db, call: Call)
    requires Inv(db) && Fresh(db, call) && (call.Register? || call.Login?)
    ensures Inv(Step(ttl, db, call))
  {
    if call.Register? && call.u !in db.users {
      var db1 := db.(users := db.users[call.u := true]);
      RevokingKeepsInv(db, db1);
      IssueKeepsInv(db1, call.u, call.family, call.minted, call.now + ttl);
    } else if call.Login? && LoginCheck(db, call.u, call.passwordMatches) == None {
      IssueKeepsInv(db, call.u, call.family, call.minted, call.now + ttl);
    }
  }

  lemma StepKeepsInv(ttl: int, db: Db, call: Call)
    requires Inv(db) && Fresh(db, call)
    ensures Inv(Step(ttl, db, call))
  {
    if call.Register? || call.Login? {
      IssuingKeepsInv(ttl, db, call);
    } else if call.Refresh? {
      RefreshKeepsInv(ttl, db, call.presented, call.minted, call.now);
    } else {
      RevokingKeepsInv(db, Step(ttl, db, call));
    }
  }

  lemma {:induction false} RunKeepsInv(ttl: int, db: Db, calls: seq<Call>)
    requires Inv(db) && Admissible(ttl, db, calls)
    ensures Inv(Run(ttl, db, calls))
    decreases |calls|
  {
    if calls != [] {
      StepKeepsInv(ttl, db, calls[0]);
      RunKeepsInv(ttl, Step(ttl, db, calls[0]), calls[1..]);
    }
  }

  // ----- What a step may do -----

  /** Rows stay, with their user, family and expiry, and never become unrevoked. */
  ghost predicate RowsKept(before: map<Token, Row>, after: map<Token, Row>) {
    forall t | t in before ::
      && t in after
      && after[t].userId == before[t].userId && after[t].family == before[t].family
      && after[t].expiresAt == before[t].expiresAt
      && (before[t].revoked ==> after[t].revoked)
  }

  predicate ReadsClock(call: Call) {
    call.Register? || call.Login? || call.Refresh?
  }

  function Time(call: Call): int
    requires ReadsClock(call)
  {
    match call
    case Register(_, _, _, at) => at
    case Login(_, _, _, _, at) => at
    case Refresh(_, _, at) => at
  }

  /** What it takes to create a row, which expires one TTL later: an account that is active,
      and either a registration or a login with the right password, which open a family of
      their own, or an unrevoked, unexpired token of the family. */
  ghost predicate Earned(ttl: int, db: Db, db': Db, call: Call, row: Row) {
    && IsActive(db', row.userId)
    && ReadsClock(call) && row.expiresAt == Time(call) + ttl
    && ((row.family !in db.chains && !call.Refresh? && (call.Login? ==> call.passwordMatches)) ||
        (call.Refresh? && call.presented in db.table && !db.table[call.presented].revoked
         && call.now <= db.table[call.presented].expiresAt
         && row.family == db.table[call.presented].family
         && row.userId == db.table[call.presented].userId))
  }

  lemma EveryRowIsEarned(ttl: int, db: Db, call: Call)
    requires Fresh(db, call)
    ensures RowsKept(db.table, Step(ttl, db, call).table)
    ensures forall t | t in Step(ttl, db, call).table && t !in db.table ::
              Earned(ttl, db, Step(ttl, db, call), call, Step(ttl, db, call).table[t])
  {
  }

  lemma NewRowIsEarned(ttl: int, db: Db, call: Call, t: Token)
    requires Fresh(db, call) && t in Step(ttl, db, call).table
    ensures t in db.table || Earned(ttl, db, Step(ttl, db, call), call, Step(ttl, db, call).table[t])
  {
    EveryRowIsEarned(ttl, db, call);
  }

  /** A family's chain starts with its login row and grows exactly when one of its tokens
      is rotated. */
  lemma ChainsOnlyGrow(ttl: int, db: Db, call: Call, f: Family)
    requires Inv(db) && Fresh(db, call) && f in db.chains
    ensures f in Step(ttl, db, call).chains && db.chains[f] <= Step(ttl, db, call).chains[f]
    ensures Step(ttl, db, call).chains[f] ==
            if call.Refresh? && OutcomeOf(db, call).Issued? && db.table[call.presented].family == f
            then db.chains[f] + [call.minted] else db.chains[f]
  {
  }

  // ----- Family chains -----

  /** In every reachable state the rows of each family form one acyclic chain of
      successors that starts at the login row; every row belongs to such a chain; and no
      two tokens of a family are live. */
  lemma FamiliesAreChains(ttl: int, calls: seq<Call>)
    requires Admissible(ttl, EMPTY, calls)
    ensures var db := Run(ttl, EMPTY, calls);
            && (forall f | f in db.chains :: IsChain(db.table, f, db.chains[f]))
            && (forall t | t in db.table :: db.table[t].family in db.chains)
            && (forall s, t | s in db.table && t in db.table && db.table[s].family == db.table[t].family
                  && !db.table[s].revoked && !db.table[t].revoked :: s == t)
  {
    RunKeepsInv(ttl, EMPTY, calls);
    var db := Run(ttl, EMPTY, calls);
    forall s, t | s in db.table && t in db.table && db.table[s].family == db.table[t].family
      && !db.table[s].revoked && !db.table[t].revoked
      ensures s == t
    {
      UnrevokedHasNoSuccessor(db, s);
      UnrevokedHasNoSuccessor(db, t);
      NoSuccessorIsTip(db, s);
      NoSuccessorIsTip(db, t);
    }
  }

  // ----- Reuse -----

  ghost predicate Dead(db: Db, f: Family) {
    forall t | t in db.table && db.table[t].family == f :: db.table[t].revoked
  }

  lemma StepKeepsDead(ttl: int, db: Db, call: Call, f: Family)
    requires Inv(db) && Fresh(db, call) && Dead(db, f) && f in db.chains
    ensures Dead(Step(ttl, db, call), f) && f in Step(ttl, db, call).chains
    ensures Step(ttl, db, call).chains[f] == db.chains[f]
  {
    EveryRowIsEarned(ttl, db, call);
    ChainsOnlyGrow(ttl, db, call, f);
    var db' := Step(ttl, db, call);
    forall t | t in db'.table && db'.table[t].family == f ensures db'.table[t].revoked {
      NewRowIsEarned(ttl, db, call, t);
    }
  }

  /** No later run issues from a dead family again. */
  lemma {:induction false} DeadForever(ttl: int, db: Db, calls: seq<Call>, f: Family)
    requires Inv(db) && Dead(db, f) && f in db.chains && Admissible(ttl, db, calls)
    ensures Dead(Run(ttl, db, calls), f) && f in Run(ttl, db, calls).chains
    ensures Run(ttl, db, calls).chains[f] == db.chains[f]
    decreases |calls|
  {
    if calls != [] {
      StepKeepsInv(ttl, db, calls[0]);
      StepKeepsDead(ttl, db, calls[0], f);
      DeadForever(ttl, Step(ttl, db, calls[0]), calls[1..], f);
    }
  }

  /** Presenting a token that was exchanged before is refused as a reuse, leaves no live
      row in its family and changes no other family. */
  lemma ReuseKillsFamily(ttl: int, db: Db, replay: Call)
    requires Inv(db) && replay.Refresh? && replay.presented in db.exchanged
    ensures replay.presented in db.table
    ensures OutcomeOf(db, replay) == ReuseDetected
    ensures var f, killed := db.table[replay.presented].family, Step(ttl, db, replay);
            && f in db.chains && Dead(killed, f) && killed.table.Keys == db.table.Keys
            && forall t | t in db.table && db.table[t].family != f :: killed.table[t] == db.table[t]
  {
  }

  /** The tokens that a run exchanged: those presented in the rotations that succeeded. */
  function Exchanges(ttl: int, db: Db, calls: seq<Call>): seq<Token>
    decreases |calls|
  {
    if calls == [] then []
    else Exchange(db, calls[0]) + Exchanges(ttl, Step(ttl, db, calls[0]), calls[1..])
  }

  function Exchange(db: Db, call: Call): seq<Token> {
    if call.Refresh? && OutcomeOf(db, call).Issued? then [call.presented] else []
  }

  lemma ExchangeIsKept(ttl: int, db: Db, call: Call)
    ensures Step(ttl, db, call).exchanged == db.exchanged + Exchange(db, call)
  {
  }

  lemma {:induction false} ExchangesAreKept(ttl: int, db: Db, calls: seq<Call>)
    ensures Run(ttl, db, calls).exchanged == db.exchanged + Exchanges(ttl, db, calls)
    decreases |calls|
  {
    if calls != [] {
      var next := Step(ttl, db, calls[0]);
      ExchangeIsKept(ttl, db, calls[0]);
      ExchangesAreKept(ttl, next, calls[1..]);
      assert Run(ttl, db, calls).exchanged == next.exchanged + Exchanges(ttl, next, calls[1..]);
    }
  }

  lemma ReplayKills(ttl: int, db: Db, replay: Call, later: seq<Call>)
    requires Inv(db) && replay.Refresh? && replay.presented in db.exchanged && Fresh(db, replay)
    requires Admissible(ttl, Step(ttl, db, replay), later)
    ensures OutcomeOf(db, replay) == ReuseDetected && replay.presented in db.table
    ensures var f, end := db.table[replay.presented].family, Run(ttl, Step(ttl, db, replay), later);
            Dead(end, f) && f in db.chains && f in end.chains && end.chains[f] == db.chains[f]
  {
    ReuseKillsFamily(ttl, db, replay);
    StepKeepsInv(ttl, db, replay);
    DeadForever(ttl, Step(ttl, db, replay), later, db.table[replay.presented].family);
  }

  /** Each refresh token is exchanged successfully at most once in any run. Once it has
      been, whoever presents it, however much later, kills its family, and nothing is ever
      issued from that family again, whatever follows. */
  lemma ReuseKillsForever(ttl: int, calls: seq<Call>, replay: Call, later: seq<Call>)
    requires Admissible(ttl, EMPTY, calls)
    requires replay.Refresh? && replay.presented in Exchanges(ttl, EMPTY, calls)
    requires Fresh(Run(ttl, EMPTY, calls), replay)
    requires Admissible(ttl, Step(ttl, Run(ttl, EMPTY, calls), replay), later)
    ensures var db := Run(ttl, EMPTY, calls);
            && Distinct(Exchanges(ttl, EMPTY, calls))
            && OutcomeOf(db, replay) == ReuseDetected
            && replay.presented in db.table
            && var f, end := db.table[replay.presented].family, Run(ttl, Step(ttl, db, replay), later);
               Dead(end, f) && f in db.chains && f in end.chains && end.chains[f] == db.chains[f]
  {
    var db := Run(ttl, EMPTY, calls);
    RunKeepsInv(ttl, EMPTY, calls);
    assert db.exchanged == Exchanges(ttl, EMPTY, calls) by {
      ExchangesAreKept(ttl, EMPTY, calls);
    }
    ReplayKills(ttl, db, replay, later);
  }

  // ----- Which sessions a call ends -----

  function ReuseIf(ended: bool, otherwise: Outcome): Outcome {
    if ended then ReuseDetected else otherwise
  }

  /** A token just issued works until it expires. */
  function IssuedAt(ttl: int, issued: int, probe: Call): Outcome
    requires probe.Refresh?
  {
    if probe.now <= issued + ttl then Issued(probe.minted) else Expired
  }

  /** Logging out ends the session of that token, logging out everywhere those of the user,
      and nobody else's: every other token is answered as before. */
  lemma LogoutEndsItsSessions(ttl: int, db: Db, call: Call, probe: Call)
    requires (call.Logout? || call.LogoutAll?) && probe.Refresh?
    ensures var t := probe.presented;
            OutcomeOf(Step(ttl, db, call), probe) ==
            ReuseIf(t in db.table && (if call.Logout? then t == call.token else db.table[t].userId == call.u),
                    OutcomeOf(db, probe))
  {
  }

  /** Deactivating a user turns what would have been issued to them into a refusal, and
      changes no other answer. */
  lemma DeactivationRefusesItsUser(ttl: int, db: Db, u: UserId, probe: Call)
    requires probe.Refresh?
    ensures OutcomeOf(Step(ttl, db, Deactivate(u)), probe) ==
            if OutcomeOf(db, probe).Issued? && db.table[probe.presented].userId == u then AccountDisabled
            else OutcomeOf(db, probe)
  {
  }

  /** A login or registration opens one session, and a rotation hands its session over to
      the new token; a refused one ends the family if it was a reuse and nothing
      otherwise. Every other token is answered as before. */
  lemma IssuingMovesOneSession(ttl: int, db: Db, call: Call, probe: Call)
    requires Inv(db) && Fresh(db, call) && probe.Refresh?
    requires ReadsClock(call)
    ensures var t, after := probe.presented, OutcomeOf(Step(ttl, db, call), probe);
            match OutcomeOf(db, call)
            case Issued(minted) =>
              after == if t == minted then IssuedAt(ttl, Time(call), probe)
                       else ReuseIf(call.Refresh? && t == call.presented, OutcomeOf(db, probe))
            case ReuseDetected =>
              after == ReuseIf(t in db.table && db.table[t].family == db.table[call.presented].family,
                               OutcomeOf(db, probe))
            case _ => after == OutcomeOf(db, probe)
  {
  }

  // ----- Where issuance stops -----

  function TokensOf(db: Db, u: UserId): set<Token> {
    set t | t in db.table && db.table[t].userId == u
  }

  ghost predicate Disabled(db: Db, u: UserId) {
    u in db.users && !db.users[u]
  }

  lemma StepKeepsDisabled(ttl: int, db: Db, call: Call, u: UserId)
    requires Fresh(db, call) && Disabled(db, u)
    ensures Disabled(Step(ttl, db, call), u)
    ensures TokensOf(Step(ttl, db, call), u) == TokensOf(db, u)
  {
    EveryRowIsEarned(ttl, db, call);
    var db' := Step(ttl, db, call);
    forall t | t in db'.table && t !in db.table ensures db'.table[t].userId != u {
      NewRowIsEarned(ttl, db, call, t);
    }
  }

  /** After a user is deactivated, no run ever creates a refresh row for them. */
  lemma {:induction false} DeactivatedGetNothing(ttl: int, db: Db, calls: seq<Call>, u: UserId)
    requires Disabled(db, u) && Admissible(ttl, db, calls)
    ensures Disabled(Run(ttl, db, calls), u)
    ensures TokensOf(Run(ttl, db, calls), u) == TokensOf(db, u)
    decreases |calls|
  {
    if calls != [] {
      StepKeepsDisabled(ttl, db, calls[0], u);
      DeactivatedGetNothing(ttl, Step(ttl, db, calls[0]), calls[1..], u);
    }
  }

  /** The call does not read the clock, or reads it no earlier than `now`. */
  ghost predicate NotBefore(now: int, call: Call) {
    ReadsClock(call) ==> now <= Time(call)
  }

  /** Every row of the family expired before `now`, as when its last issue lies further
      back than the refresh TTL. */
  ghost predicate Idle(db: Db, f: Family, now: int) {
    f in db.chains && forall t | t in db.table && db.table[t].family == f :: db.table[t].expiresAt < now
  }

  lemma StepKeepsIdle(ttl: int, db: Db, call: Call, f: Family, now: int)
    requires Inv(db) && Fresh(db, call) && Idle(db, f, now) && NotBefore(now, call)
    ensures Idle(Step(ttl, db, call), f, now)
    ensures Step(ttl, db, call).chains[f] == db.chains[f]
  {
    EveryRowIsEarned(ttl, db, call);
    ChainsOnlyGrow(ttl, db, call, f);
    var db' := Step(ttl, db, call);
    forall t | t in db'.table && db'.table[t].family == f ensures db'.table[t].expiresAt < now {
      NewRowIsEarned(ttl, db, call, t);
    }
  }

  /** A family idle for longer than the refresh TTL can never be refreshed. */
  lemma {:induction false} IdleForever(ttl: int, db: Db, calls: seq<Call>, f: Family, now: int)
    requires Inv(db) && Idle(db, f, now) && Admissible(ttl, db, calls)
    requires forall i | 0 <= i < |calls| :: NotBefore(now, calls[i])
    ensures Idle(Run(ttl, db, calls), f, now)
    ensures Run(ttl, db, calls).chains[f] == db.chains[f]
    decreases |calls|
  {
    if calls != [] {
      assert NotBefore(now, calls[0]);
      StepKeepsInv(ttl, db, calls[0]);
      StepKeepsIdle(ttl, db, calls[0], f, now);
      IdleForever(ttl, Step(ttl, db, calls[0]), calls[1..], f, now);
    }
  }


  // ----- Every call's answer and effect -----

  /** A login issues if and only if the account exists, is active and the password matches;
      it then adds one live row of that user in a family of its own. Otherwise nothing
      changes, and "account disabled" is the answer exactly for a disabled account. */
  lemma LoginIssuesIff(ttl: int, db: Db, u: UserId, passwordMatches: bool, f: Family, minted: Token, now: int)
    requires f !in db.chains && minted !in db.table
    ensures var call := Login(u, passwordMatches, f, minted, now);
            var issues, after := u in db.users && db.users[u] && passwordMatches, Step(ttl, db, call);
            && (OutcomeOf(db, call) == Issued(minted) <==> issues)
            && (OutcomeOf(db, call) == AccountDisabled <==> u in db.users && !db.users[u])
            && (OutcomeOf(db, call) == InvalidCredentials <==>
                  u !in db.users || (db.users[u] && !passwordMatches))
            && after.users == db.users
            && after.table == if issues then db.table[minted := Row(u, f, false, None, now + ttl)] else db.table
  {
  }

  /** A registration issues if and only if the address is free. */
  lemma RegistrationIssuesIff(ttl: int, db: Db, u: UserId, f: Family, minted: Token, now: int)
    requires f !in db.chains && minted !in db.table
    ensures var call := Register(u, f, minted, now);
            var after := Step(ttl, db, call);
            && (OutcomeOf(db, call) == Issued(minted) <==> u !in db.users)
            && (OutcomeOf(db, call) == EmailTaken <==> u in db.users)
            && (u in db.users ==> after == db)
            && (u !in db.users ==>
                  && after.users == db.users[u := true]
                  && after.table == db.table[minted := Row(u, f, false, None, now + ttl)])
  {
  }

  /** A rotation issues if and only if the token is known, not revoked, not expired, and
      its user active; reuse goes before expiry, and expiry before the account. It writes
      the two rows of an exchange, or revokes the family of a reuse, or nothing. */
  lemma RotationIssuesIff(ttl: int, db: Db, t: Token, minted: Token, now: int)
    requires RowsKnown(db) && minted !in db.table && t != minted
    ensures var call := Refresh(t, minted, now);
            var answer, after := OutcomeOf(db, call), Step(ttl, db, call);
            && after.users == db.users
            && (answer == InvalidToken <==> t !in db.table)
            && (t !in db.table ==> after.table == db.table)
            && (t in db.table ==>
                  var row := db.table[t];
                  && (answer == ReuseDetected <==> row.revoked)
                  && (answer == Expired <==> !row.revoked && row.expiresAt < now)
                  && (answer == AccountDisabled <==> !row.revoked && now <= row.expiresAt && !db.users[row.userId])
                  && (answer == Issued(minted) <==> !row.revoked && now <= row.expiresAt && db.users[row.userId])
                  && (answer == Issued(minted) ==>
                        after.table == db.table[t := Row(row.userId, row.family, true, Some(minted), row.expiresAt)]
                                               [minted := Row(row.userId, row.family, false, None, now + ttl)])
                  && (answer == ReuseDetected ==>
                        after.table.Keys == db.table.Keys
                        && forall x | x in db.table :: after.table[x] ==
                             if db.table[x].family == row.family then db.table[x].(revoked := true) else db.table[x])
                  && (answer != Issued(minted) && answer != ReuseDetected ==> after.table == db.table))
  {
  }

  /** Logging out revokes that row, logging out everywhere the user's rows, and nothing
      else; deactivation writes the user's `isActive` and nothing else. */
  lemma ClosingWritesOnly(ttl: int, db: Db, t: Token, u: UserId)
    ensures var one, all := Step(ttl, db, Logout(t)), Step(ttl, db, LogoutAll(u));
            && one.users == all.users == db.users && one.table.Keys == all.table.Keys == db.table.Keys
            && (forall x | x in db.table ::
                  && one.table[x] == (if x == t then db.table[x].(revoked := true) else db.table[x])
                  && all.table[x] == (if db.table[x].userId == u then db.table[x].(revoked := true) else db.table[x]))
    ensures OutcomeOf(db, Logout(t)) == OutcomeOf(db, LogoutAll(u)) == Done
    ensures var off := Step(ttl, db, Deactivate(u));
            && off.table == db.table
            && (OutcomeOf(db, Deactivate(u)) == UnknownUser <==> u !in db.users)
            && off.users == if u in db.users then db.users[u := false] else db.users
  {
  }
}
