/** Refresh tokens when calls overlap. A rotation is a read followed, at any later time,
    by its transaction, which does not look at `revoked` again; killing a family after a
    reuse and creating a row after a login are later writes as well. What still holds is
    proved here, and where the serial guarantees stop. */
module RefreshTokensInterleaved {
  import opened Common
  import opened RefreshTokens
  import Serial = RefreshTokensSerial

  type Op = nat

  /** What a call has decided and still has to write. */
  datatype Pending =
    | Rotating(token: Token, family: Family)
    | Killing(family: Family)
    | LoggingIn(u: UserId)

  datatype System = System(db: Db, pending: map<Op, Pending>)

  const START := System(EMPTY, map[])

  datatype Move =
    | CreateUser(op: Op, u: UserId)
    | LoginRead(op: Op, u: UserId, passwordMatches: bool)
    | LoginWrite(op: Op, family: Family, minted: Token, expiresAt: int)
    | RefreshRead(op: Op, presented: Token, now: int)
    | RefreshWrite(op: Op, minted: Token, expiresAt: int)
    | KillWrite(op: Op)
    | Crash(op: Op)
    | LogoutMove(token: Token)
    | LogoutAllMove(u: UserId)
    | DeactivateMove(u: UserId)

  /** A move is possible when its operation is at that point and what it creates is new. */
  ghost predicate Enabled(s: System, m: Move) {
    match m
    case CreateUser(op, _) => op !in s.pending
    case LoginRead(op, _, _) => op !in s.pending
    case LoginWrite(op, f, minted, _) =>
      op in s.pending && s.pending[op].LoggingIn? && f !in s.db.chains && minted !in s.db.table
    case RefreshRead(op, _, _) => op !in s.pending
    case RefreshWrite(op, minted, _) =>
      op in s.pending && s.pending[op].Rotating? && s.pending[op].token in s.db.table && minted !in s.db.table
    case KillWrite(op) => op in s.pending && s.pending[op].Killing?
    case _ => true
  }

  function Next(s: System, m: Move): System
    requires m.RefreshWrite? ==> m.op in s.pending && s.pending[m.op].Rotating? && s.pending[m.op].token in s.db.table
    requires m.KillWrite? ==> m.op in s.pending && s.pending[m.op].Killing?
    requires m.LoginWrite? ==> m.op in s.pending && s.pending[m.op].LoggingIn?
  {
    match m
    case CreateUser(op, u) =>
      if u in s.db.users then s else System(s.db.(users := s.db.users[u := true]), s.pending[op := LoggingIn(u)])
    case LoginRead(op, u, ok) =>
      if LoginCheck(s.db, u, ok).Some? then s else s.(pending := s.pending[op := LoggingIn(u)])
    case LoginWrite(op, f, minted, expiresAt) =>
      System(Issue(s.db, s.pending[op].u, f, minted, expiresAt), s.pending - {op})
    case RefreshRead(op, presented, now) =>
      (match Verdict(s.db, presented, now)
       case None => s.(pending := s.pending[op := Rotating(presented, s.db.table[presented].family)])
       case Some(ReuseDetected) => s.(pending := s.pending[op := Killing(s.db.table[presented].family)])
       case Some(_) => s)
    case RefreshWrite(op, minted, expiresAt) =>
      System(Replace(s.db, s.pending[op].token, minted, expiresAt), s.pending - {op})
    case KillWrite(op) => System(RevokeFamily(s.db, s.pending[op].family), s.pending - {op})
    case Crash(op) => s.(pending := s.pending - {op})
    case LogoutMove(token) => s.(db := RevokeToken(s.db, token))
    case LogoutAllMove(u) => s.(db := RevokeAllForUser(s.db, u))
    case DeactivateMove(u) => if u in s.db.users then s.(db := s.db.(users := s.db.users[u := false])) else s
  }

  ghost predicate Possible(s: System, moves: seq<Move>)
    decreases |moves|
  {
    if moves == [] then true
    else Enabled(s, moves[0]) && Possible(Next(s, moves[0]), moves[1..])
  }

  ghost function After(s: System, moves: seq<Move>): System
    requires Possible(s, moves)
    decreases |moves|
  {
    if moves == [] then s else After(Next(s, moves[0]), moves[1..])
  }

  // ----- What every interleaving keeps -----

  ghost predicate PendingMatches(s: System, op: Op) {
    op in s.pending && s.pending[op].Rotating? ==>
      s.pending[op].token in s.db.table && s.db.table[s.pending[op].token].family == s.pending[op].family
  }

  /** Every row's family is known, its rows have one user, and pending rotations name rows. */
  ghost predicate Sound(s: System) {
    && (forall t | t in s.db.table :: s.db.table[t].family in s.db.chains)
    && (forall t, v | t in s.db.table && v in s.db.table && s.db.table[t].family == s.db.table[v].family ::
          s.db.table[t].userId == s.db.table[v].userId)
    && (forall op | op in s.pending :: PendingMatches(s, op))
  }

  lemma MoveKeepsSound(s: System, m: Move)
    requires Sound(s) && Enabled(s, m)
    ensures Sound(Next(s, m))
  {
    var s' := Next(s, m);
    forall op | op in s'.pending ensures PendingMatches(s', op) {
      assert op in s.pending ==> PendingMatches(s, op);
    }
  }

  lemma {:induction false} SoundAlways(s: System, moves: seq<Move>)
    requires Sound(s) && Possible(s, moves)
    ensures Sound(After(s, moves))
    decreases |moves|
  {
    if moves != [] {
      MoveKeepsSound(s, moves[0]);
      SoundAlways(Next(s, moves[0]), moves[1..]);
    }
  }

  /** `revoked` never goes back to false. */
  lemma {:induction false} RevokedStays(s: System, moves: seq<Move>, t: Token)
    requires Possible(s, moves) && t in s.db.table && s.db.table[t].revoked
    ensures t in After(s, moves).db.table && After(s, moves).db.table[t].revoked
    decreases |moves|
  {
    if moves != [] {
      RevokedStays(Next(s, moves[0]), moves[1..], t);
    }
  }

  // ----- When a dead family stays dead -----

  ghost predicate Quiescent(s: System, f: Family) {
    forall op | op in s.pending :: !(s.pending[op].Rotating? && s.pending[op].family == f)
  }

  ghost predicate Gone(s: System, f: Family) {
    f in s.db.chains && Serial.Dead(s.db, f) && Quiescent(s, f)
  }

  lemma MoveKeepsGone(s: System, m: Move, f: Family)
    requires Sound(s) && Enabled(s, m) && Gone(s, f)
    ensures Gone(Next(s, m), f)
    ensures Next(s, m).db.chains[f] == s.db.chains[f]
  {
    if m.RefreshWrite? {
      assert PendingMatches(s, m.op);
    }
  }

  lemma {:induction false} GoneForever(s: System, moves: seq<Move>, f: Family)
    requires Sound(s) && Possible(s, moves) && Gone(s, f)
    ensures Gone(After(s, moves), f)
    ensures After(s, moves).db.chains[f] == s.db.chains[f]
    decreases |moves|
  {
    if moves != [] {
      MoveKeepsSound(s, moves[0]);
      MoveKeepsGone(s, moves[0], f);
      GoneForever(Next(s, moves[0]), moves[1..], f);
    }
  }

  ghost predicate StaysDead(s: System, f: Family) {
    forall moves | Possible(s, moves) :: Serial.Dead(After(s, moves).db, f)
  }

  lemma PendingRotationRevives(s: System, op: Op, minted: Token)
    requires Sound(s) && op in s.pending && s.pending[op].Rotating? && minted !in s.db.table
    ensures var moves := [RefreshWrite(op, minted, 0)];
            Possible(s, moves) && !Serial.Dead(After(s, moves).db, s.pending[op].family)
  {
    assert PendingMatches(s, op);
    var m := RefreshWrite(op, minted, 0);
    var moves := [m];
    assert moves[1..] == [];
    var s' := Next(s, m);
    assert After(s, moves) == After(s', []) == s';
    assert s'.db.table[minted].family == s.pending[op].family && !s'.db.table[minted].revoked;
  }

  lemma SomethingIsNew(used: set<nat>) returns (n: nat)
    ensures n !in used
  {
    var rest := used;
    n := 0;
    while rest != {}
      invariant forall t | t in used && t !in rest :: t < n
      decreases |rest|
    {
      var t :| t in rest;
      rest := rest - {t};
      n := Max(n, t + 1);
    }
  }

  /** A family without live rows stays without live rows in every continuation exactly
      when no rotation of it is between its read and its commit. */
  lemma StaysDeadIffQuiescent(s: System, f: Family)
    requires Sound(s) && f in s.db.chains && Serial.Dead(s.db, f)
    ensures StaysDead(s, f) <==> Quiescent(s, f)
  {
    if Quiescent(s, f) {
      forall moves | Possible(s, moves) ensures Serial.Dead(After(s, moves).db, f) {
        GoneForever(s, moves, f);
      }
    } else {
      var op :| op in s.pending && s.pending[op].Rotating? && s.pending[op].family == f;
      var minted := SomethingIsNew(s.db.table.Keys);
      PendingRotationRevives(s, op, minted);
    }
  }

  /** After "log out everywhere", every family of the user that is not in the middle of a
      rotation is dead for good. */
  lemma LogoutAllIsFinal(s: System, u: UserId, t: Token, moves: seq<Move>)
    requires Sound(s) && t in s.db.table && s.db.table[t].userId == u
    requires Quiescent(s, s.db.table[t].family)
    requires Possible(Next(s, LogoutAllMove(u)), moves)
    ensures var end := After(Next(s, LogoutAllMove(u)), moves).db;
            Serial.Dead(end, s.db.table[t].family) && s.db.table[t].family in end.chains
            && end.chains[s.db.table[t].family] == s.db.chains[s.db.table[t].family]
  {
    MoveKeepsSound(s, LogoutAllMove(u));
    GoneForever(Next(s, LogoutAllMove(u)), moves, s.db.table[t].family);
  }

  // ----- When a deactivated user gets nothing more -----

  /** No login of the user has passed its check, and no rotation of theirs its read. */
  ghost predicate NothingComing(s: System, u: UserId) {
    forall op | op in s.pending :: !Brings(s, op, u)
  }

  ghost predicate Brings(s: System, op: Op, u: UserId)
    requires op in s.pending
  {
    match s.pending[op]
    case LoggingIn(v) => v == u
    case Rotating(token, _) => token in s.db.table && s.db.table[token].userId == u
    case Killing(_) => false
  }

  lemma MoveBringsNothing(s: System, m: Move, u: UserId)
    requires Sound(s) && Enabled(s, m) && Serial.Disabled(s.db, u) && NothingComing(s, u)
    ensures Serial.Disabled(Next(s, m).db, u) && NothingComing(Next(s, m), u)
    ensures Serial.TokensOf(Next(s, m).db, u) == Serial.TokensOf(s.db, u)
  {
    var s' := Next(s, m);
    if m.RefreshWrite? || m.LoginWrite? {
      assert !Brings(s, m.op, u);
    }
    forall op | op in s'.pending ensures !Brings(s', op, u) {
      if op in s.pending {
        assert !Brings(s, op, u) && PendingMatches(s, op);
      }
    }
  }

  lemma {:induction false} NothingEverComes(s: System, moves: seq<Move>, u: UserId)
    requires Sound(s) && Possible(s, moves) && Serial.Disabled(s.db, u) && NothingComing(s, u)
    ensures Serial.TokensOf(After(s, moves).db, u) == Serial.TokensOf(s.db, u)
    decreases |moves|
  {
    if moves != [] {
      MoveKeepsSound(s, moves[0]);
      MoveBringsNothing(s, moves[0], u);
      NothingEverComes(Next(s, moves[0]), moves[1..], u);
    }
  }

  ghost predicate GetsNothing(s: System, u: UserId) {
    forall moves | Possible(s, moves) :: Serial.TokensOf(After(s, moves).db, u) == Serial.TokensOf(s.db, u)
  }

  lemma PendingBringsOne(s: System, op: Op, u: UserId)
    requires Sound(s) && op in s.pending && Brings(s, op, u)
    ensures !GetsNothing(s, u)
  {
    var minted := SomethingIsNew(s.db.table.Keys);
    var f := SomethingIsNew(s.db.chains.Keys);
    var m := if s.pending[op].LoggingIn? then LoginWrite(op, f, minted, 0) else RefreshWrite(op, minted, 0);
    var moves := [m];
    assert moves[1..] == [];
    assert Possible(s, moves);
    var s' := Next(s, m);
    assert After(s, moves) == After(s', []) == s';
    assert minted in Serial.TokensOf(s'.db, u) && minted !in Serial.TokensOf(s.db, u);
  }

  /** A deactivated user gets no refresh row in any continuation exactly when no login or
      rotation of theirs is between its check and its write. */
  lemma DeactivatedGetNothingIffNothingComing(s: System, u: UserId)
    requires Sound(s) && Serial.Disabled(s.db, u)
    ensures GetsNothing(s, u) <==> NothingComing(s, u)
  {
    if NothingComing(s, u) {
      forall moves | Possible(s, moves)
        ensures Serial.TokensOf(After(s, moves).db, u) == Serial.TokensOf(s.db, u)
      {
        NothingEverComes(s, moves, u);
      }
    } else {
      var op :| op in s.pending && Brings(s, op, u);
      PendingBringsOne(s, op, u);
    }
  }

  // ----- Where the serial guarantees stop -----

  /** A commit keeps every family a chain exactly when the row it replaces still has no
      successor, which the code does not check. */
  lemma CommitKeepsChainsIffTip(s: System, op: Op, minted: Token, expiresAt: int)
    requires Serial.Inv(s.db) && Enabled(s, RefreshWrite(op, minted, expiresAt))
    ensures Serial.Inv(Next(s, RefreshWrite(op, minted, expiresAt)).db)
            <==> s.db.table[s.pending[op].token].replacedBy == None
  {
    if s.db.table[s.pending[op].token].replacedBy == None {
      Serial.ReplaceKeepsInv(s.db, s.pending[op].token, minted, expiresAt);
    }
    if Serial.Inv(Next(s, RefreshWrite(op, minted, expiresAt)).db) {
      ChainAfterwardsMeansTip(s.db, s.pending[op].token, minted, expiresAt);
    }
  }

  lemma ChainAfterwardsMeansTip(db: Db, used: Token, minted: Token, expiresAt: int)
    requires Serial.Inv(db) && used in db.table && minted !in db.table
    requires Serial.Inv(Replace(db, used, minted, expiresAt))
    ensures db.table[used].replacedBy == None
  {
    var f, db' := db.table[used].family, Replace(db, used, minted, expiresAt);
    var c := db.chains[f];
    assert Serial.IsChain(db.table, f, c) && Serial.IsChain(db'.table, f, db'.chains[f]);
    var i :| 0 <= i < |c| && c[i] == used;
    Serial.LinkAt(db.table, f, c, i);
    Serial.LinkAt(db'.table, f, db'.chains[f], i);
    assert db'.chains[f] == c + [minted];
  }

  /** Every commit of the run finds the row it replaces still without a successor, as it
      would if the transaction checked that. */
  ghost predicate Rechecked(s: System, moves: seq<Move>)
    requires Possible(s, moves)
    decreases |moves|
  {
    if moves == [] then true
    else
      && (moves[0].RefreshWrite? ==> s.db.table[s.pending[moves[0].op].token].replacedBy == None)
      && Rechecked(Next(s, moves[0]), moves[1..])
  }

  ghost predicate LoginsKnown(s: System) {
    forall op | op in s.pending && s.pending[op].LoggingIn? :: s.pending[op].u in s.db.users
  }

  lemma MoveKeepsChains(s: System, m: Move)
    requires Serial.Inv(s.db) && LoginsKnown(s) && Enabled(s, m)
    requires m.RefreshWrite? ==> s.db.table[s.pending[m.op].token].replacedBy == None
    ensures Serial.Inv(Next(s, m).db) && LoginsKnown(Next(s, m))
  {
    var s' := Next(s, m);
    if m.LoginWrite? {
      Serial.IssueKeepsInv(s.db, s.pending[m.op].u, m.family, m.minted, m.expiresAt);
    } else if m.RefreshWrite? {
      Serial.ReplaceKeepsInv(s.db, s.pending[m.op].token, m.minted, m.expiresAt);
    } else {
      Serial.RevokingKeepsInv(s.db, s'.db);
    }
  }

  /** The stored rows of the family form a chain. */
  ghost predicate HasChain(table: map<Token, Row>, f: Family) {
    exists c :: Serial.IsChain(table, f, c)
  }

  ghost predicate AllHaveChains(table: map<Token, Row>) {
    forall t {:trigger table[t].family} | t in table :: HasChain(table, table[t].family)
  }

  lemma InvHasChains(db: Db)
    requires Serial.Inv(db)
    ensures AllHaveChains(db.table)
  {
    forall t | t in db.table ensures HasChain(db.table, db.table[t].family) {
      assert Serial.IsChain(db.table, db.table[t].family, db.chains[db.table[t].family]);
    }
  }

  /** Two rows of one family, neither with a successor. */
  ghost predicate AreTwoTips(table: map<Token, Row>, t: Token, u: Token) {
    && t != u && t in table && u in table && table[t].family == table[u].family
    && table[t].replacedBy == None && table[u].replacedBy == None
  }

  lemma TipIsLast(table: map<Token, Row>, f: Family, c: seq<Token>, t: Token)
    requires Serial.IsChain(table, f, c) && t in table && table[t].family == f && table[t].replacedBy == None
    ensures t == c[|c| - 1]
  {
    var i :| 0 <= i < |c| && c[i] == t;
    Serial.LinkAt(table, f, c, i);
  }

  lemma TwoTipsMakeNoChain(table: map<Token, Row>, t: Token, u: Token)
    requires AreTwoTips(table, t, u)
    ensures !AllHaveChains(table)
  {
    var f := table[t].family;
    forall c ensures !Serial.IsChain(table, f, c) {
      if Serial.IsChain(table, f, c) {
        TipIsLast(table, f, c, t);
        TipIsLast(table, f, c, u);
      }
    }
    assert !HasChain(table, f);
  }

  lemma MoveKeepsTwoTips(s: System, m: Move, t: Token, u: Token) returns (t': Token, u': Token)
    requires Enabled(s, m) && AreTwoTips(s.db.table, t, u)
    ensures AreTwoTips(Next(s, m).db.table, t', u')
  {
    t', u' := t, u;
    if m.RefreshWrite? {
      var used := s.pending[m.op].token;
      t' := if used == t then m.minted else t;
      u' := if used == u then m.minted else u;
    }
  }

  lemma {:induction false} TwoTipsStay(s: System, moves: seq<Move>, t: Token, u: Token)
    requires Possible(s, moves) && AreTwoTips(s.db.table, t, u)
    ensures !AllHaveChains(After(s, moves).db.table)
    decreases |moves|
  {
    if moves == [] {
      TwoTipsMakeNoChain(s.db.table, t, u);
    } else {
      var t', u' := MoveKeepsTwoTips(s, moves[0], t, u);
      TwoTipsStay(Next(s, moves[0]), moves[1..], t', u');
    }
  }

  /** A commit on a row that has a successor leaves the old tip and makes another. */
  lemma SecondSuccessor(s: System, m: Move) returns (tip: Token)
    requires Serial.Inv(s.db) && Enabled(s, m) && m.RefreshWrite?
    requires s.db.table[s.pending[m.op].token].replacedBy.Some?
    ensures AreTwoTips(Next(s, m).db.table, tip, m.minted)
  {
    var used := s.pending[m.op].token;
    var f := s.db.table[used].family;
    var c := s.db.chains[f];
    assert Serial.IsChain(s.db.table, f, c);
    tip := c[|c| - 1];
    Serial.LinkAt(s.db.table, f, c, |c| - 1);
  }

  /** Under every interleaving, the rows of each family end up as one chain exactly when
      every commit found the row it replaced without a successor; and then the whole
      serial invariant holds, with at most one live token a family and no token exchanged
      twice. */
  lemma {:induction false} ChainsIffRechecked(s: System, moves: seq<Move>)
    requires Serial.Inv(s.db) && LoginsKnown(s) && Possible(s, moves)
    ensures AllHaveChains(After(s, moves).db.table) <==> Rechecked(s, moves)
    ensures Serial.Inv(After(s, moves).db) <==> Rechecked(s, moves)
    decreases |moves|
  {
    if Serial.Inv(After(s, moves).db) {
      InvHasChains(After(s, moves).db);
    }
    if moves != [] {
      var m, s' := moves[0], Next(s, moves[0]);
      if m.RefreshWrite? && s.db.table[s.pending[m.op].token].replacedBy.Some? {
        var tip := SecondSuccessor(s, m);
        TwoTipsStay(s', moves[1..], tip, m.minted);
      } else {
        MoveKeepsChains(s, m);
        ChainsIffRechecked(s', moves[1..]);
      }
    }
  }

  // ----- What looking at `revoked` again would give -----

  /** Every commit of the run finds the row it replaces still unrevoked. */
  ghost predicate RecheckedRevoked(s: System, moves: seq<Move>)
    requires Possible(s, moves)
    decreases |moves|
  {
    if moves == [] then true
    else
      && (moves[0].RefreshWrite? ==> !s.db.table[s.pending[moves[0].op].token].revoked)
      && RecheckedRevoked(Next(s, moves[0]), moves[1..])
  }

  lemma MoveKeepsDead(s: System, m: Move, f: Family)
    requires Sound(s) && Enabled(s, m) && f in s.db.chains && Serial.Dead(s.db, f)
    requires m.RefreshWrite? ==> !s.db.table[s.pending[m.op].token].revoked
    ensures Serial.Dead(Next(s, m).db, f) && f in Next(s, m).db.chains
    ensures Next(s, m).db.chains[f] == s.db.chains[f]
  {
    if m.RefreshWrite? {
      assert PendingMatches(s, m.op);
    }
  }

  /** If commits looked at `revoked` again, every interleaving would keep the serial
      invariant, and a dead family would stay dead without a new row, whatever rotations
      of it were pending. */
  lemma {:induction false} RecheckingRevokedSuffices(s: System, moves: seq<Move>)
    requires Serial.Inv(s.db) && LoginsKnown(s) && Sound(s) && Possible(s, moves) && RecheckedRevoked(s, moves)
    ensures Serial.Inv(After(s, moves).db)
    ensures forall f | f in s.db.chains && Serial.Dead(s.db, f) ::
              && Serial.Dead(After(s, moves).db, f)
              && f in After(s, moves).db.chains && After(s, moves).db.chains[f] == s.db.chains[f]
    decreases |moves|
  {
    if moves != [] {
      var m := moves[0];
      if m.RefreshWrite? {
        Serial.UnrevokedHasNoSuccessor(s.db, s.pending[m.op].token);
      }
      MoveKeepsChains(s, m);
      MoveKeepsSound(s, m);
      forall f | f in s.db.chains && Serial.Dead(s.db, f)
        ensures Serial.Dead(Next(s, m).db, f) && f in Next(s, m).db.chains
        ensures Next(s, m).db.chains[f] == s.db.chains[f]
      {
        MoveKeepsDead(s, m, f);
      }
      RecheckingRevokedSuffices(Next(s, m), moves[1..]);
    }
  }

  lemma Extend(s: System, m: Move, rest: seq<Move>)
    requires Enabled(s, m) && Possible(Next(s, m), rest)
    ensures Possible(s, [m] + rest) && After(s, [m] + rest) == After(Next(s, m), rest)
  {
    assert ([m] + rest)[1..] == rest;
  }

  // ----- Without interference, this is the serial model -----

  lemma TwoMoves(s: System, m: Move, n: Move)
    requires Enabled(s, m) && Enabled(Next(s, m), n)
    ensures Possible(s, [m] + [n]) && After(s, [m] + [n]) == Next(Next(s, m), n)
  {
    assert [n][1..] == [];
    assert After(Next(s, m), [n]) == After(Next(Next(s, m), n), []);
    Extend(s, m, [n]);
  }

  lemma OneMove(s: System, m: Move)
    requires Enabled(s, m)
    ensures Possible(s, [m]) && After(s, [m]) == Next(s, m)
  {
    assert [m][1..] == [];
    assert After(s, [m]) == After(Next(s, m), []);
  }

  /** A read that is followed at once by its write does to the tables what the serial step
      does, and a read that finds nothing to write changes nothing: for rotations, ... */
  lemma RotationAlone(s: System, op: Op, t: Token, minted: Token, now: int, ttl: int) returns (moves: seq<Move>)
    requires op !in s.pending && minted !in s.db.table
    ensures Possible(s, moves)
    ensures After(s, moves) == System(Step(ttl, s.db, Refresh(t, minted, now)), s.pending)
  {
    var look := RefreshRead(op, t, now);
    if Verdict(s.db, t, now) == None {
      TwoMoves(s, look, RefreshWrite(op, minted, now + ttl));
      moves := [look] + [RefreshWrite(op, minted, now + ttl)];
      assert Next(s, look).pending - {op} == s.pending;
    } else if Verdict(s.db, t, now) == Some(ReuseDetected) {
      TwoMoves(s, look, KillWrite(op));
      moves := [look] + [KillWrite(op)];
      assert Next(s, look).pending - {op} == s.pending;
    } else {
      OneMove(s, look);
      moves := [look];
    }
  }

  /** ... for logins, ... */
  lemma LoginAlone(s: System, op: Op, u: UserId, passwordMatches: bool, f: Family, minted: Token, now: int, ttl: int)
    returns (moves: seq<Move>)
    requires op !in s.pending && f !in s.db.chains && minted !in s.db.table
    ensures Possible(s, moves)
    ensures After(s, moves) == System(Step(ttl, s.db, Login(u, passwordMatches, f, minted, now)), s.pending)
  {
    var look := LoginRead(op, u, passwordMatches);
    if LoginCheck(s.db, u, passwordMatches) == None {
      TwoMoves(s, look, LoginWrite(op, f, minted, now + ttl));
      moves := [look] + [LoginWrite(op, f, minted, now + ttl)];
      assert Next(s, look).pending - {op} == s.pending;
    } else {
      OneMove(s, look);
      moves := [look];
    }
  }

  /** ... for the calls that are one write anyway, ... */
  lemma WritesAlone(s: System, t: Token, u: UserId, ttl: int)
    ensures Next(s, LogoutMove(t)) == System(Step(ttl, s.db, Logout(t)), s.pending)
    ensures Next(s, LogoutAllMove(u)) == System(Step(ttl, s.db, LogoutAll(u)), s.pending)
    ensures Next(s, DeactivateMove(u)) == System(Step(ttl, s.db, Deactivate(u)), s.pending)
  {
  }

  /** ... and for registrations. */
  lemma RegistrationAlone(s: System, op: Op, u: UserId, f: Family, minted: Token, now: int, ttl: int)
    returns (moves: seq<Move>)
    requires op !in s.pending && f !in s.db.chains && minted !in s.db.table
    ensures Possible(s, moves)
    ensures After(s, moves) == System(Step(ttl, s.db, Register(u, f, minted, now)), s.pending)
  {
    var create := CreateUser(op, u);
    if u !in s.db.users {
      TwoMoves(s, create, LoginWrite(op, f, minted, now + ttl));
      moves := [create] + [LoginWrite(op, f, minted, now + ttl)];
      assert Next(s, create).pending - {op} == s.pending;
    } else {
      OneMove(s, create);
      moves := [create];
    }
  }

  /** Two overlapping rotations exchange the same token twice and leave two live tokens
      in one family. */
  lemma OverlappingRotationsBothSucceed() returns (moves: seq<Move>)
    ensures Possible(START, moves)
    ensures var db := After(START, moves).db;
            && db.exchanged == [0, 0]
            && 1 in db.table && 2 in db.table && db.table[1].family == db.table[2].family
            && !db.table[1].revoked && !db.table[2].revoked
  {
    var login, write := CreateUser(0, 7), LoginWrite(0, 5, 0, 100);
    var read1, read2 := RefreshRead(1, 0, 1), RefreshRead(2, 0, 1);
    var write1, write2 := RefreshWrite(1, 1, 101), RefreshWrite(2, 2, 101);
    var s1 := Next(START, login);
    var s2 := Next(s1, write);
    assert s2.pending == map[] && s2.db.table == map[0 := Row(7, 5, false, None, 100)] && s2.db.users == map[7 := true];
    var s3 := Next(s2, read1);
    var s4 := Next(s3, read2);
    assert s4 == System(s2.db, map[1 := Rotating(0, 5), 2 := Rotating(0, 5)]);
    var s5 := Next(s4, write1);
    assert s5.pending == map[2 := Rotating(0, 5)];
    Extend(s5, write2, []);
    Extend(s4, write1, [write2]);
    Extend(s3, read2, [write1] + [write2]);
    Extend(s2, read1, [read2] + ([write1] + [write2]));
    Extend(s1, write, [read1] + ([read2] + ([write1] + [write2])));
    Extend(START, login, [write] + ([read1] + ([read2] + ([write1] + [write2]))));
    moves := [login] + ([write] + ([read1] + ([read2] + ([write1] + [write2]))));
  }
}
