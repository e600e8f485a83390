/** Refresh-token rotation with reuse detection, as section 4.14.2 of RFC 9700 describes
    it: the token table, the operations on it, and the services that perform them.

    The hash of a raw token is injective, so a row is named by its raw token. Raw tokens
    and families are always new. A user is named by their normalised e-mail address. */
module RefreshTokens {
  import opened Common

  type Token = nat
  type Family = nat
  type UserId = nat

  datatype Row = Row(userId: UserId, family: Family, revoked: bool, replacedBy: Option<Token>, expiresAt: int)

  /** The two tables, and two histories that the code does not store: the tokens issued
      to each family, oldest first, and the tokens that were exchanged for new ones. */
  datatype Db = Db(table: map<Token, Row>, users: map<UserId, bool>,
                   chains: map<Family, seq<Token>>, exchanged: seq<Token>)

  const EMPTY := Db(map[], map[], map[], [])

  datatype Outcome =
    | Issued(token: Token)
    | Done
    | InvalidToken
    | ReuseDetected
    | Expired
    | AccountDisabled
    | InvalidCredentials
    | UnknownUser
    | EmailTaken

  // ----- The statements of the database -----

  function RevokeFamily(db: Db, f: Family): Db {
    db.(table := map t | t in db.table ::
          if db.table[t].family == f then db.table[t].(revoked := true) else db.table[t])
  }

  function RevokeToken(db: Db, token: Token): Db {
    db.(table := map t | t in db.table ::
          if t == token then db.table[t].(revoked := true) else db.table[t])
  }

  function RevokeAllForUser(db: Db, u: UserId): Db {
    db.(table := map t | t in db.table ::
          if db.table[t].userId == u then db.table[t].(revoked := true) else db.table[t])
  }

  /** The first row of a new family. */
  function Issue(db: Db, u: UserId, f: Family, token: Token, expiresAt: int): Db {
    db.(table := db.table[token := Row(u, f, false, None, expiresAt)],
        chains := db.chains[f := [token]])
  }

  /** The transaction of a rotation. It does not look at `revoked` again. */
  function Replace(db: Db, used: Token, minted: Token, expiresAt: int): Db
    requires used in db.table
  {
    var r := db.table[used];
    db.(table := db.table[used := r.(revoked := true, replacedBy := Some(minted))]
                         [minted := Row(r.userId, r.family, false, None, expiresAt)],
        chains := db.chains[r.family :=
          (if r.family in db.chains then db.chains[r.family] else []) + [minted]],
        exchanged := db.exchanged + [used])
  }

  predicate IsActive(db: Db, u: UserId) {
    u in db.users && db.users[u]
  }

  /** What the checks of a rotation conclude from the row they read; `None` lets it go on. */
  function Verdict(db: Db, presented: Token, now: int): Option<Outcome> {
    if presented !in db.table then Some(InvalidToken)
    else if db.table[presented].revoked then Some(ReuseDetected)
    else if db.table[presented].expiresAt < now then Some(Expired)
    else if !IsActive(db, db.table[presented].userId) then Some(AccountDisabled)
    else None
  }

  // ----- One service call as one step -----

  datatype Call =
    | Register(u: UserId, family: Family, minted: Token, now: int)
    | Login(u: UserId, passwordMatches: bool, family: Family, minted: Token, now: int)
    | Refresh(presented: Token, minted: Token, now: int)
    | Logout(token: Token)
    | LogoutAll(u: UserId)
    | Deactivate(u: UserId)

  function LoginCheck(db: Db, u: UserId, passwordMatches: bool): Option<Outcome> {
    if u !in db.users then Some(InvalidCredentials)
    else if !db.users[u] then Some(AccountDisabled)
    else if !passwordMatches then Some(InvalidCredentials)
    else None
  }

  function Step(ttl: int, db: Db, call: Call): Db {
    match call
    case Register(u, f, minted, now) =>
      if u in db.users then db else Issue(db.(users := db.users[u := true]), u, f, minted, now + ttl)
    case Login(u, ok, f, minted, now) =>
      if LoginCheck(db, u, ok).Some? then db else Issue(db, u, f, minted, now + ttl)
    case Refresh(presented, minted, now) =>
      (match Verdict(db, presented, now)
       case None => Replace(db, presented, minted, now + ttl)
       case Some(ReuseDetected) => RevokeFamily(db, db.table[presented].family)
       case Some(_) => db)
    case Logout(token) => RevokeToken(db, token)
    case LogoutAll(u) => RevokeAllForUser(db, u)
    case Deactivate(u) => if u in db.users then db.(users := db.users[u := false]) else db
  }

  function OutcomeOf(db: Db, call: Call): Outcome {
    match call
    case Register(u, _, minted, _) => if u in db.users then EmailTaken else Issued(minted)
    case Login(u, ok, _, minted, _) =>
      (match LoginCheck(db, u, ok) case Some(o) => o case None => Issued(minted))
    case Refresh(presented, minted, now) =>
      (match Verdict(db, presented, now) case Some(o) => o case None => Issued(minted))
    case Logout(_) => Done
    case LogoutAll(_) => Done
    case Deactivate(u) => if u in db.users then Done else UnknownUser
  }

  // ----- The services -----

  /** The Prisma client: the tables all services share. */
  class Prisma {
    var refreshTokens: map<Token, Row>
    var users: map<UserId, bool>
    ghost var chains: map<Family, seq<Token>>
    ghost var exchanged: seq<Token>

    ghost function Value(): Db
      reads this
    {
      Db(refreshTokens, users, chains, exchanged)
    }

    constructor ()
      ensures Value() == EMPTY
    {
      refreshTokens, users, chains, exchanged := map[], map[], map[], [];
    }
  }

  class TokenService {
    const prisma: Prisma
    const refreshTtlMs: int

    constructor (prisma: Prisma, refreshTtlMs: int)
      ensures this.prisma == prisma && this.refreshTtlMs == refreshTtlMs
    {
      this.prisma, this.refreshTtlMs := prisma, refreshTtlMs;
    }

    method IssueTokenPair(userId: UserId, family: Family, raw: Token, now: int)
      modifies prisma
      ensures prisma.Value() == Issue(old(prisma.Value()), userId, family, raw, now + refreshTtlMs)
    {
      prisma.refreshTokens := prisma.refreshTokens[raw := Row(userId, family, false, None, now + refreshTtlMs)];
      prisma.chains := prisma.chains[family := [raw]];
    }

    method RotateRefreshToken(raw: Token, replacement: Token, now: int) returns (outcome: Outcome)
      requires replacement != raw
      modifies prisma
      ensures prisma.Value() == Step(refreshTtlMs, old(prisma.Value()), Refresh(raw, replacement, now))
      ensures outcome == OutcomeOf(old(prisma.Value()), Refresh(raw, replacement, now))
    {
      if raw !in prisma.refreshTokens {
        return InvalidToken;
      }
      var existing := prisma.refreshTokens[raw];
      if existing.revoked {
        RevokeFamilyRows(existing.family);
        return ReuseDetected;
      }
      if existing.expiresAt < now {
        return Expired;
      }
      if existing.userId !in prisma.users || !prisma.users[existing.userId] {
        return AccountDisabled;
      }
      prisma.refreshTokens := prisma.refreshTokens[raw := existing.(revoked := true, replacedBy := Some(replacement))];
      prisma.refreshTokens := prisma.refreshTokens[
        replacement := Row(existing.userId, existing.family, false, None, now + refreshTtlMs)];
      prisma.chains := prisma.chains[existing.family :=
        (if existing.family in prisma.chains then prisma.chains[existing.family] else []) + [replacement]];
      prisma.exchanged := prisma.exchanged + [raw];
      return Issued(replacement);
    }

    method RevokeFamilyRows(family: Family)
      modifies prisma
      ensures prisma.Value() == RevokeFamily(old(prisma.Value()), family)
    {
      var rows := prisma.refreshTokens;
      prisma.refreshTokens := map t | t in rows :: if rows[t].family == family && !rows[t].revoked
                                                   then rows[t].(revoked := true) else rows[t];
    }

    method Revoke(raw: Token)
      modifies prisma
      ensures prisma.Value() == RevokeToken(old(prisma.Value()), raw)
    {
      if raw in prisma.refreshTokens {
        prisma.refreshTokens := prisma.refreshTokens[raw := prisma.refreshTokens[raw].(revoked := true)];
      }
    }

    method RevokeAll(userId: UserId)
      modifies prisma
      ensures prisma.Value() == RevokeAllForUser(old(prisma.Value()), userId)
    {
      var rows := prisma.refreshTokens;
      prisma.refreshTokens := map t | t in rows :: if rows[t].userId == userId && !rows[t].revoked
                                                   then rows[t].(revoked := true) else rows[t];
    }
  }

  class AuthService {
    const tokens: TokenService

    constructor (tokens: TokenService)
      ensures this.tokens == tokens
    {
      this.tokens := tokens;
    }

    method RegisterUser(u: UserId, family: Family, raw: Token, now: int) returns (outcome: Outcome)
      modifies tokens.prisma
      ensures tokens.prisma.Value() ==
              Step(tokens.refreshTtlMs, old(tokens.prisma.Value()), Register(u, family, raw, now))
      ensures outcome == OutcomeOf(old(tokens.prisma.Value()), Register(u, family, raw, now))
    {
      if u in tokens.prisma.users {
        return EmailTaken;
      }
      tokens.prisma.users := tokens.prisma.users[u := true];
      tokens.IssueTokenPair(u, family, raw, now);
      return Issued(raw);
    }

    /** `validateCredentials` followed by `login`. */
    method LoginUser(u: UserId, passwordMatches: bool, family: Family, raw: Token, now: int)
      returns (outcome: Outcome)
      modifies tokens.prisma
      ensures tokens.prisma.Value() ==
              Step(tokens.refreshTtlMs, old(tokens.prisma.Value()), Login(u, passwordMatches, family, raw, now))
      ensures outcome == OutcomeOf(old(tokens.prisma.Value()), Login(u, passwordMatches, family, raw, now))
    {
      if u !in tokens.prisma.users {
        return InvalidCredentials;
      }
      if !tokens.prisma.users[u] {
        return AccountDisabled;
      }
      if !passwordMatches {
        return InvalidCredentials;
      }
      tokens.IssueTokenPair(u, family, raw, now);
      return Issued(raw);
    }

    /** `UsersService.deactivate`: the only operation that writes `isActive`. */
    method DeactivateUser(u: UserId) returns (outcome: Outcome)
      modifies tokens.prisma
      ensures tokens.prisma.Value() == Step(tokens.refreshTtlMs, old(tokens.prisma.Value()), Deactivate(u))
      ensures outcome == OutcomeOf(old(tokens.prisma.Value()), Deactivate(u))
    {
      if u !in tokens.prisma.users {
        return UnknownUser;
      }
      tokens.prisma.users := tokens.prisma.users[u := false];
      return Done;
    }
  }
}
