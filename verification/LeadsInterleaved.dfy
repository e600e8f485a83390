/** Leads when requests overlap on any number of replicas: an update or an upload reads
    the lead at one time, commits at any later one, by id, and publishes at a later one
    still. Every history row still has a permitted origin, the fields still match the
    history, and a terminal status stays exactly when nothing decided is still to commit. */
module LeadsInterleaved {
  import opened Common
  import opened LeadStatus
  import opened Leads

  // ----- What holds of one lead -----

  /** The graph has the edge, and the role, or the upload, may take it. */
  ghost predicate Permitted(from: Status, to: Status, via: Via) {
    && IsEdge(from, to)
    && match via
       case Manual(role) => role in ManualTransitionRoles(from, to)
       case Upload => from == Created && to == KycUploaded
  }

  /** One of the first n rows entered status s. */
  ghost predicate Entered(h: seq<Row>, n: nat, s: Status)
    requires n <= |h|
  {
    exists j :: 0 <= j < n && h[j].to == s
  }

  /** Row i took a permitted edge out of a status that an earlier row had entered. */
  ghost predicate HasOrigin(h: seq<Row>, i: nat)
    requires i < |h|
  {
    h[i].from.Some? && Permitted(h[i].from.value, h[i].to, h[i].via) && Entered(h, i, h[i].from.value)
  }

  ghost predicate Provenance(l: Lead) {
    && l.history != []
    && l.history[0].from == None && l.history[0].to == Created
    && l.status == l.history[|l.history| - 1].to
    && forall i {:trigger HasOrigin(l.history, i)} | 1 <= i < |l.history| :: HasOrigin(l.history, i)
  }

  ghost predicate Reached(l: Lead, s: Status) {
    Entered(l.history, |l.history|, s)
  }

  predicate IsScore(score: Option<int>) {
    score.Some? && 550 <= score.value <= 799
  }

  ghost predicate FieldsMatch(l: Lead) {
    && (Reached(l, KycUploaded) ==> l.documents >= 1)
    && (Reached(l, CreditChecked) ==> IsScore(l.score))
    && (Reached(l, Declined) || Reached(l, FundingRejected) ==> IsPresent(l.declineReason))
  }

  ghost predicate LeadOk(l: Lead) {
    Provenance(l) && FieldsMatch(l)
  }

  /** What a decided change may rely on, however long ago it was decided. */
  ghost predicate ChangeOk(l: Lead, c: Change) {
    && Permitted(c.from, c.to, c.via) && Reached(l, c.from)
    && (c.to == KycUploaded ==> l.documents >= 1)
    && (c.to == CreditChecked ==> c.score.Some?) && (c.score.Some? ==> IsScore(c.score))
    && (RequiresReason(c.to) ==> c.declineReason.Some?) && (c.declineReason.Some? ==> IsPresent(c.declineReason))
  }

  lemma ScoreInRange(random: real)
    requires IsRandom(random)
    ensures 550 <= CreditScore(random) <= 799
  {
  }

  lemma DecidedChangeIsOk(l: Lead, dto: UpdateDto, role: Role, random: real)
    requires LeadOk(l) && IsRandom(random) && DecideUpdate(l.status, dto, role, random).Ok?
    ensures ChangeOk(l, DecideUpdate(l.status, dto, role, random).value)
  {
    ScoreInRange(random);
    assert l.history[|l.history| - 1].to == l.status;
  }

  lemma OriginStays(h: seq<Row>, r: Row, i: nat)
    requires i < |h| && HasOrigin(h, i)
    ensures HasOrigin(h + [r], i)
  {
    var j :| 0 <= j < i && h[j].to == h[i].from.value;
    assert (h + [r])[j] == h[j];
  }

  lemma EnteredGrows(h: seq<Row>, r: Row, s: Status)
    ensures Entered(h + [r], |h| + 1, s) <==> Entered(h, |h|, s) || r.to == s
  {
    assert (h + [r])[|h|] == r;
    if Entered(h, |h|, s) {
      var j :| 0 <= j < |h| && h[j].to == s;
      assert (h + [r])[j] == h[j];
    }
  }

  lemma CommitKeepsLead(l: Lead, c: Change, user: UserId)
    requires LeadOk(l) && ChangeOk(l, c)
    ensures LeadOk(Written(l, c, user))
  {
    var r, l' := Row(Some(c.from), c.to, user, c.via), Written(l, c, user);
    forall s ensures Reached(l', s) <==> Reached(l, s) || c.to == s {
      EnteredGrows(l.history, r, s);
    }
    forall i | 1 <= i < |l'.history| ensures HasOrigin(l'.history, i) {
      if i < |l.history| {
        assert HasOrigin(l.history, i);
        OriginStays(l.history, r, i);
      } else {
        var j :| 0 <= j < |l.history| && l.history[j].to == c.from;
        assert l'.history[j] == l.history[j];
      }
    }
  }

  /** A lead only gains: rows at the end of its history, and documents. */
  ghost predicate Grows(l: Lead, l': Lead) {
    l.history <= l'.history && l.documents <= l'.documents && l.owner == l'.owner
  }

  lemma ChangeStaysOk(l: Lead, l': Lead, c: Change)
    requires ChangeOk(l, c) && Grows(l, l')
    ensures ChangeOk(l', c)
  {
    var j :| 0 <= j < |l.history| && l.history[j].to == c.from;
    assert l'.history[j] == l.history[j];
  }

  // ----- Overlapping requests -----

  type Op = nat

  /** Between read and commit, a decided change, or an upload that has stored its document
      and has not looked at the lead's status yet; and between commit and publication, the
      event of one history row. */
  datatype Pending =
    | Changing(id: LeadId, change: Change, user: UserId)
    | Stored(id: LeadId, user: UserId)
    | Publishing(id: LeadId, row: nat, event: Event)

  /** `rows` is a history that the code does not store: for every published event, which
      row of its lead it was made for. */
  datatype World = World(store: Store, pending: map<Op, Pending>, rows: seq<nat>)

  const START := World(EMPTY, map[], [])

  /** A crash, or a send that fails, drops what the operation still had to do. */
  datatype Move =
    | CreateLead(op: Op, id: LeadId, user: UserId)
    | UpdateRead(op: Op, id: LeadId, dto: UpdateDto, user: UserId, role: Role, random: real)
    | StoreDocument(op: Op, id: LeadId, user: UserId, role: Role, validFile: bool)
    | KycRead(op: Op)
    | Write(op: Op)
    | Publish(op: Op)
    | Crash(op: Op)

  ghost predicate Enabled(s: World, m: Move) {
    match m
    case CreateLead(op, id, _) => op !in s.pending && id !in s.store.leads
    case UpdateRead(op, _, _, _, _, random) => op !in s.pending && IsRandom(random)
    case StoreDocument(op, _, _, _, _) => op !in s.pending
    case KycRead(op) => op in s.pending && s.pending[op].Stored? && s.pending[op].id in s.store.leads
    case Write(op) => op in s.pending && s.pending[op].Changing? && s.pending[op].id in s.store.leads
    case Publish(op) => op in s.pending && s.pending[op].Publishing?
    case Crash(_) => true
  }

  function Next(s: World, m: Move): World
    requires m.KycRead? ==> m.op in s.pending && s.pending[m.op].Stored? && s.pending[m.op].id in s.store.leads
    requires m.Write? ==> m.op in s.pending && s.pending[m.op].Changing? && s.pending[m.op].id in s.store.leads
    requires m.Publish? ==> m.op in s.pending && s.pending[m.op].Publishing?
  {
    match m
    case CreateLead(op, id, user) =>
      s.(store := OpenLead(s.store, id, user), pending := s.pending[op := Publishing(id, 0, OpeningEvent(id, user))])
    case UpdateRead(op, id, dto, user, role, random) =>
      if id !in s.store.leads then s
      else
        (match DecideUpdate(s.store.leads[id].status, dto, role, random)
         case Ok(c) => s.(pending := s.pending[op := Changing(id, c, user)])
         case Err(_) => s)
    case StoreDocument(op, id, user, role, validFile) =>
      if UploadError(s.store, id, user, role, validFile).Some? then s
      else s.(store := AddDocument(s.store, id), pending := s.pending[op := Stored(id, user)])
    case KycRead(op) =>
      var p := s.pending[op];
      if s.store.leads[p.id].status == Created
      then s.(pending := s.pending[op := Changing(p.id, KYC_CHANGE, p.user)])
      else s.(pending := s.pending - {op})
    case Write(op) =>
      var p, l := s.pending[op], s.store.leads[s.pending[op].id];
      s.(store := WriteChange(s.store, p.id, p.change, p.user),
         pending := s.pending[op := Publishing(p.id, |l.history|, ChangeEvent(p.id, l, p.change))])
    case Publish(op) =>
      var p := s.pending[op];
      World(Announce(s.store, p.event), s.pending - {op}, s.rows + [p.row])
    case Crash(op) => s.(pending := s.pending - {op})
  }

  ghost predicate Possible(s: World, moves: seq<Move>)
    decreases |moves|
  {
    if moves == [] then true
    else Enabled(s, moves[0]) && Possible(Next(s, moves[0]), moves[1..])
  }

  ghost function After(s: World, moves: seq<Move>): World
    requires Possible(s, moves)
    decreases |moves|
  {
    if moves == [] then s else After(Next(s, moves[0]), moves[1..])
  }

  // ----- What every interleaving keeps -----

  ghost predicate PendingOk(s: World, op: Op)
    requires op in s.pending
  {
    var p := s.pending[op];
    && p.id in s.store.leads
    && match p
       case Changing(id, c, _) => ChangeOk(s.store.leads[id], c)
       case Stored(id, _) => s.store.leads[id].documents >= 1
       case Publishing(_, _, _) => true
  }

  ghost predicate LeadsOk(s: Store) {
    forall id {:trigger LeadOk(s.leads[id])} | id in s.leads :: LeadOk(s.leads[id])
  }

  ghost predicate Inv(s: World) {
    && LeadsOk(s.store)
    && forall op {:trigger PendingOk(s, op)} | op in s.pending :: PendingOk(s, op)
  }

  ghost predicate StoreGrows(s: Store, s': Store) {
    forall id | id in s.leads :: id in s'.leads && Grows(s.leads[id], s'.leads[id])
  }

  lemma PendingStaysOk(s: World, s': World, op: Op)
    requires op in s.pending && PendingOk(s, op) && StoreGrows(s.store, s'.store)
    requires op in s'.pending && s'.pending[op] == s.pending[op]
    ensures PendingOk(s', op)
  {
    if s.pending[op].Changing? {
      var id := s.pending[op].id;
      ChangeStaysOk(s.store.leads[id], s'.store.leads[id], s.pending[op].change);
    }
  }

  lemma MoveGrows(s: World, m: Move)
    requires Enabled(s, m)
    ensures StoreGrows(s.store, Next(s, m).store)
  {
  }

  lemma MoveKeepsLeads(s: World, m: Move)
    requires Inv(s) && Enabled(s, m)
    ensures LeadsOk(Next(s, m).store)
  {
    var s' := Next(s, m);
    forall id | id in s'.store.leads ensures LeadOk(s'.store.leads[id]) {
      if id in s.store.leads {
        assert LeadOk(s.store.leads[id]);
      } else {
        assert s'.store.leads[id].history[0].to == Created;
      }
      if m.Write? {
        assert PendingOk(s, m.op);
        var p := s.pending[m.op];
        CommitKeepsLead(s.store.leads[p.id], p.change, p.user);
        assert s'.store.leads[p.id] == Written(s.store.leads[p.id], p.change, p.user);
      }
    }
  }

  lemma MoveKeepsInv(s: World, m: Move)
    requires Inv(s) && Enabled(s, m)
    ensures Inv(Next(s, m))
  {
    var s' := Next(s, m);
    MoveKeepsLeads(s, m);
    MoveGrows(s, m);
    forall op | op in s'.pending ensures PendingOk(s', op) {
      if op in s.pending && s'.pending[op] == s.pending[op] {
        assert PendingOk(s, op);
        PendingStaysOk(s, s', op);
      } else if m.UpdateRead? {
        assert LeadOk(s.store.leads[m.id]);
        DecidedChangeIsOk(s.store.leads[m.id], m.dto, m.role, m.random);
      } else if m.KycRead? {
        assert PendingOk(s, op);
        var l := s.store.leads[s.pending[op].id];
        assert LeadOk(l);
        assert l.history[|l.history| - 1].to == l.status;
      }
    }
  }

  lemma {:induction false} InvAlways(s: World, moves: seq<Move>)
    requires Inv(s) && Possible(s, moves)
    ensures Inv(After(s, moves))
    decreases |moves|
  {
    if moves != [] {
      MoveKeepsInv(s, moves[0]);
      InvAlways(Next(s, moves[0]), moves[1..]);
    }
  }

  /** Under every interleaving each history row takes a permitted edge from a status that
      an earlier row of the lead entered, and the lead's status is that of its last row. */
  lemma ProvenanceAlways(moves: seq<Move>, id: LeadId)
    requires Possible(START, moves) && id in After(START, moves).store.leads
    ensures Provenance(After(START, moves).store.leads[id])
    ensures FieldsMatch(After(START, moves).store.leads[id])
  {
    InvAlways(START, moves);
    assert LeadOk(After(START, moves).store.leads[id]);
  }

  // ----- What a funded lead must have gone through -----

  /** Row k entered s by way of an earlier row that entered `from`. */
  lemma StepBack(l: Lead, k: nat) returns (j: nat)
    requires Provenance(l) && 1 <= k < |l.history|
    ensures j < k && l.history[k].from == Some(l.history[j].to)
    ensures Permitted(l.history[j].to, l.history[k].to, l.history[k].via)
  {
    assert HasOrigin(l.history, k);
    j :| 0 <= j < k && l.history[j].to == l.history[k].from.value;
  }

  lemma WayToFunded(l: Lead, k5: nat) returns (k1: nat, k2: nat, k3: nat, k4: nat)
    requires LeadOk(l) && k5 < |l.history| && l.history[k5].to == Funded
    ensures 0 < k1 < k2 < k3 < k4 < k5 && l.history[0].to == Created
    ensures l.history[k1].to == KycUploaded && l.history[k2].to == CreditChecked
    ensures l.history[k3].to == Approved && l.history[k4].to == BankHandoff
    ensures l.history[k3].via in {Manual(Underwriter), Manual(Admin)}
    ensures l.history[k5].via in {Manual(System), Manual(Admin)}
    ensures l.documents >= 1 && IsScore(l.score)
  {
    k4 := StepBack(l, k5);
    k3 := StepBack(l, k4);
    k2 := StepBack(l, k3);
    k1 := StepBack(l, k2);
    var k0 := StepBack(l, k1);
    assert Reached(l, KycUploaded) && Reached(l, CreditChecked);
  }

  /** Under every interleaving, a lead that was ever funded has, in this order, a row for
      every earlier stage; it was approved by an underwriter or an administrator, and it
      has a document and a credit score. */
  lemma FundedCameAllTheWay(moves: seq<Move>, id: LeadId, k5: nat)
    returns (k1: nat, k2: nat, k3: nat, k4: nat)
    requires Possible(START, moves) && id in After(START, moves).store.leads
    requires var h := After(START, moves).store.leads[id].history; k5 < |h| && h[k5].to == Funded
    ensures var l := After(START, moves).store.leads[id];
            && 0 < k1 < k2 < k3 < k4 < k5 < |l.history| && l.history[0].to == Created
            && l.history[k1].to == KycUploaded && l.history[k2].to == CreditChecked
            && l.history[k3].to == Approved && l.history[k4].to == BankHandoff
            && l.history[k3].via in {Manual(Underwriter), Manual(Admin)}
            && l.history[k5].via in {Manual(System), Manual(Admin)}
            && l.documents >= 1 && IsScore(l.score)
  {
    ProvenanceAlways(moves, id);
    k1, k2, k3, k4 := WayToFunded(After(START, moves).store.leads[id], k5);
  }

  // ----- When a terminal status stays -----

  /** No change of the lead has been decided and still has to commit. */
  ghost predicate NothingDecided(s: World, id: LeadId) {
    forall op | op in s.pending :: !(s.pending[op].Changing? && s.pending[op].id == id)
  }

  ghost predicate SameStanding(s: World, s': World, id: LeadId)
    requires id in s.store.leads
  {
    && id in s'.store.leads
    && s'.store.leads[id].status == s.store.leads[id].status
    && s'.store.leads[id].history == s.store.leads[id].history
    && s'.store.leads[id].declineReason == s.store.leads[id].declineReason
  }

  ghost predicate StaysForever(s: World, id: LeadId)
    requires id in s.store.leads
  {
    forall moves | Possible(s, moves) :: SameStanding(s, After(s, moves), id)
  }

  lemma MoveKeepsStanding(s: World, m: Move, id: LeadId)
    requires Enabled(s, m) && id in s.store.leads
    requires IsTerminal(s.store.leads[id].status) && NothingDecided(s, id)
    ensures SameStanding(s, Next(s, m), id) && NothingDecided(Next(s, m), id)
  {
  }

  lemma {:induction false} StandingKept(s: World, moves: seq<Move>, id: LeadId)
    requires Possible(s, moves) && id in s.store.leads
    requires IsTerminal(s.store.leads[id].status) && NothingDecided(s, id)
    ensures SameStanding(s, After(s, moves), id)
    decreases |moves|
  {
    if moves != [] {
      MoveKeepsStanding(s, moves[0], id);
      StandingKept(Next(s, moves[0]), moves[1..], id);
    }
  }

  lemma OneMove(s: World, m: Move)
    requires Enabled(s, m)
    ensures Possible(s, [m]) && After(s, [m]) == Next(s, m)
  {
    assert [m][1..] == [];
    assert After(s, [m]) == After(Next(s, m), []);
  }

  lemma DecidedChangeCommits(s: World, op: Op)
    requires op in s.pending && s.pending[op].Changing? && s.pending[op].id in s.store.leads
    ensures !StaysForever(s, s.pending[op].id)
  {
    var s' := Next(s, Write(op));
    OneMove(s, Write(op));
    assert |s'.store.leads[s.pending[op].id].history| == |s.store.leads[s.pending[op].id].history| + 1;
    assert !SameStanding(s, After(s, [Write(op)]), s.pending[op].id);
  }

  /** A lead in a terminal status keeps it, with its history and its reason, in every
      continuation exactly when no change of it is between its read and its commit. For a
      lead whose status is its first funding outcome: that one sticks exactly then. */
  lemma TerminalStaysIffNothingDecided(s: World, id: LeadId)
    requires id in s.store.leads && IsTerminal(s.store.leads[id].status)
    ensures StaysForever(s, id) <==> NothingDecided(s, id)
  {
    if NothingDecided(s, id) {
      forall moves | Possible(s, moves) ensures SameStanding(s, After(s, moves), id) {
        StandingKept(s, moves, id);
      }
    } else {
      var op :| op in s.pending && s.pending[op].Changing? && s.pending[op].id == id;
      DecidedChangeCommits(s, op);
    }
  }

  // ----- When what was said of a lead stays true -----

  /** The lead has this status, now and in every continuation. */
  ghost predicate StatusLasts(s: World, id: LeadId, status: Status) {
    forall moves | Possible(s, moves) ::
      id in After(s, moves).store.leads && After(s, moves).store.leads[id].status == status
  }

  /** Every decided change of the lead that still has to commit goes to this status. */
  ghost predicate AllDecidedFor(s: World, id: LeadId, status: Status) {
    forall op | op in s.pending && s.pending[op].Changing? && s.pending[op].id == id ::
      s.pending[op].change.to == status
  }

  lemma MoveKeepsStatus(s: World, m: Move, id: LeadId)
    requires Enabled(s, m) && id in s.store.leads && IsTerminal(s.store.leads[id].status)
    requires AllDecidedFor(s, id, s.store.leads[id].status)
    ensures id in Next(s, m).store.leads && Next(s, m).store.leads[id].status == s.store.leads[id].status
    ensures AllDecidedFor(Next(s, m), id, s.store.leads[id].status)
  {
  }

  lemma {:induction false} StatusKept(s: World, moves: seq<Move>, id: LeadId)
    requires Possible(s, moves) && id in s.store.leads && IsTerminal(s.store.leads[id].status)
    requires AllDecidedFor(s, id, s.store.leads[id].status)
    ensures id in After(s, moves).store.leads
    ensures After(s, moves).store.leads[id].status == s.store.leads[id].status
    decreases |moves|
  {
    if moves != [] {
      MoveKeepsStatus(s, moves[0], id);
      StatusKept(Next(s, moves[0]), moves[1..], id);
    }
  }

  /** A lead has a terminal status in every continuation exactly when it has it now and
      every change of it that is between its read and its commit goes there too. */
  lemma StatusLastsIff(s: World, id: LeadId, status: Status)
    requires id in s.store.leads && IsTerminal(status)
    ensures StatusLasts(s, id, status) <==> s.store.leads[id].status == status && AllDecidedFor(s, id, status)
  {
    if s.store.leads[id].status == status && AllDecidedFor(s, id, status) {
      forall moves | Possible(s, moves)
        ensures id in After(s, moves).store.leads && After(s, moves).store.leads[id].status == status
      {
        StatusKept(s, moves, id);
      }
    } else if s.store.leads[id].status != status {
      assert Possible(s, []) && After(s, []) == s;
    } else {
      var op :| op in s.pending && s.pending[op].Changing? && s.pending[op].id == id && s.pending[op].change.to != status;
      OneMove(s, Write(op));
      assert Next(s, Write(op)).store.leads[id].status != status;
    }
  }

  // ----- What a commit stores -----

  lemma {:induction false} AllGrow(w: World, moves: seq<Move>)
    requires Possible(w, moves)
    ensures StoreGrows(w.store, After(w, moves).store)
    decreases |moves|
  {
    if moves != [] {
      MoveGrows(w, moves[0]);
      AllGrow(Next(w, moves[0]), moves[1..]);
    }
  }


  /** A lead changes by its own commits and documents only. A commit changes the score or
      the reason only if its change brings one, and no move changes them otherwise. */
  lemma OnlyCommitsChange(w: World, m: Move, id: LeadId)
    requires Enabled(w, m) && id in w.store.leads
    ensures id in Next(w, m).store.leads
    ensures var l, l' := w.store.leads[id], Next(w, m).store.leads[id];
            if m.Write? && w.pending[m.op].id == id then
              var c := w.pending[m.op].change;
              l' == Lead(l.owner, c.to, if c.score == None then l.score else c.score,
                         if c.declineReason == None then l.declineReason else c.declineReason,
                         l.documents, l.history + [Row(Some(c.from), c.to, w.pending[m.op].user, c.via)])
            else if m.StoreDocument? && m.id == id && m.validFile
                    && (m.user == l.owner || m.role in {LoanOfficer, Underwriter, Admin, System}) then
              l' == l.(documents := l.documents + 1)
            else l' == l
  {
  }

  lemma {:induction false} PendingWaits(w: World, moves: seq<Move>, op: Op)
    requires Possible(w, moves) && op in w.pending && forall i | 0 <= i < |moves| :: moves[i].op != op
    ensures op in After(w, moves).pending && After(w, moves).pending[op] == w.pending[op]
    decreases |moves|
  {
    if moves != [] {
      assert moves[0].op != op;
      PendingWaits(Next(w, moves[0]), moves[1..], op);
    }
  }

  /** Whatever happens between an accepted read and its commit, the commit stores what that
      request asked for: its status, its own draw if it is a credit check, its own reason if
      it is a refusal, and a row with its user, its role and the status it read. The score
      and the reason are otherwise those the lead has by then. */
  lemma CommitStoresItsRequest(w: World, m: Move, between: seq<Move>)
    requires Enabled(w, m) && m.UpdateRead? && m.op in Next(w, m).pending
    requires Possible(Next(w, m), between) && forall i | 0 <= i < |between| :: between[i].op != m.op
    ensures m.id in w.store.leads && m.id in After(Next(w, m), between).store.leads
    ensures Enabled(After(Next(w, m), between), Write(m.op))
    ensures var w1, to := After(Next(w, m), between), m.dto.toStatus;
            var w2, l, read := Next(w1, Write(m.op)), w1.store.leads[m.id], w.store.leads[m.id].status;
            && w2.store == w1.store.(leads := w1.store.leads[m.id :=
                 Lead(l.owner, to,
                      if to == CreditChecked then Some(550 + (m.random * 250.0).Floor) else l.score,
                      if to == Declined || to == FundingRejected then m.dto.declineReason else l.declineReason,
                      l.documents, l.history + [Row(Some(read), to, m.user, Manual(m.role))])])
            && w2.pending == w1.pending[m.op :=
                 Publishing(m.id, |l.history|, Event(m.id, l.owner, to, Some(read)))]
  {
    PendingWaits(Next(w, m), between, m.op);
    AllGrow(Next(w, m), between);
  }

  /** A read is accepted exactly when the serial request would be. */
  lemma ReadIsAccepted(w: World, m: Move)
    requires Enabled(w, m) && m.UpdateRead?
    ensures m.op in Next(w, m).pending <==> UpdateError(w.store, m.id, m.dto, m.role, m.random) == None
    ensures Next(w, m).store == w.store
  {
  }

  /** No commit of the run on this lead brings a score or a reason. */
  ghost predicate BringsNothing(w: World, moves: seq<Move>, id: LeadId)
    requires Possible(w, moves)
    decreases |moves|
  {
    if moves == [] then true
    else
      && (moves[0].Write? && w.pending[moves[0].op].id == id ==>
            w.pending[moves[0].op].change.score == None && w.pending[moves[0].op].change.declineReason == None)
      && BringsNothing(Next(w, moves[0]), moves[1..], id)
  }

  /** Over every run and every interleaving, a lead keeps its score and its reason unless
      a commit of it brings another. */
  lemma {:induction false} FieldsKept(w: World, moves: seq<Move>, id: LeadId)
    requires Possible(w, moves) && id in w.store.leads && BringsNothing(w, moves, id)
    ensures id in After(w, moves).store.leads
    ensures After(w, moves).store.leads[id].score == w.store.leads[id].score
    ensures After(w, moves).store.leads[id].declineReason == w.store.leads[id].declineReason
    decreases |moves|
  {
    if moves != [] {
      OnlyCommitsChange(w, moves[0], id);
      FieldsKept(Next(w, moves[0]), moves[1..], id);
    }
  }

  /** The mock check draws each score from 550 to 799 on an interval of the same length. */
  lemma EachScoreIsDrawn(random: real, n: int)
    requires IsRandom(random) && 550 <= n <= 799
    ensures CreditScore(random) == n <==> (n - 550) as real / 250.0 <= random < (n - 549) as real / 250.0
  {
  }
}
