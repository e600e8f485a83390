/** Leads when every request runs as one step, its send included: each history is one
    path through the graph, and its events are its rows. Where requests overlap, the
    histories are paths exactly as long as no commit finds that the status it read has
    moved. */
module LeadsSerial {
  import opened Common
  import opened LeadStatus
  import opened Leads
  import opened LeadsInterleaved
  import opened LeadEvents

  datatype Call =
    | Open(id: LeadId, user: UserId)
    | Patch(id: LeadId, dto: UpdateDto, user: UserId, role: Role, random: real)
    | Attach(id: LeadId, user: UserId, role: Role, validFile: bool)

  ghost predicate Admitted(s: Store, c: Call) {
    match c
    case Open(id, _) => id !in s.leads
    case Patch(_, _, _, _, random) => IsRandom(random)
    case Attach(_, _, _, _) => true
  }

  function Step(s: Store, c: Call): Store {
    match c
    case Open(id, user) => Create(s, id, user)
    case Patch(id, dto, user, role, random) => UpdateStatus(s, id, dto, user, role, random)
    case Attach(id, user, role, validFile) => UploadDocument(s, id, user, role, validFile)
  }

  ghost predicate Admissible(s: Store, calls: seq<Call>)
    decreases |calls|
  {
    if calls == [] then true else Admitted(s, calls[0]) && Admissible(Step(s, calls[0]), calls[1..])
  }

  function Run(s: Store, calls: seq<Call>): Store
    decreases |calls|
  {
    if calls == [] then s else Run(Step(s, calls[0]), calls[1..])
  }

  // ----- Paths -----

  ghost predicate Follows(h: seq<Row>, i: nat)
    requires 1 <= i < |h|
  {
    h[i].from == Some(h[i - 1].to) && IsEdge(h[i - 1].to, h[i].to)
  }

  /** Each row starts where the row before it ended. */
  ghost predicate IsPath(h: seq<Row>) {
    && h != [] && h[0].from == None && h[0].to == Created
    && forall i {:trigger Follows(h, i)} | 1 <= i < |h| :: Follows(h, i)
  }

  lemma PathPrefix(h: seq<Row>, r: Row)
    requires h != []
    ensures IsPath(h + [r]) <==> IsPath(h) && r.from == Some(h[|h| - 1].to) && IsEdge(h[|h| - 1].to, r.to)
  {
    var h' := h + [r];
    if IsPath(h') {
      forall i | 1 <= i < |h| ensures Follows(h, i) {
        assert Follows(h', i);
      }
      assert Follows(h', |h|);
    } else if IsPath(h) && r.from == Some(h[|h| - 1].to) && IsEdge(h[|h| - 1].to, r.to) {
      forall i | 1 <= i < |h'| ensures Follows(h', i) {
        assert i < |h| ==> Follows(h, i);
      }
    }
  }

  /** The status that replaying the rows arrives at, if each can be applied. */
  function Replay(h: seq<Row>): Option<Status> {
    if h == [] then None
    else
      var r := h[|h| - 1];
      if |h| == 1 then (if r.from == None && r.to == Created then Some(Created) else None)
      else
        var before := Replay(h[..|h| - 1]);
        if before.Some? && r.from == before && IsEdge(before.value, r.to) then Some(r.to) else None
  }

  lemma {:induction false} PathIffReplays(h: seq<Row>)
    ensures IsPath(h) <==> Replay(h).Some?
    ensures IsPath(h) ==> Replay(h) == Some(h[|h| - 1].to)
  {
    if |h| > 1 {
      var n := |h| - 1;
      PathIffReplays(h[..n]);
      assert h == h[..n] + [h[n]];
      PathPrefix(h[..n], h[n]);
    }
  }

  lemma {:induction false} RankIsPosition(h: seq<Row>, i: nat)
    requires IsPath(h) && i < |h|
    ensures Rank(h[i].to) == i <= 5
  {
    if i > 0 {
      RankIsPosition(h, i - 1);
      assert Follows(h, i);
      EdgesClimb(h[i - 1].to, h[i].to);
    }
  }

  // ----- What every serial run keeps -----

  ghost predicate LeadSerial(l: Lead) {
    LeadOk(l) && IsPath(l.history)
  }

  ghost predicate Paths(s: Store) {
    forall id {:trigger LeadSerial(s.leads[id])} | id in s.leads :: LeadSerial(s.leads[id])
  }

  /** The events of each lead are its history rows, one for one and in order. */
  ghost predicate AllMirrored(s: Store) {
    && (forall id {:trigger AsEvents(id, s.leads[id].owner, s.leads[id].history)} | id in s.leads ::
          EventsOf(s.published, id) == AsEvents(id, s.leads[id].owner, s.leads[id].history))
    && forall i | 0 <= i < |s.published| :: s.published[i].lead in s.leads
  }

  lemma PublishOne(published: seq<Event>, e: Event, id: LeadId)
    ensures EventsOf(published + [e], id) == EventsOf(published, id) + if e.lead == id then [e] else []
  {
    assert (published + [e])[..|published|] == published;
  }

  lemma {:induction false} NoEvents(published: seq<Event>, id: LeadId)
    requires forall i | 0 <= i < |published| :: published[i].lead != id
    ensures EventsOf(published, id) == []
  {
    if published != [] {
      NoEvents(published[..|published| - 1], id);
    }
  }

  lemma CommitKeepsMirror(s: Store, id: LeadId, c: Change, user: UserId)
    requires AllMirrored(s) && id in s.leads
    ensures AllMirrored(Commit(s, id, c, user))
  {
    var s' := Commit(s, id, c, user);
    var e := Event(id, s.leads[id].owner, c.to, Some(c.from));
    forall other | other in s'.leads
      ensures EventsOf(s'.published, other) == AsEvents(other, s'.leads[other].owner, s'.leads[other].history)
    {
      PublishOne(s.published, e, other);
      var l := s.leads[other];
      assert EventsOf(s.published, other) == AsEvents(other, l.owner, l.history);
    }
  }

  lemma CreateKeepsMirror(s: Store, id: LeadId, user: UserId)
    requires AllMirrored(s) && id !in s.leads
    ensures AllMirrored(Create(s, id, user))
  {
    var s' := Create(s, id, user);
    forall other | other in s'.leads
      ensures EventsOf(s'.published, other) == AsEvents(other, s'.leads[other].owner, s'.leads[other].history)
    {
      PublishOne(s.published, Event(id, user, Created, None), other);
      if other == id {
        NoEvents(s.published, id);
      } else {
        assert EventsOf(s.published, other) ==
               AsEvents(other, s.leads[other].owner, s.leads[other].history);
      }
    }
  }

  lemma AddDocumentKeepsMirror(s: Store, id: LeadId)
    requires AllMirrored(s) && id in s.leads
    ensures AllMirrored(AddDocument(s, id))
  {
    var s' := AddDocument(s, id);
    forall other | other in s'.leads
      ensures EventsOf(s'.published, other) == AsEvents(other, s'.leads[other].owner, s'.leads[other].history)
    {
      assert EventsOf(s.published, other) == AsEvents(other, s.leads[other].owner, s.leads[other].history);
    }
  }

  lemma {:induction false} PublishedIsMirrored(published: seq<Event>, i: nat) returns (k: nat)
    requires i < |published|
    ensures k < |EventsOf(published, published[i].lead)|
    ensures EventsOf(published, published[i].lead)[k] == published[i]
  {
    var n := |published| - 1;
    if i < n {
      k := PublishedIsMirrored(published[..n], i);
      assert published[..n][i] == published[i];
    } else {
      k := |EventsOf(published[..n], published[i].lead)|;
    }
  }

  ghost predicate Inv(s: Store) {
    AllMirrored(s) && Paths(s)
  }

  /** A commit keeps the history a path exactly when the lead's status is still the one
      that was read. */
  lemma CommitKeepsPathIffUnmoved(l: Lead, c: Change, user: UserId)
    requires LeadSerial(l) && ChangeOk(l, c)
    ensures IsPath(Written(l, c, user).history) <==> c.from == l.status
  {
    PathPrefix(l.history, Row(Some(c.from), c.to, user, c.via));
  }

  lemma WriteKeepsPaths(s: Store, id: LeadId, c: Change, user: UserId)
    requires Paths(s) && id in s.leads && ChangeOk(s.leads[id], c) && c.from == s.leads[id].status
    ensures Paths(WriteChange(s, id, c, user))
  {
    var s' := WriteChange(s, id, c, user);
    forall other | other in s'.leads ensures LeadSerial(s'.leads[other]) {
      assert LeadSerial(s.leads[other]);
      if other == id {
        CommitKeepsLead(s.leads[id], c, user);
        CommitKeepsPathIffUnmoved(s.leads[id], c, user);
      }
    }
  }

  lemma OpenKeepsPaths(s: Store, id: LeadId, user: UserId)
    requires Paths(s) && id !in s.leads
    ensures Paths(OpenLead(s, id, user))
  {
    var s' := OpenLead(s, id, user);
    forall other | other in s'.leads ensures LeadSerial(s'.leads[other]) {
      if other in s.leads {
        assert LeadSerial(s.leads[other]);
      }
    }
  }

  lemma DocumentKeepsPaths(s: Store, id: LeadId)
    requires Paths(s) && id in s.leads
    ensures Paths(AddDocument(s, id))
  {
    forall other | other in s.leads ensures LeadSerial(AddDocument(s, id).leads[other]) {
      assert LeadSerial(s.leads[other]);
    }
  }

  lemma CommitKeepsSerial(s: Store, id: LeadId, c: Change, user: UserId)
    requires Inv(s) && id in s.leads && ChangeOk(s.leads[id], c) && c.from == s.leads[id].status
    ensures Inv(Commit(s, id, c, user))
  {
    CommitKeepsMirror(s, id, c, user);
    WriteKeepsPaths(s, id, c, user);
    assert Commit(s, id, c, user).leads == WriteChange(s, id, c, user).leads;
  }

  lemma UploadKeepsSerial(s: Store, id: LeadId, user: UserId)
    requires Inv(s) && id in s.leads
    ensures Inv(MarkKycUploaded(AddDocument(s, id), id, user))
  {
    var s1 := AddDocument(s, id);
    AddDocumentKeepsMirror(s, id);
    DocumentKeepsPaths(s, id);
    var l := s1.leads[id];
    assert LeadSerial(l);
    if l.status == Created {
      assert l.history[|l.history| - 1].to == Created;
      CommitKeepsSerial(s1, id, KYC_CHANGE, user);
    }
  }

  lemma StepKeepsInv(s: Store, c: Call)
    requires Inv(s) && Admitted(s, c)
    ensures Inv(Step(s, c))
  {
    match c
    case Open(id, user) =>
      CreateKeepsMirror(s, id, user);
      OpenKeepsPaths(s, id, user);
      assert Step(s, c).leads == OpenLead(s, id, user).leads;
    case Patch(id, dto, user, role, random) =>
      if id in s.leads && DecideUpdate(s.leads[id].status, dto, role, random).Ok? {
        assert LeadSerial(s.leads[id]);
        DecidedChangeIsOk(s.leads[id], dto, role, random);
        CommitKeepsSerial(s, id, DecideUpdate(s.leads[id].status, dto, role, random).value, user);
      }
    case Attach(id, user, role, validFile) =>
      if UploadError(s, id, user, role, validFile) == None {
        UploadKeepsSerial(s, id, user);
      }
  }

  lemma {:induction false} RunKeepsInv(s: Store, calls: seq<Call>)
    requires Inv(s) && Admissible(s, calls)
    ensures Inv(Run(s, calls))
    decreases |calls|
  {
    if calls != [] {
      StepKeepsInv(s, calls[0]);
      RunKeepsInv(Step(s, calls[0]), calls[1..]);
    }
  }

  /** In every reachable state each lead's history is one path from CREATED that climbs
      one rank a row, so it has at most six rows and no status twice; replaying it gives
      the lead's status; and the lead's events are its rows, one for one. */
  lemma HistoryReplays(calls: seq<Call>, id: LeadId)
    requires Admissible(EMPTY, calls) && id in Run(EMPTY, calls).leads
    ensures var s, l := Run(EMPTY, calls), Run(EMPTY, calls).leads[id];
            && Replay(l.history) == Some(l.status)
            && |l.history| <= 6
            && (forall i | 0 <= i < |l.history| :: Rank(l.history[i].to) == i)
            && EventsOf(s.published, id) == AsEvents(id, l.owner, l.history)
  {
    RunKeepsInv(EMPTY, calls);
    var l := Run(EMPTY, calls).leads[id];
    assert LeadSerial(l);
    PathIffReplays(l.history);
    forall i | 0 <= i < |l.history| ensures Rank(l.history[i].to) == i <= 5 {
      RankIsPosition(l.history, i);
    }
  }

  lemma TerminalStays(s: Store, c: Call, id: LeadId)
    requires Inv(s) && Admitted(s, c) && id in s.leads && IsTerminal(s.leads[id].status)
    ensures id in Step(s, c).leads
    ensures var l, l' := s.leads[id], Step(s, c).leads[id];
            l'.status == l.status && l'.history == l.history && l'.declineReason == l.declineReason
  {
  }

  /** A terminal status, its history and its reason never change again. */
  lemma {:induction false} TerminalForever(s: Store, calls: seq<Call>, id: LeadId)
    requires Inv(s) && Admissible(s, calls) && id in s.leads && IsTerminal(s.leads[id].status)
    ensures id in Run(s, calls).leads
    ensures var l, l' := s.leads[id], Run(s, calls).leads[id];
            l'.status == l.status && l'.history == l.history && l'.declineReason == l.declineReason
    decreases |calls|
  {
    if calls != [] {
      StepKeepsInv(s, calls[0]);
      TerminalStays(s, calls[0], id);
      TerminalForever(Step(s, calls[0]), calls[1..], id);
    }
  }

  /** In a path, entering a terminal status is the last thing that happens. */
  lemma TerminalIsLast(l: Lead, k: nat)
    requires LeadSerial(l) && k < |l.history| && IsTerminal(l.history[k].to)
    ensures k == |l.history| - 1 && l.status == l.history[k].to
  {
    if k < |l.history| - 1 {
      assert Follows(l.history, k + 1);
      EdgesClimb(l.history[k].to, l.history[k + 1].to);
    }
  }

  // ----- What one request can and cannot change -----

  /** The lead service's answer; opening a lead always succeeds. */
  function ErrorOf(s: Store, c: Call): Option<Error> {
    match c
    case Open(_, _) => None
    case Patch(id, dto, _, role, random) => UpdateError(s, id, dto, role, random)
    case Attach(id, user, role, validFile) => UploadError(s, id, user, role, validFile)
  }

  /** A refused request changes nothing, and no request changes another lead. An accepted
      one leaves the status it asked for, entered by that user from the status before, or,
      for a document, one more document and the first stage behind it. */
  lemma RequestsAreAllOrNothing(s: Store, c: Call, other: LeadId)
    requires Inv(s) && Admitted(s, c)
    ensures ErrorOf(s, c).Some? ==> Step(s, c) == s
    ensures other in s.leads && other != c.id ==> other in Step(s, c).leads && Step(s, c).leads[other] == s.leads[other]
    ensures c.Patch? && ErrorOf(s, c) == None ==>
              && c.id in s.leads && c.id in Step(s, c).leads
              && var l, l' := s.leads[c.id], Step(s, c).leads[c.id];
                 && l'.status == c.dto.toStatus && Permitted(l.status, l'.status, Manual(c.role))
                 && l'.history == l.history + [Row(Some(l.status), l'.status, c.user, Manual(c.role))]
                 && l'.documents == l.documents && l'.owner == l.owner
    ensures c.Attach? && ErrorOf(s, c) == None ==>
              && c.id in s.leads && c.id in Step(s, c).leads
              && var l, l' := s.leads[c.id], Step(s, c).leads[c.id];
                 && (c.user == l.owner || c.role != Applicant)
                 && l'.documents == l.documents + 1 && l'.status != Created
                 && (l.status != Created ==> l' == l.(documents := l'.documents))
    ensures ErrorOf(s, c) == None && c.id in s.leads && (c.Patch? || s.leads[c.id].status == Created)
            ==> |Step(s, c).published| == |s.published| + 1
  {
  }

  // ----- Where overlap breaks the path -----

  /** Every commit finds the status that its request read. */
  ghost predicate Rechecked(w: World, moves: seq<Move>)
    requires Possible(w, moves)
    decreases |moves|
  {
    if moves == [] then true
    else
      && (moves[0].Write? ==>
            w.store.leads[w.pending[moves[0].op].id].status == w.pending[moves[0].op].change.from)
      && Rechecked(Next(w, moves[0]), moves[1..])
  }

  lemma MoveKeepsPaths(w: World, m: Move)
    requires LeadsInterleaved.Inv(w) && Paths(w.store) && Enabled(w, m)
    requires m.Write? ==> w.store.leads[w.pending[m.op].id].status == w.pending[m.op].change.from
    ensures Paths(Next(w, m).store)
  {
    if m.CreateLead? {
      OpenKeepsPaths(w.store, m.id, m.user);
    } else if m.StoreDocument? && m.id in w.store.leads {
      DocumentKeepsPaths(w.store, m.id);
    } else if m.Write? {
      assert PendingOk(w, m.op);
      WriteKeepsPaths(w.store, w.pending[m.op].id, w.pending[m.op].change, w.pending[m.op].user);
    } else {
      forall id | id in w.store.leads ensures LeadSerial(Next(w, m).store.leads[id]) {
        assert LeadSerial(w.store.leads[id]);
      }
    }
  }

  lemma MovedCommitBreaksPath(w: World, m: Move)
    requires LeadsInterleaved.Inv(w) && Paths(w.store) && Enabled(w, m)
    requires m.Write? && w.store.leads[w.pending[m.op].id].status != w.pending[m.op].change.from
    ensures !IsPath(Next(w, m).store.leads[w.pending[m.op].id].history)
  {
    var p := w.pending[m.op];
    assert PendingOk(w, m.op) && LeadSerial(w.store.leads[p.id]);
    CommitKeepsPathIffUnmoved(w.store.leads[p.id], p.change, p.user);
  }

  lemma BeginningOfPath(h: seq<Row>, h': seq<Row>)
    requires h != [] && h <= h' && IsPath(h')
    ensures IsPath(h)
  {
    forall i | 1 <= i < |h| ensures Follows(h, i) {
      assert Follows(h', i);
    }
  }

  /** Under every interleaving, all histories end up as paths exactly when every commit
      found the status its request had read. */
  lemma {:induction false} PathsIffRechecked(w: World, moves: seq<Move>)
    requires LeadsInterleaved.Inv(w) && Paths(w.store) && Possible(w, moves)
    ensures Paths(After(w, moves).store) <==> Rechecked(w, moves)
    decreases |moves|
  {
    if moves != [] {
      var m := moves[0];
      MoveKeepsInv(w, m);
      if m.Write? && w.store.leads[w.pending[m.op].id].status != w.pending[m.op].change.from {
        var id, w' := w.pending[m.op].id, Next(w, m);
        MovedCommitBreaksPath(w, m);
        AllGrow(w', moves[1..]);
        assert Grows(w'.store.leads[id], After(w', moves[1..]).store.leads[id]);
        if Paths(After(w, moves).store) {
          assert LeadSerial(After(w, moves).store.leads[id]);
          BeginningOfPath(w'.store.leads[id].history, After(w, moves).store.leads[id].history);
        }
      } else {
        MoveKeepsPaths(w, m);
        PathsIffRechecked(Next(w, m), moves[1..]);
      }
    }
  }

  /** Along a path no two rows are alike, so there the events tell which rows they are of:
      they are the rows in order exactly when they read so. */
  lemma PathEventsTellRows(w: World, id: LeadId)
    requires EventsHaveRows(w) && id in w.store.leads && IsPath(w.store.leads[id].history)
    ensures EventsMirror(w, id) <==>
            EventsOf(w.store.published, id) ==
            AsEvents(id, w.store.leads[id].owner, w.store.leads[id].history)
  {
    var h, r := w.store.leads[id].history, RowsOf(w.store.published, w.rows, id);
    RowsAreRows(w.store, w.store.published, w.rows, id);
    if |r| == |h| {
      forall k | 0 <= k < |h|
        ensures r[k] < |h|
        ensures EventsOf(w.store.published, id)[k] == AsEvents(id, w.store.leads[id].owner, h)[k] <==> r[k] == k
      {
        assert Agrees(w.store, w.store.published, w.rows, id, k);
        RankIsPosition(h, k);
        RankIsPosition(h, r[k]);
      }
    }
  }

  /** Two administrators, or two callbacks of one handoff, decide at the same time: the
      lead is approved and then declined, or funded and then rejected, although neither
      graph edge exists. */
  lemma BothDecisionsCommit(w: World, id: LeadId, first: Status, second: Status) returns (moves: seq<Move>)
    requires id in w.store.leads && w.pending == map[]
    requires (w.store.leads[id].status, first, second) in
               {(CreditChecked, Approved, Declined), (BankHandoff, Funded, FundingRejected)}
    ensures Possible(w, moves) && !IsEdge(first, second)
    ensures id in After(w, moves).store.leads
    ensures var h, n := After(w, moves).store.leads[id].history, |w.store.leads[id].history|;
            && After(w, moves).store.leads[id].status == second && !IsPath(h)
            && |h| == n + 2 && h[n].to == first && h[n + 1].to == second
  {
    var read := w.store.leads[id].status;
    var yes := UpdateRead(0, id, UpdateDto(first, None), 1, Admin, 0.0);
    var no := UpdateRead(1, id, UpdateDto(second, Some("risk")), 2, Admin, 0.0);
    var c0 := Change(read, first, Manual(Admin), None, None);
    var c1 := Change(read, second, Manual(Admin), None, Some("risk"));
    TwoMoves(w, yes, no);
    var w2 := After(w, [yes] + [no]);
    assert w2 == w.(pending := map[0 := Changing(id, c0, 1), 1 := Changing(id, c1, 2)]);
    TwoWrites(w2, id, c0, c1);
    AfterBoth(w, [yes] + [no], [Write(0)] + [Write(1)]);
    moves := [yes] + [no] + ([Write(0)] + [Write(1)]);
    var h, n := After(w, moves).store.leads[id].history, |w.store.leads[id].history|;
    assert !Follows(h, n + 1);
  }

  lemma TwoWrites(w: World, id: LeadId, c0: Change, c1: Change)
    requires id in w.store.leads
    requires w.pending == map[0 := Changing(id, c0, 1), 1 := Changing(id, c1, 2)]
    ensures Possible(w, [Write(0)] + [Write(1)])
    ensures After(w, [Write(0)] + [Write(1)]).store ==
            WriteChange(WriteChange(w.store, id, c0, 1), id, c1, 2)
  {
    TwoMoves(w, Write(0), Write(1));
  }

  // ----- Who may do what -----

  /** The requests that move a lead by hand: these edges, these roles, and a reason for the
      two refusals. Nothing else is accepted, and all of it is. */
  lemma WhoMayMove(s: Store, id: LeadId, dto: UpdateDto, role: Role, random: real)
    ensures var error := UpdateError(s, id, dto, role, random);
            var reason := dto.declineReason != None && dto.declineReason != Some("");
            && (error == Some(NotFound) <==> id !in s.leads)
            && (id in s.leads ==>
                  var move := (s.leads[id].status, dto.toStatus);
                  && (error == None <==>
                        || (move == (KycUploaded, CreditChecked) && role in {LoanOfficer, Underwriter, Admin})
                        || (move == (CreditChecked, Approved) && role in {Underwriter, Admin})
                        || (move == (CreditChecked, Declined) && role in {Underwriter, Admin} && reason)
                        || (move == (Approved, BankHandoff) && role in {LoanOfficer, Underwriter, Admin})
                        || (move == (BankHandoff, Funded) && role in {System, Admin})
                        || (move == (BankHandoff, FundingRejected) && role in {System, Admin} && reason))
                  && (error == Some(BadRequest) <==>
                        move !in {(Created, KycUploaded), (KycUploaded, CreditChecked), (CreditChecked, Approved),
                                  (CreditChecked, Declined), (Approved, BankHandoff), (BankHandoff, Funded),
                                  (BankHandoff, FundingRejected)}))
  {
  }

  /** Documents are accepted from the owner and from everyone but other applicants. */
  lemma WhoMayUpload(s: Store, id: LeadId, user: UserId, role: Role, validFile: bool)
    ensures var error := UploadError(s, id, user, role, validFile);
            && (error == Some(NotFound) <==> id !in s.leads)
            && (id in s.leads ==>
                  var allowed := s.leads[id].owner == user || role in {LoanOfficer, Underwriter, Admin, System};
                  && (error == Some(Forbidden) <==> !allowed)
                  && (error == Some(BadRequest) <==> allowed && !validFile)
                  && (error == None <==> allowed && validFile))
  {
  }

  // ----- What is stored -----

  /** The whole effect of an accepted request: opening stores a new lead of that user; a
      move stores the status, the draw of a credit check, the reason of a refusal, a row
      and an event, and keeps everything else of the lead; a document adds one, and moves
      a lead that was only created. */
  lemma RequestsStore(s: Store, c: Call)
    requires Admitted(s, c)
    ensures c.Open? ==>
              Step(s, c) == Store(s.leads[c.id := Lead(c.user, Created, None, None, 0,
                                                       [Row(None, Created, c.user, Manual(Applicant))])],
                                  s.published + [Event(c.id, c.user, Created, None)])
    ensures c.Patch? && ErrorOf(s, c) == None ==>
              && c.id in s.leads
              && var l, to := s.leads[c.id], c.dto.toStatus;
                 Step(s, c) == Store(
                   s.leads[c.id := Lead(l.owner, to,
                     if to == CreditChecked then Some(550 + (c.random * 250.0).Floor) else l.score,
                     if to == Declined || to == FundingRejected then c.dto.declineReason else l.declineReason,
                     l.documents, l.history + [Row(Some(l.status), to, c.user, Manual(c.role))])],
                   s.published + [Event(c.id, l.owner, to, Some(l.status))])
    ensures c.Attach? && ErrorOf(s, c) == None ==>
              && c.id in s.leads
              && var l := s.leads[c.id];
                 Step(s, c) ==
                 if l.status == Created then
                   Store(s.leads[c.id := Lead(l.owner, KycUploaded, l.score, l.declineReason, l.documents + 1,
                                              l.history + [Row(Some(Created), KycUploaded, c.user, Upload)])],
                         s.published + [Event(c.id, l.owner, KycUploaded, Some(Created))])
                 else
                   Store(s.leads[c.id := l.(documents := l.documents + 1)], s.published)
  {
  }

  /** A lead that has been credit-checked keeps its score in every run. */
  lemma {:induction false} ScoreStaysForever(s: Store, calls: seq<Call>, id: LeadId)
    requires Admissible(s, calls) && id in s.leads && s.leads[id].status !in {Created, KycUploaded}
    ensures id in Run(s, calls).leads && Run(s, calls).leads[id].score == s.leads[id].score
    decreases |calls|
  {
    if calls != [] {
      ScoreStays(s, calls[0], id);
      ScoreStaysForever(Step(s, calls[0]), calls[1..], id);
    }
  }

  lemma ScoreStays(s: Store, c: Call, id: LeadId)
    requires Admitted(s, c) && id in s.leads && s.leads[id].status !in {Created, KycUploaded}
    ensures id in Step(s, c).leads && Step(s, c).leads[id].score == s.leads[id].score
    ensures Step(s, c).leads[id].status !in {Created, KycUploaded}
  {
  }

  // ----- Without interference, overlapping requests are serial ones -----

  /** A read followed at once by its commit and its send does what the serial step does. */
  lemma UpdateAlone(w: World, op: Op, id: LeadId, dto: UpdateDto, user: UserId, role: Role, random: real)
    returns (moves: seq<Move>)
    requires op !in w.pending && IsRandom(random)
    ensures Possible(w, moves)
    ensures After(w, moves).store == Step(w.store, Patch(id, dto, user, role, random))
    ensures After(w, moves).pending == w.pending
  {
    var look := UpdateRead(op, id, dto, user, role, random);
    OneMove(w, look);
    moves := [look];
    if UpdateError(w.store, id, dto, role, random) == None {
      var w1 := Next(w, look);
      TwoMoves(w1, Write(op), Publish(op));
      AfterBoth(w, [look], [Write(op)] + [Publish(op)]);
      moves := [look] + ([Write(op)] + [Publish(op)]);
      assert Next(Next(w1, Write(op)), Publish(op)).pending == w.pending;
    }
  }

  lemma UploadAlone(w: World, op: Op, id: LeadId, user: UserId, role: Role, validFile: bool) returns (moves: seq<Move>)
    requires op !in w.pending
    ensures Possible(w, moves)
    ensures After(w, moves).store == Step(w.store, Attach(id, user, role, validFile))
    ensures After(w, moves).pending == w.pending
  {
    var store := StoreDocument(op, id, user, role, validFile);
    OneMove(w, store);
    moves := [store];
    if UploadError(w.store, id, user, role, validFile) == None {
      TwoMoves(w, store, KycRead(op));
      moves := [store] + [KycRead(op)];
      var w2 := Next(Next(w, store), KycRead(op));
      if w.store.leads[id].status == Created {
        TwoMoves(w2, Write(op), Publish(op));
        AfterBoth(w, moves, [Write(op)] + [Publish(op)]);
        moves := moves + ([Write(op)] + [Publish(op)]);
        assert Next(Next(w2, Write(op)), Publish(op)).pending == w.pending;
      } else {
        assert w2.pending == w.pending;
      }
    }
  }

  lemma CreateAlone(w: World, op: Op, id: LeadId, user: UserId) returns (moves: seq<Move>)
    requires op !in w.pending && id !in w.store.leads
    ensures Possible(w, moves)
    ensures After(w, moves).store == Step(w.store, Open(id, user)) && After(w, moves).pending == w.pending
  {
    TwoMoves(w, CreateLead(op, id, user), Publish(op));
    moves := [CreateLead(op, id, user)] + [Publish(op)];
    assert Next(w, CreateLead(op, id, user)).pending - {op} == w.pending;
  }
}
