/** The events of a lead against its history when every send is a step of its own, which
    may overtake another, fail, or be lost in a crash. */
module LeadEvents {
  import opened Common
  import opened LeadStatus
  import opened Leads
  import opened LeadsInterleaved

  /** The events published for one lead, in order. */
  function EventsOf(published: seq<Event>, id: LeadId): seq<Event> {
    if published == [] then []
    else
      var n := |published| - 1;
      EventsOf(published[..n], id) + if published[n].lead == id then [published[n]] else []
  }

  /** The events that a history calls for, row by row. */
  function AsEvents(id: LeadId, owner: UserId, h: seq<Row>): seq<Event> {
    seq(|h|, i requires 0 <= i < |h| => Event(id, owner, h[i].to, h[i].from))
  }

  // ----- Every event has a row of its own -----

  /** The event names the owner of its lead, and the statuses that this row left and entered. */
  ghost predicate IsEventOf(s: Store, row: nat, e: Event) {
    && e.lead in s.leads && row < |s.leads[e.lead].history|
    && e == AsEvents(e.lead, s.leads[e.lead].owner, s.leads[e.lead].history)[row]
  }

  ghost predicate IsDue(w: World, op: Op)
    requires op in w.pending
  {
    w.pending[op].Publishing? ==>
      w.pending[op].event.lead == w.pending[op].id && IsEventOf(w.store, w.pending[op].row, w.pending[op].event)
  }

  /** Two published events of one lead belong to different rows. */
  ghost predicate AreApart(w: World, i: nat, j: nat)
    requires |w.rows| == |w.store.published| && i < |w.rows| && j < |w.rows|
  {
    w.store.published[i].lead == w.store.published[j].lead && w.rows[i] == w.rows[j] ==> i == j
  }

  /** An event still to be published is not one of the published ones. */
  ghost predicate IsNew(w: World, op: Op, i: nat)
    requires |w.rows| == |w.store.published| && op in w.pending && i < |w.rows|
  {
    (w.pending[op].Publishing? && w.pending[op].id == w.store.published[i].lead) ==> w.pending[op].row != w.rows[i]
  }

  ghost predicate ApartFrom(w: World, op: Op, other: Op)
    requires op in w.pending && other in w.pending
  {
    (&& w.pending[op].Publishing? && w.pending[other].Publishing?
     && w.pending[op].id == w.pending[other].id && w.pending[op].row == w.pending[other].row) ==> op == other
  }

  ghost predicate EventsHaveRows(w: World) {
    && |w.rows| == |w.store.published|
    && (forall i {:trigger w.rows[i]} | 0 <= i < |w.rows| :: IsEventOf(w.store, w.rows[i], w.store.published[i]))
    && (forall i, j {:trigger AreApart(w, i, j)} | 0 <= i < |w.rows| && 0 <= j < |w.rows| :: AreApart(w, i, j))
  }

  ghost predicate DuesMatch(w: World)
    requires |w.rows| == |w.store.published|
  {
    && (forall op {:trigger IsDue(w, op)} | op in w.pending :: IsDue(w, op))
    && (forall op, i {:trigger IsNew(w, op, i)} | op in w.pending && 0 <= i < |w.rows| :: IsNew(w, op, i))
    && (forall op, other {:trigger ApartFrom(w, op, other)} | op in w.pending && other in w.pending ::
          ApartFrom(w, op, other))
  }

  ghost predicate Matched(w: World) {
    EventsHaveRows(w) && DuesMatch(w)
  }

  lemma EventStays(s: Store, s': Store, row: nat, e: Event)
    requires IsEventOf(s, row, e) && StoreGrows(s, s')
    ensures IsEventOf(s', row, e)
  {
    assert Grows(s.leads[e.lead], s'.leads[e.lead]);
  }

  lemma MoveKeepsEvents(w: World, m: Move)
    requires Matched(w) && Enabled(w, m)
    ensures EventsHaveRows(Next(w, m))
  {
    var w' := Next(w, m);
    MoveGrows(w, m);
    forall i | 0 <= i < |w'.rows| ensures IsEventOf(w'.store, w'.rows[i], w'.store.published[i]) {
      if i < |w.rows| {
        assert IsEventOf(w.store, w.rows[i], w.store.published[i]);
        EventStays(w.store, w'.store, w.rows[i], w.store.published[i]);
      } else {
        assert IsDue(w, m.op);
      }
    }
    forall i, j | 0 <= i < |w'.rows| && 0 <= j < |w'.rows| ensures AreApart(w', i, j) {
      if i < |w.rows| && j < |w.rows| {
        assert AreApart(w, i, j);
      } else if i < |w.rows| {
        assert IsDue(w, m.op) && IsNew(w, m.op, i);
      } else if j < |w.rows| {
        assert IsDue(w, m.op) && IsNew(w, m.op, j);
      }
    }
  }

  /** A row that has just been written is a row of nobody's event yet. */
  lemma NewRowIsNobodys(w: World, m: Move, op: Op)
    requires Matched(w) && Enabled(w, m) && (m.CreateLead? || m.Write?) && op == m.op
    ensures op in Next(w, m).pending && IsDue(Next(w, m), op)
    ensures forall i | 0 <= i < |w.rows| :: IsNew(Next(w, m), op, i)
    ensures forall other | other in Next(w, m).pending ::
              ApartFrom(Next(w, m), op, other) && ApartFrom(Next(w, m), other, op)
  {
    var w' := Next(w, m);
    forall i | 0 <= i < |w.rows| ensures IsNew(w', op, i) {
      assert IsEventOf(w.store, w.rows[i], w.store.published[i]);
    }
    forall other | other in w'.pending ensures ApartFrom(w', op, other) && ApartFrom(w', other, op) {
      if other != op {
        assert IsDue(w, other);
      }
    }
  }

  lemma OldDueStays(w: World, m: Move, op: Op)
    requires Matched(w) && Enabled(w, m)
    requires op in w.pending && op in Next(w, m).pending && Next(w, m).pending[op] == w.pending[op]
    ensures IsDue(Next(w, m), op)
    ensures forall i | 0 <= i < |Next(w, m).rows| && |Next(w, m).rows| == |Next(w, m).store.published| ::
              IsNew(Next(w, m), op, i)
  {
    var w' := Next(w, m);
    MoveGrows(w, m);
    assert IsDue(w, op);
    if w.pending[op].Publishing? {
      EventStays(w.store, w'.store, w.pending[op].row, w.pending[op].event);
    }
    forall i | 0 <= i < |w'.rows| && |w'.rows| == |w'.store.published| ensures IsNew(w', op, i) {
      if i < |w.rows| {
        assert IsNew(w, op, i);
      } else {
        assert IsDue(w, m.op) && ApartFrom(w, m.op, op);
      }
    }
  }

  lemma MoveKeepsMatched(w: World, m: Move)
    requires Matched(w) && Enabled(w, m)
    ensures Matched(Next(w, m))
  {
    var w' := Next(w, m);
    MoveKeepsEvents(w, m);
    if m.CreateLead? || m.Write? {
      NewRowIsNobodys(w, m, m.op);
    }
    forall op | op in w'.pending
      ensures IsDue(w', op) && forall i | 0 <= i < |w'.rows| :: IsNew(w', op, i)
    {
      if op in w.pending && w'.pending[op] == w.pending[op] {
        OldDueStays(w, m, op);
      }
    }
    forall op, other | op in w'.pending && other in w'.pending ensures ApartFrom(w', op, other) {
      if op in w.pending && w'.pending[op] == w.pending[op] && other in w.pending && w'.pending[other] == w.pending[other] {
        assert ApartFrom(w, op, other);
      }
    }
  }

  lemma {:induction false} MatchedAlways(w: World, moves: seq<Move>)
    requires Matched(w) && Possible(w, moves)
    ensures Matched(After(w, moves))
    decreases |moves|
  {
    if moves != [] {
      MoveKeepsMatched(w, moves[0]);
      MatchedAlways(Next(w, moves[0]), moves[1..]);
    }
  }

  /** Under every interleaving, whatever is lost and whatever overtakes: each published
      event is that of a history row of its lead, with the same statuses, and no row is
      published twice. */
  lemma EveryEventHasItsRow(moves: seq<Move>)
    requires Possible(START, moves)
    ensures EventsHaveRows(After(START, moves))
  {
    MatchedAlways(START, moves);
  }

  // ----- When the events are the history -----

  /** The rows of one lead's published events, in the order of publication. */
  function RowsOf(published: seq<Event>, rows: seq<nat>, id: LeadId): seq<nat>
    requires |rows| == |published|
  {
    if published == [] then []
    else
      var n := |published| - 1;
      RowsOf(published[..n], rows[..n], id) + if published[n].lead == id then [rows[n]] else []
  }

  function Upto(n: nat): seq<nat> {
    seq(n, i => i)
  }

  function Length(w: World, id: LeadId): nat {
    if id in w.store.leads then |w.store.leads[id].history| else 0
  }

  ghost predicate IsPublished(w: World, id: LeadId, row: nat)
    requires |w.rows| == |w.store.published|
  {
    row in RowsOf(w.store.published, w.rows, id)
  }

  ghost predicate IsPending(w: World, id: LeadId, row: nat) {
    exists op :: op in w.pending && w.pending[op].Publishing? && w.pending[op].id == id && w.pending[op].row == row
  }

  /** Each row's event was published once, in the order of the rows. */
  ghost predicate EventsMirror(w: World, id: LeadId)
    requires |w.rows| == |w.store.published|
  {
    RowsOf(w.store.published, w.rows, id) == Upto(Length(w, id))
  }

  /** The move does not drop an event of the lead, and publishes one only if those of all
      earlier rows were published before. */
  ghost predicate InTurn(w: World, m: Move, id: LeadId)
    requires Enabled(w, m) && |w.rows| == |w.store.published|
  {
    match m
    case Publish(op) => w.pending[op].id == id ==> w.pending[op].row == |RowsOf(w.store.published, w.rows, id)|
    case Crash(op) => op in w.pending ==> !(w.pending[op].Publishing? && w.pending[op].id == id)
    case _ => true
  }

  /** Every move of the run is in turn for the lead, and at its end no event is pending. */
  ghost predicate Orderly(w: World, moves: seq<Move>, id: LeadId)
    requires Possible(w, moves) && |w.rows| == |w.store.published|
    decreases |moves|
  {
    if moves == [] then forall row :: !IsPending(w, id, row)
    else InTurn(w, moves[0], id) && Orderly(Next(w, moves[0]), moves[1..], id)
  }

  /** What was published so far is the beginning of the history, and the rest is pending. */
  ghost predicate OnTrack(w: World, id: LeadId)
    requires |w.rows| == |w.store.published|
  {
    var r := RowsOf(w.store.published, w.rows, id);
    && r == Upto(|r|)
    && forall row | |r| <= row < Length(w, id) :: IsPending(w, id, row)
  }

  /** A row's event will never be published any more, or one was published out of order. */
  ghost predicate OffTrack(w: World, id: LeadId)
    requires |w.rows| == |w.store.published|
  {
    var r := RowsOf(w.store.published, w.rows, id);
    || (exists k :: 0 <= k < |r| && r[k] != k)
    || (exists row: nat :: row < Length(w, id) && !IsPublished(w, id, row) && !IsPending(w, id, row))
  }

  lemma RowsGrow(w: World, m: Move, id: LeadId)
    requires Enabled(w, m) && |w.rows| == |w.store.published|
    ensures var w' := Next(w, m);
            |w'.rows| == |w'.store.published|
            && RowsOf(w'.store.published, w'.rows, id) ==
               RowsOf(w.store.published, w.rows, id)
               + if m.Publish? && w.pending[m.op].event.lead == id then [w.pending[m.op].row] else []
  {
    if m.Publish? {
      var w' := Next(w, m);
      var n := |w.rows|;
      assert w'.store.published[..n] == w.store.published && w'.rows[..n] == w.rows;
    }
  }

  /** The k-th published event of the lead is that of the row noted for it. */
  ghost predicate Agrees(s: Store, published: seq<Event>, rows: seq<nat>, id: LeadId, k: nat)
    requires |rows| == |published|
  {
    var r, events := RowsOf(published, rows, id), EventsOf(published, id);
    && k < |r| == |events|
    && id in s.leads && r[k] < |s.leads[id].history|
    && events[k] == AsEvents(id, s.leads[id].owner, s.leads[id].history)[r[k]]
  }

  lemma {:induction false} RowsAreRows(s: Store, published: seq<Event>, rows: seq<nat>, id: LeadId)
    requires |rows| == |published| && forall i | 0 <= i < |rows| :: IsEventOf(s, rows[i], published[i])
    ensures |EventsOf(published, id)| == |RowsOf(published, rows, id)|
    ensures forall k {:trigger Agrees(s, published, rows, id, k)} | 0 <= k < |RowsOf(published, rows, id)| ::
              Agrees(s, published, rows, id, k)
  {
    if published != [] {
      var n := |published| - 1;
      RowsAreRows(s, published[..n], rows[..n], id);
      assert IsEventOf(s, rows[n], published[n]);
      forall k | 0 <= k < |RowsOf(published, rows, id)| ensures Agrees(s, published, rows, id, k) {
        if k < |RowsOf(published[..n], rows[..n], id)| {
          assert Agrees(s, published[..n], rows[..n], id, k);
        }
      }
    }
  }

  /** A pending event stays pending, unless the move publishes or drops that very event. */
  lemma PendingKept(w: World, m: Move, id: LeadId, row: nat)
    requires Enabled(w, m) && IsPending(w, id, row)
    requires m.Publish? && w.pending[m.op].id == id ==> w.pending[m.op].row != row
    requires m.Crash? && m.op in w.pending ==> !(w.pending[m.op].Publishing? && w.pending[m.op].id == id)
    ensures IsPending(Next(w, m), id, row)
  {
    var op :| op in w.pending && w.pending[op].Publishing? && w.pending[op].id == id && w.pending[op].row == row;
    assert op in Next(w, m).pending && Next(w, m).pending[op] == w.pending[op];
  }

  lemma NewRowIsPending(w: World, m: Move, id: LeadId, row: nat)
    requires Enabled(w, m) && Length(w, id) <= row < Length(Next(w, m), id)
    ensures IsPending(Next(w, m), id, row)
  {
    var w' := Next(w, m);
    assert m.op in w'.pending && w'.pending[m.op].Publishing? && w'.pending[m.op].id == id && w'.pending[m.op].row == row;
  }

  lemma UptoGrows(r: seq<nat>, x: nat)
    requires r == Upto(|r|) && x == |r|
    ensures r + [x] == Upto(|r| + 1)
  {
  }

  lemma MoveKeepsOnTrack(w: World, m: Move, id: LeadId)
    requires Matched(w) && Enabled(w, m) && OnTrack(w, id) && InTurn(w, m, id)
    ensures |Next(w, m).rows| == |Next(w, m).store.published| && OnTrack(Next(w, m), id)
  {
    var w' := Next(w, m);
    RowsGrow(w, m, id);
    if m.Publish? {
      assert IsDue(w, m.op);
    }
    var r, r' := RowsOf(w.store.published, w.rows, id), RowsOf(w'.store.published, w'.rows, id);
    UptoGrows(r, |r|);
    forall row | |r'| <= row < Length(w', id) ensures IsPending(w', id, row) {
      if row < Length(w, id) {
        PendingKept(w, m, id, row);
      } else {
        NewRowIsPending(w, m, id, row);
      }
    }
  }

  lemma OutOfTurnDerails(w: World, m: Move, id: LeadId)
    requires Matched(w) && Enabled(w, m) && !InTurn(w, m, id)
    ensures |Next(w, m).rows| == |Next(w, m).store.published| && OffTrack(Next(w, m), id)
  {
    var w', p := Next(w, m), w.pending[m.op];
    RowsGrow(w, m, id);
    assert IsDue(w, m.op);
    var r, r' := RowsOf(w.store.published, w.rows, id), RowsOf(w'.store.published, w'.rows, id);
    if m.Publish? {
      assert r'[|r|] == p.row != |r|;
    } else {
      UnpublishedWhilePending(w, m.op);
      forall other | other in w'.pending && w'.pending[other].Publishing? && w'.pending[other].id == id
        ensures w'.pending[other].row != p.row
      {
        assert ApartFrom(w, m.op, other);
      }
      assert !IsPublished(w', id, p.row);
    }
  }

  lemma {:induction false} PublishedSomewhere(published: seq<Event>, rows: seq<nat>, id: LeadId, row: nat)
    requires |rows| == |published| && row in RowsOf(published, rows, id)
    ensures exists i :: 0 <= i < |rows| && published[i].lead == id && rows[i] == row
  {
    var n := |published| - 1;
    if published[n].lead == id && rows[n] == row {
    } else {
      PublishedSomewhere(published[..n], rows[..n], id, row);
      var i :| 0 <= i < n && published[..n][i].lead == id && rows[..n][i] == row;
      assert published[i].lead == id && rows[i] == row;
    }
  }

  lemma UnpublishedWhilePending(w: World, op: Op)
    requires Matched(w) && op in w.pending && w.pending[op].Publishing?
    ensures !IsPublished(w, w.pending[op].id, w.pending[op].row)
  {
    var p := w.pending[op];
    forall i | 0 <= i < |w.rows| && w.store.published[i].lead == p.id ensures w.rows[i] != p.row {
      assert IsNew(w, op, i);
    }
    if IsPublished(w, p.id, p.row) {
      PublishedSomewhere(w.store.published, w.rows, p.id, p.row);
    }
  }

  lemma MoveKeepsMissing(w: World, m: Move, id: LeadId, row: nat)
    requires Matched(w) && Enabled(w, m)
    requires row < Length(w, id) && !IsPublished(w, id, row) && !IsPending(w, id, row)
    ensures |Next(w, m).rows| == |Next(w, m).store.published| && row < Length(Next(w, m), id)
    ensures !IsPublished(Next(w, m), id, row) && !IsPending(Next(w, m), id, row)
  {
    var w' := Next(w, m);
    assert |w'.rows| == |w'.store.published| && !IsPublished(w', id, row) by {
      RowsGrow(w, m, id);
      if m.Publish? {
        assert IsDue(w, m.op);
      }
    }
    assert row < Length(w', id) by {
      MoveGrows(w, m);
      assert Grows(w.store.leads[id], w'.store.leads[id]);
    }
    NotPendingAgain(w, m, id, row);
  }

  /** A row that exists already does not get another event. */
  lemma NotPendingAgain(w: World, m: Move, id: LeadId, row: nat)
    requires Enabled(w, m) && row < Length(w, id) && !IsPending(w, id, row)
    ensures !IsPending(Next(w, m), id, row)
  {
    var w' := Next(w, m);
    forall op | op in w'.pending && w'.pending[op].Publishing? && w'.pending[op].id == id
      ensures w'.pending[op].row != row
    {
      assert op in w.pending && w'.pending[op] == w.pending[op] ==> w.pending[op].row != row;
    }
  }

  lemma MoveKeepsOffTrack(w: World, m: Move, id: LeadId)
    requires Matched(w) && Enabled(w, m) && OffTrack(w, id)
    ensures |Next(w, m).rows| == |Next(w, m).store.published| && OffTrack(Next(w, m), id)
  {
    RowsGrow(w, m, id);
    var r, r' := RowsOf(w.store.published, w.rows, id), RowsOf(Next(w, m).store.published, Next(w, m).rows, id);
    if k :| 0 <= k < |r| && r[k] != k {
      assert r'[k] != k;
    } else {
      var row: nat :| row < Length(w, id) && !IsPublished(w, id, row) && !IsPending(w, id, row);
      MoveKeepsMissing(w, m, id, row);
    }
  }

  lemma {:induction false} OrderlyStaysOnTrack(w: World, moves: seq<Move>, id: LeadId)
    requires Matched(w) && Possible(w, moves) && OnTrack(w, id) && Orderly(w, moves, id)
    ensures |After(w, moves).rows| == |After(w, moves).store.published| && EventsMirror(After(w, moves), id)
    decreases |moves|
  {
    if moves == [] {
      var r := RowsOf(w.store.published, w.rows, id);
      RowsAreRows(w.store, w.store.published, w.rows, id);
      var next := IsPending(w, id, |r|);
      assert |r| > 0 ==> Agrees(w.store, w.store.published, w.rows, id, |r| - 1);
      assert |r| == Length(w, id);
    } else {
      MoveKeepsMatched(w, moves[0]);
      MoveKeepsOnTrack(w, moves[0], id);
      OrderlyStaysOnTrack(Next(w, moves[0]), moves[1..], id);
    }
  }

  lemma {:induction false} OffTrackStays(w: World, moves: seq<Move>, id: LeadId)
    requires Matched(w) && Possible(w, moves) && OffTrack(w, id)
    ensures |After(w, moves).rows| == |After(w, moves).store.published| && OffTrack(After(w, moves), id)
    decreases |moves|
  {
    if moves != [] {
      MoveKeepsMatched(w, moves[0]);
      MoveKeepsOffTrack(w, moves[0], id);
      OffTrackStays(Next(w, moves[0]), moves[1..], id);
    }
  }

  lemma MirrorPublishesAll(w: World, id: LeadId)
    requires |w.rows| == |w.store.published| && EventsMirror(w, id)
    ensures forall row: nat | row < Length(w, id) :: IsPublished(w, id, row)
  {
    forall row: nat | row < Length(w, id) ensures IsPublished(w, id, row) {
      assert RowsOf(w.store.published, w.rows, id)[row] == row;
    }
  }

  lemma OffTrackMirrorsNot(w: World, id: LeadId)
    requires Matched(w) && OffTrack(w, id)
    ensures !EventsMirror(w, id)
  {
    if EventsMirror(w, id) {
      MirrorPublishesAll(w, id);
    }
  }

  lemma {:induction false} DisorderlyMirrorsNot(w: World, moves: seq<Move>, id: LeadId)
    requires Matched(w) && Possible(w, moves) && !Orderly(w, moves, id)
    ensures |After(w, moves).rows| == |After(w, moves).store.published| && !EventsMirror(After(w, moves), id)
    decreases |moves|
  {
    if moves == [] {
      var row: nat :| IsPending(w, id, row);
      var op :| op in w.pending && w.pending[op].Publishing? && w.pending[op].id == id && w.pending[op].row == row;
      assert IsDue(w, op);
      UnpublishedWhilePending(w, op);
      if EventsMirror(w, id) {
        MirrorPublishesAll(w, id);
      }
    } else {
      MoveKeepsMatched(w, moves[0]);
      if InTurn(w, moves[0], id) {
        DisorderlyMirrorsNot(Next(w, moves[0]), moves[1..], id);
      } else {
        OutOfTurnDerails(w, moves[0], id);
        OffTrackStays(Next(w, moves[0]), moves[1..], id);
        MatchedAlways(Next(w, moves[0]), moves[1..]);
        OffTrackMirrorsNot(After(w, moves), id);
      }
    }
  }

  /** After a run, the events of a lead are its history rows, one for one and in order,
      exactly when no send of the lead was lost, none overtook another, and none is
      still to come. */
  lemma EventsMirrorHistoryIffOrderly(moves: seq<Move>, id: LeadId)
    requires Possible(START, moves)
    ensures var w := After(START, moves);
            && |w.rows| == |w.store.published|
            && (EventsMirror(w, id) <==> Orderly(START, moves, id))
            && (Orderly(START, moves, id) && id in w.store.leads ==>
                  EventsOf(w.store.published, id) ==
                  AsEvents(id, w.store.leads[id].owner, w.store.leads[id].history))
  {
    var w := After(START, moves);
    MatchedAlways(START, moves);
    RowsAreRows(w.store, w.store.published, w.rows, id);
    if Orderly(START, moves, id) {
      OrderlyStaysOnTrack(START, moves, id);
      forall k | 0 <= k < Length(w, id)
        ensures EventsOf(w.store.published, id)[k] ==
                AsEvents(id, w.store.leads[id].owner, w.store.leads[id].history)[k]
      {
        assert Agrees(w.store, w.store.published, w.rows, id, k);
      }
    } else {
      DisorderlyMirrorsNot(START, moves, id);
    }
  }

  // ----- Loss and overtaking -----

  lemma {:induction false} AfterBoth(w: World, first: seq<Move>, second: seq<Move>)
    requires Possible(w, first) && Possible(After(w, first), second)
    ensures Possible(w, first + second) && After(w, first + second) == After(After(w, first), second)
    decreases |first|
  {
    if first == [] {
      assert first + second == second;
    } else {
      AfterBoth(Next(w, first[0]), first[1..], second);
      assert (first + second)[1..] == first[1..] + second;
    }
  }

  lemma TwoMoves(w: World, m: Move, n: Move)
    requires Enabled(w, m) && Enabled(Next(w, m), n)
    ensures Possible(w, [m] + [n]) && After(w, [m] + [n]) == Next(Next(w, m), n)
  {
    OneMove(w, m);
    OneMove(Next(w, m), n);
    AfterBoth(w, [m], [n]);
  }

  /** A lead is created and the service crashes, or the send fails: the row stays without
      an event. */
  lemma EventsCanBeLost(id: LeadId, user: UserId) returns (moves: seq<Move>)
    ensures Possible(START, moves)
    ensures var w := After(START, moves);
            id in w.store.leads && |w.store.leads[id].history| == 1 && w.store.published == [] && w.pending == map[]
  {
    var create, crash := CreateLead(0, id, user), Crash(0);
    TwoMoves(START, create, crash);
    moves := [create] + [crash];
  }

  lemma OpenAndUpload(id: LeadId, user: UserId)
    ensures var moves, row := [CreateLead(0, id, user)] + [StoreDocument(1, id, user, Applicant, true)],
                              Row(None, Created, user, Manual(Applicant));
            Possible(START, moves) && After(START, moves) ==
              World(Store(map[id := Lead(user, Created, None, None, 1, [row])], []),
                    map[0 := Publishing(id, 0, OpeningEvent(id, user)), 1 := Stored(id, user)], [])
  {
    TwoMoves(START, CreateLead(0, id, user), StoreDocument(1, id, user, Applicant, true));
  }

  lemma KycCommits(w: World, id: LeadId, user: UserId, e: Event)
    requires id in w.store.leads && w.store.leads[id].status == Created
    requires w.pending == map[0 := Publishing(id, 0, e), 1 := Stored(id, user)]
    ensures var l, moves := w.store.leads[id], [KycRead(1)] + [Write(1)];
            && Possible(w, moves)
            && After(w, moves).store == WriteChange(w.store, id, KYC_CHANGE, user)
            && After(w, moves).pending == map[0 := Publishing(id, 0, e),
                                              1 := Publishing(id, |l.history|, ChangeEvent(id, l, KYC_CHANGE))]
  {
    TwoMoves(w, KycRead(1), Write(1));
  }

  lemma BothPublish(w: World, e0: Event, e1: Event, row0: nat, row1: nat, id: LeadId)
    requires w.pending == map[0 := Publishing(id, row0, e0), 1 := Publishing(id, row1, e1)]
    ensures Possible(w, [Publish(1)] + [Publish(0)])
    ensures var w' := After(w, [Publish(1)] + [Publish(0)]);
            && w'.pending == map[] && w'.store.leads == w.store.leads
            && w'.store.published == w.store.published + [e1] + [e0]
  {
    TwoMoves(w, Publish(1), Publish(0));
  }

  /** The event of a creation is published after that of the upload that followed it,
      although the only commit finds the status that was read. */
  lemma EventsCanOvertake(id: LeadId, user: UserId) returns (moves: seq<Move>)
    ensures Possible(START, moves)
    ensures var w := After(START, moves);
            && id in w.store.leads && w.pending == map[]
            && AsEvents(id, user, w.store.leads[id].history) ==
               [Event(id, user, Created, None), Event(id, user, KycUploaded, Some(Created))]
            && w.store.published == [Event(id, user, KycUploaded, Some(Created)), Event(id, user, Created, None)]
  {
    var first := [CreateLead(0, id, user)] + [StoreDocument(1, id, user, Applicant, true)];
    var second, third := [KycRead(1)] + [Write(1)], [Publish(1)] + [Publish(0)];
    OpenAndUpload(id, user);
    var w1 := After(START, first);
    KycCommits(w1, id, user, OpeningEvent(id, user));
    var w2 := After(w1, second);
    BothPublish(w2, OpeningEvent(id, user), ChangeEvent(id, w1.store.leads[id], KYC_CHANGE), 0, 1, id);
    AfterBoth(w1, second, third);
    AfterBoth(START, first, second + third);
    moves := first + (second + third);
  }

  // ----- What an event promises its reader -----

  lemma ReachedBankHandoffHasScore(l: Lead, k: nat)
    requires LeadOk(l) && k < |l.history| && l.history[k].to == BankHandoff
    ensures IsScore(l.score) && k >= 1
  {
    var k3 := StepBack(l, k);
    var k2 := StepBack(l, k3);
    assert Reached(l, CreditChecked);
  }

  /** Under every interleaving, whoever reads a lead after its BANK_HANDOFF event was
      published finds a credit score between 550 and 799. */
  lemma BankHandoffEventHasScore(moves: seq<Move>, i: nat)
    requires Possible(START, moves) && i < |After(START, moves).store.published|
    requires After(START, moves).store.published[i].status == BankHandoff
    ensures var s, e := After(START, moves).store, After(START, moves).store.published[i];
            e.lead in s.leads && IsScore(s.leads[e.lead].score)
  {
    var w := After(START, moves);
    EveryEventHasItsRow(moves);
    assert IsEventOf(w.store, w.rows[i], w.store.published[i]);
    var id := w.store.published[i].lead;
    InvAlways(START, moves);
    assert LeadOk(w.store.leads[id]);
    ReachedBankHandoffHasScore(w.store.leads[id], w.rows[i]);
  }

  /** When a published DECLINED, FUNDED or FUNDING_REJECTED event stays true: it names its
      lead's status now and in every continuation exactly when it names it now and every
      change of the lead that is still to commit goes to that status too. */
  lemma OutcomeEventLastsIff(moves: seq<Move>, i: nat)
    requires Possible(START, moves) && i < |After(START, moves).store.published|
    requires IsTerminal(After(START, moves).store.published[i].status)
    ensures var w, e := After(START, moves), After(START, moves).store.published[i];
            && e.lead in w.store.leads
            && (StatusLasts(w, e.lead, e.status)
                <==> w.store.leads[e.lead].status == e.status && AllDecidedFor(w, e.lead, e.status))
  {
    var w := After(START, moves);
    EveryEventHasItsRow(moves);
    assert IsEventOf(w.store, w.rows[i], w.store.published[i]);
    StatusLastsIff(w, w.store.published[i].lead, w.store.published[i].status);
  }

  /** Two callbacks of one handoff read the lead, and both are let through. */
  lemma BothRead(w: World, id: LeadId, user: UserId, reason: string) returns (moves: seq<Move>)
    requires id in w.store.leads && w.pending == map[] && w.store.leads[id].status == BankHandoff && reason != ""
    ensures Possible(w, moves)
    ensures After(w, moves) == w.(pending := map[
              0 := Changing(id, Change(BankHandoff, Funded, Manual(System), None, None), user),
              1 := Changing(id, Change(BankHandoff, FundingRejected, Manual(System), None, Some(reason)), user)])
  {
    var yes := UpdateRead(0, id, UpdateDto(Funded, None), user, System, 0.0);
    var no := UpdateRead(1, id, UpdateDto(FundingRejected, Some(reason)), user, System, 0.0);
    TwoMoves(w, yes, no);
    moves := [yes] + [no];
  }

  lemma BothWrite(w: World, id: LeadId, user: UserId, reason: string)
    requires id in w.store.leads && reason != ""
    requires w.pending == map[
               0 := Changing(id, Change(BankHandoff, Funded, Manual(System), None, None), user),
               1 := Changing(id, Change(BankHandoff, FundingRejected, Manual(System), None, Some(reason)), user)]
    ensures var owner, n := w.store.leads[id].owner, |w.store.leads[id].history|;
            && Possible(w, [Write(0)] + [Write(1)])
            && var w' := After(w, [Write(0)] + [Write(1)]);
               && id in w'.store.leads && w'.store.leads[id].status == FundingRejected
               && w'.store.leads[id].owner == owner && w'.store.published == w.store.published
               && w'.pending == map[0 := Publishing(id, n, Event(id, owner, Funded, Some(BankHandoff))),
                                    1 := Publishing(id, n + 1, Event(id, owner, FundingRejected, Some(BankHandoff)))]
  {
    TwoMoves(w, Write(0), Write(1));
  }

  /** From any lead in BANK_HANDOFF: two callbacks overlap, the lead is funded and then
      rejected, and the events are published the other way round. Nothing is pending any
      more, the lead is rejected for good, and the last word to its applicant is that it
      was funded. */
  lemma LastEventCanMislead(w: World, id: LeadId, user: UserId, reason: string) returns (moves: seq<Move>)
    requires id in w.store.leads && w.pending == map[] && w.store.leads[id].status == BankHandoff && reason != ""
    ensures Possible(w, moves) && After(w, moves).pending == map[]
    ensures id in After(w, moves).store.leads && StatusLasts(After(w, moves), id, FundingRejected)
    ensures After(w, moves).store.published ==
            w.store.published + [Event(id, w.store.leads[id].owner, FundingRejected, Some(BankHandoff))]
                              + [Event(id, w.store.leads[id].owner, Funded, Some(BankHandoff))]
  {
    var n, owner := |w.store.leads[id].history|, w.store.leads[id].owner;
    var looks := BothRead(w, id, user, reason);
    var w1 := After(w, looks);
    var writes, sends := [Write(0)] + [Write(1)], [Publish(1)] + [Publish(0)];
    BothWrite(w1, id, user, reason);
    var w2 := After(w1, writes);
    BothPublish(w2, Event(id, owner, Funded, Some(BankHandoff)), Event(id, owner, FundingRejected, Some(BankHandoff)),
                n, n + 1, id);
    AfterBoth(w1, writes, sends);
    AfterBoth(w, looks, writes + sends);
    moves := looks + (writes + sends);
    StatusLastsIff(After(w, moves), id, FundingRejected);
  }
}
