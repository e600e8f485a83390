/** The bank handoff: the adapter consumes status events from a channel that may lose,
    repeat and delay them, asks the simulated bank, calls back, and mails the applicant.
    Each call to the lead service is one step. */
module Handoff {
  import opened Common
  import opened LeadStatus
  import opened Leads
  import opened LeadsInterleaved
  import opened LeadsSerial

  // ----- The bank's decision -----

  function Decimal(n: nat): string {
    (if n < 10 then "" else Decimal(n / 10)) + ["0123456789"[n % 10]]
  }

  function ScoreText(n: int): string {
    if n < 0 then "-" + Decimal(-n) else Decimal(n)
  }

  const NO_SCORE := "No credit score on file for this lead."

  function BankReason(score: int): string {
    "Partner bank declined funding for credit score " + ScoreText(score) + " (simulated decision)."
  }

  function ApprovalProbability(score: int): real {
    if score >= 680 then 0.95 else if score >= 620 then 0.8 else 0.1
  }

  function DecideFundingOutcome(score: Option<int>, random: real): UpdateDto {
    match score
    case None => UpdateDto(FundingRejected, Some(NO_SCORE))
    case Some(n) =>
      if random < ApprovalProbability(n) then UpdateDto(Funded, None)
      else UpdateDto(FundingRejected, Some(BankReason(n)))
  }

  /** A higher score never turns the same draw from a funding into a rejection, no score is
      never funded, and every rejection carries the reason the lead service insists on. */
  lemma HigherScoresFundMore(low: int, high: int, random: real)
    requires low <= high
    ensures DecideFundingOutcome(Some(low), random) == UpdateDto(Funded, None)
            ==> DecideFundingOutcome(Some(high), random) == UpdateDto(Funded, None)
    ensures IsRandom(random) ==> (random < 0.1 <==> forall n :: DecideFundingOutcome(Some(n), random).toStatus == Funded)
    ensures forall score :: var dto := DecideFundingOutcome(score, random);
              || (dto.toStatus == Funded && score.Some?)
              || (dto.toStatus == FundingRejected && IsPresent(dto.declineReason))
  {
    assert random >= 0.1 ==> DecideFundingOutcome(Some(0), random).toStatus == FundingRejected;
  }

  /** The exact draws on which each score band is funded. */
  lemma FundedOnTheseDraws(score: int, random: real)
    ensures DecideFundingOutcome(Some(score), random).toStatus == Funded <==>
              || (score >= 680 && random < 0.95)
              || (620 <= score < 680 && random < 0.8)
              || (score < 620 && random < 0.1)
    ensures DecideFundingOutcome(Some(score), random).toStatus in {Funded, FundingRejected}
    ensures DecideFundingOutcome(None, random)
            == UpdateDto(FundingRejected, Some("No credit score on file for this lead."))
  {
  }

  lemma LastDigit(n: nat, m: nat, c: nat)
    requires c <= 9 && m >= 1 && n == 10 * m + c
    ensures Decimal(n) == Decimal(m) + ["0123456789"[c]]
  {
    assert n / 10 == m && n % 10 == c;
  }

  lemma OneDigit(a: nat)
    requires a <= 9
    ensures Decimal(a) == ["0123456789"[a]]
  {
    assert a % 10 == a;
  }

  lemma ThreeDigits(n: nat, m: nat, a: nat, b: nat, c: nat)
    requires 1 <= a <= 9 && b <= 9 && c <= 9 && m == 10 * a + b && n == 10 * m + c
    ensures Decimal(n) == ["0123456789"[a], "0123456789"[b], "0123456789"[c]]
  {
    assert Decimal(n) == Decimal(m) + ["0123456789"[c]] by {
      LastDigit(n, m, c);
    }
    assert Decimal(m) == Decimal(a) + ["0123456789"[b]] by {
      LastDigit(m, a, b);
    }
    OneDigit(a);
  }

  /** A rejection quotes the score in its three digits. */
  lemma RejectionQuotesScore(a: nat, b: nat, c: nat, random: real)
    requires 1 <= a <= 9 && b <= 9 && c <= 9
    ensures var dto := DecideFundingOutcome(Some(100 * a + 10 * b + c), random);
            var digits := ["0123456789"[a], "0123456789"[b], "0123456789"[c]];
            dto.toStatus == FundingRejected ==>
              dto.declineReason == Some("Partner bank declined funding for credit score " + digits
                                        + " (simulated decision).")
  {
    ThreeDigits(100 * a + 10 * b + c, 10 * a + b, a, b, c);
  }

  // ----- The adapter -----

  predicate IsNotifiable(s: Status) {
    s in {Approved, Declined, Funded, FundingRejected}
  }

  /** What the adapter does in the background: a handoff before and after it has read the
      lead, or a notification on its way. */
  datatype Task =
    | Received(id: LeadId)
    | HasRead(id: LeadId, score: Option<int>)
    | Notifying(event: Event)

  /** A mail, with the decline reason its text quotes. */
  datatype Mail = Mail(to: UserId, id: LeadId, outcome: Status, reason: Option<string>)

  datatype Plant = Plant(store: Store, tasks: map<Op, Task>, mails: seq<Mail>)

  const IDLE := Plant(EMPTY, map[], [])

  /** The identity of the adapter's service token. */
  const SERVICE: UserId := 0

  datatype Act =
    | Request(call: Call)
    | Deliver(op: Op, i: nat)
    | ReadLead(op: Op)
    | CallBack(op: Op, random: real)
    | SendMail(op: Op)
    | Lose(op: Op)

  /** Any published event may be delivered at any later time, any number of times or never. */
  ghost predicate Can(p: Plant, a: Act) {
    match a
    case Request(c) => Admitted(p.store, c)
    case Deliver(op, i) => op !in p.tasks && i < |p.store.published|
    case ReadLead(op) => op in p.tasks && p.tasks[op].Received?
    case CallBack(op, random) => op in p.tasks && p.tasks[op].HasRead? && IsRandom(random)
    case SendMail(op) => op in p.tasks && p.tasks[op].Notifying?
    case Lose(_) => true
  }

  /** `eachMessage`: what a delivered event sets off. */
  function Dispatch(e: Event): Option<Task> {
    if e.status == BankHandoff then Some(Received(e.lead))
    else if IsNotifiable(e.status) then Some(Notifying(e))
    else None
  }

  function CallBackCall(t: Task, random: real): Call
    requires t.HasRead?
  {
    Patch(t.id, DecideFundingOutcome(t.score, random), SERVICE, System, random)
  }

  /** Only the two refusals look up the reason; the lookup fails on an unknown lead. */
  function Compose(s: Store, e: Event): Option<Mail> {
    if e.status == Declined || e.status == FundingRejected then
      if e.lead in s.leads then Some(Mail(e.user, e.lead, e.status, s.leads[e.lead].declineReason)) else None
    else Some(Mail(e.user, e.lead, e.status, None))
  }

  function Perform(p: Plant, a: Act): Plant
    requires a.Deliver? ==> a.i < |p.store.published|
    requires a.ReadLead? ==> a.op in p.tasks && p.tasks[a.op].Received?
    requires a.CallBack? ==> a.op in p.tasks && p.tasks[a.op].HasRead?
    requires a.SendMail? ==> a.op in p.tasks && p.tasks[a.op].Notifying?
  {
    match a
    case Request(c) => p.(store := Step(p.store, c))
    case Deliver(op, i) =>
      (match Dispatch(p.store.published[i])
       case Some(t) => p.(tasks := p.tasks[op := t])
       case None => p)
    case ReadLead(op) =>
      var id := p.tasks[op].id;
      if id in p.store.leads then p.(tasks := p.tasks[op := HasRead(id, p.store.leads[id].score)])
      else p.(tasks := p.tasks - {op})
    case CallBack(op, random) =>
      Plant(Step(p.store, CallBackCall(p.tasks[op], random)), p.tasks - {op}, p.mails)
    case SendMail(op) =>
      (match Compose(p.store, p.tasks[op].event)
       case Some(m) => Plant(p.store, p.tasks - {op}, p.mails + [m])
       case None => p.(tasks := p.tasks - {op}))
    case Lose(op) => p.(tasks := p.tasks - {op})
  }

  ghost predicate Feasible(p: Plant, acts: seq<Act>)
    decreases |acts|
  {
    if acts == [] then true else Can(p, acts[0]) && Feasible(Perform(p, acts[0]), acts[1..])
  }

  ghost function Finally(p: Plant, acts: seq<Act>): Plant
    requires Feasible(p, acts)
    decreases |acts|
  {
    if acts == [] then p else Finally(Perform(p, acts[0]), acts[1..])
  }

  // ----- The services -----

  class HandoffService {
    const leadsService: LeadsService

    constructor (leadsService: LeadsService)
      ensures this.leadsService == leadsService
    {
      this.leadsService := leadsService;
    }

    /** `processHandoff` without interference: read, wait, decide, call back. */
    method ProcessHandoff(event: Event, random: real) returns (error: Option<Error>)
      modifies leadsService.prisma
      ensures var s := old(leadsService.prisma.Value());
              event.lead in s.leads ==>
                var call := CallBackCall(HasRead(event.lead, s.leads[event.lead].score), random);
                && leadsService.prisma.Value() == Step(s, call)
                && error == UpdateError(s, event.lead, call.dto, System, random)
      ensures event.lead !in old(leadsService.prisma.leads) ==>
                unchanged(leadsService.prisma) && error == Some(NotFound)
    {
      if event.lead !in leadsService.prisma.leads {
        return Some(NotFound);
      }
      var lead := leadsService.prisma.leads[event.lead];
      var decision := DecideFundingOutcome(lead.score, random);
      if decision.toStatus == Funded {
        error := leadsService.Update(event.lead, UpdateDto(Funded, None), SERVICE, System, random);
      } else {
        var dto := UpdateDto(FundingRejected, decision.declineReason);
        error := leadsService.Update(event.lead, dto, SERVICE, System, random);
      }
    }
  }

  class NotificationsService {
    const leadsService: LeadsService
    var sent: seq<Mail>

    constructor (leadsService: LeadsService)
      ensures this.leadsService == leadsService && sent == []
    {
      this.leadsService, sent := leadsService, [];
    }

    /** `notify`: the user, the text, the mail; each of the three may fail. */
    method Notify(event: Event, userFound: bool, smtpUp: bool) returns (failed: bool)
      modifies this
      ensures var s, told := leadsService.prisma.Value(), event.status in {Approved, Declined, Funded, FundingRejected};
              var refusal := event.status in {Declined, FundingRejected};
              && (failed <==> told && !(userFound && smtpUp && (refusal ==> event.lead in s.leads)))
              && (failed || !told ==> sent == old(sent))
              && (told && !failed ==>
                    sent == old(sent) + [Mail(event.user, event.lead, event.status,
                                              if refusal then s.leads[event.lead].declineReason else None)])
    {
      if !IsNotifiable(event.status) {
        return false;
      }
      if !userFound {
        return true;
      }
      var mail := Mail(event.user, event.lead, event.status, None);
      if event.status == Declined || event.status == FundingRejected {
        if event.lead !in leadsService.prisma.leads {
          return true;
        }
        mail := mail.(reason := leadsService.prisma.leads[event.lead].declineReason);
      }
      if !smtpUp {
        return true;
      }
      sent := sent + [mail];
      return false;
    }
  }

  class LeadStatusConsumer {
    const notifications: NotificationsService
    /** The handoffs started in the background, and the messages given up. */
    var started: seq<Event>
    var deadLetters: seq<string>

    constructor (notifications: NotificationsService)
      ensures this.notifications == notifications && started == [] && deadLetters == []
    {
      this.notifications, started, deadLetters := notifications, [], [];
    }

    /** `eachMessage`: a message that does not parse, or whose mail fails, goes to the
        dead-letter topic; a handoff is started and not awaited. */
    method EachMessage(raw: string, parsed: Option<Event>, userFound: bool, smtpUp: bool)
      modifies this, notifications
      ensures parsed == None ==>
                && deadLetters == old(deadLetters) + [raw]
                && started == old(started) && notifications.sent == old(notifications.sent)
      ensures parsed.Some? && parsed.value.status == BankHandoff ==>
                && started == old(started) + [parsed.value]
                && deadLetters == old(deadLetters) && notifications.sent == old(notifications.sent)
      ensures parsed.Some? && parsed.value.status in {Approved, Declined, Funded, FundingRejected} ==>
                var s, e := notifications.leadsService.prisma.Value(), parsed.value;
                var refusal := e.status in {Declined, FundingRejected};
                var arrives := userFound && smtpUp && (refusal ==> e.lead in s.leads);
                && started == old(started)
                && deadLetters == old(deadLetters) + (if arrives then [] else [raw])
                && (!arrives ==> notifications.sent == old(notifications.sent))
                && (arrives ==>
                      (var mail := Mail(e.user, e.lead, e.status, if refusal then s.leads[e.lead].declineReason else None);
                       notifications.sent == old(notifications.sent) + [mail]))
      ensures parsed.Some? && parsed.value.status in {Created, KycUploaded, CreditChecked} ==>
                && started == old(started) && deadLetters == old(deadLetters)
                && notifications.sent == old(notifications.sent)
    {
      if parsed.None? {
        deadLetters := deadLetters + [raw];
        return;
      }
      var event := parsed.value;
      if event.status == BankHandoff {
        started := started + [event];
      } else if IsNotifiable(event.status) {
        var failed := notifications.Notify(event, userFound, smtpUp);
        if failed {
          deadLetters := deadLetters + [raw];
        }
      }
    }
  }
}

/** What the handoff protocol guarantees, whatever the channel does. */
module HandoffProofs {
  import opened Common
  import opened LeadStatus
  import opened Leads
  import opened LeadsInterleaved
  import opened LeadEvents
  import opened LeadsSerial
  import opened Handoff

  ghost predicate IsOutcome(s: Status) {
    s == Declined || s == Funded || s == FundingRejected
  }

  /** The lead exists and its history entered s. */
  ghost predicate HasReached(s: Store, id: LeadId, status: Status) {
    id in s.leads && Reached(s.leads[id], status)
  }

  ghost predicate TaskOk(s: Store, t: Task) {
    match t
    case Received(id) => HasReached(s, id, BankHandoff)
    case HasRead(id, score) => HasReached(s, id, BankHandoff) && IsScore(score)
    case Notifying(e) =>
      IsNotifiable(e.status) && HasReached(s, e.lead, e.status) && e.user == s.leads[e.lead].owner
  }

  /** The mail went to the applicant about something that happened to their lead; and
      unless it reports an approval, which the lead moves on from, its outcome is the
      lead's status. */
  ghost predicate MailTrue(s: Store, m: Mail) {
    && HasReached(s, m.id, m.outcome) && m.to == s.leads[m.id].owner
    && (m.outcome != Approved ==> IsOutcome(m.outcome) && s.leads[m.id].status == m.outcome)
    && (RequiresReason(m.outcome) ==> IsPresent(m.reason) && m.reason == s.leads[m.id].declineReason)
  }

  ghost predicate Inv(p: Plant) {
    && LeadsSerial.Inv(p.store)
    && (forall op {:trigger p.tasks[op]} | op in p.tasks :: TaskOk(p.store, p.tasks[op]))
    && (forall i {:trigger p.mails[i]} | 0 <= i < |p.mails| :: MailTrue(p.store, p.mails[i]))
  }

  lemma ReachedStays(l: Lead, l': Lead, s: Status)
    requires Reached(l, s) && l.history <= l'.history
    ensures Reached(l', s)
  {
    var j :| 0 <= j < |l.history| && l.history[j].to == s;
    assert l'.history[j] == l.history[j];
  }

  lemma StepGrows(s: Store, c: Call)
    requires Admitted(s, c)
    ensures StoreGrows(s, Step(s, c))
  {
  }

  lemma TaskStaysOk(s: Store, c: Call, t: Task)
    requires Admitted(s, c) && TaskOk(s, t)
    ensures TaskOk(Step(s, c), t)
  {
    StepGrows(s, c);
    var id := if t.Notifying? then t.event.lead else t.id;
    var status := if t.Notifying? then t.event.status else BankHandoff;
    ReachedStays(s.leads[id], Step(s, c).leads[id], status);
  }

  lemma MailStaysTrue(s: Store, c: Call, m: Mail)
    requires LeadsSerial.Inv(s) && Admitted(s, c) && MailTrue(s, m)
    ensures MailTrue(Step(s, c), m)
  {
    StepGrows(s, c);
    ReachedStays(s.leads[m.id], Step(s, c).leads[m.id], m.outcome);
    if m.outcome != Approved {
      TerminalStays(s, c, m.id);
    }
  }

  lemma CallKeepsInv(p: Plant, c: Call, tasks: map<Op, Task>)
    requires Inv(p) && Admitted(p.store, c)
    requires forall op | op in tasks :: op in p.tasks && tasks[op] == p.tasks[op]
    ensures Inv(Plant(Step(p.store, c), tasks, p.mails))
  {
    StepKeepsInv(p.store, c);
    forall op | op in tasks ensures TaskOk(Step(p.store, c), tasks[op]) {
      assert TaskOk(p.store, p.tasks[op]);
      TaskStaysOk(p.store, c, tasks[op]);
    }
    forall i | 0 <= i < |p.mails| ensures MailTrue(Step(p.store, c), p.mails[i]) {
      assert MailTrue(p.store, p.mails[i]);
      MailStaysTrue(p.store, c, p.mails[i]);
    }
  }

  /** A delivered event tells the truth: its lead has entered the status it names and
      belongs to the user it names. */
  lemma EventIsTrue(s: Store, i: nat)
    requires LeadsSerial.Inv(s) && i < |s.published|
    ensures HasReached(s, s.published[i].lead, s.published[i].status)
    ensures s.published[i].user == s.leads[s.published[i].lead].owner
  {
    var e := s.published[i];
    var l := s.leads[e.lead];
    var k := PublishedIsMirrored(s.published, i);
    assert EventsOf(s.published, e.lead) == AsEvents(e.lead, l.owner, l.history);
    assert l.history[k].to == e.status;
  }

  lemma ReadFindsScore(s: Store, id: LeadId)
    requires LeadsSerial.Inv(s) && HasReached(s, id, BankHandoff)
    ensures IsScore(s.leads[id].score)
  {
    var l := s.leads[id];
    assert LeadSerial(l);
    var k :| 0 <= k < |l.history| && l.history[k].to == BankHandoff;
    ReachedBankHandoffHasScore(l, k);
  }

  lemma OutcomeIsStatus(s: Store, id: LeadId, status: Status)
    requires LeadsSerial.Inv(s) && HasReached(s, id, status) && IsOutcome(status)
    ensures s.leads[id].status == status
    ensures RequiresReason(status) ==> IsPresent(s.leads[id].declineReason)
  {
    var l := s.leads[id];
    assert LeadSerial(l);
    var k :| 0 <= k < |l.history| && l.history[k].to == status;
    TerminalIsLast(l, k);
  }

  lemma ActKeepsInv(p: Plant, a: Act)
    requires Inv(p) && Can(p, a)
    ensures Inv(Perform(p, a))
  {
    match a
    case Request(c) => CallKeepsInv(p, c, p.tasks);
    case Deliver(op, i) => EventIsTrue(p.store, i);
    case ReadLead(op) =>
      assert TaskOk(p.store, p.tasks[op]);
      ReadFindsScore(p.store, p.tasks[op].id);
    case CallBack(op, random) => CallKeepsInv(p, CallBackCall(p.tasks[op], random), p.tasks - {op});
    case SendMail(op) =>
      assert TaskOk(p.store, p.tasks[op]);
      var e := p.tasks[op].event;
      if IsOutcome(e.status) {
        OutcomeIsStatus(p.store, e.lead, e.status);
      }
    case Lose(_) =>
  }

  lemma {:induction false} InvAlways(p: Plant, acts: seq<Act>)
    requires Inv(p) && Feasible(p, acts)
    ensures Inv(Finally(p, acts))
    decreases |acts|
  {
    if acts != [] {
      ActKeepsInv(p, acts[0]);
      InvAlways(Perform(p, acts[0]), acts[1..]);
    }
  }

  // ----- The guarantees -----

  predicate IsFundingOutcome(s: Status) {
    s == Funded || s == FundingRejected
  }

  lemma ActKeepsTerminal(p: Plant, a: Act, id: LeadId)
    requires Inv(p) && Can(p, a) && id in p.store.leads && IsTerminal(p.store.leads[id].status)
    ensures id in Perform(p, a).store.leads
    ensures Perform(p, a).store.leads[id].history == p.store.leads[id].history
    ensures Perform(p, a).store.leads[id].status == p.store.leads[id].status
    ensures Perform(p, a).store.leads[id].declineReason == p.store.leads[id].declineReason
  {
    if a.Request? {
      TerminalStays(p.store, a.call, id);
    } else if a.CallBack? {
      TerminalStays(p.store, CallBackCall(p.tasks[a.op], a.random), id);
    }
  }

  lemma {:induction false} TerminalHolds(p: Plant, acts: seq<Act>, id: LeadId)
    requires Inv(p) && Feasible(p, acts) && id in p.store.leads && IsTerminal(p.store.leads[id].status)
    ensures id in Finally(p, acts).store.leads
    ensures Finally(p, acts).store.leads[id].history == p.store.leads[id].history
    ensures Finally(p, acts).store.leads[id].status == p.store.leads[id].status
    ensures Finally(p, acts).store.leads[id].declineReason == p.store.leads[id].declineReason
    decreases |acts|
  {
    if acts != [] {
      ActKeepsInv(p, acts[0]);
      ActKeepsTerminal(p, acts[0], id);
      TerminalHolds(Perform(p, acts[0]), acts[1..], id);
    }
  }

  /** Whatever the channel loses, repeats or delays and whichever handoffs crash, a lead
      gets at most one funding outcome, and the first one sticks. */
  lemma FirstOutcomeSticks(acts: seq<Act>, later: seq<Act>, id: LeadId, k: nat)
    requires Feasible(IDLE, acts) && Feasible(Finally(IDLE, acts), later)
    requires id in Finally(IDLE, acts).store.leads
    requires var h := Finally(IDLE, acts).store.leads[id].history; k < |h| && IsFundingOutcome(h[k].to)
    ensures var l, end := Finally(IDLE, acts).store.leads[id], Finally(Finally(IDLE, acts), later).store;
            && id in end.leads
            && end.leads[id].history == l.history && end.leads[id].status == l.history[k].to
            && forall j | 0 <= j < |l.history| && IsFundingOutcome(l.history[j].to) :: j == k
  {
    var p := Finally(IDLE, acts);
    InvAlways(IDLE, acts);
    var l := p.store.leads[id];
    assert LeadSerial(l);
    TerminalIsLast(l, k);
    forall j | 0 <= j < |l.history| && IsFundingOutcome(l.history[j].to) ensures j == k {
      TerminalIsLast(l, j);
    }
    TerminalHolds(p, later, id);
  }

  /** The lead service lets the adapter's decision pass from BANK_HANDOFF only. */
  lemma BankMayDecide(status: Status, score: Option<int>, random: real)
    ensures var dto := DecideFundingOutcome(score, random);
            IsFundingOutcome(dto.toStatus) && (DecideUpdate(status, dto, System, random).Ok? <==> status == BankHandoff)
  {
  }

  lemma DueAt(s: Store, t: Task, random: real)
    requires LeadsSerial.Inv(s) && t.HasRead? && TaskOk(s, t)
    ensures var call := CallBackCall(t, random);
            && IsFundingOutcome(call.dto.toStatus)
            && (UpdateError(s, t.id, call.dto, System, random) == None <==> s.leads[t.id].status == BankHandoff)
            && (s.leads[t.id].status != BankHandoff ==> IsFundingOutcome(s.leads[t.id].status))
  {
    BankMayDecide(s.leads[t.id].status, t.score, random);
    AfterHandoff(s, t.id);
  }

  /** Every callback is for a lead that has reached BANK_HANDOFF, and is decided on a
      credit score from 550 to 799, so never by the no-score branch. The lead service accepts
      it exactly when the lead still is in BANK_HANDOFF; otherwise it already has an
      outcome. */
  lemma CallBackIsDue(acts: seq<Act>, op: Op, random: real)
    requires Feasible(IDLE, acts) && Can(Finally(IDLE, acts), CallBack(op, random))
    ensures var p := Finally(IDLE, acts);
            var t, call := p.tasks[op], CallBackCall(p.tasks[op], random);
            && HasReached(p.store, t.id, BankHandoff)
            && IsScore(t.score)
            && IsFundingOutcome(call.dto.toStatus)
            && (UpdateError(p.store, t.id, call.dto, System, random) == None
                <==> p.store.leads[t.id].status == BankHandoff)
            && (p.store.leads[t.id].status != BankHandoff ==> IsFundingOutcome(p.store.leads[t.id].status))
  {
    InvAlways(IDLE, acts);
    var p := Finally(IDLE, acts);
    assert TaskOk(p.store, p.tasks[op]);
    DueAt(p.store, p.tasks[op], random);
  }

  lemma AfterHandoff(s: Store, id: LeadId)
    requires LeadsSerial.Inv(s) && HasReached(s, id, BankHandoff)
    ensures s.leads[id].status == BankHandoff || IsFundingOutcome(s.leads[id].status)
  {
    var l := s.leads[id];
    assert LeadSerial(l);
    var k :| 0 <= k < |l.history| && l.history[k].to == BankHandoff;
    if k < |l.history| - 1 {
      assert Follows(l.history, k + 1);
      TerminalIsLast(l, k + 1);
    }
  }

  /** Every mail goes to the applicant of a lead that did enter the status it reports. A
      mail about a decline, a funding or a funding rejection is true for ever: that is the
      lead's status now and after whatever follows, and a refusal quotes the reason the
      lead keeps. */
  lemma MailsAreTrueForever(acts: seq<Act>, later: seq<Act>, i: nat)
    requires Feasible(IDLE, acts) && Feasible(Finally(IDLE, acts), later)
    requires i < |Finally(IDLE, acts).mails|
    ensures var m, s := Finally(IDLE, acts).mails[i], Finally(IDLE, acts).store;
            var end := Finally(Finally(IDLE, acts), later).store;
            && HasReached(s, m.id, m.outcome) && m.to == s.leads[m.id].owner
            && (m.outcome != Approved ==>
                  IsOutcome(m.outcome) && m.id in end.leads && end.leads[m.id].status == m.outcome)
            && (RequiresReason(m.outcome) ==> IsPresent(m.reason) && m.reason == end.leads[m.id].declineReason)
  {
    var p := Finally(IDLE, acts);
    InvAlways(IDLE, acts);
    assert MailTrue(p.store, p.mails[i]);
    if p.mails[i].outcome != Approved {
      TerminalHolds(p, later, p.mails[i].id);
    }
  }

  /** Where calls overlap, mails can be wrong for good: from any lead in BANK_HANDOFF a run
      ends with nothing pending and the lead rejected for ever, while the last event makes
      the adapter tell its applicant that it was funded. */
  lemma OverlapCanMislead(w: World, id: LeadId, user: UserId, reason: string) returns (moves: seq<Move>)
    requires id in w.store.leads && w.pending == map[] && w.store.leads[id].status == BankHandoff && reason != ""
    ensures Possible(w, moves) && After(w, moves).pending == map[]
    ensures StatusLasts(After(w, moves), id, FundingRejected)
    ensures var s, events := After(w, moves).store, After(w, moves).store.published;
            && events != []
            && Compose(s, events[|events| - 1]) == Some(Mail(w.store.leads[id].owner, id, Funded, None))
  {
    moves := LastEventCanMislead(w, id, user, reason);
  }

  /** A mail composed from a published outcome event is right in every continuation exactly
      when the lead has that status and every change still to commit goes there too. */
  lemma OverlappedMailLastsIff(moves: seq<Move>, i: nat)
    requires Possible(START, moves) && i < |After(START, moves).store.published|
    requires IsOutcome(After(START, moves).store.published[i].status)
    ensures var w := After(START, moves);
            var e, mail := w.store.published[i], Compose(w.store, w.store.published[i]);
            && mail.Some? && mail.value.id == e.lead && mail.value.outcome == e.status
            && e.lead in w.store.leads && mail.value.to == w.store.leads[e.lead].owner
            && (StatusLasts(w, mail.value.id, mail.value.outcome)
                <==> w.store.leads[e.lead].status == e.status && AllDecidedFor(w, e.lead, e.status))
  {
    var w := After(START, moves);
    OutcomeEventLastsIff(moves, i);
    EveryEventHasItsRow(moves);
    assert IsEventOf(w.store, w.rows[i], w.store.published[i]);
  }

  // ----- Every delivery has its effect -----

  ghost predicate LeavesAlone(acts: seq<Act>, op: Op) {
    forall i | 0 <= i < |acts| :: acts[i].Request? || acts[i].op != op
  }

  lemma {:induction false} TaskWaits(p: Plant, acts: seq<Act>, op: Op)
    requires Feasible(p, acts) && op in p.tasks && LeavesAlone(acts, op)
    ensures op in Finally(p, acts).tasks && Finally(p, acts).tasks[op] == p.tasks[op]
    decreases |acts|
  {
    if acts != [] {
      assert acts[0].Request? || acts[0].op != op;
      TaskWaits(Perform(p, acts[0]), acts[1..], op);
    }
  }

  /** Delivering an approval, a decline, a funding or a funding rejection and then, after
      anything else that happens, sending its mail adds exactly one mail that names that
      status, goes to the lead's owner and, for a refusal, quotes the lead's reason. */
  lemma DeliveredOutcomeIsMailed(acts: seq<Act>, op: Op, i: nat, between: seq<Act>)
    requires Feasible(IDLE, acts) && Can(Finally(IDLE, acts), Deliver(op, i))
    requires Finally(IDLE, acts).store.published[i].status in {Approved, Declined, Funded, FundingRejected}
    requires Feasible(Perform(Finally(IDLE, acts), Deliver(op, i)), between) && LeavesAlone(between, op)
    ensures var e, delivered := Finally(IDLE, acts).store.published[i], Perform(Finally(IDLE, acts), Deliver(op, i));
            var p := Finally(delivered, between);
            && delivered.mails == Finally(IDLE, acts).mails && delivered.store == Finally(IDLE, acts).store
            && Can(p, SendMail(op)) && e.lead in p.store.leads
            && Perform(p, SendMail(op)) == Plant(p.store, p.tasks - {op},
                 p.mails + [Mail(p.store.leads[e.lead].owner, e.lead, e.status,
                                 if e.status in {Declined, FundingRejected}
                                 then p.store.leads[e.lead].declineReason else None)])
  {
    var p0 := Finally(IDLE, acts);
    var delivered := Perform(p0, Deliver(op, i));
    InvAlways(IDLE, acts);
    ActKeepsInv(p0, Deliver(op, i));
    InvAlways(delivered, between);
    TaskWaits(delivered, between, op);
    var p := Finally(delivered, between);
    assert TaskOk(p.store, p.tasks[op]);
  }

  /** Delivering a handoff starts a task, and reading the lead makes its callback possible,
      on the score the lead has. */
  lemma DeliveredHandoffIsRead(acts: seq<Act>, op: Op, i: nat)
    requires Feasible(IDLE, acts) && Can(Finally(IDLE, acts), Deliver(op, i))
    requires Finally(IDLE, acts).store.published[i].status == BankHandoff
    ensures var p0, id := Finally(IDLE, acts), Finally(IDLE, acts).store.published[i].lead;
            var p1 := Perform(p0, Deliver(op, i));
            && p1 == p0.(tasks := p0.tasks[op := Received(id)]) && Can(p1, ReadLead(op))
            && id in p0.store.leads && p0.store.leads[id].score.Some?
            && Perform(p1, ReadLead(op)) == p0.(tasks := p0.tasks[op := HasRead(id, p0.store.leads[id].score)])
            && HasReached(p0.store, id, BankHandoff)
  {
    var p0 := Finally(IDLE, acts);
    InvAlways(IDLE, acts);
    EventIsTrue(p0.store, i);
    ReadFindsScore(p0.store, p0.store.published[i].lead);
  }

  /** Reading and calling back may come later, after anything else; the callback settles a
      lead that has not moved on, on the score that was read: funded on the draws of its
      band, and otherwise rejected with a reason; it changes nothing of a lead that has. */
  lemma CallBackSettles(acts: seq<Act>, op: Op, random: real)
    requires Feasible(IDLE, acts) && Can(Finally(IDLE, acts), CallBack(op, random))
    ensures var p, t := Finally(IDLE, acts), Finally(IDLE, acts).tasks[op];
            && t.id in p.store.leads && t.score.Some?
            && var p', l, n := Perform(p, CallBack(op, random)), p.store.leads[t.id], t.score.value;
               && p'.tasks == p.tasks - {op} && p'.mails == p.mails && t.id in p'.store.leads
               && (l.status != BankHandoff ==> p'.store == p.store)
               && (l.status == BankHandoff ==>
                     && p'.store.leads[t.id].status == (if IsFundingDraw(n, random) then Funded else FundingRejected)
                     && p'.store.leads[t.id].score == l.score
                     && (p'.store.leads[t.id].status == FundingRejected ==>
                           IsPresent(p'.store.leads[t.id].declineReason)))
  {
    var p := Finally(IDLE, acts);
    InvAlways(IDLE, acts);
    assert TaskOk(p.store, p.tasks[op]);
    SettlesOn(p.store, p.tasks[op], random);
  }

  /** The draws on which the partner bank funds a score. */
  predicate IsFundingDraw(score: int, random: real) {
    || (score >= 680 && random < 0.95)
    || (620 <= score < 680 && random < 0.8)
    || (score < 620 && random < 0.1)
  }

  lemma SettlesOn(s: Store, t: Task, random: real)
    requires t.HasRead? && t.score.Some? && t.id in s.leads && IsRandom(random)
    ensures var s', l, n := Step(s, CallBackCall(t, random)), s.leads[t.id], t.score.value;
            && t.id in s'.leads
            && (l.status != BankHandoff ==> s' == s)
            && (l.status == BankHandoff ==>
                  && s'.leads[t.id].status == (if IsFundingDraw(n, random) then Funded else FundingRejected)
                  && s'.leads[t.id].score == l.score
                  && (s'.leads[t.id].status == FundingRejected ==> IsPresent(s'.leads[t.id].declineReason)))
  {
    FundedOnTheseDraws(t.score.value, random);
    BankMayDecide(s.leads[t.id].status, t.score, random);
  }

  /** Delivering any other event changes nothing. */
  lemma OtherDeliveriesDoNothing(p: Plant, op: Op, i: nat)
    requires Can(p, Deliver(op, i)) && p.store.published[i].status in {Created, KycUploaded, CreditChecked}
    ensures Perform(p, Deliver(op, i)) == p
  {
  }
}
