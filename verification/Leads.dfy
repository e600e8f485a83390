/** Leads, their append-only history and the events they publish: the tables, the
    operations split into what they decide from a read and what they write, and the
    services. */
module Leads {
  import opened Common
  import opened LeadStatus

  type LeadId = nat
  type UserId = nat

  /** How a status change came about: by hand, in some role, or by a document upload. */
  datatype Via = Manual(role: Role) | Upload

  /** A history row. The code stores the user; `via` is what let the user do it. */
  datatype Row = Row(from: Option<Status>, to: Status, changedBy: UserId, via: Via)

  datatype Lead = Lead(owner: UserId, status: Status, score: Option<int>, declineReason: Option<string>,
                       documents: nat, history: seq<Row>)

  datatype Event = Event(lead: LeadId, user: UserId, status: Status, previous: Option<Status>)

  /** The lead tables, and every event that was published, in that order. */
  datatype Store = Store(leads: map<LeadId, Lead>, published: seq<Event>)

  const EMPTY := Store(map[], [])

  // ----- Deciding -----

  /** What a transition will write: the status it read, the new one, and `extra`. */
  datatype Change = Change(from: Status, to: Status, via: Via, score: Option<int>, declineReason: Option<string>)

  datatype UpdateDto = UpdateDto(toStatus: Status, declineReason: Option<string>)

  predicate RequiresReason(to: Status) {
    to == Declined || to == FundingRejected
  }

  predicate IsPresent(s: Option<string>) {
    s.Some? && s.value != ""
  }

  /** `550 + Math.floor(Math.random() * 250)`. */
  function CreditScore(random: real): int {
    550 + (random * 250.0).Floor
  }

  predicate IsRandom(r: real) {
    0.0 <= r < 1.0
  }

  function DecideUpdate(status: Status, dto: UpdateDto, role: Role, random: real): Result<Change, Error> {
    var refused := CheckManualTransition(status, dto.toStatus, role);
    if refused.Some? then Err(refused.value)
    else if RequiresReason(dto.toStatus) && !IsPresent(dto.declineReason) then Err(Forbidden)
    else Ok(Change(status, dto.toStatus, Manual(role),
                   if dto.toStatus == CreditChecked then Some(CreditScore(random)) else None,
                   if RequiresReason(dto.toStatus) then dto.declineReason else None))
  }

  const KYC_CHANGE := Change(Created, KycUploaded, Upload, None, None)

  predicate IsStaff(role: Role) {
    role in [LoanOfficer, Underwriter, Admin, System]
  }

  // ----- Writing -----

  /** The lead after the transaction of a transition. Its present status is not compared
      with the status read. */
  function Written(l: Lead, c: Change, user: UserId): Lead {
    l.(status := c.to,
       score := if c.score.Some? then c.score else l.score,
       declineReason := if c.declineReason.Some? then c.declineReason else l.declineReason,
       history := l.history + [Row(Some(c.from), c.to, user, c.via)])
  }

  function WriteChange(s: Store, id: LeadId, c: Change, user: UserId): Store
    requires id in s.leads
  {
    s.(leads := s.leads[id := Written(s.leads[id], c, user)])
  }

  /** The event a transition announces once its transaction is over. */
  function ChangeEvent(id: LeadId, l: Lead, c: Change): Event {
    Event(id, l.owner, c.to, Some(c.from))
  }

  function OpenLead(s: Store, id: LeadId, user: UserId): Store {
    s.(leads := s.leads[id := Lead(user, Created, None, None, 0, [Row(None, Created, user, Manual(Applicant))])])
  }

  function OpeningEvent(id: LeadId, user: UserId): Event {
    Event(id, user, Created, None)
  }

  /** A send that succeeds. */
  function Announce(s: Store, e: Event): Store {
    s.(published := s.published + [e])
  }

  /** A transition whose send follows at once. */
  function Commit(s: Store, id: LeadId, c: Change, user: UserId): Store
    requires id in s.leads
  {
    Announce(WriteChange(s, id, c, user), ChangeEvent(id, s.leads[id], c))
  }

  function Create(s: Store, id: LeadId, user: UserId): Store {
    Announce(OpenLead(s, id, user), OpeningEvent(id, user))
  }

  function AddDocument(s: Store, id: LeadId): Store
    requires id in s.leads
  {
    s.(leads := s.leads[id := s.leads[id].(documents := s.leads[id].documents + 1)])
  }

  // ----- One service call as one step -----

  function UpdateStatus(s: Store, id: LeadId, dto: UpdateDto, user: UserId, role: Role, random: real): Store {
    if id !in s.leads then s
    else
      match DecideUpdate(s.leads[id].status, dto, role, random)
      case Ok(c) => Commit(s, id, c, user)
      case Err(_) => s
  }

  function UpdateError(s: Store, id: LeadId, dto: UpdateDto, role: Role, random: real): Option<Error> {
    if id !in s.leads then Some(NotFound)
    else
      match DecideUpdate(s.leads[id].status, dto, role, random)
      case Ok(_) => None
      case Err(e) => Some(e)
  }

  function MarkKycUploaded(s: Store, id: LeadId, user: UserId): Store
    requires id in s.leads
  {
    if s.leads[id].status != Created then s else Commit(s, id, KYC_CHANGE, user)
  }

  function UploadError(s: Store, id: LeadId, user: UserId, role: Role, validFile: bool): Option<Error> {
    if id !in s.leads then Some(NotFound)
    else if s.leads[id].owner != user && !IsStaff(role) then Some(Forbidden)
    else if !validFile then Some(BadRequest)
    else None
  }

  function UploadDocument(s: Store, id: LeadId, user: UserId, role: Role, validFile: bool): Store {
    if UploadError(s, id, user, role, validFile).Some? then s
    else MarkKycUploaded(AddDocument(s, id), id, user)
  }

  // ----- The services -----

  /** The lead tables and the Kafka producer, shared by the services. */
  class Prisma {
    var leads: map<LeadId, Lead>
    var published: seq<Event>

    function Value(): Store
      reads this
    {
      Store(leads, published)
    }

    constructor ()
      ensures Value() == EMPTY
    {
      leads, published := map[], [];
    }
  }

  class LeadsService {
    const prisma: Prisma

    constructor (prisma: Prisma)
      ensures this.prisma == prisma
    {
      this.prisma := prisma;
    }

    method CreateLead(id: LeadId, user: UserId)
      modifies prisma
      ensures prisma.Value() == Create(old(prisma.Value()), id, user)
    {
      var lead := Lead(user, Created, None, None, 0, []);
      prisma.leads := prisma.leads[id := lead];
      prisma.leads := prisma.leads[id := lead.(history := [Row(None, Created, user, Manual(Applicant))])];
      prisma.published := prisma.published + [Event(id, user, Created, None)];
    }

    method Transition(id: LeadId, c: Change, user: UserId)
      requires id in prisma.leads
      modifies prisma
      ensures prisma.Value() == Commit(old(prisma.Value()), id, c, user)
    {
      var lead := prisma.leads[id].(status := c.to);
      if c.score.Some? {
        lead := lead.(score := c.score);
      }
      if c.declineReason.Some? {
        lead := lead.(declineReason := c.declineReason);
      }
      prisma.leads := prisma.leads[id := lead.(history := lead.history + [Row(Some(c.from), c.to, user, c.via)])];
      prisma.published := prisma.published + [Event(id, lead.owner, c.to, Some(c.from))];
    }

    method MarkUploaded(id: LeadId, user: UserId) returns (error: Option<Error>)
      modifies prisma
      ensures id !in old(prisma.leads) ==> prisma.Value() == old(prisma.Value()) && error == Some(NotFound)
      ensures id in old(prisma.leads) ==>
                prisma.Value() == MarkKycUploaded(old(prisma.Value()), id, user) && error == None
    {
      if id !in prisma.leads {
        return Some(NotFound);
      }
      if prisma.leads[id].status == Created {
        Transition(id, KYC_CHANGE, user);
      }
      return None;
    }

    method Update(id: LeadId, dto: UpdateDto, user: UserId, role: Role, random: real)
      returns (error: Option<Error>)
      modifies prisma
      ensures prisma.Value() == UpdateStatus(old(prisma.Value()), id, dto, user, role, random)
      ensures error == UpdateError(old(prisma.Value()), id, dto, role, random)
    {
      if id !in prisma.leads {
        return Some(NotFound);
      }
      var lead := prisma.leads[id];
      var refused := CheckManualTransition(lead.status, dto.toStatus, role);
      if refused.Some? {
        return refused;
      }
      var requiresReason := RequiresReason(dto.toStatus);
      if requiresReason && !IsPresent(dto.declineReason) {
        return Some(Forbidden);
      }
      var score, reason := None, None;
      if dto.toStatus == CreditChecked {
        score := Some(CreditScore(random));
      }
      if requiresReason {
        reason := dto.declineReason;
      }
      Transition(id, Change(lead.status, dto.toStatus, Manual(role), score, reason), user);
      return None;
    }
  }

  class KycService {
    const leadsService: LeadsService

    constructor (leadsService: LeadsService)
      ensures this.leadsService == leadsService
    {
      this.leadsService := leadsService;
    }

    method UploadKyc(id: LeadId, user: UserId, role: Role, validFile: bool) returns (error: Option<Error>)
      modifies leadsService.prisma
      ensures leadsService.prisma.Value() ==
              UploadDocument(old(leadsService.prisma.Value()), id, user, role, validFile)
      ensures error == UploadError(old(leadsService.prisma.Value()), id, user, role, validFile)
    {
      var prisma := leadsService.prisma;
      if id !in prisma.leads {
        return Some(NotFound);
      }
      var lead := prisma.leads[id];
      if lead.owner != user && !IsStaff(role) {
        return Some(Forbidden);
      }
      if !validFile {
        return Some(BadRequest);
      }
      prisma.leads := prisma.leads[id := lead.(documents := lead.documents + 1)];
      error := leadsService.MarkUploaded(id, user);
    }
  }
}
