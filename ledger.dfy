/** The access-request ledger: the `demande_acces` table and the five
    handlers that read or change it. The user and room directories are read,
    never written. Each handler runs alone, start to finish. */
module Ledger {
  import opened Base
  import opened Errors
  import opened Rooms
  import opened Users
  import opened Requests

  class AccessLedger {
    /** The `users` and `salles` tables, as the ledger sees them. */
    const users: map<int, User>
    const rooms: map<int, Room>
    /** The rows of `demande_acces`, in insertion order. */
    var requests: seq<Request>
    /** The table's `AUTO_INCREMENT` counter: the id of the next row. */
    var nextId: int

    /** What a row satisfies because the submission checks admitted it. */
    predicate Recorded(e: Request) {
      && e.sub.start < e.sub.end
      && e.sub.reason != ""
      && e.sub.userId in users
      && e.sub.roomId in rooms
      && InsideHours(e.sub, rooms[e.sub.roomId])
    }

    /** The table's invariant: every row was admitted, ids increase with
        insertion order and stay below the counter, and no pending row hits
        the window of an earlier pending row of the same user, room and day. */
    ghost predicate Valid()
      reads this
    {
      && 1 <= nextId
      && (forall i :: 0 <= i < |requests| ==> Recorded(requests[i]) && 1 <= requests[i].id < nextId)
      && (forall i, j :: 0 <= i < j < |requests| ==> requests[i].id < requests[j].id)
      && (forall i, j :: 0 <= i < j < |requests| && IsPending(requests[j]) ==>
            !Conflicts(requests[i], requests[j].sub))
    }

    constructor (users: map<int, User>, rooms: map<int, Room>)
      ensures Valid()
      ensures this.users == users && this.rooms == rooms
      ensures requests == [] && nextId == 1
    {
      this.users := users;
      this.rooms := rooms;
      requests := [];
      nextId := 1;
    }

    /** `POST /api/demande-acces`: runs the admission checks and, when they
        pass, appends one pending row created at `now`; otherwise nothing changes. */
    method Submit(b: SubmitBody, today: int, now: int) returns (res: Result<Request, Error>)
      requires Valid()
      modifies this
      ensures Valid()
      ensures match Admit(b, today, users, rooms, old(requests))
        case Err(e) =>
          res == Err(e) && requests == old(requests) && nextId == old(nextId)
        case Ok(n) =>
          && res == Ok(Request(old(nextId), n, Pending, now))
          && requests == old(requests) + [res.value]
          && nextId == old(nextId) + 1
      ensures res.Ok? ==> res.value.sub == SubmissionOf(b) && IsPending(res.value)
    {
      match Admit(b, today, users, rooms, requests)
      case Err(e) =>
        res := Err(e);
      case Ok(n) =>
        var row := Request(nextId, n, Pending, now);
        requests := requests + [row];
        nextId := nextId + 1;
        res := Ok(row);
    }

    /** `PATCH /api/demande-acces/:id/approuver`. */
    method Approve(id: int) returns (res: Result<Request, Error>)
      requires Valid()
      modifies this
      ensures Valid() && nextId == old(nextId)
      ensures match Locate(old(requests), id)
        case Err(e) => res == Err(e) && requests == old(requests)
        case Ok(k) =>
          && requests == old(requests)[k := old(requests)[k].(status := Approved)]
          && res == Ok(requests[k])
    {
      res := Decide(id, Approved);
    }

    /** `PATCH /api/demande-acces/:id/rejeter`. */
    method Reject(id: int) returns (res: Result<Request, Error>)
      requires Valid()
      modifies this
      ensures Valid() && nextId == old(nextId)
      ensures match Locate(old(requests), id)
        case Err(e) => res == Err(e) && requests == old(requests)
        case Ok(k) =>
          && requests == old(requests)[k := old(requests)[k].(status := Rejected)]
          && res == Ok(requests[k])
    {
      res := Decide(id, Rejected);
    }

    /** The body both decisions share: a pending request with that id gets
        the status `to`; every other row, and every other field, is kept. */
    method Decide(id: int, to: Status) returns (res: Result<Request, Error>)
      requires Valid() && to != Pending
      modifies this
      ensures Valid() && nextId == old(nextId)
      ensures match Locate(old(requests), id)
        case Err(e) => res == Err(e) && requests == old(requests)
        case Ok(k) =>
          && requests == old(requests)[k := old(requests)[k].(status := to)]
          && res == Ok(requests[k])
    {
      match Locate(requests, id)
      case Err(e) =>
        res := Err(e);
      case Ok(k) =>
        requests := requests[k := requests[k].(status := to)];
        res := Ok(requests[k]);
    }

    /** `GET /api/demande-acces?statut=`: the rows whose status is the one
        asked for; with no (or an empty) `statut`, the pending rows. */
    function List(statut: Field<string>): (r: seq<Request>)
      reads this
      ensures statut.Absent? || statut.value == "" ==>
        forall x :: x in r <==> x in requests && IsPending(x)
      ensures statut.Given? && statut.value != "" ==>
        forall x :: x in r <==> x in requests && StatusName(x.status) == statut.value
      ensures forall s :: statut == Given(StatusName(s)) ==>
        forall x :: x in r <==> x in requests && x.status == s
      ensures forall x :: x in r ==> multiset(r)[x] == multiset(requests)[x]
      ensures statut.Given? && statut.value !in ["", "en_attente", "approuvee", "rejetee"] ==> r == []
    {
      if statut.Given? && statut.value != "" then
        var r := Filter((e: Request) => StatusName(e.status) == statut.value, requests);
        assert r != [] ==> r[0] in r;
        assert forall s, t :: StatusName(s) == StatusName(t) ==> s == t by {
          forall s, t {
            StatusNamesDistinct(s, t);
          }
        }
        r
      else
        Filter(IsPending, requests)
    }

    /** `GET /api/demande-acces/user/:user_id`: the user's rows, newest first;
        an unknown user and a user without rows are both errors. */
    function ListByUser(userId: int): (r: Result<seq<Request>, Error>)
      reads this
      ensures r == Err(UserNotFound) <==> userId !in users
      ensures r == Err(NoRequests) <==>
        userId in users && forall x :: x in requests ==> x.sub.userId != userId
      ensures r.Ok? <==> userId in users && exists x :: x in requests && x.sub.userId == userId
      ensures r.Ok? ==> r.value != [] && NewestFirst(r.value)
      ensures r.Ok? ==>
        forall x :: multiset(r.value)[x] == if x.sub.userId == userId then multiset(requests)[x] else 0
    {
      if userId !in users then Err(UserNotFound)
      else
        var mine := Filter((e: Request) => e.sub.userId == userId, requests);
        if mine == [] then Err(NoRequests)
        else
          assert mine[0] in mine;
          Ok(SortNewestFirst(mine))
    }
  }

  /** A room open 09:00 to 18:00 and one user, as the ledger's directories. */
  method NewCampusLedger() returns (ledger: AccessLedger)
    ensures fresh(ledger) && ledger.Valid() && ledger.requests == [] && ledger.nextId == 1
    ensures ledger.users == map[1 := Awa] && ledger.rooms == map[7 := B12]
  {
    ledger := new AccessLedger(map[1 := Awa], map[7 := B12]);
  }

  const Awa := User("Ouedraogo", "Awa", "Étudiant", "awa@example.org", None, None, true, false)
  const B12 := Room("B12", 30, 0, 540, 1080)

  /** A submission of user 1 for room 7 on `day`, from `start` to `end` (minutes). */
  function Body(day: int, start: int, end: int): SubmitBody {
    SubmitBody(Given(1), Given(7), Given(day), Given(start), Given(end), Given("TP"))
  }

  /** Room hours 09:00-18:00: 10:00-11:00 is admitted; 10:30-11:30 then
      conflicts with it; 07:00-08:00 is outside the hours, and the error
      reports them. */
  method ConflictScenario(day: int) returns (first: Result<Request, Error>, second: Result<Request, Error>,
                                             early: Result<Request, Error>)
    ensures first.Ok? && IsPending(first.value)
    ensures second == Err(DuplicatePending)
    ensures early == Err(OutsideHours(540, 1080))
  {
    var ledger := NewCampusLedger();
    assert Admissible(Body(day, 600, 660), day, ledger.users, ledger.rooms, []);
    first := ledger.Submit(Body(day, 600, 660), day, 1);
    assert ledger.requests == [first.value];
    assert Conflicts(ledger.requests[0], SubmissionOf(Body(day, 630, 690)));
    assert Placed(Body(day, 630, 690), day, ledger.users, ledger.rooms);
    second := ledger.Submit(Body(day, 630, 690), day, 2);
    assert Located(Body(day, 420, 480), day, ledger.users, ledger.rooms);
    early := ledger.Submit(Body(day, 420, 480), day, 3);
  }

  /** Once 10:00-11:00 is approved, 10:30-11:30 is admitted beside it (an
      approved row blocks nothing), and approving the first request again fails. */
  method ApprovalScenario(day: int) returns (first: Result<Request, Error>, approved: Result<Request, Error>,
                                             retry: Result<Request, Error>, again: Result<Request, Error>)
    ensures first.Ok? && approved.Ok? && approved.value.status == Approved
    ensures approved.value.sub == first.value.sub
    ensures retry.Ok? && IsPending(retry.value) && Overlaps(approved.value.sub, retry.value.sub)
    ensures again == Err(NotPending)
  {
    var ledger := NewCampusLedger();
    assert Admissible(Body(day, 600, 660), day, ledger.users, ledger.rooms, []);
    first := ledger.Submit(Body(day, 600, 660), day, 1);
    assert ledger.requests == [first.value];
    assert Locate(ledger.requests, first.value.id) == Ok(0);
    approved := ledger.Approve(first.value.id);
    assert ledger.requests == [approved.value];
    assert !Conflicts(approved.value, SubmissionOf(Body(day, 630, 690)));
    assert Admissible(Body(day, 630, 690), day, ledger.users, ledger.rooms, ledger.requests);
    retry := ledger.Submit(Body(day, 630, 690), day, 4);
    assert ledger.requests == [approved.value, retry.value];
    assert Locate(ledger.requests, first.value.id) == Err(NotPending);
    again := ledger.Approve(first.value.id);
  }

  /** Two pending requests of the same slot whose windows overlap: 09:00-18:00,
      exactly the room's hours, encloses the pending 10:00-11:00 and is admitted. */
  method EnclosingScenario(day: int) returns (inner: Result<Request, Error>, outer: Result<Request, Error>)
    ensures inner.Ok? && outer.Ok? && IsPending(inner.value) && IsPending(outer.value)
    ensures SameSlot(inner.value.sub, outer.value.sub) && Overlaps(inner.value.sub, outer.value.sub)
    ensures outer.value.sub.start == 540 && outer.value.sub.end == 1080
  {
    var ledger := NewCampusLedger();
    assert Admissible(Body(day, 600, 660), day, ledger.users, ledger.rooms, []);
    inner := ledger.Submit(Body(day, 600, 660), day, 1);
    assert ledger.requests == [inner.value];
    assert !Conflicts(inner.value, SubmissionOf(Body(day, 540, 1080)));
    assert Admissible(Body(day, 540, 1080), day, ledger.users, ledger.rooms, ledger.requests);
    outer := ledger.Submit(Body(day, 540, 1080), day, 2);
  }

  /** A rejected request cannot be approved afterwards. */
  method RejectScenario(day: int) returns (submitted: Result<Request, Error>, rejected: Result<Request, Error>,
                                           approved: Result<Request, Error>)
    ensures submitted.Ok? && rejected.Ok? && rejected.value.status == Rejected
    ensures approved == Err(NotPending)
  {
    var ledger := NewCampusLedger();
    submitted := ledger.Submit(Body(day, 600, 660), day, 1);
    rejected := ledger.Reject(submitted.value.id);
    approved := ledger.Approve(submitted.value.id);
  }
}
