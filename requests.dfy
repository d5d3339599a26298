/** Access requests (`demande_acces`) as values, and the pure part of the
    ledger's handlers: the admission checks of a submission, the conflict
    query, the lookup behind approve and reject, and the ordering of a user's
    requests. Times of day are minutes since midnight, days are day numbers. */
module Requests {
  import opened Base
  import opened Errors
  import opened Rooms
  import opened Users

  /** `statut_demande`. */
  datatype Status = Pending | Approved | Rejected

  /** The text the table stores for each status. */
  function StatusName(s: Status): string {
    match s
    case Pending => "en_attente"
    case Approved => "approuvee"
    case Rejected => "rejetee"
  }

  lemma StatusNamesDistinct(s: Status, t: Status)
    ensures StatusName(s) == StatusName(t) <==> s == t
  {
  }

  /** The fields a user submits, once they have passed the presence check. */
  datatype Submission = Submission(
    userId: int,   // user_id
    roomId: int,   // salle_id
    date: int,     // date, as a day number
    start: int,    // heure_debut, in minutes
    end: int,      // heure_fin, in minutes
    reason: string) // motif

  /** A row of `demande_acces`: the submission, the id the table assigned,
      the status and `created_at`. */
  datatype Request = Request(id: int, sub: Submission, status: Status, createdAt: int)

  predicate IsPending(e: Request) {
    e.status == Pending
  }

  /** The JSON body of a submission. `Absent` stands for a missing key, `null`
      and, for the day and the times, the empty string; the falsy values the
      field types can hold (`0` for an id, `""` for the reason) are tested for
      explicitly. */
  datatype SubmitBody = SubmitBody(
    userId: Field<int>,
    roomId: Field<int>,
    date: Field<int>,
    start: Field<int>,
    end: Field<int>,
    reason: Field<string>)

  /** All six fields are present and truthy. */
  predicate AllGiven(b: SubmitBody) {
    && b.userId.Given? && b.userId.value != 0
    && b.roomId.Given? && b.roomId.value != 0
    && b.date.Given?
    && b.start.Given?
    && b.end.Given?
    && b.reason.Given? && b.reason.value != ""
  }

  function SubmissionOf(b: SubmitBody): Submission
    requires AllGiven(b)
  {
    Submission(b.userId.value, b.roomId.value, b.date.value, b.start.value, b.end.value, b.reason.value)
  }

  /** `lo <= t <= hi`, both ends included, as in the SQL of the conflict query. */
  predicate Contains(lo: int, hi: int, t: int) {
    lo <= t && t <= hi
  }

  /** The window test of the conflict query as the backend writes it: the
      existing window `e` contains the new start or contains the new end. */
  predicate Hits(e: Submission, n: Submission) {
    Contains(e.start, e.end, n.start) || Contains(e.start, e.end, n.end)
  }

  /** General interval overlap with both ends included. */
  predicate Overlaps(e: Submission, n: Submission) {
    e.start <= n.end && n.start <= e.end
  }

  /** `n` strictly encloses `e`. */
  predicate Encloses(n: Submission, e: Submission) {
    n.start < e.start && e.end < n.end
  }

  predicate SameSlot(e: Submission, n: Submission) {
    e.userId == n.userId && e.roomId == n.roomId && e.date == n.date
  }

  /** A row the conflict query selects for the submission `n`: pending, for
      the same user, room and day, and hit by the new window. */
  predicate Conflicts(e: Request, n: Submission) {
    IsPending(e) && SameSlot(e.sub, n) && Hits(e.sub, n)
  }

  /** The rows the conflict query returns. */
  function PendingConflicts(reqs: seq<Request>, n: Submission): (r: seq<Request>)
    ensures forall e :: e in r <==> e in reqs && Conflicts(e, n)
  {
    Filter(e => Conflicts(e, n), reqs)
  }

  predicate InsideHours(n: Submission, room: Room) {
    room.opening <= n.start && n.end <= room.closing
  }

  /** The checks that need no lookup: presence, day, time order. */
  predicate FieldsValid(b: SubmitBody, today: int) {
    AllGiven(b) && today <= b.date.value && b.start.value < b.end.value
  }

  /** The fields are valid and the user and the room exist. */
  predicate Located(b: SubmitBody, today: int, users: map<int, User>, rooms: map<int, Room>) {
    FieldsValid(b, today) && b.userId.value in users && b.roomId.value in rooms
  }

  /** ... and the window lies inside the room's opening hours. */
  predicate Placed(b: SubmitBody, today: int, users: map<int, User>, rooms: map<int, Room>) {
    Located(b, today, users, rooms) && InsideHours(SubmissionOf(b), rooms[b.roomId.value])
  }

  /** Everything a submission must satisfy to be inserted, as one condition. */
  predicate Admissible(b: SubmitBody, today: int, users: map<int, User>, rooms: map<int, Room>,
                       reqs: seq<Request>)
  {
    Placed(b, today, users, rooms) && forall e :: e in reqs ==> !Conflicts(e, SubmissionOf(b))
  }

  /** The checks of a submission, in the handler's order; on success, the
      submission to insert. */
  function Admit(b: SubmitBody, today: int, users: map<int, User>, rooms: map<int, Room>,
                 reqs: seq<Request>): (r: Result<Submission, Error>)
    ensures r == Err(Missing) <==> !AllGiven(b)
    ensures r == Err(PastDate) <==> AllGiven(b) && b.date.value < today
    ensures r == Err(TimeOrder) <==> AllGiven(b) && today <= b.date.value && b.end.value <= b.start.value
    ensures r == Err(UserNotFound) <==> FieldsValid(b, today) && b.userId.value !in users
    ensures r == Err(RoomNotFound) <==>
      FieldsValid(b, today) && b.userId.value in users && b.roomId.value !in rooms
    ensures (r.Err? && r.error.OutsideHours?) <==>
      Located(b, today, users, rooms) && !InsideHours(SubmissionOf(b), rooms[b.roomId.value])
    ensures r.Err? && r.error.OutsideHours? ==>
      r.error == OutsideHours(rooms[b.roomId.value].opening, rooms[b.roomId.value].closing)
    ensures r == Err(DuplicatePending) <==>
      Placed(b, today, users, rooms) && exists e :: e in reqs && Conflicts(e, SubmissionOf(b))
    ensures r.Ok? <==> Admissible(b, today, users, rooms, reqs)
    ensures r.Ok? ==> r.value == SubmissionOf(b)
  {
    if !AllGiven(b) then Err(Missing)
    else
      var n := SubmissionOf(b);
      if n.date < today then Err(PastDate)
      else if n.end <= n.start then Err(TimeOrder)
      else if n.userId !in users then Err(UserNotFound)
      else if n.roomId !in rooms then Err(RoomNotFound)
      else
        var room := rooms[n.roomId];
        if n.start < room.opening || n.end > room.closing then
          Err(OutsideHours(room.opening, room.closing))
        else
          var existing := PendingConflicts(reqs, n);
          if |existing| > 0 then
            assert existing[0] in existing;
            Err(DuplicatePending)
          else Ok(n)
  }

  /** The conflict test is narrower than overlap: an overlapping window that
      hits neither end is exactly one that strictly encloses the existing one. */
  lemma HitsVersusOverlap(e: Submission, n: Submission)
    requires e.start <= e.end && n.start <= n.end
    ensures Hits(e, n) ==> Overlaps(e, n)
    ensures Overlaps(e, n) && !Hits(e, n) <==> Encloses(n, e)
  {
  }

  /** Only pending rows are ever consulted: dropping every approved and
      rejected row changes no answer of the admission checks. */
  lemma {:induction false} AdmitIgnoresDecided(b: SubmitBody, today: int, users: map<int, User>,
                                              rooms: map<int, Room>, reqs: seq<Request>)
    ensures Admit(b, today, users, rooms, reqs) == Admit(b, today, users, rooms, Filter(IsPending, reqs))
  {
    if AllGiven(b) {
      var n := SubmissionOf(b);
      var c := (e: Request) => Conflicts(e, n);
      FilterOfFilter(c, IsPending, reqs);
      assert PendingConflicts(Filter(IsPending, reqs), n) == Filter(c, Filter(IsPending, reqs));
      assert PendingConflicts(reqs, n) == Filter(c, reqs);
    }
  }

  /** A window that strictly encloses every pending window of its slot passes
      the conflict check, although it overlaps all of them. */
  lemma EnclosingIsAdmitted(b: SubmitBody, today: int, users: map<int, User>,
                            rooms: map<int, Room>, reqs: seq<Request>)
    requires Placed(b, today, users, rooms)
    requires forall e :: e in reqs && IsPending(e) && SameSlot(e.sub, SubmissionOf(b)) ==>
               e.sub.start <= e.sub.end && Encloses(SubmissionOf(b), e.sub)
    ensures Admit(b, today, users, rooms, reqs) == Ok(SubmissionOf(b))
  {
  }

  /** Deciding the only conflicting request frees its slot for a new pending
      request, whose window may then overlap the decided one. */
  lemma {:induction false} DecisionFreesSlot(b: SubmitBody, today: int, users: map<int, User>,
                                            rooms: map<int, Room>, reqs: seq<Request>,
                                            k: nat, t: Status)
    requires Placed(b, today, users, rooms)
    requires k < |reqs| && t != Pending
    requires forall i :: 0 <= i < |reqs| && i != k ==> !Conflicts(reqs[i], SubmissionOf(b))
    ensures Admit(b, today, users, rooms, reqs[k := reqs[k].(status := t)]) == Ok(SubmissionOf(b))
  {
    var after := reqs[k := reqs[k].(status := t)];
    forall e | e in after
      ensures !Conflicts(e, SubmissionOf(b))
    {
      var i :| 0 <= i < |after| && after[i] == e;
    }
  }

  /** The index of the first row with the given id (`SELECT ... WHERE id = ?`). */
  function FindIndex(reqs: seq<Request>, id: int): (r: Option<nat>)
    ensures r.None? <==> forall i :: 0 <= i < |reqs| ==> reqs[i].id != id
    ensures r.Some? ==> r.value < |reqs| && reqs[r.value].id == id
    ensures r.Some? ==> forall i :: 0 <= i < r.value ==> reqs[i].id != id
  {
    if reqs == [] then None
    else if reqs[0].id == id then Some(0)
    else
      match FindIndex(reqs[1..], id)
      case None => None
      case Some(k) => Some(k + 1)
  }

  /** The checks of approve and reject: the request exists and is still
      pending; on success, its index. */
  function Locate(reqs: seq<Request>, id: int): (r: Result<nat, Error>)
    ensures r == Err(RequestNotFound) <==> forall i :: 0 <= i < |reqs| ==> reqs[i].id != id
    ensures r.Ok? ==> r.value < |reqs| && reqs[r.value].id == id && IsPending(reqs[r.value])
    ensures r.Ok? ==> forall i :: 0 <= i < r.value ==> reqs[i].id != id
    ensures r == Err(NotPending) <==>
      exists i :: 0 <= i < |reqs| && reqs[i].id == id && !IsPending(reqs[i]) &&
                  forall j :: 0 <= j < i ==> reqs[j].id != id
    ensures r.Ok? || r == Err(RequestNotFound) || r == Err(NotPending)
  {
    match FindIndex(reqs, id)
    case None => Err(RequestNotFound)
    case Some(k) => if !IsPending(reqs[k]) then Err(NotPending) else Ok(k)
  }

  /** A decided request stays decided: a second approve or reject of the same
      id fails with NotPending. */
  lemma DecisionIsFinal(reqs: seq<Request>, id: int, t: Status)
    requires Locate(reqs, id).Ok? && t != Pending
    ensures Locate(reqs[Locate(reqs, id).value := reqs[Locate(reqs, id).value].(status := t)], id)
            == Err(NotPending)
  {
    var k := Locate(reqs, id).value;
    var after := reqs[k := reqs[k].(status := t)];
    assert after[k].id == id;
    assert forall j :: 0 <= j < k ==> after[j].id != id;
    assert FindIndex(after, id) == Some(k);
  }

  /** Newest first: `ORDER BY created_at DESC`. */
  predicate NewestFirst(s: seq<Request>) {
    forall i, j :: 0 <= i < j < |s| ==> s[i].createdAt >= s[j].createdAt
  }

  /** Inserts `x` after every row created at the same time or later. */
  function InsertByDate(x: Request, s: seq<Request>): (r: seq<Request>)
    requires NewestFirst(s)
    ensures NewestFirst(r)
    ensures multiset(r) == multiset(s) + multiset{x}
    ensures |r| == |s| + 1
  {
    if s == [] then [x]
    else if x.createdAt > s[0].createdAt then
      assert s == [s[0]] + s[1..];
      [x] + s
    else
      var rest := InsertByDate(x, s[1..]);
      assert s == [s[0]] + s[1..];
      HeadStaysFirst(x, s, rest);
      [s[0]] + rest
  }

  /** The step of InsertByDate that keeps the head: the head is no older than
      anything behind it. */
  lemma HeadStaysFirst(x: Request, s: seq<Request>, rest: seq<Request>)
    requires NewestFirst(s) && s != [] && x.createdAt <= s[0].createdAt
    requires NewestFirst(rest) && multiset(rest) == multiset(s[1..]) + multiset{x}
    ensures NewestFirst([s[0]] + rest)
  {
    forall j | 0 <= j < |rest|
      ensures s[0].createdAt >= rest[j].createdAt
    {
      assert rest[j] in multiset(rest);
      if rest[j] != x {
        assert rest[j] in multiset(s[1..]);
        var i :| 0 <= i < |s[1..]| && s[1..][i] == rest[j];
        assert s[i + 1] == rest[j];
      }
    }
    var t := [s[0]] + rest;
    forall i, j | 0 <= i < j < |t|
      ensures t[i].createdAt >= t[j].createdAt
    {
      if i > 0 {
        assert t[i] == rest[i - 1] && t[j] == rest[j - 1];
      } else {
        assert t[j] == rest[j - 1];
      }
    }
  }

  /** The rows sorted newest first; rows created at the same instant keep the
      later-inserted one first. */
  function SortNewestFirst(s: seq<Request>): (r: seq<Request>)
    ensures NewestFirst(r)
    ensures multiset(r) == multiset(s)
    ensures |r| == |s|
  {
    if s == [] then []
    else
      assert s == [s[0]] + s[1..];
      InsertByDate(s[0], SortNewestFirst(s[1..]))
  }
}
