/** The user directory's data, the validation `POST /api/users/register`
    applies before it inserts a user, and the update that
    `PATCH /api/users/:id` builds from its body. */
module Users {
  import opened Base
  import opened Errors

  /** A row of the `users` table; the password hash is not modelled. */
  datatype User = User(
    lastName: string,          // nom
    firstName: string,         // prenom
    statut: string,
    email: string,
    enrolment: Option<string>, // numero_inscription
    badge: Option<string>,     // uid_badge_rfid
    active: bool,              // etat
    isAdmin: bool)             // isadmin

  /** The four values `statut` may take. */
  const Statuts: seq<string> := ["Étudiant", "Professeur", "Stagiaire", "Travailleur 2iE"]

  /** The JSON body of a registration. `Absent` is `undefined` (or `null`); the
      empty string, also falsy, is tested for explicitly. */
  datatype RegisterBody = RegisterBody(
    lastName: Field<string>,
    firstName: Field<string>,
    statut: Field<string>,
    email: Field<string>,
    password: Field<string>,
    enrolment: Field<string>,
    badge: Field<string>,
    isAdmin: Field<bool>)

  /** The columns a registration inserts, besides the password hash;
      `etat` is left to the table's default. */
  datatype Registration = Registration(
    lastName: string,
    firstName: string,
    statut: string,
    email: string,
    enrolment: Option<string>,
    badge: Option<string>,
    isAdmin: bool)

  predicate Truthy(f: Field<string>) {
    f.Given? && f.value != ""
  }

  /** JavaScript's `x || null` on an optional text field. */
  function OrNull(f: Field<string>): (r: Option<string>)
    ensures r.Some? <==> Truthy(f)
    ensures r.Some? ==> r.value == f.value
  {
    if Truthy(f) then Some(f.value) else None
  }

  /** Validates a registration and builds the row it inserts: the required
      fields first, then the statut; `isadmin` defaults to false. */
  function Register(b: RegisterBody): (r: Result<Registration, Error>)
    ensures r == Err(Missing) <==>
      !(Truthy(b.lastName) && Truthy(b.firstName) && Truthy(b.email) && Truthy(b.password))
    ensures r == Err(InvalidStatut) <==>
      Truthy(b.lastName) && Truthy(b.firstName) && Truthy(b.email) && Truthy(b.password) &&
      !(b.statut.Given? && b.statut.value in Statuts)
    ensures r.Ok? <==>
      Truthy(b.lastName) && Truthy(b.firstName) && Truthy(b.email) && Truthy(b.password) &&
      b.statut.Given? && b.statut.value in Statuts
    ensures r.Ok? ==>
      && r.value.statut in Statuts
      && r.value.lastName == b.lastName.value && r.value.firstName == b.firstName.value
      && r.value.email == b.email.value && r.value.statut == b.statut.value
      && r.value.enrolment == OrNull(b.enrolment) && r.value.badge == OrNull(b.badge)
      && r.value.isAdmin == (b.isAdmin.Given? && b.isAdmin.value)
  {
    if !(Truthy(b.lastName) && Truthy(b.firstName) && Truthy(b.email) && Truthy(b.password)) then
      Err(Missing)
    else if !(b.statut.Given? && b.statut.value in Statuts) then
      Err(InvalidStatut)
    else
      Ok(Registration(b.lastName.value, b.firstName.value, b.statut.value, b.email.value,
                      OrNull(b.enrolment), OrNull(b.badge),
                      if b.isAdmin.Given? then b.isAdmin.value else false))
  }

  /** The JSON body of a user update. A text field may be given as `null`,
      which is `Given(None)`. */
  datatype PatchBody = PatchBody(
    active: Field<bool>,
    isAdmin: Field<bool>,
    enrolment: Field<Option<string>>,
    badge: Field<Option<string>>)

  /** One `column = value` assignment of the `UPDATE users SET ?` statement. */
  datatype Update =
    | SetActive(active: bool)
    | SetAdmin(isAdmin: bool)
    | SetEnrolment(enrolment: Option<string>)
    | SetBadge(badge: Option<string>)

  /** The column an assignment writes. */
  function Column(u: Update): string {
    match u
    case SetActive(_) => "etat"
    case SetAdmin(_) => "isadmin"
    case SetEnrolment(_) => "numero_inscription"
    case SetBadge(_) => "uid_badge_rfid"
  }

  /** The columns a body gives a value for. */
  function GivenColumns(p: PatchBody): set<string> {
    (if p.active.Given? then {"etat"} else {}) +
    (if p.isAdmin.Given? then {"isadmin"} else {}) +
    (if p.enrolment.Given? then {"numero_inscription"} else {}) +
    (if p.badge.Given? then {"uid_badge_rfid"} else {})
  }

  /** One assignment applied to a row. */
  function Apply(user: User, u: Update): User {
    match u
    case SetActive(a) => user.(active := a)
    case SetAdmin(a) => user.(isAdmin := a)
    case SetEnrolment(e) => user.(enrolment := e)
    case SetBadge(e) => user.(badge := e)
  }

  /** The assignments applied in order, which is what the `UPDATE` does. */
  function ApplyAll(user: User, us: seq<Update>): User
    decreases |us|
  {
    if us == [] then user else ApplyAll(Apply(user, us[0]), us[1..])
  }

  /** The row as the body means it: every given field replaced, every other kept. */
  function Patched(user: User, p: PatchBody): User {
    user.(active := if p.active.Given? then p.active.value else user.active,
          isAdmin := if p.isAdmin.Given? then p.isAdmin.value else user.isAdmin,
          enrolment := if p.enrolment.Given? then p.enrolment.value else user.enrolment,
          badge := if p.badge.Given? then p.badge.value else user.badge)
  }

  lemma ApplyAllAppend(user: User, us: seq<Update>, u: Update)
    ensures ApplyAll(user, us + [u]) == Apply(ApplyAll(user, us), u)
    decreases |us|
  {
    if us != [] {
      assert (us + [u])[1..] == us[1..] + [u];
      ApplyAllAppend(Apply(user, us[0]), us[1..], u);
    }
  }

  /** The field a body part defines for an assignment's column. */
  function WithUpdate(p: PatchBody, u: Update): PatchBody {
    match u
    case SetActive(a) => p.(active := Given(a))
    case SetAdmin(a) => p.(isAdmin := Given(a))
    case SetEnrolment(e) => p.(enrolment := Given(e))
    case SetBadge(e) => p.(badge := Given(e))
  }

  /** Appending an assignment for a column not yet written keeps the
      assignments equal in meaning to the part of the body handled so far. */
  lemma Extend(us: seq<Update>, seen: PatchBody, u: Update)
    requires Column(u) !in GivenColumns(seen)
    requires (set v | v in us :: Column(v)) == GivenColumns(seen)
    requires forall i, j :: 0 <= i < j < |us| ==> Column(us[i]) != Column(us[j])
    requires forall user :: ApplyAll(user, us) == Patched(user, seen)
    ensures (set v | v in us + [u] :: Column(v)) == GivenColumns(WithUpdate(seen, u))
    ensures forall i, j :: 0 <= i < j < |us + [u]| ==> Column((us + [u])[i]) != Column((us + [u])[j])
    ensures forall user :: ApplyAll(user, us + [u]) == Patched(user, WithUpdate(seen, u))
  {
    forall user
      ensures ApplyAll(user, us + [u]) == Patched(user, WithUpdate(seen, u))
    {
      ApplyAllAppend(user, us, u);
    }
    forall i, j | 0 <= i < j < |us + [u]|
      ensures Column((us + [u])[i]) != Column((us + [u])[j])
    {
      if j == |us| {
        assert us[i] in us;
      }
    }
  }

  /** Collects an assignment for each field the body defines, in the handler's
      order, and refuses a body that defines none. */
  method BuildUpdates(p: PatchBody) returns (res: Result<seq<Update>, Error>)
    ensures res.Err? <==> GivenColumns(p) == {}
    ensures res.Err? ==> res.error == NoUpdates
    ensures res.Ok? ==> (set u | u in res.value :: Column(u)) == GivenColumns(p)
    ensures res.Ok? ==> forall i, j :: 0 <= i < j < |res.value| ==> Column(res.value[i]) != Column(res.value[j])
    ensures res.Ok? ==> forall user :: ApplyAll(user, res.value) == Patched(user, p)
  {
    var updates: seq<Update> := [];
    // `seen` is the part of the body handled so far.
    ghost var seen := PatchBody(Absent, Absent, Absent, Absent);
    if p.active.Given? {
      Extend(updates, seen, SetActive(p.active.value));
      updates := updates + [SetActive(p.active.value)];
    }
    seen := seen.(active := p.active);
    if p.isAdmin.Given? {
      Extend(updates, seen, SetAdmin(p.isAdmin.value));
      updates := updates + [SetAdmin(p.isAdmin.value)];
    }
    seen := seen.(isAdmin := p.isAdmin);
    if p.enrolment.Given? {
      Extend(updates, seen, SetEnrolment(p.enrolment.value));
      updates := updates + [SetEnrolment(p.enrolment.value)];
    }
    seen := seen.(enrolment := p.enrolment);
    if p.badge.Given? {
      Extend(updates, seen, SetBadge(p.badge.value));
      updates := updates + [SetBadge(p.badge.value)];
    }
    seen := seen.(badge := p.badge);
    assert seen == p;
    if |updates| == 0 {
      return Err(NoUpdates);
    }
    return Ok(updates);
  }
}
