/**
 * The POST branch of `register_view`: normalise the submitted fields, refuse
 * the form for the first failing check (missing field, password mismatch,
 * email in use), and otherwise create the account and exactly one profile in
 * one transaction. Any exception inside the transaction rolls it back.
 */
module Registration {
  import opened Wrappers
  import opened Text
  import opened Tables
  import opened Records

  /** Why the form was refused, or the id of the new account. */
  datatype Outcome = MissingFields | PasswordMismatch | EmailInUse | Failed | Registered(id: nat)

  datatype Result = Result(outcome: Outcome, db: Db)

  /** The POSTed registration fields; `None` is a field that was not sent. */
  datatype RegistrationForm = RegistrationForm(
    role: Option<string>,
    firstName: Option<string>,
    lastName: Option<string>,
    email: Option<string>,
    password: Option<string>,
    password2: Option<string>,
    gender: Option<string>,
    dateOfBirth: Option<string>,
    specialty: Option<string>)

  /** `email.strip().lower()`. */
  function NormalizedEmail(form: RegistrationForm): (r: string)
    ensures Lower(r) == r
  {
    LowerIdempotent(Strip(form.email.GetOr("")));
    Lower(Strip(form.email.GetOr("")))
  }

  /** A field Python would treat as truthy: sent and not empty. */
  predicate Filled(v: Option<string>) {
    v.Some? && v.value != ""
  }

  /** Every required field is present after normalisation (names and email stripped). */
  predicate RequiredFilled(form: RegistrationForm) {
    && Filled(form.role)
    && Strip(form.firstName.GetOr("")) != ""
    && Strip(form.lastName.GetOr("")) != ""
    && NormalizedEmail(form) != ""
    && Filled(form.password)
    && Filled(form.gender)
    && Filled(form.dateOfBirth)
  }

  /** The two password fields agree (a missing confirmation never agrees with a filled password). */
  predicate PasswordsAgree(form: RegistrationForm) {
    form.password == form.password2
  }

  /** The role field selects a doctor account; any other value makes a patient. */
  predicate IsDoctor(form: RegistrationForm) {
    form.role == Some("doctor")
  }

  /** The temporary license number a new doctor gets. */
  function TempLicense(id: nat): (r: string)
    ensures |r| > 5 && r[..5] == "TEMP-"
    ensures forall i :: 5 <= i < |r| ==> '0' <= r[i] <= '9'
    ensures DecimalValue(r[5..]) == id
  {
    DecimalRoundTrip(id);
    assert ("TEMP-" + DecimalString(id))[5..] == DecimalString(id);
    "TEMP-" + DecimalString(id)
  }

  /** Different accounts get different temporary licenses. */
  lemma TempLicenseInjective(a: nat, b: nat)
    requires TempLicense(a) == TempLicense(b)
    ensures a == b
  {
    assert TempLicense(a)[5..] == TempLicense(b)[5..];
  }

  /** The account row the view creates. */
  function NewAccount(form: RegistrationForm, id: nat): (a: Account)
    ensures a.id == id && a.username == NormalizedEmail(form) && a.email == NormalizedEmail(form)
  {
    Account(id, NormalizedEmail(form), NormalizedEmail(form),
            Strip(form.firstName.GetOr("")), Strip(form.lastName.GetOr("")),
            form.dateOfBirth, form.gender, "", "", "", None)
  }

  /** The doctor profile created for a doctor's account. */
  function NewDoctor(form: RegistrationForm, id: nat): (d: DoctorProfile)
    ensures d.license == TempLicense(id)
    ensures d.specialty == form.specialty.GetOr("")
    ensures d.workplace.None? && d.biography.None?
  {
    DoctorProfile(form.specialty.GetOr(""), TempLicense(id), None, None)
  }

  /** The empty patient profile created for any other account. */
  const NewPatient := PatientProfile(None, None, None, "")

  /** The state after the transaction commits: the account, the gender row, and one profile. */
  function Committed(db: Db, form: RegistrationForm, newId: nat): (d: Db)
    ensures d.users == db.users + [NewAccount(form, newId)]
    ensures d.genders == GetOrCreate(db.genders, form.gender.GetOr(""))
    ensures MedicalDataUnchanged(db, d)
    ensures IsDoctor(form) ==> d.patients == db.patients && d.doctors == db.doctors[newId := NewDoctor(form, newId)]
    ensures !IsDoctor(form) ==> d.doctors == db.doctors && d.patients == db.patients[newId := NewPatient]
  {
    var db1 := db.(users := db.users + [NewAccount(form, newId)],
                   genders := GetOrCreate(db.genders, form.gender.GetOr("")));
    if IsDoctor(form) then db1.(doctors := db.doctors[newId := NewDoctor(form, newId)])
    else db1.(patients := db.patients[newId := NewPatient])
  }

  /** The body of the transaction. `newId` is the primary key the database assigns; `dateValid`
      says whether the submitted date of birth is one the date field accepts. A username already
      in use, a rejected date or a license number already held raises, and the transaction
      rolls back. */
  function Create(db: Db, form: RegistrationForm, newId: nat, dateValid: bool): (r: Result)
    ensures r.outcome == Failed || r.outcome == Registered(newId)
    ensures r.outcome == Failed <==>
      UsernameTaken(db, NormalizedEmail(form)) || !dateValid
      || (IsDoctor(form) && LicenseTaken(db.doctors, newId, TempLicense(newId)))
    ensures r.outcome == Failed ==> r.db == db
    ensures r.outcome.Registered? ==>
      && r.db.users == db.users + [NewAccount(form, newId)]
      && r.db.genders == GetOrCreate(db.genders, form.gender.GetOr(""))
      && MedicalDataUnchanged(db, r.db)
    ensures r.outcome.Registered? && IsDoctor(form) ==>
      && r.db.patients == db.patients
      && r.db.doctors.Keys == db.doctors.Keys + {newId}
      && r.db.doctors[newId].license == TempLicense(newId)
      && forall d :: d in db.doctors && d != newId ==> r.db.doctors[d] == db.doctors[d]
    ensures r.outcome.Registered? && !IsDoctor(form) ==>
      && r.db.doctors == db.doctors
      && r.db.patients == db.patients[newId := NewPatient]
  {
    if UsernameTaken(db, NormalizedEmail(form)) || !dateValid then Result(Failed, db)
    else if IsDoctor(form) && LicenseTaken(db.doctors, newId, TempLicense(newId)) then Result(Failed, db)
    else
      var d := Committed(db, form, newId);
      UpdateKeys(db.doctors, newId, NewDoctor(form, newId));
      Result(Registered(newId), d)
  }

  lemma UpdateKeys<V>(m: map<nat, V>, k: nat, v: V)
    ensures m[k := v].Keys == m.Keys + {k}
    ensures m[k := v][k] == v
    ensures forall d :: d in m && d != k ==> m[k := v][d] == m[d]
  {
  }

  /** `register_view` on a POST: the checks run in order and each refusal writes nothing. */
  function Register(db: Db, form: RegistrationForm, newId: nat, dateValid: bool): (r: Result)
    requires !HasUser(db, newId)
    ensures r.outcome == MissingFields <==> !RequiredFilled(form)
    ensures r.outcome == PasswordMismatch <==> RequiredFilled(form) && !PasswordsAgree(form)
    ensures r.outcome == EmailInUse <==>
      RequiredFilled(form) && PasswordsAgree(form) && EmailTaken(db, NormalizedEmail(form))
    ensures !r.outcome.Registered? ==> r.db == db
    ensures r.outcome.Registered? ==> r.outcome.id == newId && r == Create(db, form, newId, dateValid)
    ensures RequiredFilled(form) && PasswordsAgree(form) && !EmailTaken(db, NormalizedEmail(form)) ==>
      r == Create(db, form, newId, dateValid)
  {
    var email := NormalizedEmail(form);
    if !RequiredFilled(form) then Result(MissingFields, db)
    else if !PasswordsAgree(form) then Result(PasswordMismatch, db)
    else if EmailTaken(db, email) then Result(EmailInUse, db)
    else Create(db, form, newId, dateValid)
  }

  /** The stored email is the normalised one: surrounding blanks removed and no upper-case letter. */
  lemma RegisteredEmailNormalized(db: Db, form: RegistrationForm, newId: nat, dateValid: bool)
    requires !HasUser(db, newId)
    requires Register(db, form, newId, dateValid).outcome.Registered?
    ensures var a := Register(db, form, newId, dateValid).db.users[|db.users|];
      IsStripped(a.email) && Lower(a.email) == a.email && a.email != ""
  {
    var e := Strip(form.email.GetOr(""));
    assert NormalizedEmail(form) == Lower(e);
    assert IsStripped(Lower(e)) by {
      if e != [] {
        assert IsSpace(Lower(e)[0]) <==> IsSpace(e[0]);
        assert IsSpace(Lower(e)[|e| - 1]) <==> IsSpace(e[|e| - 1]);
      }
    }
  }

  /** Submitting the same form again, once it has registered, is refused because the email is in use. */
  lemma RegisterTwiceRefused(db: Db, form: RegistrationForm, id1: nat, id2: nat, dateValid: bool)
    requires !HasUser(db, id1)
    requires Register(db, form, id1, dateValid).outcome.Registered?
    requires !HasUser(Register(db, form, id1, dateValid).db, id2)
    ensures Register(Register(db, form, id1, dateValid).db, form, id2, dateValid).outcome == EmailInUse
  {
    var db1 := Register(db, form, id1, dateValid).db;
    assert db1.users[|db.users|].email == NormalizedEmail(form);
  }

  lemma HasUserAfterAppend(db: Db, db1: Db, a: Account)
    requires db1.users == db.users + [a]
    ensures forall id :: HasUser(db, id) ==> HasUser(db1, id)
    ensures HasUser(db1, a.id)
  {
    assert db1.users[|db.users|] == a;
    forall id | HasUser(db, id)
      ensures HasUser(db1, id)
    {
      var i :| 0 <= i < |db.users| && db.users[i].id == id;
      assert db1.users[i] == db.users[i];
    }
  }

  lemma CreateKeepsUsersUnique(db: Db, form: RegistrationForm, newId: nat, dateValid: bool)
    requires UsersUnique(db.users) && !HasUser(db, newId)
    ensures UsersUnique(Create(db, form, newId, dateValid).db.users)
  {
    var r := Create(db, form, newId, dateValid);
    if r.outcome.Registered? {
      var a := NewAccount(form, newId);
      assert !UsernameTaken(db, a.username);
      UsersUniqueAppend(db.users, a);
    }
  }

  lemma CreateKeepsLicensesUnique(db: Db, form: RegistrationForm, newId: nat, dateValid: bool)
    requires LicensesUnique(db.doctors)
    ensures LicensesUnique(Create(db, form, newId, dateValid).db.doctors)
  {
    var r := Create(db, form, newId, dateValid);
    if r.outcome.Registered? && IsDoctor(form) {
      LicensesUniqueAfterSet(db.doctors, newId, NewDoctor(form, newId));
    }
  }

  lemma CreateKeepsOwnership(db: Db, form: RegistrationForm, newId: nat, dateValid: bool)
    requires OwnedByUsers(db)
    ensures OwnedByUsers(Create(db, form, newId, dateValid).db)
  {
    var r := Create(db, form, newId, dateValid);
    if r.outcome.Registered? {
      var db1 := r.db;
      HasUserAfterAppend(db, db1, NewAccount(form, newId));
      assert db1.doctors.Keys <= db.doctors.Keys + {newId};
      assert db1.patients.Keys <= db.patients.Keys + {newId};
      forall d | d in db1.doctors
        ensures HasUser(db1, d)
      {
        if d != newId {
          assert HasUser(db, d);
        }
      }
      forall d | d in db1.patients
        ensures HasUser(db1, d)
      {
        if d != newId {
          assert HasUser(db, d);
        }
      }
      forall i | 0 <= i < |db1.faceImages|
        ensures HasUser(db1, db1.faceImages[i].user)
      {
        assert HasUser(db, db.faceImages[i].user);
      }
    }
  }

  lemma CreateKeepsLinks(db: Db, form: RegistrationForm, newId: nat, dateValid: bool)
    requires CataloguesAndLinksValid(db)
    ensures CataloguesAndLinksValid(Create(db, form, newId, dateValid).db)
  {
    var r := Create(db, form, newId, dateValid);
    if r.outcome.Registered? {
      var ps, ps1 := db.patients.Keys, r.db.patients.Keys;
      assert ps <= ps1;
      LinksWellFormedGrow(db.patientAllergies, db.allergies, db.allergies, ps, ps1);
      LinksWellFormedGrow(db.patientConditions, db.conditions, db.conditions, ps, ps1);
      LinksWellFormedGrow(db.patientMedications, db.medications, db.medications, ps, ps1);
      LinksWellFormedGrow(db.patientSurgeries, db.surgeries, db.surgeries, ps, ps1);
    }
  }

  /** Registration keeps every schema constraint. */
  lemma RegisterKeepsConsistent(db: Db, form: RegistrationForm, newId: nat, dateValid: bool)
    requires Consistent(db) && !HasUser(db, newId)
    ensures Consistent(Register(db, form, newId, dateValid).db)
  {
    CreateKeepsUsersUnique(db, form, newId, dateValid);
    CreateKeepsLicensesUnique(db, form, newId, dateValid);
    CreateKeepsOwnership(db, form, newId, dateValid);
    CreateKeepsLinks(db, form, newId, dateValid);
  }
}
