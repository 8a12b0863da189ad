/**
 * The database rows the views read and write: accounts, doctor and patient
 * profiles, the name catalogues, the patient link tables and the enrolment
 * photos, with the uniqueness constraints the schema declares.
 */
module Records {
  import opened Wrappers
  import opened Tables
  import opened FaceImages

  /** A `CustomUser` row. `gender` refers to a `Gender` row by its name, which is unique and so
      serves as the row's key here (registration looks the row up by name, the settings form
      sends that key); the password hash is not kept. */
  datatype Account = Account(
    id: nat,
    username: string,
    email: string,
    firstName: string,
    lastName: string,
    dateOfBirth: Option<string>,
    gender: Option<string>,
    phone: string,
    emergencyPhone: string,
    address: string,
    profilePicture: Option<string>)

  datatype DoctorProfile = DoctorProfile(specialty: string, license: string, workplace: Option<string>, biography: Option<string>)

  datatype PatientProfile = PatientProfile(bloodGroup: Option<string>, weightKg: Option<string>, heightCm: Option<string>, otherNotes: string)

  /** The whole store. Profiles are keyed by their user's id (both are one-to-one with the account). */
  datatype Db = Db(
    users: seq<Account>,
    doctors: map<nat, DoctorProfile>,
    patients: map<nat, PatientProfile>,
    genders: seq<string>,
    allergies: seq<string>,
    conditions: seq<string>,
    medications: seq<string>,
    surgeries: seq<string>,
    patientAllergies: seq<Link>,
    patientConditions: seq<Link>,
    patientMedications: seq<Link>,
    patientSurgeries: seq<Link>,
    faceImages: seq<FaceImage>)

  predicate HasUser(db: Db, id: nat) {
    exists i :: 0 <= i < |db.users| && db.users[i].id == id
  }

  predicate EmailTaken(db: Db, email: string) {
    exists i :: 0 <= i < |db.users| && db.users[i].email == email
  }

  predicate UsernameTaken(db: Db, username: string) {
    exists i :: 0 <= i < |db.users| && db.users[i].username == username
  }

  /** Whether a doctor other than `owner` already holds this license number. */
  predicate LicenseTaken(doctors: map<nat, DoctorProfile>, owner: nat, license: string) {
    exists d :: d in doctors && d != owner && doctors[d].license == license
  }

  /** A link table that respects `unique_together`, points at catalogue rows and at patients. */
  predicate LinksWellFormed(t: seq<Link>, catalogue: seq<string>, patients: set<nat>) {
    && NoDup(t)
    && forall i :: 0 <= i < |t| ==> t[i].item in catalogue && t[i].patient in patients
  }

  /** User ids and usernames are unique. */
  predicate UsersUnique(users: seq<Account>) {
    forall i, j :: 0 <= i < j < |users| ==> users[i].id != users[j].id && users[i].username != users[j].username
  }

  /** No two doctors hold the same license number. */
  predicate LicensesUnique(doctors: map<nat, DoctorProfile>) {
    forall d :: d in doctors ==> !LicenseTaken(doctors, d, doctors[d].license)
  }

  /** Profiles and photos belong to existing accounts. */
  predicate OwnedByUsers(db: Db) {
    && (forall d :: d in db.doctors ==> HasUser(db, d))
    && (forall p :: p in db.patients ==> HasUser(db, p))
    && (forall i :: 0 <= i < |db.faceImages| ==> HasUser(db, db.faceImages[i].user))
  }

  /** Catalogue names are unique, and every link table respects `unique_together`. */
  predicate CataloguesAndLinksValid(db: Db) {
    && NoDup(db.genders) && NoDup(db.allergies) && NoDup(db.conditions)
    && NoDup(db.medications) && NoDup(db.surgeries)
    && LinksWellFormed(db.patientAllergies, db.allergies, db.patients.Keys)
    && LinksWellFormed(db.patientConditions, db.conditions, db.patients.Keys)
    && LinksWellFormed(db.patientMedications, db.medications, db.patients.Keys)
    && LinksWellFormed(db.patientSurgeries, db.surgeries, db.patients.Keys)
  }

  /** The schema's constraints together. */
  predicate Consistent(db: Db) {
    UsersUnique(db.users) && LicensesUnique(db.doctors) && OwnedByUsers(db) && CataloguesAndLinksValid(db)
  }

  /** Ownership depends only on the accounts, the profile keys and the photos. */
  lemma OwnedByUsersFrame(a: Db, b: Db)
    requires OwnedByUsers(a)
    requires b.users == a.users && b.doctors.Keys == a.doctors.Keys && b.patients.Keys == a.patients.Keys
    requires b.faceImages == a.faceImages
    ensures OwnedByUsers(b)
  {
    assert forall u :: HasUser(b, u) <==> HasUser(a, u);
  }

  /** Appending an account whose id and username are both new keeps accounts unique. */
  lemma UsersUniqueAppend(users: seq<Account>, a: Account)
    requires UsersUnique(users)
    requires forall i :: 0 <= i < |users| ==> users[i].id != a.id && users[i].username != a.username
    ensures UsersUnique(users + [a])
  {
    var us := users + [a];
    forall i, j | 0 <= i < j < |us|
      ensures us[i].id != us[j].id && us[i].username != us[j].username
    {
      assert us[i] == users[i];
      if j < |users| {
        assert us[j] == users[j];
      }
    }
  }

  /** Giving doctor `k` a license no other doctor holds keeps licenses unique. */
  lemma LicensesUniqueAfterSet(ds: map<nat, DoctorProfile>, k: nat, p: DoctorProfile)
    requires LicensesUnique(ds) && !LicenseTaken(ds, k, p.license)
    ensures LicensesUnique(ds[k := p])
  {
    var ds1 := ds[k := p];
    forall x | x in ds1
      ensures !LicenseTaken(ds1, x, ds1[x].license)
    {
      if x != k {
        assert !LicenseTaken(ds, x, ds[x].license);
        assert ds1[x] == ds[x];
      }
    }
  }

  /** The medical catalogues, link tables and photos are the same in both states. */
  predicate MedicalDataUnchanged(db: Db, db1: Db) {
    && db1.allergies == db.allergies && db1.conditions == db.conditions
    && db1.medications == db.medications && db1.surgeries == db.surgeries
    && db1.patientAllergies == db.patientAllergies && db1.patientConditions == db.patientConditions
    && db1.patientMedications == db.patientMedications && db1.patientSurgeries == db.patientSurgeries
    && db1.faceImages == db.faceImages
  }

  /** Link tables stay well formed when the catalogue and the patient set only grow. */
  lemma LinksWellFormedGrow(t: seq<Link>, cat: seq<string>, cat1: seq<string>, ps: set<nat>, ps1: set<nat>)
    requires LinksWellFormed(t, cat, ps)
    requires (forall x :: x in cat ==> x in cat1) && ps <= ps1
    ensures LinksWellFormed(t, cat1, ps1)
  {
  }

  /** A link table keeps its constraints through an update of patient `p`'s links that leaves
      every other patient's items alone and links `p` only to names of the (grown) catalogue. */
  lemma LinksWellFormedAfterUpdate(t: seq<Link>, r: seq<Link>, p: nat, cat: seq<string>, cat1: seq<string>, ps: set<nat>)
    requires LinksWellFormed(t, cat, ps) && NoDup(r) && p in ps
    requires forall x :: x in cat ==> x in cat1
    requires forall x :: x in ItemsOf(r, p) ==> x in cat1
    requires forall q :: q != p ==> ItemsOf(r, q) == ItemsOf(t, q)
    ensures LinksWellFormed(r, cat1, ps)
  {
    forall i | 0 <= i < |r|
      ensures r[i].item in cat1 && r[i].patient in ps
    {
      var l := r[i];
      assert Link(l.patient, l.item) in r;
      assert l.item in ItemsOf(r, l.patient);
      if l.patient != p {
        assert l.item in ItemsOf(t, l.patient);
        assert Link(l.patient, l.item) in t;
      }
    }
  }

  /** The account with the given id, if there is one. */
  function FindUser(users: seq<Account>, id: nat): (r: Option<Account>)
    ensures r.Some? <==> exists i :: 0 <= i < |users| && users[i].id == id
    ensures r.Some? ==> r.value.id == id && r.value in users
  {
    if users == [] then None
    else if users[0].id == id then Some(users[0])
    else
      var r := FindUser(users[1..], id);
      assert forall i :: 1 <= i < |users| ==> users[i] == users[1..][i - 1];
      r
  }

  /** After replacing the account with `a`'s id, looking that id up finds `a`. */
  lemma FindUpdatedUser(users: seq<Account>, a: Account)
    requires exists i :: 0 <= i < |users| && users[i].id == a.id
    ensures FindUser(UpdateUser(users, a), a.id) == Some(a)
  {
    var r := UpdateUser(users, a);
    var i :| 0 <= i < |users| && users[i].id == a.id;
    assert r[i].id == a.id;
  }

  /** Replace the account that has the same id. */
  function UpdateUser(users: seq<Account>, a: Account): (r: seq<Account>)
    ensures |r| == |users|
    ensures forall i :: 0 <= i < |users| ==> r[i] == (if users[i].id == a.id then a else users[i])
  {
    seq(|users|, i requires 0 <= i < |users| => if users[i].id == a.id then a else users[i])
  }

  /** `request.POST.get(key) or None`: a field that is missing or empty becomes no value. */
  function OrNone(v: Option<string>): (r: Option<string>)
    ensures r.Some? <==> v.Some? && v.value != ""
    ensures r.Some? ==> r == v
  {
    if v.Some? && v.value != "" then v else None
  }
}
