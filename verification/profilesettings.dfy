/**
 * The POST branch of `settings_view` and the list strings it shows: update the
 * account, the doctor profile and the patient profile in one transaction;
 * replace the allergies with `set`, and delete and recreate the conditions,
 * medications and surgeries from the comma-separated text fields. Any
 * exception rolls the whole transaction back and the page shows an error.
 */
module ProfileSettings {
  import opened Wrappers
  import opened FormLists
  import opened Tables
  import opened Records
  import opened UploadPaths

  /** The POSTed settings fields; `None` is a field that was not sent. */
  datatype SettingsForm = SettingsForm(
    firstName: Option<string>,
    lastName: Option<string>,
    dateOfBirth: Option<string>,
    gender: Option<string>,
    phone: Option<string>,
    emergencyPhone: Option<string>,
    address: Option<string>,
    specialty: Option<string>,
    license: Option<string>,
    workplace: Option<string>,
    biography: Option<string>,
    bloodGroup: Option<string>,
    weightKg: Option<string>,
    heightCm: Option<string>,
    otherNotes: Option<string>,
    allergiesText: Option<string>,
    conditionsText: Option<string>,
    medicationsText: Option<string>,
    surgeriesText: Option<string>)

  datatype Outcome = Saved | SaveFailed

  datatype Result = Result(outcome: Outcome, db: Db)

  /** `POST.get(key, current)` for a nullable column: a sent field replaces the value, even when empty. */
  function SentOr(v: Option<string>, current: Option<string>): (r: Option<string>)
    ensures v.Some? ==> r == v
    ensures v.None? ==> r == current
  {
    if v.Some? then v else current
  }

  /** The account after the form is applied. Text fields keep their value when not sent; the
      date of birth and the gender are cleared when sent empty or not sent; an uploaded picture
      is stored under `profile_pic_path`. */
  function UpdatedAccount(a: Account, form: SettingsForm, upload: Option<string>): (r: Account)
    ensures r.id == a.id && r.username == a.username && r.email == a.email
    ensures r.firstName == form.firstName.GetOr(a.firstName) && r.lastName == form.lastName.GetOr(a.lastName)
    ensures r.dateOfBirth == OrNone(form.dateOfBirth) && r.gender == OrNone(form.gender)
    ensures r.phone == form.phone.GetOr(a.phone) && r.emergencyPhone == form.emergencyPhone.GetOr(a.emergencyPhone)
    ensures r.address == form.address.GetOr(a.address)
    ensures upload.Some? ==> r.profilePicture == Some(ProfilePicPath(a.email, a.id, upload.value))
    ensures upload.None? ==> r.profilePicture == a.profilePicture
  {
    a.(firstName := form.firstName.GetOr(a.firstName),
       lastName := form.lastName.GetOr(a.lastName),
       dateOfBirth := OrNone(form.dateOfBirth),
       gender := OrNone(form.gender),
       phone := form.phone.GetOr(a.phone),
       emergencyPhone := form.emergencyPhone.GetOr(a.emergencyPhone),
       address := form.address.GetOr(a.address),
       profilePicture := if upload.Some? then Some(ProfilePicPath(a.email, a.id, upload.value)) else a.profilePicture)
  }

  /** The doctor profile after the form is applied: every field keeps its value when not sent. */
  function UpdatedDoctor(d: DoctorProfile, form: SettingsForm): (r: DoctorProfile)
    ensures form.license.None? ==> r.license == d.license
    ensures form.license.Some? ==> r.license == form.license.value
    ensures r.specialty == form.specialty.GetOr(d.specialty)
    ensures form.workplace.None? ==> r.workplace == d.workplace
    ensures form.workplace.Some? ==> r.workplace == form.workplace
    ensures form.biography.None? ==> r.biography == d.biography
    ensures form.biography.Some? ==> r.biography == form.biography
  {
    DoctorProfile(form.specialty.GetOr(d.specialty), form.license.GetOr(d.license),
                  SentOr(form.workplace, d.workplace), SentOr(form.biography, d.biography))
  }

  /** The patient profile after the form is applied: blood group, weight and height are cleared
      when sent empty or not sent; the notes keep their value when not sent. */
  function UpdatedPatient(p: PatientProfile, form: SettingsForm): (r: PatientProfile)
    ensures r.bloodGroup == OrNone(form.bloodGroup) && r.weightKg == OrNone(form.weightKg)
    ensures r.heightCm == OrNone(form.heightCm)
    ensures r.otherNotes == form.otherNotes.GetOr(p.otherNotes)
  {
    PatientProfile(OrNone(form.bloodGroup), OrNone(form.weightKg), OrNone(form.heightCm), form.otherNotes.GetOr(p.otherNotes))
  }

  function AllergyNames(form: SettingsForm): seq<string> { StoredNames(form.allergiesText.GetOr("")) }
  function ConditionNames(form: SettingsForm): seq<string> { StoredNames(form.conditionsText.GetOr("")) }
  function MedicationNames(form: SettingsForm): seq<string> { StoredNames(form.medicationsText.GetOr("")) }
  function SurgeryNames(form: SettingsForm): seq<string> { StoredNames(form.surgeriesText.GetOr("")) }

  /** The three replace-all lists can be recreated: none names the same item twice once capitalised
      (a repeat breaks `unique_together`). */
  predicate ListsAccepted(form: SettingsForm) {
    NoDup(ConditionNames(form)) && NoDup(MedicationNames(form)) && NoDup(SurgeryNames(form))
  }

  /** The four list fields of patient `p`; `None` when a replace-all list repeats a name. */
  function SaveLists(db: Db, p: nat, form: SettingsForm): (r: Option<Db>)
    ensures r.Some? <==> ListsAccepted(form)
    ensures r.Some? ==>
      && r.value.users == db.users && r.value.doctors == db.doctors && r.value.patients == db.patients
      && r.value.genders == db.genders && r.value.faceImages == db.faceImages
  {
    var na, nc, nm, ns := AllergyNames(form), ConditionNames(form), MedicationNames(form), SurgeryNames(form);
    var rc, rm, rs := ReplaceLinks(db.patientConditions, p, nc), ReplaceLinks(db.patientMedications, p, nm),
                      ReplaceLinks(db.patientSurgeries, p, ns);
    if rc.None? || rm.None? || rs.None? then None
    else
      Some(db.(allergies := GetOrCreateAll(db.allergies, na),
               patientAllergies := SetLinks(db.patientAllergies, p, na),
               conditions := GetOrCreateAll(db.conditions, nc),
               patientConditions := rc.value,
               medications := GetOrCreateAll(db.medications, nm),
               patientMedications := rm.value,
               surgeries := GetOrCreateAll(db.surgeries, ns),
               patientSurgeries := rs.value))
  }

  /** Whether the form gives a doctor a license number another doctor holds. */
  predicate LicenseClash(db: Db, id: nat, form: SettingsForm) {
    id in db.doctors && LicenseTaken(db.doctors, id, UpdatedDoctor(db.doctors[id], form).license)
  }

  /** The account and, for a doctor, the doctor profile with the form applied. */
  function ApplyAccount(db: Db, id: nat, form: SettingsForm, upload: Option<string>): (r: Db)
    requires HasUser(db, id)
    ensures r.doctors.Keys == db.doctors.Keys
    ensures MedicalDataUnchanged(db, r) && r.patients == db.patients && r.genders == db.genders
    ensures FindUser(r.users, id) == Some(UpdatedAccount(FindUser(db.users, id).value, form, upload))
    ensures r.users == UpdateUser(db.users, UpdatedAccount(FindUser(db.users, id).value, form, upload))
    ensures id in db.doctors ==> r.doctors == db.doctors[id := UpdatedDoctor(db.doctors[id], form)]
    ensures id !in db.doctors ==> r.doctors == db.doctors
  {
    var a := FindUser(db.users, id).value;
    FindUpdatedUser(db.users, UpdatedAccount(a, form, upload));
    var db1 := db.(users := UpdateUser(db.users, UpdatedAccount(a, form, upload)));
    if id in db.doctors then db1.(doctors := db.doctors[id := UpdatedDoctor(db.doctors[id], form)]) else db1
  }

  /** The patient profile with the form applied. */
  function ApplyPatient(db: Db, id: nat, form: SettingsForm): (r: Db)
    requires id in db.patients
    ensures r.patients == db.patients[id := UpdatedPatient(db.patients[id], form)]
    ensures r == db.(patients := r.patients)
  {
    db.(patients := db.patients[id := UpdatedPatient(db.patients[id], form)])
  }

  /** `settings_view` on a POST by `user` (`None` is an anonymous visitor, whose save raises).
      `upload` is the name of an uploaded profile picture; `fieldsValid` says whether the database
      accepts the submitted date and gender and, when the user is a patient, the blood group,
      weight and height (a doctor's save never writes those three). */
  function SaveSettings(db: Db, user: Option<nat>, form: SettingsForm, upload: Option<string>, fieldsValid: bool): (r: Result)
    requires user.Some? ==> HasUser(db, user.value)
    ensures r.outcome == Saved <==>
      && user.Some? && fieldsValid && !LicenseClash(db, user.value, form)
      && (user.value in db.patients ==> ListsAccepted(form))
    ensures r.outcome == SaveFailed ==> r.db == db
    ensures r.outcome == Saved ==> r.db.faceImages == db.faceImages && r.db.genders == db.genders
    ensures r.outcome == Saved ==>
      FindUser(r.db.users, user.value) == Some(UpdatedAccount(FindUser(db.users, user.value).value, form, upload))
    ensures r.outcome == Saved ==>
      r.db.users == UpdateUser(db.users, UpdatedAccount(FindUser(db.users, user.value).value, form, upload))
    ensures r.outcome == Saved && user.value !in db.patients ==> MedicalDataUnchanged(db, r.db)
    ensures r.outcome == Saved && user.value in db.doctors ==>
      r.db.doctors == db.doctors[user.value := UpdatedDoctor(db.doctors[user.value], form)]
    ensures r.outcome == Saved && user.value !in db.doctors ==> r.db.doctors == db.doctors
    ensures r.outcome == Saved && user.value in db.patients ==>
      r.db.patients == db.patients[user.value := UpdatedPatient(db.patients[user.value], form)]
    ensures r.outcome == Saved && user.value !in db.patients ==> r.db.patients == db.patients
  {
    if user.None? || !fieldsValid then Result(SaveFailed, db)
    else
      var id := user.value;
      if LicenseClash(db, id, form) then Result(SaveFailed, db)
      else
        var db2 := ApplyAccount(db, id, form, upload);
        if id !in db.patients then Result(Saved, db2)
        else
          match SaveLists(ApplyPatient(db2, id, form), id, form)
          case None => Result(SaveFailed, db)
          case Some(db4) => Result(Saved, db4)
  }

  /** After a successful save of patient `p`'s lists, `p` holds exactly the capitalised names of each
      replace-all list in order, and exactly the allergies listed; nobody else's links change. */
  lemma SaveListsContents(db: Db, p: nat, form: SettingsForm)
    requires SaveLists(db, p, form).Some?
    ensures var d := SaveLists(db, p, form).value;
      && ItemsOf(d.patientConditions, p) == ConditionNames(form)
      && ItemsOf(d.patientMedications, p) == MedicationNames(form)
      && ItemsOf(d.patientSurgeries, p) == SurgeryNames(form)
      && (forall x :: x in ItemsOf(d.patientAllergies, p) <==> x in AllergyNames(form))
      && forall q :: q != p ==>
           && ItemsOf(d.patientConditions, q) == ItemsOf(db.patientConditions, q)
           && ItemsOf(d.patientMedications, q) == ItemsOf(db.patientMedications, q)
           && ItemsOf(d.patientSurgeries, q) == ItemsOf(db.patientSurgeries, q)
           && ItemsOf(d.patientAllergies, q) == ItemsOf(db.patientAllergies, q)
  {
  }

  /** A saved patient's lists are what the form's text fields say. */
  lemma SavedPatientLists(db: Db, id: nat, form: SettingsForm, upload: Option<string>, fieldsValid: bool)
    requires HasUser(db, id) && id in db.patients
    requires SaveSettings(db, Some(id), form, upload, fieldsValid).outcome == Saved
    ensures var d := SaveSettings(db, Some(id), form, upload, fieldsValid).db;
      && ItemsOf(d.patientConditions, id) == ConditionNames(form)
      && ItemsOf(d.patientMedications, id) == MedicationNames(form)
      && ItemsOf(d.patientSurgeries, id) == SurgeryNames(form)
      && (forall x :: x in ItemsOf(d.patientAllergies, id) <==> x in AllergyNames(form))
  {
    SaveListsContents(ApplyPatient(ApplyAccount(db, id, form, upload), id, form), id, form);
  }

  /** Saving one user's settings leaves every other patient's links as they were. */
  lemma SaveLeavesOtherPatients(db: Db, id: nat, form: SettingsForm, upload: Option<string>, fieldsValid: bool, q: nat)
    requires HasUser(db, id) && q != id
    ensures var d := SaveSettings(db, Some(id), form, upload, fieldsValid).db;
      && ItemsOf(d.patientConditions, q) == ItemsOf(db.patientConditions, q)
      && ItemsOf(d.patientMedications, q) == ItemsOf(db.patientMedications, q)
      && ItemsOf(d.patientSurgeries, q) == ItemsOf(db.patientSurgeries, q)
      && ItemsOf(d.patientAllergies, q) == ItemsOf(db.patientAllergies, q)
  {
    var r := SaveSettings(db, Some(id), form, upload, fieldsValid);
    if r.outcome == Saved && id in db.patients {
      SaveListsContents(ApplyPatient(ApplyAccount(db, id, form, upload), id, form), id, form);
    }
  }

  /** Saving one user's settings leaves every other account row as it was, in its place. */
  lemma SaveLeavesOtherAccounts(db: Db, id: nat, form: SettingsForm, upload: Option<string>, fieldsValid: bool)
    requires HasUser(db, id)
    ensures var d := SaveSettings(db, Some(id), form, upload, fieldsValid).db;
      && |d.users| == |db.users|
      && forall i :: 0 <= i < |db.users| && db.users[i].id != id ==> d.users[i] == db.users[i]
  {
  }

  /** The four strings the settings page shows a patient: each relation's names joined with ", ". */
  datatype ListsShown = ListsShown(allergies: string, conditions: string, medications: string, surgeries: string)

  /** The four list strings the settings page shows for patient `p`. Lists of stored names are
      shown so that submitting the page unchanged stores them again. */
  function ShowLists(db: Db, p: nat): (r: ListsShown)
    ensures var xs := ItemsOf(db.patientAllergies, p); AllStoredNames(xs) ==> StoredNames(r.allergies) == xs
    ensures var xs := ItemsOf(db.patientConditions, p); AllStoredNames(xs) ==> StoredNames(r.conditions) == xs
    ensures var xs := ItemsOf(db.patientMedications, p); AllStoredNames(xs) ==> StoredNames(r.medications) == xs
    ensures var xs := ItemsOf(db.patientSurgeries, p); AllStoredNames(xs) ==> StoredNames(r.surgeries) == xs
  {
    var a, c := ItemsOf(db.patientAllergies, p), ItemsOf(db.patientConditions, p);
    var m, s := ItemsOf(db.patientMedications, p), ItemsOf(db.patientSurgeries, p);
    ShowRoundTrip(a); ShowRoundTrip(c); ShowRoundTrip(m); ShowRoundTrip(s);
    ListsShown(DisplayString(a), DisplayString(c), DisplayString(m), DisplayString(s))
  }

  /** After a save, the page shows lists that, submitted again unchanged, parse and capitalise back
      to exactly the names stored. */
  lemma ShownListsRoundTrip(db: Db, id: nat, form: SettingsForm, upload: Option<string>, fieldsValid: bool)
    requires HasUser(db, id) && id in db.patients
    requires SaveSettings(db, Some(id), form, upload, fieldsValid).outcome == Saved
    ensures var d := SaveSettings(db, Some(id), form, upload, fieldsValid).db;
      var shown := ShowLists(d, id);
      && StoredNames(shown.conditions) == ItemsOf(d.patientConditions, id)
      && StoredNames(shown.medications) == ItemsOf(d.patientMedications, id)
      && StoredNames(shown.surgeries) == ItemsOf(d.patientSurgeries, id)
      && StoredNames(shown.allergies) == ItemsOf(d.patientAllergies, id)
  {
    var d := SaveSettings(db, Some(id), form, upload, fieldsValid).db;
    SavedPatientLists(db, id, form, upload, fieldsValid);
    StoredNamesAreStored(form.conditionsText.GetOr(""));
    StoredNamesAreStored(form.medicationsText.GetOr(""));
    StoredNamesAreStored(form.surgeriesText.GetOr(""));
    StoredNamesAreStored(form.allergiesText.GetOr(""));
    StoredListRoundTrip(ItemsOf(d.patientConditions, id));
    StoredListRoundTrip(ItemsOf(d.patientMedications, id));
    StoredListRoundTrip(ItemsOf(d.patientSurgeries, id));
    var al := ItemsOf(d.patientAllergies, id);
    forall i | 0 <= i < |al|
      ensures IsStoredName(al[i])
    {
      assert al[i] in AllergyNames(form);
    }
    StoredListRoundTrip(al);
  }

  lemma UpdateUserKeepsUsers(db: Db, a: Account, db1: Db)
    requires UsersUnique(db.users) && OwnedByUsers(db) && HasUser(db, a.id)
    requires FindUser(db.users, a.id).value.username == a.username
    requires db1.users == UpdateUser(db.users, a) && db1.faceImages == db.faceImages
    requires db1.doctors.Keys == db.doctors.Keys && db1.patients.Keys == db.patients.Keys
    ensures UsersUnique(db1.users) && OwnedByUsers(db1)
    ensures forall id :: HasUser(db1, id) <==> HasUser(db, id)
  {
    var us, us1 := db.users, db1.users;
    forall i | 0 <= i < |us|
      ensures us1[i].id == us[i].id && us1[i].username == us[i].username
    {
      if us[i].id == a.id {
        var j :| 0 <= j < |us| && FindUser(us, a.id).value == us[j];
        assert us[j].id == a.id;
        assert i == j;
      }
    }
    forall id
      ensures HasUser(db1, id) <==> HasUser(db, id)
    {
      if HasUser(db, id) {
        var i :| 0 <= i < |us| && us[i].id == id;
        assert us1[i].id == id;
      }
      if HasUser(db1, id) {
        var i :| 0 <= i < |us1| && us1[i].id == id;
        assert us[i].id == id;
      }
    }
  }

  lemma SaveListsKeepsLinks(db: Db, p: nat, form: SettingsForm)
    requires CataloguesAndLinksValid(db) && p in db.patients
    requires SaveLists(db, p, form).Some?
    ensures CataloguesAndLinksValid(SaveLists(db, p, form).value)
  {
    var d := SaveLists(db, p, form).value;
    var ps := db.patients.Keys;
    SaveListsContents(db, p, form);
    LinksWellFormedAfterUpdate(db.patientAllergies, d.patientAllergies, p, db.allergies, d.allergies, ps);
    LinksWellFormedAfterUpdate(db.patientConditions, d.patientConditions, p, db.conditions, d.conditions, ps);
    LinksWellFormedAfterUpdate(db.patientMedications, d.patientMedications, p, db.medications, d.medications, ps);
    LinksWellFormedAfterUpdate(db.patientSurgeries, d.patientSurgeries, p, db.surgeries, d.surgeries, ps);
  }

  lemma ApplyAccountKeepsLicenses(db: Db, id: nat, form: SettingsForm, upload: Option<string>)
    requires LicensesUnique(db.doctors) && HasUser(db, id) && !LicenseClash(db, id, form)
    ensures LicensesUnique(ApplyAccount(db, id, form, upload).doctors)
  {
    if id in db.doctors {
      LicensesUniqueAfterSet(db.doctors, id, UpdatedDoctor(db.doctors[id], form));
    }
  }

  lemma ApplyAccountKeepsUsers(db: Db, id: nat, form: SettingsForm, upload: Option<string>)
    requires UsersUnique(db.users) && OwnedByUsers(db) && HasUser(db, id)
    ensures UsersUnique(ApplyAccount(db, id, form, upload).users)
    ensures OwnedByUsers(ApplyAccount(db, id, form, upload))
  {
    var a := FindUser(db.users, id).value;
    UpdateUserKeepsUsers(db, UpdatedAccount(a, form, upload), ApplyAccount(db, id, form, upload));
  }

  lemma ApplyPatientKeeps(db: Db, id: nat, form: SettingsForm)
    requires id in db.patients && CataloguesAndLinksValid(db) && OwnedByUsers(db)
    ensures CataloguesAndLinksValid(ApplyPatient(db, id, form)) && OwnedByUsers(ApplyPatient(db, id, form))
  {
    var d := ApplyPatient(db, id, form);
    var ps := db.patients.Keys;
    assert d.patients.Keys == ps;
    assert forall u :: HasUser(d, u) <==> HasUser(db, u);
    LinksWellFormedGrow(db.patientAllergies, db.allergies, d.allergies, ps, ps);
    LinksWellFormedGrow(db.patientConditions, db.conditions, d.conditions, ps, ps);
    LinksWellFormedGrow(db.patientMedications, db.medications, d.medications, ps, ps);
    LinksWellFormedGrow(db.patientSurgeries, db.surgeries, d.surgeries, ps, ps);
  }

  /** The state a successful save leaves behind. */
  lemma SavedState(db: Db, user: Option<nat>, form: SettingsForm, upload: Option<string>, fieldsValid: bool)
    requires user.Some? ==> HasUser(db, user.value)
    requires SaveSettings(db, user, form, upload, fieldsValid).outcome == Saved
    ensures user.Some? && !LicenseClash(db, user.value, form)
    ensures var d2 := ApplyAccount(db, user.value, form, upload);
      SaveSettings(db, user, form, upload, fieldsValid).db ==
        if user.value in db.patients then SaveLists(ApplyPatient(d2, user.value, form), user.value, form).value else d2
  {
  }

  /** Saving settings keeps every schema constraint. */
  lemma SaveKeepsConsistent(db: Db, user: Option<nat>, form: SettingsForm, upload: Option<string>, fieldsValid: bool)
    requires Consistent(db) && (user.Some? ==> HasUser(db, user.value))
    ensures Consistent(SaveSettings(db, user, form, upload, fieldsValid).db)
  {
    if SaveSettings(db, user, form, upload, fieldsValid).outcome == Saved {
      SavedState(db, user, form, upload, fieldsValid);
      var id := user.value;
      var d2 := ApplyAccount(db, id, form, upload);
      ApplyAccountKeepsUsers(db, id, form, upload);
      ApplyAccountKeepsLicenses(db, id, form, upload);
      if id in db.patients {
        var d3 := ApplyPatient(d2, id, form);
        ApplyPatientKeeps(d2, id, form);
        SaveListsKeepsLinks(d3, id, form);
        OwnedByUsersFrame(d3, SaveLists(d3, id, form).value);
      }
    }
  }
}
