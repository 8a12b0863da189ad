/**
 * The two photo views: `add_photo_view`, where a patient enrols a face photo,
 * and `search_patient_by_photo`, where a doctor identifies a patient from a
 * photo through the recognition service. Both require a signed-in user
 * (`login_required`) and are gated on the user's profile kind.
 */
module PhotoViews {
  import opened Wrappers
  import opened Tables
  import opened FaceImages
  import opened Records
  import opened UploadPaths
  import opened Recognition

  /** An uploaded file: its original name and its bytes. */
  datatype UploadedFile = UploadedFile(name: string, content: Bytes)

  /** A request to one of the views: a page load, or a POST carrying the view's file field (if sent). */
  datatype Request = GetPage | PostForm(file: Option<UploadedFile>)

  datatype AddPhotoOutcome =
    | LoginRequired
    | PatientsOnly
    | PhotoAdded
    | NoFaceInPhoto
    | NoFileChosen
    | ShowPhotos(photos: seq<FaceImage>)

  datatype AddPhotoResult = AddPhotoResult(outcome: AddPhotoOutcome, db: Db)

  /** The user's own photos in their listing order. */
  function PhotosOf(db: Db, user: nat): (r: seq<FaceImage>)
    ensures forall x :: x in r <==> x in db.faceImages && x.user == user
    ensures NewestFirst(r)
    ensures forall x :: multiset(r)[x] == if x.user == user then multiset(db.faceImages)[x] else 0
  {
    var all := OrderNewestFirst(db.faceImages);
    SameElements(all, db.faceImages);
    FilterCounts(all, OwnedBy(user));
    FilterKeepsNewestFirst(all, OwnedBy(user));
    Filter(all, OwnedBy(user))
  }

  function OwnedBy(user: nat): FaceImage -> bool {
    (f: FaceImage) => f.user == user
  }

  lemma SameElements(a: seq<FaceImage>, b: seq<FaceImage>)
    requires multiset(a) == multiset(b)
    ensures forall x :: x in a <==> x in b
  {
    forall x
      ensures x in a <==> x in b
    {
      assert x in a <==> x in multiset(a);
      assert x in b <==> x in multiset(b);
    }
  }

  /** The email of an existing account. */
  function EmailOf(db: Db, id: nat): string
    requires HasUser(db, id)
  {
    FindUser(db.users, id).value.email
  }

  lemma {:induction false} FilterKeepsNewestFirst(s: seq<FaceImage>, keep: FaceImage -> bool)
    requires NewestFirst(s)
    ensures NewestFirst(Filter(s, keep))
  {
    if s != [] {
      var init, last := s[..|s| - 1], s[|s| - 1];
      assert NewestFirst(init);
      FilterKeepsNewestFirst(init, keep);
      var fi := Filter(init, keep);
      if keep(last) {
        forall i | 0 <= i < |fi|
          ensures fi[i].uploadedAt >= last.uploadedAt
        {
          assert fi[i] in init;
        }
        assert Filter(s, keep) == fi + [last];
      }
    }
  }

  /** `add_photo_view`. `user` is the signed-in account (`None` when signed out), `detectFace` the
      face-detection check run on the uploaded bytes, `now` the upload time. */
  function AddPhoto(db: Db, user: Option<nat>, req: Request, detectFace: Bytes -> bool, now: int): (r: AddPhotoResult)
    requires user.Some? ==> HasUser(db, user.value)
    ensures r.outcome == PhotoAdded <==>
      user.Some? && user.value in db.patients && req.PostForm? && req.file.Some? && detectFace(req.file.value.content)
    ensures r.outcome != PhotoAdded ==> r.db == db
    ensures r.outcome == PhotoAdded ==>
      r.db == db.(faceImages := db.faceImages +
        [FaceImage(user.value, UserDirectoryPath(EmailOf(db, user.value), req.file.value.name), now)])
    ensures r.outcome.ShowPhotos? <==> user.Some? && user.value in db.patients && req.GetPage?
    ensures user.Some? && r.outcome.ShowPhotos? ==> r.outcome.photos == PhotosOf(db, user.value)
  {
    if user.None? then AddPhotoResult(LoginRequired, db)
    else if user.value !in db.patients then AddPhotoResult(PatientsOnly, db)
    else
      match req
      case GetPage => AddPhotoResult(ShowPhotos(PhotosOf(db, user.value)), db)
      case PostForm(None) => AddPhotoResult(NoFileChosen, db)
      case PostForm(Some(f)) =>
        if detectFace(f.content) then
          var photo := FaceImage(user.value, UserDirectoryPath(EmailOf(db, user.value), f.name), now);
          AddPhotoResult(PhotoAdded, db.(faceImages := db.faceImages + [photo]))
        else AddPhotoResult(NoFaceInPhoto, db)
  }

  /** Adding a photo keeps every schema constraint: the photo belongs to an existing account. */
  lemma AddPhotoKeepsConsistent(db: Db, user: Option<nat>, req: Request, detectFace: Bytes -> bool, now: int)
    requires Consistent(db) && (user.Some? ==> HasUser(db, user.value))
    ensures Consistent(AddPhoto(db, user, req, detectFace, now).db)
  {
    var r := AddPhoto(db, user, req, detectFace, now);
    if r.outcome == PhotoAdded {
      AppendPhotoKeepsOwnership(db, r.db.faceImages[|db.faceImages|], r.db);
    }
  }

  /** Recording a photo of an existing account leaves every profile and photo owned. */
  lemma AppendPhotoKeepsOwnership(db: Db, photo: FaceImage, db1: Db)
    requires OwnedByUsers(db) && HasUser(db, photo.user)
    requires db1 == db.(faceImages := db.faceImages + [photo])
    ensures OwnedByUsers(db1)
  {
    assert forall u :: HasUser(db1, u) <==> HasUser(db, u);
    forall i | 0 <= i < |db1.faceImages|
      ensures HasUser(db1, db1.faceImages[i].user)
    {
      if i < |db.faceImages| {
        assert db1.faceImages[i] == db.faceImages[i];
      }
    }
  }

  datatype SearchOutcome =
    | SignInRequired
    | DoctorsOnly
    | ShowSearchForm
    | PatientDetails(id: nat)
    | NotIdentified(message: Message)
    | ServerError

  /** `search_patient_by_photo`. Recognition runs only for a doctor's POST that carries a photo; an
      exception it raises is not caught by the view. A found id of 0 counts as not found, as
      Python's truth test of the id does. */
  function SearchByPhoto(g: Globals, db: Db, user: Option<nat>, req: Request, disk: Option<StoredModel>, o: Oracles): (r: Step<SearchOutcome>)
    ensures !(user.Some? && user.value in db.doctors && req.PostForm? && req.file.Some?) ==> r.globals == g
    ensures r.value.PatientDetails? <==>
      && user.Some? && user.value in db.doctors && req.PostForm? && req.file.Some?
      && var reply := RecognizeFace(g, disk, req.file.value.content, o).value;
         reply.Reply? && reply.userId.Some? && reply.userId.value != 0
    ensures r.value.PatientDetails? ==>
      RecognizeFace(g, disk, req.file.value.content, o).value.userId == Some(r.value.id)
  {
    if user.None? then Step(g, SignInRequired)
    else if user.value !in db.doctors then Step(g, DoctorsOnly)
    else if req.GetPage? || req.file.None? then Step(g, ShowSearchForm)
    else
      var s := RecognizeFace(g, disk, req.file.value.content, o);
      match s.value
      case Raised => Step(s.globals, ServerError)
      case Reply(id, message) =>
        if id.Some? && id.value != 0 then Step(s.globals, PatientDetails(id.value))
        else Step(s.globals, NotIdentified(message))
  }

  /** A search leads to a patient's page only through one of recognition's accepting answers. */
  lemma SearchFindsOnlyRecognized(g: Globals, db: Db, user: Option<nat>, req: Request, disk: Option<StoredModel>, o: Oracles)
    requires SearchByPhoto(g, db, user, req, disk, o).value.PatientDetails?
    ensures var m := RecognizeFace(g, disk, req.file.value.content, o).value.message;
      m.Recognized? || m == RecognizedSimple
  {
  }

  /** Without a trained model in memory or on disk, no search reaches a patient's page. */
  lemma SearchWithoutModelFindsNobody(g: Globals, db: Db, user: Option<nat>, req: Request, disk: Option<StoredModel>, o: Oracles)
    requires LoadModel(g, disk).model.None?
    ensures !SearchByPhoto(g, db, user, req, disk, o).value.PatientDetails?
  {
  }
}
