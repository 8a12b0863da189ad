/**
 * The `train_face_model` management command: gather the enrolment photos and
 * profile pictures, turn each into a face embedding paired with its owner's
 * id, and write an SVM artifact (two or more distinct users) or a single
 * nearest-neighbour artifact (one user) in place of the stored model.
 *
 * Fitting the SVM and the neighbour index is not modelled beyond the data the
 * fitted objects keep: the samples, their labels and the sorted class labels.
 */
module Training {
  import opened Wrappers
  import opened Recognition
  import opened LabelEncoding
  import opened FaceImages
  import opened Records

  /** One image waiting to be processed: the stored file name and the id of its owner. */
  datatype Queued = Queued(image: string, user: nat)

  /** The two parallel lists the command accumulates. */
  datatype Samples = Samples(embeddings: seq<Embedding>, userIds: seq<nat>)

  /** Every embedding has exactly one user id beside it. */
  predicate Paired(s: Samples) {
    |s.embeddings| == |s.userIds|
  }

  /** What the command ends with. */
  datatype Outcome = NoImages | NoValidFaces | Trained(artifact: Artifact)

  /** The outcome, the service globals of the command's process, and the model file afterwards. */
  datatype Run = Run(globals: Globals, outcome: Outcome, disk: Option<StoredModel>)

  function FaceNames(faces: seq<FaceImage>): (r: seq<string>)
    ensures |r| == |faces|
    ensures forall i :: 0 <= i < |faces| ==> r[i] == faces[i].image
  {
    seq(|faces|, i requires 0 <= i < |faces| => faces[i].image)
  }

  function FaceQueue(faces: seq<FaceImage>): (r: seq<Queued>)
    ensures |r| == |faces|
    ensures forall i :: 0 <= i < |faces| ==> r[i] == Queued(faces[i].image, faces[i].user)
  {
    seq(|faces|, i requires 0 <= i < |faces| => Queued(faces[i].image, faces[i].user))
  }

  /** A user whose profile picture is queued: one is set, and no enrolment photo has its name. */
  predicate ProfileEligible(u: Account, names: seq<string>) {
    u.profilePicture.Some? && u.profilePicture.value != "" && u.profilePicture.value !in names
  }

  /** The profile pictures to process, in user order. */
  function ProfileQueue(users: seq<Account>, names: seq<string>): (r: seq<Queued>)
    ensures |r| <= |users|
    ensures forall q :: q in r <==>
      exists i :: 0 <= i < |users| && ProfileEligible(users[i], names)
        && q == Queued(users[i].profilePicture.value, users[i].id)
    ensures |users| == 1 ==>
      r == if ProfileEligible(users[0], names) then [Queued(users[0].profilePicture.value, users[0].id)] else []
  {
    if users == [] then []
    else
      var u := users[0];
      var rest := ProfileQueue(users[1..], names);
      assert forall i :: 1 <= i < |users| ==> users[i] == users[1..][i - 1];
      if ProfileEligible(u, names) then [Queued(u.profilePicture.value, u.id)] + rest else rest
  }

  /** Each user's picture is judged on its own: the queue for a concatenation of user lists is
      the concatenation of their queues, so two users sharing one picture name are both queued. */
  lemma {:induction false} ProfileQueueAppend(us: seq<Account>, vs: seq<Account>, names: seq<string>)
    ensures ProfileQueue(us + vs, names) == ProfileQueue(us, names) + ProfileQueue(vs, names)
  {
    if us != [] {
      assert (us + vs)[1..] == us[1..] + vs;
      ProfileQueueAppend(us[1..], vs, names);
    } else {
      assert us + vs == vs;
    }
  }

  /** Every enrolment photo first (in their listing order, newest first), then the eligible profile pictures. */
  function Collect(faces: seq<FaceImage>, users: seq<Account>): (r: seq<Queued>)
    ensures |r| >= |faces|
    ensures forall i :: 0 <= i < |faces| ==>
      r[i] == Queued(OrderNewestFirst(faces)[i].image, OrderNewestFirst(faces)[i].user)
    ensures r[|faces|..] == ProfileQueue(users, FaceNames(faces))
  {
    FaceQueue(OrderNewestFirst(faces)) + ProfileQueue(users, FaceNames(faces))
  }

  /** No profile picture is queued exactly when no user is eligible. */
  lemma {:induction false} ProfileQueueEmptyIff(users: seq<Account>, names: seq<string>)
    ensures ProfileQueue(users, names) == [] <==> forall i :: 0 <= i < |users| ==> !ProfileEligible(users[i], names)
  {
    if users != [] {
      ProfileQueueEmptyIff(users[1..], names);
      assert forall i :: 1 <= i < |users| ==> users[i] == users[1..][i - 1];
    }
  }

  /** The queue is empty exactly when there are no enrolment photos and no eligible profile pictures. */
  lemma CollectEmptyIff(faces: seq<FaceImage>, users: seq<Account>)
    ensures Collect(faces, users) == [] <==>
      faces == [] && forall i :: 0 <= i < |users| ==> !ProfileEligible(users[i], [])
  {
    if faces == [] {
      assert FaceNames(faces) == [];
      ProfileQueueEmptyIff(users, []);
    }
  }

  /** `process_image_field`: read, decode and embed one image; add the pair on success and
      nothing otherwise. `files` reads a stored file (`None` when reading raises). */
  function ProcessImage(g: Globals, s: Samples, q: Queued, files: string -> Option<Bytes>, o: Oracles): (r: Step<Samples>)
    ensures Paired(s) ==> Paired(r.value)
    ensures r.globals.model == g.model
    ensures r.value == s || exists e :: r.value == Samples(s.embeddings + [e], s.userIds + [q.user])
    ensures q.image == "" || files(q.image).None? ==> r == Step(g, s)
    ensures q.image != "" && files(q.image).Some? && o.decode(files(q.image).value).DecodeRaised? ==> r == Step(g, s)
    ensures q.image != "" && files(q.image).Some? && o.decode(files(q.image).value).Decoded? ==>
      var x := ExtractEmbedding(g, o.decode(files(q.image).value).image, o);
      && r.globals == x.globals
      && (x.value.None? ==> r.value == s)
      && (x.value.Some? ==> r.value == Samples(s.embeddings + [x.value.value], s.userIds + [q.user]))
  {
    if q.image == "" then Step(g, s)
    else
      match files(q.image)
      case None => Step(g, s)
      case Some(bytes) =>
        match o.decode(bytes)
        case DecodeRaised => Step(g, s)
        case Decoded(image) =>
          var x := ExtractEmbedding(g, image, o);
          match x.value
          case None => Step(x.globals, s)
          case Some(e) => Step(x.globals, Samples(s.embeddings + [e], s.userIds + [q.user]))
  }

  /** The loop over the queue; every image is processed whatever happened to the ones before. */
  function ProcessAll(g: Globals, s: Samples, qs: seq<Queued>, files: string -> Option<Bytes>, o: Oracles): (r: Step<Samples>)
    ensures Paired(s) ==> Paired(r.value)
    ensures r.globals.model == g.model
    ensures |s.userIds| <= |r.value.userIds| <= |s.userIds| + |qs|
    ensures r.value.userIds[..|s.userIds|] == s.userIds
    ensures forall i :: |s.userIds| <= i < |r.value.userIds| ==> exists j :: 0 <= j < |qs| && r.value.userIds[i] == qs[j].user
    decreases |qs|
  {
    if qs == [] then Step(g, s)
    else
      var x := ProcessImage(g, s, qs[0], files, o);
      var r := ProcessAll(x.globals, x.value, qs[1..], files, o);
      assert forall j :: 0 <= j < |qs| - 1 ==> qs[1..][j] == qs[j + 1];
      assert r.value.userIds[..|s.userIds|] == x.value.userIds[..|x.value.userIds|][..|s.userIds|];
      r
  }

  /** Processing a queue in two parts is processing the whole queue: nothing stops the loop early. */
  lemma {:induction false} ProcessAllAppend(g: Globals, s: Samples, qs: seq<Queued>, rs: seq<Queued>, files: string -> Option<Bytes>, o: Oracles)
    ensures var a := ProcessAll(g, s, qs, files, o);
      ProcessAll(g, s, qs + rs, files, o) == ProcessAll(a.globals, a.value, rs, files, o)
    decreases |qs|
  {
    if qs == [] {
      assert qs + rs == rs;
    } else {
      assert (qs + rs)[1..] == qs[1..] + rs;
      var x := ProcessImage(g, s, qs[0], files, o);
      ProcessAllAppend(x.globals, x.value, qs[1..], rs, files, o);
    }
  }

  /** An image whose file cannot be read is skipped, and the images after it are still processed. */
  lemma UnreadableImageSkipped(g: Globals, s: Samples, q: Queued, qs: seq<Queued>, files: string -> Option<Bytes>, o: Oracles)
    requires files(q.image).None?
    ensures ProcessAll(g, s, [q] + qs, files, o) == ProcessAll(g, s, qs, files, o)
  {
    assert ([q] + qs)[1..] == qs;
  }

  /** The fitted artifact: an SVM over encoded labels with its label encoder when two or more
      distinct users remain, otherwise a one-neighbour classifier over the raw user ids. */
  function Fit(s: Samples): (a: Artifact)
    requires Paired(s) && |s.userIds| > 0
    ensures a.tag == Some("svm") <==> |SetOf(s.userIds)| >= 2
    ensures a.tag == Some("svm") || a.tag == Some("knn")
    ensures a.classifier.Some? && a.classifier.value.samples == s.embeddings
    ensures a.tag == Some("svm") ==>
      && a.encoder.Some? && |a.classifier.value.labels| == |s.userIds|
      && forall i :: 0 <= i < |s.userIds| ==>
           Decode(a.encoder.value.classes, a.classifier.value.labels[i]) == Some(s.userIds[i])
    ensures a.tag == Some("knn") ==> a.encoder.None? && a.classifier.value.labels == s.userIds
  {
    if |SetOf(s.userIds)| >= 2 then
      var fitted := FitTransform(s.userIds);
      var labels := fitted.1;
      Artifact(Some("svm"), Some(Classifier(s.embeddings, labels, Unique(labels))), Some(LabelEncoder(fitted.0)))
    else
      Artifact(Some("knn"), Some(Classifier(s.embeddings, s.userIds, Unique(s.userIds))), None)
  }

  /** `handle`: the model file is written only after both guards pass. */
  function Handle(g: Globals, faces: seq<FaceImage>, users: seq<Account>, files: string -> Option<Bytes>,
                  o: Oracles, disk: Option<StoredModel>): (r: Run)
    ensures r.outcome == NoImages <==> Collect(faces, users) == []
    ensures !r.outcome.Trained? ==> r.disk == disk
    ensures r.outcome.Trained? ==> r.disk == Some(Readable(r.outcome.artifact))
    ensures r.globals.model == g.model
  {
    var queue := Collect(faces, users);
    if queue == [] then Run(g, NoImages, disk)
    else
      var p := ProcessAll(g, Samples([], []), queue, files, o);
      if p.value.userIds == [] then Run(p.globals, NoValidFaces, disk)
      else
        var a := Fit(p.value);
        Run(p.globals, Trained(a), Some(Readable(a)))
  }

  /** The samples a training run fits on. */
  function Harvest(g: Globals, faces: seq<FaceImage>, users: seq<Account>, files: string -> Option<Bytes>, o: Oracles): (s: Samples)
    ensures Paired(s)
    ensures |s.userIds| <= |Collect(faces, users)|
    ensures forall i :: 0 <= i < |s.userIds| ==>
      exists j :: 0 <= j < |Collect(faces, users)| && s.userIds[i] == Collect(faces, users)[j].user
  {
    ProcessAll(g, Samples([], []), Collect(faces, users), files, o).value
  }

  /** A run trains exactly when some image yields an embedding, and then fits on those samples. */
  lemma HandleTrainsIffSomeFace(g: Globals, faces: seq<FaceImage>, users: seq<Account>, files: string -> Option<Bytes>,
                                o: Oracles, disk: Option<StoredModel>)
    ensures Handle(g, faces, users, files, o, disk).outcome.Trained? <==> |Harvest(g, faces, users, files, o).userIds| > 0
    ensures Handle(g, faces, users, files, o, disk).outcome.Trained? ==>
      Handle(g, faces, users, files, o, disk).outcome.artifact == Fit(Harvest(g, faces, users, files, o))
  {
  }

  /** What the command writes is what the service can use: a well-formed SVM or kNN artifact. */
  lemma FitWellFormed(s: Samples)
    requires Paired(s) && |s.userIds| > 0
    ensures var a := Fit(s);
      (WellFormedSvm(a) && |a.classifier.value.classes| > 0) || WellFormedKnn(a)
  {
    var a := Fit(s);
    if a.tag == Some("svm") {
      var clf := a.classifier.value;
      var k := |a.encoder.value.classes|;
      forall i | 0 <= i < |clf.classes|
        ensures clf.classes[i] < k
      {
        assert clf.classes[i] in clf.labels;
      }
      assert clf.labels[0] in clf.classes;
    }
  }

  /** An SVM artifact fitted on these samples only ever names one of their users. */
  lemma SvmNamesEnrolledUser(s: Samples, e: Embedding, o: Oracles)
    requires Paired(s) && |s.userIds| > 0
    requires Fit(s).tag == Some("svm") && ProbaShaped(o, Fit(s).classifier.value)
    ensures Classify(Fit(s), e, o).Reply?
    ensures Classify(Fit(s), e, o).userId.Some? ==> Classify(Fit(s), e, o).userId.value in s.userIds
  {
    FitWellFormed(s);
    SvmAcceptsIffConfident(Fit(s), e, o);
  }

  /** A kNN artifact holds a single user, and prediction can only name that user. */
  lemma KnnNamesTheOnlyUser(s: Samples, e: Embedding, o: Oracles)
    requires Paired(s) && |s.userIds| > 0
    requires Fit(s).tag == Some("knn")
    ensures forall i :: 0 <= i < |s.userIds| ==> Fit(s).classifier.value.labels[i] == s.userIds[0]
    ensures Classify(Fit(s), e, o).Reply?
    ensures Classify(Fit(s), e, o).userId.Some? ==> Classify(Fit(s), e, o).userId.value == s.userIds[0]
  {
    UniqueCount(s.userIds);
    assert s.userIds[0] in Unique(s.userIds);
    SingleClass(s.userIds);
    FitWellFormed(s);
    KnnAcceptsIffClose(Fit(s), e, o);
  }
}
