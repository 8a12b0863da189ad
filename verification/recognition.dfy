/**
 * The face-recognition service: two lazily filled process globals (the loaded
 * model artifact and the FaceNet embedder), `extract_embedding`, `_load_model`
 * and `recognize_face` with its closed dispatch over the artifact's type tag.
 *
 * Every numeric or foreign computation is an oracle carried in `Oracles`:
 * whether constructing FaceNet succeeds, `cv2.imdecode`, FaceNet's detector,
 * the SVM's `predict_proba` and the kNN metric. Probabilities and distances are
 * reals; only their comparisons with the two thresholds matter here.
 */
module Recognition {
  import opened Wrappers

  type Bytes = seq<bv8>
  /** A decoded image; its pixels are only ever handed to the detector oracle. */
  type Image = seq<Bytes>
  /** A face embedding (FaceNet's 512-dimensional vector); never inspected here. */
  type Embedding = seq<real>

  /** The minimum class probability the SVM branch accepts. */
  const SvmConfidenceThreshold: real := 0.75
  /** The maximum nearest-neighbour distance the kNN branch accepts. */
  const KnnDistanceThreshold: real := 0.7
  /** The detection confidence floor handed to FaceNet's detector. */
  const DetectionThreshold: real := 0.95

  /** A fitted scikit-learn classifier: the embeddings it was fitted on, their labels, and
      `classes_` (the sorted distinct labels). */
  datatype Classifier = Classifier(samples: seq<Embedding>, labels: seq<nat>, classes: seq<nat>)

  /** A fitted `LabelEncoder`: its `classes_`, the sorted distinct user ids. */
  datatype LabelEncoder = LabelEncoder(classes: seq<nat>)

  /** The unpickled dictionary: its "type", "classifier" and "label_encoder" entries, each possibly absent. */
  datatype Artifact = Artifact(tag: Option<string>, classifier: Option<Classifier>, encoder: Option<LabelEncoder>)

  /** The model file on disk: one that unpickles to an artifact, or one whose loading raises. */
  datatype StoredModel = Readable(artifact: Artifact) | Unreadable

  /** The two module globals `_model_data` and `_facenet_embedder` (the embedder only as present or not). */
  datatype Globals = Globals(model: Option<Artifact>, embedderReady: bool)

  /** `cv2.imdecode`: raises, or returns an image or `None`. */
  datatype Decoded = DecodeRaised | Decoded(image: Option<Image>)

  datatype Oracles = Oracles(
    embedderBoots: bool,                               // FaceNet() succeeds
    decode: Bytes -> Decoded,                          // read + cv2.imdecode
    detect: (Image, real) -> Option<seq<Embedding>>,   // FaceNet.extract; None when it raises
    proba: (Classifier, Embedding) -> seq<real>,       // SVC.predict_proba for one embedding
    distance: (Embedding, Embedding) -> real)          // the kNN metric

  /** The messages `recognize_face` returns beside the user id. */
  datatype Message =
    | ModelNotLoaded
    | BadImageFormat
    | NoFaceDetected
    | Recognized(confidence: real)
    | LowConfidence(confidence: real)
    | RecognizedSimple
    | NotRecognizedSimple
    | UnknownModelType

  /** What `recognize_face` does: return `(user_id, message)`, or raise. */
  datatype Reply = Reply(userId: Option<nat>, message: Message) | Raised

  /** A result together with the globals as they are afterwards. */
  datatype Step<T> = Step(globals: Globals, value: T)

  /** Whether an extraction can run: the embedder is there or can be built now. */
  predicate EmbedderAvailable(g: Globals, o: Oracles) {
    g.embedderReady || o.embedderBoots
  }

  /** `extract_embedding(image)`. */
  function ExtractEmbedding(g: Globals, image: Option<Image>, o: Oracles): (r: Step<Option<Embedding>>)
    ensures r.globals.model == g.model
    ensures r.globals.embedderReady == EmbedderAvailable(g, o)
    ensures image.None? ==> r.value.None?
    ensures r.value.Some? <==>
      EmbedderAvailable(g, o) && image.Some?
      && o.detect(image.value, DetectionThreshold).Some?
      && |o.detect(image.value, DetectionThreshold).value| > 0
    ensures r.value.Some? ==> r.value.value == o.detect(image.value, DetectionThreshold).value[0]
  {
    if !EmbedderAvailable(g, o) then Step(g, None)
    else
      var g' := g.(embedderReady := true);
      if image.None? then Step(g', None)
      else
        match o.detect(image.value, DetectionThreshold)
        case None => Step(g', None)
        case Some(detections) => if |detections| == 0 then Step(g', None) else Step(g', Some(detections[0]))
  }

  /** Once built, the embedder is reused: a later extraction leaves the globals as they are. */
  lemma EmbedderBuiltOnce(g: Globals, image: Option<Image>, o: Oracles)
    requires g.embedderReady
    ensures ExtractEmbedding(g, image, o).globals == g
  {
  }

  /** A failed construction returns no embedding and leaves the slot empty, so the next call
      tries again and, if construction then succeeds, fills it. */
  lemma FailedEmbedderIsRetried(g: Globals, image: Option<Image>, o: Oracles, image2: Option<Image>, o2: Oracles)
    requires !g.embedderReady && !o.embedderBoots && o2.embedderBoots
    ensures ExtractEmbedding(g, image, o) == Step(g, None)
    ensures ExtractEmbedding(ExtractEmbedding(g, image, o).globals, image2, o2).globals.embedderReady
  {
  }

  /** `_load_model()`: the file is read only while the cache is empty and the file exists. */
  function LoadModel(g: Globals, disk: Option<StoredModel>): (r: Globals)
    ensures r.embedderReady == g.embedderReady
    ensures g.model.Some? ==> r == g
    ensures disk.None? || disk == Some(Unreadable) ==> r == g
    ensures g.model.None? && disk.Some? && disk.value.Readable? ==> r.model == Some(disk.value.artifact)
  {
    if g.model.None? && disk.Some? then
      match disk.value
      case Unreadable => g
      case Readable(a) => g.(model := Some(a))
    else g
  }

  /** The cached artifact is never refreshed: whatever the file holds later, the next load keeps it. */
  lemma CachedArtifactNeverRefreshed(g: Globals, disk: Option<StoredModel>, later: Option<StoredModel>)
    requires LoadModel(g, disk).model.Some?
    ensures LoadModel(LoadModel(g, disk), later) == LoadModel(g, disk)
  {
  }

  /** `np.argmax`: the first index holding the largest value. */
  function ArgMax(xs: seq<real>): (k: nat)
    requires |xs| > 0
    ensures k < |xs|
    ensures forall i :: 0 <= i < |xs| ==> xs[i] <= xs[k]
    ensures forall i :: 0 <= i < k ==> xs[i] < xs[k]
  {
    if |xs| == 1 then 0
    else
      var k := ArgMax(xs[..|xs| - 1]);
      if xs[|xs| - 1] > xs[k] then |xs| - 1 else k
  }

  /** The index of the first smallest value: the single nearest neighbour. */
  function ArgMin(xs: seq<real>): (k: nat)
    requires |xs| > 0
    ensures k < |xs|
    ensures forall i :: 0 <= i < |xs| ==> xs[k] <= xs[i]
    ensures forall i :: 0 <= i < k ==> xs[k] < xs[i]
  {
    if |xs| == 1 then 0
    else
      var k := ArgMin(xs[..|xs| - 1]);
      if xs[|xs| - 1] < xs[k] then |xs| - 1 else k
  }

  /** The distances from the query to every stored embedding, in storage order. */
  function Distances(samples: seq<Embedding>, e: Embedding, o: Oracles): (ds: seq<real>)
    ensures |ds| == |samples|
    ensures forall i :: 0 <= i < |ds| ==> ds[i] == o.distance(e, samples[i])
  {
    seq(|samples|, i requires 0 <= i < |samples| => o.distance(e, samples[i]))
  }

  /** `k` is where `np.argmax` lands: the first index of a largest value. */
  predicate IsFirstMax(xs: seq<real>, k: int) {
    && 0 <= k < |xs|
    && (forall i :: 0 <= i < |xs| ==> xs[i] <= xs[k])
    && (forall i :: 0 <= i < k ==> xs[i] < xs[k])
  }

  /** `n` indexes a smallest value: a nearest neighbour when `ds` are the distances. */
  predicate IsNearest(ds: seq<real>, n: int) {
    0 <= n < |ds| && forall i :: 0 <= i < |ds| ==> ds[n] <= ds[i]
  }

  /** The SVM branch of `recognize_face`: the most probable class, decoded back to a user id,
      is accepted at probability 0.75 or more; the reported confidence is that probability. */
  function ClassifySvm(clf: Classifier, enc: LabelEncoder, e: Embedding, o: Oracles): (r: Reply)
    ensures r.Reply? && r.userId.Some? ==> r.message.Recognized? && r.userId.value in enc.classes
    ensures r.Reply? && r.message.Recognized? ==> r.message.confidence >= SvmConfidenceThreshold
    ensures r.Reply? && r.message.LowConfidence? ==> r.message.confidence < SvmConfidenceThreshold
    ensures r.Reply? ==> r.message.Recognized? || r.message.LowConfidence?
    ensures r.Reply? ==>
      exists k :: IsFirstMax(o.proba(clf, e), k) && r.message.confidence == o.proba(clf, e)[k]
    ensures r.Reply? && r.userId.Some? ==>
      exists k :: && IsFirstMax(o.proba(clf, e), k) && k < |clf.classes| && clf.classes[k] < |enc.classes|
                  && r.userId.value == enc.classes[clf.classes[k]]
  {
    var probs := o.proba(clf, e);
    if |probs| == 0 then Raised
    else
      var best := ArgMax(probs);
      assert IsFirstMax(probs, best);
      var confidence := probs[best];
      if confidence >= SvmConfidenceThreshold then
        if best < |clf.classes| && clf.classes[best] < |enc.classes| then
          Reply(Some(enc.classes[clf.classes[best]]), Recognized(confidence))
        else Raised
      else Reply(None, LowConfidence(confidence))
  }

  /** The kNN branch of `recognize_face`: one nearest neighbour, accepted within the distance bound,
      answers with that neighbour's label. */
  function ClassifyKnn(clf: Classifier, e: Embedding, o: Oracles): (r: Reply)
    ensures r.Reply? && r.userId.Some? ==> r.message == RecognizedSimple && r.userId.value in clf.labels
    ensures r.Reply? ==> |clf.samples| > 0 && |clf.labels| == |clf.samples|
    ensures r.Reply? && r.userId.None? ==> r.message == NotRecognizedSimple
    ensures r.Reply? && r.userId.Some? ==>
      exists n :: && IsNearest(Distances(clf.samples, e, o), n) && n < |clf.labels|
                  && Distances(clf.samples, e, o)[n] <= KnnDistanceThreshold
                  && r.userId.value == clf.labels[n]
  {
    if |clf.samples| == 0 || |clf.labels| != |clf.samples| then Raised
    else
      var ds := Distances(clf.samples, e, o);
      var n := ArgMin(ds);
      assert IsNearest(ds, n);
      if ds[n] <= KnnDistanceThreshold then Reply(Some(clf.labels[n]), RecognizedSimple)
      else Reply(None, NotRecognizedSimple)
  }

  /** Dispatch on the artifact's "type" entry; a missing entry the branch needs raises KeyError. */
  function Classify(a: Artifact, e: Embedding, o: Oracles): (r: Reply)
    ensures a.tag != Some("svm") && a.tag != Some("knn") ==> r == Reply(None, UnknownModelType)
    ensures r.Reply? && r.userId.Some? ==> r.message.Recognized? || r.message == RecognizedSimple
  {
    if a.tag == Some("svm") then
      if a.classifier.None? || a.encoder.None? then Raised
      else ClassifySvm(a.classifier.value, a.encoder.value, e, o)
    else if a.tag == Some("knn") then
      if a.classifier.None? then Raised
      else ClassifyKnn(a.classifier.value, e, o)
    else Reply(None, UnknownModelType)
  }

  /** `recognize_face(image_data)`. */
  function RecognizeFace(g: Globals, disk: Option<StoredModel>, upload: Bytes, o: Oracles): (r: Step<Reply>)
    ensures LoadModel(g, disk).model.None? ==> r == Step(LoadModel(g, disk), Reply(None, ModelNotLoaded))
    ensures r.globals.model == LoadModel(g, disk).model
    ensures r.value.Reply? && r.value.userId.Some? ==>
      r.value.message.Recognized? || r.value.message == RecognizedSimple
    ensures LoadModel(g, disk).model.Some? && o.decode(upload).DecodeRaised? ==>
      r == Step(LoadModel(g, disk), Reply(None, BadImageFormat))
    ensures LoadModel(g, disk).model.Some? && o.decode(upload).Decoded? ==>
      var x := ExtractEmbedding(LoadModel(g, disk), o.decode(upload).image, o);
      && r.globals == x.globals
      && (x.value.None? ==> r.value == Reply(None, NoFaceDetected))
      && (x.value.Some? ==> r.value == Classify(LoadModel(g, disk).model.value, x.value.value, o))
  {
    var g1 := LoadModel(g, disk);
    if g1.model.None? then Step(g1, Reply(None, ModelNotLoaded))
    else
      match o.decode(upload)
      case DecodeRaised => Step(g1, Reply(None, BadImageFormat))
      case Decoded(image) =>
        var s := ExtractEmbedding(g1, image, o);
        if s.value.None? then Step(s.globals, Reply(None, NoFaceDetected))
        else Step(s.globals, Classify(g1.model.value, s.value.value, o))
  }

  /** Without a model nothing else happens: the answer is the same whatever the image and the
      oracles are, and the embedder is not touched. */
  lemma NoModelShortCircuits(g: Globals, disk: Option<StoredModel>, u1: Bytes, o1: Oracles, u2: Bytes, o2: Oracles)
    requires LoadModel(g, disk).model.None?
    ensures RecognizeFace(g, disk, u1, o1) == RecognizeFace(g, disk, u2, o2)
    ensures RecognizeFace(g, disk, u1, o1).globals.embedderReady == g.embedderReady
  {
  }

  /** Once an artifact is cached, recognition answers the same whatever the file now holds:
      a model retrained after the first load is not seen by this process. */
  lemma RecognitionIgnoresRetraining(g: Globals, d1: Option<StoredModel>, d2: Option<StoredModel>, upload: Bytes, o: Oracles)
    requires g.model.Some?
    ensures RecognizeFace(g, d1, upload, o) == RecognizeFace(g, d2, upload, o)
  {
  }

  /** An SVM artifact as the training command writes it: every class label decodes. */
  predicate WellFormedSvm(a: Artifact) {
    && a.tag == Some("svm") && a.classifier.Some? && a.encoder.Some?
    && forall i :: 0 <= i < |a.classifier.value.classes| ==>
         a.classifier.value.classes[i] < |a.encoder.value.classes|
  }

  /** A kNN artifact as the training command writes it: at least one stored embedding, each labelled. */
  predicate WellFormedKnn(a: Artifact) {
    && a.tag == Some("knn") && a.classifier.Some?
    && |a.classifier.value.samples| > 0
    && |a.classifier.value.labels| == |a.classifier.value.samples|
  }

  /** `predict_proba` gives one probability per class, as scikit-learn does. */
  ghost predicate ProbaShaped(o: Oracles, clf: Classifier) {
    forall e: Embedding {:trigger o.proba(clf, e)} :: |o.proba(clf, e)| == |clf.classes|
  }

  /** SVM policy: a well-formed artifact accepts exactly when some class reaches probability 0.75
      (the boundary value included), never raises, and names the enrolled user whose class is
      the most probable one. */
  lemma SvmAcceptsIffConfident(a: Artifact, e: Embedding, o: Oracles)
    requires WellFormedSvm(a) && ProbaShaped(o, a.classifier.value) && |a.classifier.value.classes| > 0
    ensures Classify(a, e, o).Reply?
    ensures Classify(a, e, o).userId.Some? <==>
      exists i :: 0 <= i < |o.proba(a.classifier.value, e)| && o.proba(a.classifier.value, e)[i] >= SvmConfidenceThreshold
    ensures Classify(a, e, o).userId.Some? ==> Classify(a, e, o).userId.value in a.encoder.value.classes
    ensures forall k :: IsFirstMax(o.proba(a.classifier.value, e), k) && Classify(a, e, o).userId.Some? ==>
      Classify(a, e, o).userId.value == a.encoder.value.classes[a.classifier.value.classes[k]]
  {
    var probs := o.proba(a.classifier.value, e);
    assert |probs| == |a.classifier.value.classes|;
    var best := ArgMax(probs);
    if exists i :: 0 <= i < |probs| && probs[i] >= SvmConfidenceThreshold {
      var i :| 0 <= i < |probs| && probs[i] >= SvmConfidenceThreshold;
      assert probs[i] <= probs[best];
    }
  }

  /** kNN policy: a well-formed artifact accepts exactly when some stored embedding lies within
      distance 0.7 (the boundary value included), and answers with that neighbour's label. */
  lemma KnnAcceptsIffClose(a: Artifact, e: Embedding, o: Oracles)
    requires WellFormedKnn(a)
    ensures Classify(a, e, o).Reply?
    ensures Classify(a, e, o).userId.Some? <==>
      exists i :: 0 <= i < |a.classifier.value.samples| && o.distance(e, a.classifier.value.samples[i]) <= KnnDistanceThreshold
    ensures Classify(a, e, o).userId.Some? ==> Classify(a, e, o).userId.value in a.classifier.value.labels
    ensures Classify(a, e, o).userId.Some? ==>
      exists n :: && IsNearest(Distances(a.classifier.value.samples, e, o), n) && n < |a.classifier.value.labels|
                  && Classify(a, e, o).userId.value == a.classifier.value.labels[n]
  {
    var clf := a.classifier.value;
    var ds := Distances(clf.samples, e, o);
    var n := ArgMin(ds);
    if exists i :: 0 <= i < |clf.samples| && o.distance(e, clf.samples[i]) <= KnnDistanceThreshold {
      var i :| 0 <= i < |clf.samples| && o.distance(e, clf.samples[i]) <= KnnDistanceThreshold;
      assert ds[n] <= ds[i];
    }
  }

  /** The whole call under the SVM policy: once the upload decodes and a face is found, an
      id comes back exactly when some class reaches probability 0.75, and it is the enrolled id
      of the most probable class. */
  lemma RecognizeSvmAcceptsIffConfident(g: Globals, disk: Option<StoredModel>, upload: Bytes, o: Oracles)
    requires LoadModel(g, disk).model.Some?
    requires var a := LoadModel(g, disk).model.value;
      WellFormedSvm(a) && ProbaShaped(o, a.classifier.value) && |a.classifier.value.classes| > 0
    requires o.decode(upload).Decoded?
    requires ExtractEmbedding(LoadModel(g, disk), o.decode(upload).image, o).value.Some?
    ensures var a := LoadModel(g, disk).model.value;
      var e := ExtractEmbedding(LoadModel(g, disk), o.decode(upload).image, o).value.value;
      var r := RecognizeFace(g, disk, upload, o).value;
      && r.Reply?
      && (r.userId.Some? <==>
            exists i :: 0 <= i < |o.proba(a.classifier.value, e)| && o.proba(a.classifier.value, e)[i] >= SvmConfidenceThreshold)
      && (r.userId.Some? ==> r.userId.value in a.encoder.value.classes)
      && (forall k :: IsFirstMax(o.proba(a.classifier.value, e), k) && r.userId.Some? ==>
            r.userId.value == a.encoder.value.classes[a.classifier.value.classes[k]])
  {
    var a := LoadModel(g, disk).model.value;
    var e := ExtractEmbedding(LoadModel(g, disk), o.decode(upload).image, o).value.value;
    SvmAcceptsIffConfident(a, e, o);
  }

  /** The whole call under the kNN policy: once the upload decodes and a face is found, an id
      comes back exactly when some stored embedding lies within distance 0.7, and it is the label
      of a nearest stored embedding. */
  lemma RecognizeKnnAcceptsIffClose(g: Globals, disk: Option<StoredModel>, upload: Bytes, o: Oracles)
    requires LoadModel(g, disk).model.Some? && WellFormedKnn(LoadModel(g, disk).model.value)
    requires o.decode(upload).Decoded?
    requires ExtractEmbedding(LoadModel(g, disk), o.decode(upload).image, o).value.Some?
    ensures var clf := LoadModel(g, disk).model.value.classifier.value;
      var e := ExtractEmbedding(LoadModel(g, disk), o.decode(upload).image, o).value.value;
      var r := RecognizeFace(g, disk, upload, o).value;
      && r.Reply?
      && (r.userId.Some? <==> exists i :: 0 <= i < |clf.samples| && o.distance(e, clf.samples[i]) <= KnnDistanceThreshold)
      && (r.userId.Some? ==> r.userId.value in clf.labels)
      && (r.userId.Some? ==>
            exists n :: IsNearest(Distances(clf.samples, e, o), n) && n < |clf.labels| && r.userId.value == clf.labels[n])
  {
    var a := LoadModel(g, disk).model.value;
    var e := ExtractEmbedding(LoadModel(g, disk), o.decode(upload).image, o).value.value;
    KnnAcceptsIffClose(a, e, o);
  }
}
