# Arvion face identification: a Dafny model of its decision logic

Arvion is a Django medical-records application. Doctors identify patients from a photo,
and patients enrol face photos and keep their medical lists up to date. This project models
the deterministic core of that application as pure Dafny functions over immutable data, and
proves what the code promises:

- **Recognition service** (`main/face_recognition_service.py`):
  - the two lazily filled process globals: the cached model artifact and the FaceNet embedder;
  - `extract_embedding`;
  - `_load_model`;
  - `recognize_face`, which dispatches on the artifact's `"svm"` / `"knn"` / unknown tag with the
    0.75 probability and 0.7 distance thresholds.

  The face embedder, image decoding, `predict_proba` and the nearest-neighbour distance are
  uninterpreted oracles passed in as parameters (`Recognition.Oracles`).
- **Training command** (`main/management/commands/train_face_model.py`):
  - image collection, where profile pictures are de-duplicated against face-image names;
  - per-image processing that keeps embeddings and user ids paired;
  - the two guards that stop the command before any artifact is written;
  - the SVM-or-kNN choice, made from the number of distinct users;
  - label encoding (`LabelEncoding`).
- **Views** (`main/views.py`):
  - the ordered validation chain and profile creation of `register_view`;
  - the settings save, with its comma-separated list parser, `capitalize()`, replace-all link
    tables and `", ".join` display;
  - the gating of `add_photo_view` and `search_patient_by_photo`.
- **Models** (`main/models.py`):
  - the `upload_to` path builders;
  - the `unique` / `unique_together` constraints as predicates over a database state
    (`Records.Consistent`) that every write preserves;
  - the newest-first ordering of face images.
- **Blood-group migration** (`main/migrations/0002_populate_blood_groups.py`): populate, remove
  and their round trip.

Modules, one per concern:

| module | contents |
|---|---|
| `Wrappers` | `Option` |
| `Seqs` | generic sequence identities |
| `Text` | Python's `strip`, `split`, `join`, `lower`, `capitalize` and `str(n)`, restricted to ASCII |
| `FormLists` | comma lists |
| `Tables` | catalogues and link tables |
| `BloodGroups` | the migration |
| `UploadPaths` | `upload_to` path builders |
| `FaceImages` | newest-first ordering |
| `LabelEncoding` | label encoding |
| `Recognition` | the recognition service |
| `Training` | the training command |
| `Records` | the database state and its constraints |
| `Registration` | `register_view` |
| `ProfileSettings` | `settings_view` |
| `PhotoViews` | the two photo views |

Two behaviours of the code are easy to misread and are modelled exactly as written:

- The kNN branch asks for a single nearest neighbour (`n_neighbors=1`). There is no vote and no
  agreement threshold.
- A loaded artifact is cached for the life of the process and never re-read, even after the
  training command writes a new one (`Recognition.CachedArtifactNeverRefreshed`,
  `Recognition.RecognitionIgnoresRetraining`).

## Model

| member | source | states |
|---|---|---|
| `Recognition.ExtractEmbedding` | main/face_recognition_service.py:13-24 | The cached model is untouched. The embedder slot is filled exactly when it already was or construction succeeds. A `None` image gives `None`. An embedding is returned iff the embedder is available and detection at threshold 0.95 returns at least one face; it is then the first detection's embedding. |
| `Recognition.EmbedderBuiltOnce` | main/face_recognition_service.py:15-16 | Once the embedder exists, extracting leaves both globals unchanged: it is not constructed again. |
| `Recognition.FailedEmbedderIsRetried` | main/face_recognition_service.py:16-18 | A failed construction returns `None` and leaves the slot empty, so the next call constructs again. |
| `Recognition.LoadModel` | main/face_recognition_service.py:26-34 | A cached artifact is kept as is. A missing or unreadable file leaves the state unchanged. Otherwise the file's artifact is cached. The embedder slot is never touched. |
| `Recognition.CachedArtifactNeverRefreshed` | main/face_recognition_service.py:29 | After a successful load, loading again with any file contents changes nothing. |
| `Recognition.ArgMax` | main/face_recognition_service.py:51 | Index of the first maximal probability (numpy `argmax` tie-breaking). |
| `Recognition.ArgMin` | main/face_recognition_service.py:62 | An index of a smallest distance: the single nearest neighbour, no farther than any other. Among equal distances it picks the first; scikit-learn's `kneighbors` does not promise that tie-break, so this is a choice of the model, and the `ClassifyKnn` contract only promises some nearest neighbour. |
| `Recognition.ClassifySvm` | main/face_recognition_service.py:48-58 | The reported confidence is the probability at the first most probable class (`argmax`). It is at least 0.75 when accepted and below 0.75 when refused. An accepted id is the encoder's decoding of that class's label, so it is one of the ids the encoder was fitted on. |
| `Recognition.ClassifyKnn` | main/face_recognition_service.py:60-67 | An answer needs at least one stored embedding, each labelled. An accepted id comes with the simple-model message and is the label of a nearest stored embedding, whose distance is at most 0.7. A refusal comes with the not-recognised message. |
| `Recognition.Classify` | main/face_recognition_service.py:46-70 | An unknown or missing tag yields no id and the unknown-type message. A non-`None` id comes only with one of the two accepting messages. |
| `Recognition.RecognizeFace` | main/face_recognition_service.py:36-70 | With no artifact after loading, the answer is "model not loaded" before the upload is read. With an artifact, an upload whose decoding raises gives "bad image format". An upload with no detected face gives "no face detected", with the globals the extraction left. Otherwise the answer is the dispatch on the artifact's tag for the first face's embedding. The cached artifact after the call is the one loading produced. An id comes only from an accepting branch. |
| `Recognition.NoModelShortCircuits` | main/face_recognition_service.py:37-38 | Without an artifact the answer and the globals do not depend on the image or on any oracle, and the embedder is not constructed. |
| `Recognition.RecognitionIgnoresRetraining` | main/face_recognition_service.py:29 | With an artifact cached, the file's current contents make no difference to recognition. |
| `Recognition.SvmAcceptsIffConfident` | main/face_recognition_service.py:50-58 | For a well-formed SVM artifact: the call never raises. It returns an id iff some class probability is at least 0.75, so exactly 0.75 accepts. The id is the decoded label of the `argmax` class. |
| `Recognition.KnnAcceptsIffClose` | main/face_recognition_service.py:60-67 | For a well-formed kNN artifact: the call never raises. It returns an id iff the nearest stored sample is at distance at most 0.7, so exactly 0.7 accepts. The id is the label of a nearest stored embedding. |
| `Recognition.RecognizeSvmAcceptsIffConfident` | main/face_recognition_service.py:36-58 | For a whole call with a well-formed SVM artifact, an upload that decodes and a detected face: no exception, and an id iff some class probability of that face is at least 0.75. The id is the decoded label of that face's `argmax` class. |
| `Recognition.RecognizeKnnAcceptsIffClose` | main/face_recognition_service.py:36-67 | For a whole call with a well-formed kNN artifact, an upload that decodes and a detected face: no exception, and an id iff some stored embedding is within distance 0.7 of that face. The id is the label of a nearest stored embedding. |
| `Training.ProfileQueue` | main/management/commands/train_face_model.py:35-38 | A profile picture is queued iff it is non-empty and its name differs from every face-image name. A single user's queue is that user's picture when eligible and empty otherwise. |
| `Training.ProfileQueueAppend` | main/management/commands/train_face_model.py:36-38 | The profile queue of two user lists is the concatenation of their queues. With the one-user case, the queue is every eligible picture in user order, with no de-duplication among pictures. |
| `Training.Collect` | main/management/commands/train_face_model.py:31-38 | Every face image is queued first, in listing order, with its owner's id. The profile queue follows. |
| `Training.CollectEmptyIff` | main/management/commands/train_face_model.py:40 | Nothing is queued iff there are no face images and no user has an eligible profile picture. |
| `Training.ProcessImage` | main/management/commands/train_face_model.py:15-24 | An empty field, an unreadable file or a decode that raises is a no-op. Otherwise the image is embedded. If an embedding comes back, it is appended together with the queued user id; if not, nothing is appended. The globals are those the extraction left. Embeddings and ids stay paired, and the cached model is untouched. |
| `Training.ProcessAll` | main/management/commands/train_face_model.py:42 | Processing the queue keeps samples paired and extends the id list by at most one id per queued image. Every new id is a queued user's id. |
| `Training.ProcessAllAppend` | main/management/commands/train_face_model.py:42 | Processing two queues one after the other is the same as processing their concatenation, so a failing image never stops the loop. |
| `Training.UnreadableImageSkipped` | main/management/commands/train_face_model.py:24 | An image whose read fails contributes nothing, and processing continues with the next one. |
| `Training.Fit` | main/management/commands/train_face_model.py:46-63 | The SVM variant is chosen iff there are at least two distinct user ids, and the tag is always `"svm"` or `"knn"`. An SVM artifact carries an encoder, and each stored label decodes back to its sample's id. A kNN artifact holds the raw ids and no encoder. |
| `Training.Handle` | main/management/commands/train_face_model.py:26-66 | The command stops with "no images" iff nothing was queued. The stored artifact is replaced only when a model is trained, and then by that model. The process's cached model is untouched. |
| `Training.Harvest` | main/management/commands/train_face_model.py:42 | The samples gathered from the queue are paired, at most one per queued image, and every id among them is the owner of a queued image. |
| `Training.HandleTrainsIffSomeFace` | main/management/commands/train_face_model.py:44-66 | A model is trained and written iff at least one embedding survived. It is then fitted on exactly those samples. |
| `Training.FitWellFormed` | main/management/commands/train_face_model.py:52-63 | A fitted artifact meets the shape recognition relies on: for the SVM variant, labels dense in 0..K-1 with K distinct classes; for the kNN variant, one label per sample. |
| `Training.SvmNamesEnrolledUser` | main/management/commands/train_face_model.py:52-57 | Recognition with a freshly trained SVM never raises and can only return an id that was enrolled. |
| `Training.KnnNamesTheOnlyUser` | main/management/commands/train_face_model.py:46-63 | In a kNN artifact every stored label is the single enrolled user, so recognition can only return that id. |
| `LabelEncoding.Unique` | main/management/commands/train_face_model.py:54 | The encoder's classes are strictly increasing and are exactly the distinct ids. |
| `LabelEncoding.UniqueCount` | main/management/commands/train_face_model.py:46 | The number of classes equals the number of distinct user ids. |
| `LabelEncoding.SingleClass` | main/management/commands/train_face_model.py:46-59 | Fewer than two distinct ids means every id equals the first. |
| `LabelEncoding.DecodeEncode` | main/management/commands/train_face_model.py:54 | Decoding an encoded id returns the id. |
| `LabelEncoding.Decode` | main/face_recognition_service.py:55 | `inverse_transform` succeeds iff the label is in 0..K-1, and then gives one of the classes. |
| `LabelEncoding.FitTransform` | main/management/commands/train_face_model.py:54 | The classes are the sorted distinct ids. There is one label per id, each in range, and each label decodes back to its id. |
| `LabelEncoding.SetOf` | main/management/commands/train_face_model.py:46 | `set(user_ids)`: exactly the ids that occur in the list. |
| `LabelEncoding.Encode` | main/management/commands/train_face_model.py:54 | `transform` maps a fitted id to an in-range position whose class is that id. |
| `LabelEncoding.EncodeDecode` | main/management/commands/train_face_model.py:54 | Encoding the class at position k gives k back, so encoding inverts decoding. |
| `FormLists.ParseList` | main/views.py:222-227 | Every parsed item is non-empty, has no surrounding whitespace and contains no comma. |
| `FormLists.ParseListOfPiece` | main/views.py:222-227 | A comma-free piece parses to its stripped text, or to no item when that is empty; so `"milk "` gives `["milk"]`. With `ParseListAtComma` this fixes the parse of every input. |
| `FormLists.ParseListAtComma` | main/views.py:223-227 | Order is preserved: the items of `a + "," + b` are the items of `a` followed by the items of `b`. |
| `FormLists.ParseListEmptyIff` | main/views.py:222-227 | The list is empty iff the text holds only commas and whitespace (including the empty text). |
| `FormLists.ParseListOfItem` | main/views.py:223-227 | A single well-formed item parses to itself. |
| `FormLists.DisplayRoundTrip` | main/views.py:292-316 | Joining well-formed names with `", "` and parsing the text again yields the same names. |
| `FormLists.StoredNames` | main/views.py:229-230 | The stored names are the capitalised parsed items, position by position, and are still list items. |
| `FormLists.StoredNamesCapitalized` | main/views.py:230 | Capitalising stored names again changes nothing. |
| `FormLists.StoredNamesRoundTrip` | main/views.py:222-230 | Showing stored names and submitting the text unchanged stores the same names. |
| `FormLists.StoredListRoundTrip` | main/views.py:292-316 | Any list of already-capitalised items survives display and re-submission unchanged. |
| `FormLists.CleanPieces` | main/views.py:223-227 | Stripping the pieces and dropping the empty ones leaves at most as many pieces, each non-empty and stripped. |
| `FormLists.CapitalizeAll` | main/views.py:230 | Every stored name is the capitalisation of the item at the same position. |
| `FormLists.DisplayString` | main/views.py:292-316 | The page shows nothing for an empty list and a single name as is. Otherwise the text starts with the first name. |
| `Text.StripFixedIff` | main/views.py:224-226 | `strip` leaves a string unchanged iff it has no leading or trailing whitespace. |
| `Text.StripEmptyIff` | main/views.py:226 | `strip` yields the empty string iff the piece is all whitespace, which is exactly what the `if name.strip()` filter drops. |
| `Text.JoinSplit` | main/views.py:225 | Joining the pieces of `split(sep)` with `sep` gives back the text. |
| `Text.SplitAtSeparator` | main/views.py:225 | Splitting distributes over a separator: the pieces of each side, in order. |
| `Text.LowerIdempotent` | main/views.py:40 | Lower-casing twice equals lower-casing once. |
| `Text.CapitalizeIdempotent` | main/views.py:230 | `capitalize` is idempotent. |
| `Text.DecimalRoundTrip` | main/models.py:79 | `str(id)` is a non-empty digit string whose value is the id. |
| `Text.DecimalStringInjective` | main/views.py:81 | Different ids give different decimal strings. |
| `Text.Strip` | main/views.py:226 | `strip` leaves no whitespace at either end. |
| `Text.StripSlice` | main/views.py:224 | `strip` returns the slice of the text between a leading and a trailing run of whitespace. |
| `Text.Split` | main/views.py:225 | `split(",")` gives one more piece than there are separators. |
| `Text.Join` | main/views.py:292 | `", ".join` of no names is empty and of one name is that name. It starts with the first name, and its length is the names' total length plus one glue per gap. |
| `Text.Lower` | main/views.py:40 | `lower()` maps each character with the ASCII lower-case mapping and keeps the length. No upper-case letter is left, and whitespace stays where it was. |
| `Text.Capitalize` | main/views.py:230 | `capitalize()` upper-cases the first character and lower-cases every other one, keeping the length. |
| `Text.DecimalString` | main/models.py:79 | `str(id)`: a non-empty string of digits without a leading zero (apart from "0" itself). |
| `Tables.GetOrCreate` | main/views.py:68 | `get_or_create` adds the name only when it is absent, as a new last row. Existing rows are kept and uniqueness is preserved. |
| `Tables.GetOrCreateAll` | main/views.py:229-231 | After a run of `get_or_create`, the names present are the old ones plus the requested ones. Old rows keep their place, every new row is a requested name not present before, and uniqueness is preserved. |
| `Tables.GetOrCreateAllIdempotent` | main/migrations/0002_populate_blood_groups.py:22-24 | Running the same `get_or_create` calls a second time adds nothing. |
| `Tables.RemoveNamed` | main/migrations/0002_populate_blood_groups.py:31 | `filter(name__in=names).delete()` keeps exactly the rows outside `names`. |
| `Tables.GetOrCreateThenRemove` | main/migrations/0002_populate_blood_groups.py:22-31 | Deleting the names just created restores a catalogue that held none of them. |
| `Tables.DeleteFor` | main/views.py:234 | Deleting a patient's link rows leaves that patient with no items and keeps rows unique. |
| `Tables.DeleteForKeepsAllOthers` | main/views.py:234 | The delete does not change any other patient's items. |
| `Tables.CreateLinks` | main/views.py:241-247 | Creating link rows one per name appends exactly those rows when it succeeds, and keeps rows unique. |
| `Tables.CreateLinksSucceedsIff` | main/models.py:188 | Creation succeeds iff the names are distinct and none is already linked to the patient (`unique_together`). |
| `Tables.CreateLinksItems` | main/views.py:245-247 | After creation the patient's items are the old ones followed by the new names. |
| `Tables.ReplaceLinks` | main/views.py:234-247 | Delete-then-create succeeds iff the names are distinct. The patient then holds exactly those names, in order; other patients are unchanged and rows stay unique. |
| `Tables.SetLinks` | main/views.py:232 | After `.set()` the patient is linked to exactly the listed names (as a set); other patients are unchanged and rows stay unique. |
| `Tables.AddLinks` | main/views.py:232 | The many-to-many `add()` inside `.set()` keeps every existing row in place. It links the patient to exactly the old names plus the listed ones, writes rows only for that patient, and keeps rows unique. |
| `BloodGroups.BloodGroupNamesDistinct` | main/migrations/0002_populate_blood_groups.py:6-15 | The list holds 8 distinct names. |
| `BloodGroups.Populate` | main/migrations/0002_populate_blood_groups.py:17-24 | Afterwards every listed name is present. Nothing is removed or altered: old rows keep their place. Uniqueness is preserved. |
| `BloodGroups.Remove` | main/migrations/0002_populate_blood_groups.py:26-31 | Exactly the listed names are deleted, and all other rows are kept. |
| `BloodGroups.PopulateIdempotent` | main/migrations/0002_populate_blood_groups.py:24 | A second populate adds nothing. |
| `BloodGroups.PopulateThenRemove` | main/migrations/0002_populate_blood_groups.py:22-31 | Populate followed by remove restores a store that held none of the listed names. |
| `UploadPaths.FacePathLayout` | main/models.py:81 | For a plain folder and file name the path is `face/<folder>/<filename>`, and its last component is the file name, unchanged. |
| `UploadPaths.ProfilePicFolder` | main/models.py:79 | The folder is the e-mail when it is non-empty, and otherwise the decimal id. |
| `UploadPaths.PathJoin` | main/models.py:81 | `os.path.join` of two parts: an absolute second part replaces the first. Otherwise the result ends with the second part. |
| `UploadPaths.ProfilePicPath` | main/models.py:73-81 | For an e-mail and a file name without `/`, the profile picture goes to `face/<folder>/<filename>`, where the folder is the e-mail or else the decimal id. Its last component is the file name. |
| `UploadPaths.UserDirectoryPath` | main/models.py:224-232 | With a plain e-mail, a face image goes to `face/<email>/<filename>`, whose last component is the file name. Without an e-mail it goes to `face/<filename>`. |
| `UploadPaths.ProfilePicPathWithoutEmail` | main/models.py:79-81 | Without an e-mail the profile picture goes to `face/<id>/<filename>`. |
| `UploadPaths.ProfilePicPathWithEmail` | main/models.py:79-81 | With an e-mail the profile picture goes to `face/<email>/<filename>`. |
| `UploadPaths.UserDirectoryPathWithoutEmail` | main/models.py:230-232 | Face images use the e-mail with no id fallback: without an e-mail they land directly in `face/`. |
| `UploadPaths.SameFolderWithEmail` | main/models.py:79-81 | For a non-empty e-mail, the profile picture and face images share one folder. |
| `UploadPaths.DifferentFoldersWithoutEmail` | main/models.py:230-232 | Without an e-mail the two builders give different paths. |
| `FaceImages.OrderNewestFirst` | main/models.py:255 | Listing returns the same photos (a permutation) with upload times never increasing. |
| `FaceImages.OrderNewestFirstKeepsOrdered` | main/models.py:255 | A list already newest first is listed as it is. |
| `Records.FindUser` | main/views.py:168 | The account is found iff an account with that id exists, and it carries that id. |
| `Registration.NormalizedEmail` | main/views.py:40 | The stored e-mail is lower case. |
| `Registration.TempLicense` | main/views.py:81 | A new doctor's license is `TEMP-` followed by digits whose value is the account id. |
| `Registration.NewDoctor` | main/views.py:80-82 | A new doctor profile has the sent specialty (empty when not sent), the temporary license of the account id, and no workplace or biography. |
| `Registration.TempLicenseInjective` | main/views.py:81 | Different accounts get different temporary licenses. |
| `Registration.Create` | main/views.py:67-84 | The transaction fails iff the username is taken, the date is rejected, or a doctor's license is already held; a failure writes nothing. On success one account is appended, the gender is `get_or_create`d, and exactly one profile is created: a doctor profile with the temporary license for role `"doctor"`, otherwise an empty patient profile. Medical data and photos are untouched. |
| `Registration.Register` | main/views.py:32-89 | The checks run in order: missing field, then password mismatch, then e-mail in use. Each refusal holds iff its check is the first that fails, and writes nothing. Once all three checks pass, the outcome is exactly the transaction's. Only the transaction can register. |
| `Registration.RegisteredEmailNormalized` | main/views.py:38-71 | The registered account's e-mail and username are stripped, lower case and non-empty. |
| `Registration.RegisterTwiceRefused` | main/views.py:62-66 | Submitting the same form again after it registered is refused because the e-mail is in use. |
| `Registration.RegisterKeepsConsistent` | main/views.py:67-84 | Registration preserves every schema constraint: unique ids and usernames, unique licenses, owned profiles and photos, unique catalogue names and link rows. |
| `ProfileSettings.UpdatedAccount` | main/views.py:175-195 | First and last name, phone, emergency phone and address take the sent value and keep theirs when not sent. Date of birth and gender become `None` when empty or not sent. An uploaded picture is stored under `profile_pic_path`, and otherwise the picture is kept. Id, username and e-mail never change. |
| `ProfileSettings.UpdatedDoctor` | main/views.py:197-210 | Specialty and license take the sent value and keep theirs when not sent. Workplace and biography take the sent value, even when it is empty, and keep theirs when not sent. |
| `ProfileSettings.UpdatedPatient` | main/views.py:212-221 | Blood group, weight and height become `None` when empty. Notes not sent keep their value. |
| `ProfileSettings.SaveLists` | main/views.py:222-277 | Saving the lists succeeds iff none of the three replace-all lists repeats a capitalised name. Accounts, profiles, genders and photos are untouched. |
| `ProfileSettings.SaveSettings` | main/views.py:167-283 | The save commits iff there is a user, the field values are accepted, a doctor's license is not held by another doctor, and, for a patient, the lists are accepted. A failed save writes nothing, because the atomic block rolls back. After a save, the user's account row is the form applied to the old row, and every other account row is unchanged in its place. A user who is not a patient leaves every catalogue, link table and photo as it was. A doctor's profile is the form applied to the old one, and a patient's likewise. No other profile changes. Photos and genders are never changed. |
| `ProfileSettings.SaveListsContents` | main/views.py:232-277 | After a successful list save the patient holds exactly the capitalised names of each replace-all list, in order, and exactly the listed allergies; no other patient's links change. |
| `ProfileSettings.SavedPatientLists` | main/views.py:222-277 | After a committed save, a patient's lists are what the form's text fields say. |
| `ProfileSettings.SaveLeavesOtherAccounts` | main/views.py:168-195 | Saving one user's settings keeps the number of accounts and leaves every other account row as it was, in its place. |
| `ProfileSettings.SaveLeavesOtherPatients` | main/views.py:234-277 | Saving one user's settings leaves every other patient's links as they were. |
| `ProfileSettings.ShownListsRoundTrip` | main/views.py:285-318 | After a save, the strings the page shows, submitted again unchanged, store back exactly the same names. |
| `ProfileSettings.ShowLists` | main/views.py:285-318 | For each of the four lists: if the patient's items are stored names, the string shown parses and capitalises back to exactly those items. |
| `ProfileSettings.SaveKeepsConsistent` | main/views.py:172-283 | The settings save preserves every schema constraint. |
| `PhotoViews.PhotosOf` | main/views.py:346 | The photos listed are exactly the user's own, newest first, each as many times as it is stored. |
| `PhotoViews.AddPhoto` | main/views.py:323-348 | A photo is stored iff the user is signed in, is a patient, POSTs a file, and detection returns true. It is then stored under `user_directory_path` with the upload time, and nothing else changes; every other outcome writes nothing. A page load lists the user's photos. |
| `PhotoViews.AddPhotoKeepsConsistent` | main/models.py:237-248 | Adding a photo preserves every schema constraint. |
| `PhotoViews.SearchByPhoto` | main/views.py:369-386 | A search redirects to patient details iff the user is a signed-in doctor who POSTs a photo and recognition returns a non-zero id; it is that id. The globals change only when recognition ran. |
| `PhotoViews.SearchFindsOnlyRecognized` | main/views.py:376-381 | A search reaches a patient's page only through one of recognition's accepting answers. |
| `PhotoViews.SearchWithoutModelFindsNobody` | main/views.py:376-381 | Without a trained model in memory or on disk no search reaches a patient's page. |

## Left out

- `os.path.join` and `os.path.basename` follow POSIX rules (`posixpath`). The Windows separator rules are not modelled.
- Text.Strip: its own contract states only that the result has no edge whitespace, because a slice postcondition there makes the list-parsing proofs too costly. That the result is the slice between the blank ends is the lemma `Text.StripSlice`.
- Text.Split: its own contract states only the number of pieces. The pieces are pinned down by two lemmas: they hold no separator (`Text.SplitPiecesFree`) and joining them with the separator gives the text back (`Text.JoinSplit`).
- FormLists.DisplayString: its own contract states only the empty case, the one-name case and the leading name, because a fuller postcondition makes the round-trip proofs too costly. That the text parses back to the names is `FormLists.DisplayRoundTrip`.
- Floating point: probabilities and distances are mathematical reals, compared against the two
  thresholds exactly.
- FaceNet, OpenCV decoding and colour conversion, SVC and kNN fitting and prediction are
  uninterpreted oracles. Exceptions they raise appear only where the code catches or reaches them.
- Persistence: `pickle` read and write, the artifact's file path, `os.path.exists` and
  `os.makedirs` are replaced by an optional stored value (`Recognition.StoredModel`).
- Web plumbing is reduced to pure decision functions over explicit inputs and outcomes:
  - the Django ORM, authentication, sessions, password hashing (the account does not keep a
    password), messages, templates and redirects;
  - `login_required` becomes an optional signed-in user;
  - the primary key the database assigns becomes a parameter;
  - whether the date and numeric fields are accepted becomes a boolean.
- `detect_face_in_image_data` is called by `add_photo_view` but is not defined in
  main/face_recognition_service.py. It is a parameter predicate on the uploaded bytes, with no
  body invented for it.
- `delete_photo_view`, `qr_code_view` and the other views are not part of this model.
- The project's settings, its admin registrations and its admin bootstrap script are not part of
  this model.
- Unicode: `strip`, `lower` and `capitalize` follow the ASCII rules. Python's full Unicode case
  mapping and whitespace set are not modelled.
- `PhotoViews.AddPhoto` and `ProfileSettings.UpdatedAccount` record the path the `upload_to`
  builder returns. Django's storage then rewrites it before saving, and the model does not follow:
  - `get_valid_name` strips the file name, turns spaces into `_` and drops every character other
    than letters, digits, `_`, `-` and `.` (`IMG 001.jpg` is stored as `IMG_001.jpg`);
  - `normpath` normalises the path;
  - a name that already exists gets a random suffix.
- Database collation and row order:
  - catalogue names compare by exact string equality;
  - rows of unordered queries (the allergy many-to-many relation, the link tables) come back in
    insertion order;
  - link rows carry no dosage or date fields.
- The `max_length` bounds of the model fields are not modelled. The `BloodGroup` bound of 5 is
  smaller than the seeded names, and no length bound is asserted on them.
- Concurrency: none exists in the code, and no locking of the lazy globals is modelled.
- `ProfileSettings.SaveSettings`: a `gender`, `blood_group`, date or number value that the database
  rejects is summarised by one `fieldsValid` flag rather than checked field by field.
