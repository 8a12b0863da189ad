/**
 * The `upload_to` builders of main/models.py: `profile_pic_path` for a user's
 * profile picture and `user_directory_path` for an enrolled face image. Both
 * call `os.path.join("face", <folder>, filename)`, modelled with POSIX rules.
 */
module UploadPaths {
  import opened Text
  import opened Seqs

  /** `posixpath.join(a, b)`: an absolute `b` replaces `a`; otherwise one '/' separates them
      unless `a` is empty or already ends with '/'. */
  function PathJoin(a: string, b: string): (r: string)
    ensures |b| > 0 && b[0] == '/' ==> r == b
    ensures (|b| == 0 || b[0] != '/') ==> |b| <= |r| && r[|r| - |b|..] == b
  {
    if |b| > 0 && b[0] == '/' then b
    else if a == [] || a[|a| - 1] == '/' then a + b
    else a + "/" + b
  }

  /** `os.path.basename(p)`: what follows the last '/'. */
  function Basename(p: string): (r: string)
    ensures '/' !in r
    ensures |r| <= |p| && r == p[|p| - |r|..]
    ensures |r| < |p| ==> p[|p| - |r| - 1] == '/'
  {
    if p == [] then []
    else if p[|p| - 1] == '/' then []
    else Basename(p[..|p| - 1]) + [p[|p| - 1]]
  }

  /** A path made of a directory part ending in '/' and a last part without '/' has that last part as basename. */
  lemma {:induction false} BasenameOfJoin(dir: string, name: string)
    requires '/' !in name
    requires dir != [] && dir[|dir| - 1] == '/'
    ensures Basename(dir + name) == name
  {
    if name == [] {
      assert dir + name == dir;
    } else {
      var init := name[..|name| - 1];
      AppendInit(dir, name);
      BasenameOfJoin(dir, init);
      InitLast(name);
    }
  }

  /** The three-part join `os.path.join("face", folder, filename)`. */
  function FacePath(folder: string, filename: string): string {
    PathJoin(PathJoin("face", folder), filename)
  }

  /** A component that is neither empty nor contains '/' stays a single path segment. */
  predicate IsSegment(s: string) {
    s != [] && '/' !in s
  }

  /** With a plain folder and a file name without '/', the path is `face/<folder>/<filename>`. */
  lemma FacePathLayout(folder: string, filename: string)
    requires IsSegment(folder) && '/' !in filename
    ensures FacePath(folder, filename) == "face/" + folder + "/" + filename
    ensures Basename(FacePath(folder, filename)) == filename
  {
    assert folder[0] in folder;
    var dir := "face/" + folder + "/";
    assert PathJoin("face", folder) == "face/" + folder;
    assert dir[|dir| - 1] == '/';
    if filename != [] {
      assert filename[0] in filename;
    }
    assert FacePath(folder, filename) == dir + filename;
    BasenameOfJoin(dir, filename);
  }

  /** The folder `profile_pic_path` picks: the e-mail when it is non-empty, otherwise `str(id)`. */
  function ProfilePicFolder(email: string, id: nat): (r: string)
    ensures r != []
    ensures email != [] ==> r == email
    ensures email == [] ==> (forall i :: 0 <= i < |r| ==> '0' <= r[i] <= '9') && DecimalValue(r) == id
  {
    if email != [] then email
    else
      DecimalRoundTrip(id);
      DecimalString(id)
  }

  /** `profile_pic_path(instance, filename)`. */
  function ProfilePicPath(email: string, id: nat, filename: string): (r: string)
    ensures '/' !in email && '/' !in filename ==>
      r == "face/" + ProfilePicFolder(email, id) + "/" + filename && Basename(r) == filename
  {
    var folder := ProfilePicFolder(email, id);
    if '/' !in email && '/' !in filename then
      assert '/' !in folder by {
        if email == [] {
          assert forall i :: 0 <= i < |folder| ==> folder[i] != '/';
        }
      }
      FacePathLayout(folder, filename);
      FacePath(folder, filename)
    else FacePath(folder, filename)
  }

  /** `user_directory_path(instance, filename)`: always the owner's e-mail, with no fallback. */
  function UserDirectoryPath(email: string, filename: string): (r: string)
    ensures IsSegment(email) && '/' !in filename ==> r == "face/" + email + "/" + filename && Basename(r) == filename
    ensures email == [] && '/' !in filename ==> r == "face/" + filename
  {
    if IsSegment(email) && '/' !in filename then
      FacePathLayout(email, filename);
      FacePath(email, filename)
    else if email == [] && filename != [] then
      assert filename[0] in filename;
      FacePath(email, filename)
    else FacePath(email, filename)
  }

  /** A user without an e-mail gets a profile-picture folder named after the numeric id. */
  lemma ProfilePicPathWithoutEmail(id: nat, filename: string)
    requires '/' !in filename
    ensures ProfilePicPath("", id, filename) == "face/" + DecimalString(id) + "/" + filename
    ensures Basename(ProfilePicPath("", id, filename)) == filename
  {
    FacePathLayout(DecimalString(id), filename);
  }

  /** A user with a plain e-mail gets `face/<email>/<filename>` for the profile picture. */
  lemma ProfilePicPathWithEmail(email: string, id: nat, filename: string)
    requires IsSegment(email) && '/' !in filename
    ensures ProfilePicPath(email, id, filename) == "face/" + email + "/" + filename
    ensures Basename(ProfilePicPath(email, id, filename)) == filename
  {
    FacePathLayout(email, filename);
  }

  /** Face images of a user without an e-mail land directly in `face/`, whatever the id. */
  lemma UserDirectoryPathWithoutEmail(filename: string)
    requires '/' !in filename
    ensures UserDirectoryPath("", filename) == "face/" + filename
  {
    if filename != [] {
      assert filename[0] in filename;
    }
  }

  /** For a user with a non-empty e-mail, the profile picture and the face images share one folder:
      the same file name yields the same path. */
  lemma SameFolderWithEmail(email: string, id: nat, filename: string)
    requires email != []
    ensures ProfilePicPath(email, id, filename) == UserDirectoryPath(email, filename)
  {
  }

  /** For a user without an e-mail the two builders disagree: the id folder is used only for the
      profile picture. */
  lemma DifferentFoldersWithoutEmail(id: nat, filename: string)
    requires '/' !in filename
    ensures ProfilePicPath("", id, filename) != UserDirectoryPath("", filename)
  {
    ProfilePicPathWithoutEmail(id, filename);
    UserDirectoryPathWithoutEmail(filename);
    var a := ProfilePicPath("", id, filename);
    var b := UserDirectoryPath("", filename);
    assert |a| > |b|;
  }
}
