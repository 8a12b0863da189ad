/**
 * Enrolment photos (`UserFaceImage`) and their default ordering, newest upload first.
 * Upload times are integers (for instance, microseconds since an epoch).
 */
module FaceImages {
  import opened Seqs

  /** One enrolment photo: its owner, the stored file name and the upload time. */
  datatype FaceImage = FaceImage(user: nat, image: string, uploadedAt: int)

  /** Newest first: upload times never increase along the list. */
  predicate NewestFirst(xs: seq<FaceImage>) {
    forall i, j :: 0 <= i < j < |xs| ==> xs[i].uploadedAt >= xs[j].uploadedAt
  }

  /** Put one photo in front of the first photo that is not newer than it. */
  function Insert(x: FaceImage, xs: seq<FaceImage>): (r: seq<FaceImage>)
    requires NewestFirst(xs)
    ensures NewestFirst(r)
    ensures multiset(r) == multiset(xs) + multiset{x}
    ensures |r| == |xs| + 1
    ensures r[0] == x || (xs != [] && r[0] == xs[0])
  {
    if xs == [] || x.uploadedAt >= xs[0].uploadedAt then
      ConsNewestFirst(x, xs);
      [x] + xs
    else
      HeadTail(xs);
      TailNewestFirst(xs);
      var rest := Insert(x, xs[1..]);
      ConsNewestFirst(xs[0], rest);
      [xs[0]] + rest
  }

  lemma TailNewestFirst(xs: seq<FaceImage>)
    requires xs != [] && NewestFirst(xs)
    ensures NewestFirst(xs[1..])
  {
    assert forall i :: 0 <= i < |xs| - 1 ==> xs[1..][i] == xs[i + 1];
  }

  /** A photo no older than the head of a newest-first list can go in front of it. */
  lemma ConsNewestFirst(x: FaceImage, xs: seq<FaceImage>)
    requires NewestFirst(xs)
    requires xs == [] || x.uploadedAt >= xs[0].uploadedAt
    ensures NewestFirst([x] + xs)
  {
    var r := [x] + xs;
    forall i, j | 0 <= i < j < |r|
      ensures r[i].uploadedAt >= r[j].uploadedAt
    {
      if i == 0 {
        assert r[j] == xs[j - 1];
        assert xs[0].uploadedAt >= xs[j - 1].uploadedAt;
      } else {
        assert r[i] == xs[i - 1] && r[j] == xs[j - 1];
      }
    }
  }

  /** The order in which listing the photos returns them (`ordering = ["-uploaded_at"]`):
      the same photos, newest first. */
  function OrderNewestFirst(xs: seq<FaceImage>): (r: seq<FaceImage>)
    ensures NewestFirst(r)
    ensures multiset(r) == multiset(xs)
    ensures |r| == |xs|
  {
    if xs == [] then []
    else
      assert xs == [xs[0]] + xs[1..];
      Insert(xs[0], OrderNewestFirst(xs[1..]))
  }

  /** A list that is already newest first is listed as it is. */
  lemma {:induction false} OrderNewestFirstKeepsOrdered(xs: seq<FaceImage>)
    requires NewestFirst(xs)
    ensures OrderNewestFirst(xs) == xs
  {
    if xs != [] {
      TailNewestFirst(xs);
      OrderNewestFirstKeepsOrdered(xs[1..]);
      var rest := xs[1..];
      if rest != [] {
        assert xs[0].uploadedAt >= xs[1].uploadedAt;
      }
      HeadTail(xs);
    }
  }
}
