/**
 * The data migration that seeds the BloodGroup catalogue: `populate_blood_groups`
 * runs `get_or_create` for each of the eight names, and its reverse
 * `remove_blood_groups` deletes every row whose name is in the list.
 * The catalogue is the table's `group_name` column in row order.
 */
module BloodGroups {
  import opened Tables

  const BloodGroupNames: seq<string> := [
    "O(I) Rh+", "O(I) Rh-", "A(II) Rh+", "A(II) Rh-",
    "B(III) Rh+", "B(III) Rh-", "AB(IV) Rh+", "AB(IV) Rh-"
  ]

  /** The list holds eight distinct names. */
  lemma BloodGroupNamesDistinct()
    ensures |BloodGroupNames| == 8 && NoDup(BloodGroupNames)
  {
  }

  /** `populate_blood_groups`: one `get_or_create` per listed name. Afterwards every listed
      name is present; the rows that were there stay first, unchanged and in order. */
  function Populate(t: seq<string>): (r: seq<string>)
    ensures forall x :: x in r <==> x in t || x in BloodGroupNames
    ensures |t| <= |r| && r[..|t|] == t
    ensures NoDup(t) ==> NoDup(r)
  {
    GetOrCreateAll(t, BloodGroupNames)
  }

  /** `remove_blood_groups`: `filter(group_name__in=BLOOD_GROUPS).delete()`. */
  function Remove(t: seq<string>): (r: seq<string>)
    ensures forall x :: x in r <==> x in t && x !in BloodGroupNames
    ensures NoDup(t) ==> NoDup(r)
  {
    RemoveNamed(t, BloodGroupNames)
  }

  /** Running the migration twice adds nothing the second time. */
  lemma PopulateIdempotent(t: seq<string>)
    ensures Populate(Populate(t)) == Populate(t)
  {
    GetOrCreateAllIdempotent(t, BloodGroupNames);
  }

  /** Migrating forward and back restores a catalogue that held none of the listed names. */
  lemma PopulateThenRemove(t: seq<string>)
    requires forall i :: 0 <= i < |t| ==> t[i] !in BloodGroupNames
    ensures Remove(Populate(t)) == t
  {
    GetOrCreateThenRemove(t, BloodGroupNames);
  }
}
