/**
 * The database tables the views and the migration touch, as sequences of rows
 * in insertion order, with the uniqueness constraints of main/models.py:
 * catalogue names are `unique=True`, and each patient/item link table carries
 * `unique_together = ("patient", <item>)`.
 */
module Tables {
  import opened Seqs

  import opened Wrappers

  /** No row occurs twice: the `unique` / `unique_together` constraint of a table keyed by the whole row. */
  predicate NoDup<T(==)>(s: seq<T>) {
    forall i, j :: 0 <= i < j < |s| ==> s[i] != s[j]
  }

  lemma NoDupAppend<T>(s: seq<T>, x: T)
    ensures x !in s && NoDup(s) ==> NoDup(s + [x])
  {
  }

  /** The rows of `s` that `keep` accepts, in their original order (a queryset `filter`). */
  function Filter<T(==,!new)>(s: seq<T>, keep: T -> bool): (r: seq<T>)
    ensures |r| <= |s|
    ensures forall x :: x in r <==> x in s && keep(x)
    ensures NoDup(s) ==> NoDup(r)
  {
    if s == [] then []
    else
      var init := Filter(s[..|s| - 1], keep);
      var last := s[|s| - 1];
      assert forall x :: x in s <==> x in s[..|s| - 1] || x == last by {
        assert s == s[..|s| - 1] + [last];
      }
      if keep(last) then init + [last] else init
  }

  /** Filtering two runs of rows filters each run on its own. */
  lemma {:induction false} FilterAppend<T(!new)>(a: seq<T>, b: seq<T>, keep: T -> bool)
    ensures Filter(a + b, keep) == Filter(a, keep) + Filter(b, keep)
  {
    if b != [] {
      var init, last := b[..|b| - 1], b[|b| - 1];
      assert a + b == (a + init) + [last];
      assert b == init + [last];
      FilterSnoc(a + init, last, keep);
      FilterSnoc(init, last, keep);
      FilterAppend(a, init, keep);
    } else {
      assert a + b == a;
    }
  }

  lemma FilterSnoc<T(!new)>(s: seq<T>, x: T, keep: T -> bool)
    ensures Filter(s + [x], keep) == Filter(s, keep) + (if keep(x) then [x] else [])
  {
    assert (s + [x])[..|s|] == s;
  }

  /** A filter that rejects no row of `s` returns `s` itself. */
  lemma {:induction false} FilterKeepsAll<T(!new)>(s: seq<T>, keep: T -> bool)
    requires forall i :: 0 <= i < |s| ==> keep(s[i])
    ensures Filter(s, keep) == s
  {
    if s != [] {
      FilterKeepsAll(s[..|s| - 1], keep);
      assert s[..|s| - 1] + [s[|s| - 1]] == s;
    }
  }

  /** A filter that accepts no row of `s` returns nothing. */
  lemma {:induction false} FilterDropsAll<T(!new)>(s: seq<T>, keep: T -> bool)
    requires forall i :: 0 <= i < |s| ==> !keep(s[i])
    ensures Filter(s, keep) == []
  {
    if s != [] {
      FilterDropsAll(s[..|s| - 1], keep);
    }
  }

  /** A filter keeps every occurrence of a kept row and none of the others. */
  lemma {:induction false} FilterCounts<T(!new)>(s: seq<T>, keep: T -> bool)
    ensures forall x :: multiset(Filter(s, keep))[x] == if keep(x) then multiset(s)[x] else 0
  {
    if s != [] {
      var init, last := s[..|s| - 1], s[|s| - 1];
      FilterCounts(init, keep);
      assert s == init + [last];
      FilterSnoc(init, last, keep);
    }
  }

  /** `Catalogue.objects.get_or_create(name=name)`: the row is added only when no row has that name. */
  function GetOrCreate(t: seq<string>, name: string): (r: seq<string>)
    ensures name in r
    ensures forall x :: x in r <==> x in t || x == name
    ensures |t| <= |r| <= |t| + 1 && r[..|t|] == t
    ensures NoDup(t) ==> NoDup(r)
  {
    if name in t then t else t + [name]
  }

  /** `get_or_create` over a list of names, in order. */
  function GetOrCreateAll(t: seq<string>, names: seq<string>): (r: seq<string>)
    decreases names
    ensures forall x :: x in r <==> x in t || x in names
    ensures |t| <= |r| && r[..|t|] == t
    ensures forall i :: |t| <= i < |r| ==> r[i] in names && r[i] !in t
    ensures NoDup(t) ==> NoDup(r)
  {
    if names == [] then t
    else
      var t' := GetOrCreate(t, names[0]);
      var r := GetOrCreateAll(t', names[1..]);
      MemberCons(names);
      PrefixOfPrefix(r, |t|, |t'|);
      forall i | |t| <= i < |t'|
        ensures r[i] in names && r[i] !in t
      {
        assert r[i] == r[..|t'|][i];
      }
      r
  }

  /** When every name already has a row, `get_or_create` creates nothing. */
  lemma {:induction false} GetOrCreateAllPresent(t: seq<string>, names: seq<string>)
    requires forall i :: 0 <= i < |names| ==> names[i] in t
    ensures GetOrCreateAll(t, names) == t
  {
    if names != [] {
      GetOrCreateAllPresent(t, names[1..]);
    }
  }

  /** Running the same `get_or_create` calls twice adds nothing the second time. */
  lemma GetOrCreateAllIdempotent(t: seq<string>, names: seq<string>)
    ensures GetOrCreateAll(GetOrCreateAll(t, names), names) == GetOrCreateAll(t, names)
  {
    GetOrCreateAllPresent(GetOrCreateAll(t, names), names);
  }

  /** The filter that keeps the rows whose name is not in `names`. */
  function NotNamed(names: seq<string>): string -> bool {
    (x: string) => x !in names
  }

  /** `Catalogue.objects.filter(name__in=names).delete()`. */
  function RemoveNamed(t: seq<string>, names: seq<string>): (r: seq<string>)
    ensures forall x :: x in r <==> x in t && x !in names
    ensures NoDup(t) ==> NoDup(r)
  {
    Filter(t, NotNamed(names))
  }

  /** Deleting what a run of `get_or_create` calls could have added restores a catalogue
      that held none of those names. */
  lemma GetOrCreateThenRemove(t: seq<string>, names: seq<string>)
    requires forall i :: 0 <= i < |t| ==> t[i] !in names
    ensures RemoveNamed(GetOrCreateAll(t, names), names) == t
  {
    var keep := NotNamed(names);
    var p := GetOrCreateAll(t, names);
    var added := p[|t|..];
    assert p == t + added;
    forall i | 0 <= i < |t|
      ensures keep(t[i])
    {
    }
    forall i | 0 <= i < |added|
      ensures !keep(added[i])
    {
      assert added[i] == p[|t| + i];
    }
    FilterKeepsAll(t, keep);
    FilterDropsAll(added, keep);
    FilterAppend(t, added, keep);
    assert t + [] == t;
  }

  /** One row of a patient/item link table (PatientCondition, PatientMedication,
      PatientSurgery, or the allergy many-to-many table); items are catalogue names. */
  datatype Link = Link(patient: nat, item: string)

  /** The items linked to patient `p`, in row order (`Link.objects.filter(patient=p)`). */
  function ItemsOf(t: seq<Link>, p: nat): (r: seq<string>)
    ensures |r| <= |t|
    ensures forall x :: x in r <==> Link(p, x) in t
  {
    if t == [] then []
    else
      var last := t[|t| - 1];
      var init := ItemsOf(t[..|t| - 1], p);
      assert forall l :: l in t <==> l in t[..|t| - 1] || l == last by {
        assert t == t[..|t| - 1] + [last];
      }
      if last.patient == p then init + [last.item] else init
  }

  lemma ItemsOfAppend(t: seq<Link>, l: Link, q: nat)
    ensures ItemsOf(t + [l], q) == ItemsOf(t, q) + (if l.patient == q then [l.item] else [])
  {
    assert (t + [l])[..|t|] == t;
  }

  /** A patient with no row in the table has no items. */
  lemma {:induction false} NoItemsWithoutLinks(t: seq<Link>, p: nat)
    requires forall i :: 0 <= i < |t| ==> t[i].patient != p
    ensures ItemsOf(t, p) == []
  {
    if t != [] {
      NoItemsWithoutLinks(t[..|t| - 1], p);
    }
  }

  /** `Link.objects.filter(patient=p).delete()`. */
  function DeleteFor(t: seq<Link>, p: nat): (r: seq<Link>)
    ensures ItemsOf(r, p) == []
    ensures NoDup(t) ==> NoDup(r)
  {
    var r := Filter(t, (l: Link) => l.patient != p);
    assert forall i :: 0 <= i < |r| ==> r[i] in r;
    NoItemsWithoutLinks(r, p);
    r
  }

  /** A filter that keeps every row of patient `q` leaves `q`'s items, in order, as they were. */
  lemma {:induction false} ItemsOfFilterKeeping(t: seq<Link>, keep: Link -> bool, q: nat)
    requires forall i :: 0 <= i < |t| && t[i].patient == q ==> keep(t[i])
    ensures ItemsOf(Filter(t, keep), q) == ItemsOf(t, q)
  {
    if t != [] {
      var init := t[..|t| - 1];
      var last := t[|t| - 1];
      ItemsOfFilterKeeping(init, keep, q);
      var fi := Filter(init, keep);
      if keep(last) {
        ItemsOfAppend(fi, last, q);
      }
    }
  }

  /** Deleting one patient's links leaves every other patient's links, in order. */
  lemma DeleteForKeepsOthers(t: seq<Link>, p: nat, q: nat)
    requires q != p
    ensures ItemsOf(DeleteFor(t, p), q) == ItemsOf(t, q)
  {
    ItemsOfFilterKeeping(t, (l: Link) => l.patient != p, q);
  }

  /** One link of patient `p` per name, in order. */
  function LinksFor(p: nat, names: seq<string>): (r: seq<Link>)
    ensures |r| == |names|
    ensures forall i :: 0 <= i < |names| ==> r[i] == Link(p, names[i])
  {
    seq(|names|, i requires 0 <= i < |names| => Link(p, names[i]))
  }

  lemma LinksForCons(t: seq<Link>, p: nat, names: seq<string>)
    requires names != []
    ensures (t + [Link(p, names[0])]) + LinksFor(p, names[1..]) == t + LinksFor(p, names)
  {
    assert LinksFor(p, names) == [Link(p, names[0])] + LinksFor(p, names[1..]);
  }

  /** `Link.objects.create(patient=p, item=n)` for each name in order; `None` is the
      IntegrityError raised when a (patient, item) pair already exists. */
  function CreateLinks(t: seq<Link>, p: nat, names: seq<string>): (r: Option<seq<Link>>)
    decreases names
    ensures r.Some? ==> r.value == t + LinksFor(p, names)
    ensures r.Some? && NoDup(t) ==> NoDup(r.value)
  {
    if names == [] then
      assert t + LinksFor(p, names) == t;
      Some(t)
    else if Link(p, names[0]) in t then None
    else
      NoDupAppend(t, Link(p, names[0]));
      var t' := t + [Link(p, names[0])];
      LinksForCons(t, p, names);
      CreateLinks(t', p, names[1..])
  }

  /** Items of two runs of rows are the items of each run, in order. */
  lemma {:induction false} ItemsOfConcat(a: seq<Link>, b: seq<Link>, q: nat)
    ensures ItemsOf(a + b, q) == ItemsOf(a, q) + ItemsOf(b, q)
  {
    if b == [] {
      assert a + b == a;
    } else {
      var init, last := b[..|b| - 1], b[|b| - 1];
      assert a + b == (a + init) + [last];
      assert b == init + [last];
      ItemsOfAppend(a + init, last, q);
      ItemsOfAppend(init, last, q);
      ItemsOfConcat(a, init, q);
    }
  }

  /** The links made for `names` hold exactly `names` for `p`, in order. */
  lemma {:induction false} ItemsOfLinksFor(p: nat, names: seq<string>)
    ensures ItemsOf(LinksFor(p, names), p) == names
  {
    if names != [] {
      var init, last := names[..|names| - 1], names[|names| - 1];
      assert LinksFor(p, names) == LinksFor(p, init) + [Link(p, last)];
      ItemsOfAppend(LinksFor(p, init), Link(p, last), p);
      ItemsOfLinksFor(p, init);
    }
  }

  /** Creating links fails exactly when a name repeats or is already linked to the patient. */
  lemma {:induction false} CreateLinksSucceedsIff(t: seq<Link>, p: nat, names: seq<string>)
    decreases names
    ensures CreateLinks(t, p, names).Some? <==> NoDup(names) && forall n :: n in names ==> n !in ItemsOf(t, p)
  {
    if names != [] {
      var n, rest := names[0], names[1..];
      assert names == [n] + rest;
      NoDupCons(n, rest);
      if Link(p, n) in t {
        assert n in ItemsOf(t, p);
      } else {
        var t' := t + [Link(p, n)];
        assert CreateLinks(t, p, names) == CreateLinks(t', p, rest);
        ItemsOfAppend(t, Link(p, n), p);
        assert forall m :: m in ItemsOf(t', p) <==> m in ItemsOf(t, p) || m == n;
        CreateLinksSucceedsIff(t', p, rest);
      }
    }
  }

  /** On success the patient's items are the old ones followed by `names`, in order. */
  lemma CreateLinksItems(t: seq<Link>, p: nat, names: seq<string>)
    requires CreateLinks(t, p, names).Some?
    ensures ItemsOf(CreateLinks(t, p, names).value, p) == ItemsOf(t, p) + names
  {
    ItemsOfConcat(t, LinksFor(p, names), p);
    ItemsOfLinksFor(p, names);
  }

  /** Creating links for `p` leaves every other patient's items as they were. */
  lemma CreateLinksOthers(t: seq<Link>, p: nat, names: seq<string>, q: nat)
    requires q != p && CreateLinks(t, p, names).Some?
    ensures ItemsOf(CreateLinks(t, p, names).value, q) == ItemsOf(t, q)
  {
    ItemsOfConcat(t, LinksFor(p, names), q);
    NoItemsWithoutLinks(LinksFor(p, names), q);
    assert ItemsOf(t, q) + [] == ItemsOf(t, q);
  }

  /** A sequence with a head has no repeats iff its tail has none and the head is not in the tail. */
  lemma NoDupCons<T>(x: T, s: seq<T>)
    ensures NoDup([x] + s) <==> x !in s && NoDup(s)
  {
    var xs := [x] + s;
    assert forall i :: 0 <= i < |s| ==> xs[i + 1] == s[i];
    if x in s {
      var i :| 0 <= i < |s| && s[i] == x;
      assert xs[0] == xs[i + 1];
    }
  }

  lemma DeleteForKeepsAllOthers(t: seq<Link>, p: nat)
    ensures forall q :: q != p ==> ItemsOf(DeleteFor(t, p), q) == ItemsOf(t, q)
  {
    forall q | q != p
      ensures ItemsOf(DeleteFor(t, p), q) == ItemsOf(t, q)
    {
      DeleteForKeepsOthers(t, p, q);
    }
  }

  lemma CreateAfterDelete(t: seq<Link>, p: nat, names: seq<string>)
    ensures var r := CreateLinks(DeleteFor(t, p), p, names);
      r.Some? ==> ItemsOf(r.value, p) == names && forall q :: q != p ==> ItemsOf(r.value, q) == ItemsOf(t, q)
  {
    var d := DeleteFor(t, p);
    if CreateLinks(d, p, names).Some? {
      CreateLinksItems(d, p, names);
      assert [] + names == names;
      forall q | q != p
        ensures ItemsOf(CreateLinks(d, p, names).value, q) == ItemsOf(t, q)
      {
        CreateLinksOthers(d, p, names, q);
        DeleteForKeepsOthers(t, p, q);
      }
    }
  }

  /** The replace-all update of conditions, medications and surgeries: delete the patient's
      links, then create one link per name. It fails (IntegrityError) exactly when a name
      repeats; otherwise the patient holds exactly `names`, in order, and nobody else changes. */
  function ReplaceLinks(t: seq<Link>, p: nat, names: seq<string>): (r: Option<seq<Link>>)
    ensures r.Some? <==> NoDup(names)
    ensures r.Some? ==> ItemsOf(r.value, p) == names
    ensures r.Some? ==> forall q :: q != p ==> ItemsOf(r.value, q) == ItemsOf(t, q)
    ensures r.Some? && NoDup(t) ==> NoDup(r.value)
  {
    var d := DeleteFor(t, p);
    CreateLinksSucceedsIff(d, p, names);
    CreateAfterDelete(t, p, names);
    CreateLinks(d, p, names)
  }

  /** Rows appended for other patients leave patient `q`'s items as they were. */
  lemma {:induction false} ItemsOfAppendOthers(t: seq<Link>, extra: seq<Link>, q: nat)
    requires forall i :: 0 <= i < |extra| ==> extra[i].patient != q
    ensures ItemsOf(t + extra, q) == ItemsOf(t, q)
  {
    if extra != [] {
      var init := extra[..|extra| - 1];
      var last := extra[|extra| - 1];
      assert t + extra == (t + init) + [last];
      ItemsOfAppend(t + init, last, q);
      ItemsOfAppendOthers(t, init, q);
    } else {
      assert t + extra == t;
    }
  }

  /** `add()` on a many-to-many relation: each name not yet linked to `p` gets one link. */
  function AddLinks(t: seq<Link>, p: nat, names: seq<string>): (r: seq<Link>)
    decreases names
    ensures forall x :: Link(p, x) in r <==> Link(p, x) in t || x in names
    ensures |t| <= |r| && r[..|t|] == t
    ensures forall i :: |t| <= i < |r| ==> r[i].patient == p
    ensures NoDup(t) ==> NoDup(r)
  {
    if names == [] then t
    else
      var l := Link(p, names[0]);
      var t' := if l in t then t else t + [l];
      NoDupAppend(t, l);
      MemberCons(names);
      var r := AddLinks(t', p, names[1..]);
      PrefixOfPrefix(r, |t|, |t'|);
      r
  }

  /** `relation.set(objs)` for the allergies: links to names outside `names` are removed, missing
      ones are added. Afterwards the patient is linked to exactly the names listed (as a set). */
  function SetLinks(t: seq<Link>, p: nat, names: seq<string>): (r: seq<Link>)
    ensures forall x :: x in ItemsOf(r, p) <==> x in names
    ensures forall q :: q != p ==> ItemsOf(r, q) == ItemsOf(t, q)
    ensures NoDup(t) ==> NoDup(r)
  {
    var keep := (l: Link) => l.patient != p || l.item in names;
    var kept := Filter(t, keep);
    var r := AddLinks(kept, p, names);
    assert r == kept + r[|kept|..];
    SetLinksOthers(t, keep, p, kept, r);
    r
  }

  lemma SetLinksOthers(t: seq<Link>, keep: Link -> bool, p: nat, kept: seq<Link>, r: seq<Link>)
    requires forall l: Link :: l.patient != p ==> keep(l)
    requires kept == Filter(t, keep)
    requires |kept| <= |r| && r == kept + r[|kept|..]
    requires forall i :: |kept| <= i < |r| ==> r[i].patient == p
    ensures forall q :: q != p ==> ItemsOf(r, q) == ItemsOf(t, q)
  {
    forall q | q != p
      ensures ItemsOf(r, q) == ItemsOf(t, q)
    {
      ItemsOfFilterKeeping(t, keep, q);
      var extra := r[|kept|..];
      assert forall i :: 0 <= i < |extra| ==> extra[i] == r[|kept| + i];
      ItemsOfAppendOthers(kept, extra, q);
    }
  }
}
