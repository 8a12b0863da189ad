/**
 * The comma-separated lists of the settings form (allergies, conditions,
 * medications, surgeries): parsing `split(",")` + `strip()` + drop empties,
 * the `capitalize()` applied before storing, and the `", ".join` used to show
 * the stored names back in the form.
 */
module FormLists {
  import opened Text
  import opened Seqs

  /** What a parsed list item looks like: non-empty, no surrounding whitespace, no comma. */
  predicate IsListItem(s: string) {
    s != [] && IsStripped(s) && ',' !in s
  }

  predicate AllListItems(xs: seq<string>) {
    forall i :: 0 <= i < |xs| ==> IsListItem(xs[i])
  }

  /** A piece that survives cleaning: non-empty, with no whitespace at either end. */
  predicate IsCleanPiece(s: string) {
    s != [] && IsStripped(s)
  }

  /** Strip every piece and keep the non-empty ones, in order. */
  function CleanPieces(ps: seq<string>): (r: seq<string>)
    ensures |r| <= |ps|
    ensures forall i :: 0 <= i < |r| ==> IsCleanPiece(r[i])
  {
    if ps == [] then []
    else
      var t := Strip(ps[0]);
      if t == [] then CleanPieces(ps[1..]) else [t] + CleanPieces(ps[1..])
  }

  /** Pieces free of commas clean up into list items. */
  lemma {:induction false} CleanPiecesItems(ps: seq<string>)
    requires forall i :: 0 <= i < |ps| ==> ',' !in ps[i]
    ensures AllListItems(CleanPieces(ps))
  {
    if ps != [] {
      assert forall i :: 0 <= i < |ps| - 1 ==> ps[1..][i] == ps[i + 1];
      CleanPiecesItems(ps[1..]);
      var t := Strip(ps[0]);
      if t != [] {
        StripKeepsChars(ps[0]);
        ConsListItems(t, CleanPieces(ps[1..]));
      }
    }
  }

  lemma ConsListItems(x: string, xs: seq<string>)
    requires IsListItem(x) && AllListItems(xs)
    ensures AllListItems([x] + xs)
  {
    assert forall i :: 1 <= i < |xs| + 1 ==> ([x] + xs)[i] == xs[i - 1];
  }

  /** How `CleanPieces` treats the first piece. */
  lemma CleanPiecesCons(p: string, ps: seq<string>)
    ensures CleanPieces([p] + ps) == (if Strip(p) == [] then [] else [Strip(p)]) + CleanPieces(ps)
  {
    assert ([p] + ps)[1..] == ps;
  }

  lemma {:induction false} CleanPiecesAppend(ps: seq<string>, qs: seq<string>)
    ensures CleanPieces(ps + qs) == CleanPieces(ps) + CleanPieces(qs)
  {
    if ps != [] {
      var p, ps' := ps[0], ps[1..];
      HeadTail(ps);
      ConsAppend(p, ps', qs);
      CleanPiecesAppend(ps', qs);
      CleanPiecesCons(p, ps' + qs);
      CleanPiecesCons(p, ps');
      AppendAssoc(if Strip(p) == [] then [] else [Strip(p)], CleanPieces(ps'), CleanPieces(qs));
    } else {
      assert ps + qs == qs;
    }
  }

  /** `[name.strip() for name in text.split(",") if name.strip()]` (views.py, four times). */
  function ParseList(text: string): (r: seq<string>)
    ensures AllListItems(r)
  {
    SplitPiecesFree(text, ',');
    CleanPiecesItems(Split(text, ','));
    CleanPieces(Split(text, ','))
  }

  /** Parsing respects order: the items before a comma come first, then the items after it. */
  lemma ParseListAtComma(a: string, b: string)
    ensures ParseList(a + "," + b) == ParseList(a) + ParseList(b)
  {
    SplitAtSeparator(a, b, ',');
    CleanPiecesAppend(Split(a, ','), Split(b, ','));
  }

  /** A comma-free piece parses to its stripped text, or to nothing when that is empty; with
      `ParseListAtComma` this fixes the result for every input. */
  lemma ParseListOfPiece(p: string)
    requires ',' !in p
    ensures ParseList(p) == (if Strip(p) == "" then [] else [Strip(p)])
  {
    SplitWithoutSeparator(p, ',');
    assert [p][1..] == [];
  }

  /** A piece that starts with a visible character survives stripping, so the list is non-empty. */
  lemma ParseListVisibleHead(c: char, text: string)
    requires c != ',' && !IsSpace(c)
    ensures ParseList([c] + text) != []
  {
    var rest := Split(text, ',');
    var p := Split([c] + text, ',');
    assert ([c] + text)[1..] == text;
    assert p[0] == [c] + rest[0];
    StripEmptyIff(p[0]);
    assert !IsSpace(p[0][0]);
  }

  lemma ParseListOfEmpty()
    ensures ParseList("") == []
  {
    assert Split("", ',') == [""];
    assert Strip("") == "";
  }

  /** A leading comma only closes an empty piece, which is dropped. */
  lemma ParseListCommaHead(tail: string)
    ensures ParseList([','] + tail) == ParseList(tail)
  {
    var t := [','] + tail;
    assert t[1..] == tail;
    var r := Split(tail, ',');
    assert Split(t, ',') == [""] + r;
    assert ([""] + r)[1..] == r;
    assert Strip("") == "";
  }

  /** Text made of nothing but commas and whitespace. */
  predicate OnlyCommasAndBlanks(text: string) {
    forall i :: 0 <= i < |text| ==> text[i] == ',' || IsSpace(text[i])
  }

  lemma OnlyCommasAndBlanksCons(c: char, tail: string)
    ensures OnlyCommasAndBlanks([c] + tail) <==> (c == ',' || IsSpace(c)) && OnlyCommasAndBlanks(tail)
  {
    var t := [c] + tail;
    assert t[0] == c;
    assert forall i :: 1 <= i < |t| ==> t[i] == tail[i - 1];
    if OnlyCommasAndBlanks(tail) && (c == ',' || IsSpace(c)) {
      forall i | 0 <= i < |t|
        ensures t[i] == ',' || IsSpace(t[i])
      {
        if i > 0 {
          assert t[i] == tail[i - 1];
        }
      }
    }
    if OnlyCommasAndBlanks(t) {
      assert forall i :: 0 <= i < |tail| ==> tail[i] == t[i + 1];
    }
  }

  /** The list is empty exactly when the text holds nothing but commas and whitespace. */
  lemma {:induction false} ParseListEmptyIff(text: string)
    ensures ParseList(text) == [] <==> OnlyCommasAndBlanks(text)
  {
    if text != [] {
      ParseListEmptyIff(text[1..]);
      ParseListEmptyStep(text);
    }
  }

  lemma ParseListEmptyStep(text: string)
    requires text != []
    requires ParseList(text[1..]) == [] <==> OnlyCommasAndBlanks(text[1..])
    ensures ParseList(text) == [] <==> OnlyCommasAndBlanks(text)
  {
    HeadTail(text);
    ParseListHead(text[0], text[1..]);
    OnlyCommasAndBlanksCons(text[0], text[1..]);
  }

  /** A leading character leaves the list empty exactly when it is a comma or whitespace and the rest gives nothing. */
  lemma ParseListHead(c: char, tail: string)
    ensures ParseList([c] + tail) == [] <==> (c == ',' || IsSpace(c)) && ParseList(tail) == []
  {
    if c == ',' {
      ParseListCommaHead(tail);
    } else if IsSpace(c) {
      ParseListLeadingSpace(c, tail);
    } else {
      ParseListVisibleHead(c, tail);
    }
  }

  /** A single well-formed item parses to itself. */
  lemma ParseListOfItem(x: string)
    requires IsListItem(x)
    ensures ParseList(x) == [x]
  {
    SplitWithoutSeparator(x, ',');
    StripFixedIff(x);
  }

  /** Leading whitespace in front of a list changes nothing. */
  lemma ParseListLeadingSpace(c: char, text: string)
    requires IsSpace(c)
    ensures ParseList([c] + text) == ParseList(text)
  {
    var rest := Split(text, ',');
    var p := Split([c] + text, ',');
    assert ([c] + text)[1..] == text;
    assert p == [[c] + rest[0]] + rest[1..];
    assert p[1..] == rest[1..];
    StripLeadingSpace(c, rest[0]);
  }

  /** `", ".join(names)`, how the settings page shows a stored list: the names in order, a
      comma and a space between neighbours. */
  function DisplayString(names: seq<string>): (r: string)
    ensures names == [] ==> r == []
    ensures |names| == 1 ==> r == names[0]
    ensures |names| > 0 ==> |names[0]| <= |r| && r[..|names[0]|] == names[0]
  {
    Join(names, ", ")
  }

  lemma DisplaySplitsAtFirstComma(names: seq<string>)
    requires |names| > 1
    ensures DisplayString(names) == names[0] + "," + ([' '] + DisplayString(names[1..]))
  {
    assert ", " == [','] + [' '];
  }

  /** Showing a list of well-formed names and parsing the text again gives back the same names. */
  lemma {:induction false} DisplayRoundTrip(names: seq<string>)
    requires AllListItems(names)
    ensures ParseList(DisplayString(names)) == names
  {
    if |names| == 1 {
      ParseListOfItem(names[0]);
      Singleton(names);
    } else if |names| > 1 {
      var x, rest := names[0], names[1..];
      TailListItems(names);
      DisplayRoundTrip(rest);
      DisplayConsStep(x, rest);
      HeadTail(names);
    } else {
      ParseListOfEmpty();
    }
  }

  lemma TailListItems(names: seq<string>)
    requires names != [] && AllListItems(names)
    ensures AllListItems(names[1..])
  {
    assert forall i :: 0 <= i < |names| - 1 ==> names[1..][i] == names[i + 1];
  }

  lemma DisplayConsStep(x: string, rest: seq<string>)
    requires IsListItem(x) && rest != []
    requires ParseList(DisplayString(rest)) == rest
    ensures ParseList(DisplayString([x] + rest)) == [x] + rest
  {
    var names := [x] + rest;
    assert names[1..] == rest;
    var tail := DisplayString(rest);
    DisplaySplitsAtFirstComma(names);
    ParseListAtComma(x, [' '] + tail);
    ParseListOfItem(x);
    ParseListLeadingSpace(' ', tail);
  }

  /** `name.capitalize()` applied to each parsed item: the names the view stores. */
  function CapitalizeAll(xs: seq<string>): (r: seq<string>)
    ensures |r| == |xs|
    ensures forall i :: 0 <= i < |xs| ==> r[i] == Capitalize(xs[i])
  {
    if xs == [] then [] else [Capitalize(xs[0])] + CapitalizeAll(xs[1..])
  }

  lemma {:induction false} CapitalizeAllItems(xs: seq<string>)
    requires AllListItems(xs)
    ensures AllListItems(CapitalizeAll(xs))
    ensures CapitalizeAll(CapitalizeAll(xs)) == CapitalizeAll(xs)
  {
    if xs != [] {
      var x := xs[0];
      CapitalizeKeepsLayout(x);
      CapitalizeIdempotent(x);
      CapitalizeAllItems(xs[1..]);
      var c := Capitalize(x);
      assert IsStripped(c) by {
        assert IsSpace(c[0]) <==> IsSpace(x[0]);
        assert IsSpace(c[|c| - 1]) <==> IsSpace(x[|x| - 1]);
      }
      var r := CapitalizeAll(xs);
      assert r == [c] + CapitalizeAll(xs[1..]);
      assert r[1..] == CapitalizeAll(xs[1..]);
    }
  }

  /** The names the settings view stores for one list field of the form. */
  function StoredNames(text: string): (r: seq<string>)
    ensures AllListItems(r)
    ensures |r| == |ParseList(text)|
    ensures forall i :: 0 <= i < |r| ==> r[i] == Capitalize(ParseList(text)[i])
  {
    CapitalizeAllItems(ParseList(text));
    CapitalizeAllNth(ParseList(text));
    CapitalizeAll(ParseList(text))
  }

  lemma {:induction false} CapitalizeAllNth(xs: seq<string>)
    ensures forall i :: 0 <= i < |xs| ==> CapitalizeAll(xs)[i] == Capitalize(xs[i])
  {
    if xs != [] {
      CapitalizeAllNth(xs[1..]);
      assert forall i :: 1 <= i < |xs| ==> CapitalizeAll(xs)[i] == CapitalizeAll(xs[1..])[i - 1];
    }
  }

  /** Stored names are already capitalised: capitalising them again changes nothing. */
  lemma StoredNamesCapitalized(text: string)
    ensures CapitalizeAll(StoredNames(text)) == StoredNames(text)
  {
    CapitalizeAllItems(ParseList(text));
  }

  /** Showing stored names and submitting the text unchanged stores the same names again. */
  lemma StoredNamesRoundTrip(text: string)
    ensures StoredNames(DisplayString(StoredNames(text))) == StoredNames(text)
  {
    DisplayRoundTrip(StoredNames(text));
    StoredNamesCapitalized(text);
  }

  /** A name as the settings view stores it: a parsed list item that capitalising leaves alone. */
  predicate IsStoredName(x: string) {
    IsListItem(x) && Capitalize(x) == x
  }

  lemma StoredNamesAreStored(text: string)
    ensures forall i :: 0 <= i < |StoredNames(text)| ==> IsStoredName(StoredNames(text)[i])
  {
    var xs := ParseList(text);
    forall i | 0 <= i < |xs|
      ensures Capitalize(Capitalize(xs[i])) == Capitalize(xs[i])
    {
      CapitalizeIdempotent(xs[i]);
    }
  }

  /** Every name is a stored name. */
  predicate AllStoredNames(xs: seq<string>) {
    forall i :: 0 <= i < |xs| ==> IsStoredName(xs[i])
  }

  /** Stored names shown on the page come back unchanged when the text is submitted again. */
  lemma ShowRoundTrip(xs: seq<string>)
    ensures AllStoredNames(xs) ==> StoredNames(DisplayString(xs)) == xs
  {
    if AllStoredNames(xs) {
      StoredListRoundTrip(xs);
    }
  }

  lemma StoredListRoundTrip(xs: seq<string>)
    requires forall i :: 0 <= i < |xs| ==> IsStoredName(xs[i])
    ensures StoredNames(DisplayString(xs)) == xs
  {
    DisplayRoundTrip(xs);
    var r := StoredNames(DisplayString(xs));
    assert |r| == |xs|;
    assert forall i :: 0 <= i < |xs| ==> r[i] == Capitalize(xs[i]);
  }
}
