/** The journal page (frontend/app/events/page.tsx): filtering entries by
    date and mood, splitting the tag input, adding and deleting entries,
    and the shortened description, tag chips and date options it shows. */
module EventsPage {
  import opened Wrappers
  import opened Strings

  /** A journal entry; `mood` is optional in the entry's type. */
  datatype Entry = Entry(
    id: string, title: string, description: string, date: string,
    tags: seq<string>, mood: Option<string>, location: Option<string>)

  /** The filter test: an empty filter lets everything through. An entry
      without a mood fails any non-empty mood filter. */
  predicate Keep(e: Entry, date: string, mood: string) {
    (date == "" || e.date == date) && (mood == "" || e.mood == Some(mood))
  }

  /** `filteredEvents`: the entries that pass both filters, in order. */
  function Filter(entries: seq<Entry>, date: string, mood: string): (kept: seq<Entry>)
    ensures |kept| <= |entries|
    ensures forall e :: e in kept <==> e in entries && Keep(e, date, mood)
  {
    if |entries| == 0 then []
    else if Keep(entries[0], date, mood) then [entries[0]] + Filter(entries[1..], date, mood)
    else Filter(entries[1..], date, mood)
  }

  /** Filtering distributes over concatenation, so relative order is kept. */
  lemma {:induction false} FilterAppend(a: seq<Entry>, b: seq<Entry>, date: string, mood: string)
    ensures Filter(a + b, date, mood) == Filter(a, date, mood) + Filter(b, date, mood)
  {
    if |a| == 0 {
      assert a + b == b;
    } else {
      assert (a + b)[0] == a[0];
      assert (a + b)[1..] == a[1..] + b;
      FilterAppend(a[1..], b, date, mood);
    }
  }

  /** With both filters empty every entry is shown. */
  lemma {:induction false} FilterNoFilters(entries: seq<Entry>)
    ensures Filter(entries, "", "") == entries
  {
    if |entries| > 0 {
      FilterNoFilters(entries[1..]);
    }
  }

  /** Filtering twice with the same filters changes nothing. */
  lemma {:induction false} FilterIdempotent(entries: seq<Entry>, date: string, mood: string)
    ensures Filter(Filter(entries, date, mood), date, mood) == Filter(entries, date, mood)
  {
    if |entries| > 0 {
      FilterIdempotent(entries[1..], date, mood);
      if Keep(entries[0], date, mood) {
        assert ([entries[0]] + Filter(entries[1..], date, mood))[1..] == Filter(entries[1..], date, mood);
      }
    }
  }

  // ---------------------------------------------------------------------
  // Adding and deleting

  /** The tag input: no tags for an empty input, otherwise every
      comma-separated piece trimmed, empty pieces included. */
  function ParseTags(input: string): (tags: seq<string>)
    ensures input == "" ==> tags == []
    ensures input != "" ==> |tags| == |Split(input, ',')| == Count(input, ',') + 1
    ensures input != "" ==> forall i :: 0 <= i < |tags| ==> tags[i] == Trim(Split(input, ',')[i])
  {
    if input == "" then []
    else
      SplitLength(input, ',');
      TrimAll(Split(input, ','))
  }

  function TrimAll(pieces: seq<string>): (r: seq<string>)
    ensures |r| == |pieces|
    ensures forall i :: 0 <= i < |r| ==> r[i] == Trim(pieces[i])
  {
    if |pieces| == 0 then [] else [Trim(pieces[0])] + TrimAll(pieces[1..])
  }

  /** Trimming keeps a character out that was not there. */
  lemma TrimAvoids(p: string, c: char)
    requires c !in p
    ensures c !in Trim(p)
  {
    var t := Trim(p);
    var k := LeadingBlanks(p);
    forall j | 0 <= j < |t|
      ensures t[j] != c
    {
      assert t[j] == p[k + j];
    }
  }

  /** No tag starts or ends with whitespace and none holds a comma. */
  lemma ParsedTagsAreClean(input: string)
    ensures forall t :: t in ParseTags(input) ==>
      ',' !in t && (|t| > 0 ==> !IsWhitespace(t[0]) && !IsWhitespace(t[|t| - 1]))
  {
    if input != "" {
      var pieces := Split(input, ',');
      var tags := ParseTags(input);
      forall i | 0 <= i < |tags|
        ensures ',' !in tags[i]
      {
        TrimAvoids(pieces[i], ',');
      }
    }
  }

  /** A saved entry goes to the front of the list. */
  function AddEntry(entries: seq<Entry>, e: Entry): (r: seq<Entry>)
    ensures |r| == |entries| + 1 && r[0] == e && r[1..] == entries
  {
    [e] + entries
  }

  /** Deleting removes every entry with the id and keeps the rest in order. */
  function DeleteEntry(entries: seq<Entry>, id: string): (r: seq<Entry>)
    ensures |r| <= |entries|
    ensures forall e :: e in r <==> e in entries && e.id != id
  {
    if |entries| == 0 then []
    else if entries[0].id != id then [entries[0]] + DeleteEntry(entries[1..], id)
    else DeleteEntry(entries[1..], id)
  }

  /** Deleting an entry just added with a fresh id gives back the list as
      it was. */
  lemma {:induction false} DeleteUndoesAdd(entries: seq<Entry>, e: Entry)
    requires forall i :: 0 <= i < |entries| ==> entries[i].id != e.id
    ensures DeleteEntry(AddEntry(entries, e), e.id) == entries
  {
    DeleteNothing(entries, e.id);
    assert AddEntry(entries, e)[1..] == entries;
  }

  /** Deleting distributes over concatenation, so the kept entries stay in
      their order and keep their multiplicity. */
  lemma {:induction false} DeleteAppend(a: seq<Entry>, b: seq<Entry>, id: string)
    ensures DeleteEntry(a + b, id) == DeleteEntry(a, id) + DeleteEntry(b, id)
  {
    if |a| == 0 {
      assert a + b == b;
    } else {
      assert (a + b)[0] == a[0];
      assert (a + b)[1..] == a[1..] + b;
      DeleteAppend(a[1..], b, id);
    }
  }

  /** One entry is dropped exactly when it has the id. */
  lemma DeleteOne(e: Entry, id: string)
    ensures DeleteEntry([e], id) == if e.id == id then [] else [e]
  {
    assert [e][1..] == [];
  }

  /** Deleting an id no entry has changes nothing. */
  lemma {:induction false} DeleteNothing(entries: seq<Entry>, id: string)
    requires forall i :: 0 <= i < |entries| ==> entries[i].id != id
    ensures DeleteEntry(entries, id) == entries
  {
    if |entries| > 0 {
      DeleteNothing(entries[1..], id);
    }
  }

  // ---------------------------------------------------------------------
  // Display

  const DescriptionLimit := 150

  /** The description as listed: cut to 150 characters plus "..." when it
      is longer, otherwise unchanged. */
  function ShortDescription(d: string): (s: string)
    ensures |d| <= DescriptionLimit ==> s == d
    ensures |d| > DescriptionLimit ==> |s| == DescriptionLimit + 3 && s[..DescriptionLimit] == d[..DescriptionLimit]
    ensures |s| <= DescriptionLimit + 3
  {
    if |d| > DescriptionLimit then d[..DescriptionLimit] + "..." else d
  }

  /** The tag chips: at most two tags, then "+N more" for the rest. */
  function TagChips(tags: seq<string>): (chips: seq<string>)
    ensures |tags| <= 2 ==> chips == seq(|tags|, i requires 0 <= i < |tags| => "#" + tags[i])
    ensures |tags| > 2 ==> |chips| == 3 && chips[2] == "+" + IntToString(|tags| - 2) + " more"
    ensures forall i :: 0 <= i < |chips| && i < 2 && i < |tags| ==> chips[i] == "#" + tags[i]
  {
    var shown := seq(if |tags| < 2 then |tags| else 2, i requires 0 <= i < |tags| && i < 2 => "#" + tags[i]);
    if |tags| > 2 then shown + ["+" + IntToString(|tags| - 2) + " more"] else shown
  }

  /** The "+N more" chip counts exactly the hidden tags. */
  lemma TagChipsCountHidden(tags: seq<string>)
    requires |tags| > 2
    ensures var chips := TagChips(tags);
      ParseInt(chips[2][1..|chips[2]| - 5]) == |tags| - 2
  {
    var n := IntToString(|tags| - 2);
    var c := "+" + n + " more";
    assert c[1..|c| - 5] == n;
    ParseIntToString(|tags| - 2);
  }

  // ---------------------------------------------------------------------
  // Date options

  predicate StrictlyDescending(xs: seq<string>) {
    forall i, j :: 0 <= i < j < |xs| ==> Less(xs[j], xs[i])
  }

  /** Puts `d` into a strictly descending list unless it is already there. */
  function InsertDescending(xs: seq<string>, d: string): (r: seq<string>)
    requires StrictlyDescending(xs)
    ensures StrictlyDescending(r)
    ensures forall x :: x in r <==> x in xs || x == d
  {
    if |xs| == 0 then [d]
    else if xs[0] == d then xs
    else if Less(xs[0], d) then
      assert forall j :: 0 <= j < |xs| ==> Less(xs[j], d) by {
        forall j | 0 <= j < |xs|
          ensures Less(xs[j], d)
        {
          if j > 0 {
            LessTransitive(xs[j], xs[0], d);
          }
        }
      }
      [d] + xs
    else
      LessTotal(xs[0], d);
      var rest := InsertDescending(xs[1..], d);
      assert forall x :: x in rest ==> Less(x, xs[0]) by {
        forall x | x in rest
          ensures Less(x, xs[0])
        {
          if x != d {
            var j :| 0 <= j < |xs[1..]| && xs[1..][j] == x;
            assert xs[j + 1] == x;
          }
        }
      }
      var r := [xs[0]] + rest;
      assert forall i, j :: 0 <= i < j < |r| ==> Less(r[j], r[i]) by {
        forall i, j | 0 <= i < j < |r|
          ensures Less(r[j], r[i])
        {
          if i == 0 {
            assert r[j] == rest[j - 1];
            assert r[j] in rest;
          } else {
            assert r[i] == rest[i - 1] && r[j] == rest[j - 1];
          }
        }
      }
      r
  }

  /** `Array.from(new Set(dates)).sort().reverse()`: each date once, newest
      first (ISO dates sort as text). */
  function DateOptions(dates: seq<string>): (opts: seq<string>)
    ensures StrictlyDescending(opts)
    ensures forall x :: x in opts <==> x in dates
  {
    if |dates| == 0 then [] else InsertDescending(DateOptions(dates[..|dates| - 1]), dates[|dates| - 1])
  }

  /** A strictly descending list has no repeats. */
  lemma DescendingIsDistinct(xs: seq<string>)
    requires StrictlyDescending(xs)
    ensures forall i, j :: 0 <= i < j < |xs| ==> xs[i] != xs[j]
  {
    forall i, j | 0 <= i < j < |xs|
      ensures xs[i] != xs[j]
    {
      if xs[i] == xs[j] {
        LessIrreflexive(xs[i]);
      }
    }
  }

  /** The options are determined by the set of dates alone: two strictly
      descending lists with the same elements are equal. */
  lemma HeadIsGreatest(xs: seq<string>, x: string)
    requires StrictlyDescending(xs) && x in xs
    ensures x == xs[0] || Less(x, xs[0])
  {
    var j :| 0 <= j < |xs| && xs[j] == x;
    if j > 0 {
      assert Less(xs[j], xs[0]);
    }
  }

  lemma {:induction false} DescendingUnique(xs: seq<string>, ys: seq<string>)
    requires StrictlyDescending(xs) && StrictlyDescending(ys)
    requires forall x :: x in xs <==> x in ys
    ensures xs == ys
    decreases |xs|
  {
    if |xs| > 0 {
      assert xs[0] in ys;
    }
    if |ys| > 0 {
      assert ys[0] in xs;
    }
    if |xs| > 0 {
      HeadIsGreatest(xs, ys[0]);
      HeadIsGreatest(ys, xs[0]);
      if Less(xs[0], ys[0]) {
        LessAsymmetric(xs[0], ys[0]);
      }
      if xs[0] == ys[0] {
        LessIrreflexive(xs[0]);
      }
      assert xs[0] == ys[0];
      DescendingIsDistinct(xs);
      DescendingIsDistinct(ys);
      forall x
        ensures x in xs[1..] <==> x in ys[1..]
      {
        if x in xs[1..] {
          var j :| 0 <= j < |xs[1..]| && xs[1..][j] == x;
          assert xs[j + 1] == x && x != xs[0];
          assert x in xs && x in ys;
          var k :| 0 <= k < |ys| && ys[k] == x;
          assert k != 0 && ys[1..][k - 1] == x;
        }
        if x in ys[1..] {
          var j :| 0 <= j < |ys[1..]| && ys[1..][j] == x;
          assert ys[j + 1] == x && x != ys[0];
          assert x in ys && x in xs;
          var k :| 0 <= k < |xs| && xs[k] == x;
          assert k != 0 && xs[1..][k - 1] == x;
        }
      }
      DescendingUnique(xs[1..], ys[1..]);
      assert xs == [xs[0]] + xs[1..];
      assert ys == [ys[0]] + ys[1..];
    }
  }

  /** Reordering or repeating dates does not change the options. */
  lemma DateOptionsOrderFree(a: seq<string>, b: seq<string>)
    requires forall x :: x in a <==> x in b
    ensures DateOptions(a) == DateOptions(b)
  {
    DescendingUnique(DateOptions(a), DateOptions(b));
  }
}
