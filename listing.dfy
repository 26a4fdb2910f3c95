/** `list_audits` (serve.py lines 36-74): walk the sorted directory listing, keep the
    `audit-<feature>.json` files that parse, add up their stories, tally the feature's
    results file and derive `remaining`. */
module Listing {
  import opened Wrappers
  import opened Documents
  import opened Store

  /** One entry of `GET /api/audits`.  `title` is the checklist's `feature` (or the slug)
      with every `-` turned into a space; Python's `.title()` casing is not applied. */
  datatype Summary = Summary(
    feature: string,
    title: string,
    date: Option<string>,
    total: nat,
    pass: nat,
    fail: nat,
    skip: nat,
    remaining: int)

  datatype Tally = Tally(pass: nat, fail: nat, skip: nat)

  /** The exact-match counting rule applied to one results map. */
  function TallyOf(m: map<string, string>): Tally {
    Tally(Count(m, "pass"), Count(m, "fail"), Count(m, "skip"))
  }

  /** The tally one results file contributes: nothing when the file is missing or does not
      parse (the exception is swallowed), otherwise the counts of its `results`. */
  function TallyOfFile(file: File): Tally {
    match file
    case Unparsable => Tally(0, 0, 0)
    case Parsed(d) => TallyOf(ResultsOf(d))
  }

  function ResultsTally(dir: Dir, feature: string): Tally {
    var name := ResultsFileName(feature);
    if name in dir then TallyOfFile(dir[name]) else Tally(0, 0, 0)
  }

  /** `s.replace("-", " ")`. */
  function DashesToSpaces(s: string): string {
    seq(|s|, i requires 0 <= i < |s| => if s[i] == '-' then ' ' else s[i])
  }

  function MakeSummary(feature: string, checklist: Doc, t: Tally): Summary {
    var total := StoryTotal(SectionsOf(checklist));
    Summary(feature, DashesToSpaces(FeatureField(checklist).GetOr(feature)), DateField(checklist),
            total, t.pass, t.fail, t.skip, total - t.pass - t.fail - t.skip)
  }

  /** What one directory entry contributes to the listing: nothing unless it is an
      `audit-<feature>.json` file that parses; then the summary built from it and from
      `results-<feature>.json`.  The four numbers always add up to the total. */
  function EntryOf(dir: Dir, fname: string): (r: Option<Summary>)
    ensures r.Some? ==>
      fname == AuditFileName(r.value.feature) && fname in dir && dir[fname].Parsed? &&
      r.value.total == StoryTotal(SectionsOf(dir[fname].doc)) &&
      Tally(r.value.pass, r.value.fail, r.value.skip) == ResultsTally(dir, r.value.feature) &&
      r.value.pass + r.value.fail + r.value.skip + r.value.remaining == r.value.total
    ensures r.None? <==> FeatureOf(fname).None? || fname !in dir || dir[fname].Unparsable?
  {
    match FeatureOf(fname)
    case None => None
    case Some(feature) =>
      FeatureOfIff(fname, feature);
      if fname !in dir then None
      else match dir[fname]
        case Unparsable => None
        case Parsed(d) => Some(MakeSummary(feature, d, ResultsTally(dir, feature)))
  }

  function EntrySeq(dir: Dir, fname: string): seq<Summary> {
    match EntryOf(dir, fname)
    case None => []
    case Some(e) => [e]
  }

  /** The listing for the names in the order given. */
  function ListingSpec(dir: Dir, names: seq<string>): seq<Summary>
    decreases |names|
  {
    if names == [] then []
    else ListingSpec(dir, names[..|names| - 1]) + EntrySeq(dir, names[|names| - 1])
  }

  /** Python's `<` on `str`: lexicographic by code point. */
  predicate LexLess(a: string, b: string) {
    if a == [] then b != []
    else if b == [] then false
    else if a[0] != b[0] then a[0] < b[0]
    else LexLess(a[1..], b[1..])
  }

  /** `sorted(os.listdir(DIR))`: every name of the directory, once, in increasing order. */
  predicate IsSortedListing(dir: Dir, names: seq<string>) {
    (forall i, j :: 0 <= i < j < |names| ==> LexLess(names[i], names[j])) &&
    (forall i :: 0 <= i < |names| ==> names[i] in dir) &&
    (forall n :: n in dir ==> n in names)
  }

  /** The inner loop of `list_audits`: one pass over the results, bumping a counter for
      each value that is exactly "pass", "fail" or "skip".  The model visits the keys in an
      unspecified order; the counts do not depend on it. */
  method TallyResults(m: map<string, string>) returns (t: Tally)
    ensures t == TallyOf(m)
  {
    var pass, fail, skip := 0, 0, 0;
    var todo := m.Keys;
    assert m - todo == map[];
    CountEmpty("pass");
    CountEmpty("fail");
    CountEmpty("skip");
    while todo != {}
      invariant todo <= m.Keys
      invariant pass == Count(m - todo, "pass")
      invariant fail == Count(m - todo, "fail")
      invariant skip == Count(m - todo, "skip")
      decreases |todo|
    {
      var k :| k in todo;
      var v := m[k];
      ghost var done := m - todo;
      assert m - (todo - {k}) == done[k := v];
      CountAddFresh(done, k, v, "pass");
      CountAddFresh(done, k, v, "fail");
      CountAddFresh(done, k, v, "skip");
      if v == "pass" {
        pass := pass + 1;
      } else if v == "fail" {
        fail := fail + 1;
      } else if v == "skip" {
        skip := skip + 1;
      }
      todo := todo - {k};
    }
    assert m - todo == m;
    t := Tally(pass, fail, skip);
  }

  /** `list_audits`. */
  method ListAudits(dir: Dir, names: seq<string>) returns (audits: seq<Summary>)
    requires IsSortedListing(dir, names)
    ensures audits == ListingSpec(dir, names)
  {
    audits := [];
    var i := 0;
    while i < |names|
      invariant 0 <= i <= |names|
      invariant audits == ListingSpec(dir, names[..i])
    {
      var fname := names[i];
      assert names[..i + 1][..i] == names[..i];
      var feature := FeatureOf(fname);
      if feature.Some? {
        var file := dir[fname];
        if file.Parsed? {
          var checklist := file.doc;
          var total := StoryTotal(SectionsOf(checklist));
          var tally := Tally(0, 0, 0);
          var resultsName := ResultsFileName(feature.value);
          if resultsName in dir {
            var resultsFile := dir[resultsName];
            if resultsFile.Parsed? {
              tally := TallyResults(ResultsOf(resultsFile.doc));
            }
          }
          audits := audits + [Summary(feature.value,
                                      DashesToSpaces(FeatureField(checklist).GetOr(feature.value)),
                                      DateField(checklist), total, tally.pass, tally.fail, tally.skip,
                                      total - tally.pass - tally.fail - tally.skip)];
        }
      }
      i := i + 1;
    }
    assert names[..i] == names;
  }

  /** An audit is listed exactly when its checklist file is in the listing and parses;
      a checklist that fails to parse is left out without stopping the walk. */
  lemma {:induction false} ListedIff(dir: Dir, names: seq<string>, f: string)
    ensures (exists i :: 0 <= i < |ListingSpec(dir, names)| && ListingSpec(dir, names)[i].feature == f)
        <==> AuditFileName(f) in names && AuditFileName(f) in dir && dir[AuditFileName(f)].Parsed?
  {
    if names != [] {
      var init, last := names[..|names| - 1], names[|names| - 1];
      assert names == init + [last];
      assert AuditFileName(f) in names <==> AuditFileName(f) in init || AuditFileName(f) == last;
      var L, Li := ListingSpec(dir, names), ListingSpec(dir, init);
      assert L == Li + EntrySeq(dir, last);
      ListedIff(dir, init, f);
      FeatureOfIff(last, f);
      if exists i :: 0 <= i < |L| && L[i].feature == f {
        var i :| 0 <= i < |L| && L[i].feature == f;
        if i < |Li| {
          assert Li[i].feature == f;
          assert exists j :: 0 <= j < |ListingSpec(dir, init)| && ListingSpec(dir, init)[j].feature == f;
          assert AuditFileName(f) in init;
        } else {
          assert EntryOf(dir, last) == Some(L[i]);
          assert AuditFileName(f) == last;
        }
      }
      if AuditFileName(f) in names && AuditFileName(f) in dir && dir[AuditFileName(f)].Parsed? {
        if i :| 0 <= i < |Li| && Li[i].feature == f {
          assert L[i] == Li[i];
        } else {
          assert AuditFileName(f) !in init;
          assert last == AuditFileName(f);
          assert FeatureOf(last) == Some(f);
          assert EntryOf(dir, last) == Some(MakeSummary(f, dir[last].doc, ResultsTally(dir, f)));
          assert L[|Li|].feature == f;
        }
      }
    }
  }

  /** Every listed entry comes from a name of the listing, and is the summary of that name:
      the walk adds nothing of its own. */
  lemma {:induction false} ListedFromNames(dir: Dir, names: seq<string>)
    ensures forall i :: 0 <= i < |ListingSpec(dir, names)| ==>
      AuditFileName(ListingSpec(dir, names)[i].feature) in names &&
      EntryOf(dir, AuditFileName(ListingSpec(dir, names)[i].feature)) == Some(ListingSpec(dir, names)[i])
  {
    if names != [] {
      var init, last := names[..|names| - 1], names[|names| - 1];
      assert names == init + [last];
      var L, Li := ListingSpec(dir, names), ListingSpec(dir, init);
      assert L == Li + EntrySeq(dir, last);
      ListedFromNames(dir, init);
      forall i | 0 <= i < |L|
        ensures AuditFileName(L[i].feature) in names && EntryOf(dir, AuditFileName(L[i].feature)) == Some(L[i])
      {
        if i < |Li| {
          assert L[i] == Li[i];
        } else {
          assert EntryOf(dir, last) == Some(L[i]);
        }
      }
    }
  }

  /** The counting facts of every listed entry: `total` sums the stories of the checklist,
      `pass`/`fail`/`skip` are the exact-match counts of its results file (zero without one),
      `remaining` is what is left of the total, and the three counts never exceed the number
      of stored results. */
  lemma ListedCounts(dir: Dir, names: seq<string>)
    ensures forall i :: 0 <= i < |ListingSpec(dir, names)| ==>
      var e := ListingSpec(dir, names)[i];
      var name := AuditFileName(e.feature);
      name in dir && dir[name].Parsed? &&
      e.total == StoryTotal(SectionsOf(dir[name].doc)) &&
      Tally(e.pass, e.fail, e.skip) == ResultsTally(dir, e.feature) &&
      e.remaining == e.total - e.pass - e.fail - e.skip &&
      e.pass + e.fail + e.skip <= StoredResults(dir, e.feature)
  {
    ListedFromNames(dir, names);
    forall i | 0 <= i < |ListingSpec(dir, names)|
      ensures var e := ListingSpec(dir, names)[i];
        e.pass + e.fail + e.skip <= StoredResults(dir, e.feature)
    {
      var e := ListingSpec(dir, names)[i];
      var r := ResultsFileName(e.feature);
      if r in dir && dir[r].Parsed? {
        TalliesBounded(ResultsOf(dir[r].doc));
      }
    }
  }

  /** How many results a feature's results file holds (none when missing or unparsable). */
  function StoredResults(dir: Dir, feature: string): nat {
    var name := ResultsFileName(feature);
    if name in dir && dir[name].Parsed? then |ResultsOf(dir[name].doc)| else 0
  }

  /** `remaining` is non-negative when every stored result names a story of the checklist;
      nothing in the server enforces that. */
  lemma RemainingNonNegative(dir: Dir, fname: string)
    requires EntryOf(dir, fname).Some?
    requires var r := ResultsFileName(EntryOf(dir, fname).value.feature);
      r in dir && dir[r].Parsed? ==>
        forall k :: k in ResultsOf(dir[r].doc) ==> k in StoryIds(SectionsOf(dir[fname].doc))
    ensures EntryOf(dir, fname).value.remaining >= 0
  {
    var e := EntryOf(dir, fname).value;
    var r := ResultsFileName(e.feature);
    if r in dir && dir[r].Parsed? {
      TalliesWithinTotal(SectionsOf(dir[fname].doc), ResultsOf(dir[r].doc));
    }
  }

  lemma {:induction false} LexLessIrreflexive(a: string)
    ensures !LexLess(a, a)
  {
    if a != [] {
      LexLessIrreflexive(a[1..]);
    }
  }

  /** The listing follows sorted file-name order, so no feature is listed twice. */
  lemma {:induction false} ListingOrdered(dir: Dir, names: seq<string>)
    requires forall i, j :: 0 <= i < j < |names| ==> LexLess(names[i], names[j])
    ensures forall i, j :: 0 <= i < j < |ListingSpec(dir, names)| ==>
      LexLess(AuditFileName(ListingSpec(dir, names)[i].feature), AuditFileName(ListingSpec(dir, names)[j].feature)) &&
      ListingSpec(dir, names)[i].feature != ListingSpec(dir, names)[j].feature
  {
    if names != [] {
      var init, last := names[..|names| - 1], names[|names| - 1];
      assert names == init + [last];
      var L, Li := ListingSpec(dir, names), ListingSpec(dir, init);
      assert L == Li + EntrySeq(dir, last);
      assert forall i, j :: 0 <= i < j < |init| ==> LexLess(init[i], init[j]) by {
        forall i, j | 0 <= i < j < |init| ensures LexLess(init[i], init[j]) {
          assert init[i] == names[i] && init[j] == names[j];
        }
      }
      ListingOrdered(dir, init);
      ListedFromNames(dir, init);
      forall i, j | 0 <= i < j < |L|
        ensures LexLess(AuditFileName(L[i].feature), AuditFileName(L[j].feature)) && L[i].feature != L[j].feature
      {
        assert L[i] == Li[i];
        if j < |Li| {
          assert L[j] == Li[j];
        } else {
          assert EntryOf(dir, last) == Some(L[j]);
          assert AuditFileName(L[j].feature) == last;
          var k :| 0 <= k < |init| && init[k] == AuditFileName(Li[i].feature);
          assert names[k] == init[k];
          assert LexLess(names[k], names[|names| - 1]);
          if L[i].feature == L[j].feature {
            LexLessIrreflexive(last);
          }
        }
      }
    }
  }

  /** The listing with every entry of feature `f` removed. */
  function Without(L: seq<Summary>, f: string): seq<Summary>
    decreases |L|
  {
    if L == [] then []
    else Without(L[..|L| - 1], f) + (if L[|L| - 1].feature == f then [] else [L[|L| - 1]])
  }

  function WithTally(e: Summary, t: Tally): Summary {
    e.(pass := t.pass, fail := t.fail, skip := t.skip, remaining := e.total - t.pass - t.fail - t.skip)
  }

  /** The listing with the counts of feature `f` replaced by `t`. */
  function Retallied(L: seq<Summary>, f: string, t: Tally): seq<Summary>
    decreases |L|
  {
    if L == [] then []
    else Retallied(L[..|L| - 1], f, t) + [if L[|L| - 1].feature == f then WithTally(L[|L| - 1], t) else L[|L| - 1]]
  }

  lemma WithoutAppend(L: seq<Summary>, E: seq<Summary>, f: string)
    requires |E| <= 1
    ensures Without(L + E, f) == Without(L, f) + Without(E, f)
  {
    if E == [] {
      assert L + E == L;
    } else {
      assert (L + E)[..|L + E| - 1] == L;
      assert E[..0] == [];
    }
  }

  lemma RetalliedAppend(L: seq<Summary>, E: seq<Summary>, f: string, t: Tally)
    requires |E| <= 1
    ensures Retallied(L + E, f, t) == Retallied(L, f, t) + Retallied(E, f, t)
  {
    if E == [] {
      assert L + E == L;
    } else {
      assert (L + E)[..|L + E| - 1] == L;
      assert E[..0] == [];
    }
  }

  /** Marking one checklist unparsable changes only that directory entry's contribution. */
  lemma BrokenChecklistEntry(dir: Dir, fname: string, f: string)
    ensures EntrySeq(dir[AuditFileName(f) := Unparsable], fname) == Without(EntrySeq(dir, fname), f)
  {
    var dir' := dir[AuditFileName(f) := Unparsable];
    match FeatureOf(fname)
    case None =>
    case Some(g) =>
      FeatureOfIff(fname, g);
      FeatureOfIff(fname, f);
      ResultsFileIsNoAudit(g, f);
      if g == f {
        assert EntrySeq(dir', fname) == [];
      } else {
        assert ResultsTally(dir', g) == ResultsTally(dir, g);
        assert EntryOf(dir', fname) == EntryOf(dir, fname);
      }
  }

  /** A checklist that fails to parse removes its own audit from the listing and nothing
      else: every other audit is listed as before, with the same counts. */
  lemma {:induction false} BrokenChecklistDropsOnlyItself(dir: Dir, names: seq<string>, f: string)
    ensures ListingSpec(dir[AuditFileName(f) := Unparsable], names) == Without(ListingSpec(dir, names), f)
  {
    if names != [] {
      var init, last := names[..|names| - 1], names[|names| - 1];
      BrokenChecklistDropsOnlyItself(dir, init, f);
      WithoutAppend(ListingSpec(dir, init), EntrySeq(dir, last), f);
      BrokenChecklistEntry(dir, last, f);
    }
  }

  /** Writing a results file changes only the counts of the entry of its feature. */
  lemma ResultsFileEntry(dir: Dir, fname: string, f: string, file: File)
    ensures EntrySeq(dir[ResultsFileName(f) := file], fname) == Retallied(EntrySeq(dir, fname), f, TallyOfFile(file))
  {
    var dir' := dir[ResultsFileName(f) := file];
    var t := TallyOfFile(file);
    match FeatureOf(fname)
    case None =>
    case Some(g) =>
      FeatureOfIff(fname, g);
      ResultsFileIsNoAudit(f, g);
      ResultsFileNameInjective(f, g);
      if fname in dir && dir[fname].Parsed? {
        var e := EntryOf(dir, fname).value;
        assert e.feature == g;
        assert [e][..0] == [];
        if g == f {
          assert EntryOf(dir', fname) == Some(WithTally(e, t));
        } else {
          assert EntryOf(dir', fname) == Some(e);
        }
      }
  }

  /** Replacing a feature's results file changes that audit's counts to the tally of the
      new file and leaves every entry and everything else as it was. */
  lemma {:induction false} ResultsFileRetallies(dir: Dir, names: seq<string>, f: string, file: File)
    ensures ListingSpec(dir[ResultsFileName(f) := file], names)
         == Retallied(ListingSpec(dir, names), f, TallyOfFile(file))
  {
    if names != [] {
      var init, last := names[..|names| - 1], names[|names| - 1];
      ResultsFileRetallies(dir, init, f, file);
      RetalliedAppend(ListingSpec(dir, init), EntrySeq(dir, last), f, TallyOfFile(file));
      ResultsFileEntry(dir, last, f, file);
    }
  }

  /** A results file that fails to parse keeps its audit listed, with zero counts. */
  lemma BrokenResultsCountZero(dir: Dir, names: seq<string>, f: string)
    ensures ListingSpec(dir[ResultsFileName(f) := Unparsable], names)
         == Retallied(ListingSpec(dir, names), f, Tally(0, 0, 0))
  {
    ResultsFileRetallies(dir, names, f, Unparsable);
  }

  /** After a save, the listing shows the saved results' counts for that audit and nothing
      else changes. */
  lemma SaveThenList(dir: Dir, names: seq<string>, f: string, payload: Payload, now: string)
    ensures ListingSpec(SaveResults(dir, f, payload, now).dir, names)
         == Retallied(ListingSpec(dir, names), f, TallyOf(payload.results.GetOr(map[])))
  {
    ResultsFileRetallies(dir, names, f, Parsed(RecordDoc(SavedRecord(f, payload, now))));
  }
}
