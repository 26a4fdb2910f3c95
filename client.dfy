/** The browser-side state of the page's script (serve.py lines 712-719 and 923-1049):
    the results and notes being edited, the list of new requirements, and the sidebar's
    audit entries that `updateSummary` keeps current.  Rendering, the debounced save and
    the export are not modelled. */
module Client {
  import opened Wrappers
  import opened Documents
  import opened Store
  import opened Listing

  /** The characters `String.prototype.trim` removes: ECMAScript's WhiteSpace (tab,
      vertical tab, form feed, zero-width no-break space and the Zs space separators) and
      LineTerminator (line feed, carriage return, U+2028, U+2029). */
  predicate IsJsSpace(c: char) {
    c == '\t' || c == '\n' || c == '\U{0B}' || c == '\U{0C}' || c == '\r' || c == ' ' ||
    c == '\U{A0}' || c == '\U{1680}' || ('\U{2000}' <= c <= '\U{200A}') ||
    c == '\U{2028}' || c == '\U{2029}' || c == '\U{202F}' || c == '\U{205F}' ||
    c == '\U{3000}' || c == '\U{FEFF}'
  }

  predicate IsBlank(s: string) {
    forall i :: 0 <= i < |s| ==> IsJsSpace(s[i])
  }

  function TrimStart(s: string): (r: string)
    ensures |r| <= |s| && r == s[|s| - |r|..]
    ensures forall i :: 0 <= i < |s| - |r| ==> IsJsSpace(s[i])
    ensures r == [] || !IsJsSpace(r[0])
  {
    if s != [] && IsJsSpace(s[0]) then TrimStart(s[1..]) else s
  }

  function TrimEnd(s: string): (r: string)
    ensures |r| <= |s| && r == s[..|r|]
    ensures forall i :: |r| <= i < |s| ==> IsJsSpace(s[i])
    ensures r == [] || !IsJsSpace(r[|r| - 1])
  {
    if s != [] && IsJsSpace(s[|s| - 1]) then TrimEnd(s[..|s| - 1]) else s
  }

  /** `s.trim()`. */
  function Trim(s: string): string {
    TrimEnd(TrimStart(s))
  }

  /** Where the trimmed text starts in `s`. */
  function TrimOffset(s: string): nat
    ensures TrimOffset(s) <= |s|
  {
    |s| - |TrimStart(s)|
  }

  /** `trim` cuts white space, and only white space, off both ends: the result is the
      piece of `s` between two runs of white space, and it neither starts nor ends with
      white space. */
  lemma {:induction false} TrimCutsOnlySpace(s: string)
    ensures TrimOffset(s) + |Trim(s)| <= |s|
    ensures Trim(s) == s[TrimOffset(s)..TrimOffset(s) + |Trim(s)|]
    ensures forall i :: 0 <= i < TrimOffset(s) ==> IsJsSpace(s[i])
    ensures forall i :: TrimOffset(s) + |Trim(s)| <= i < |s| ==> IsJsSpace(s[i])
    ensures Trim(s) != [] ==> !IsJsSpace(Trim(s)[0]) && !IsJsSpace(Trim(s)[|Trim(s)| - 1])
  {
    var t := TrimStart(s);
    var r := TrimEnd(t);
    var lo := |s| - |t|;
    TrimPiece(s, t, r, lo);
    TrimTailIsSpace(s, t, r, lo);
  }

  lemma TrimPiece(s: string, t: string, r: string, lo: nat)
    requires lo <= |s| && t == s[lo..] && |r| <= |t| && r == t[..|r|]
    ensures r == s[lo..lo + |r|]
  {
  }

  lemma TrimTailIsSpace(s: string, t: string, r: string, lo: nat)
    requires lo <= |s| && t == s[lo..] && |r| <= |t|
    requires forall i :: |r| <= i < |t| ==> IsJsSpace(t[i])
    ensures forall i :: lo + |r| <= i < |s| ==> IsJsSpace(s[i])
  {
    forall i | lo + |r| <= i < |s| ensures IsJsSpace(s[i]) {
      assert s[i] == t[i - lo];
    }
  }

  /** The text trims to nothing exactly when it is all white space. */
  lemma {:induction false} TrimEmptyIffBlank(s: string)
    ensures Trim(s) == [] <==> IsBlank(s)
  {
  }

  /** Trimming twice is trimming once. */
  lemma {:induction false} TrimIdempotent(s: string)
    ensures Trim(Trim(s)) == Trim(s)
  {
    var r := Trim(s);
    TrimCutsOnlySpace(s);
    if r != [] {
      assert TrimStart(r) == r;
      assert TrimEnd(r) == r;
    }
  }

  /** `results[id] || null`: a missing key and a stored empty string (which is falsy) both
      read as no result. The map holds own keys only; ids that name members inherited
      from `Object.prototype` are outside the model. */
  function CurrentResult(m: map<string, string>, id: string): Option<string> {
    if id in m && m[id] != "" then Some(m[id]) else None
  }

  /** The choice `cycleCheck` makes: unset, then pass, fail, skip, and unset again; any
      other stored value also goes back to unset. */
  function NextResult(current: Option<string>): Option<string> {
    match current
    case None => Some("pass")
    case Some(v) =>
      if v == "pass" then Some("fail")
      else if v == "fail" then Some("skip")
      else None
  }

  /** The four states form one cycle of length four; anything else leaves it after one step. */
  lemma CycleOfFour(s: Option<string>)
    ensures s == None || s == Some("pass") || s == Some("fail") || s == Some("skip") ==>
      NextResult(NextResult(NextResult(NextResult(s)))) == s &&
      NextResult(s) != s && NextResult(NextResult(s)) != s && NextResult(NextResult(NextResult(s))) != s
    ensures s.Some? && s.value != "pass" && s.value != "fail" ==> NextResult(s) == None
  {
  }

  /** The map after `setResult(id, r)`: `r == null` deletes the key, anything else stores
      it; every other key keeps its value. */
  function Assigned(m: map<string, string>, id: string, r: Option<string>): (m': map<string, string>)
    ensures r.None? ==> id !in m'
    ensures r.Some? ==> id in m' && m'[id] == r.value
    ensures forall k :: k != id ==> (k in m' <==> k in m) && (k in m ==> m'[k] == m[k])
  {
    match r
    case None => m - {id}
    case Some(v) => m[id := v]
  }

  /** The map after `cycleCheck(id)`. */
  function Cycled(m: map<string, string>, id: string): map<string, string> {
    Assigned(m, id, NextResult(CurrentResult(m, id)))
  }

  /** Clicking a story's box four times restores the results, provided the story was unset
      or held one of the three known values. */
  lemma CycledFourTimes(m: map<string, string>, id: string)
    requires id !in m || m[id] == "pass" || m[id] == "fail" || m[id] == "skip"
    ensures Cycled(Cycled(Cycled(Cycled(m, id), id), id), id) == m
  {
    var m4 := Cycled(Cycled(Cycled(Cycled(m, id), id), id), id);
    assert CurrentResult(m, id) == None || CurrentResult(m, id) == Some(m[id]);
    CycleOfFour(CurrentResult(m, id));
    assert m4.Keys == m.Keys;
  }

  /** A stored empty string reads as unset, so four clicks end with the key deleted. */
  lemma CycledEmptyStringIsDropped(m: map<string, string>, id: string)
    requires id in m && m[id] == ""
    ensures Cycled(m, id) == m[id := "pass"]
    ensures id !in Cycled(Cycled(Cycled(Cycled(m, id), id), id), id)
  {
  }

  /** One `setResult` moves the counted total by at most one. */
  lemma AssignedMovesDoneByOne(m: map<string, string>, id: string, r: Option<string>)
    ensures var before := Count(m, "pass") + Count(m, "fail") + Count(m, "skip");
      var after := Count(Assigned(m, id, r), "pass") + Count(Assigned(m, id, r), "fail") + Count(Assigned(m, id, r), "skip");
      before - 1 <= after <= before + 1
  {
    var m' := Assigned(m, id, r);
    CountRemove(m, id, "pass");
    CountRemove(m, id, "fail");
    CountRemove(m, id, "skip");
    assert m' - {id} == m - {id};
    CountRemove(m', id, "pass");
    CountRemove(m', id, "fail");
    CountRemove(m', id, "skip");
  }

  /** `audits.find(a => a.feature === f)`: the first entry for `f`. */
  function FirstIndexOf(audits: seq<Summary>, f: string): (r: Option<nat>)
    ensures r.Some? ==> (r.value < |audits| && audits[r.value].feature == f &&
                         forall j :: 0 <= j < r.value ==> audits[j].feature != f)
    ensures r.None? ==> forall j :: 0 <= j < |audits| ==> audits[j].feature != f
  {
    if audits == [] then None
    else if audits[0].feature == f then Some(0)
    else
      match FirstIndexOf(audits[1..], f)
      case None => None
      case Some(i) => Some(i + 1)
  }

  /** The sidebar entries after `updateSummary`: the first entry of the open audit gets
      the client's counts and `remaining` computed from the checklist's total; with no
      audit open (`currentFeature` is `null`) nothing matches. */
  function Refreshed(audits: seq<Summary>, current: Option<string>, total: nat,
                     results: map<string, string>): seq<Summary>
  {
    match current
    case None => audits
    case Some(f) =>
      match FirstIndexOf(audits, f)
      case None => audits
      case Some(i) =>
        var t := TallyOf(results);
        audits[i := audits[i].(pass := t.pass, fail := t.fail, skip := t.skip,
                                remaining := total - t.pass - t.fail - t.skip)]
  }

  /** `list.splice(index, 1)` with an integer index: a negative index counts from the end
      (and is clamped at 0); an index at or past the end removes nothing. */
  function Spliced(l: seq<string>, index: int): seq<string> {
    var start := if index < 0 then (if |l| + index < 0 then 0 else |l| + index)
                 else (if index > |l| then |l| else index);
    if start < |l| then l[..start] + l[start + 1..] else l
  }

  /** Removing at a position the page renders removes exactly that requirement and keeps
      the others in order. */
  lemma SplicedAt(l: seq<string>, i: nat)
    requires i < |l|
    ensures |Spliced(l, i)| == |l| - 1
    ensures forall k :: 0 <= k < i ==> Spliced(l, i)[k] == l[k]
    ensures forall k :: i <= k < |l| - 1 ==> Spliced(l, i)[k] == l[k + 1]
    ensures multiset(Spliced(l, i)) + multiset{l[i]} == multiset(l)
  {
    assert l == l[..i] + [l[i]] + l[i + 1..];
  }

  /** Removing the requirement just added undoes the addition. */
  lemma SpliceUndoesAppend(l: seq<string>, t: string)
    ensures Spliced(l + [t], |l|) == l
    ensures Spliced(l + [t], -1) == l
  {
    assert (l + [t])[..|l|] == l;
  }

  /** The three saved fields as `selectAudit` takes them from a fetched results document
      (`savedData.results || {}` and so on). */
  function SavedFields(d: Doc): (map<string, string>, map<string, string>, seq<string>) {
    match d
    case RecordDoc(r) => (r.results, r.notes, r.newRequirements)
    case ChecklistDoc(_) => (map[], map[], [])
  }

  /** What the page posts and what it reads back agree: saving the page's three fields
      and fetching the record returns exactly those fields. */
  lemma SaveThenReopen(dir: Dir, f: string, results: map<string, string>, notes: map<string, string>,
                       reqs: seq<string>, now: string)
    ensures var back := GetResults(SaveResults(dir, f, Payload(Some(results), Some(notes), Some(reqs)), now).dir, f);
      back.Loaded? && SavedFields(back.doc) == (results, notes, reqs)
  {
  }

  lemma RetalliedAt(L: seq<Summary>, f: string, t: Tally)
    ensures |Retallied(L, f, t)| == |L|
    ensures forall k :: 0 <= k < |L| ==>
      Retallied(L, f, t)[k] == if L[k].feature == f then WithTally(L[k], t) else L[k]
    decreases |L|
  {
    if L != [] {
      RetalliedAt(L[..|L| - 1], f, t);
    }
  }

  /** With one entry per feature, refreshing the first entry of `f` is retallying every
      entry of `f`. */
  lemma RefreshedIsRetallied(L: seq<Summary>, f: string, total: nat, results: map<string, string>)
    requires forall i, j :: 0 <= i < j < |L| ==> L[i].feature != L[j].feature
    requires forall k :: 0 <= k < |L| && L[k].feature == f ==> L[k].total == total
    ensures Refreshed(L, Some(f), total, results) == Retallied(L, f, TallyOf(results))
  {
    var t := TallyOf(results);
    RetalliedAt(L, f, t);
    var R := Refreshed(L, Some(f), total, results);
    forall k | 0 <= k < |L| ensures R[k] == Retallied(L, f, t)[k] {
      match FirstIndexOf(L, f)
      case None =>
      case Some(i) =>
    }
  }

  /** The client and the server count alike: when the page shows an audit whose checklist
      is the one on disk, the entry `updateSummary` writes is the entry the server would
      list once the page's results were saved. */
  lemma ClientTalliesMatchServer(dir: Dir, names: seq<string>, f: string,
                                 results: map<string, string>, notes: map<string, string>,
                                 reqs: seq<string>, now: string)
    requires forall i, j :: 0 <= i < j < |names| ==> LexLess(names[i], names[j])
    requires AuditFileName(f) in dir && dir[AuditFileName(f)].Parsed?
    ensures Refreshed(ListingSpec(dir, names), Some(f), StoryTotal(SectionsOf(dir[AuditFileName(f)].doc)), results)
        == ListingSpec(SaveResults(dir, f, Payload(Some(results), Some(notes), Some(reqs)), now).dir, names)
  {
    var L := ListingSpec(dir, names);
    SaveThenList(dir, names, f, Payload(Some(results), Some(notes), Some(reqs)), now);
    ListingOrdered(dir, names);
    ListedCounts(dir, names);
    RefreshedIsRetallied(L, f, StoryTotal(SectionsOf(dir[AuditFileName(f)].doc)), results);
  }

  /** The page's state: the sidebar entries, the open audit, its checklist's sections, and
      the results, notes and new requirements being edited. */
  class ResultsView {
    var audits: seq<Summary>
    var currentFeature: Option<string>
    var sections: seq<Section>
    var results: map<string, string>
    var notes: map<string, string>
    var newRequirements: seq<string>

    /** The state when the script starts. */
    constructor ()
      ensures audits == [] && currentFeature == None && sections == []
      ensures results == map[] && notes == map[] && newRequirements == []
    {
      audits := [];
      currentFeature := None;
      sections := [];
      results := map[];
      notes := map[];
      newRequirements := [];
    }

    /** `loadAuditList`: the fetched list, or no entries when the fetch fails. */
    method LoadAuditList(fetched: Option<seq<Summary>>)
      modifies this`audits
      ensures audits == fetched.GetOr([])
    {
      audits := fetched.GetOr([]);
    }

    /** The successful path of `selectAudit`: the audit becomes the open one, with its
      checklist's sections and the saved fields of its results document. */
    method SelectAudit(feature: string, checklist: Checklist, saved: Doc)
      modifies this`currentFeature, this`sections, this`results, this`notes, this`newRequirements
      ensures currentFeature == Some(feature) && sections == checklist.sections
      ensures (results, notes, newRequirements) == SavedFields(saved)
    {
      currentFeature := Some(feature);
      sections := checklist.sections;
      var fields := SavedFields(saved);
      results, notes, newRequirements := fields.0, fields.1, fields.2;
    }

    /** What `doSave` sends: nothing when no audit is open (`!currentFeature` also holds
      for an empty feature string), otherwise the open feature and the three fields. */
    function SaveRequest(): (req: Option<(string, Payload)>)
      reads this
      ensures req.None? <==> currentFeature.None? || currentFeature.value == ""
      ensures req.Some? ==> (req.value.0 == currentFeature.value &&
                             req.value.1 == Payload(Some(results), Some(notes), Some(newRequirements)))
    {
      match currentFeature
      case None => None
      case Some(f) => if f == "" then None else Some((f, Payload(Some(results), Some(notes), Some(newRequirements))))
    }

    /** The `find` in `updateSummary`. */
    method FindAudit(f: string) returns (idx: Option<nat>)
      ensures idx == FirstIndexOf(audits, f)
    {
      var i := 0;
      while i < |audits|
        invariant 0 <= i <= |audits|
        invariant forall j :: 0 <= j < i ==> audits[j].feature != f
      {
        if audits[i].feature == f {
          return Some(i);
        }
        i := i + 1;
      }
      return None;
    }

    /** `updateSummary`: recount the results and write the counts into the open audit's
      sidebar entry. */
    method UpdateSummary()
      modifies this`audits
      ensures audits == Refreshed(old(audits), currentFeature, StoryTotal(sections), results)
    {
      var total := StoryTotal(sections);
      var t := TallyOf(results);
      if currentFeature.Some? {
        var idx := FindAudit(currentFeature.value);
        if idx.Some? {
          var i := idx.value;
          audits := audits[i := audits[i].(pass := t.pass, fail := t.fail, skip := t.skip,
                                            remaining := total - t.pass - t.fail - t.skip)];
        }
      }
    }

    /** `setResult(id, r)`: store or delete one result, then refresh the summary. */
    method SetResult(id: string, r: Option<string>)
      modifies this`results, this`audits
      ensures results == Assigned(old(results), id, r)
      ensures audits == Refreshed(old(audits), currentFeature, StoryTotal(sections), results)
    {
      match r {
        case None => results := results - {id};
        case Some(v) => results := results[id := v];
      }
      UpdateSummary();
    }

    /** `cycleCheck(id)`: move the story's result one step along the cycle. */
    method CycleCheck(id: string)
      modifies this`results, this`audits
      ensures results == Cycled(old(results), id)
      ensures audits == Refreshed(old(audits), currentFeature, StoryTotal(sections), results)
    {
      var current := CurrentResult(results, id);
      SetResult(id, NextResult(current));
    }

    /** `onNoteChange(id, value)`: keep the note as typed unless it is blank, in which case
      drop it. */
    method OnNoteChange(id: string, value: string)
      modifies this`notes
      ensures IsBlank(value) ==> notes == old(notes) - {id}
      ensures !IsBlank(value) ==> notes == old(notes)[id := value]
    {
      TrimEmptyIffBlank(value);
      if Trim(value) != [] {
        notes := notes[id := value];
      } else {
        notes := notes - {id};
      }
    }

    /** `addNewRequirement`: append the trimmed input, or do nothing when it is blank. */
    method AddNewRequirement(input: string)
      modifies this`newRequirements
      ensures IsBlank(input) ==> newRequirements == old(newRequirements)
      ensures !IsBlank(input) ==> newRequirements == old(newRequirements) + [Trim(input)]
    {
      TrimEmptyIffBlank(input);
      var text := Trim(input);
      if text == [] {
        return;
      }
      newRequirements := newRequirements + [text];
    }

    /** `removeNewRequirement(index)`. */
    method RemoveNewRequirement(index: int)
      modifies this`newRequirements
      ensures newRequirements == Spliced(old(newRequirements), index)
    {
      newRequirements := Spliced(newRequirements, index);
    }
  }
}
