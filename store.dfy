/** The audits directory as a store: file names derived from feature slugs, reading a
    checklist, reading the results record (with a default when there is none) and saving
    a results record by overwriting it whole (serve.py lines 36-41 and 77-103). */
module Store {
  import opened Wrappers
  import opened Documents

  /** The directory: file name to file.  The server never deletes a file. */
  type Dir = map<string, File>

  const AuditPrefix: string := "audit-"
  const ResultsPrefix: string := "results-"
  const JsonSuffix: string := ".json"

  function AuditFileName(feature: string): string {
    AuditPrefix + feature + JsonSuffix
  }

  function ResultsFileName(feature: string): string {
    ResultsPrefix + feature + JsonSuffix
  }

  /** `s.startswith(p)`. */
  predicate StartsWith(s: string, p: string) {
    |p| <= |s| && s[..|p|] == p
  }

  /** `s.endswith(q)`. */
  predicate EndsWith(s: string, q: string) {
    |q| <= |s| && s[|s| - |q|..] == q
  }

  /** Python's `s[lo:hi]` for `0 <= lo <= |s|` and `0 <= hi <= |s|`: empty when `hi <= lo`. */
  function PySlice(s: string, lo: nat, hi: nat): string
    requires lo <= |s| && hi <= |s|
  {
    if hi <= lo then [] else s[lo..hi]
  }

  /** The feature that `list_audits` derives from a directory entry: names that do not start
      with `audit-` or do not end with `.json` are skipped; otherwise the feature is
      `fname[len("audit-"):-len(".json")]`. */
  function FeatureOf(fname: string): Option<string> {
    if !StartsWith(fname, AuditPrefix) || !EndsWith(fname, JsonSuffix) then None
    else Some(PySlice(fname, |AuditPrefix|, |fname| - |JsonSuffix|))
  }

  /** The prefix and the suffix cannot overlap, so an accepted name is at least eleven
      characters long and is exactly `audit-` + feature + `.json`; conversely every such
      name is accepted with that feature. */
  lemma FeatureOfIff(fname: string, feature: string)
    ensures FeatureOf(fname) == Some(feature) <==> fname == AuditFileName(feature)
  {
    if StartsWith(fname, AuditPrefix) && EndsWith(fname, JsonSuffix) {
      var n := |fname|;
      assert fname[5] == '-';
      assert fname[n - 5] == '.';
      assert n >= 11;
      assert fname == fname[..6] + fname[6..n - 5] + fname[n - 5..];
    }
    var a := AuditFileName(feature);
    assert a[..6] == AuditPrefix;
    assert a[|a| - 5..] == JsonSuffix;
    assert a[6..|a| - 5] == feature;
  }

  /** Distinct features have distinct results files. */
  lemma ResultsFileNameInjective(f: string, g: string)
    ensures ResultsFileName(f) == ResultsFileName(g) <==> f == g
  {
    if ResultsFileName(f) == ResultsFileName(g) {
      var a, b := ResultsFileName(f), ResultsFileName(g);
      assert a[8..|a| - 5] == f;
      assert b[8..|b| - 5] == g;
    }
  }

  /** Results files and checklist files never share a name, and a results file is never
      taken for an audit by the listing. */
  lemma ResultsFileIsNoAudit(f: string, g: string)
    ensures ResultsFileName(f) != AuditFileName(g)
    ensures FeatureOf(ResultsFileName(f)) == None
  {
    assert ResultsFileName(f)[0] == 'r';
    assert AuditFileName(g)[0] == 'a';
    var r := ResultsFileName(f);
    assert !StartsWith(r, AuditPrefix);
  }

  /** What `get_checklist` can end in. */
  datatype Fetch = Absent | ParseFault | Loaded(doc: Doc)

  /** `get_checklist`: `None` when the file does not exist; `json.load` raises (a fault the
      handler does not catch) when it does not parse; otherwise the parsed document. */
  function GetChecklist(dir: Dir, feature: string): (r: Fetch)
    ensures r == Absent <==> AuditFileName(feature) !in dir
    ensures r == ParseFault <==> AuditFileName(feature) in dir && dir[AuditFileName(feature)] == Unparsable
    ensures r.Loaded? ==> dir[AuditFileName(feature)] == Parsed(r.doc)
  {
    var name := AuditFileName(feature);
    if name !in dir then Absent
    else match dir[name]
      case Unparsable => ParseFault
      case Parsed(d) => Loaded(d)
  }

  /** The record returned for a feature that has never been saved. */
  function DefaultRecord(feature: string): Record {
    Record(feature, None, map[], map[], [])
  }

  /** `get_results`: the stored document as it is, or the default record when there is no
      results file.  It never reports "absent". */
  function GetResults(dir: Dir, feature: string): (r: Fetch)
    ensures r != Absent
    ensures ResultsFileName(feature) !in dir ==>
      r.Loaded? && r.doc.RecordDoc? && r.doc.record.feature == feature &&
      r.doc.record.updatedAt == None && r.doc.record.results == map[] &&
      r.doc.record.notes == map[] && r.doc.record.newRequirements == []
    ensures ResultsFileName(feature) in dir ==>
      (r == ParseFault <==> dir[ResultsFileName(feature)] == Unparsable)
    ensures ResultsFileName(feature) in dir && dir[ResultsFileName(feature)].Parsed? ==>
      r == Loaded(dir[ResultsFileName(feature)].doc)
  {
    var name := ResultsFileName(feature);
    if name !in dir then Loaded(RecordDoc(DefaultRecord(feature)))
    else match dir[name]
      case Unparsable => ParseFault
      case Parsed(d) => Loaded(d)
  }

  /** The request body of a save: each of the three keys may be missing. */
  datatype Payload = Payload(
    results: Option<map<string, string>>,
    notes: Option<map<string, string>>,
    newRequirements: Option<seq<string>>)

  datatype SaveReply = SaveReply(status: string, updatedAt: string)

  datatype Saved = Saved(dir: Dir, reply: SaveReply)

  /** The record `save_results` writes: the payload's three fields, each defaulted when
      missing, stamped with `now` (the clock is a parameter). */
  function SavedRecord(feature: string, payload: Payload, now: string): Record {
    Record(feature, Some(now), payload.results.GetOr(map[]), payload.notes.GetOr(map[]),
           payload.newRequirements.GetOr([]))
  }

  /** `save_results`: replaces the results file whole, never merging with what was there,
      and answers `saved` with the timestamp it stored; a following `get_results` returns
      the saved fields unchanged; no other file changes. */
  function SaveResults(dir: Dir, feature: string, payload: Payload, now: string): (s: Saved)
    ensures s.reply.status == "saved" && s.reply.updatedAt == now
    ensures GetResults(s.dir, feature) == Loaded(RecordDoc(Record(feature, Some(now),
      payload.results.GetOr(map[]), payload.notes.GetOr(map[]), payload.newRequirements.GetOr([]))))
    ensures s.dir.Keys == dir.Keys + {ResultsFileName(feature)}
    ensures forall name :: name in dir && name != ResultsFileName(feature) ==> s.dir[name] == dir[name]
  {
    var record := SavedRecord(feature, payload, now);
    Saved(dir[ResultsFileName(feature) := Parsed(RecordDoc(record))], SaveReply("saved", now))
  }

  /** Saving one feature leaves the results of every other feature as they were. */
  lemma SaveKeepsOtherResults(dir: Dir, f: string, g: string, payload: Payload, now: string)
    requires f != g
    ensures GetResults(SaveResults(dir, f, payload, now).dir, g) == GetResults(dir, g)
  {
    ResultsFileNameInjective(f, g);
  }

  /** Saving never changes what any checklist route returns. */
  lemma SaveKeepsChecklists(dir: Dir, f: string, g: string, payload: Payload, now: string)
    ensures GetChecklist(SaveResults(dir, f, payload, now).dir, g) == GetChecklist(dir, g)
  {
    ResultsFileIsNoAudit(f, g);
  }

  /** Last writer wins: a second save of the same feature hides the first one completely. */
  lemma SaveOverwrites(dir: Dir, f: string, p1: Payload, t1: string, p2: Payload, t2: string)
    ensures SaveResults(SaveResults(dir, f, p1, t1).dir, f, p2, t2) == SaveResults(dir, f, p2, t2)
  {
    var once := SaveResults(dir, f, p2, t2).dir;
    var twice := SaveResults(SaveResults(dir, f, p1, t1).dir, f, p2, t2).dir;
    assert twice == once;
  }
}
