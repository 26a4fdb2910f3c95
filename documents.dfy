/** The JSON documents the server reads and writes, seen through the keys it uses.
    A checklist file (`audit-<feature>.json`) is read-only input; a results file
    (`results-<feature>.json`) is the one record per feature that a save overwrites. */
module Documents {
  import opened Wrappers

  datatype Story = Story(id: string, title: string, steps: seq<string>, expected: string)

  /** A section whose JSON has no `stories` key is read with `stories == []`,
      as `s.get("stories", [])` does. */
  datatype Section = Section(title: string, stories: seq<Story>)

  datatype Checklist = Checklist(feature: Option<string>, date: Option<string>, sections: seq<Section>)

  /** A results record.  Result values are whatever the client sent; only the exact
      strings "pass", "fail" and "skip" are ever counted. */
  datatype Record = Record(
    feature: string,
    updatedAt: Option<string>,
    results: map<string, string>,
    notes: map<string, string>,
    newRequirements: seq<string>)

  /** One parsed JSON file: either shape can sit under either kind of file name. */
  datatype Doc = ChecklistDoc(checklist: Checklist) | RecordDoc(record: Record)

  /** A file on disk: `json.load` on it either fails or yields a document. */
  datatype File = Unparsable | Parsed(doc: Doc)

  /** `doc.get("sections", [])`. */
  function SectionsOf(d: Doc): seq<Section> {
    match d
    case ChecklistDoc(c) => c.sections
    case RecordDoc(_) => []
  }

  /** `doc.get("results", {})`. */
  function ResultsOf(d: Doc): map<string, string> {
    match d
    case ChecklistDoc(_) => map[]
    case RecordDoc(r) => r.results
  }

  /** `doc.get("feature")`. */
  function FeatureField(d: Doc): Option<string> {
    match d
    case ChecklistDoc(c) => c.feature
    case RecordDoc(r) => Some(r.feature)
  }

  /** `doc.get("date")`. */
  function DateField(d: Doc): Option<string> {
    match d
    case ChecklistDoc(c) => c.date
    case RecordDoc(_) => None
  }

  /** `sum(len(s.get("stories", [])) for s in sections)`, and on the client
      `sections.reduce((s, sec) => s + sec.stories.length, 0)`. */
  function StoryTotal(sections: seq<Section>): nat {
    if sections == [] then 0 else |sections[0].stories| + StoryTotal(sections[1..])
  }

  /** The ids of all stories, section by section. */
  function StoryIds(sections: seq<Section>): seq<string> {
    if sections == [] then [] else IdsOf(sections[0].stories) + StoryIds(sections[1..])
  }

  function IdsOf(stories: seq<Story>): (ids: seq<string>)
    ensures |ids| == |stories|
    ensures forall i :: 0 <= i < |stories| ==> ids[i] == stories[i].id
  {
    if stories == [] then [] else [stories[0].id] + IdsOf(stories[1..])
  }

  /** The total is additive over sections. */
  lemma {:induction false} StoryTotalAppend(a: seq<Section>, b: seq<Section>)
    ensures StoryTotal(a + b) == StoryTotal(a) + StoryTotal(b)
  {
    if a != [] {
      assert (a + b)[1..] == a[1..] + b;
      StoryTotalAppend(a[1..], b);
    } else {
      assert a + b == b;
    }
  }

  /** The total counts every story once: it is the number of story ids. */
  lemma {:induction false} StoryTotalCountsIds(sections: seq<Section>)
    ensures |StoryIds(sections)| == StoryTotal(sections)
  {
    if sections != [] {
      StoryTotalCountsIds(sections[1..]);
    }
  }

  /** The keys of `m` whose value is exactly `v`. */
  function KeysWith(m: map<string, string>, v: string): set<string> {
    set k | k in m && m[k] == v
  }

  /** `Object.values(m).filter(x => x === v).length`, and the number of times the server's
      loop over `m.values()` takes the `v == ...` branch. */
  function Count(m: map<string, string>, v: string): nat {
    |KeysWith(m, v)|
  }

  lemma SubsetCard<T>(a: set<T>, b: set<T>)
    requires a <= b
    ensures |a| <= |b|
  {
    assert b == a + (b - a);
    assert a * (b - a) == {};
  }

  /** Adding a key that was absent raises the count of its value by one and no other. */
  lemma CountAddFresh(m: map<string, string>, k: string, x: string, v: string)
    requires k !in m
    ensures Count(m[k := x], v) == Count(m, v) + (if x == v then 1 else 0)
  {
    if x == v {
      assert KeysWith(m[k := x], v) == KeysWith(m, v) + {k};
    } else {
      assert KeysWith(m[k := x], v) == KeysWith(m, v);
    }
  }

  /** Removing a key lowers the count of its value by one and no other. */
  lemma CountRemove(m: map<string, string>, k: string, v: string)
    ensures Count(m, v) == Count(m - {k}, v) + (if k in m && m[k] == v then 1 else 0)
  {
    if k in m {
      assert m == (m - {k})[k := m[k]];
      CountAddFresh(m - {k}, k, m[k], v);
    } else {
      assert m - {k} == m;
    }
  }

  /** Overwriting a key: the count is that of the map without the key, plus one if the new
      value is the one counted. */
  lemma CountAssign(m: map<string, string>, k: string, x: string, v: string)
    ensures Count(m[k := x], v) == Count(m - {k}, v) + (if x == v then 1 else 0)
  {
    assert m[k := x] == (m - {k})[k := x];
    CountAddFresh(m - {k}, k, x, v);
  }

  lemma CountEmpty(v: string)
    ensures Count(map[], v) == 0
  {
    assert KeysWith(map[], v) == {};
  }

  /** Every entry is counted at most once: pass + fail + skip never exceeds the number of
      results, whatever other values the results hold. */
  lemma TalliesBounded(m: map<string, string>)
    ensures Count(m, "pass") + Count(m, "fail") + Count(m, "skip") <= |m|
  {
    var p, f, s := KeysWith(m, "pass"), KeysWith(m, "fail"), KeysWith(m, "skip");
    assert p * f == {} && (p + f) * s == {};
    assert |p + f| == |p| + |f|;
    assert |p + f + s| == |p + f| + |s|;
    SubsetCard(p + f + s, m.Keys);
  }

  lemma {:induction false} DistinctAtMostLength(s: seq<string>)
    ensures |set x | x in s| <= |s|
  {
    if s != [] {
      DistinctAtMostLength(s[1..]);
      assert (set x | x in s) == {s[0]} + (set x | x in s[1..]);
    }
  }

  /** When every result key names a story of the checklist, the counted results never
      exceed the story total, so `remaining` is non-negative.  The server never checks
      this condition. */
  lemma TalliesWithinTotal(sections: seq<Section>, results: map<string, string>)
    requires forall k :: k in results ==> k in StoryIds(sections)
    ensures Count(results, "pass") + Count(results, "fail") + Count(results, "skip")
      <= StoryTotal(sections)
  {
    TalliesBounded(results);
    SubsetCard(results.Keys, set x | x in StoryIds(sections));
    DistinctAtMostLength(StoryIds(sections));
    StoryTotalCountsIds(sections);
  }
}
