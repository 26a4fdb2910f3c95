/** Concrete listings: a fresh audit, the same audit after one save, and the
    case where `remaining` goes negative because a stored result names no story. */
module Scenarios {
  import opened Wrappers
  import opened Documents
  import opened Store
  import opened Listing

  function LoginChecklist(): Doc {
    ChecklistDoc(Checklist(Some("login"), None,
      [Section("Sign in", [Story("1", "Valid password", [], "Signed in"),
                           Story("2", "Wrong password", [], "Error shown"),
                           Story("3", "Locked account", [], "Lock message")])]))
  }

  function LoginDir(): Dir {
    map["audit-login.json" := Parsed(LoginChecklist())]
  }

  /** A listing of two names is the two entries in order. */
  lemma ListingOfTwo(dir: Dir, a: string, b: string)
    ensures ListingSpec(dir, [a, b]) == EntrySeq(dir, a) + EntrySeq(dir, b)
  {
    assert [a, b][..1] == [a];
    assert [a][..0] == [];
    assert ListingSpec(dir, [a, b]) == ListingSpec(dir, [a]) + EntrySeq(dir, b);
    assert ListingSpec(dir, [a]) == ListingSpec(dir, []) + EntrySeq(dir, a);
  }

  lemma LoginNames()
    ensures FeatureOf("audit-login.json") == Some("login")
    ensures FeatureOf("results-login.json") == None
    ensures ResultsFileName("login") == "results-login.json"
  {
    assert AuditFileName("login") == "audit-login.json";
    FeatureOfIff("audit-login.json", "login");
    assert ResultsFileName("login") == "results-login.json";
    ResultsFileIsNoAudit("login", "login");
  }

  /** Three stories and no results file: one entry with nothing done yet. */
  lemma FreshAuditListing()
    ensures ListingSpec(LoginDir(), ["audit-login.json"])
         == [Summary("login", "login", None, 3, 0, 0, 0, 3)]
  {
    LoginNames();
    assert ResultsFileName("login") !in LoginDir();
    assert DashesToSpaces("login") == "login";
    assert StoryTotal(SectionsOf(LoginChecklist())) == 3;
    assert ["audit-login.json"][..0] == [];
  }

  /** The directory after saving one pass and one fail for `login`. */
  function SavedLoginDir(now: string): Dir {
    SaveResults(LoginDir(), "login", Payload(Some(map["1" := "pass", "2" := "fail"]), None, None), now).dir
  }

  lemma SavedLoginTally(now: string)
    ensures "audit-login.json" in SavedLoginDir(now)
    ensures SavedLoginDir(now)["audit-login.json"] == Parsed(LoginChecklist())
    ensures ResultsTally(SavedLoginDir(now), "login") == Tally(1, 1, 0)
  {
    var m := map["1" := "pass", "2" := "fail"];
    LoginNames();
    assert KeysWith(m, "pass") == {"1"};
    assert KeysWith(m, "fail") == {"2"};
    assert KeysWith(m, "skip") == {};
    assert SavedLoginDir(now)["results-login.json"]
        == Parsed(RecordDoc(SavedRecord("login", Payload(Some(m), None, None), now)));
  }

  /** The two directory entries after the save: the audit file gives one summary, the
      results file none. */
  lemma SavedLoginEntries(now: string)
    ensures EntrySeq(SavedLoginDir(now), "audit-login.json")
         == [MakeSummary("login", LoginChecklist(), Tally(1, 1, 0))]
    ensures EntrySeq(SavedLoginDir(now), "results-login.json") == []
  {
    LoginNames();
    SavedLoginTally(now);
  }

  lemma LoginSummary()
    ensures MakeSummary("login", LoginChecklist(), Tally(1, 1, 0))
         == Summary("login", "login", None, 3, 1, 1, 0, 1)
  {
    assert DashesToSpaces("login") == "login";
    assert StoryTotal(SectionsOf(LoginChecklist())) == 3;
  }

  /** After saving one pass and one fail, the entry reads pass 1, fail 1, remaining 1. */
  lemma SavedAuditListing(now: string)
    ensures var saved := SaveResults(LoginDir(), "login",
                           Payload(Some(map["1" := "pass", "2" := "fail"]), None, None), now).dir;
      ListingSpec(saved, ["audit-login.json", "results-login.json"])
        == [Summary("login", "login", None, 3, 1, 1, 0, 1)]
  {
    ListingOfTwo(SavedLoginDir(now), "audit-login.json", "results-login.json");
    SavedLoginEntries(now);
    LoginSummary();
  }

  /** A checklist without stories, and one stored "pass" for a story id it does not have. */
  function StraySavedDir(): Dir {
    map["audit-x.json" := Parsed(ChecklistDoc(Checklist(None, None, [])))]
      [ResultsFileName("x") := Parsed(RecordDoc(Record("x", None, map["9" := "pass"], map[], [])))]
  }

  lemma StrayNames()
    ensures FeatureOf("audit-x.json") == Some("x")
    ensures FeatureOf(ResultsFileName("x")) == None
  {
    assert AuditFileName("x") == "audit-x.json";
    FeatureOfIff("audit-x.json", "x");
    ResultsFileIsNoAudit("x", "x");
  }

  /** A stored result whose key is no story id still counts, so `remaining` can drop
      below zero; the server does not check result keys against the checklist. */
  lemma RemainingCanBeNegative()
    ensures ListingSpec(StraySavedDir(), ["audit-x.json", ResultsFileName("x")])
         == [Summary("x", "x", None, 0, 1, 0, 0, -1)]
  {
    var dir := StraySavedDir();
    var m := map["9" := "pass"];
    ListingOfTwo(dir, "audit-x.json", ResultsFileName("x"));
    assert KeysWith(m, "pass") == {"9"};
    assert KeysWith(m, "fail") == {};
    assert KeysWith(m, "skip") == {};
    StrayNames();
    assert ResultsTally(dir, "x") == Tally(1, 0, 0);
    assert DashesToSpaces("x") == "x";
    assert EntrySeq(dir, ResultsFileName("x")) == [];
    assert EntrySeq(dir, "audit-x.json") == [Summary("x", "x", None, 0, 1, 0, 0, -1)];
  }
}
