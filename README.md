# ralph-audit review server, modelled in Dafny

`serve.py` is a small local web server for reviewing the acceptance checklists that
`ralph-audit` writes. A checklist lives in `audit-<feature>.json`, a list of sections
that each hold user stories. A reviewer's verdicts live beside it in
`results-<feature>.json`: story id to `pass`/`fail`/`skip`, a note per story, a list of
new requirements and a timestamp. The server lists the audits with their counts,
serves a checklist and its saved results, and overwrites the results file on save. A
single-page client, embedded in the same file, keeps the open audit in a handful of
`let` variables and recomputes the sidebar counts on every click.

The model has these modules:

- `Slug`: `validate_feature`, the `^[a-z0-9-]+$` check guarding every file name. The
  check is done with `re.match`, so `$` also matches just before one final newline, and
  the model accepts exactly what that pattern accepts.
- `Documents`: the two JSON document shapes, the story total (the sum of the section
  sizes) and `Count`, the number of results carrying a given value.
- `Store`: the directory is a map from file name to file contents, where a file either
  fails to parse or holds a document. This module covers the file naming,
  `get_checklist`, `get_results` (with its default record) and `save_results`.
- `Listing`: `list_audits`. `ListingSpec` is the specification. `ListAudits` is the
  loop, proved equal to it, and `TallyResults` is the counting loop. The lemmas cover
  membership, ordering, totals and the effect of broken or freshly saved files.
- `Routing`: `do_GET` and `do_POST`. The path is normalised with `rstrip("/")` and then
  matched against the routes in order, with the 400/404/200 answers and the cases where
  the server drops the connection.
- `Client`: the page's state as the class `ResultsView`. Its methods are `loadAuditList`,
  `selectAudit`, `setResult`, `cycleCheck`, `onNoteChange`, `updateSummary`,
  `addNewRequirement` and `removeNewRequirement`, plus the body `doSave` posts. The
  module also defines the value-level functions these methods are specified by:
  JavaScript's `trim`, the four-state cycle and `splice`. It proves that the client's
  counts are the ones the server would list after the save.
- `Scenarios`: concrete listings, including one where `remaining` goes negative.

Parameters stand in for the outside world:
- the directory contents and the `sorted(os.listdir(...))` names are parameters;
- the clock is the `now` string;
- the parsed JSON body is an `Option<Payload>`, where `None` means `json.loads` raised.

A response is a status and a body, or `Dropped` when an exception escapes the handler
and no JSON answer is written.

## Model

| member | source | states |
|---|---|---|
| Slug.SlugRun | serve.py:33 | the longest prefix of `[a-z0-9-]` characters: all its characters are slug characters and the next one is not |
| Slug.ValidateFeatureIff | serve.py:32-33 | a name is accepted iff it is a non-empty run of `[a-z0-9-]`, optionally followed by a single `\n` (the `$` of `re.match`) |
| Slug.ValidSlugIsFileSafe | serve.py:32-33 | an accepted name is non-empty and contains neither `/` nor `.`, so it cannot leave the directory or change the extension |
| Slug.ValidateFeatureWithoutNewline | serve.py:32-33 | for names without a newline, acceptance is exactly "non-empty and all slug characters" |
| Slug.TrailingNewlineAccepted | serve.py:33 | a slug followed by one `\n` is accepted; followed by two it is refused |
| Documents.StoryTotalAppend | serve.py:47 | the story total is additive over concatenated section lists |
| Documents.StoryTotalCountsIds | serve.py:47 | the story total equals the number of story ids in the checklist |
| Documents.CountAddFresh | serve.py:53-59 | adding a fresh key raises the count of its value by one and no other count |
| Documents.CountRemove | serve.py:53-59 | a count splits into the count without one key plus that key's contribution |
| Documents.CountAssign | serve.py:53-59 | assigning a key changes counts only through that key's old and new value |
| Documents.TalliesBounded | serve.py:53-59 | pass + fail + skip never exceeds the number of stored results |
| Documents.TalliesWithinTotal | serve.py:47-71 | when every result key is a story id of the checklist, pass + fail + skip is at most the story total |
| Store.FeatureOfIff | serve.py:39-41 | a file name yields feature `f` iff it is exactly `audit-f.json` |
| Store.ResultsFileNameInjective | serve.py:85-86 | distinct features have distinct results files |
| Store.ResultsFileIsNoAudit | serve.py:39-41 | a results file is never an audit file and is skipped by the listing |
| Store.GetChecklist | serve.py:77-82 | `None` exactly when `audit-f.json` is missing, a parse failure exactly when it does not parse, otherwise its contents |
| Store.GetResults | serve.py:85-90 | never missing: an absent file reads as the empty default record for the feature, a stored file is returned as it is, and a parse failure occurs exactly when the file does not parse |
| Store.SaveResults | serve.py:93-103 | answers `saved` with the stored timestamp; reading back gives the saved fields, defaulted when missing; only the results file is added or replaced |
| Store.SaveKeepsOtherResults | serve.py:93-103 | saving one feature leaves every other feature's results unchanged |
| Store.SaveKeepsChecklists | serve.py:93-103 | saving never changes what any checklist read returns |
| Store.SaveOverwrites | serve.py:93-103 | a save replaces the whole file: two saves in a row equal the second alone |
| Listing.EntryOf | serve.py:39-73 | an entry exists iff the name is an audit file that parses; its total is the story count, its counts are the results file's, and the four numbers add up to the total |
| Listing.TallyResults | serve.py:53-59 | the counting loop returns the numbers of `pass`, `fail` and `skip` values in the results map |
| Listing.ListAudits | serve.py:36-74 | the loop over the sorted names returns the listing specification |
| Listing.ListedIff | serve.py:38-46 | feature `f` is listed iff `audit-f.json` is among the names and parses |
| Listing.ListedFromNames | serve.py:38-73 | every listed entry comes from its own audit file among the names and equals that file's entry |
| Listing.ListedCounts | serve.py:47-71 | every listed entry carries its checklist's story total and its results file's counts |
| Listing.RemainingNonNegative | serve.py:71 | `remaining` is non-negative when every stored result belongs to a story of the checklist |
| Listing.ListingOrdered | serve.py:38 | with sorted names, entries come in strictly increasing order of their audit file names and no feature is listed twice |
| Listing.BrokenChecklistDropsOnlyItself | serve.py:42-46 | an audit file that fails to parse removes only its own entry from the listing |
| Listing.ResultsFileRetallies | serve.py:49-61 | replacing a results file changes only the counts of that feature's entry |
| Listing.BrokenResultsCountZero | serve.py:60-61 | a results file that fails to parse leaves its audit listed with zero counts |
| Listing.SaveThenList | serve.py:93-103 | after a save the listing shows the saved counts for that audit and is otherwise unchanged |
| Scenarios.FreshAuditListing | serve.py:36-74 | a three-story audit with no results file lists as 3 remaining and no verdicts |
| Scenarios.SavedAuditListing | serve.py:93-103 | after saving one pass and one fail, the same audit lists as 1/1/0 with 1 remaining |
| Scenarios.RemainingCanBeNegative | serve.py:71 | results for ids the checklist lacks drive `remaining` below zero |
| Routing.StripTrailingSlashes | serve.py:109 | the result is a prefix of the path with no trailing `/`, and everything cut off was `/` |
| Routing.StripIgnoresSlashes | serve.py:109 | any number of extra trailing slashes does not change the normalised path |
| Routing.MatchFeatureRouteIff | serve.py:115 | the route captures `g` iff `g` is a non-empty segment without `/` and the path is the prefix, `g` and the tail, optionally followed by one `\n` |
| Routing.FeatureRouteMatches | serve.py:109-130 | a checklist or results URL, with any trailing slashes, matches its own route with the feature, not the other route and not the listing |
| Routing.ChecklistRoute | serve.py:115-123 | GET checklist: 400 for a bad slug, 404 when the file is missing, 200 with the checklist when it parses, and no answer (dropped) when it does not parse |
| Routing.ResultsGetRoute | serve.py:125-130 | GET results: 400 for a bad slug; a valid slug never gets a 404 or 400; a missing file gives the default record, a stored one is returned as it is, and one that does not parse gets no answer |
| Routing.ResultsPostRoute | serve.py:146-153 | POST results: 400 and no write for a bad slug; otherwise the record is saved and acknowledged with its timestamp, and the directory afterwards is exactly the one `save_results` leaves |
| Routing.MalformedBodyWritesNothing | serve.py:151-152 | a body that does not parse leaves the directory unchanged |
| Routing.InvalidSlugIgnoresStore | serve.py:115-130 | a bad slug on either feature route gets the same 400 whatever the directory holds |
| Routing.IndexRoutes | serve.py:133-138 | `/` (with any number of slashes) and `/index.html` serve the page |
| Routing.GuardedNamesStayInDirectory | serve.py:77-93 | after validation, both file names contain no `/` and no `.` before the extension |
| Client.TrimStart | serve.py:1040 | drops exactly the leading JavaScript whitespace |
| Client.TrimEnd | serve.py:1040 | drops exactly the trailing JavaScript whitespace |
| Client.TrimCutsOnlySpace | serve.py:960-962 | `trim` returns a contiguous slice of the input with only whitespace cut off on both sides, and no whitespace at its ends |
| Client.TrimEmptyIffBlank | serve.py:960-962 | `trim` gives the empty string iff the input is all whitespace |
| Client.TrimIdempotent | serve.py:1040 | trimming twice is trimming once |
| Client.CycleOfFour | serve.py:923-929 | unset, pass, fail, skip form a cycle of exactly four steps; any other stored value goes to unset after one step |
| Client.Assigned | serve.py:931-936 | `setResult` with `null` deletes the key, otherwise stores the value; every other key is untouched |
| Client.CycledFourTimes | serve.py:923-929 | four clicks on a story restore the results map |
| Client.CycledEmptyStringIsDropped | serve.py:923-929 | an empty-string result (falsy in JavaScript) counts as unset: the next click sets `pass`, and four clicks delete it |
| Client.AssignedMovesDoneByOne | serve.py:931-957 | one `setResult` changes the number of answered stories by at most one |
| Client.FirstIndexOf | serve.py:983 | `find` gives the first entry with the feature, or none when no entry has it |
| Client.SplicedAt | serve.py:1048-1052 | removing an in-range index shifts the later items down by one and loses exactly that item |
| Client.SpliceUndoesAppend | serve.py:1038-1052 | removing the last item, by its index or by `-1`, undoes `addNewRequirement` |
| Client.SaveThenReopen | serve.py:785-789 | what the page posts is what it reads back when the audit is reopened |
| Client.RefreshedIsRetallied | serve.py:968-991 | for a listing with one entry per feature, `updateSummary` retallies that feature's entry |
| Client.ClientTalliesMatchServer | serve.py:968-991 | the sidebar the client computes equals the listing the server returns after saving the page's results |
| Client.ResultsView.constructor | serve.py:714-719 | the page starts with no audits, no open feature and empty results, notes and requirements |
| Client.ResultsView.LoadAuditList | serve.py:733-741 | the sidebar holds the fetched list, or is empty when the fetch fails |
| Client.ResultsView.SelectAudit | serve.py:769-796 | opens the feature with its checklist's sections and the saved results, notes and requirements |
| Client.ResultsView.SaveRequest | serve.py:999-1005 | no request without an open feature (also for an empty name), otherwise the open feature and the three fields |
| Client.ResultsView.FindAudit | serve.py:983 | the search loop returns the first index holding the feature |
| Client.ResultsView.UpdateSummary | serve.py:968-991 | the open audit's first sidebar entry gets the client's counts and `total - done`; nothing else changes |
| Client.ResultsView.SetResult | serve.py:931-957 | assigns or clears one story's result and refreshes the sidebar |
| Client.ResultsView.CycleCheck | serve.py:923-929 | advances one story through the cycle and refreshes the sidebar |
| Client.ResultsView.OnNoteChange | serve.py:959-966 | a blank note deletes the story's note, otherwise the note is stored untrimmed |
| Client.ResultsView.AddNewRequirement | serve.py:1038-1046 | a blank input adds nothing; otherwise the trimmed text is appended |
| Client.ResultsView.RemoveNewRequirement | serve.py:1048-1052 | the list becomes `splice(index, 1)` of the old list, negative and out-of-range indices included |

## Left out

- HTTP plumbing: socket handling, headers, CORS, `Content-Length`, `do_OPTIONS`, `log_message` and the command-line `main` are not modelled; a response is a status and a body.
- `urlparse`: the handlers take the path component directly. The query string and the fragment are not modelled.
- The `$`-before-newline acceptance is modelled as the code behaves, not reported as a defect. `http.server` splits the request line on whitespace, so a request path cannot end in a newline.
- JSON encoding and decoding: a file is either unparsable or a typed document, and a request body is either unparsable or a `Payload`. Documents of the wrong JSON type (a list where an object is expected, a non-string verdict) are not modelled. Verdicts are strings.
- The filesystem: the directory is a map and the sorted listing is the `names` parameter. `Listing.ListAudits` requires it to be the directory's keys in Python string order. `Routing.HandleGet` and the listing lemmas take any `names`, and their statements are about the names given. Read and write errors other than parse failures, and races between requests, are not modelled.
- Listing.MakeSummary: the title is the checklist's `feature` field (or the slug) with dashes turned into spaces; Python's `.title()` capitalisation is not applied.
- Store.SaveResults: the clock is the `now` parameter. Timestamps are opaque strings, so ordering between successive saves is not modelled.
- Listing.TallyResults: counts over the key set and does not follow the dict's insertion order. Counts do not depend on the order.
- The client's rendering is not modelled: DOM updates, `escapeHtml`, `linkifyUrls`, the progress bar's floating-point percentages, `exportResults`, keyboard handling and the debounced save timer.
- Client.ResultsView.SelectAudit: models only the branch where both fetches succeed, given as their parsed results. The `catch` branch (serve.py:790-793) is not modelled. On that path `currentFeature` has already switched (serve.py:770) and `checklist` may already be replaced (serve.py:785). The previous audit's results, notes and requirements stay, so `SaveRequest` would post them under the new feature. A 404 checklist body, which the page would try to render, is not modelled either.
- Client.CurrentResult: `results` and `notes` are plain JavaScript objects, modelled as maps of their own keys only. Story ids that name members inherited from `Object.prototype` (`constructor`, `toString`, `valueOf`, `hasOwnProperty`, `__proto__`, ...) are outside the model. For such an unset id, `results[id] || null` yields the inherited function or object, which is truthy.
- Client.ResultsView.CycleCheck: for an unset id naming an `Object.prototype` member, JavaScript takes the last branch and calls `setResult(id, null)`, so the story never reaches `pass`. The model, which sees no key, sets `pass`.
- Client.Assigned: for the id `__proto__`, `results[id] = result` goes to the prototype setter, which ignores a string and stores nothing, while the model stores the key.
- Client.ResultsView.SetResult: inherits the `__proto__` gap of `Client.Assigned`; JavaScript leaves `results` unchanged for that id.
- Client.ResultsView.OnNoteChange: for the id `__proto__`, `notes[id] = value` stores nothing in JavaScript, while the model stores the note.
- Client: JavaScript strings are UTF-16, while the model's characters are Unicode scalar values. `trim` is modelled over the whitespace set JavaScript defines.
- Client.ResultsView.SaveRequest: describes the request; the `fetch` itself and its failure handling are not modelled.

Listing.EntryOf: the listed `remaining` is `total - pass - fail - skip`, which the code
does not keep non-negative. It is non-negative when the results name only stories of the
checklist (`Listing.RemainingNonNegative`). A stale results file makes it negative
(`Scenarios.RemainingCanBeNegative`). This is modelled as written.
