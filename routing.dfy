/** The route decision of `do_GET` and `do_POST` (serve.py lines 106-155): strip trailing
    slashes, match the API routes, reject a bad slug with 400, a missing checklist with 404,
    and otherwise answer from the store.  Response headers and body encoding are not modelled. */
module Routing {
  import opened Wrappers
  import opened Slug
  import opened Documents
  import opened Store
  import opened Listing

  datatype Body =
    | AuditList(audits: seq<Summary>)
    | DocBody(doc: Doc)
    | SaveAck(reply: SaveReply)
    | ErrorBody(error: string)
    | IndexPage
    | ErrorPage

  /** `Dropped`: an exception escaped the handler (a file or a request body that does not
      parse), so no response is written. */
  datatype Response = Respond(status: nat, body: Body) | Dropped

  /** A POST answers and may change the directory. */
  datatype Exchange = Exchange(response: Response, dir: Dir)

  const AuditsPath: string := "/api/audits"
  const FeaturePrefix: string := "/api/audits/"
  const ChecklistTail: string := "/checklist"
  const ResultsTail: string := "/results"

  const InvalidFeature: Response := Respond(400, ErrorBody("Invalid feature"))
  const NotFound: Response := Respond(404, ErrorBody("Not found"))

  /** `path.rstrip("/")`: the longest prefix that does not end in `/`, all of the rest
      being slashes. */
  function StripTrailingSlashes(p: string): (r: string)
    ensures |r| <= |p| && r == p[..|r|]
    ensures r == [] || r[|r| - 1] != '/'
    ensures forall i :: |r| <= i < |p| ==> p[i] == '/'
  {
    if p != [] && p[|p| - 1] == '/' then StripTrailingSlashes(p[..|p| - 1]) else p
  }

  /** Any number of extra trailing slashes makes no difference. */
  lemma {:induction false} StripIgnoresSlashes(p: string, n: nat)
    ensures StripTrailingSlashes(p + Slashes(n)) == StripTrailingSlashes(p)
  {
    if n == 0 {
      assert p + Slashes(0) == p;
    } else {
      var q := p + Slashes(n);
      assert q[..|q| - 1] == p + Slashes(n - 1);
      StripIgnoresSlashes(p, n - 1);
    }
  }

  function Slashes(n: nat): string {
    seq(n, _ => '/')
  }

  /** Where the `[^/]+` of a route stops: at the first `/`, or at the end. */
  function SegmentEnd(s: string): (k: nat)
    ensures k <= |s|
    ensures forall i :: 0 <= i < k ==> s[i] != '/'
    ensures k < |s| ==> s[k] == '/'
  {
    if s == [] || s[0] == '/' then 0 else 1 + SegmentEnd(s[1..])
  }

  /** `re.match(r"^/api/audits/([^/]+)<tail>$", path)`, giving the captured group.  The
      group cannot contain `/`, so it ends at the first one; `$` accepts the end of the
      string or a final newline. */
  function MatchFeatureRoute(path: string, tail: string): Option<string> {
    if !StartsWith(path, FeaturePrefix) then None
    else
      var rest := path[|FeaturePrefix|..];
      var k := SegmentEnd(rest);
      if k >= 1 && (rest[k..] == tail || rest[k..] == tail + "\n") then Some(rest[..k]) else None
  }

  /** The paths a feature route accepts, stated without the scanner. */
  lemma MatchFeatureRouteIff(path: string, tail: string, g: string)
    requires tail != [] && tail[0] == '/'
    ensures MatchFeatureRoute(path, tail) == Some(g) <==>
      g != [] && (forall i :: 0 <= i < |g| ==> g[i] != '/') &&
      (path == FeaturePrefix + g + tail || path == FeaturePrefix + g + tail + "\n")
  {
    if MatchFeatureRoute(path, tail) == Some(g) {
      var rest := path[|FeaturePrefix|..];
      var k := SegmentEnd(rest);
      assert path == FeaturePrefix + rest;
      assert rest == rest[..k] + rest[k..];
    }
    if g != [] && (forall i :: 0 <= i < |g| ==> g[i] != '/') &&
       (path == FeaturePrefix + g + tail || path == FeaturePrefix + g + tail + "\n") {
      var rest := path[|FeaturePrefix|..];
      assert path[..|FeaturePrefix|] == FeaturePrefix;
      assert rest[|g|] == '/';
      assert SegmentEnd(rest) == |g| by {
        SegmentEndAt(rest, |g|);
      }
      assert rest[..|g|] == g;
    }
  }

  lemma SegmentEndAt(s: string, k: nat)
    requires k < |s| && s[k] == '/'
    requires forall i :: 0 <= i < k ==> s[i] != '/'
    ensures SegmentEnd(s) == k
  {
  }

  /** The answer of `do_GET` for a request path (the path component, query removed). */
  function HandleGet(rawPath: string, dir: Dir, names: seq<string>): Response {
    var path := StripTrailingSlashes(rawPath);
    if path == AuditsPath then Respond(200, AuditList(ListingSpec(dir, names)))
    else match MatchFeatureRoute(path, ChecklistTail)
      case Some(f) =>
        if !ValidateFeature(f) then InvalidFeature
        else (match GetChecklist(dir, f)
              case Absent => NotFound
              case ParseFault => Dropped
              case Loaded(d) => Respond(200, DocBody(d)))
      case None =>
        match MatchFeatureRoute(path, ResultsTail)
        case Some(f) =>
          if !ValidateFeature(f) then InvalidFeature
          else (match GetResults(dir, f)
                case Loaded(d) => Respond(200, DocBody(d))
                case _ => Dropped)
        case None =>
          if path == "" || path == "/index.html" then Respond(200, IndexPage)
          else Respond(404, ErrorPage)
  }

  /** The answer of `do_POST` and the directory after it; `body` is `None` when the request
      body is not valid JSON (`json.loads` raises before anything is written). */
  function HandlePost(rawPath: string, dir: Dir, body: Option<Payload>, now: string): Exchange {
    var path := StripTrailingSlashes(rawPath);
    match MatchFeatureRoute(path, ResultsTail)
    case Some(f) =>
      if !ValidateFeature(f) then Exchange(InvalidFeature, dir)
      else (match body
            case None => Exchange(Dropped, dir)
            case Some(payload) =>
              var saved := SaveResults(dir, f, payload, now);
              Exchange(Respond(200, SaveAck(saved.reply)), saved.dir))
    case None => Exchange(Respond(404, ErrorPage), dir)
  }

  /** A feature route with any number of trailing slashes reaches the route matching as
      the bare route, and captures exactly the segment. */
  lemma FeatureRouteMatches(f: string, tail: string, n: nat)
    requires f != [] && forall i :: 0 <= i < |f| ==> f[i] != '/'
    requires tail == ChecklistTail || tail == ResultsTail
    ensures StripTrailingSlashes(FeaturePrefix + f + tail + Slashes(n)) == FeaturePrefix + f + tail
    ensures MatchFeatureRoute(FeaturePrefix + f + tail, tail) == Some(f)
    ensures MatchFeatureRoute(FeaturePrefix + f + tail, if tail == ChecklistTail then ResultsTail else ChecklistTail) == None
    ensures FeaturePrefix + f + tail != AuditsPath
  {
    var p := FeaturePrefix + f + tail;
    StripIgnoresSlashes(p, n);
    assert ChecklistTail[|ChecklistTail| - 1] == 't' && ResultsTail[|ResultsTail| - 1] == 's';
    assert p[|p| - 1] == tail[|tail| - 1];
    MatchFeatureRouteIff(p, tail, f);
    var other := if tail == ChecklistTail then ResultsTail else ChecklistTail;
    if g :| MatchFeatureRoute(p, other) == Some(g) {
      MatchFeatureRouteIff(p, other, g);
    }
  }

  /** Checklist route: a bad slug is refused with 400 whatever the directory holds, a
      missing checklist gives 404, a present, parseable one is returned as it is, and one
      that does not parse raises out of the handler. */
  lemma ChecklistRoute(f: string, n: nat, dir: Dir, names: seq<string>)
    requires f != [] && forall i :: 0 <= i < |f| ==> f[i] != '/'
    ensures var r := HandleGet(FeaturePrefix + f + ChecklistTail + Slashes(n), dir, names);
      (!ValidateFeature(f) ==> r == InvalidFeature) &&
      (ValidateFeature(f) && AuditFileName(f) !in dir ==> r == NotFound) &&
      (ValidateFeature(f) && AuditFileName(f) in dir && dir[AuditFileName(f)].Parsed? ==>
        r == Respond(200, DocBody(dir[AuditFileName(f)].doc))) &&
      (ValidateFeature(f) && AuditFileName(f) in dir && dir[AuditFileName(f)].Unparsable? ==> r == Dropped)
  {
    FeatureRouteMatches(f, ChecklistTail, n);
  }

  /** Results route, GET: a bad slug is refused with 400; for a valid slug the answer is
      never 404 (a missing record reads as the default one) and never 400, a stored record
      is returned as it is, and one that does not parse raises out of the handler. */
  lemma ResultsGetRoute(f: string, n: nat, dir: Dir, names: seq<string>)
    requires f != [] && forall i :: 0 <= i < |f| ==> f[i] != '/'
    ensures var r := HandleGet(FeaturePrefix + f + ResultsTail + Slashes(n), dir, names);
      (!ValidateFeature(f) ==> r == InvalidFeature) &&
      (ValidateFeature(f) ==> r == Dropped || (r.Respond? && r.status == 200 && r.body.DocBody?)) &&
      (ValidateFeature(f) && ResultsFileName(f) !in dir ==>
        r == Respond(200, DocBody(RecordDoc(Record(f, None, map[], map[], []))))) &&
      (ValidateFeature(f) && ResultsFileName(f) in dir && dir[ResultsFileName(f)].Parsed? ==>
        r == Respond(200, DocBody(dir[ResultsFileName(f)].doc))) &&
      (ValidateFeature(f) && ResultsFileName(f) in dir && dir[ResultsFileName(f)].Unparsable? ==> r == Dropped)
  {
    FeatureRouteMatches(f, ResultsTail, n);
  }

  /** Results route, POST: a bad slug is refused with 400 and writes nothing; a valid slug
      with a parseable body saves the record and acknowledges with its timestamp. */
  lemma ResultsPostRoute(f: string, n: nat, dir: Dir, payload: Payload, now: string)
    requires f != [] && forall i :: 0 <= i < |f| ==> f[i] != '/'
    ensures var x := HandlePost(FeaturePrefix + f + ResultsTail + Slashes(n), dir, Some(payload), now);
      (!ValidateFeature(f) ==> x == Exchange(InvalidFeature, dir)) &&
      (ValidateFeature(f) ==>
        x.response == Respond(200, SaveAck(SaveReply("saved", now))) &&
        GetResults(x.dir, f) == Loaded(RecordDoc(SavedRecord(f, payload, now))) &&
        x.dir == SaveResults(dir, f, payload, now).dir)
  {
    FeatureRouteMatches(f, ResultsTail, n);
  }

  /** A body that does not parse aborts the POST before anything is written. */
  lemma MalformedBodyWritesNothing(rawPath: string, dir: Dir, now: string)
    ensures HandlePost(rawPath, dir, None, now).dir == dir
  {
  }

  /** Whatever the path, a request whose matched segment is not a valid slug gets the same
      400 answer for every directory: the store is not consulted. */
  lemma InvalidSlugIgnoresStore(rawPath: string, dir1: Dir, names1: seq<string>, dir2: Dir, names2: seq<string>)
    requires var path := StripTrailingSlashes(rawPath);
      path != AuditsPath &&
      ((MatchFeatureRoute(path, ChecklistTail).Some? && !ValidateFeature(MatchFeatureRoute(path, ChecklistTail).value)) ||
       (MatchFeatureRoute(path, ChecklistTail).None? && MatchFeatureRoute(path, ResultsTail).Some? &&
        !ValidateFeature(MatchFeatureRoute(path, ResultsTail).value)))
    ensures HandleGet(rawPath, dir1, names1) == HandleGet(rawPath, dir2, names2) == InvalidFeature
  {
  }

  /** The page itself is served at `/` (and at the empty path), and at `/index.html`. */
  lemma IndexRoutes(dir: Dir, names: seq<string>, n: nat)
    ensures HandleGet(Slashes(n), dir, names) == Respond(200, IndexPage)
    ensures HandleGet("/index.html", dir, names) == Respond(200, IndexPage)
  {
    StripIgnoresSlashes([], n);
    assert [] + Slashes(n) == Slashes(n);
    assert !StartsWith([], FeaturePrefix);
    var p := "/index.html";
    assert StripTrailingSlashes(p) == p;
    assert !StartsWith(p, FeaturePrefix) by {
      assert p[1] != FeaturePrefix[1];
    }
  }

  /** A file name built from a slug that passed the guard stays inside the audits
      directory: it has no `/` and its only `.` is the one of `.json`. */
  lemma GuardedNamesStayInDirectory(f: string)
    requires ValidateFeature(f)
    ensures forall i :: 0 <= i < |AuditFileName(f)| ==> AuditFileName(f)[i] != '/'
    ensures forall i :: 0 <= i < |ResultsFileName(f)| ==> ResultsFileName(f)[i] != '/'
    ensures forall i :: 0 <= i < |AuditFileName(f)| - 5 ==> AuditFileName(f)[i] != '.'
    ensures forall i :: 0 <= i < |ResultsFileName(f)| - 5 ==> ResultsFileName(f)[i] != '.'
  {
    ValidSlugIsFileSafe(f);
    var a, r := AuditFileName(f), ResultsFileName(f);
    forall i | 0 <= i < |a| ensures a[i] != '/' && (i < |a| - 5 ==> a[i] != '.') {
      if 6 <= i < 6 + |f| {
        assert a[i] == f[i - 6];
      }
    }
    forall i | 0 <= i < |r| ensures r[i] != '/' && (i < |r| - 5 ==> r[i] != '.') {
      if 8 <= i < 8 + |f| {
        assert r[i] == f[i - 8];
      }
    }
  }
}
