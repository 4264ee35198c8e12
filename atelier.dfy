/** What both deployer variants share: the run configuration, the requests
    and responses of the server's Atelier REST interface, the session's
    default headers, the translation of a local path into a document name,
    the JSON list body built from a list of paths, and the reading of a
    source file into right-stripped lines. */
module Atelier {
  import opened PyStrings

  datatype Option<+T> = None | Some(value: T)

  /** The constructor arguments of `IrisDeployer`. The credentials are kept
      only for completeness: they go to the transport, which is not modelled. */
  datatype Config = Config(
    host: string, port: int, namespace: string, https: int, apiBaseUrl: string,
    user: string, password: string, apiVersion: string, compilationFlags: string,
    sourcePath: string)

  datatype Verb = Get | Put | Post | Delete

  /** A request body: none (GET), a raw string (the JSON list of document
      names sent to compile and delete), or the document `{enc, content}`
      that a PUT serialises. */
  datatype Body = NoBody | Text(text: string) | Document(enc: bool, content: seq<string>)

  /** One HTTP call as issued on the session, with the session headers it
      carried. */
  datatype Request = Request(verb: Verb, url: string, headers: map<string, string>, body: Body)

  /** A response, already parsed: the status code, the compile summary
      (`status.summary`, null or a text), the console lines and the document
      timestamp `ts` that a GET of an existing document returns. */
  datatype Response = Response(status: int, summary: Option<string>, console: seq<string>, ts: string)

  /** The server, as an oracle: its answer to a request may depend on every
      request issued before it on the session. */
  type Server = (seq<Request>, Request) -> Response

  /** The local files: for each path, the lines the file yields when read
      (line terminators still attached). */
  type Disk = string -> seq<string>

  /** What a GET of a document yields to the deployer: its timestamp. */
  datatype Snapshot = Snapshot(ts: string)

  /** The four base URLs built by the constructor. */
  datatype Endpoints = Endpoints(putDoc: string, deleteDocs: string, getDoc: string, compileDocs: string)

  /** The headers the session is created with. */
  const InitialHeaders: map<string, string> := map["Content-Type" := "application/json", "Accept" := "*/*"]

  const IfNoneMatch: string := "If-None-Match"

  /** The separator of `'","'.join(...)`. */
  const ListSeparator: string := "\",\""

  function Protocol(https: int): (p: string)
    ensures p == "http" <==> https == 0
    ensures p == "http" || p == "https"
  {
    if https == 0 then "http" else "https"
  }

  /** `{protocol}://{host}:{port}`: the protocol, `://`, the host and `:`,
      then the port in decimal, which can be read back from the end. */
  function Authority(c: Config): (a: string)
    ensures var head := Protocol(c.https) + "://" + c.host + ":";
            |head| < |a| && a[..|head|] == head && a[|head|..] == Decimal(c.port)
    ensures var p := Decimal(c.port);
            |p| < |a| && a[|a| - |p|..] == p && ParseInt(a[|a| - |p|..]) == c.port
  {
    var p := Decimal(c.port);
    var a := Protocol(c.https) + "://" + c.host + ":" + p;
    DecimalRoundTrip(c.port);
    assert a[|a| - |p|..] == p;
    a
  }

  /** The document name of a local path:
      every occurrence of the source root is removed, then every `/` becomes `.`. */
  function DocId(path: string, sourcePath: string): (id: string)
    ensures '/' !in id
  {
    var stripped := Replace(path, sourcePath, "");
    NoCharAfterReplace(stripped, '/', '.');
    Replace(stripped, "/", ".")
  }

  function DocIds(paths: seq<string>, sourcePath: string): (ids: seq<string>)
    ensures |ids| == |paths|
  {
    seq(|paths|, i requires 0 <= i < |paths| => DocId(paths[i], sourcePath))
  }

  /** The body of a batch call: the paths joined into `["a","b"]`, the two
      replacements being applied to the joined text rather than to each path. */
  function BatchBody(paths: seq<string>, sourcePath: string): (body: string)
    ensures '/' !in body
    ensures |body| >= 4 && body[..2] == "[\"" && body[|body| - 2..] == "\"]"
  {
    var stripped := Replace(Join(paths, ListSeparator), sourcePath, "");
    NoCharAfterReplace(stripped, '/', '.');
    "[\"" + Replace(stripped, "/", ".") + "\"]"
  }

  function GetRequest(e: Endpoints, headers: map<string, string>, name: string): (r: Request) {
    Request(Get, e.getDoc + name, headers, NoBody)
  }

  /** The PUT of a file read from `lines`: `{enc: false, content}` with the
      lines right-stripped. */
  function PutRequest(e: Endpoints, headers: map<string, string>, name: string, lines: seq<string>): (r: Request) {
    Request(Put, e.putDoc + name, headers, Document(false, StrippedLines(lines)))
  }

  function DeleteRequest(e: Endpoints, headers: map<string, string>, docList: string): (r: Request) {
    Request(Delete, e.deleteDocs, headers, Text(docList))
  }

  function StrippedLines(lines: seq<string>): (r: seq<string>)
    ensures |r| == |lines|
  {
    seq(|lines|, i requires 0 <= i < |lines| => RStrip(lines[i]))
  }

  /** The content of a document: each line of the file, right-stripped, in
      order. */
  method StripLines(lines: seq<string>) returns (content: seq<string>)
    ensures content == StrippedLines(lines)
  {
    content := [];
    for i := 0 to |lines|
      invariant |content| == i
      invariant forall j :: 0 <= j < i ==> content[j] == RStrip(lines[j])
    {
      content := content + [RStrip(lines[i])];
    }
  }

  /** The requests of `reqs` with verb `v`, in order. */
  function OfVerb(reqs: seq<Request>, v: Verb): (r: seq<Request>)
    ensures |r| <= |reqs|
    decreases |reqs|
  {
    if reqs == [] then []
    else
      var last := reqs[|reqs| - 1];
      OfVerb(reqs[..|reqs| - 1], v) + (if last.verb == v then [last] else [])
  }

  lemma {:induction false} OfVerbConcat(a: seq<Request>, b: seq<Request>, v: Verb)
    ensures OfVerb(a + b, v) == OfVerb(a, v) + OfVerb(b, v)
    decreases |b|
  {
    if b == [] {
      assert a + b == a;
    } else {
      var n := |b| - 1;
      var tail := if b[n].verb == v then [b[n]] else [];
      assert (a + b)[..|a + b| - 1] == a + b[..n];
      assert (a + b)[|a + b| - 1] == b[n];
      assert OfVerb(a + b, v) == OfVerb(a + b[..n], v) + tail;
      OfVerbConcat(a, b[..n], v);
      assert OfVerb(b, v) == OfVerb(b[..n], v) + tail;
    }
  }

  // ---------------------------------------------------------------------------
  // The translation
  // ---------------------------------------------------------------------------

  /** When the source root contains `/`, no occurrence of it survives in the
      document name, not even one that the removal itself brought together. */
  lemma DocIdHasNoSourcePath(path: string, sourcePath: string)
    requires '/' in sourcePath
    ensures forall i :: !OccursAt(DocId(path, sourcePath), sourcePath, i)
  {
    var id := DocId(path, sourcePath);
    var k :| 0 <= k < |sourcePath| && sourcePath[k] == '/';
    forall i ensures !OccursAt(id, sourcePath, i) {
      if 0 <= i && i + |sourcePath| <= |id| {
        assert id[i..i + |sourcePath|][k] == id[i + k];
      }
    }
  }

  /** Without a `/` in the source root, removing it can leave an occurrence
      behind: `"ssrcrc".replace("src", "")` is `"src"`, and translating that
      name again gives the empty name. */
  lemma DocIdMayKeepSourcePath()
    ensures DocId("ssrcrc", "src") == "src"
    ensures DocId(DocId("ssrcrc", "src"), "src") == ""
  {
    var s := "ssrcrc";
    assert s[0..3][1] == 's';
    assert s[1..] == "srcrc" && OccursAt(s[1..], "src", 0);
    assert s[1..][3..] == "rc" && !OccursAt("rc", "src", 0);
    assert "rc"[1..] == "c" && !OccursAt("c", "src", 0);
    assert Replace("c", "src", "") == "c";
    assert Replace(s, "src", "") == "src";
    ReplaceCharAt("src", '/', '.');
    assert OccursAt("src", "src", 0) && "src"[3..] == "";
    assert Replace("src", "src", "") == "";
  }

  /** Two files can share a document name: with the source root `src/`,
      `src/a/b` and `src/a.b` are both sent as `a.b`. */
  lemma DocIdNotInjective()
    ensures DocId("src/a/b", "src/") == DocId("src/a.b", "src/") == "a.b"
  {
    DocIdOfRootedPath("src/", "a.b");
    var root, r := "src/", "a/b";
    assert "src/a/b" == root + r;
    ReplaceDropsLeading(root, r);
    ReplaceAbsent(r, root, "");
    var stripped := Replace(root + r, root, "");
    assert stripped == r;
    ReplaceCharAt(r, '/', '.');
    var id := Replace(r, "/", ".");
    assert |id| == 3 && id[0] == 'a' && id[1] == '.' && id[2] == 'b';
    assert id == "a.b";
  }

  /** A path that is the source root followed by a relative name `r` (holding
      neither the root nor `/`) translates to `r` itself. */
  lemma DocIdOfRootedPath(sourcePath: string, r: string)
    requires forall i :: !OccursAt(r, sourcePath, i)
    requires '/' !in r
    ensures DocId(sourcePath + r, sourcePath) == r
  {
    assert sourcePath != "" by {
      assert !OccursAt(r, sourcePath, 0);
    }
    ReplaceDropsLeading(sourcePath, r);
    ReplaceAbsent(r, sourcePath, "");
    AbsentChar(r, '/');
    ReplaceAbsent(r, "/", ".");
  }

  /** Translating a document name again changes nothing, when the source root
      contains `/` or is empty. */
  lemma DocIdIdempotent(path: string, sourcePath: string)
    requires '/' in sourcePath || sourcePath == ""
    ensures DocId(DocId(path, sourcePath), sourcePath) == DocId(path, sourcePath)
  {
    var id := DocId(path, sourcePath);
    if sourcePath == "" {
      ReplaceEmptyByEmpty(id);
    } else {
      DocIdHasNoSourcePath(path, sourcePath);
      ReplaceAbsent(id, sourcePath, "");
    }
    AbsentChar(id, '/');
    ReplaceAbsent(id, "/", ".");
  }

  // ---------------------------------------------------------------------------
  // The batch body
  // ---------------------------------------------------------------------------

  /** A source root without `"` other than `","` cannot be found inside the
      `","` separator. */
  lemma SeparatorLacks(sourcePath: string)
    requires sourcePath != "" && '"' !in sourcePath && sourcePath != ","
    ensures forall i :: !OccursAt(ListSeparator, sourcePath, i)
  {
    forall i ensures !OccursAt(ListSeparator, sourcePath, i) {
      if 0 <= i && i + |sourcePath| <= |ListSeparator| {
        var w := ListSeparator[i..i + |sourcePath|];
        assert w[0] == ListSeparator[i];
        if |sourcePath| >= 2 {
          assert w[1] == ListSeparator[i + 1];
        } else {
          assert |w| == 1 && w == [w[0]];
        }
      }
    }
  }

  lemma ReplaceEachJoin(paths: seq<string>, pat: string, rep: string)
    requires pat != "" && '"' !in pat && pat != ","
    ensures Replace(Join(paths, ListSeparator), pat, rep) == Join(ReplaceEach(paths, pat, rep), ListSeparator)
  {
    SeparatorLacks(pat);
    ReplaceJoin(paths, ListSeparator, pat, rep);
  }

  /** Replacing in the joined text agrees with translating every path on its
      own: the body is `["` + the document names joined by `","` + `"]`. */
  lemma BatchBodyListsDocIds(paths: seq<string>, sourcePath: string)
    requires '"' !in sourcePath && sourcePath != ","
    ensures BatchBody(paths, sourcePath) == "[\"" + Join(DocIds(paths, sourcePath), ListSeparator) + "\"]"
  {
    var stripped := ReplaceEach(paths, sourcePath, "");
    if sourcePath == "" {
      ReplaceEmptyByEmpty(Join(paths, ListSeparator));
      forall i | 0 <= i < |paths| ensures stripped[i] == paths[i] {
        ReplaceEmptyByEmpty(paths[i]);
      }
      assert stripped == paths;
    } else {
      ReplaceEachJoin(paths, sourcePath, "");
    }
    ReplaceEachJoin(stripped, "/", ".");
    assert ReplaceEach(stripped, "/", ".") == DocIds(paths, sourcePath);
  }
}
