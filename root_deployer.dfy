/** The deployer at the top of the repository (`iris_deployer.py`).
    `get_doc`, `put_doc` and `compile_docs` fold the status they receive into
    one error flag, `hasError`; `delete_docs` only logs; `Exit` turns the flag
    into the process exit status. */
module RootDeployer {
  import opened PyStrings
  import opened Atelier

  /** The constructor's URLs: `{protocol}://{host}:{port}{api_base_url}{api_version}/{namespace}/`
      followed by `doc/`, `docs` or `action/compile`. */
  function RootEndpoints(c: Config): (e: Endpoints)
    ensures e.getDoc == e.putDoc
  {
    var prefix := Authority(c) + c.apiBaseUrl + c.apiVersion + "/" + c.namespace + "/";
    Endpoints(putDoc := prefix + "doc/", deleteDocs := prefix + "docs",
              getDoc := prefix + "doc/", compileDocs := prefix + "action/compile")
  }

  // ---------------------------------------------------------------------------
  // How each handler reads a status
  // ---------------------------------------------------------------------------

  /** `get_doc`: 200 and 404 pass, anything else is an error. */
  function GetDocFails(status: int): (fails: bool)
    ensures fails <==> status != 200 && status != 404
  {
    match status
    case 200 | 404 => false
    case _ => true
  }

  /** `put_doc`: 200 and 201 pass, 409 and 425 are only warnings. */
  function PutDocFails(status: int): (fails: bool)
    ensures fails <==> status !in {200, 201, 409, 425}
  {
    match status
    case 200 | 201 => false
    case 409 | 425 => false
    case _ => true
  }

  /** `compile_docs`: a 200 or 201 whose summary is not null is an error, 409
      and 403 are warnings, anything else is an error. */
  function CompileDocsFails(status: int, summary: Option<string>): (fails: bool)
    ensures fails <==> status !in {200, 201, 409, 403} || (summary.Some? && status in {200, 201})
  {
    match status
    case 200 | 201 => summary.Some?
    case 409 | 403 => false
    case _ => true
  }

  /** Whether the handler of `req` sets the flag when answered with `resp`;
      `delete_docs` never does. */
  predicate Fails(req: Request, resp: Response) {
    match req.verb
    case Get => GetDocFails(resp.status)
    case Put => PutDocFails(resp.status)
    case Post => CompileDocsFails(resp.status, resp.summary)
    case Delete => false
  }

  /** Some call of `reqs`, issued in order after `before`, gets an answer
      from `server` that its handler treats as an error. */
  predicate AnyFails(server: Server, before: seq<Request>, reqs: seq<Request>)
    decreases |reqs|
  {
    reqs != [] &&
    (|| AnyFails(server, before, reqs[..|reqs| - 1])
     || Fails(reqs[|reqs| - 1], server(before + reqs[..|reqs| - 1], reqs[|reqs| - 1])))
  }

  // ---------------------------------------------------------------------------
  // The requests of a deployment
  // ---------------------------------------------------------------------------

  /** The compile call carries the configured flags in its query. */
  function CompileRequest(e: Endpoints, flags: string, headers: map<string, string>, docList: string): (r: Request) {
    Request(Post, e.compileDocs + "?source=0&flags=" + flags, headers, Text(docList))
  }

  /** The GET and the PUT of each file, in list order: file `files[i]` is
      read from `disk` and sent under the document name `names[i]`. */
  function FileRequests(e: Endpoints, headers: map<string, string>, disk: Disk, files: seq<string>, names: seq<string>): (reqs: seq<Request>)
    requires |names| == |files|
    ensures |reqs| == 2 * |files|
    decreases |files|
  {
    if files == [] then []
    else
      var n := |files| - 1;
      FileRequests(e, headers, disk, files[..n], names[..n])
        + [GetRequest(e, headers, names[n]), PutRequest(e, headers, names[n], disk(files[n]))]
  }

  /** Everything `deploy_docs` sends: nothing for an empty list, otherwise the
      per-file calls and then one compile of the whole list. No response is an
      argument: what is sent does not depend on what the server answers. */
  function DeployRequests(c: Config, headers: map<string, string>, disk: Disk, files: seq<string>): (reqs: seq<Request>)
    ensures |reqs| == (if files == [] then 0 else 2 * |files| + 1)
    ensures files != [] ==> reqs[|reqs| - 1].verb == Post
  {
    var e := RootEndpoints(c);
    if files == [] then []
    else FileRequests(e, headers, disk, files, DocIds(files, c.sourcePath))
         + [CompileRequest(e, c.compilationFlags, headers, BatchBody(files, c.sourcePath))]
  }

  // ---------------------------------------------------------------------------
  // Properties of the requests and of the flag
  // ---------------------------------------------------------------------------

  /** `reqs` alternates the entries of `gets` and of `puts`, starting with
      `gets[0]`. */
  predicate Interleaves(reqs: seq<Request>, gets: seq<Request>, puts: seq<Request>) {
    && |puts| == |gets| && |reqs| == 2 * |gets|
    && forall i :: 0 <= i < |gets| ==> reqs[2 * i] == gets[i] && reqs[2 * i + 1] == puts[i]
  }

  lemma InterleavesExtend(reqs: seq<Request>, gets: seq<Request>, puts: seq<Request>, get: Request, put: Request)
    requires Interleaves(reqs, gets, puts)
    ensures Interleaves(reqs + [get, put], gets + [get], puts + [put])
  {
    var n := |gets|;
    forall i | 0 <= i < n + 1
      ensures (reqs + [get, put])[2 * i] == (gets + [get])[i] && (reqs + [get, put])[2 * i + 1] == (puts + [put])[i]
    {
      if i < n {
        assert (reqs + [get, put])[2 * i] == reqs[2 * i];
        assert (reqs + [get, put])[2 * i + 1] == reqs[2 * i + 1];
      }
    }
  }

  /** Interleaved GETs and PUTs hold no POST. */
  lemma InterleavedHasNoPost(reqs: seq<Request>, gets: seq<Request>, puts: seq<Request>)
    requires Interleaves(reqs, gets, puts)
    requires forall i :: 0 <= i < |gets| ==> gets[i].verb == Get && puts[i].verb == Put
    ensures forall k :: 0 <= k < |reqs| ==> reqs[k].verb != Post
  {
    forall k | 0 <= k < |reqs| ensures reqs[k].verb != Post {
      var i := k / 2;
      if k == 2 * i {
        assert reqs[2 * i] == gets[i];
      } else {
        assert k == 2 * i + 1;
        assert reqs[2 * i + 1] == puts[i];
      }
    }
  }

  function GetRequests(e: Endpoints, headers: map<string, string>, names: seq<string>): (r: seq<Request>)
    ensures |r| == |names|
  {
    seq(|names|, i requires 0 <= i < |names| => GetRequest(e, headers, names[i]))
  }

  function PutRequests(e: Endpoints, headers: map<string, string>, disk: Disk, files: seq<string>, names: seq<string>): (r: seq<Request>)
    requires |names| == |files|
    ensures |r| == |files|
  {
    seq(|files|, i requires 0 <= i < |files| => PutRequest(e, headers, names[i], disk(files[i])))
  }

  /** For file `i`, request `2i` is its GET and request `2i + 1` its PUT,
      whose content is the file's lines right-stripped. */
  lemma {:induction false} FileRequestsShape(e: Endpoints, headers: map<string, string>, disk: Disk, files: seq<string>, names: seq<string>)
    requires |names| == |files|
    ensures Interleaves(FileRequests(e, headers, disk, files, names), GetRequests(e, headers, names), PutRequests(e, headers, disk, files, names))
    decreases |files|
  {
    if files != [] {
      var n := |files| - 1;
      FileRequestsShape(e, headers, disk, files[..n], names[..n]);
      var get, put := GetRequest(e, headers, names[n]), PutRequest(e, headers, names[n], disk(files[n]));
      InterleavesExtend(FileRequests(e, headers, disk, files[..n], names[..n]),
                        GetRequests(e, headers, names[..n]), PutRequests(e, headers, disk, files[..n], names[..n]), get, put);
      assert GetRequests(e, headers, names[..n]) + [get] == GetRequests(e, headers, names);
      assert PutRequests(e, headers, disk, files[..n], names[..n]) + [put] == PutRequests(e, headers, disk, files, names);
    }
  }

  /** A non-empty deployment is one GET and one PUT per file, in order, then a
      single POST that compiles every file, whatever the server answered; when
      the source root holds no `"` (and is not `,`), the compiled list is the
      list of the files' document names. */
  lemma DeployRequestsShape(c: Config, headers: map<string, string>, disk: Disk, files: seq<string>)
    requires files != []
    ensures var reqs := DeployRequests(c, headers, disk, files);
            var e := RootEndpoints(c);
            && |reqs| == 2 * |files| + 1
            && (forall i :: 0 <= i < |files| ==>
                  reqs[2 * i] == GetRequest(e, headers, DocId(files[i], c.sourcePath))
                  && reqs[2 * i + 1] == PutRequest(e, headers, DocId(files[i], c.sourcePath), disk(files[i])))
            && (forall k :: 0 <= k < 2 * |files| ==> reqs[k].verb != Post)
            && reqs[2 * |files|] == CompileRequest(e, c.compilationFlags, headers, BatchBody(files, c.sourcePath))
    ensures '"' !in c.sourcePath && c.sourcePath != "," ==>
              DeployRequests(c, headers, disk, files)[2 * |files|].body
              == Text("[\"" + Join(DocIds(files, c.sourcePath), ListSeparator) + "\"]")
  {
    var e, names := RootEndpoints(c), DocIds(files, c.sourcePath);
    var fr := FileRequests(e, headers, disk, files, names);
    var gets, puts := GetRequests(e, headers, names), PutRequests(e, headers, disk, files, names);
    var post := CompileRequest(e, c.compilationFlags, headers, BatchBody(files, c.sourcePath));
    var reqs := DeployRequests(c, headers, disk, files);
    DeployRequestsSplit(c, headers, disk, files);
    FileRequestsShape(e, headers, disk, files, names);
    InterleavedThen(fr, gets, puts, post);
    forall i | 0 <= i < |files|
      ensures reqs[2 * i] == GetRequest(e, headers, DocId(files[i], c.sourcePath))
      ensures reqs[2 * i + 1] == PutRequest(e, headers, DocId(files[i], c.sourcePath), disk(files[i]))
    {
      assert names[i] == DocId(files[i], c.sourcePath);
      assert gets[i] == GetRequest(e, headers, names[i]);
      assert puts[i] == PutRequest(e, headers, names[i], disk(files[i]));
      assert reqs[2 * i] == gets[i] && reqs[2 * i + 1] == puts[i];
    }
    if '"' !in c.sourcePath && c.sourcePath != "," {
      BatchBodyListsDocIds(files, c.sourcePath);
    }
  }

  lemma DeployRequestsSplit(c: Config, headers: map<string, string>, disk: Disk, files: seq<string>)
    requires files != []
    ensures var e := RootEndpoints(c);
            DeployRequests(c, headers, disk, files)
            == FileRequests(e, headers, disk, files, DocIds(files, c.sourcePath))
               + [CompileRequest(e, c.compilationFlags, headers, BatchBody(files, c.sourcePath))]
  {
  }

  /** GETs and PUTs interleaved, then one more request: the pairs keep their
      places, none of them is a POST, and the extra request comes last. */
  lemma InterleavedThen(reqs: seq<Request>, gets: seq<Request>, puts: seq<Request>, last: Request)
    requires Interleaves(reqs, gets, puts)
    requires forall i :: 0 <= i < |gets| ==> gets[i].verb == Get && puts[i].verb == Put
    ensures var all := reqs + [last];
            && |all| == 2 * |gets| + 1
            && (forall i :: 0 <= i < |gets| ==> all[2 * i] == gets[i] && all[2 * i + 1] == puts[i])
            && (forall k :: 0 <= k < 2 * |gets| ==> all[k].verb != Post)
            && all[2 * |gets|] == last
  {
    InterleavedHasNoPost(reqs, gets, puts);
    var all := reqs + [last];
    forall k | 0 <= k < |reqs| ensures all[k] == reqs[k] {
    }
  }

  lemma FileRequestsSnoc(e: Endpoints, headers: map<string, string>, disk: Disk, files: seq<string>, names: seq<string>, i: int)
    requires |names| == |files| && 0 <= i < |files|
    ensures FileRequests(e, headers, disk, files[..i + 1], names[..i + 1])
            == FileRequests(e, headers, disk, files[..i], names[..i])
               + [GetRequest(e, headers, names[i]), PutRequest(e, headers, names[i], disk(files[i]))]
  {
    assert files[..i + 1][..i] == files[..i];
    assert names[..i + 1][..i] == names[..i];
  }

  /** One more file adds its GET and its PUT to the requests, and its two
      answers to the flag. */
  lemma FileStep(server: Server, before: seq<Request>, e: Endpoints, headers: map<string, string>, disk: Disk,
                 files: seq<string>, names: seq<string>, i: int)
    requires |names| == |files| && 0 <= i < |files|
    ensures var done := FileRequests(e, headers, disk, files[..i], names[..i]);
            var get := GetRequest(e, headers, names[i]);
            var put := PutRequest(e, headers, names[i], disk(files[i]));
            && FileRequests(e, headers, disk, files[..i + 1], names[..i + 1]) == done + [get] + [put]
            && AnyFails(server, before, done + [get] + [put])
               == (|| AnyFails(server, before, done)
                   || Fails(get, server(before + done, get))
                   || Fails(put, server(before + done + [get], put)))
  {
    var done := FileRequests(e, headers, disk, files[..i], names[..i]);
    var get := GetRequest(e, headers, names[i]);
    var put := PutRequest(e, headers, names[i], disk(files[i]));
    FileRequestsSnoc(e, headers, disk, files, names, i);
    assert done + [get] + [put] == done + [get, put];
    AnyFailsPair(server, before, done, get, put);
  }

  lemma AppendPair(before: seq<Request>, done: seq<Request>, get: Request, put: Request)
    ensures before + done + [get] + [put] == before + (done + [get] + [put])
  {
  }

  /** A non-empty deployment is the files' calls followed by the compile, and
      its fold is theirs or'ed with the compile's answer. */
  lemma DeployRequestsThen(server: Server, before: seq<Request>, c: Config, headers: map<string, string>,
                           disk: Disk, files: seq<string>)
    requires files != []
    ensures var e := RootEndpoints(c);
            var done := FileRequests(e, headers, disk, files, DocIds(files, c.sourcePath));
            var post := CompileRequest(e, c.compilationFlags, headers, BatchBody(files, c.sourcePath));
            && before + done + [post] == before + DeployRequests(c, headers, disk, files)
            && AnyFails(server, before, DeployRequests(c, headers, disk, files))
               == (AnyFails(server, before, done) || Fails(post, server(before + done, post)))
  {
    var e := RootEndpoints(c);
    var done := FileRequests(e, headers, disk, files, DocIds(files, c.sourcePath));
    var post := CompileRequest(e, c.compilationFlags, headers, BatchBody(files, c.sourcePath));
    DeployRequestsSplit(c, headers, disk, files);
    AnyFailsSnoc(server, before, done, post);
  }

  /** A GET and a PUT issued after `done` add their two answers to the
      fold. */
  lemma AnyFailsPair(server: Server, before: seq<Request>, done: seq<Request>, get: Request, put: Request)
    ensures AnyFails(server, before, done + [get] + [put])
            == (|| AnyFails(server, before, done)
                || Fails(get, server(before + done, get))
                || Fails(put, server(before + done + [get], put)))
  {
    AnyFailsSnoc(server, before, done, get);
    AnyFailsSnoc(server, before, done + [get], put);
    assert before + (done + [get]) == before + done + [get];
  }

  lemma AnyFailsSnoc(server: Server, before: seq<Request>, reqs: seq<Request>, r: Request)
    ensures AnyFails(server, before, reqs + [r])
            == (AnyFails(server, before, reqs) || Fails(r, server(before + reqs, r)))
  {
    assert (reqs + [r])[..|reqs|] == reqs;
  }

  /** The flag is raised exactly when some call's answer is an error for its
      handler. */
  lemma {:induction false} AnyFailsIff(server: Server, before: seq<Request>, reqs: seq<Request>)
    ensures AnyFails(server, before, reqs)
            <==> exists k :: 0 <= k < |reqs| && Fails(reqs[k], server(before + reqs[..k], reqs[k]))
    decreases |reqs|
  {
    if reqs != [] {
      var init := reqs[..|reqs| - 1];
      AnyFailsIff(server, before, init);
      forall k | 0 <= k < |init| ensures init[k] == reqs[k] && init[..k] == reqs[..k] {
      }
    }
  }

  /** Once some call has failed, later calls cannot clear the flag. */
  lemma {:induction false} AnyFailsPersists(server: Server, before: seq<Request>, reqs: seq<Request>, more: seq<Request>)
    requires AnyFails(server, before, reqs)
    ensures AnyFails(server, before, reqs + more)
    decreases |more|
  {
    if more != [] {
      var init := more[..|more| - 1];
      AnyFailsPersists(server, before, reqs, init);
      assert reqs + more == (reqs + init) + [more[|more| - 1]];
      AnyFailsSnoc(server, before, reqs + init, more[|more| - 1]);
      assert AnyFails(server, before, (reqs + init) + [more[|more| - 1]]);
    } else {
      assert reqs + more == reqs;
    }
  }

  /** Delete calls never raise the flag, whatever their status. */
  lemma {:induction false} DeletesNeverFail(server: Server, before: seq<Request>, reqs: seq<Request>)
    requires forall k :: 0 <= k < |reqs| ==> reqs[k].verb == Delete
    ensures !AnyFails(server, before, reqs)
    decreases |reqs|
  {
    if reqs != [] {
      DeletesNeverFail(server, before, reqs[..|reqs| - 1]);
    }
  }

  // ---------------------------------------------------------------------------
  // The deployer
  // ---------------------------------------------------------------------------

  class IrisDeployer {
    const config: Config
    const endpoints: Endpoints := RootEndpoints(config)
    /** The server behind the session. */
    const server: Server
    /** `__has_error` */
    var hasError: bool
    /** The session headers. */
    var headers: map<string, string>
    /** Every request issued on the session so far, in order. */
    var trace: seq<Request>

    constructor (config: Config, server: Server)
      ensures this.config == config && this.server == server
      ensures !hasError && headers == InitialHeaders && trace == []
    {
      this.config := config;
      this.server := server;
      hasError := false;
      headers := InitialHeaders;
      trace := [];
    }

    /** One call on the session. */
    method Issue(req: Request) returns (response: Response)
      modifies this`trace
      ensures trace == old(trace) + [req]
      ensures response == server(old(trace), req)
    {
      response := server(trace, req);
      trace := trace + [req];
    }

    /** `compile_docs`: one POST to the compile URL with the flags query. */
    method CompileDocs(docList: string)
      modifies this`trace, this`hasError
      ensures var req := CompileRequest(endpoints, config.compilationFlags, headers, docList);
              && trace == old(trace) + [req]
              && hasError == (old(hasError) || Fails(req, server(old(trace), req)))
    {
      var url := endpoints.compileDocs + "?source=0&flags=" + config.compilationFlags;
      var response := Issue(Request(Post, url, headers, Text(docList)));
      match response.status
      case 200 | 201 =>
        if response.summary.Some? {
          hasError := true;
        }
      case 409 | 403 =>
      case _ =>
        hasError := true;
    }

    /** `delete_docs`: one DELETE; its status only chooses a log level. */
    method DeleteDocs(docList: string)
      modifies this`trace
      ensures trace == old(trace) + [DeleteRequest(endpoints, headers, docList)]
      ensures hasError == old(hasError)
    {
      var response := Issue(Request(Delete, endpoints.deleteDocs, headers, Text(docList)));
    }

    /** `get_doc`: one GET. It has no `return`, so the document it yields is
        always `None`. */
    method GetDoc(fileName: string) returns (document: Option<Snapshot>)
      modifies this`trace, this`hasError
      ensures document == None
      ensures var req := GetRequest(endpoints, headers, fileName);
              && trace == old(trace) + [req]
              && hasError == (old(hasError) || Fails(req, server(old(trace), req)))
    {
      var url := endpoints.getDoc + fileName;
      var response := Issue(Request(Get, url, headers, NoBody));
      match response.status {
        case 200 | 404 =>
        case _ =>
          hasError := true;
      }
      document := None;
    }

    /** `put_doc`: one PUT of the document to the document URL. */
    method PutDoc(sourceDocument: Body, fileName: string)
      modifies this`trace, this`hasError
      ensures var req := Request(Put, endpoints.putDoc + fileName, headers, sourceDocument);
              && trace == old(trace) + [req]
              && hasError == (old(hasError) || Fails(req, server(old(trace), req)))
    {
      var url := endpoints.putDoc + fileName;
      var response := Issue(Request(Put, url, headers, sourceDocument));
      match response.status
      case 200 | 201 =>
      case 409 | 425 =>
      case _ =>
        hasError := true;
    }

    /** One pass of the loop of `deploy_docs`, for a file and its document
        name: GET the document, update the headers if a document came back
        (it never does), read the file and PUT its right-stripped lines. */
    method DeployFile(sourceFile: string, fileName: string, disk: Disk)
      modifies this`trace, this`hasError, this`headers
      ensures headers == old(headers)
      ensures var get := GetRequest(endpoints, headers, fileName);
              var put := PutRequest(endpoints, headers, fileName, disk(sourceFile));
              && trace == old(trace) + [get] + [put]
              && hasError == (|| old(hasError)
                              || Fails(get, server(old(trace), get))
                              || Fails(put, server(old(trace) + [get], put)))
    {
      var document := GetDoc(fileName);
      // `document` is always None, so this update never happens.
      var sessionHeaders := headers;
      match document {
        case Some(snapshot) =>
          if snapshot.ts != "" {
            sessionHeaders := sessionHeaders[IfNoneMatch := snapshot.ts];
          }
        case None =>
      }
      headers := sessionHeaders;
      var content := StripLines(disk(sourceFile));
      PutDoc(Document(false, content), fileName);
    }

    /** After the first `i` files: the headers are `h`, the trace is `before`
        followed by their calls, and the flag is `failed` or one of those
        calls failed. */
    ghost predicate DeployedUpTo(before: seq<Request>, failed: bool, h: map<string, string>, disk: Disk,
                                 files: seq<string>, names: seq<string>, i: int)
      reads this
      requires |names| == |files| && 0 <= i <= |files|
    {
      var done := FileRequests(endpoints, h, disk, files[..i], names[..i]);
      headers == h && trace == before + done && hasError == (failed || AnyFails(server, before, done))
    }

    /** The pass of the loop for file `i`. */
    method DeployNext(ghost before: seq<Request>, ghost failed: bool, ghost h: map<string, string>, disk: Disk,
                      files: seq<string>, ghost names: seq<string>, i: int)
      requires |names| == |files| && 0 <= i < |files| && names[i] == DocId(files[i], config.sourcePath)
      requires DeployedUpTo(before, failed, h, disk, files, names, i)
      modifies this`trace, this`hasError, this`headers
      ensures DeployedUpTo(before, failed, h, disk, files, names, i + 1)
    {
      ghost var done := FileRequests(endpoints, h, disk, files[..i], names[..i]);
      var fileName := DocId(files[i], config.sourcePath);
      FileStep(server, before, endpoints, h, disk, files, names, i);
      DeployFile(files[i], fileName, disk);
      AppendPair(before, done, GetRequest(endpoints, h, fileName), PutRequest(endpoints, h, fileName, disk(files[i])));
    }

    /** The loop of `deploy_docs`: each file's document name, then its
        `DeployFile`, in order. */
    method DeployEach(changedFiles: seq<string>, disk: Disk)
      modifies this`trace, this`hasError, this`headers
      ensures headers == old(headers)
      ensures var reqs := FileRequests(endpoints, old(headers), disk, changedFiles, DocIds(changedFiles, config.sourcePath));
              && trace == old(trace) + reqs
              && hasError == (old(hasError) || AnyFails(server, old(trace), reqs))
    {
      ghost var h, before, failed := headers, trace, hasError;
      ghost var names := DocIds(changedFiles, config.sourcePath);
      assert changedFiles[..0] == [] && names[..0] == [];
      for i := 0 to |changedFiles|
        invariant DeployedUpTo(before, failed, h, disk, changedFiles, names, i)
      {
        DeployNext(before, failed, h, disk, changedFiles, names, i);
      }
      assert changedFiles[..|changedFiles|] == changedFiles && names[..|changedFiles|] == names;
    }

    /** `deploy_docs`: GET then PUT for each file, then one compile of the
        whole list; an empty list sends nothing. */
    method DeployDocs(changedFiles: seq<string>, disk: Disk)
      modifies this`trace, this`hasError, this`headers
      ensures headers == old(headers)
      ensures trace == old(trace) + DeployRequests(config, old(headers), disk, changedFiles)
      ensures hasError == (old(hasError) || AnyFails(server, old(trace), DeployRequests(config, old(headers), disk, changedFiles)))
      ensures changedFiles == [] ==> trace == old(trace) && hasError == old(hasError)
    {
      if |changedFiles| == 0 {
        assert DeployRequests(config, headers, disk, changedFiles) == [];
        assert trace + [] == trace;
        return;
      }
      DeployAndCompile(changedFiles, disk);
    }

    /** A non-empty deployment: the loop, then the compile of the whole list. */
    method DeployAndCompile(changedFiles: seq<string>, disk: Disk)
      requires changedFiles != []
      modifies this`trace, this`hasError, this`headers
      ensures headers == old(headers)
      ensures trace == old(trace) + DeployRequests(config, old(headers), disk, changedFiles)
      ensures hasError == (old(hasError) || AnyFails(server, old(trace), DeployRequests(config, old(headers), disk, changedFiles)))
    {
      ghost var before := trace;
      DeployEach(changedFiles, disk);
      var filesToCompile := BatchBody(changedFiles, config.sourcePath);
      CompileDocs(filesToCompile);
      DeployRequestsThen(server, before, config, headers, disk, changedFiles);
    }

    /** The delete call of the entry point (`iris_deployer.py` lines 181-183):
        one DELETE whose body lists every deleted file, when there is any. */
    method DeleteFiles(deletedFiles: seq<string>)
      modifies this`trace
      ensures trace == old(trace) +
                (if |deletedFiles| > 0 then [DeleteRequest(endpoints, headers, BatchBody(deletedFiles, config.sourcePath))] else [])
      ensures hasError == old(hasError)
    {
      if |deletedFiles| > 0 {
        DeleteDocs(BatchBody(deletedFiles, config.sourcePath));
      }
    }

    /** `exit`: status 1 when an error was recorded, 0 otherwise. */
    method Exit() returns (code: int)
      ensures code == 1 <==> hasError
      ensures code == 0 <==> !hasError
    {
      if hasError {
        return 1;
      }
      return 0;
    }
  }
}
