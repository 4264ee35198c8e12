/** The deployer under `src/` (`src/iris_deployer.py`). It keeps no error
    flag: every handler only logs, and the model keeps the severity of each
    outcome it logs. A document that `get_doc` does not yield is skipped. A
    non-empty timestamp it yields is stored under `If-None-Match` in the
    session headers and stays there for every later call until a later
    non-empty timestamp replaces it. */
module SrcDeployer {
  import opened PyStrings
  import opened Atelier

  /** The constructor's URLs: `{protocol}://{host}:{port}/api/atelier/{api_version}/{namespace}/`
      followed by `doc/`, `docs` or `action/compile`; `api_base_url` is not
      used. */
  function SrcEndpoints(c: Config): (e: Endpoints)
    ensures e.getDoc == e.putDoc
  {
    var prefix := Authority(c) + "/api/atelier/" + c.apiVersion + "/" + c.namespace + "/";
    Endpoints(putDoc := prefix + "doc/", deleteDocs := prefix + "docs",
              getDoc := prefix + "doc/", compileDocs := prefix + "action/compile")
  }

  /** The base URL given to the constructor plays no part in the URLs. */
  lemma SrcEndpointsIgnoreApiBaseUrl(c: Config, apiBaseUrl: string)
    ensures SrcEndpoints(c.(apiBaseUrl := apiBaseUrl)) == SrcEndpoints(c)
  {
  }

  // ---------------------------------------------------------------------------
  // How each handler reads a status
  // ---------------------------------------------------------------------------

  /** The level of the message a handler logs about a response. */
  datatype Severity = Info | Warning | Error

  /** `put_doc`: 200 and 201 are information, 409 and 425 warnings, anything
      else an error. */
  function PutSeverity(status: int): (s: Severity)
    ensures s == Info <==> status == 200 || status == 201
    ensures s == Warning <==> status == 409 || status == 425
  {
    match status
    case 200 | 201 => Info
    case 409 | 425 => Warning
    case _ => Error
  }

  /** `compile_docs`: 200 and 201 are information, 409 and 423 warnings,
      anything else an error; the response body is only logged. */
  function CompileSeverity(status: int): (s: Severity)
    ensures s == Info <==> status == 200 || status == 201
    ensures s == Warning <==> status == 409 || status == 423
  {
    match status
    case 200 | 201 => Info
    case 409 | 423 => Warning
    case _ => Error
  }

  /** `delete_docs`: 200 is information, anything else an error. */
  function DeleteSeverity(status: int): (s: Severity)
    ensures s != Warning
    ensures s == Info <==> status == 200
  {
    if status == 200 then Info else Error
  }

  /** What `get_doc` yields for a response: the document for 200 and 404,
      nothing for any other status. */
  function FoundDocument(resp: Response): (d: Option<Snapshot>)
    ensures d.Some? <==> resp.status == 200 || resp.status == 404
    ensures d.Some? ==> d.value.ts == resp.ts
  {
    match resp.status
    case 200 | 404 => Some(Snapshot(resp.ts))
    case _ => None
  }

  // ---------------------------------------------------------------------------
  // A deployment, step by step
  // ---------------------------------------------------------------------------

  /** What the deployer holds: the requests issued so far, the session
      headers and the severities logged so far. */
  datatype Session = Session(trace: seq<Request>, headers: map<string, string>, log: seq<Severity>)

  /** The compile call of this variant goes to the bare compile URL. */
  function CompileRequest(e: Endpoints, headers: map<string, string>, docList: string): (r: Request) {
    Request(Post, e.compileDocs, headers, Text(docList))
  }

  /** The headers after a document with timestamp `ts` came back: the
      timestamp is stored under `If-None-Match` unless it is empty. */
  function WithToken(headers: map<string, string>, ts: string): (h: map<string, string>)
    ensures headers.Keys <= h.Keys
    ensures forall k :: k != IfNoneMatch ==> (k in h <==> k in headers) && (k in headers ==> h[k] == headers[k])
    ensures ts != "" ==> IfNoneMatch in h && h[IfNoneMatch] == ts
    ensures ts == "" ==> h == headers
  {
    if ts != "" then headers[IfNoneMatch := ts] else headers
  }

  /** One pass of the loop for a file and its document name: the GET; when it
      yields no document, an error is logged and the file is skipped;
      otherwise the headers take its timestamp and the file's right-stripped
      lines are PUT. */
  function Step(server: Server, e: Endpoints, disk: Disk, s: Session, file: string, name: string): (q: Session)
    ensures |s.trace| + 1 <= |q.trace| <= |s.trace| + 2 && q.trace[..|s.trace|] == s.trace
    ensures q.trace[|s.trace|] == GetRequest(e, s.headers, name)
    ensures |q.log| == |s.log| + 1 && q.log[..|s.log|] == s.log
  {
    var get := GetRequest(e, s.headers, name);
    var found := FoundDocument(server(s.trace, get));
    if found.None? then
      Session(s.trace + [get], s.headers, s.log + [Error])
    else
      var headers := WithToken(s.headers, found.value.ts);
      var put := PutRequest(e, headers, name, disk(file));
      Session(s.trace + [get, put], headers, s.log + [PutSeverity(server(s.trace + [get], put).status)])
  }

  /** The loop over `files`, whose document names are `names`. */
  function Loop(server: Server, e: Endpoints, disk: Disk, s: Session, files: seq<string>, names: seq<string>): (l: Session)
    requires |names| == |files|
    ensures |s.trace| + |files| <= |l.trace| <= |s.trace| + 2 * |files|
    ensures |l.log| == |s.log| + |files|
    decreases |files|
  {
    if files == [] then s
    else
      var n := |files| - 1;
      var p := Loop(server, e, disk, s, files[..n], names[..n]);
      StepShape(server, e, disk, p, files[n], names[n]);
      Step(server, e, disk, p, files[n], names[n])
  }

  /** `deploy_docs`: the loop, then one compile of the whole list, whatever
      the loop did and even when the list is empty. */
  function Deploy(server: Server, c: Config, disk: Disk, s: Session, files: seq<string>): (d: Session)
    ensures |s.trace| + |files| + 1 <= |d.trace| <= |s.trace| + 2 * |files| + 1
    ensures |d.log| == |s.log| + |files| + 1
  {
    var e := SrcEndpoints(c);
    var l := Loop(server, e, disk, s, files, DocIds(files, c.sourcePath));
    var post := CompileRequest(e, l.headers, BatchBody(files, c.sourcePath));
    Session(l.trace + [post], l.headers, l.log + [CompileSeverity(server(l.trace, post).status)])
  }

  // ---------------------------------------------------------------------------
  // Properties of a deployment
  // ---------------------------------------------------------------------------

  lemma LoopSnoc(server: Server, e: Endpoints, disk: Disk, s: Session, files: seq<string>, names: seq<string>, i: int)
    requires |names| == |files| && 0 <= i < |files|
    ensures Loop(server, e, disk, s, files[..i + 1], names[..i + 1])
            == Step(server, e, disk, Loop(server, e, disk, s, files[..i], names[..i]), files[i], names[i])
  {
    assert files[..i + 1][..i] == files[..i];
    assert names[..i + 1][..i] == names[..i];
  }

  lemma StepSkips(server: Server, e: Endpoints, disk: Disk, s: Session, file: string, name: string)
    requires FoundDocument(server(s.trace, GetRequest(e, s.headers, name))).None?
    ensures Step(server, e, disk, s, file, name) == Session(s.trace + [GetRequest(e, s.headers, name)], s.headers, s.log + [Error])
  {
  }

  lemma StepPuts(server: Server, e: Endpoints, disk: Disk, s: Session, file: string, name: string)
    requires FoundDocument(server(s.trace, GetRequest(e, s.headers, name))).Some?
    ensures var get := GetRequest(e, s.headers, name);
            var headers := WithToken(s.headers, server(s.trace, get).ts);
            var put := PutRequest(e, headers, name, disk(file));
            Step(server, e, disk, s, file, name)
            == Session(s.trace + [get] + [put], headers, s.log + [PutSeverity(server(s.trace + [get], put).status)])
  {
    var get := GetRequest(e, s.headers, name);
    var headers := WithToken(s.headers, server(s.trace, get).ts);
    var put := PutRequest(e, headers, name, disk(file));
    assert s.trace + [get] + [put] == s.trace + [get, put];
  }

  /** A pass issues the file's GET and, exactly when that GET yields a
      document, a PUT of the same name carrying the updated headers; it logs
      one severity; the headers change only by taking the yielded timestamp. */
  lemma StepShape(server: Server, e: Endpoints, disk: Disk, s: Session, file: string, name: string)
    ensures var q := Step(server, e, disk, s, file, name);
            var get := GetRequest(e, s.headers, name);
            var found := FoundDocument(server(s.trace, get));
            && |q.log| == |s.log| + 1 && q.log[..|s.log|] == s.log
            && |s.trace| < |q.trace| && q.trace[..|s.trace|] == s.trace
            && (found.None? ==> q.trace == s.trace + [get] && q.headers == s.headers)
            && (found.Some? ==>
                  && q.headers == WithToken(s.headers, found.value.ts)
                  && q.trace == s.trace + [get, PutRequest(e, q.headers, name, disk(file))])
            && OfVerb(q.trace[|s.trace|..], Get) == [get]
            && OfVerb(q.trace[|s.trace|..], Post) == []
  {
    var q := Step(server, e, disk, s, file, name);
    var get := GetRequest(e, s.headers, name);
    var found := FoundDocument(server(s.trace, get));
    if found.None? {
      assert q.trace[|s.trace|..] == [get];
      assert OfVerb([get], Get) == OfVerb([], Get) + [get];
      assert OfVerb([get], Post) == OfVerb([], Post);
    } else {
      var put := PutRequest(e, q.headers, name, disk(file));
      assert q.trace[|s.trace|..] == [get, put];
      assert [get, put][..1] == [get];
      assert OfVerb([get], Get) == OfVerb([], Get) + [get];
      assert OfVerb([get], Post) == OfVerb([], Post);
    }
  }

  /** The loop only appends: to the trace, and one severity per file to the
      log. */
  lemma {:induction false} LoopGrows(server: Server, e: Endpoints, disk: Disk, s: Session, files: seq<string>, names: seq<string>)
    requires |names| == |files|
    ensures var l := Loop(server, e, disk, s, files, names);
            && |s.trace| <= |l.trace| && l.trace[..|s.trace|] == s.trace
            && |l.log| == |s.log| + |files| && l.log[..|s.log|] == s.log
    decreases |files|
  {
    if files != [] {
      var n := |files| - 1;
      var p := Loop(server, e, disk, s, files[..n], names[..n]);
      LoopGrows(server, e, disk, s, files[..n], names[..n]);
      StepShape(server, e, disk, p, files[n], names[n]);
      var l := Loop(server, e, disk, s, files, names);
      assert l.trace[..|p.trace|] == p.trace;
      assert l.trace[..|s.trace|] == l.trace[..|p.trace|][..|s.trace|];
      assert l.log[..|s.log|] == l.log[..|p.log|][..|s.log|];
    }
  }

  /** Extending a trace by a segment whose only GET is to `prefix` + the
      last name extends the GET URLs of the trace by that URL. */
  lemma GetsExtend(t1: seq<Request>, t2: seq<Request>, a: int, prefix: string, names: seq<string>, get: Request)
    requires 0 <= a <= |t1| <= |t2| && t2[..|t1|] == t1 && names != []
    requires |OfVerb(t1[a..], Get)| == |names| - 1
    requires forall i :: 0 <= i < |names| - 1 ==> OfVerb(t1[a..], Get)[i].url == prefix + names[..|names| - 1][i]
    requires OfVerb(t2[|t1|..], Get) == [get] && get.url == prefix + names[|names| - 1]
    ensures |OfVerb(t2[a..], Get)| == |names|
    ensures forall i :: 0 <= i < |names| ==> OfVerb(t2[a..], Get)[i].url == prefix + names[i]
  {
    assert t2[a..] == t1[a..] + t2[|t1|..];
    OfVerbConcat(t1[a..], t2[|t1|..], Get);
    forall i | 0 <= i < |names| - 1 ensures OfVerb(t2[a..], Get)[i].url == prefix + names[i] {
      assert names[..|names| - 1][i] == names[i];
    }
  }

  /** The GETs of the loop are one per file, in list order, each to the
      file's document name, whatever the server answers. */
  lemma {:induction false} LoopGets(server: Server, e: Endpoints, disk: Disk, s: Session, files: seq<string>, names: seq<string>)
    requires |names| == |files|
    ensures var l := Loop(server, e, disk, s, files, names);
            && |s.trace| <= |l.trace|
            && |OfVerb(l.trace[|s.trace|..], Get)| == |files|
            && forall i :: 0 <= i < |files| ==> OfVerb(l.trace[|s.trace|..], Get)[i].url == e.getDoc + names[i]
    decreases |files|
  {
    LoopGrows(server, e, disk, s, files, names);
    if files != [] {
      var n := |files| - 1;
      var p := Loop(server, e, disk, s, files[..n], names[..n]);
      LoopGets(server, e, disk, s, files[..n], names[..n]);
      LoopGrows(server, e, disk, s, files[..n], names[..n]);
      StepShape(server, e, disk, p, files[n], names[n]);
      GetsExtend(p.trace, Loop(server, e, disk, s, files, names).trace, |s.trace|, e.getDoc, names, GetRequest(e, p.headers, names[n]));
    }
  }

  /** The loop only ever adds or overwrites `If-None-Match`: every other
      header keeps its presence and its value, and no header is removed. */
  lemma {:induction false} LoopHeaders(server: Server, e: Endpoints, disk: Disk, s: Session, files: seq<string>, names: seq<string>)
    requires |names| == |files|
    ensures var l := Loop(server, e, disk, s, files, names);
            && s.headers.Keys <= l.headers.Keys
            && forall k :: k != IfNoneMatch ==>
                 (k in l.headers <==> k in s.headers) && (k in s.headers ==> l.headers[k] == s.headers[k])
    decreases |files|
  {
    if files != [] {
      var n := |files| - 1;
      var p := Loop(server, e, disk, s, files[..n], names[..n]);
      LoopHeaders(server, e, disk, s, files[..n], names[..n]);
      StepShape(server, e, disk, p, files[n], names[n]);
    }
  }

  /** From position `from` on, every PUT of `t` comes right after a GET of the
      same URL, and sends the right-stripped lines of one of `files` under
      that file's document name. */
  predicate PutsAfterGets(t: seq<Request>, from: int, e: Endpoints, disk: Disk, files: seq<string>, names: seq<string>)
    requires 0 <= from <= |t| && |names| == |files|
  {
    forall k :: from <= k < |t| && t[k].verb == Put ==>
      && from < k && t[k - 1].verb == Get && t[k - 1].url == t[k].url
      && exists i :: 0 <= i < |files| && t[k].url == e.putDoc + names[i]
                     && t[k].body == Document(false, StrippedLines(disk(files[i])))
  }

  /** A segment of a GET, or of a GET and then a PUT of the same URL carrying
      the last file, keeps `PutsAfterGets`. */
  lemma PutsExtend(t1: seq<Request>, t2: seq<Request>, a: int, e: Endpoints, disk: Disk, files: seq<string>, names: seq<string>)
    requires 0 <= a <= |t1| < |t2| && t2[..|t1|] == t1 && |names| == |files| && files != []
    requires PutsAfterGets(t1, a, e, disk, files[..|files| - 1], names[..|files| - 1])
    requires e.getDoc == e.putDoc
    requires t2[|t1|].verb == Get && t2[|t1|].url == e.getDoc + names[|files| - 1]
    requires |t2| == |t1| + 1
             || (&& |t2| == |t1| + 2 && t2[|t1| + 1].url == e.putDoc + names[|files| - 1]
                 && t2[|t1| + 1].body == Document(false, StrippedLines(disk(files[|files| - 1]))))
    ensures PutsAfterGets(t2, a, e, disk, files, names)
  {
    var n := |files| - 1;
    forall k | a <= k < |t2| && t2[k].verb == Put
      ensures && a < k && t2[k - 1].verb == Get && t2[k - 1].url == t2[k].url
              && exists i :: 0 <= i < |files| && t2[k].url == e.putDoc + names[i]
                             && t2[k].body == Document(false, StrippedLines(disk(files[i])))
    {
      if k < |t1| {
        assert t2[k] == t1[k] && t2[k - 1] == t1[k - 1];
        var i :| 0 <= i < n && t1[k].url == e.putDoc + names[..n][i]
                 && t1[k].body == Document(false, StrippedLines(disk(files[..n][i])));
        assert names[..n][i] == names[i] && files[..n][i] == files[i];
      } else {
        assert k == |t1| + 1;
      }
    }
  }

  /** Every PUT of the loop comes right after a GET of the same URL, and sends
      the right-stripped lines of a file under that file's document name. */
  lemma {:induction false} LoopPuts(server: Server, e: Endpoints, disk: Disk, s: Session, files: seq<string>, names: seq<string>)
    requires |names| == |files| && e.getDoc == e.putDoc
    ensures var l := Loop(server, e, disk, s, files, names);
            |s.trace| <= |l.trace| && PutsAfterGets(l.trace, |s.trace|, e, disk, files, names)
    decreases |files|
  {
    LoopGrows(server, e, disk, s, files, names);
    if files != [] {
      var n := |files| - 1;
      var p := Loop(server, e, disk, s, files[..n], names[..n]);
      LoopPuts(server, e, disk, s, files[..n], names[..n]);
      LoopGrows(server, e, disk, s, files[..n], names[..n]);
      StepShape(server, e, disk, p, files[n], names[n]);
      PutsExtend(p.trace, Loop(server, e, disk, s, files, names).trace, |s.trace|, e, disk, files, names);
    }
  }

  /** The GETs to `names`, in order, all carrying `headers`. */
  function Gets(e: Endpoints, headers: map<string, string>, names: seq<string>): (r: seq<Request>)
    ensures |r| == |names|
    decreases |names|
  {
    if names == [] then [] else Gets(e, headers, names[..|names| - 1]) + [GetRequest(e, headers, names[|names| - 1])]
  }

  /** When the server yields no document, every file is skipped: the trace
      gains only the GETs, all with the original headers, which stay as they
      were, and the log one error per file. */
  lemma {:induction false} LoopNoneFound(server: Server, e: Endpoints, disk: Disk, s: Session, files: seq<string>, names: seq<string>)
    requires |names| == |files|
    requires forall h: seq<Request>, r: Request :: r.verb == Get ==> server(h, r).status != 200 && server(h, r).status != 404
    ensures var l := Loop(server, e, disk, s, files, names);
            && l.trace == s.trace + Gets(e, s.headers, names)
            && l.headers == s.headers
            && |l.log| == |s.log| + |files|
            && forall k :: |s.log| <= k < |l.log| ==> l.log[k] == Error
    decreases |files|
  {
    if files != [] {
      var n := |files| - 1;
      var p := Loop(server, e, disk, s, files[..n], names[..n]);
      LoopNoneFound(server, e, disk, s, files[..n], names[..n]);
      StepShape(server, e, disk, p, files[n], names[n]);
    }
  }

  /** From position `from` on, `t` is, for each file in order, its GET and
      then its PUT of the right-stripped lines. */
  predicate Alternates(t: seq<Request>, from: int, e: Endpoints, disk: Disk, files: seq<string>, names: seq<string>)
    requires 0 <= from && |names| == |files|
  {
    && |t| == from + 2 * |files|
    && forall i :: 0 <= i < |files| ==>
         && t[from + 2 * i].verb == Get && t[from + 2 * i].url == e.getDoc + names[i]
         && t[from + 2 * i + 1].verb == Put && t[from + 2 * i + 1].url == e.putDoc + names[i]
         && t[from + 2 * i + 1].body == Document(false, StrippedLines(disk(files[i])))
  }

  lemma AlternatesExtend(t1: seq<Request>, t2: seq<Request>, a: int, e: Endpoints, disk: Disk,
                         files: seq<string>, names: seq<string>, get: Request, put: Request)
    requires 0 <= a && |names| == |files| && files != []
    requires Alternates(t1, a, e, disk, files[..|files| - 1], names[..|files| - 1])
    requires t2 == t1 + [get, put]
    requires get.verb == Get && get.url == e.getDoc + names[|files| - 1]
    requires put.verb == Put && put.url == e.putDoc + names[|files| - 1]
    requires put.body == Document(false, StrippedLines(disk(files[|files| - 1])))
    ensures Alternates(t2, a, e, disk, files, names)
  {
    var n := |files| - 1;
    forall i | 0 <= i < n
      ensures && t2[a + 2 * i].verb == Get && t2[a + 2 * i].url == e.getDoc + names[i]
              && t2[a + 2 * i + 1].verb == Put && t2[a + 2 * i + 1].url == e.putDoc + names[i]
              && t2[a + 2 * i + 1].body == Document(false, StrippedLines(disk(files[i])))
    {
      assert t2[a + 2 * i] == t1[a + 2 * i] && t2[a + 2 * i + 1] == t1[a + 2 * i + 1];
      assert names[..n][i] == names[i] && files[..n][i] == files[i];
    }
    assert t2[a + 2 * n] == get && t2[a + 2 * n + 1] == put;
  }

  /** When the server yields every document, the loop is a GET and then a PUT
      of the right-stripped lines for each file, in list order. */
  lemma {:induction false} LoopAllFound(server: Server, e: Endpoints, disk: Disk, s: Session, files: seq<string>, names: seq<string>)
    requires |names| == |files|
    requires forall h: seq<Request>, r: Request :: r.verb == Get ==> server(h, r).status == 200 || server(h, r).status == 404
    ensures Alternates(Loop(server, e, disk, s, files, names).trace, |s.trace|, e, disk, files, names)
    decreases |files|
  {
    if files != [] {
      var n := |files| - 1;
      var p := Loop(server, e, disk, s, files[..n], names[..n]);
      var q := Loop(server, e, disk, s, files, names);
      LoopAllFound(server, e, disk, s, files[..n], names[..n]);
      StepShape(server, e, disk, p, files[n], names[n]);
      AlternatesExtend(p.trace, q.trace, |s.trace|, e, disk, files, names,
                       GetRequest(e, p.headers, names[n]), PutRequest(e, q.headers, names[n], disk(files[n])));
    }
  }

  /** From position `from` on, every PUT of `t` carries `token` in
      `If-None-Match`. */
  predicate PutsCarry(t: seq<Request>, from: int, token: string)
    requires 0 <= from <= |t|
  {
    forall k :: from <= k < |t| && t[k].verb == Put ==> IfNoneMatch in t[k].headers && t[k].headers[IfNoneMatch] == token
  }

  lemma PutsCarryExtend(t1: seq<Request>, seg: seq<Request>, a: int, token: string)
    requires 0 <= a <= |t1| && PutsCarry(t1, a, token) && PutsCarry(seg, 0, token)
    ensures PutsCarry(t1 + seg, a, token)
  {
    forall k | a <= k < |t1 + seg| && (t1 + seg)[k].verb == Put
      ensures IfNoneMatch in (t1 + seg)[k].headers && (t1 + seg)[k].headers[IfNoneMatch] == token
    {
      if k < |t1| {
        assert (t1 + seg)[k] == t1[k];
      } else {
        assert (t1 + seg)[k] == seg[k - |t1|];
      }
    }
  }

  /** A token in `If-None-Match` survives every later pass, skipped files
      included, and is carried by every later PUT, as long as no document
      fetched from then on comes back with a non-empty timestamp of its own. */
  lemma {:induction false} LoopKeepsToken(server: Server, e: Endpoints, disk: Disk, s: Session,
                                          files: seq<string>, names: seq<string>, t: string)
    requires |names| == |files|
    requires IfNoneMatch in s.headers && s.headers[IfNoneMatch] == t
    requires forall h: seq<Request>, r: Request ::
               |s.trace| <= |h| && r.verb == Get && FoundDocument(server(h, r)).Some? ==> server(h, r).ts == ""
    ensures var l := Loop(server, e, disk, s, files, names);
            && l.headers == s.headers
            && |s.trace| <= |l.trace| && PutsCarry(l.trace, |s.trace|, t)
    decreases |files|
  {
    if files != [] {
      var n := |files| - 1;
      var p := Loop(server, e, disk, s, files[..n], names[..n]);
      LoopKeepsToken(server, e, disk, s, files[..n], names[..n], t);
      StepShape(server, e, disk, p, files[n], names[n]);
      var q := Loop(server, e, disk, s, files, names);
      var seg := q.trace[|p.trace|..];
      assert q.trace == p.trace + seg;
      PutsCarryExtend(p.trace, seg, |s.trace|, t);
    }
  }

  /** A token outlives its document: once the first file's document came
      back with timestamp `t`, that file's PUT and every PUT of the files
      after it carry `t` in `If-None-Match`, files skipped or not, as long as
      no later document comes back with a timestamp of its own. */
  lemma TokenOutlivesItsDocument(server: Server, e: Endpoints, disk: Disk, s: Session, file1: string, name1: string,
                                 files: seq<string>, names: seq<string>, t: string)
    requires |names| == |files| && t != ""
    requires server(s.trace, GetRequest(e, s.headers, name1)).status == 200
    requires server(s.trace, GetRequest(e, s.headers, name1)).ts == t
    requires forall h: seq<Request>, r: Request ::
               |s.trace| < |h| && r.verb == Get && FoundDocument(server(h, r)).Some? ==> server(h, r).ts == ""
    ensures var s1 := Step(server, e, disk, s, file1, name1);
            var l := Loop(server, e, disk, s1, files, names);
            && s1.trace == s.trace + [GetRequest(e, s.headers, name1), PutRequest(e, s.headers[IfNoneMatch := t], name1, disk(file1))]
            && l.headers == s.headers[IfNoneMatch := t]
            && |s1.trace| <= |l.trace| && PutsCarry(l.trace, |s1.trace|, t)
  {
    var s1 := Step(server, e, disk, s, file1, name1);
    StepShape(server, e, disk, s, file1, name1);
    LoopKeepsToken(server, e, disk, s1, files, names, t);
  }

  /** The timestamp of the last document the loop fetched whose timestamp is
      not empty, if there is one. */
  function LastToken(server: Server, e: Endpoints, disk: Disk, s: Session, files: seq<string>, names: seq<string>): (t: Option<string>)
    requires |names| == |files|
    ensures t.Some? ==> t.value != ""
    decreases |files|
  {
    if files == [] then None
    else
      var n := |files| - 1;
      var p := Loop(server, e, disk, s, files[..n], names[..n]);
      var found := FoundDocument(server(p.trace, GetRequest(e, p.headers, names[n])));
      if found.Some? && found.value.ts != "" then Some(found.value.ts)
      else LastToken(server, e, disk, s, files[..n], names[..n])
  }

  /** The headers `h` with `If-None-Match` set to `token`, when there is one. */
  function WithLastToken(h: map<string, string>, token: Option<string>): (r: map<string, string>)
    ensures token.None? ==> r == h
    ensures token.Some? ==> r == h[IfNoneMatch := token.value]
  {
    match token
    case None => h
    case Some(t) => h[IfNoneMatch := t]
  }

  /** After the loop, `If-None-Match` holds the timestamp of the last fetched
      document whose timestamp was not empty, however many files came after
      it; without such a document the headers are those the loop started
      with. */
  lemma {:induction false} LoopLastToken(server: Server, e: Endpoints, disk: Disk, s: Session, files: seq<string>, names: seq<string>)
    requires |names| == |files|
    ensures Loop(server, e, disk, s, files, names).headers
            == WithLastToken(s.headers, LastToken(server, e, disk, s, files, names))
    decreases |files|
  {
    if files != [] {
      var n := |files| - 1;
      var p := Loop(server, e, disk, s, files[..n], names[..n]);
      LoopLastToken(server, e, disk, s, files[..n], names[..n]);
      StepShape(server, e, disk, p, files[n], names[n]);
      var found := FoundDocument(server(p.trace, GetRequest(e, p.headers, names[n])));
      if found.Some? && found.value.ts != "" {
        OverrideTwice(s.headers, LastToken(server, e, disk, s, files[..n], names[..n]), found.value.ts);
      }
    }
  }

  /** Setting `If-None-Match` again forgets any earlier value. */
  lemma OverrideTwice(h: map<string, string>, earlier: Option<string>, t: string)
    ensures WithLastToken(h, earlier)[IfNoneMatch := t] == h[IfNoneMatch := t]
  {
  }

  /** The loop sends no POST. */
  lemma {:induction false} LoopNoPost(server: Server, e: Endpoints, disk: Disk, s: Session, files: seq<string>, names: seq<string>)
    requires |names| == |files|
    ensures var l := Loop(server, e, disk, s, files, names);
            |s.trace| <= |l.trace| && OfVerb(l.trace[|s.trace|..], Post) == []
    decreases |files|
  {
    LoopGrows(server, e, disk, s, files, names);
    if files != [] {
      var n := |files| - 1;
      var p := Loop(server, e, disk, s, files[..n], names[..n]);
      LoopNoPost(server, e, disk, s, files[..n], names[..n]);
      LoopGrows(server, e, disk, s, files[..n], names[..n]);
      StepShape(server, e, disk, p, files[n], names[n]);
      NoneOfVerbExtend(p.trace, Loop(server, e, disk, s, files, names).trace, |s.trace|, Post);
    }
  }

  lemma NoneOfVerbExtend(t1: seq<Request>, t2: seq<Request>, a: int, v: Verb)
    requires 0 <= a <= |t1| <= |t2| && t2[..|t1|] == t1
    requires OfVerb(t1[a..], v) == [] && OfVerb(t2[|t1|..], v) == []
    ensures OfVerb(t2[a..], v) == []
  {
    assert t2[a..] == t1[a..] + t2[|t1|..];
    OfVerbConcat(t1[a..], t2[|t1|..], v);
  }

  /** Appending one request to a trace appends it to the requests of its
      verb, counted from any position. */
  lemma OfVerbSnoc(t: seq<Request>, a: int, x: Request, v: Verb)
    requires 0 <= a <= |t|
    ensures (t + [x])[a..] == t[a..] + [x]
    ensures OfVerb((t + [x])[a..], v) == OfVerb(t[a..], v) + (if x.verb == v then [x] else [])
  {
    assert (t + [x])[a..] == t[a..] + [x];
    OfVerbConcat(t[a..], [x], v);
    assert OfVerb([x], v) == OfVerb([], v) + (if x.verb == v then [x] else []);
  }

  /** A deployment only appends: to the trace, and to the log one severity
      per file and one for the compile. */
  lemma DeployGrows(server: Server, c: Config, disk: Disk, s: Session, files: seq<string>)
    ensures var d := Deploy(server, c, disk, s, files);
            && |s.trace| < |d.trace| && d.trace[..|s.trace|] == s.trace
            && |d.log| == |s.log| + |files| + 1 && d.log[..|s.log|] == s.log
  {
    var e, names := SrcEndpoints(c), DocIds(files, c.sourcePath);
    var l := Loop(server, e, disk, s, files, names);
    LoopGrows(server, e, disk, s, files, names);
    var post := CompileRequest(e, l.headers, BatchBody(files, c.sourcePath));
    var severity := CompileSeverity(server(l.trace, post).status);
    assert Deploy(server, c, disk, s, files) == Session(l.trace + [post], l.headers, l.log + [severity]);
    PrefixSnoc(l.trace, |s.trace|, post);
    PrefixSnoc(l.log, |s.log|, severity);
  }

  /** Appending to a sequence keeps its prefixes. */
  lemma PrefixSnoc<T>(t: seq<T>, n: int, x: T)
    requires 0 <= n <= |t|
    ensures (t + [x])[..n] == t[..n]
  {
  }

  /** A deployment sends exactly one POST, last: the compile of the whole
      list, to the bare compile URL, whatever the loop did. */
  lemma DeployOnePost(server: Server, c: Config, disk: Disk, s: Session, files: seq<string>)
    ensures var d := Deploy(server, c, disk, s, files);
            var post := CompileRequest(SrcEndpoints(c), d.headers, BatchBody(files, c.sourcePath));
            && |s.trace| < |d.trace|
            && d.trace[|d.trace| - 1] == post
            && OfVerb(d.trace[|s.trace|..], Post) == [post]
  {
    var e, names := SrcEndpoints(c), DocIds(files, c.sourcePath);
    var l := Loop(server, e, disk, s, files, names);
    LoopNoPost(server, e, disk, s, files, names);
    OfVerbSnoc(l.trace, |s.trace|, CompileRequest(e, l.headers, BatchBody(files, c.sourcePath)), Post);
  }

  /** When the source root holds no `"` (and is not `,`), the compile lists
      the document names of all the files, skipped or not. */
  lemma DeployCompilesAll(server: Server, c: Config, disk: Disk, s: Session, files: seq<string>)
    requires '"' !in c.sourcePath && c.sourcePath != ","
    ensures var d := Deploy(server, c, disk, s, files);
            && d.trace != []
            && d.trace[|d.trace| - 1].body == Text("[\"" + Join(DocIds(files, c.sourcePath), ListSeparator) + "\"]")
  {
    BatchBodyListsDocIds(files, c.sourcePath);
  }

  /** The GETs of a deployment are one per file, in list order, each to the
      file's document name. */
  lemma DeployGets(server: Server, c: Config, disk: Disk, s: Session, files: seq<string>)
    ensures var d := Deploy(server, c, disk, s, files);
            && |s.trace| <= |d.trace|
            && |OfVerb(d.trace[|s.trace|..], Get)| == |files|
            && forall i :: 0 <= i < |files| ==>
                 OfVerb(d.trace[|s.trace|..], Get)[i].url == SrcEndpoints(c).getDoc + DocId(files[i], c.sourcePath)
  {
    var e, names := SrcEndpoints(c), DocIds(files, c.sourcePath);
    var l := Loop(server, e, disk, s, files, names);
    var d := Deploy(server, c, disk, s, files);
    LoopGets(server, e, disk, s, files, names);
    OfVerbSnoc(l.trace, |s.trace|, CompileRequest(e, l.headers, BatchBody(files, c.sourcePath)), Get);
  }

  /** The early return never happens: an empty list still sends one compile,
      whose body is `[""]`. */
  lemma DeployEmpty(server: Server, c: Config, disk: Disk, s: Session)
    ensures Deploy(server, c, disk, s, []).trace == s.trace + [CompileRequest(SrcEndpoints(c), s.headers, "[\"\"]")]
  {
    assert Join([], ListSeparator) == "";
    assert Replace("", c.sourcePath, "") == "";
    assert Replace("", "/", ".") == "";
    assert BatchBody([], c.sourcePath) == "[\"" + "" + "\"]" == "[\"\"]";
  }

  // ---------------------------------------------------------------------------
  // The deployer
  // ---------------------------------------------------------------------------

  class IrisDeployer {
    const config: Config
    const endpoints: Endpoints := SrcEndpoints(config)
    /** The server behind the session. */
    const server: Server
    /** The session headers; once set, `If-None-Match` is never removed. */
    var headers: map<string, string>
    /** Every request issued on the session so far, in order. */
    var trace: seq<Request>
    /** The severity of every outcome logged so far, in order. */
    var log: seq<Severity>

    constructor (config: Config, server: Server)
      ensures this.config == config && this.server == server
      ensures headers == InitialHeaders && trace == [] && log == []
    {
      this.config := config;
      this.server := server;
      headers := InitialHeaders;
      trace := [];
      log := [];
    }

    function State(): (s: Session)
      reads this
    {
      Session(trace, headers, log)
    }

    /** One call on the session. */
    method Issue(req: Request) returns (response: Response)
      modifies this`trace
      ensures trace == old(trace) + [req]
      ensures response == server(old(trace), req)
    {
      response := server(trace, req);
      trace := trace + [req];
    }

    /** `compile_docs`: one POST of the list to the bare compile URL; `flags`
        is accepted and not used. */
    method CompileDocs(docList: string, flags: string := "cukb")
      modifies this`trace, this`log
      ensures var req := CompileRequest(endpoints, headers, docList);
              && trace == old(trace) + [req]
              && log == old(log) + [CompileSeverity(server(old(trace), req).status)]
    {
      var response := Issue(Request(Post, endpoints.compileDocs, headers, Text(docList)));
      match response.status {
        case 200 | 201 =>
          log := log + [Info];
        case 409 | 423 =>
          log := log + [Warning];
        case _ =>
          log := log + [Error];
      }
    }

    /** `delete_docs`: one DELETE of the list. */
    method DeleteDocs(docList: string)
      modifies this`trace, this`log
      ensures var req := DeleteRequest(endpoints, headers, docList);
              && trace == old(trace) + [req]
              && log == old(log) + [DeleteSeverity(server(old(trace), req).status)]
    {
      var response := Issue(Request(Delete, endpoints.deleteDocs, headers, Text(docList)));
      match response.status {
        case 200 =>
          log := log + [Info];
        case _ =>
          log := log + [Error];
      }
    }

    /** `get_doc`: one GET; the document for 200 and 404, otherwise an error
        is logged and nothing is yielded. */
    method GetDoc(fileName: string) returns (document: Option<Snapshot>)
      modifies this`trace, this`log
      ensures var req := GetRequest(endpoints, headers, fileName);
              && trace == old(trace) + [req]
              && document == FoundDocument(server(old(trace), req))
              && log == (if document.None? then old(log) + [Error] else old(log))
    {
      var response := Issue(Request(Get, endpoints.getDoc + fileName, headers, NoBody));
      match response.status {
        case 200 | 404 =>
          return Some(Snapshot(response.ts));
        case _ =>
          log := log + [Error];
      }
      return None;
    }

    /** `put_doc`: one PUT of the document to the document URL. */
    method PutDoc(sourceDocument: Body, fileName: string)
      modifies this`trace, this`log
      ensures var req := Request(Put, endpoints.putDoc + fileName, headers, sourceDocument);
              && trace == old(trace) + [req]
              && log == old(log) + [PutSeverity(server(old(trace), req).status)]
    {
      var response := Issue(Request(Put, endpoints.putDoc + fileName, headers, sourceDocument));
      match response.status {
        case 200 | 201 =>
          log := log + [Info];
        case 409 | 425 =>
          log := log + [Warning];
        case _ =>
          log := log + [Error];
      }
    }

    /** The rest of a pass once a document came back: its timestamp, when not
        empty, goes into `If-None-Match`; then the file's lines are
        right-stripped and PUT. */
    method PutFound(sourceFile: string, fileName: string, document: Snapshot, disk: Disk)
      modifies this`trace, this`headers, this`log
      ensures headers == WithToken(old(headers), document.ts)
      ensures var put := PutRequest(endpoints, headers, fileName, disk(sourceFile));
              && trace == old(trace) + [put]
              && log == old(log) + [PutSeverity(server(old(trace), put).status)]
    {
      if document.ts != "" {
        headers := headers[IfNoneMatch := document.ts];
      }
      var content := StripLines(disk(sourceFile));
      PutDoc(Document(false, content), fileName);
    }

    /** The loop of `deploy_docs`: for each file, its document name, the GET,
        a skip when no document is yielded, otherwise the token update and
        the PUT of its right-stripped lines. */
    method DeployEach(changedFiles: seq<string>, disk: Disk)
      modifies this`trace, this`headers, this`log
      ensures State() == Loop(server, endpoints, disk, old(State()), changedFiles, DocIds(changedFiles, config.sourcePath))
    {
      ghost var s0 := State();
      ghost var names := DocIds(changedFiles, config.sourcePath);
      for i := 0 to |changedFiles|
        invariant State() == Loop(server, endpoints, disk, s0, changedFiles[..i], names[..i])
      {
        LoopSnoc(server, endpoints, disk, s0, changedFiles, names, i);
        ghost var p := State();
        var sourceFile := changedFiles[i];
        var fileName := DocId(sourceFile, config.sourcePath);
        assert fileName == names[i];
        var document := GetDoc(fileName);
        if document.None? {
          StepSkips(server, endpoints, disk, p, sourceFile, fileName);
          assert State() == Step(server, endpoints, disk, p, sourceFile, fileName);
          continue;
        }
        PutFound(sourceFile, fileName, document.value, disk);
        StepPuts(server, endpoints, disk, p, sourceFile, fileName);
        assert State() == Step(server, endpoints, disk, p, sourceFile, fileName);
      }
      assert changedFiles[..|changedFiles|] == changedFiles && names[..|changedFiles|] == names;
    }

    /** `deploy_docs`. Its guard compares the bound method `changed_files.count`
        with 0, which never holds, so there is no early return: the loop, then
        the compile of the whole list. */
    method DeployDocs(changedFiles: seq<string>, disk: Disk)
      modifies this`trace, this`headers, this`log
      ensures State() == Deploy(server, config, disk, old(State()), changedFiles)
    {
      DeployEach(changedFiles, disk);
      var filesToCompile := BatchBody(changedFiles, config.sourcePath);
      CompileDocs(filesToCompile);
    }
  }
}
