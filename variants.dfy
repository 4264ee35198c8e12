/** Where the two deployers agree and where they part: the URLs, the reading
    of each status, and what an empty list sends. */
module Variants {
  import opened Atelier
  import RootDeployer
  import SrcDeployer

  /** The two variants build the same URLs exactly when the configured base
      URL is the one the `src/` variant hard-codes. */
  lemma EndpointsAgreeIff(c: Config)
    ensures RootDeployer.RootEndpoints(c) == SrcDeployer.SrcEndpoints(c) <==> c.apiBaseUrl == "/api/atelier/"
  {
    if RootDeployer.RootEndpoints(c) == SrcDeployer.SrcEndpoints(c) {
      UrlMiddle(Authority(c), c.apiBaseUrl, "/api/atelier/", c.apiVersion, c.namespace);
    }
  }

  /** Two document URLs that differ only in the base URL have the same base. */
  lemma UrlMiddle(a: string, x: string, y: string, version: string, namespace: string)
    requires a + x + version + "/" + namespace + "/" + "doc/" == a + y + version + "/" + namespace + "/" + "doc/"
    ensures x == y
  {
    var z := version + "/" + namespace + "/" + "doc/";
    assert a + x + version + "/" + namespace + "/" + "doc/" == a + x + z;
    assert a + y + version + "/" + namespace + "/" + "doc/" == a + y + z;
    MiddlesAgree(a, x, y, z);
  }

  /** Equal strings with the same ends have the same middle. */
  lemma MiddlesAgree(a: string, x: string, y: string, z: string)
    requires a + x + z == a + y + z
    ensures x == y
  {
    assert |x| == |y|;
    assert (a + x + z)[|a|..|a| + |x|] == x;
    assert (a + y + z)[|a|..|a| + |y|] == y;
  }

  /** A GET fails in the root variant exactly when the `src/` variant yields
      no document for it. */
  lemma GetVerdictsAgree(resp: Response)
    ensures RootDeployer.GetDocFails(resp.status) <==> SrcDeployer.FoundDocument(resp).None?
  {
  }

  /** A PUT raises the root variant's flag exactly when the `src/` variant
      logs it as an error. */
  lemma PutVerdictsAgree(status: int)
    ensures RootDeployer.PutDocFails(status) <==> SrcDeployer.PutSeverity(status) == SrcDeployer.Error
  {
  }

  /** The compile verdicts part: 403 is a warning at the root and an error
      under `src/`, 423 the other way round, and a 200 with a summary is an
      error at the root and information under `src/`. */
  lemma CompileVerdictsDiffer(summary: string)
    ensures !RootDeployer.CompileDocsFails(403, None) && SrcDeployer.CompileSeverity(403) == SrcDeployer.Error
    ensures RootDeployer.CompileDocsFails(423, None) && SrcDeployer.CompileSeverity(423) == SrcDeployer.Warning
    ensures RootDeployer.CompileDocsFails(200, Some(summary)) && SrcDeployer.CompileSeverity(200) == SrcDeployer.Info
  {
  }

  /** For an empty list the root variant sends nothing, the `src/` variant a
      compile of `[""]`. */
  lemma EmptyListsDiffer(server: Server, c: Config, disk: Disk, s: SrcDeployer.Session)
    ensures RootDeployer.DeployRequests(c, s.headers, disk, []) == []
    ensures SrcDeployer.Deploy(server, c, disk, s, []).trace
            == s.trace + [SrcDeployer.CompileRequest(SrcDeployer.SrcEndpoints(c), s.headers, "[\"\"]")]
  {
    SrcDeployer.DeployEmpty(server, c, disk, s);
  }
}
