# IRIS deployer, modelled in Dafny

The repository holds two variants of `IrisDeployer`, a class that pushes a
list of changed source files to an InterSystems IRIS server through its
Atelier REST interface. For each file the class fetches the document (GET),
possibly records the document's timestamp in the `If-None-Match` header, and
uploads the file's right-stripped lines (PUT). It then compiles the whole
list with one POST. A separate call deletes documents (DELETE). The two
variants get separate models because they behave differently:

- `iris_deployer.py` (module `RootDeployer`): `get_doc`, `put_doc` and
  `compile_docs` fold the status they receive into one error flag,
  `__has_error`; `delete_docs` only logs; `exit` turns the flag into the
  process exit status. `get_doc` has no `return`, so the header
  update in `deploy_docs` is dead code.
- `src/iris_deployer.py` (module `SrcDeployer`): the handlers only log, and
  the model keeps the severity of each logged outcome. A document that
  `get_doc` does not yield makes the loop skip the file. A non-empty
  timestamp it yields is stored under `If-None-Match` and stays there for
  every later call until a later non-empty timestamp replaces it; an empty
  one changes nothing. `compile_docs`
  goes to the bare compile URL and ignores its `flags`. The guard
  `changed_files.count == 0` compares a bound method with 0, so it never
  holds, and an empty list still sends a compile of `[""]`.

Files:
- `strings.dfy` (`PyStrings`) gives the Python string operations the code
  relies on, with Python's semantics:
  - `str.replace` replaces every non-overlapping occurrence, scanning left to
    right; an empty pattern inserts the replacement;
  - `str.join`;
  - `str.rstrip()`, using Python's whitespace set;
  - `str(int)`.
- `atelier.dfy` (`Atelier`) holds what both variants share:
  - the configuration, requests and responses;
  - the initial headers, the URL authority and the path-to-document-name
    translation;
  - the JSON list body of a batch call;
  - the line-stripping loop.
- `root_deployer.dfy` and `src_deployer.dfy` hold one `IrisDeployer` class
  each. Each class keeps the state the source mutates: the flag or the
  severity log, the session headers, and the trace of issued requests.
  Beside each class are the specification functions its methods are proved
  against, with lemmas about those functions. In the root variant,
  `DeployRequests` does not depend on the server's answers. In the src
  variant, `Step`, `Loop` and `Deploy` do.
- `variants.dfy` (`Variants`) relates the two variants.

The server is an oracle `(seq<Request>, Request) -> Response`: an answer may
depend on every earlier request of the session. A local file is given by
`Disk`, the lines it yields when read.

Points where the code behaves differently from what one might expect:
- The translation removes every occurrence of the source root, not only a
  leading one.
- The translation is idempotent when the root contains `/` or is empty
  (`DocIdIdempotent`); without a `/` it can fail: under the root `src`,
  `ssrcrc` becomes `src`, which translates again to the empty name
  (`DocIdMayKeepSourcePath`).
- Two paths can collide on one name (`DocIdNotInjective`); the code does not
  check for this.
- In the src variant, `If-None-Match` persists for the whole session rather
  than applying to a single call: a timestamp fetched for one document is
  sent with the PUTs of later, unrelated documents (`LoopKeepsToken`,
  `LoopLastToken`).

## Model

| member | source | states |
|---|---|---|
| PyStrings.Replace | iris_deployer.py:92 | Python's `str.replace`, every non-overlapping occurrence from the left; a non-empty pattern replaced by a text no longer than itself never lengthens the string, and by one of equal length keeps its length |
| PyStrings.Join | iris_deployer.py:110 | Python's `sep.join`: the first element starts the result and the last one ends it |
| PyStrings.Decimal | iris_deployer.py:31 | Python's `str` on an int: a leading `-` exactly for a negative number, decimal digits everywhere else |
| PyStrings.RStrip | iris_deployer.py:105 | the result is the longest prefix not ending in whitespace; everything cut off is whitespace |
| PyStrings.DecimalRoundTrip | iris_deployer.py:31 | the decimal rendering of the port parses back to the port |
| PyStrings.ReplaceEmptyByEmpty | iris_deployer.py:92 | an empty source root removes nothing, so the translation step is the identity |
| PyStrings.ReplaceCharAt | iris_deployer.py:92 | replacing `/` by `.` maps each character and keeps the length |
| PyStrings.ReplaceAbsent | iris_deployer.py:92 | a string without the pattern is left unchanged |
| PyStrings.ReplaceConcat | iris_deployer.py:110-112 | replace distributes over a concatenation whose seam no occurrence crosses |
| PyStrings.ReplaceJoin | iris_deployer.py:110-112 | replacing in a joined string equals joining the element-wise replacements, when the pattern cannot meet the separator |
| Atelier.Protocol | iris_deployer.py:29 | the protocol is `http` exactly when `https == 0`, otherwise `https` |
| Atelier.Authority | iris_deployer.py:31 | the authority is the protocol, `://`, the host and `:`, followed by exactly the decimal port, which parses back to the configured port |
| Atelier.DocId | iris_deployer.py:92 | the document name of a path (every occurrence of the root removed, then `/` turned into `.`) contains no `/` |
| Atelier.BatchBody | iris_deployer.py:110-112 | the batch body starts with `["`, ends with `"]` and contains no `/` |
| Atelier.StripLines | iris_deployer.py:100-107 | the content has one entry per file line, in order, each line right-stripped |
| Atelier.DocIdHasNoSourcePath | iris_deployer.py:92 | when the source root contains `/`, no occurrence of it remains in the name |
| Atelier.DocIdMayKeepSourcePath | iris_deployer.py:92 | without `/` in the root an occurrence can survive (`ssrcrc` becomes `src`), and translating again changes the name |
| Atelier.DocIdOfRootedPath | iris_deployer.py:92 | root followed by `r`, with `r` free of the root and of `/`, translates to exactly `r` |
| Atelier.DocIdIdempotent | src/iris_deployer.py:94 | with `/` in the root, or an empty root, translating a document name again changes nothing |
| Atelier.DocIdNotInjective | iris_deployer.py:92 | `src/a/b` and `src/a.b` get the same document name |
| Atelier.BatchBodyListsDocIds | iris_deployer.py:110-112 | when the root has no `"` (and is not `,`), the batch body is `["` + the files' document names joined by `","` + `"]` |
| RootDeployer.RootEndpoints | iris_deployer.py:29-41 | the four URLs are built from the authority, base URL, version and namespace; the GET and PUT URLs are equal |
| RootDeployer.GetDocFails | iris_deployer.py:123-128 | `get_doc` treats a status as an error exactly when it is neither 200 nor 404 |
| RootDeployer.PutDocFails | iris_deployer.py:137-144 | `put_doc` treats a status as an error exactly when it is outside {200, 201, 409, 425}; 409 and 425 are only warnings |
| RootDeployer.CompileDocsFails | iris_deployer.py:56-67 | `compile_docs` treats an answer as an error exactly when its status is outside {200, 201, 409, 403}, or is 200/201 with a summary |
| RootDeployer.DeployRequests | iris_deployer.py:81-114 | an empty list sends nothing; otherwise two requests per file and one more, the last being a POST |
| RootDeployer.FileRequestsShape | iris_deployer.py:89-108 | request `2i` is file `i`'s GET and `2i+1` its PUT of the right-stripped lines |
| RootDeployer.DeployRequestsShape | iris_deployer.py:89-114 | a non-empty deployment is GET(T(f)), PUT(T(f)) per file in order, no POST among them, then one compile POST of the whole list whatever the answers |
| RootDeployer.AnyFailsIff | iris_deployer.py:56-144 | the flag's fold is true exactly when some call's answer is an error for its handler |
| RootDeployer.AnyFailsPersists | iris_deployer.py:60-67 | once raised, the flag cannot be cleared by later calls: it is only ever assigned `True` |
| RootDeployer.DeletesNeverFail | iris_deployer.py:73-79 | delete calls never raise the flag, whatever their status |
| RootDeployer.IrisDeployer.constructor | iris_deployer.py:13-45 | the flag is clear, the headers are the JSON defaults, nothing was sent |
| RootDeployer.IrisDeployer.CompileDocs | iris_deployer.py:47-67 | one POST to the compile URL + `?source=0&flags=` + the flags; the flag is raised exactly for a 200/201 with a summary or a status outside {200, 201, 409, 403} |
| RootDeployer.IrisDeployer.DeleteDocs | iris_deployer.py:69-79 | one DELETE of the list; the flag is unchanged |
| RootDeployer.IrisDeployer.GetDoc | iris_deployer.py:116-128 | one GET; the flag is raised exactly for a status outside {200, 404}; the result is always `None` |
| RootDeployer.IrisDeployer.PutDoc | iris_deployer.py:130-144 | one PUT to the document URL; the flag is raised exactly for a status outside {200, 201, 409, 425} |
| RootDeployer.IrisDeployer.DeployFile | iris_deployer.py:93-108 | one pass is the file's GET then its PUT; the headers are unchanged because the update branch is dead |
| RootDeployer.IrisDeployer.DeployNext | iris_deployer.py:89-108 | the pass for file `i` extends the trace and the flag from the first `i` files to the first `i + 1` |
| RootDeployer.IrisDeployer.DeployEach | iris_deployer.py:89-108 | the loop appends the GETs and PUTs of `FileRequests` and folds their answers into the flag |
| RootDeployer.IrisDeployer.DeployDocs | iris_deployer.py:81-114 | the trace grows by `DeployRequests` and the flag by its answers; an empty list sends nothing and keeps the flag |
| RootDeployer.IrisDeployer.DeployAndCompile | iris_deployer.py:89-114 | for a non-empty list, the loop and then the compile append `DeployRequests` to the trace and fold their answers into the flag |
| RootDeployer.IrisDeployer.DeleteFiles | iris_deployer.py:180-183 | for a non-empty list, one DELETE whose body is the batch body of the deleted files; the flag is unchanged |
| RootDeployer.IrisDeployer.Exit | iris_deployer.py:146-152 | the exit status is 1 exactly when the flag is set, 0 exactly when it is not |
| SrcDeployer.SrcEndpoints | src/iris_deployer.py:25-37 | the URLs use the hard-coded `/api/atelier/`; the GET and PUT URLs are equal |
| SrcDeployer.SrcEndpointsIgnoreApiBaseUrl | src/iris_deployer.py:21 | the configured base URL plays no part in any URL |
| SrcDeployer.PutSeverity | src/iris_deployer.py:146-162 | 200/201 are information, 409/425 warnings, anything else an error |
| SrcDeployer.CompileSeverity | src/iris_deployer.py:50-66 | 200/201 are information, 409/423 warnings, anything else an error |
| SrcDeployer.DeleteSeverity | src/iris_deployer.py:74-81 | 200 is information, anything else an error, never a warning |
| SrcDeployer.WithToken | src/iris_deployer.py:100-101 | a non-empty timestamp is stored under `If-None-Match`, an empty one leaves the headers as they are; no other header changes and none is removed |
| SrcDeployer.Step | src/iris_deployer.py:94-113 | one pass of the loop starts with the file's GET, adds one or two requests to the trace and one severity to the log |
| SrcDeployer.Loop | src/iris_deployer.py:91-113 | the loop adds at least one and at most two requests per file, and one severity per file |
| SrcDeployer.Deploy | src/iris_deployer.py:83-119 | a deployment adds between one and two requests per file plus one, and one severity per file plus one |
| SrcDeployer.FoundDocument | src/iris_deployer.py:129-136 | a document, carrying the timestamp, exactly for 200 and 404 |
| SrcDeployer.StepSkips | src/iris_deployer.py:95-97 | when no document comes back, the pass issues only the GET, keeps the headers and logs an error |
| SrcDeployer.StepPuts | src/iris_deployer.py:99-113 | when a document comes back, the pass issues the GET, then the PUT with the updated headers, and logs the PUT's severity |
| SrcDeployer.StepShape | src/iris_deployer.py:94-113 | a pass issues exactly one GET and no POST, a PUT exactly when a document came back, and changes the headers only by the timestamp |
| SrcDeployer.LoopGrows | src/iris_deployer.py:91-113 | the loop only appends to the trace, and logs one severity per file |
| SrcDeployer.LoopGets | src/iris_deployer.py:91-95 | the GETs of the loop are one per file, in list order, each to the file's document name |
| SrcDeployer.LoopHeaders | src/iris_deployer.py:100-101 | the loop only adds or overwrites `If-None-Match`; no header is removed; every other header is kept |
| SrcDeployer.LoopPuts | src/iris_deployer.py:104-113 | every PUT comes right after a GET of the same URL and sends one file's right-stripped lines under its name |
| SrcDeployer.LoopNoneFound | src/iris_deployer.py:95-97 | when no GET yields a document, the trace gains only the GETs, the headers are unchanged, and one error is logged per file |
| SrcDeployer.LoopAllFound | src/iris_deployer.py:91-113 | when every GET yields a document, the trace is each file's GET and then its PUT, in order |
| SrcDeployer.LoopKeepsToken | src/iris_deployer.py:100-101 | a token already in `If-None-Match` stays there through every later pass, skipped files included, and every later PUT carries it, as long as no document fetched from then on has a non-empty timestamp |
| SrcDeployer.TokenOutlivesItsDocument | src/iris_deployer.py:100-101 | once a file's document came back with timestamp `t`, its PUT and the PUTs of all the files after it carry `t`, skipped files included, as long as no later document brings a timestamp of its own |
| SrcDeployer.LoopLastToken | src/iris_deployer.py:100-101 | after the loop, `If-None-Match` holds the timestamp of the last fetched document whose timestamp was not empty; without one the headers are those the loop started with |
| SrcDeployer.LoopNoPost | src/iris_deployer.py:91-113 | the loop sends no POST |
| SrcDeployer.DeployGrows | src/iris_deployer.py:83-119 | a deployment only appends, and logs one severity per file plus one for the compile |
| SrcDeployer.DeployOnePost | src/iris_deployer.py:115-119 | exactly one POST, sent last to the bare compile URL with the whole list, whatever the loop did |
| SrcDeployer.DeployCompilesAll | src/iris_deployer.py:115-117 | the compile lists the document names of all files, skipped ones included |
| SrcDeployer.DeployGets | src/iris_deployer.py:91-95 | a deployment's GETs are one per file, in order, to its document name |
| SrcDeployer.DeployEmpty | src/iris_deployer.py:87-89 | an empty list still sends one compile, with body `[""]` |
| SrcDeployer.IrisDeployer.constructor | src/iris_deployer.py:13-41 | the headers are the JSON defaults; nothing was sent or logged |
| SrcDeployer.IrisDeployer.CompileDocs | src/iris_deployer.py:43-66 | one POST to the bare compile URL whatever `flags` is; its severity is logged |
| SrcDeployer.IrisDeployer.DeleteDocs | src/iris_deployer.py:68-81 | one DELETE of the list; its severity is logged |
| SrcDeployer.IrisDeployer.GetDoc | src/iris_deployer.py:121-136 | one GET; the result is the document for 200/404, otherwise nothing and an error is logged |
| SrcDeployer.IrisDeployer.PutDoc | src/iris_deployer.py:138-162 | one PUT to the document URL; its severity is logged |
| SrcDeployer.IrisDeployer.PutFound | src/iris_deployer.py:100-113 | the headers take a non-empty timestamp, then one PUT of the right-stripped lines is logged |
| SrcDeployer.IrisDeployer.DeployEach | src/iris_deployer.py:91-113 | the session state after the loop is `Loop` of the state before |
| SrcDeployer.IrisDeployer.DeployDocs | src/iris_deployer.py:83-119 | the session state after the call is `Deploy` of the state before |
| Variants.EndpointsAgreeIff | src/iris_deployer.py:27-37 | the variants' URLs agree exactly when the configured base URL is `/api/atelier/` |
| Variants.GetVerdictsAgree | src/iris_deployer.py:129-136 | a GET raises the root flag exactly when the src variant yields no document |
| Variants.PutVerdictsAgree | src/iris_deployer.py:146-162 | a PUT raises the root flag exactly when the src variant logs an error |
| Variants.CompileVerdictsDiffer | src/iris_deployer.py:50-66 | 403, 423 and a 200 with a summary are judged differently by the two variants |
| Variants.EmptyListsDiffer | src/iris_deployer.py:87-89 | for an empty list the root variant sends nothing and the src variant one compile of `[""]` |

## Left out
- The HTTP transport, TLS and Basic authentication: a server oracle and a request trace replace them, and the credentials are only carried in `Config`.
- JSON parsing and serialisation (`json.loads`, `json.load`, `json.dumps` with `ensure_ascii`): responses are already-parsed records, malformed JSON is assumed not to occur, the keys the handlers read from a response (`console`, `status.summary`, `result.status`) are assumed present, whereas a missing one raises `KeyError` and ends the run, and a PUT body is the document record rather than its serialisation.
- The logging sinks and the message text: the root variant's messages are not modelled. The src variant keeps only the severity of each handler's outcome; its entry messages (`COMPILLING DOCUMENTS`, `GETTING DOCUMENT`, …) and the console echo of each file in the loop are omitted.
- Opening and reading files: a file is the sequence of lines it yields, a parameter of the deployment.
- The environment variables and both `__main__` blocks. The exception is the root variant's delete-body expression, modelled as `DeleteFiles`. The src `__main__` cannot run as written: `changed_files.count > 0` compares a method with an int, `deploy_docs()` lacks its argument (line 178), and `.split` is applied to a list (line 184).
- `in_debug_mode` and the debug blocks with hard-coded hosts and credentials.
- `sys.exit`: `Exit` returns the exit code.
- SrcDeployer.IrisDeployer.GetDoc: as written, `get_doc` fails before any request, because `url` is used before it is assigned (line 125); `json.load` is also called on a string (line 131), and the loop reads `document.ts` from what would be a dict. The model takes the source's intent: for 200/404 the document is the answer's timestamp (`FoundDocument`).
- The string `ts` of the src variant's document is taken from the response record rather than from its JSON.
- The root variant's `delete_docs` status only chooses a log level, so the model records only that the DELETE was sent.
- The `str.replace` edge case of an empty source root: it is modelled with Python's semantics, under which removing `""` is the identity (`ReplaceEmptyByEmpty`).
