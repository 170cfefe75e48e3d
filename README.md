# eslint-tsc-action, modelled in Dafny

This project models the GitHub Action that runs ESLint and the TypeScript
compiler over a set of files and reports what they find as annotations on a
GitHub check run. The model covers three parts of the action:

- the **ESLint normaliser** (`eslint.dfy`). Each message of each lint result
  becomes one annotation, and the result order and then the message order are
  kept. The severity picks the level from the table notice/warning/failure.
  The title names the rule when there is one. The start line is `line || 0`
  and the end line is `endLine || line || 0`. The annotation carries columns
  only when its start and end line coincide.
- the **TypeScript normaliser** (`tsc.dfy`). A missing compiler configuration
  fails with `config file not found!`. Each root file's pre-emit diagnostics
  are turned into failure annotations. A root file whose diagnostics could not
  be retrieved is skipped. A diagnostic without a file or a start offset is
  skipped, and so is one whose file is not in scope. The line and column come
  from the file's line-start table. The end column is `character + length`.
  The title is `TypeScript Compiler: Code <code>`. The message is the
  formatted diagnostic with the first occurrence of the relative path cut out.
- **check-run reporting** (`checkruns.dfy`, `action.dfy`). When a check name is
  configured, the action lists the in-progress runs on the commit and takes the
  id of the *last* run with that name. Otherwise, or when no run matches, it
  creates a run. It then sends the ESLint annotations followed by the
  TypeScript annotations, in pages of 50, one `update` request per page with
  conclusion `success`.

Supporting modules:

- `wrappers.dfy` holds `Option` and `Result`.
- `annotations.dfy` holds the annotation record.
- `text.dfy` holds the decimal rendering of `${code}` and the first-occurrence
  `String.prototype.replace`.
- `chunking.dfy` holds lodash's `chunk`.
- `seqs.dfy` holds the "push every output of every element" shape that both
  normalisers' loops share.

Both normalisers are methods with nested loops. Each is proved equal to a
specification function, and the properties the action promises are proved
about that function. The check-run service is a class, `CheckService`. It
answers `listForRef` from its list of runs, hands out ids on `create`, and
records every request it receives. The reporting methods are proved to issue
exactly the request sequence `ReportCalls`, and the paging, ordering and
run-selection properties are lemmas about that sequence.

Notes on the code's behaviour:

- The search loop at `src/index.ts:34-40` has no `break`, so the last matching
  run wins.
- The listing request at `src/index.ts:27-32` gives no `per_page`, and the loop
  reads only that response's `check_runs`. So only the first page of matching
  runs is searched, which holds at most 30 runs by GitHub's default.
- The `create` request at `src/index.ts:44-47` passes only `owner` and `repo`.
- Every update carries `conclusion: 'success'` (`src/index.ts:52-64`). With no
  annotations, no update is sent. The listing is still sent when a check name
  is configured, and the creation when no listed run matched.
- The TypeScript end column is `character + length` (`src/tsc.ts:94`).
- `run()` calls `eslint()` and `tsc()` without the set of files to lint
  (`src/index.ts:17-18`). In JavaScript, spreading that missing argument at
  `src/eslint.ts:20` would throw. The model passes the scope explicitly, as
  both normalisers' signatures require.

## Model

| member | source | states |
|---|---|---|
| ESLint.Or | src/eslint.ts:32-33 | JavaScript's logical or on a possibly-undefined number: the first operand when present and non-zero, the fallback otherwise |
| ESLint.SeverityLevel | src/eslint.ts:5-9 | severity 0, 1, 2 map to notice, warning, failure |
| ESLint.Title | src/eslint.ts:35 | the title is plain `ESLint` exactly when the rule id is missing or empty; otherwise it is `ESLint: ` followed by the rule id |
| ESLint.MessageAnnotationFields | src/eslint.ts:31-49 | path, message, level and title of an annotation; start line is the line, or 0 when missing or 0; end line is the end line when present and non-zero, else the start line; columns present exactly on a single-line annotation, and then the column (or 0) and the end column (or the column, or 0) |
| ESLint.Normalize | src/eslint.ts:22-55 | the nested loops produce exactly `ResultsAnnotations(results)` |
| ESLint.MessagesAt | src/eslint.ts:27-51 | one annotation per message of a file, the j-th built from the j-th message |
| ESLint.ResultsLength | src/eslint.ts:24-53 | the number of annotations is the total number of messages |
| ESLint.ResultsAt | src/eslint.ts:24-53 | message j of result i yields the annotation at position (messages before result i) + j, on result i's relative path |
| ESLint.ResultsColumnsOnlyOnSingleLine | src/eslint.ts:46-49 | every ESLint annotation has columns exactly when its start and end line coincide |
| Text.DecimalString | src/tsc.ts:109 | `${code}` renders digits only, without a leading zero, and parses back to the code |
| Text.DecimalStringInjective | src/tsc.ts:109 | different codes render differently |
| Text.IndexFrom | src/tsc.ts:101-107 | the search from index k finds the first occurrence at or after k, or reports that none exists |
| Text.IndexOf | src/tsc.ts:101-107 | `indexOf` returns the earliest occurrence, or none when the pattern does not occur |
| Text.RemoveFirstAbsent | src/tsc.ts:101-107 | `replace` leaves the text unchanged when the path does not occur |
| Text.RemoveFirstPresent | src/tsc.ts:101-107 | when the path occurs, `replace` cuts out exactly its earliest occurrence; putting it back restores the text, and the result is shorter by the path's length |
| Tsc.LineFrom | src/tsc.ts:87-89 | the scan finds the last line, at or before the bound, that starts at or before the offset |
| Tsc.LineAndCharacterOf | src/tsc.ts:87-89 | `getLineAndCharacterOfPosition` returns the line containing the offset and the offset within that line |
| Tsc.LineIsUnique | src/tsc.ts:87-89 | any line containing the offset is the line returned |
| Tsc.Title | src/tsc.ts:109 | the title is `TypeScript Compiler: Code ` followed by decimal digits, without a leading zero, that parse back to the code |
| Tsc.TitleDeterminesCode | src/tsc.ts:109 | equal titles mean equal codes |
| Tsc.Annotate | src/tsc.ts:87-122 | failure level, code title, path-stripped message; 1-based start line holding the offset, end line equal to it; start column = offset within the line + 1; end column = start column + (length ?? 0) - 1 |
| Tsc.DiagnosticAnnotation | src/tsc.ts:76-85 | a diagnostic yields an annotation exactly when it has a file and a start offset and its relative path is in scope, and the annotation is on that path |
| Tsc.Normalize | src/tsc.ts:14-124 | no configuration gives the error `config file not found!`; with one, the loops produce exactly `RootsAnnotations(roots)` |
| Tsc.KeptDiagnosticContributesAnnotation | src/tsc.ts:87-122 | a kept diagnostic contributes exactly its annotation, between the outputs of the diagnostics before and after it |
| Tsc.SkippedDiagnosticContributesNothing | src/tsc.ts:76-85 | removing a skipped diagnostic from a file's list leaves the output unchanged |
| Tsc.RetrievedFileContributesItsAnnotations | src/tsc.ts:44-124 | a root file whose diagnostics were retrieved contributes exactly its file's annotations, between the outputs of the root files before and after it |
| Tsc.ThrowingFileContributesNothing | src/tsc.ts:55-60 | a root file whose retrieval threw adds nothing, and the files after it are still processed |
| Tsc.FileReportable | src/tsc.ts:75-123 | every annotation of one file is on an in-scope path, at failure level, on one line numbered from 1, with a start column of at least 1 |
| Tsc.RootsReportable | src/tsc.ts:44-124 | the same holds for every annotation of the normaliser |
| Tsc.EmptyScopeYieldsNothing | src/tsc.ts:82-85 | an empty scope yields no annotations, whatever the diagnostics |
| Tsc.EmptyScopeFileYieldsNothing | src/tsc.ts:82-85 | an empty scope yields no annotations for any one file |
| Chunking.ChunkFlatten | src/index.ts:54 | concatenating the pages of `chunk(annotations, 50)` gives back the annotations in order |
| Chunking.ChunkCount | src/index.ts:54 | `chunk` makes ceil(K / size) pages |
| Chunking.ChunkSizes | src/index.ts:54 | every page holds 1 to `size` elements, and every page but the last holds exactly `size` |
| Chunking.ChunkEmpty | src/index.ts:54 | an empty list gives no pages |
| CheckRuns.Matching | src/index.ts:27-32 | exactly the runs on the commit in the requested state, by membership in both directions |
| CheckRuns.MatchingAppend | src/index.ts:27-32 | the filter keeps service order: the matches of a concatenation are the concatenated matches |
| CheckRuns.MatchingSingle | src/index.ts:27-32 | a single run is kept exactly when it is on the commit in the requested state |
| CheckRuns.Listed | src/index.ts:27-34 | a listing without `per_page` answers with the first page of the matching runs: a prefix of them, all of them when they fit in 30, otherwise exactly 30 |
| CheckRuns.CheckService.constructor | src/index.ts:14 | a fresh client has made no requests |
| CheckRuns.CheckService.ListForRef | src/index.ts:27-32 | answers with the listed runs and records the request |
| CheckRuns.CheckService.Create | src/index.ts:44-49 | returns the service's next id, advances it by one, and records a request that names neither run nor commit |
| CheckRuns.CheckService.Update | src/index.ts:55-64 | records the update with its run id, conclusion and page |
| CheckRuns.LastNamed | src/index.ts:34-40 | none exactly when no run has the name; otherwise the id of a run with the name after which no run has it |
| CheckRuns.FindCheckId | src/index.ts:34-40 | the loop, which does not stop at a match, ends with the id of the last run with the name |
| CheckRuns.ChosenIsLastMatch | src/index.ts:26-50 | with a name configured, the chosen id is that of the last matching in-progress run, or the new run's id when none matches |
| CheckRuns.EmptyNameAlwaysCreates | src/index.ts:26-50 | with an empty check name the new run's id is chosen |
| CheckRuns.ResolveCheckId | src/index.ts:23-50 | returns the chosen id; requests the listing exactly when a name is configured and the creation exactly when nothing was found; the next id advances exactly when a run is created; the runs are unchanged |
| CheckRuns.SendPages | src/index.ts:54-65 | one update per page, in page order, all against the same run with conclusion `success` |
| CheckRuns.Report | src/index.ts:23-65 | returns the chosen id and issues exactly `ReportCalls`; the next id advances exactly when a run is created; the runs are unchanged |
| CheckRuns.UpdatesSubmitted | src/index.ts:54-65 | the updates carry the pages concatenated in order |
| CheckRuns.UpdatesCounts | src/index.ts:54-65 | one update per page and no creation |
| CheckRuns.UpdatesShape | src/index.ts:54-65 | every update goes to the given run, concludes `success` and carries one of the pages |
| CheckRuns.PreludeFacts | src/index.ts:26-50 | the requests before the updates carry no annotations and hold one creation exactly when nothing was found |
| CheckRuns.CallsForCounts | src/index.ts:26-65 | a report submits the flattened pages, one update per page, and one creation exactly when nothing was found |
| CheckRuns.CallsForShape | src/index.ts:26-65 | every update goes to the chosen run with `success` and one page; the listing is requested exactly when a name is configured |
| CheckRuns.ReportPages | src/index.ts:54-65 | the updates carry back every annotation in its original order, in ceil(K / 50) requests |
| CheckRuns.NoAnnotationsNoUpdates | src/index.ts:54-65 | no annotations means no update requests |
| CheckRuns.ReportUpdatesUniform | src/index.ts:52-65 | every update goes to the chosen run, concludes `success` and carries 1 to 50 annotations |
| CheckRuns.ReportCreatesOnlyWhenNoneFound | src/index.ts:26-50 | a run is created exactly when none was found, so at most once; the listing is requested exactly when a name is configured |
| Action.Run | src/index.ts:9-66 | a missing compiler configuration aborts before any request; otherwise the result is the chosen id and the requests are `ReportCalls` over the ESLint annotations followed by the TypeScript ones; the next id advances exactly when a run is created; the runs are unchanged |
| Action.LintBeforeTsc | src/index.ts:15-18 | the submitted annotations are every ESLint one first, in order, then every TypeScript one, in order |
| Action.SubmittedColumnsOnlyOnSingleLine | src/index.ts:15-18 | every submitted annotation has columns exactly when it spans one line |
| Action.EmptyRunSendsNoUpdates | src/index.ts:54-65 | an empty scope and no lint results send no update requests |

## Left out

- Loading ESLint and TypeScript dynamically, `new ESLint()`, `lintFiles`, reading and parsing the compiler configuration, `createProgram`, `getSourceFile` and `formatDiagnostic` are library code. Their results are inputs: the lint results, the configuration lookup's outcome, each root file's diagnostics or the fact that retrieving them threw, and each diagnostic's formatted text.
- A failure of `lintFiles` or of the configuration parser is not modelled. Only the missing configuration and the per-file throw at `src/tsc.ts:55-60` are.
- `path.relative(process.cwd(), ·)` is a function parameter `relative`. The working directory is not modelled.
- The set of files in scope is a parameter. Finding the changed files of a pull request is not part of the core, and `run()` passes no argument (see above).
- Iteration over the root files follows the given sequence. Set iteration order is not modelled.
- `getLineAndCharacterOfPosition` is modelled by a scan of the line-start table rather than TypeScript's binary search. Both return the line containing the offset.
- The GitHub client is the `CheckService` class, which answers from its own state. Network failures, authentication, `owner`/`repo` and the `completed_at` timestamp are not modelled.
- CheckRuns.CheckService.Create: the model's service accepts every request as sent. GitHub requires `name` and `head_sha` on a creation, which the request at `src/index.ts:44-47` omits, so the real service would reject it; the model does not capture that rejection.
- The order in which GitHub lists check runs is not modelled: the service's own order stands for it.
- CheckRuns.CheckService.Create: the new run is not added to the service's list, because the request names neither the run nor the commit, so no later listing in the same run could find it.
- Logging, `console.error` of a caught exception, and the `run().catch` handler are not modelled.
- `src/dev.ts` and `src/types.ts` are not part of this model. The annotation record in `annotations.dfy` stands for the `Annotation` type.
- Numbers are unbounded integers. The action's values (line numbers, columns, ids) stay far below JavaScript's exact-integer range.
