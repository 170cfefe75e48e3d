/**
 * One run of the action: collect the ESLint annotations, then the TypeScript
 * ones, then report them all on the commit being checked.
 */
module Action {
  import opened Wrappers
  import opened Annotations
  import ESLint
  import Tsc
  import CheckRuns
  import Chunking

  /** All annotations of one run: every ESLint one, then every TypeScript one. */
  function Collected(
    scope: set<string>, relative: string -> string,
    lintResults: seq<ESLint.LintResult>, roots: seq<Tsc.Retrieval>): seq<Annotation>
  {
    ESLint.ResultsAnnotations(lintResults, relative) + Tsc.RootsAnnotations(scope, relative, roots)
  }

  /**
   * The action's entry point. The files in scope are an explicit parameter;
   * the linter's results, the configuration lookup and each root file's
   * diagnostics are what the libraries returned. A missing compiler
   * configuration aborts the run before any request reaches the service.
   */
  method Run(
    service: CheckRuns.CheckService, checkName: string, sha: string,
    scope: set<string>, relative: string -> string,
    lintResults: seq<ESLint.LintResult>, configFileName: Option<string>, roots: seq<Tsc.Retrieval>)
    returns (outcome: Result<int, string>)
    modifies service
    ensures configFileName.None? ==>
      && outcome == Err(Tsc.ConfigNotFound)
      && service.calls == old(service.calls) && service.nextId == old(service.nextId)
    ensures service.runs == old(service.runs)
    ensures configFileName.Some? ==>
      && outcome == Ok(CheckRuns.ChosenId(old(service.runs), old(service.nextId), checkName, sha))
      && service.calls == old(service.calls) + CheckRuns.ReportCalls(
           old(service.runs), old(service.nextId), checkName, sha, Collected(scope, relative, lintResults, roots))
      && service.nextId == old(service.nextId)
           + (if CheckRuns.ExistingId(old(service.runs), checkName, sha).None? then 1 else 0)
  {
    var annotations: seq<Annotation> := [];
    var lint := ESLint.Normalize(lintResults, relative);
    annotations := annotations + lint;
    var tsc := Tsc.Normalize(configFileName, scope, relative, roots);
    if tsc.Err? {
      return Err(tsc.error);
    }
    annotations := annotations + tsc.value;
    assert annotations == Collected(scope, relative, lintResults, roots);
    var checkId := CheckRuns.Report(service, checkName, sha, annotations);
    return Ok(checkId);
  }

  /**
   * The updates of a run carry every ESLint annotation first, in order, and
   * then every TypeScript annotation, in order.
   */
  lemma LintBeforeTsc(
    runs: seq<CheckRuns.CheckRun>, nextId: int, checkName: string, sha: string,
    scope: set<string>, relative: string -> string,
    lintResults: seq<ESLint.LintResult>, roots: seq<Tsc.Retrieval>)
    ensures var lint := ESLint.ResultsAnnotations(lintResults, relative);
      var submitted := CheckRuns.Submitted(
        CheckRuns.ReportCalls(runs, nextId, checkName, sha, Collected(scope, relative, lintResults, roots)));
      && |lint| <= |submitted|
      && submitted[..|lint|] == lint
      && submitted[|lint|..] == Tsc.RootsAnnotations(scope, relative, roots)
  {
    CheckRuns.ReportPages(runs, nextId, checkName, sha, Collected(scope, relative, lintResults, roots));
  }

  /** Every annotation a run submits has column fields exactly when it spans a single line. */
  lemma SubmittedColumnsOnlyOnSingleLine(
    runs: seq<CheckRuns.CheckRun>, nextId: int, checkName: string, sha: string,
    scope: set<string>, relative: string -> string,
    lintResults: seq<ESLint.LintResult>, roots: seq<Tsc.Retrieval>)
    ensures forall a ::
      a in CheckRuns.Submitted(
        CheckRuns.ReportCalls(runs, nextId, checkName, sha, Collected(scope, relative, lintResults, roots)))
      ==> ColumnsOnlyOnSingleLine(a)
  {
    CheckRuns.ReportPages(runs, nextId, checkName, sha, Collected(scope, relative, lintResults, roots));
    ESLint.ResultsColumnsOnlyOnSingleLine(lintResults, relative);
    Tsc.RootsReportable(scope, relative, roots);
  }

  /** With an empty scope and no lint results, a run sends no updates at all. */
  lemma EmptyRunSendsNoUpdates(
    runs: seq<CheckRuns.CheckRun>, nextId: int, checkName: string, sha: string,
    relative: string -> string, roots: seq<Tsc.Retrieval>)
    ensures CheckRuns.UpdateCount(CheckRuns.ReportCalls(runs, nextId, checkName, sha, Collected({}, relative, [], roots))) == 0
  {
    Tsc.EmptyScopeYieldsNothing(relative, roots);
    CheckRuns.NoAnnotationsNoUpdates(runs, nextId, checkName, sha);
  }
}
