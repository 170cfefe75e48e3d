/**
 * Reporting to GitHub's check-run API: pick the check run to report on (an
 * in-progress run with the configured name, or a newly created one), then send
 * the annotations in pages of 50, one update request per page. The service is
 * modelled by an object that answers from its own state and records every
 * request made to it.
 */
module CheckRuns {
  import opened Wrappers
  import opened Annotations
  import Chunking
  import Seqs

  const PageSize := 50
  /** GitHub's default page size for a list request that gives no `per_page`. */
  const ListPageSize := 30
  const Conclusion := "success"
  const InProgress := "in_progress"

  /** A check run as the service lists it. */
  datatype CheckRun = CheckRun(id: int, name: string, headSha: string, status: string)

  /** One request to the service; `Update` carries the run id, the conclusion and the page. */
  datatype Call =
    | ListForRef(ref: string, status: string)
    | Create
    | Update(checkRunId: int, conclusion: string, annotations: seq<Annotation>)

  /** The runs on commit `ref` in state `status`, in service order. */
  function Matching(runs: seq<CheckRun>, ref: string, status: string): (r: seq<CheckRun>)
    ensures forall c :: c in r ==> c in runs && c.headSha == ref && c.status == status
    ensures forall c :: c in runs && c.headSha == ref && c.status == status ==> c in r
  {
    if |runs| == 0 then []
    else
      var last := runs[|runs| - 1];
      var prefix := Matching(runs[..|runs| - 1], ref, status);
      assert forall c :: c in runs ==> c in runs[..|runs| - 1] || c == last;
      if last.headSha == ref && last.status == status then prefix + [last] else prefix
  }

  /** Filtering keeps the service order: the matches of a concatenation are the concatenated matches. */
  lemma {:induction false} MatchingAppend(a: seq<CheckRun>, b: seq<CheckRun>, ref: string, status: string)
    ensures Matching(a + b, ref, status) == Matching(a, ref, status) + Matching(b, ref, status)
    decreases |b|
  {
    if |b| == 0 {
      assert a + b == a;
    } else {
      assert (a + b)[..|a + b| - 1] == a + b[..|b| - 1];
      MatchingAppend(a, b[..|b| - 1], ref, status);
    }
  }

  /** A single run is kept exactly when it is on the commit in the requested state. */
  lemma MatchingSingle(c: CheckRun, ref: string, status: string)
    ensures Matching([c], ref, status) == if c.headSha == ref && c.status == status then [c] else []
  {
    assert [c][..0] == [];
  }

  /**
   * What a `listForRef` request without `per_page` answers with: the first page
   * of the matching runs, which holds at most `ListPageSize` of them.
   */
  function Listed(runs: seq<CheckRun>, ref: string, status: string): (r: seq<CheckRun>)
    ensures |r| <= |Matching(runs, ref, status)| && r == Matching(runs, ref, status)[..|r|]
    ensures |Matching(runs, ref, status)| <= ListPageSize ==> r == Matching(runs, ref, status)
    ensures |Matching(runs, ref, status)| > ListPageSize ==> |r| == ListPageSize
    ensures forall c :: c in r ==> c in runs && c.headSha == ref && c.status == status
  {
    var matching := Matching(runs, ref, status);
    if |matching| <= ListPageSize then matching else matching[..ListPageSize]
  }

  class CheckService {
    /** The check runs the service knows of. */
    var runs: seq<CheckRun>
    /** The id the service gives the next run it creates. */
    var nextId: int
    /** Every request received so far, oldest first. */
    var calls: seq<Call>

    constructor (runs: seq<CheckRun>, nextId: int)
      ensures this.runs == runs && this.nextId == nextId && calls == []
    {
      this.runs := runs;
      this.nextId := nextId;
      calls := [];
    }

    method ListForRef(ref: string, status: string) returns (found: seq<CheckRun>)
      modifies this`calls
      ensures found == Listed(runs, ref, status)
      ensures calls == old(calls) + [Call.ListForRef(ref, status)]
    {
      found := Listed(runs, ref, status);
      calls := calls + [Call.ListForRef(ref, status)];
    }

    /**
     * The request names neither the run nor the commit, so the new run is not
     * one that a later listing by commit and name would find.
     */
    method Create() returns (id: int)
      modifies this`calls, this`nextId
      ensures id == old(nextId) && nextId == old(nextId) + 1
      ensures calls == old(calls) + [Call.Create]
    {
      id := nextId;
      nextId := nextId + 1;
      calls := calls + [Call.Create];
    }

    method Update(checkRunId: int, conclusion: string, annotations: seq<Annotation>)
      modifies this`calls
      ensures calls == old(calls) + [Call.Update(checkRunId, conclusion, annotations)]
    {
      calls := calls + [Call.Update(checkRunId, conclusion, annotations)];
    }
  }

  /** The id of the last run in `checks` named `checkName`, if any. */
  function LastNamed(checks: seq<CheckRun>, checkName: string): (r: Option<int>)
    ensures r.None? <==> forall i :: 0 <= i < |checks| ==> checks[i].name != checkName
    ensures r.Some? ==> exists i :: (0 <= i < |checks| && checks[i].name == checkName && checks[i].id == r.value
      && forall j :: i < j < |checks| ==> checks[j].name != checkName)
  {
    if |checks| == 0 then None
    else if checks[|checks| - 1].name == checkName then Some(checks[|checks| - 1].id)
    else
      var r := LastNamed(checks[..|checks| - 1], checkName);
      assert forall i :: 0 <= i < |checks| - 1 ==> checks[..|checks| - 1][i] == checks[i];
      r
  }

  /**
   * The search loop: every listed run with the configured name overwrites the
   * id found so far, and the loop does not stop at a match.
   */
  method FindCheckId(checkName: string, checks: seq<CheckRun>) returns (checkId: Option<int>)
    ensures checkId == LastNamed(checks, checkName)
  {
    checkId := None;
    for i := 0 to |checks|
      invariant checkId == LastNamed(checks[..i], checkName)
    {
      assert checks[..i + 1][..i] == checks[..i];
      if checks[i].name != checkName {
        continue;
      }
      checkId := Some(checks[i].id);
    }
    assert checks[..|checks|] == checks;
  }

  /** The id of an existing run to reuse: looked up only when a check name is configured. */
  function ExistingId(runs: seq<CheckRun>, checkName: string, sha: string): Option<int> {
    if |checkName| > 0 then LastNamed(Listed(runs, sha, InProgress), checkName) else None
  }

  /** The id reported on: the existing one, or the one the service gives a new run. */
  function ChosenId(runs: seq<CheckRun>, nextId: int, checkName: string, sha: string): int {
    ExistingId(runs, checkName, sha).GetOr(nextId)
  }

  /** The update sent for one page. */
  function UpdateOf(checkId: int): seq<Annotation> -> seq<Call> {
    (page: seq<Annotation>) => [Update(checkId, Conclusion, page)]
  }

  /** One update per page, in page order. */
  function Updates(checkId: int, pages: seq<seq<Annotation>>): seq<Call> {
    Seqs.ConcatMap(pages, UpdateOf(checkId))
  }

  /**
   * The requests one report makes, in order, given the id of the run found
   * (if any): the lookup when a name is configured, the creation when nothing
   * was found, then one update per page.
   */
  function CallsFor(checkName: string, sha: string, existing: Option<int>, nextId: int, annotations: seq<Annotation>)
    : seq<Call>
  {
    Prelude(checkName, sha, existing) + Updates(existing.GetOr(nextId), Chunking.Chunk(annotations, PageSize))
  }

  /** The requests before the updates: the lookup, then the creation. */
  function Prelude(checkName: string, sha: string, existing: Option<int>): seq<Call> {
    (if |checkName| > 0 then [ListForRef(sha, InProgress)] else [])
      + (if existing.None? then [Create] else [])
  }

  /** The requests one report makes against a service holding `runs`. */
  function ReportCalls(runs: seq<CheckRun>, nextId: int, checkName: string, sha: string, annotations: seq<Annotation>)
    : seq<Call>
  {
    CallsFor(checkName, sha, ExistingId(runs, checkName, sha), nextId, annotations)
  }

  /**
   * Finds the run to report on: when a check name is configured, the last
   * in-progress run on `sha` with that name; otherwise, or when there is none,
   * a newly created run.
   */
  method ResolveCheckId(service: CheckService, checkName: string, sha: string) returns (checkId: int)
    modifies service
    ensures checkId == ChosenId(old(service.runs), old(service.nextId), checkName, sha)
    ensures service.calls == old(service.calls)
      + (if |checkName| > 0 then [ListForRef(sha, InProgress)] else [])
      + (if ExistingId(old(service.runs), checkName, sha).None? then [Create] else [])
    ensures service.runs == old(service.runs)
    ensures service.nextId == old(service.nextId) + (if ExistingId(old(service.runs), checkName, sha).None? then 1 else 0)
  {
    var found: Option<int> := None;
    if |checkName| > 0 {
      var checks := service.ListForRef(sha, InProgress);
      found := FindCheckId(checkName, checks);
    }
    if found.None? {
      checkId := service.Create();
    } else {
      checkId := found.value;
    }
  }

  /** Sends one update per page, in page order, all against run `checkId`. */
  method SendPages(service: CheckService, checkId: int, pages: seq<seq<Annotation>>)
    modifies service
    ensures service.calls == old(service.calls) + Updates(checkId, pages)
    ensures service.runs == old(service.runs) && service.nextId == old(service.nextId)
  {
    for i := 0 to |pages|
      invariant service.calls == old(service.calls) + Updates(checkId, pages[..i])
      invariant service.runs == old(service.runs) && service.nextId == old(service.nextId)
    {
      assert pages[..i + 1][..i] == pages[..i];
      service.Update(checkId, Conclusion, pages[i]);
    }
    assert pages[..|pages|] == pages;
  }

  /**
   * Reports `annotations` on the commit `sha`: finds or creates the check run,
   * then sends one update per page of at most 50, all against that run.
   */
  method Report(service: CheckService, checkName: string, sha: string, annotations: seq<Annotation>)
    returns (checkId: int)
    modifies service
    ensures checkId == ChosenId(old(service.runs), old(service.nextId), checkName, sha)
    ensures service.calls == old(service.calls)
      + ReportCalls(old(service.runs), old(service.nextId), checkName, sha, annotations)
    ensures service.runs == old(service.runs)
    ensures service.nextId == old(service.nextId) + (if ExistingId(old(service.runs), checkName, sha).None? then 1 else 0)
  {
    checkId := ResolveCheckId(service, checkName, sha);
    SendPages(service, checkId, Chunking.Chunk(annotations, PageSize));
  }

  /** The annotations a request carries: its page for an update, none otherwise. */
  function Page(c: Call): seq<Annotation> {
    if c.Update? then c.annotations else []
  }

  /** The annotations carried by the update requests, concatenated in request order. */
  function Submitted(calls: seq<Call>): seq<Annotation> {
    Seqs.ConcatMap(calls, Page)
  }

  predicate IsUpdate(c: Call) {
    c.Update?
  }

  predicate IsCreate(c: Call) {
    c.Create?
  }

  function UpdateCount(calls: seq<Call>): nat {
    Seqs.Count(calls, IsUpdate)
  }

  function CreateCount(calls: seq<Call>): nat {
    Seqs.Count(calls, IsCreate)
  }

  lemma CallsAppend(a: seq<Call>, b: seq<Call>)
    ensures Submitted(a + b) == Submitted(a) + Submitted(b)
    ensures UpdateCount(a + b) == UpdateCount(a) + UpdateCount(b)
    ensures CreateCount(a + b) == CreateCount(a) + CreateCount(b)
  {
    Seqs.ConcatMapAppend(a, b, Page);
    Seqs.CountAppend(a, b, IsUpdate);
    Seqs.CountAppend(a, b, IsCreate);
  }

  /** The updates carry the pages, concatenated in order. */
  lemma {:induction false} UpdatesSubmitted(checkId: int, pages: seq<seq<Annotation>>)
    ensures Submitted(Updates(checkId, pages)) == Chunking.Flatten(pages)
  {
    if |pages| > 0 {
      var init, last := pages[..|pages| - 1], pages[|pages| - 1];
      UpdatesSubmitted(checkId, init);
      assert pages == init + [last];
      Seqs.ConcatMapAppend(Updates(checkId, init), [Update(checkId, Conclusion, last)], Page);
      assert Submitted([Update(checkId, Conclusion, last)]) == last by {
        Seqs.ConcatMapSnoc([], Update(checkId, Conclusion, last), Page);
        assert [] + [Update(checkId, Conclusion, last)] == [Update(checkId, Conclusion, last)];
      }
      Chunking.FlattenAppend(init, [last]);
      assert Chunking.Flatten([last]) == last + Chunking.Flatten([]);
    }
  }

  /** One update per page and no creation. */
  lemma {:induction false} UpdatesCounts(checkId: int, pages: seq<seq<Annotation>>)
    ensures UpdateCount(Updates(checkId, pages)) == |pages|
    ensures CreateCount(Updates(checkId, pages)) == 0
  {
    if |pages| > 0 {
      var init, last := pages[..|pages| - 1], pages[|pages| - 1];
      UpdatesCounts(checkId, init);
      var u := [Update(checkId, Conclusion, last)];
      Seqs.CountAppend(Updates(checkId, init), u, IsUpdate);
      Seqs.CountAppend(Updates(checkId, init), u, IsCreate);
      assert u[..0] == [];
    }
  }

  /** Every update goes to `checkId`, concludes `success` and carries one of the pages. */
  lemma UpdatesShape(checkId: int, pages: seq<seq<Annotation>>)
    ensures forall c :: c in Updates(checkId, pages) ==>
      c.Update? && c.checkRunId == checkId && c.conclusion == Conclusion && c.annotations in pages
  {
    var p := (c: Call) => c.Update? && c.checkRunId == checkId && c.conclusion == Conclusion && c.annotations in pages;
    Seqs.ConcatMapAll(pages, UpdateOf(checkId), p);
  }

  /** The requests before the updates carry no annotations and hold one creation exactly when nothing was found. */
  lemma PreludeFacts(checkName: string, sha: string, existing: Option<int>)
    ensures Submitted(Prelude(checkName, sha, existing)) == []
    ensures UpdateCount(Prelude(checkName, sha, existing)) == 0
    ensures CreateCount(Prelude(checkName, sha, existing)) == if existing.None? then 1 else 0
  {
    var lookup: seq<Call> := if |checkName| > 0 then [ListForRef(sha, InProgress)] else [];
    var create: seq<Call> := if existing.None? then [Create] else [];
    assert Prelude(checkName, sha, existing) == lookup + create;
    CallsAppend(lookup, create);
    if |checkName| > 0 {
      SingleCall(ListForRef(sha, InProgress));
    }
    if existing.None? {
      SingleCall(Create);
    }
  }

  /** What a single request carries and counts as. */
  lemma SingleCall(c: Call)
    ensures Submitted([c]) == Page(c)
    ensures UpdateCount([c]) == (if c.Update? then 1 else 0)
    ensures CreateCount([c]) == (if c.Create? then 1 else 0)
  {
    assert [c][..0] == [];
    Seqs.ConcatMapSnoc([], c, Page);
    assert [] + [c] == [c];
  }

  /** What the updates of one report carry, and how many requests of each kind it makes. */
  lemma CallsForCounts(checkName: string, sha: string, existing: Option<int>, nextId: int, annotations: seq<Annotation>)
    ensures var calls, pages := CallsFor(checkName, sha, existing, nextId, annotations), Chunking.Chunk(annotations, PageSize);
      && Submitted(calls) == Chunking.Flatten(pages)
      && UpdateCount(calls) == |pages|
      && CreateCount(calls) == (if existing.None? then 1 else 0)
  {
    var pages := Chunking.Chunk(annotations, PageSize);
    UpdatesSubmitted(existing.GetOr(nextId), pages);
    UpdatesCounts(existing.GetOr(nextId), pages);
    PreludeFacts(checkName, sha, existing);
    CallsAppend(Prelude(checkName, sha, existing), Updates(existing.GetOr(nextId), pages));
  }

  /** Where each request of one report goes. */
  lemma CallsForShape(checkName: string, sha: string, existing: Option<int>, nextId: int, annotations: seq<Annotation>)
    ensures var calls, pages := CallsFor(checkName, sha, existing, nextId, annotations), Chunking.Chunk(annotations, PageSize);
      && (forall c :: c in calls && c.Update? ==>
            c.checkRunId == existing.GetOr(nextId) && c.conclusion == Conclusion && c.annotations in pages)
      && (ListForRef(sha, InProgress) in calls <==> |checkName| > 0)
  {
    var pages := Chunking.Chunk(annotations, PageSize);
    var prelude := Prelude(checkName, sha, existing);
    var updates := Updates(existing.GetOr(nextId), pages);
    var calls := CallsFor(checkName, sha, existing, nextId, annotations);
    assert calls == prelude + updates;
    UpdatesShape(existing.GetOr(nextId), pages);
    assert forall c :: c in prelude ==> !c.Update?;
    forall c | c in calls && c.Update?
      ensures c.checkRunId == existing.GetOr(nextId) && c.conclusion == Conclusion && c.annotations in pages
    {
      assert c in updates;
    }
    if |checkName| > 0 {
      assert calls[0] == ListForRef(sha, InProgress);
    } else {
      assert ListForRef(sha, InProgress) !in prelude;
    }
  }

  /**
   * Paging: the updates of a report carry the annotations back in their
   * original order, and there are ceil(K / 50) of them.
   */
  lemma ReportPages(runs: seq<CheckRun>, nextId: int, checkName: string, sha: string, annotations: seq<Annotation>)
    ensures Submitted(ReportCalls(runs, nextId, checkName, sha, annotations)) == annotations
    ensures UpdateCount(ReportCalls(runs, nextId, checkName, sha, annotations))
      == Chunking.PageCount(|annotations|, PageSize)
  {
    CallsForCounts(checkName, sha, ExistingId(runs, checkName, sha), nextId, annotations);
    Chunking.ChunkFlatten(annotations, PageSize);
    Chunking.ChunkCount(annotations, PageSize);
  }

  /** No annotations, no update requests. */
  lemma NoAnnotationsNoUpdates(runs: seq<CheckRun>, nextId: int, checkName: string, sha: string)
    ensures UpdateCount(ReportCalls(runs, nextId, checkName, sha, [])) == 0
  {
    CallsForCounts(checkName, sha, ExistingId(runs, checkName, sha), nextId, []);
  }

  /**
   * Every update of a report goes to the same run, concludes `success` and
   * carries between 1 and 50 annotations.
   */
  lemma ReportUpdatesUniform(runs: seq<CheckRun>, nextId: int, checkName: string, sha: string, annotations: seq<Annotation>)
    ensures forall c :: c in ReportCalls(runs, nextId, checkName, sha, annotations) && c.Update? ==>
      && c.checkRunId == ChosenId(runs, nextId, checkName, sha)
      && c.conclusion == Conclusion
      && 1 <= |c.annotations| <= PageSize
  {
    CallsForShape(checkName, sha, ExistingId(runs, checkName, sha), nextId, annotations);
    Chunking.ChunkSizes(annotations, PageSize);
  }

  /**
   * A run is created exactly when no existing one was found, so at most once;
   * the existing runs are listed exactly when a check name is configured.
   */
  lemma ReportCreatesOnlyWhenNoneFound(runs: seq<CheckRun>, nextId: int, checkName: string, sha: string, annotations: seq<Annotation>)
    ensures CreateCount(ReportCalls(runs, nextId, checkName, sha, annotations))
      == if ExistingId(runs, checkName, sha).None? then 1 else 0
    ensures ListForRef(sha, InProgress) in ReportCalls(runs, nextId, checkName, sha, annotations) <==> |checkName| > 0
  {
    CallsForCounts(checkName, sha, ExistingId(runs, checkName, sha), nextId, annotations);
    CallsForShape(checkName, sha, ExistingId(runs, checkName, sha), nextId, annotations);
  }

  /** With an empty check name no lookup happens and a new run is always created. */
  lemma EmptyNameAlwaysCreates(runs: seq<CheckRun>, nextId: int, sha: string)
    ensures ChosenId(runs, nextId, "", sha) == nextId
  {
  }

  /**
   * The chosen id is the id of the last in-progress run on `sha` named
   * `checkName`, when a name is configured and such a run exists.
   */
  lemma ChosenIsLastMatch(runs: seq<CheckRun>, nextId: int, checkName: string, sha: string)
    requires |checkName| > 0
    ensures var listed := Listed(runs, sha, InProgress);
      (exists i :: 0 <= i < |listed| && listed[i].name == checkName)
      ==> exists i :: 0 <= i < |listed| && listed[i].name == checkName
            && listed[i].id == ChosenId(runs, nextId, checkName, sha)
            && forall j :: i < j < |listed| ==> listed[j].name != checkName
    ensures var listed := Listed(runs, sha, InProgress);
      (forall i :: 0 <= i < |listed| ==> listed[i].name != checkName)
      ==> ChosenId(runs, nextId, checkName, sha) == nextId
  {
    var listed := Listed(runs, sha, InProgress);
    var found := LastNamed(listed, checkName);
    assert ExistingId(runs, checkName, sha) == found;
    if found.None? {
      assert ChosenId(runs, nextId, checkName, sha) == nextId;
    } else {
      assert ChosenId(runs, nextId, checkName, sha) == found.value;
      var k :| 0 <= k < |listed| && listed[k].name == checkName && listed[k].id == found.value
        && forall j :: k < j < |listed| ==> listed[j].name != checkName;
      assert listed[k].name == checkName;
    }
  }
}
