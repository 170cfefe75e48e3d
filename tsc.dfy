/**
 * The TypeScript-compiler normaliser: the pre-emit diagnostics of each root file
 * become failure annotations on the in-scope files they point into. Building
 * the program, retrieving diagnostics and formatting them are library work; the
 * model receives their outcomes as input data.
 */
module Tsc {
  import opened Wrappers
  import opened Annotations
  import Text
  import Seqs

  /**
   * A source file's line-start table: the offset at which each line begins. The
   * first line begins at offset 0 and the offsets strictly increase.
   */
  type LineStarts = s: seq<nat> | |s| > 0 && s[0] == 0 && (forall i, j :: 0 <= i < j < |s| ==> s[i] < s[j])
    witness [0]

  datatype SourceFile = SourceFile(fileName: string, lineStarts: LineStarts)

  /**
   * A diagnostic: the file and start offset are absent for diagnostics not tied
   * to a file; `formatted` is what `formatDiagnostic` renders for it.
   */
  datatype Diagnostic = Diagnostic(
    file: Option<SourceFile>,
    start: Option<nat>,
    length: Option<nat>,
    code: nat,
    formatted: string)

  /** The outcome of asking for one root file's diagnostics: a list, or an exception. */
  datatype Retrieval = Retrieved(diagnostics: seq<Diagnostic>) | Threw

  /** A 0-based line and character, as `getLineAndCharacterOfPosition` returns them. */
  datatype LineAndCharacter = LineAndCharacter(line: nat, character: nat)

  const ConfigNotFound := "config file not found!"
  const TitlePrefix := "TypeScript Compiler: Code "

  /** The last line at or before `hi` whose start is not after `pos`. */
  function LineFrom(starts: LineStarts, pos: nat, hi: nat): (line: nat)
    requires hi < |starts|
    ensures line <= hi && starts[line] <= pos
    ensures forall j :: line < j <= hi ==> pos < starts[j]
    decreases hi
  {
    if starts[hi] <= pos then hi else LineFrom(starts, pos, hi - 1)
  }

  /** `getLineAndCharacterOfPosition`: the line that contains offset `pos`, and the offset within it. */
  function LineAndCharacterOf(starts: LineStarts, pos: nat): (lc: LineAndCharacter)
    ensures lc.line < |starts| && starts[lc.line] <= pos
    ensures lc.line + 1 < |starts| ==> pos < starts[lc.line + 1]
    ensures lc.character == pos - starts[lc.line]
  {
    var line := LineFrom(starts, pos, |starts| - 1);
    LineAndCharacter(line, pos - starts[line])
  }

  /** The line found is the only one containing `pos`. */
  lemma LineIsUnique(starts: LineStarts, pos: nat, line: nat)
    requires line < |starts| && starts[line] <= pos
    requires line + 1 < |starts| ==> pos < starts[line + 1]
    ensures LineAndCharacterOf(starts, pos).line == line
  {
  }

  /** `TypeScript Compiler: Code ${code}`: the prefix, then the code's decimal digits. */
  function Title(code: nat): (title: string)
    ensures |title| > |TitlePrefix| && title[..|TitlePrefix|] == TitlePrefix
    ensures forall i :: |TitlePrefix| <= i < |title| ==> Text.IsDigit(title[i])
    ensures Text.ParseDecimal(title[|TitlePrefix|..]) == code
    ensures |title| > |TitlePrefix| + 1 ==> title[|TitlePrefix|] != '0'
  {
    var title := TitlePrefix + Text.DecimalString(code);
    assert title[|TitlePrefix|..] == Text.DecimalString(code);
    title
  }

  /** Different codes get different titles. */
  lemma TitleDeterminesCode(m: nat, n: nat)
    requires Title(m) == Title(n)
    ensures m == n
  {
    assert Title(m)[|TitlePrefix|..] == Text.DecimalString(m);
    assert Title(n)[|TitlePrefix|..] == Text.DecimalString(n);
    Text.DecimalStringInjective(m, n);
  }

  /**
   * The annotation for a diagnostic at offset `start` of `file`, whose relative
   * path is `filePath`: both ends on the 1-based line holding the offset, a
   * 1-based start column, an end column `length` characters on, failure level,
   * a title naming the code, and the formatted text with the path cut out.
   */
  function Annotate(filePath: string, file: SourceFile, start: nat, d: Diagnostic): (a: Annotation)
    ensures a.path == filePath && a.level == Failure && a.title == Title(d.code)
    ensures a.message == Text.RemoveFirst(d.formatted, filePath)
    ensures 1 <= a.startLine <= |file.lineStarts| && a.endLine == a.startLine
    ensures file.lineStarts[a.startLine - 1] <= start
    ensures a.startLine < |file.lineStarts| ==> start < file.lineStarts[a.startLine]
    ensures a.startColumn == Some(start - file.lineStarts[a.startLine - 1] + 1)
    ensures a.endColumn == Some(a.startColumn.value + d.length.GetOr(0) - 1)
  {
    var lineAndChar := LineAndCharacterOf(file.lineStarts, start);
    var length := d.length.GetOr(0);
    var startColumn := lineAndChar.character + 1;
    var endColumn := lineAndChar.character + length;
    var startLine := lineAndChar.line + 1;
    var endLine := startLine;
    var message := Text.RemoveFirst(d.formatted, filePath);
    Annotation(filePath, startLine, endLine, Some(startColumn), Some(endColumn), Failure, Title(d.code), message)
  }

  /**
   * The annotation for one diagnostic, or `None` when it is skipped: it has no
   * file or no start offset, or its file's relative path is not in scope.
   * `relative` stands for `path.relative(process.cwd(), ·)`.
   */
  function DiagnosticAnnotation(scope: set<string>, relative: string -> string, d: Diagnostic): (r: Option<Annotation>)
    ensures r.Some? <==> d.file.Some? && d.start.Some? && relative(d.file.value.fileName) in scope
    ensures r.Some? ==> r.value.path == relative(d.file.value.fileName)
  {
    if d.file.None? || d.start.None? then None
    else
      var filePath := relative(d.file.value.fileName);
      if filePath !in scope then None
      else Some(Annotate(filePath, d.file.value, d.start.value, d))
  }

  /** The list pushed for one diagnostic: its annotation, or nothing when it is skipped. */
  function Emitted(r: Option<Annotation>): seq<Annotation> {
    match r
    case None => []
    case Some(a) => [a]
  }

  /** What one diagnostic adds. */
  function DiagnosticOutput(scope: set<string>, relative: string -> string): Diagnostic -> seq<Annotation> {
    (d: Diagnostic) => Emitted(DiagnosticAnnotation(scope, relative, d))
  }

  /** The annotations of one root file; a file whose retrieval threw adds nothing. */
  function RootAnnotations(scope: set<string>, relative: string -> string, root: Retrieval): seq<Annotation> {
    match root
    case Threw => []
    case Retrieved(ds) => FileAnnotations(scope, relative, ds)
  }

  /** What one root file adds. */
  function RootOutput(scope: set<string>, relative: string -> string): Retrieval -> seq<Annotation> {
    (root: Retrieval) => RootAnnotations(scope, relative, root)
  }

  /** The annotations of one file's diagnostics, in order. */
  function FileAnnotations(scope: set<string>, relative: string -> string, ds: seq<Diagnostic>): seq<Annotation> {
    Seqs.ConcatMap(ds, DiagnosticOutput(scope, relative))
  }

  /** The annotations of all root files, in order. */
  function RootsAnnotations(scope: set<string>, relative: string -> string, roots: seq<Retrieval>): seq<Annotation> {
    Seqs.ConcatMap(roots, RootOutput(scope, relative))
  }

  /**
   * The normaliser's loops. `configFileName` is what the configuration lookup
   * found; `roots` holds, per root file in scope order, its diagnostics or the
   * fact that retrieving them threw.
   */
  method Normalize(configFileName: Option<string>, scope: set<string>, relative: string -> string, roots: seq<Retrieval>)
    returns (r: Result<seq<Annotation>, string>)
    ensures configFileName.None? ==> r == Err(ConfigNotFound)
    ensures configFileName.Some? ==> r == Ok(RootsAnnotations(scope, relative, roots))
  {
    if configFileName.None? {
      return Err(ConfigNotFound);
    }
    var annotations: seq<Annotation> := [];
    for i := 0 to |roots|
      invariant annotations == RootsAnnotations(scope, relative, roots[..i])
    {
      assert roots[..i + 1][..i] == roots[..i];
      if roots[i].Threw? {
        continue;
      }
      var allDiagnostics := roots[i].diagnostics;
      for j := 0 to |allDiagnostics|
        invariant annotations == RootsAnnotations(scope, relative, roots[..i])
          + FileAnnotations(scope, relative, allDiagnostics[..j])
      {
        assert allDiagnostics[..j + 1][..j] == allDiagnostics[..j];
        var diagnostic := allDiagnostics[j];
        if diagnostic.file.None? || diagnostic.start.None? {
          assert DiagnosticAnnotation(scope, relative, diagnostic).None?;
          continue;
        }
        var filePath := relative(diagnostic.file.value.fileName);
        if filePath !in scope {
          assert DiagnosticAnnotation(scope, relative, diagnostic).None?;
          continue;
        }
        var annotation := Annotate(filePath, diagnostic.file.value, diagnostic.start.value, diagnostic);
        annotations := annotations + [annotation];
      }
      assert allDiagnostics[..|allDiagnostics|] == allDiagnostics;
    }
    assert roots[..|roots|] == roots;
    return Ok(annotations);
  }

  /** A skipped diagnostic can be taken out of the list without changing the output. */
  lemma SkippedDiagnosticContributesNothing(scope: set<string>, relative: string -> string, pre: seq<Diagnostic>, d: Diagnostic, post: seq<Diagnostic>)
    requires d.file.None? || d.start.None? || relative(d.file.value.fileName) !in scope
    ensures FileAnnotations(scope, relative, pre + [d] + post) == FileAnnotations(scope, relative, pre + post)
  {
    var f := DiagnosticOutput(scope, relative);
    Seqs.ConcatMapDropEmpty(pre, d, post, f);
    Seqs.ConcatMapAppend(pre, post, f);
  }

  /**
   * A diagnostic that is kept contributes exactly its annotation, on its relative
   * path, between the outputs of the diagnostics before and after it.
   */
  lemma KeptDiagnosticContributesAnnotation(
    scope: set<string>, relative: string -> string, pre: seq<Diagnostic>, d: Diagnostic, post: seq<Diagnostic>)
    requires d.file.Some? && d.start.Some? && relative(d.file.value.fileName) in scope
    ensures FileAnnotations(scope, relative, pre + [d] + post)
      == FileAnnotations(scope, relative, pre)
         + [Annotate(relative(d.file.value.fileName), d.file.value, d.start.value, d)]
         + FileAnnotations(scope, relative, post)
  {
    var f := DiagnosticOutput(scope, relative);
    Seqs.ConcatMapAppend(pre + [d], post, f);
    Seqs.ConcatMapSnoc(pre, d, f);
  }

  /**
   * A root file whose diagnostics were retrieved contributes exactly its file's
   * annotations, between the outputs of the root files before and after it.
   */
  lemma RetrievedFileContributesItsAnnotations(
    scope: set<string>, relative: string -> string, pre: seq<Retrieval>, ds: seq<Diagnostic>, post: seq<Retrieval>)
    ensures RootsAnnotations(scope, relative, pre + [Retrieved(ds)] + post)
      == RootsAnnotations(scope, relative, pre)
         + FileAnnotations(scope, relative, ds)
         + RootsAnnotations(scope, relative, post)
  {
    var f := RootOutput(scope, relative);
    Seqs.ConcatMapAppend(pre + [Retrieved(ds)], post, f);
    Seqs.ConcatMapSnoc(pre, Retrieved(ds), f);
  }

  /** A file whose retrieval threw adds nothing, and the files after it are still processed. */
  lemma ThrowingFileContributesNothing(scope: set<string>, relative: string -> string, pre: seq<Retrieval>, post: seq<Retrieval>)
    ensures RootsAnnotations(scope, relative, pre + [Threw] + post)
      == RootsAnnotations(scope, relative, pre) + RootsAnnotations(scope, relative, post)
  {
    Seqs.ConcatMapDropEmpty(pre, Threw, post, RootOutput(scope, relative));
  }

  /** What every reported TypeScript annotation satisfies. */
  predicate Reportable(scope: set<string>, a: Annotation) {
    && a.path in scope
    && a.level == Failure
    && 1 <= a.startLine && a.endLine == a.startLine
    && a.startColumn.Some? && a.endColumn.Some? && 1 <= a.startColumn.value
    && ColumnsOnlyOnSingleLine(a)
  }

  lemma FileReportable(scope: set<string>, relative: string -> string, ds: seq<Diagnostic>)
    ensures forall a :: a in FileAnnotations(scope, relative, ds) ==> Reportable(scope, a)
  {
    Seqs.ConcatMapAll(ds, DiagnosticOutput(scope, relative), (a: Annotation) => Reportable(scope, a));
  }

  /**
   * Every annotation of the normaliser is on an in-scope file, at failure level,
   * on a single line numbered from 1, with 1-based columns.
   */
  lemma RootsReportable(scope: set<string>, relative: string -> string, roots: seq<Retrieval>)
    ensures forall a :: a in RootsAnnotations(scope, relative, roots) ==> Reportable(scope, a)
  {
    forall root | root in roots && root.Retrieved? {
      FileReportable(scope, relative, root.diagnostics);
    }
    Seqs.ConcatMapAll(roots, RootOutput(scope, relative), (a: Annotation) => Reportable(scope, a));
  }

  /** An empty scope yields no annotations, whatever the diagnostics. */
  lemma {:induction false} EmptyScopeYieldsNothing(relative: string -> string, roots: seq<Retrieval>)
    ensures RootsAnnotations({}, relative, roots) == []
  {
    if |roots| > 0 {
      EmptyScopeYieldsNothing(relative, roots[..|roots| - 1]);
      if roots[|roots| - 1].Retrieved? {
        EmptyScopeFileYieldsNothing(relative, roots[|roots| - 1].diagnostics);
      }
    }
  }

  lemma {:induction false} EmptyScopeFileYieldsNothing(relative: string -> string, ds: seq<Diagnostic>)
    ensures FileAnnotations({}, relative, ds) == []
  {
    if |ds| > 0 {
      EmptyScopeFileYieldsNothing(relative, ds[..|ds| - 1]);
    }
  }
}
