/**
 * The ESLint normaliser: every message of every lint result becomes one
 * annotation. The results are what `ESLint.lintFiles` returned for the files in
 * scope; running the linter itself is not part of this model.
 */
module ESLint {
  import opened Wrappers
  import opened Annotations
  import Seqs

  /** A lint severity as ESLint types it: 0 (off), 1 (warn) or 2 (error). */
  type Severity = s: int | 0 <= s <= 2

  /**
   * One lint message. A field that may be `undefined` is an `Option`; JavaScript's
   * `||` then treats `None` and `Some(0)` alike.
   */
  datatype LintMessage = LintMessage(
    line: Option<int>,
    endLine: Option<int>,
    column: Option<int>,
    endColumn: Option<int>,
    severity: Severity,
    ruleId: Option<string>,
    message: string)

  /** One lint result: a file (as an absolute path) and its messages. */
  datatype LintResult = LintResult(filePath: string, messages: seq<LintMessage>)

  /** The severity-to-level table, indexed by severity. */
  const Levels: seq<Level> := [Notice, Warning, Failure]

  const TitlePrefix := "ESLint: "
  const PlainTitle := "ESLint"

  /** JavaScript's `a || b` for a number that may be undefined: `a` unless it is missing or 0. */
  function Or(a: Option<int>, b: int): (r: int)
    ensures a.Some? && a.value != 0 ==> r == a.value
    ensures a.None? || a.value == 0 ==> r == b
  {
    if a.Some? && a.value != 0 then a.value else b
  }

  /** A rule id is truthy when it is present and not the empty string. */
  predicate HasRule(ruleId: Option<string>) {
    ruleId.Some? && ruleId.value != ""
  }

  function SeverityLevel(severity: Severity): (level: Level)
    ensures severity == 0 ==> level == Notice
    ensures severity == 1 ==> level == Warning
    ensures severity == 2 ==> level == Failure
  {
    Levels[severity]
  }

  /** The title names the rule after "ESLint: " when there is one, and is plain "ESLint" otherwise. */
  function Title(ruleId: Option<string>): (title: string)
    ensures title == PlainTitle <==> !HasRule(ruleId)
    ensures HasRule(ruleId) ==>
      |title| > |TitlePrefix| && title[..|TitlePrefix|] == TitlePrefix && title[|TitlePrefix|..] == ruleId.value
  {
    if HasRule(ruleId) then
      var title := TitlePrefix + ruleId.value;
      assert |title| != |PlainTitle|;
      title
    else PlainTitle
  }

  /** The annotation for one message of the file whose relative path is `path`. */
  function MessageAnnotation(path: string, msg: LintMessage): Annotation {
    var startLine := Or(msg.line, 0);
    var endLine := Or(msg.endLine, Or(msg.line, 0));
    var single := startLine == endLine;
    Annotation(
      path, startLine, endLine,
      if single then Some(Or(msg.column, 0)) else None,
      if single then Some(Or(msg.endColumn, Or(msg.column, 0))) else None,
      SeverityLevel(msg.severity), Title(msg.ruleId), msg.message)
  }

  /** What one message of the file at `path` adds: its annotation. */
  function MessageOutput(path: string): LintMessage -> seq<Annotation> {
    (msg: LintMessage) => [MessageAnnotation(path, msg)]
  }

  /** What one result adds: the annotations of its messages, on its relative path. */
  function ResultOutput(relative: string -> string): LintResult -> seq<Annotation> {
    (result: LintResult) => MessagesAnnotations(relative(result.filePath), result.messages)
  }

  /** The annotations of a list of messages, in order. */
  function MessagesAnnotations(path: string, msgs: seq<LintMessage>): seq<Annotation> {
    Seqs.ConcatMap(msgs, MessageOutput(path))
  }

  /** The annotations of a list of results: result order first, then message order. */
  function ResultsAnnotations(results: seq<LintResult>, relative: string -> string): seq<Annotation> {
    Seqs.ConcatMap(results, ResultOutput(relative))
  }

  /** The number of messages in a list of results. */
  function MessageCount(results: seq<LintResult>): nat {
    if |results| == 0 then 0
    else MessageCount(results[..|results| - 1]) + |results[|results| - 1].messages|
  }

  /**
   * The normaliser's loop. `relative` stands for `path.relative(process.cwd(), ·)`.
   * The annotation is built without columns and gains them only when its start
   * and end line coincide.
   */
  method Normalize(results: seq<LintResult>, relative: string -> string) returns (annotations: seq<Annotation>)
    ensures annotations == ResultsAnnotations(results, relative)
  {
    annotations := [];
    var i := 0;
    while i < |results|
      invariant 0 <= i <= |results|
      invariant annotations == ResultsAnnotations(results[..i], relative)
    {
      var result := results[i];
      var j := 0;
      while j < |result.messages|
        invariant 0 <= j <= |result.messages|
        invariant annotations == ResultsAnnotations(results[..i], relative)
          + MessagesAnnotations(relative(result.filePath), result.messages[..j])
      {
        var msg := result.messages[j];
        var filePathRelative := relative(result.filePath);
        var startLine := Or(msg.line, 0);
        var endLine := Or(msg.endLine, Or(msg.line, 0));
        var level := Levels[msg.severity];
        var title := if HasRule(msg.ruleId) then TitlePrefix + msg.ruleId.value else PlainTitle;
        var annotation := Annotation(filePathRelative, startLine, endLine, None, None, level, title, msg.message);
        if annotation.startLine == annotation.endLine {
          annotation := annotation.(
            startColumn := Some(Or(msg.column, 0)),
            endColumn := Some(Or(msg.endColumn, Or(msg.column, 0))));
        }
        annotations := annotations + [annotation];
        assert result.messages[..j + 1][..j] == result.messages[..j];
        j := j + 1;
      }
      assert result.messages[..j] == result.messages;
      assert results[..i + 1][..i] == results[..i];
      i := i + 1;
    }
    assert results[..i] == results;
  }

  /** One annotation per message, in message order. */
  lemma MessagesAt(path: string, msgs: seq<LintMessage>)
    ensures |MessagesAnnotations(path, msgs)| == |msgs|
    ensures forall j :: 0 <= j < |msgs| ==> MessagesAnnotations(path, msgs)[j] == MessageAnnotation(path, msgs[j])
  {
    Seqs.ConcatMapSingletons(msgs, MessageOutput(path));
  }

  /** Output length equals the total number of messages. */
  lemma {:induction false} ResultsLength(results: seq<LintResult>, relative: string -> string)
    ensures |ResultsAnnotations(results, relative)| == MessageCount(results)
  {
    if |results| > 0 {
      var last := results[|results| - 1];
      ResultsLength(results[..|results| - 1], relative);
      MessagesAt(relative(last.filePath), last.messages);
    }
  }

  /**
   * Message `j` of result `i` yields the annotation at position
   * MessageCount(results[..i]) + j, built from that message and the result's
   * relative path.
   */
  lemma ResultsAt(results: seq<LintResult>, relative: string -> string, i: nat, j: nat)
    requires i < |results| && j < |results[i].messages|
    ensures MessageCount(results[..i]) + j < |ResultsAnnotations(results, relative)|
    ensures ResultsAnnotations(results, relative)[MessageCount(results[..i]) + j]
      == MessageAnnotation(relative(results[i].filePath), results[i].messages[j])
  {
    var pre, post := results[..i], results[i + 1..];
    assert results == pre + [results[i]] + post;
    var f := ResultOutput(relative);
    Seqs.ConcatMapAppend(pre + [results[i]], post, f);
    Seqs.ConcatMapSnoc(pre, results[i], f);
    ResultsLength(pre, relative);
    MessagesAt(relative(results[i].filePath), results[i].messages);
  }

  /**
   * Every annotation of one message: the level is the table entry for its
   * severity; the start line is `line || 0` and the end line falls back to it;
   * columns are present exactly on a single-line annotation, and then are
   * `column || 0` and `endColumn || column || 0`; the message text is copied.
   */
  lemma MessageAnnotationFields(path: string, msg: LintMessage)
    ensures var a := MessageAnnotation(path, msg);
      && a.path == path && a.message == msg.message
      && a.level == Levels[msg.severity]
      && a.title == Title(msg.ruleId)
      && a.startLine == Or(msg.line, 0)
      && (msg.endLine.None? || msg.endLine.value == 0 ==> a.endLine == a.startLine)
      && (msg.endLine.Some? && msg.endLine.value != 0 ==> a.endLine == msg.endLine.value)
      && ColumnsOnlyOnSingleLine(a)
      && (a.startLine == a.endLine ==>
            a.startColumn == Some(Or(msg.column, 0))
            && a.endColumn == Some(Or(msg.endColumn, Or(msg.column, 0))))
  {
  }

  /** Every annotation the normaliser produces obeys the column-presence rule. */
  lemma ResultsColumnsOnlyOnSingleLine(results: seq<LintResult>, relative: string -> string)
    ensures forall a :: a in ResultsAnnotations(results, relative) ==> ColumnsOnlyOnSingleLine(a)
  {
    forall r | r in results
      ensures forall a :: a in ResultOutput(relative)(r) ==> ColumnsOnlyOnSingleLine(a)
    {
      Seqs.ConcatMapAll(r.messages, MessageOutput(relative(r.filePath)), ColumnsOnlyOnSingleLine);
    }
    Seqs.ConcatMapAll(results, ResultOutput(relative), ColumnsOnlyOnSingleLine);
  }
}
