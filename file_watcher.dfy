/**
 * The save watcher: when auto-review is on and a code file is saved, the
 * backend reviews it, and the bullet lines of the review (at most five) are
 * offered to the user.
 */
module FileWatching {
  import opened Options
  import opened JsText
  import opened EditorHost

  /** The language ids reviewed on save. */
  const CodeLanguages: seq<string> := ["javascript", "typescript", "python", "java", "csharp",
    "cpp", "c", "go", "rust", "php", "ruby", "swift", "kotlin"]

  /** `isCodeFile` */
  predicate IsCodeFile(doc: Document) {
    doc.languageId in CodeLanguages
  }

  /** The allow-list holds thirteen different ids, and the React variants of the web languages are not among them. */
  lemma CodeLanguagesShape(doc: Document)
    ensures |CodeLanguages| == 13
    ensures forall i, j :: 0 <= i < j < |CodeLanguages| ==> CodeLanguages[i] != CodeLanguages[j]
    ensures doc.languageId == "typescriptreact" || doc.languageId == "javascriptreact" ==> !IsCodeFile(doc)
  {
  }

  /**
   * The first bullet marker as the source spells it: the three characters
   * U+201A U+00C4 U+00A2 (the bytes of a UTF-8 bullet read as Mac Roman).
   */
  const Bullet := "\U{201A}\U{00C4}\U{00A2}"

  /** `trimmed.startsWith('‚Ä¢') || trimmed.startsWith('-') || trimmed.startsWith('*')` */
  predicate Marked(trimmed: string) {
    StartsWith(trimmed, Bullet) || StartsWith(trimmed, "-") || StartsWith(trimmed, "*")
  }

  /** The markers compared character by character. */
  lemma MarkedIff(t: string)
    ensures Marked(t) <==>
      (|t| >= 3 && t[0] == '\U{201A}' && t[1] == '\U{00C4}' && t[2] == '\U{00A2}') || (|t| >= 1 && (t[0] == '-' || t[0] == '*'))
  {
    if |t| >= 3 {
      assert t[..3] == [t[0], t[1], t[2]];
    }
    if |t| >= 1 {
      assert t[..1] == [t[0]];
    }
  }

  /** `trimmed.substring(1).trim()` */
  function Insight(line: string): string {
    Trim(DropFirst(Trim(line)))
  }

  /** The loop's test on one line. */
  predicate MarkedLine(line: string) {
    Marked(Trim(line))
  }

  /** What one line contributes to the list before it is cut to five. */
  function InsightsOfLine(line: string): seq<string> {
    if MarkedLine(line) then [Insight(line)] else []
  }

  /** The contributions of all lines, in line order. */
  function Gather(lines: seq<string>, contribution: string -> seq<string>): seq<string>
    decreases |lines|
  {
    if lines == [] then [] else Gather(lines[..|lines| - 1], contribution) + contribution(lines[|lines| - 1])
  }

  /** The contributions of two runs of lines are those of each, in order. */
  lemma {:induction false} GatherConcat(a: seq<string>, b: seq<string>, contribution: string -> seq<string>)
    ensures Gather(a + b, contribution) == Gather(a, contribution) + Gather(b, contribution)
    decreases |b|
  {
    if b == [] {
      assert a + b == a;
    } else {
      var b' := b[..|b| - 1];
      GatherConcat(a, b', contribution);
      assert (a + b)[..|a + b| - 1] == a + b';
    }
  }

  /** How many lines pass `test`. */
  function Count(lines: seq<string>, test: string -> bool): nat
    decreases |lines|
  {
    if lines == [] then 0 else Count(lines[..|lines| - 1], test) + (if test(lines[|lines| - 1]) then 1 else 0)
  }

  /** When each line contributes one entry if it passes `test` and none otherwise, there are as many entries as such lines. */
  lemma {:induction false} GatherCount(lines: seq<string>, contribution: string -> seq<string>, test: string -> bool)
    requires forall l :: |contribution(l)| == (if test(l) then 1 else 0)
    ensures |Gather(lines, contribution)| == Count(lines, test)
    decreases |lines|
  {
    if lines != [] {
      GatherCount(lines[..|lines| - 1], contribution, test);
    }
  }

  /** The insights of all lines, in line order. */
  function InsightsOf(lines: seq<string>): seq<string> {
    Gather(lines, InsightsOfLine)
  }

  /** The insights of two runs of lines are those of each, in order. */
  lemma InsightsOfConcat(a: seq<string>, b: seq<string>)
    ensures InsightsOf(a + b) == InsightsOf(a) + InsightsOf(b)
  {
    GatherConcat(a, b, InsightsOfLine);
  }

  /** A single line gives one insight exactly when its trimmed form starts with a marker. */
  lemma InsightsOfOneLine(line: string)
    ensures InsightsOf([line]) == InsightsOfLine(line)
    ensures |InsightsOf([line])| == 1 <==> Marked(Trim(line))
    ensures |InsightsOf([line])| <= 1
  {
    assert [line][..0] == [];
    assert InsightsOf([line]) == Gather([], InsightsOfLine) + InsightsOfLine(line);
  }

  /** Taking one more line appends that line's contribution. */
  lemma InsightsOfSnoc(lines: seq<string>, i: nat)
    requires i < |lines|
    ensures InsightsOf(lines[..i + 1]) == InsightsOf(lines[..i]) + InsightsOfLine(lines[i])
  {
    assert lines[..i + 1][..i] == lines[..i];
  }

  /** There are as many insights as marked lines. */
  lemma InsightsCount(lines: seq<string>)
    ensures |InsightsOf(lines)| == Count(lines, MarkedLine)
  {
    GatherCount(lines, InsightsOfLine, MarkedLine);
  }

  /** `response.split('\n')`, the loop, then `slice(0, 5)`. */
  function KeyInsights(response: string): (r: seq<string>)
    ensures |r| <= 5
  {
    FirstFiveOf(InsightsOf(Split(response, '\n')))
  }

  /**
   * `extractKeyInsights`: the loop over the lines pushes the insight of every
   * marked line; the first five are kept.
   */
  method ExtractKeyInsights(response: string) returns (top: seq<string>)
    ensures top == KeyInsights(response)
    ensures |top| <= 5
  {
    var insights: seq<string> := [];
    var lines := Split(response, '\n');
    for i := 0 to |lines|
      invariant insights == InsightsOf(lines[..i])
    {
      var line := lines[i];
      InsightsOfSnoc(lines, i);
      var trimmed := Trim(line);
      if Marked(trimmed) {
        insights := insights + [Trim(DropFirst(trimmed))];
      }
    }
    assert lines[..|lines|] == lines;
    top := if |insights| <= 5 then insights else insights[..5];
    assert top == FirstFiveOf(insights);
  }

  /** The first five insights are kept in order, and a review without marked lines gives none. */
  lemma KeyInsightsShape(response: string)
    ensures |KeyInsights(response)| == (if Count(Split(response, '\n'), MarkedLine) < 5 then Count(Split(response, '\n'), MarkedLine) else 5)
    ensures KeyInsights(response) == InsightsOf(Split(response, '\n'))[..|KeyInsights(response)|]
    ensures Count(Split(response, '\n'), MarkedLine) == 0 ==> KeyInsights(response) == []
  {
    var lines := Split(response, '\n');
    InsightsCount(lines);
    FirstFive(InsightsOf(lines));
  }

  /** Cutting a list to five keeps a prefix of length at most five. */
  lemma FirstFive(all: seq<string>)
    ensures |FirstFiveOf(all)| == (if |all| < 5 then |all| else 5)
    ensures FirstFiveOf(all) == all[..|FirstFiveOf(all)|]
  {
    assert all[..|all|] == all;
  }

  /** `slice(0, 5)` */
  function FirstFiveOf(all: seq<string>): seq<string> {
    if |all| <= 5 then all else all[..5]
  }

  /** A line that is only a dash, once trimmed, gives an empty insight. */
  lemma BareDashIsEmpty(line: string)
    requires Trim(line) == "-"
    ensures InsightsOfLine(line) == [""]
  {
    assert StartsWith(Trim(line), "-");
    assert DropFirst(Trim(line)) == [];
  }

  /**
   * Only the first of the bullet's three characters is removed: the insight
   * of a bulleted line starts with the other two.
   */
  lemma BulletLeavesTwoCharacters(line: string)
    requires StartsWith(Trim(line), Bullet)
    ensures |Insight(line)| >= 2 && Insight(line)[0] == '\U{00C4}' && Insight(line)[1] == '\U{00A2}'
  {
    var t := Trim(line);
    assert t[..3] == Bullet;
    var rest := DropFirst(t);
    assert rest[0] == t[1] == '\U{00C4}' && rest[1] == t[2] == '\U{00A2}';
    TrimKeepsLeadingPair(rest);
  }

  /** Trimming a string whose first two characters are not whitespace keeps them. */
  lemma TrimKeepsLeadingPair(s: string)
    requires |s| >= 2 && !IsWhitespace(s[0]) && !IsWhitespace(s[1])
    ensures |Trim(s)| >= 2 && Trim(s)[0] == s[0] && Trim(s)[1] == s[1]
  {
    assert TrimStart(s) == s;
    var v := TrimEnd(s);
    assert v[0] == s[0];
    assert |v| != 1;
    assert v[1] == s[1];
  }

  /** What saving a document leads to. */
  datatype SaveEffect = SaveEffect(
    reviewRequested: bool,          // the file was sent to the backend for review
    notice: Option<string>,         // the information message shown
    panel: Option<seq<string>>)     // the insights shown in a review panel

  const NoEffect := SaveEffect(false, None, None)

  /** `BECA found ${n} suggestion(s) for ${fileName}` */
  function FoundNotice(count: nat, fileName: string): string {
    "BECA found " + NatToString(count) + " suggestion(s) for " + fileName
  }

  /**
   * `onFileSave`. `reply` is the review's outcome and `action` the button the
   * user picked in the notification, if any. A successful reply without text
   * makes `split` throw inside the progress callback, which nothing catches:
   * nothing is shown.
   */
  function OnFileSave(autoReview: bool, doc: Document, reply: Reply, action: Option<string>): SaveEffect {
    if !autoReview || !IsCodeFile(doc) then NoEffect
    else if !(reply.Answered? && reply.success && reply.response.Some?) then SaveEffect(true, None, None)
    else
      var insights := KeyInsights(reply.response.value);
      if |insights| == 0 then SaveEffect(true, None, None)
      else if action == Some("View Details") then SaveEffect(true, Some(FoundNotice(|insights|, doc.fsPath)), Some(insights))
      else SaveEffect(true, Some(FoundNotice(|insights|, doc.fsPath)), None)
  }

  /**
   * Nothing happens unless auto-review is on and the file is a code file;
   * the user is told only about a successful review with at least one
   * insight, and a panel opens only on "View Details", showing those insights.
   */
  lemma OnFileSaveGates(autoReview: bool, doc: Document, reply: Reply, action: Option<string>)
    ensures OnFileSave(autoReview, doc, reply, action).reviewRequested <==> autoReview && IsCodeFile(doc)
    ensures !autoReview || !IsCodeFile(doc) ==> OnFileSave(autoReview, doc, reply, action) == NoEffect
    ensures OnFileSave(autoReview, doc, reply, action).notice.Some? ==>
      reply.Answered? && reply.success && reply.response.Some? && 1 <= |KeyInsights(reply.response.value)| <= 5
    ensures OnFileSave(autoReview, doc, reply, action).panel.Some? ==>
      action == Some("View Details") && OnFileSave(autoReview, doc, reply, action).notice.Some?
      && OnFileSave(autoReview, doc, reply, action).panel.value == KeyInsights(reply.response.value)
  {
  }
}
