/**
 * The diagnostic provider: a debounced queue of saved file documents, the
 * success gate around the backend's review, and the parser that turns the
 * backend's free-text answer into editor diagnostics.
 */
module Diagnostics {
  import opened Options
  import opened JsText
  import opened EditorHost

  datatype Severity = Error | Warning | Information | Hint

  datatype Diagnostic = Diagnostic(range: Range, message: string, severity: Severity, source: string)

  // ---------------------------------------------------------------------------
  // The pattern /(?:line|Line)\s+(\d+):\s*(.+?)(?:\n|$)/g, scanned by hand.

  /** One match: the text of group 1, the text of group 2, and the index just past the match. */
  datatype LineMatch = LineMatch(digits: string, text: string, end: nat)

  /** A match found by `exec` and the index it starts at. */
  datatype Found = Found(at: nat, m: LineMatch)

  /** The greedy `\s*` from `i`: the first non-whitespace index at or after `i`. */
  function SkipWhitespace(s: string, i: nat): (k: nat)
    requires i <= |s|
    ensures i <= k <= |s| && AllWhitespace(s, i, k) && (k < |s| ==> !IsWhitespace(s[k]))
    decreases |s| - i
  {
    if i < |s| && IsWhitespace(s[i]) then SkipWhitespace(s, i + 1) else i
  }

  /** The greedy `\d+` from `i`, as the first non-digit index at or after `i`. */
  function SkipDigits(s: string, i: nat): (k: nat)
    requires i <= |s|
    ensures i <= k <= |s| && (forall p :: i <= p < k ==> IsDigit(s[p])) && (k < |s| ==> !IsDigit(s[k]))
    decreases |s| - i
  {
    if i < |s| && IsDigit(s[i]) then SkipDigits(s, i + 1) else i
  }

  /**
   * The lazy `.+?(?:\n|$)` from `j`, having tried lengths below `k`: the
   * first length whose characters are all matched by `.` and which is
   * followed by a newline or the end of the input.
   */
  function LazyLine(s: string, j: nat, k: nat): (r: Option<nat>)
    requires 1 <= k && j + k <= |s| + 1
    ensures r.Some? ==> k <= r.value && j + r.value <= |s|
    decreases |s| + 1 - (j + k)
  {
    if j + k > |s| then None
    else if IsLineTerminator(s[j + k - 1]) then None
    else if j + k == |s| || s[j + k] == '\n' then Some(k)
    else LazyLine(s, j, k + 1)
  }

  /** `s[j..j + k]` is a run `.` accepts, ended by a newline or by the end of the input. */
  ghost predicate LineTail(s: string, j: nat, k: nat) {
    1 <= k && j + k <= |s| && NoLineTerminator(s, j, j + k) && (j + k == |s| || s[j + k] == '\n')
  }

  /**
   * The lazy group takes the whole rest of the line: it succeeds exactly
   * when the line from `j` on ends in a newline or the end of the input.
   */
  lemma {:induction false} LazyLineIff(s: string, j: nat, k: nat)
    requires 1 <= k && j + k <= |s| + 1 && NoLineTerminator(s, j, j + k - 1)
    ensures var r := LazyLine(s, j, k);
      (r.Some? ==> k <= r.value && LineTail(s, j, r.value))
      && (r.None? ==> forall n :: k <= n ==> !LineTail(s, j, n))
    decreases |s| + 1 - (j + k)
  {
    if j + k <= |s| && !IsLineTerminator(s[j + k - 1]) && !(j + k == |s| || s[j + k] == '\n') {
      LazyLineIff(s, j, k + 1);
      var r := LazyLine(s, j, k);
      if r.None? {
        forall n | k <= n
          ensures !LineTail(s, j, n)
        {
          if n == k {
            assert !(j + k == |s| || s[j + k] == '\n');
          }
        }
      }
    } else if j + k <= |s| && IsLineTerminator(s[j + k - 1]) {
      forall n | k <= n
        ensures !LineTail(s, j, n)
      {
        assert j <= j + k - 1 < j + n;
      }
    } else if j + k > |s| {
      assert forall n :: k <= n ==> !LineTail(s, j, n);
    }
  }

  /** `\s*` backtracking from its greedy end `j` down to `lo`, trying the lazy group at each start. */
  function TryTail(s: string, lo: nat, j: nat): (r: Option<(nat, nat)>)
    requires lo <= j <= |s|
    ensures r.Some? ==> lo <= r.value.0 <= j && 1 <= r.value.1 && r.value.0 + r.value.1 <= |s|
    decreases j
  {
    match LazyLine(s, j, 1)
    case Some(k) => Some((j, k))
    case None => if j == lo then None else TryTail(s, lo, j - 1)
  }

  /**
   * The backtracking takes the latest start whose rest of the line the lazy
   * group accepts: what it reports is such a start, later starts fail, and
   * it reports nothing only when every start fails.
   */
  lemma {:induction false} TryTailLatest(s: string, lo: nat, j: nat)
    requires lo <= j <= |s|
    ensures var r := TryTail(s, lo, j);
      (r.Some? ==> LineTail(s, r.value.0, r.value.1)
                   && forall q, n :: r.value.0 < q <= j ==> !LineTail(s, q, n))
      && (r.None? ==> forall q, n :: lo <= q <= j ==> !LineTail(s, q, n))
    decreases j
  {
    LazyLineIff(s, j, 1);
    if LazyLine(s, j, 1).None? && j > lo {
      TryTailLatest(s, lo, j - 1);
    }
  }

  /** `(?:line|Line)` at index `i`, compared character by character. */
  predicate KeywordAt(s: string, i: nat) {
    i + 4 <= |s| && (s[i] == 'l' || s[i] == 'L') && s[i + 1] == 'i' && s[i + 2] == 'n' && s[i + 3] == 'e'
  }

  /** Where a match at `i` puts its pieces: group 1 is `s[b..c]`, group 2 is `s[j..j + k]`. */
  datatype Spans = Spans(b: nat, c: nat, j: nat, k: nat)

  /** The pattern tried at index `i` only, as the spans of its two groups. */
  function MatchSpans(s: string, i: nat): (r: Option<Spans>)
    ensures r.Some? ==> var p := r.value;
      i + 4 < p.b < p.c < p.j && 1 <= p.k && p.j + p.k <= |s|
  {
    if !KeywordAt(s, i) then None
    else
      var b := SkipWhitespace(s, i + 4);
      var c := SkipDigits(s, b);
      if b == i + 4 || c == b || c == |s| || s[c] != ':' then None
      else
        match TryTail(s, c + 1, SkipWhitespace(s, c + 1))
        case None => None
        case Some((j, k)) => Some(Spans(b, c, j, k))
  }

  /** The spans of a match hold digits, then the rest of a line. */
  lemma SpansShape(s: string, i: nat)
    requires MatchSpans(s, i).Some?
    ensures var p := MatchSpans(s, i).value;
      (forall q :: p.b <= q < p.c ==> IsDigit(s[q])) && LineTail(s, p.j, p.k)
  {
    var c := SkipDigits(s, SkipWhitespace(s, i + 4));
    TryTailLatest(s, c + 1, SkipWhitespace(s, c + 1));
  }

  /** The pattern tried at index `i` only. */
  function MatchAt(s: string, i: nat): (r: Option<LineMatch>)
    ensures r.Some? ==> i < r.value.end <= |s|
  {
    match MatchSpans(s, i)
    case None => None
    case Some(p) =>
      Some(LineMatch(s[p.b..p.c], s[p.j..p.j + p.k], if p.j + p.k < |s| then p.j + p.k + 1 else p.j + p.k))
  }

  /** `exec` from `lastIndex = from`: the first index at or after `from` where the pattern matches. */
  function Search(s: string, from: nat): (r: Option<Found>)
    requires from <= |s|
    ensures r.Some? ==> from <= r.value.at < r.value.m.end <= |s|
    decreases |s| - from
  {
    match MatchAt(s, from)
    case Some(m) => Some(Found(from, m))
    case None => if from == |s| then None else Search(s, from + 1)
  }

  /**
   * A match carries at least one digit, a non-empty group 2 that holds no
   * line terminator, and group 2 runs to the end of its line.
   */
  lemma MatchAtShape(s: string, i: nat)
    requires MatchAt(s, i).Some?
    ensures var m := MatchAt(s, i).value;
      |m.digits| >= 1 && (forall p :: 0 <= p < |m.digits| ==> IsDigit(m.digits[p]))
      && |m.text| >= 1 && (forall p :: 0 <= p < |m.text| ==> !IsLineTerminator(m.text[p]))
      && (m.end == |s| || s[m.end - 1] == '\n')
  {
    var sp := MatchSpans(s, i).value;
    SpansShape(s, i);
    var m := MatchAt(s, i).value;
    forall p | 0 <= p < |m.text|
      ensures !IsLineTerminator(m.text[p])
    {
      assert m.text[p] == s[sp.j + p];
    }
    forall p | 0 <= p < |m.digits|
      ensures IsDigit(m.digits[p])
    {
      assert m.digits[p] == s[sp.b + p];
    }
  }

  /** `exec` finds the leftmost match: nothing matches between `from` and the index it reports, or anywhere when it reports none. */
  lemma {:induction false} SearchLeftmost(s: string, from: nat)
    requires from <= |s|
    ensures var r := Search(s, from);
      (r.Some? ==> MatchAt(s, r.value.at) == Some(r.value.m) && forall p :: from <= p < r.value.at ==> MatchAt(s, p).None?)
      && (r.None? ==> forall p :: from <= p <= |s| ==> MatchAt(s, p).None?)
    decreases |s| - from
  {
    if MatchAt(s, from).None? && from < |s| {
      SearchLeftmost(s, from + 1);
      var r := Search(s, from);
      forall p | from <= p < (if r.Some? then r.value.at else |s| + 1)
        ensures MatchAt(s, p).None?
      {
        if p > from {
          assert from + 1 <= p;
        }
      }
    }
  }

  /** Every match of the global scan from `from`, in order. */
  function Matches(s: string, from: nat): seq<LineMatch>
    requires from <= |s|
    decreases |s| - from
  {
    match Search(s, from)
    case None => []
    case Some(f) => [f.m] + Matches(s, f.m.end)
  }

  // ---------------------------------------------------------------------------
  // From matches to diagnostics.

  const Source: string := "BECA"

  const QualityNotice: string := "BECA: Code quality suggestions available. Right-click and select \"BECA: Review File\" for details."

  /** The file-level hint given when no line-level issue was found but the review mentions "improve". */
  const FileLevelHint: Diagnostic := Diagnostic(Range(0, 0, 0, 0), QualityNotice, Hint, Source)

  /** Severity from keywords of the lower-cased message. */
  function SeverityOf(message: string): Severity {
    var lower := ToLower(message);
    if Contains(lower, "error") || Contains(lower, "bug") then Error
    else if Contains(lower, "info") || Contains(lower, "suggestion") then Information
    else Warning
  }

  /** The keyword test ignores case: a message and its lower-case form get the same severity, and no message gets a hint. */
  lemma SeverityIgnoresCase(message: string)
    ensures SeverityOf(ToLower(message)) == SeverityOf(message)
    ensures SeverityOf(message) != Hint
  {
    ToLowerIdempotent(message);
  }

  const MessagePrefix: string := "BECA: "

  /** The match's 1-based line number names a line of the document. */
  predicate NamesLine(m: LineMatch, lines: seq<string>) {
    1 <= DecimalValue(m.digits) <= |lines|
  }

  /** A line-level diagnostic: one whole line of the document, source "BECA", never a hint. */
  ghost predicate OnWholeLine(d: Diagnostic, lines: seq<string>) {
    && 0 <= d.range.startLine < |lines|
    && d.range.endLine == d.range.startLine
    && d.range.startCharacter == 0
    && d.range.endCharacter == |lines[d.range.startLine]|
    && d.source == Source && d.severity != Hint
  }

  /**
   * One match as a diagnostic: the 1-based line number must name a line of
   * the document, the range covers that whole line, the message is the
   * trimmed group after the "BECA: " prefix, and its keywords pick the severity.
   */
  function LineDiagnostic(m: LineMatch, lines: seq<string>): (r: Option<Diagnostic>)
    ensures r.Some? <==> NamesLine(m, lines)
  {
    var n := DecimalValue(m.digits) - 1;
    if 0 <= n < |lines| then
      var message := Trim(m.text);
      Some(Diagnostic(Range(n, 0, n, |lines[n]|), MessagePrefix + message, SeverityOf(message), Source))
    else None
  }

  /**
   * A match naming a line gives a diagnostic on that whole line (1-based
   * number, 0-based range) whose message is the trimmed group after the
   * "BECA: " prefix and whose severity its keywords pick.
   */
  lemma LineDiagnosticShape(m: LineMatch, lines: seq<string>)
    requires NamesLine(m, lines)
    ensures var d := LineDiagnostic(m, lines).value;
      OnWholeLine(d, lines) && d.range.startLine == DecimalValue(m.digits) - 1
      && d.message[|MessagePrefix|..] == Trim(m.text) && d.severity == SeverityOf(Trim(m.text))
  {
    var message := Trim(m.text);
    SeverityIgnoresCase(message);
    assert (MessagePrefix + message)[|MessagePrefix|..] == message;
  }

  /** The in-range matches turned into diagnostics, in match order; the others are dropped. */
  function LineDiagnostics(ms: seq<LineMatch>, lines: seq<string>): (r: seq<Diagnostic>)
    ensures |r| <= |ms|
    ensures r == [] <==> forall k :: 0 <= k < |ms| ==> !NamesLine(ms[k], lines)
  {
    if ms == [] then []
    else
      var rest := LineDiagnostics(ms[1..], lines);
      assert forall k :: 1 <= k < |ms| ==> ms[1..][k - 1] == ms[k];
      if NamesLine(ms[0], lines) then [LineDiagnostic(ms[0], lines).value] + rest
      else rest
  }

  /** The `k`-th diagnostic the matches give is a line-level one. */
  lemma {:induction false} LineDiagnosticsOnWholeLine(ms: seq<LineMatch>, lines: seq<string>, k: nat)
    requires k < |LineDiagnostics(ms, lines)|
    ensures OnWholeLine(LineDiagnostics(ms, lines)[k], lines)
    decreases |ms|
  {
    var rest := LineDiagnostics(ms[1..], lines);
    if NamesLine(ms[0], lines) {
      assert LineDiagnostics(ms, lines) == [LineDiagnostic(ms[0], lines).value] + rest;
      if k == 0 {
        LineDiagnosticShape(ms[0], lines);
      } else {
        LineDiagnosticsOnWholeLine(ms[1..], lines, k - 1);
      }
    } else {
      LineDiagnosticsOnWholeLine(ms[1..], lines, k);
    }
  }

  /** What `parseDiagnostics(response, document)` returns. */
  function DiagnosticsFor(response: string, lines: seq<string>): seq<Diagnostic> {
    var ds := LineDiagnostics(Matches(response, 0), lines);
    if ds == [] && Contains(response, "improve") then [FileLevelHint] else ds
  }

  /**
   * The result is either all line-level diagnostics or the single file-level
   * hint, and the hint appears exactly when no in-range line was named and the
   * (case-sensitive) word "improve" occurs; with neither, nothing is reported.
   */
  lemma DiagnosticsShape(response: string, lines: seq<string>)
    ensures var r := DiagnosticsFor(response, lines);
      var none := forall m :: m in Matches(response, 0) ==> !NamesLine(m, lines);
      (r == [FileLevelHint] <==> none && Contains(response, "improve"))
      && (r == [] <==> none && !Contains(response, "improve"))
      && (r != [FileLevelHint] ==> forall k :: 0 <= k < |r| ==> OnWholeLine(r[k], lines))
  {
    var ms := Matches(response, 0);
    var ds := LineDiagnostics(ms, lines);
    assert (forall m :: m in ms ==> !NamesLine(m, lines))
        <==> (forall k :: 0 <= k < |ms| ==> !NamesLine(ms[k], lines));
    forall k | 0 <= k < |ds|
      ensures OnWholeLine(ds[k], lines)
    {
      LineDiagnosticsOnWholeLine(ms, lines, k);
    }
    if ds != [] {
      assert ds[0] != FileLevelHint;
    }
  }

  /** A one-line review in the form the backend is asked for: `Line <digits>: <text>`. */
  function LineReport(digits: string, text: string): string {
    "Line " + digits + ": " + text
  }

  /** What a well-formed one-line report must satisfy: digits, then text on one line that starts with no blank. */
  predicate WellFormedReport(digits: string, text: string) {
    && |digits| >= 1 && (forall p :: 0 <= p < |digits| ==> IsDigit(digits[p]))
    && |text| >= 1 && !IsWhitespace(text[0]) && (forall p :: 0 <= p < |text| ==> !IsLineTerminator(text[p]))
  }

  /** In a well-formed report, group 1 is exactly the digits and group 2 exactly the text. */
  lemma LineReportSpans(digits: string, text: string)
    requires WellFormedReport(digits, text)
    ensures var n := |digits|;
      MatchSpans(LineReport(digits, text), 0) == Some(Spans(5, 5 + n, 7 + n, |text|))
  {
    var s := LineReport(digits, text);
    var n := |digits|;
    assert s[4] == ' ' && s[5 + n] == ':' && s[6 + n] == ' ';
    assert forall p :: 0 <= p < n ==> s[5 + p] == digits[p];
    assert forall p :: 0 <= p < |text| ==> s[7 + n + p] == text[p];
    assert KeywordAt(s, 0);
    var b := SkipWhitespace(s, 4);
    assert b == 5 by {
      assert !IsWhitespace(s[5]);
    }
    assert SkipDigits(s, 5) == 5 + n;
    var j := SkipWhitespace(s, 6 + n);
    assert j == 7 + n by {
      assert !IsWhitespace(s[7 + n]);
    }
    assert NoLineTerminator(s, j, |s|);
    LazyLineIff(s, j, 1);
    var r := LazyLine(s, j, 1);
    assert r == Some(|text|) by {
      assert LineTail(s, j, |text|);
      assert r.Some? && LineTail(s, j, r.value);
    }
    assert TryTail(s, 6 + n, j) == Some((j, |text|));
  }

  /** A well-formed report holds exactly one match, and it spans the whole report. */
  lemma LineReportMatches(digits: string, text: string)
    requires WellFormedReport(digits, text)
    ensures var s := LineReport(digits, text);
      Matches(s, 0) == [LineMatch(digits, text, |s|)]
  {
    var s := LineReport(digits, text);
    var n := |digits|;
    LineReportSpans(digits, text);
    assert s[5..5 + n] == digits;
    assert s[7 + n..7 + n + |text|] == text;
    var m := LineMatch(digits, text, |s|);
    assert MatchAt(s, 0) == Some(m);
    assert Search(s, 0) == Some(Found(0, m));
    assert MatchSpans(s, |s|).None?;
    assert Search(s, |s|).None?;
  }

  /**
   * A well-formed report naming line `n` of the document yields exactly one
   * diagnostic: the whole line `n - 1`, the trimmed text after "BECA: ", and
   * the severity its keywords pick.
   */
  lemma LineReportDiagnostic(digits: string, text: string, lines: seq<string>)
    requires WellFormedReport(digits, text)
    requires 1 <= DecimalValue(digits) <= |lines|
    ensures var n := DecimalValue(digits) - 1;
      DiagnosticsFor(LineReport(digits, text), lines)
        == [Diagnostic(Range(n, 0, n, |lines[n]|), MessagePrefix + Trim(text), SeverityOf(Trim(text)), Source)]
  {
    var s := LineReport(digits, text);
    var n := DecimalValue(digits) - 1;
    LineReportMatches(digits, text);
    var m := LineMatch(digits, text, |s|);
    var d := Diagnostic(Range(n, 0, n, |lines[n]|), MessagePrefix + Trim(text), SeverityOf(Trim(text)), Source);
    assert LineDiagnostic(m, lines) == Some(d);
    assert LineDiagnostics([m], lines) == [d];
  }

  // ---------------------------------------------------------------------------
  // The pending set and the analysis pass.

  /** The document's changes are saved and it lives on disk: only such documents are queued. */
  predicate Eligible(doc: Document) {
    doc.scheme == "file" && !doc.isDirty
  }

  predicate NoDuplicates(xs: seq<string>) {
    forall i, j :: 0 <= i < j < |xs| ==> xs[i] != xs[j]
  }

  /** `pendingDocuments.add(uri)` on an insertion-ordered set, for an eligible document. */
  function Enqueue(pending: seq<string>, doc: Document): seq<string> {
    if !Eligible(doc) || doc.uri in pending then pending else pending + [doc.uri]
  }

  /**
   * Queueing behaves as a set: an eligible document's URI is present
   * afterwards, nothing else is added, nothing is lost or reordered, and a
   * duplicate adds nothing.
   */
  lemma EnqueueIsSetAdd(pending: seq<string>, doc: Document)
    requires NoDuplicates(pending)
    ensures var r := Enqueue(pending, doc);
      NoDuplicates(r)
      && (forall u :: u in r <==> u in pending || (Eligible(doc) && u == doc.uri))
      && |pending| <= |r| && r[..|pending|] == pending
      && (|r| == |pending| + 1 <==> Eligible(doc) && doc.uri !in pending)
  {
  }

  /** `docs.forEach(doc => pendingDocuments.add(...))` from the queue `pending`, in the order of `docs`. */
  function EnqueueAll(pending: seq<string>, docs: seq<Document>): seq<string>
    decreases |docs|
  {
    if docs == [] then pending else Enqueue(EnqueueAll(pending, docs[..|docs| - 1]), docs[|docs| - 1])
  }

  /**
   * Queueing a list of documents on an empty queue holds each eligible
   * document's URI once and nothing else.
   */
  lemma {:induction false} EnqueueAllMembers(docs: seq<Document>)
    ensures NoDuplicates(EnqueueAll([], docs))
    ensures forall u :: u in EnqueueAll([], docs) <==> exists d :: d in docs && Eligible(d) && d.uri == u
    decreases |docs|
  {
    if docs != [] {
      var init, last := docs[..|docs| - 1], docs[|docs| - 1];
      EnqueueAllMembers(init);
      EnqueueIsSetAdd(EnqueueAll([], init), last);
      assert docs == init + [last];
      forall u | u in EnqueueAll([], docs)
        ensures exists d :: d in docs && Eligible(d) && d.uri == u
      {
        if u in EnqueueAll([], init) {
          var d :| d in init && Eligible(d) && d.uri == u;
          assert d in docs;
        } else {
          assert last in docs;
        }
      }
      forall u | exists d :: d in docs && Eligible(d) && d.uri == u
        ensures u in EnqueueAll([], docs)
      {
        var d :| d in docs && Eligible(d) && d.uri == u;
        if d != last {
          assert d in init;
        }
      }
    }
  }

  /** `textDocuments.find(doc => doc.uri.toString() === uri)` */
  function FindDocument(open: seq<Document>, uri: string): (r: Option<Document>)
    ensures r.Some? ==> r.value in open && r.value.uri == uri
    ensures r.None? ==> forall d :: d in open ==> d.uri != uri
  {
    if open == [] then None
    else if open[0].uri == uri then Some(open[0])
    else FindDocument(open[1..], uri)
  }

  /** The pending URIs mapped to open documents, with the closed ones filtered out, in queue order. */
  function StillOpen(pending: seq<string>, open: seq<Document>): seq<Document> {
    if pending == [] then []
    else
      (match FindDocument(open, pending[0]) case Some(d) => [d] case None => [])
      + StillOpen(pending[1..], open)
  }

  function UrisOf(docs: seq<Document>): (us: seq<string>)
    ensures |us| == |docs| && forall k :: 0 <= k < |docs| ==> us[k] == docs[k].uri
  {
    if docs == [] then [] else [docs[0].uri] + UrisOf(docs[1..])
  }

  /**
   * The pass visits exactly the pending URIs that still have an open
   * document, each of them once, and only open documents.
   */
  lemma {:induction false} StillOpenExactlyOnce(pending: seq<string>, open: seq<Document>)
    requires NoDuplicates(pending)
    ensures var docs := StillOpen(pending, open);
      |docs| <= |pending|
      && (forall d :: d in docs ==> d in open)
      && (forall u :: u in UrisOf(docs) <==> u in pending && FindDocument(open, u).Some?)
      && NoDuplicates(UrisOf(docs))
    decreases |pending|
  {
    if pending != [] {
      var rest := pending[1..];
      assert NoDuplicates(rest) by {
        forall i, j | 0 <= i < j < |rest| ensures rest[i] != rest[j] {
          assert rest[i] == pending[i + 1] && rest[j] == pending[j + 1];
        }
      }
      StillOpenExactlyOnce(rest, open);
      var head := match FindDocument(open, pending[0]) case Some(d) => [d] case None => [];
      var docs := StillOpen(pending, open);
      assert docs == head + StillOpen(rest, open);
      assert UrisOf(docs) == UrisOf(head) + UrisOf(StillOpen(rest, open));
      assert pending[0] !in rest by {
        forall k | 0 <= k < |rest| ensures rest[k] != pending[0] {
          assert rest[k] == pending[k + 1];
        }
      }
      forall u
        ensures u in UrisOf(docs) <==> u in pending && FindDocument(open, u).Some?
      {
        assert u in pending <==> u == pending[0] || u in rest;
      }
    }
  }

  /** What `analyzeDocument` stores for one reply: the parsed review when it succeeded with text, nothing otherwise. */
  function Review(doc: Document, reply: Reply): Option<seq<Diagnostic>> {
    if HasText(reply) then Some(DiagnosticsFor(reply.response.value, doc.lines)) else None
  }

  /** `collection.set(uri, diagnostics)` when there is something to store. */
  function Store(collection: map<string, seq<Diagnostic>>, uri: string, outcome: Option<seq<Diagnostic>>): map<string, seq<Diagnostic>> {
    match outcome
    case Some(ds) => collection[uri := ds]
    case None => collection
  }

  /** The documents analysed in order, `outcome(doc)` being what the analysis of `doc` stores. */
  function AnalyzedAll(collection: map<string, seq<Diagnostic>>, docs: seq<Document>, outcome: Document -> Option<seq<Diagnostic>>): map<string, seq<Diagnostic>>
    decreases |docs|
  {
    if docs == [] then collection
    else
      var last := docs[|docs| - 1];
      Store(AnalyzedAll(collection, docs[..|docs| - 1], outcome), last.uri, outcome(last))
  }

  /** `collection.get(uri)` */
  function Lookup(collection: map<string, seq<Diagnostic>>, uri: string): Option<seq<Diagnostic>> {
    if uri in collection then Some(collection[uri]) else None
  }

  /** Storing under one URI does not change what another URI holds. */
  lemma StoreOther(collection: map<string, seq<Diagnostic>>, uri: string, outcome: Option<seq<Diagnostic>>, other: string)
    requires other != uri
    ensures Lookup(Store(collection, uri, outcome), other) == Lookup(collection, other)
  {
  }

  /** Removing the last document takes its URI off the end of the list of URIs. */
  lemma UrisOfSnoc(docs: seq<Document>)
    requires docs != []
    ensures UrisOf(docs) == UrisOf(docs[..|docs| - 1]) + [docs[|docs| - 1].uri]
  {
  }

  /** Without duplicates, the last element is not among the others, which have no duplicates either. */
  lemma NoDuplicatesSnoc(xs: seq<string>)
    requires xs != [] && NoDuplicates(xs)
    ensures var init := xs[..|xs| - 1]; NoDuplicates(init) && xs[|xs| - 1] !in init
  {
    var init := xs[..|xs| - 1];
    forall k | 0 <= k < |init| ensures init[k] != xs[|xs| - 1] {
      assert init[k] == xs[k];
    }
  }

  /** A URI outside the pass holds what it held before. */
  lemma {:induction false} AnalyzedAllOutside(collection: map<string, seq<Diagnostic>>, docs: seq<Document>, outcome: Document -> Option<seq<Diagnostic>>, u: string)
    requires u !in UrisOf(docs)
    ensures Lookup(AnalyzedAll(collection, docs, outcome), u) == Lookup(collection, u)
    decreases |docs|
  {
    if docs != [] {
      var init := docs[..|docs| - 1];
      UrisOfSnoc(docs);
      AnalyzedAllOutside(collection, init, outcome, u);
      StoreOther(AnalyzedAll(collection, init, outcome), docs[|docs| - 1].uri, outcome(docs[|docs| - 1]), u);
    }
  }

  /** A document of the pass ends as if it alone had been analysed. */
  lemma {:induction false} AnalyzedAllInside(collection: map<string, seq<Diagnostic>>, docs: seq<Document>, outcome: Document -> Option<seq<Diagnostic>>, k: nat)
    requires NoDuplicates(UrisOf(docs)) && k < |docs|
    ensures Lookup(AnalyzedAll(collection, docs, outcome), docs[k].uri)
         == Lookup(Store(collection, docs[k].uri, outcome(docs[k])), docs[k].uri)
    decreases |docs|
  {
    var init := docs[..|docs| - 1];
    var last := docs[|docs| - 1];
    UrisOfSnoc(docs);
    NoDuplicatesSnoc(UrisOf(docs));
    var before := AnalyzedAll(collection, init, outcome);
    if k < |init| {
      assert UrisOf(init)[k] == init[k].uri == docs[k].uri;
      AnalyzedAllInside(collection, init, outcome, k);
      StoreOther(before, last.uri, outcome(last), docs[k].uri);
    } else {
      AnalyzedAllOutside(collection, init, outcome, last.uri);
    }
  }

  /**
   * The pass leaves every URI outside it untouched, and each document of the
   * pass ends as if it alone had been analysed: what its analysis stores when
   * there is something to store, what it had before otherwise.
   */
  lemma AnalyzedAllEffect(collection: map<string, seq<Diagnostic>>, docs: seq<Document>, outcome: Document -> Option<seq<Diagnostic>>)
    requires NoDuplicates(UrisOf(docs))
    ensures forall u :: u !in UrisOf(docs) ==> Lookup(AnalyzedAll(collection, docs, outcome), u) == Lookup(collection, u)
    ensures forall k :: 0 <= k < |docs| ==>
      Lookup(AnalyzedAll(collection, docs, outcome), docs[k].uri) == Lookup(Store(collection, docs[k].uri, outcome(docs[k])), docs[k].uri)
  {
    forall u | u !in UrisOf(docs)
      ensures Lookup(AnalyzedAll(collection, docs, outcome), u) == Lookup(collection, u)
    {
      AnalyzedAllOutside(collection, docs, outcome, u);
    }
    forall k | 0 <= k < |docs|
      ensures Lookup(AnalyzedAll(collection, docs, outcome), docs[k].uri) == Lookup(Store(collection, docs[k].uri, outcome(docs[k])), docs[k].uri)
    {
      AnalyzedAllInside(collection, docs, outcome, k);
    }
  }

  class DiagnosticProvider {
    /** `pendingDocuments`: a `Set` of URIs, iterated in insertion order. */
    var pending: seq<string>
    /** When the one debounce timer fires, if one was ever started. */
    var analysisTimeout: Option<int>
    /** The `beca` diagnostic collection, by document URI. */
    var collection: map<string, seq<Diagnostic>>

    ghost predicate Valid()
      reads this
    {
      NoDuplicates(pending)
    }

    /**
     * The provider starts with an empty collection and schedules every
     * document open at `now`, in the editor's order.
     */
    constructor(openDocs: seq<Document>, now: int)
      ensures Valid() && pending == EnqueueAll([], openDocs) && collection == map[]
      ensures analysisTimeout == if exists d :: d in openDocs && Eligible(d) then Some(now + 3000) else None
    {
      pending := [];
      analysisTimeout := None;
      collection := map[];
      new;
      var i := 0;
      while i < |openDocs|
        invariant 0 <= i <= |openDocs|
        invariant Valid() && pending == EnqueueAll([], openDocs[..i]) && collection == map[]
        invariant analysisTimeout == if exists d :: d in openDocs[..i] && Eligible(d) then Some(now + 3000) else None
      {
        assert openDocs[..i + 1] == openDocs[..i] + [openDocs[i]];
        assert openDocs[..i + 1][..i] == openDocs[..i];
        ScheduleAnalysis(openDocs[i], now);
        i := i + 1;
      }
      assert openDocs[..i] == openDocs;
    }

    /**
     * `scheduleAnalysis(document)` at time `now`: an eligible document is
     * queued and the single timer restarts to fire 3000 ms from now.
     */
    method ScheduleAnalysis(doc: Document, now: int)
      requires Valid()
      modifies this`pending, this`analysisTimeout
      ensures Valid()
      ensures pending == Enqueue(old(pending), doc)
      ensures analysisTimeout == if Eligible(doc) then Some(now + 3000) else old(analysisTimeout)
    {
      if doc.scheme != "file" || doc.isDirty {
        return;
      }
      if doc.uri !in pending {
        pending := pending + [doc.uri];
      }
      analysisTimeout := Some(now + 3000);
      EnqueueIsSetAdd(old(pending), doc);
    }

    /** `onDocumentChange`: documents are queued on change only while `autoReview` is on. */
    method OnDocumentChange(autoReview: bool, doc: Document, now: int)
      requires Valid()
      modifies this`pending, this`analysisTimeout
      ensures Valid()
      ensures pending == if autoReview then Enqueue(old(pending), doc) else old(pending)
      ensures analysisTimeout == if autoReview && Eligible(doc) then Some(now + 3000) else old(analysisTimeout)
    {
      if !autoReview {
        return;
      }
      ScheduleAnalysis(doc, now);
    }

    /** `onDocumentOpen`: an opened document is scheduled whatever the setting. */
    method OnDocumentOpen(doc: Document, now: int)
      requires Valid()
      modifies this`pending, this`analysisTimeout
      ensures Valid()
      ensures pending == Enqueue(old(pending), doc)
      ensures analysisTimeout == if Eligible(doc) then Some(now + 3000) else old(analysisTimeout)
    {
      ScheduleAnalysis(doc, now);
    }

    /** `clearDiagnostics(document)`: only that document's entry goes. */
    method ClearDiagnostics(doc: Document)
      modifies this`collection
      ensures collection == old(collection) - {doc.uri}
    {
      collection := collection - {doc.uri};
    }

    /** `clearAll` empties the collection. */
    method ClearAll()
      modifies this`collection
      ensures collection == map[]
    {
      collection := map[];
    }

    /** `analyzeDocument(document)` with the backend's `reply`; a thrown call is caught and changes nothing. */
    method AnalyzeDocument(doc: Document, reply: Reply)
      modifies this`collection
      ensures collection == Store(old(collection), doc.uri, Review(doc, reply))
    {
      if reply.Answered? && reply.success && reply.response.Some? && reply.response.value != "" {
        var diagnostics := ParseDiagnostics(reply.response.value, doc.lines);
        collection := collection[doc.uri := diagnostics];
      }
    }

    /**
     * `analyzePendingDocuments` against the open documents `open`, the
     * backend answering `answer(doc)` for each: the queue empties and the
     * still-open queued documents are analysed in queue order.
     */
    method AnalyzePendingDocuments(open: seq<Document>, answer: Document -> Reply)
      requires Valid()
      modifies this`pending, this`collection
      ensures Valid() && pending == []
      ensures collection == AnalyzedAll(old(collection), StillOpen(old(pending), open), doc => Review(doc, answer(doc)))
    {
      var documents := StillOpen(pending, open);
      pending := [];
      for i := 0 to |documents|
        invariant pending == []
        invariant collection == AnalyzedAll(old(collection), documents[..i], doc => Review(doc, answer(doc)))
      {
        AnalyzeDocument(documents[i], answer(documents[i]));
        assert documents[..i + 1][..i] == documents[..i];
      }
      assert documents[..|documents|] == documents;
    }

  }

  /** The diagnostic of one match, present only when the match names a line. */
  function DiagnosticOf(m: LineMatch, lines: seq<string>): seq<Diagnostic> {
    match LineDiagnostic(m, lines)
    case Some(d) => [d]
    case None => []
  }

  /** The diagnostics of the scan from `from`, one `exec` at a time. */
  function ScanFrom(s: string, from: nat, lines: seq<string>): seq<Diagnostic>
    requires from <= |s|
    decreases |s| - from
  {
    match Search(s, from)
    case None => []
    case Some(f) => DiagnosticOf(f.m, lines) + ScanFrom(s, f.m.end, lines)
  }

  /** Scanning one `exec` at a time gives the diagnostics of all the matches. */
  lemma {:induction false} ScanFromMatches(s: string, from: nat, lines: seq<string>)
    requires from <= |s|
    ensures ScanFrom(s, from, lines) == LineDiagnostics(Matches(s, from), lines)
    decreases |s| - from
  {
    match Search(s, from)
    case None =>
    case Some(f) =>
      ScanFromMatches(s, f.m.end, lines);
      var rest := Matches(s, f.m.end);
      assert Matches(s, from) == [f.m] + rest;
      assert ([f.m] + rest)[1..] == rest;
  }

  /** One `exec` step keeps the scan's account: what was collected plus what is left is the whole scan. */
  lemma ScanStep(s: string, from: nat, lines: seq<string>, acc: seq<Diagnostic>, total: seq<Diagnostic>)
    requires from <= |s| && Search(s, from).Some?
    requires acc + ScanFrom(s, from, lines) == total
    ensures var m := Search(s, from).value.m;
      (acc + DiagnosticOf(m, lines)) + ScanFrom(s, m.end, lines) == total
  {
  }

  /** The `exec` loop of `parseDiagnostics`: one diagnostic per in-range match, in match order. */
  method ScanLines(response: string, lines: seq<string>) returns (diagnostics: seq<Diagnostic>)
    ensures diagnostics == LineDiagnostics(Matches(response, 0), lines)
  {
    diagnostics := [];
    var lastIndex := 0;
    var found := Search(response, lastIndex);
    ghost var total := ScanFrom(response, 0, lines);
    while found.Some?
      invariant lastIndex <= |response| && found == Search(response, lastIndex)
      invariant diagnostics + ScanFrom(response, lastIndex, lines) == total
      decreases |response| - lastIndex
    {
      var m := found.value.m;
      ScanStep(response, lastIndex, lines, diagnostics, total);
      diagnostics := diagnostics + DiagnosticOf(m, lines);
      lastIndex := m.end;
      found := Search(response, lastIndex);
    }
    ScanFromMatches(response, 0, lines);
  }

  /** `parseDiagnostics(response, document)`: the `exec` loop, then the file-level fallback. */
  method ParseDiagnostics(response: string, lines: seq<string>) returns (diagnostics: seq<Diagnostic>)
    ensures diagnostics == DiagnosticsFor(response, lines)
  {
    diagnostics := ScanLines(response, lines);
    if diagnostics == [] && Contains(response, "improve") {
      diagnostics := [FileLevelHint];
    }
  }
}
