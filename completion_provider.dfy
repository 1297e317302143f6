/**
 * The inline completion provider: a per-provider rate limit, a gate on the
 * typed prefix, a request for suggestions about the lines around the cursor,
 * and the parser that turns the backend's answer into at most
 * `maxSuggestions` code-block suggestions (or one generic suggestion).
 */
module Completion {
  import opened Options
  import opened JsText
  import opened EditorHost

  // ---------------------------------------------------------------------
  // The code-block pattern  /```[\w]*\n([\s\S]+?)```/g
  // ---------------------------------------------------------------------

  /** A fence of three backticks begins at `i`. */
  predicate FenceAt(s: string, i: nat) {
    i + 3 <= |s| && s[i] == '`' && s[i + 1] == '`' && s[i + 2] == '`'
  }

  /** End of the greedy run `[\w]*` starting at `i`. */
  function SkipWord(s: string, i: nat): (k: nat)
    requires i <= |s|
    ensures i <= k <= |s|
    decreases |s| - i
  {
    if i == |s| || !IsWordChar(s[i]) then i else SkipWord(s, i + 1)
  }

  /** The first fence at or after `i`. */
  function NextFence(s: string, i: nat): (r: Option<nat>)
    ensures r.Some? ==> i <= r.value && r.value + 3 <= |s|
    decreases |s| - i
  {
    if i + 3 > |s| then None else if FenceAt(s, i) then Some(i) else NextFence(s, i + 1)
  }

  /** Every character the greedy run passes over is a word character. */
  lemma {:induction false} SkipWordRun(s: string, i: nat, j: nat)
    requires i <= |s| && i <= j < SkipWord(s, i)
    ensures IsWordChar(s[j])
    decreases |s| - i
  {
    if i < j {
      SkipWordRun(s, i + 1, j);
    }
  }

  /** What `NextFence` finds is a fence. */
  lemma {:induction false} NextFenceIsFence(s: string, i: nat)
    ensures NextFence(s, i).Some? ==> FenceAt(s, NextFence(s, i).value)
    decreases |s| - i
  {
    if i + 3 <= |s| && !FenceAt(s, i) {
      NextFenceIsFence(s, i + 1);
    }
  }

  /** No fence begins between `i` and the one `NextFence` finds (anywhere from `i` on, when it finds none). */
  lemma {:induction false} NextFenceIsFirst(s: string, i: nat, j: nat)
    requires i <= j && (NextFence(s, i).None? || j < NextFence(s, i).value)
    ensures !FenceAt(s, j)
    decreases |s| - i
  {
    if i + 3 <= |s| && !FenceAt(s, i) && i < j {
      NextFenceIsFirst(s, i + 1, j);
    }
  }

  /** One match: where it starts, the captured group, and where the match ends. */
  datatype Block = Block(start: nat, code: string, end: nat)

  /**
   * The pattern tried at `i`. `\n` is not a word character, so the greedy
   * `[\w]*` never gives anything back; the lazy group takes at least one
   * character and stops before the first fence after that.
   */
  function BlockAt(s: string, i: nat): (r: Option<Block>)
    ensures r.Some? ==> r.value.start == i && i + 8 <= r.value.end <= |s| && |r.value.code| >= 1
  {
    if !FenceAt(s, i) then None
    else
      var w := SkipWord(s, i + 3);
      if w == |s| || s[w] != '\n' then None
      else
        match NextFence(s, w + 2)
        case None => None
        case Some(q) => Some(Block(i, s[w + 1..q], q + 3))
  }

  /** `exec` with `lastIndex == from`: the leftmost match starting at or after `from`. */
  function FindBlock(s: string, from: nat): (r: Option<Block>)
    ensures r.Some? ==> from <= r.value.start && r.value.start + 8 <= r.value.end <= |s|
    decreases |s| - from
  {
    if from >= |s| then None
    else
      match BlockAt(s, from)
      case Some(b) => Some(b)
      case None => FindBlock(s, from + 1)
  }

  /**
   * A match is a fence, a run of word characters, a newline, the group, and
   * a closing fence; the group is the shortest non-empty text that a fence
   * follows.
   */
  lemma BlockAtShape(s: string, i: nat)
    requires BlockAt(s, i).Some?
    ensures FenceAt(s, i) && SkipWord(s, i + 3) < |s| && s[SkipWord(s, i + 3)] == '\n'
    ensures forall j :: i + 3 <= j < SkipWord(s, i + 3) ==> IsWordChar(s[j])
    ensures BlockAt(s, i).value.code == s[SkipWord(s, i + 3) + 1..BlockAt(s, i).value.end - 3]
    ensures FenceAt(s, BlockAt(s, i).value.end - 3)
    ensures forall p :: SkipWord(s, i + 3) + 2 <= p < BlockAt(s, i).value.end - 3 ==> !FenceAt(s, p)
  {
    var w := SkipWord(s, i + 3);
    NextFenceIsFence(s, w + 2);
    forall j | i + 3 <= j < w ensures IsWordChar(s[j]) {
      SkipWordRun(s, i + 3, j);
    }
    forall p | w + 2 <= p < BlockAt(s, i).value.end - 3 ensures !FenceAt(s, p) {
      NextFenceIsFirst(s, w + 2, p);
    }
  }

  /** `exec` returns a match that starts where it says. */
  lemma {:induction false} FindBlockIsMatch(s: string, from: nat)
    requires FindBlock(s, from).Some?
    ensures BlockAt(s, FindBlock(s, from).value.start) == FindBlock(s, from)
    decreases |s| - from
  {
    if BlockAt(s, from).None? {
      FindBlockIsMatch(s, from + 1);
    }
  }

  /** `exec` finds the leftmost match: none starts from `from` up to the one it returns, or anywhere when it returns none. */
  lemma {:induction false} FindBlockLeftmost(s: string, from: nat, j: nat)
    requires from <= j && (FindBlock(s, from).None? || j < FindBlock(s, from).value.start)
    ensures BlockAt(s, j).None?
    decreases |s| - from
  {
    if from < j && from < |s| {
      FindBlockLeftmost(s, from + 1, j);
    }
  }

  /** All matches of the global pattern from `from` on, in the order `exec` returns them. */
  function Blocks(s: string, from: nat): seq<Block>
    decreases |s| - from
  {
    match FindBlock(s, from)
    case None => []
    case Some(b) => [b] + Blocks(s, b.end)
  }

  /** Successive matches do not overlap and come in the order of the text. */
  lemma {:induction false} BlocksInOrder(s: string, from: nat, k: nat)
    requires k + 1 < |Blocks(s, from)|
    ensures Blocks(s, from)[k].end <= Blocks(s, from)[k + 1].start
    decreases |s| - from
  {
    var b := FindBlock(s, from).value;
    if k == 0 {
      assert Blocks(s, from)[1] == Blocks(s, b.end)[0];
    } else {
      BlocksInOrder(s, b.end, k - 1);
      assert Blocks(s, from)[k] == Blocks(s, b.end)[k - 1];
    }
  }

  // ---------------------------------------------------------------------
  // parseSuggestions
  // ---------------------------------------------------------------------

  /** One parsed suggestion. */
  datatype Suggestion = Suggestion(labelText: string, documentation: string, insertText: string)

  const SnippetDocumentation := "BECA suggested code snippet"

  /** `code.split('\n')[0]` */
  function FirstLine(code: string): string {
    Split(code, '\n')[0]
  }

  /** The suggestion made of one code block: its trimmed text, labelled by its first line cut to 50 characters plus "...". */
  function CodeSuggestion(b: Block): Suggestion {
    var code := Trim(b.code);
    Suggestion(Prefix(FirstLine(code), 50) + "...", SnippetDocumentation, code)
  }

  /** The label is the start of the inserted text: its first line, cut at 50 characters, then "...". */
  lemma CodeSuggestionShape(b: Block)
    ensures CodeSuggestion(b).insertText == Trim(b.code)
    ensures CodeSuggestion(b).documentation == SnippetDocumentation
    ensures 3 <= |CodeSuggestion(b).labelText| <= 53
    ensures CodeSuggestion(b).labelText[|CodeSuggestion(b).labelText| - 3..] == "..."
    ensures CodeSuggestion(b).labelText[..|CodeSuggestion(b).labelText| - 3] == CodeSuggestion(b).insertText[..|CodeSuggestion(b).labelText| - 3]
    ensures '\n' !in CodeSuggestion(b).labelText[..|CodeSuggestion(b).labelText| - 3]
    ensures var n := |CodeSuggestion(b).labelText| - 3;
      n == 50 || n == |CodeSuggestion(b).insertText| || CodeSuggestion(b).insertText[n] == '\n'
  {
    var code := Trim(b.code);
    var first := FirstLine(code);
    SplitHead(code, '\n');
    var k := IndexOf(code, '\n', 0);
    assert first == code[..k];
    var cut := Prefix(first, 50);
    var text := cut + "...";
    assert text[..|cut|] == cut;
    assert text[|cut|..] == "...";
    assert cut == code[..|cut|];
  }

  /** How many blocks are kept under the limit `n`. */
  function Capped(blocks: nat, n: int): nat {
    if n <= 0 then 0 else if blocks < n then blocks else n
  }

  /** The suggestions made of the first `n` blocks, in order. */
  function CodeSuggestions(bs: seq<Block>, n: int): (r: seq<Suggestion>) {
    seq(Capped(|bs|, n), k requires 0 <= k < Capped(|bs|, n) => CodeSuggestion(bs[k]))
  }

  /** The filter's test `line.trim().length > 0`. */
  predicate NonBlank(line: string) {
    !IsBlank(line)
  }

  /** `xs.filter(keep)` */
  function Filter(xs: seq<string>, keep: string -> bool): (r: seq<string>)
    ensures |r| <= |xs|
  {
    if xs == [] then []
    else if keep(xs[0]) then [xs[0]] + Filter(xs[1..], keep)
    else Filter(xs[1..], keep)
  }

  /** Where the first element that passes the test is; `|xs|` when none does. */
  function FirstKept(xs: seq<string>, keep: string -> bool): (i: nat)
    ensures i <= |xs|
  {
    if xs == [] || keep(xs[0]) then 0 else 1 + FirstKept(xs[1..], keep)
  }

  /** The element `FirstKept` points at passes the test. */
  lemma {:induction false} FirstKeptIsKept(xs: seq<string>, keep: string -> bool)
    requires FirstKept(xs, keep) < |xs|
    ensures keep(xs[FirstKept(xs, keep)])
  {
    if !keep(xs[0]) {
      var rest := xs[1..];
      FirstKeptIsKept(rest, keep);
      var i := FirstKept(rest, keep);
      assert xs[i + 1] == rest[i];
    }
  }

  /** Every element before it fails the test. */
  lemma {:induction false} NoneKeptBefore(xs: seq<string>, keep: string -> bool, j: nat)
    requires j < FirstKept(xs, keep)
    ensures !keep(xs[j])
  {
    if j > 0 {
      var rest := xs[1..];
      var j1 := j - 1;
      NoneKeptBefore(rest, keep, j1);
      assert xs[j] == rest[j1];
    }
  }

  /** The filter is empty exactly when nothing passes, and otherwise starts with the first element that does. */
  lemma {:induction false} FilterHead(xs: seq<string>, keep: string -> bool)
    ensures Filter(xs, keep) == [] <==> FirstKept(xs, keep) == |xs|
    ensures Filter(xs, keep) != [] ==> Filter(xs, keep)[0] == xs[FirstKept(xs, keep)]
  {
    if xs != [] {
      FilterHead(xs[1..], keep);
    }
  }

  /** The line the generic suggestion offers: the first non-blank line, else the first 100 characters. */
  function FallbackLine(response: string): string {
    var lines := Filter(Split(response, '\n'), NonBlank);
    if |lines| > 0 then lines[0] else Prefix(response, 100)
  }

  /** The generic suggestion made when the answer yields no code suggestion. */
  function GenericSuggestion(response: string): Suggestion {
    var firstLine := FallbackLine(response);
    Suggestion(Prefix(firstLine, 50), response, firstLine)
  }

  /** What `parseSuggestions(response, maxSuggestions)` returns. */
  function Suggestions(response: string, maxSuggestions: int): seq<Suggestion> {
    var code := CodeSuggestions(Blocks(response, 0), maxSuggestions);
    if |code| == 0 && response != "" then [GenericSuggestion(response)] else code
  }

  /** Taking the match `exec` returns moves it from the rest of the text to the matches seen. */
  lemma BlocksStep(s: string, seen: seq<Block>, from: nat)
    requires Blocks(s, 0) == seen + Blocks(s, from) && FindBlock(s, from).Some?
    ensures Blocks(s, 0) == (seen + [FindBlock(s, from).value]) + Blocks(s, FindBlock(s, from).value.end)
  {
    assert Blocks(s, from) == [FindBlock(s, from).value] + Blocks(s, FindBlock(s, from).value.end);
  }

  /**
   * The parser's loop. As in the source, `exec` runs before the count test, so
   * one more match is looked for after the last one kept; it changes nothing
   * but the pattern's `lastIndex`.
   */
  method ParseSuggestions(response: string, maxSuggestions: int) returns (suggestions: seq<Suggestion>)
    ensures suggestions == Suggestions(response, maxSuggestions)
  {
    suggestions := [];
    var count := 0;
    var lastIndex: nat := 0;
    ghost var seen: seq<Block> := [];
    var found := FindBlock(response, lastIndex);
    while found.Some? && count < maxSuggestions
      invariant lastIndex <= |response|
      invariant found == FindBlock(response, lastIndex)
      invariant Blocks(response, 0) == seen + Blocks(response, lastIndex)
      invariant count == |seen| == |suggestions| && (count == 0 || count <= maxSuggestions)
      invariant forall k :: 0 <= k < count ==> suggestions[k] == CodeSuggestion(seen[k])
      decreases |response| - lastIndex
    {
      BlocksStep(response, seen, lastIndex);
      suggestions := suggestions + [CodeSuggestion(found.value)];
      seen := seen + [found.value];
      count := count + 1;
      lastIndex := found.value.end;
      found := FindBlock(response, lastIndex);
    }
    assert count == Capped(|Blocks(response, 0)|, maxSuggestions);
    if |suggestions| == 0 && response != "" {
      suggestions := [GenericSuggestion(response)];
    }
  }

  /**
   * With a positive limit and at least one code block, the suggestions are
   * the first `min(limit, blocks)` blocks in order; otherwise a non-empty
   * answer gives exactly the one generic suggestion and an empty one gives none.
   */
  lemma SuggestionsCases(response: string, maxSuggestions: int, k: nat)
    ensures maxSuggestions > 0 && Blocks(response, 0) != [] ==>
      |Suggestions(response, maxSuggestions)| == Capped(|Blocks(response, 0)|, maxSuggestions)
    ensures maxSuggestions > 0 && k < |Blocks(response, 0)| && k < maxSuggestions ==>
      k < |Suggestions(response, maxSuggestions)| && Suggestions(response, maxSuggestions)[k] == CodeSuggestion(Blocks(response, 0)[k])
    ensures (maxSuggestions <= 0 || Blocks(response, 0) == []) && response != "" ==>
      Suggestions(response, maxSuggestions) == [GenericSuggestion(response)]
    ensures response == "" ==> Suggestions(response, maxSuggestions) == []
  {
  }

  /**
   * The generic suggestion inserts the first non-blank line of the answer
   * (or its first 100 characters when every line is blank), labels it with
   * its first 50 characters and documents it with the whole answer.
   */
  lemma GenericSuggestionShape(response: string)
    ensures GenericSuggestion(response).documentation == response
    ensures GenericSuggestion(response).labelText == Prefix(GenericSuggestion(response).insertText, 50)
    ensures FirstKept(Split(response, '\n'), NonBlank) == |Split(response, '\n')| ==>
      GenericSuggestion(response).insertText == Prefix(response, 100)
    ensures FirstKept(Split(response, '\n'), NonBlank) < |Split(response, '\n')| ==>
      GenericSuggestion(response).insertText == Split(response, '\n')[FirstKept(Split(response, '\n'), NonBlank)]
      && !IsBlank(GenericSuggestion(response).insertText)
    ensures forall j :: 0 <= j < FirstKept(Split(response, '\n'), NonBlank) ==> IsBlank(Split(response, '\n')[j])
  {
    var lines := Split(response, '\n');
    FilterHead(lines, NonBlank);
    if FirstKept(lines, NonBlank) < |lines| {
      FirstKeptIsKept(lines, NonBlank);
    }
    forall j | 0 <= j < FirstKept(lines, NonBlank) ensures IsBlank(lines[j]) {
      NoneKeptBefore(lines, NonBlank, j);
    }
  }

  // ---------------------------------------------------------------------
  // provideCompletionItems
  // ---------------------------------------------------------------------

  /** A completion item as handed to the editor. */
  datatype CompletionItem = CompletionItem(labelText: string, detail: string, documentation: string, insertText: string, sortText: string)

  const ItemDetail := "\U{1F916} BECA Suggestion"

  /** Minimum time between two requests, in milliseconds. */
  const MinDelay := 2000

  /** `config.get('maxSuggestions') || 3`: an unset or zero setting means 3. */
  function MaxSuggestions(setting: Option<int>): int {
    if setting.Some? && setting.value != 0 then setting.value else 3
  }

  /** The template string `0${index}`. */
  function SortText(index: nat): string {
    "0" + NatToString(index)
  }

  function ItemOf(s: Suggestion, index: nat): CompletionItem {
    CompletionItem(s.labelText, ItemDetail, s.documentation, s.insertText, SortText(index))
  }

  /** `suggestions.map((suggestion, index) => ...)` */
  function ItemsOf(ss: seq<Suggestion>): (r: seq<CompletionItem>)
    ensures |r| == |ss|
  {
    seq(|ss|, k requires 0 <= k < |ss| => ItemOf(ss[k], k))
  }

  /** Each item carries its suggestion's texts, the fixed detail, and its position as sort key. */
  lemma ItemsOfKeepSuggestions(ss: seq<Suggestion>, k: nat)
    requires k < |ss|
    ensures ItemsOf(ss)[k].labelText == ss[k].labelText && ItemsOf(ss)[k].documentation == ss[k].documentation
    ensures ItemsOf(ss)[k].insertText == ss[k].insertText && ItemsOf(ss)[k].detail == ItemDetail
    ensures ItemsOf(ss)[k].sortText == SortText(k)
  {
  }

  /** Whether `a` sorts strictly before `b`, comparing character by character. */
  predicate SortsBefore(a: string, b: string)
    decreases |a|
  {
    b != [] && (a == [] || a[0] < b[0] || (a[0] == b[0] && SortsBefore(a[1..], b[1..])))
  }

  /** Below ten items the sort keys keep the order in which the suggestions were parsed. */
  lemma SortTextKeepsOrder(i: nat, j: nat)
    requires i < j < 10
    ensures SortsBefore(SortText(i), SortText(j))
  {
    assert SortText(i) == ['0', DigitChar(i)];
    assert SortText(j) == ['0', DigitChar(j)];
    assert SortText(i)[1..] == [DigitChar(i)];
    assert SortText(j)[1..] == [DigitChar(j)];
  }

  /** From the eleventh item on the order breaks: "010" sorts before "02". */
  lemma SortTextTenBeforeTwo()
    ensures SortsBefore(SortText(10), SortText(2)) && !SortsBefore(SortText(2), SortText(10))
  {
    assert NatToString(1) == ['1'];
    assert NatToString(10) == NatToString(1) + [DigitChar(0)];
    assert SortText(10) == ['0', '1', '0'];
    assert SortText(2) == ['0', '2'];
    assert SortText(10)[1..] == ['1', '0'];
    assert SortText(2)[1..] == ['2'];
  }

  /** What one admitted request returns, and the lines it sent to the backend, if any. */
  datatype Outcome = Outcome(items: seq<CompletionItem>, sent: Option<Window>)

  /**
   * The body of `provideCompletionItems` after the rate limit. `lineAt` throws
   * for a line outside the document and the `catch` turns that into no items;
   * so does a backend call that throws.
   */
  function Complete(doc: Document, position: Position, setting: Option<int>, reply: Reply): Outcome {
    if position.line >= |doc.lines| then Outcome([], None)
    else if |Trim(Prefix(doc.lines[position.line], position.character))| < 3 then Outcome([], None)
    else
      var window := ContextWindow(position.line, |doc.lines|, 10, 5);
      if HasText(reply) then Outcome(ItemsOf(Suggestions(reply.response.value, MaxSuggestions(setting))), Some(window))
      else Outcome([], Some(window))
  }

  /**
   * The backend is asked exactly when the cursor's line, up to the cursor,
   * holds at least three characters besides surrounding whitespace; it is
   * asked about at most 16 lines that hold the cursor and stay inside the
   * document; every successful non-empty answer gives at least one item;
   * and there are never more items than the limit (or one, for the generic
   * suggestion).
   */
  lemma CompleteGates(doc: Document, position: Position, setting: Option<int>, reply: Reply)
    ensures Complete(doc, position, setting, reply).sent.Some? <==>
      position.line < |doc.lines| && |Trim(Prefix(doc.lines[position.line], position.character))| >= 3
    ensures Complete(doc, position, setting, reply).sent.Some? ==>
      0 <= Complete(doc, position, setting, reply).sent.value.startLine <= position.line
      <= Complete(doc, position, setting, reply).sent.value.endLine < |doc.lines|
      && Complete(doc, position, setting, reply).sent.value.endLine - Complete(doc, position, setting, reply).sent.value.startLine <= 15
    ensures Complete(doc, position, setting, reply).items != [] ==> Complete(doc, position, setting, reply).sent.Some? && HasText(reply)
    ensures Complete(doc, position, setting, reply).sent.Some? && HasText(reply) ==> Complete(doc, position, setting, reply).items != []
    ensures |Complete(doc, position, setting, reply).items| <= (if MaxSuggestions(setting) < 1 then 1 else MaxSuggestions(setting))
  {
    if position.line < |doc.lines| && |Trim(Prefix(doc.lines[position.line], position.character))| >= 3 && HasText(reply) {
      SuggestionsCases(reply.response.value, MaxSuggestions(setting), 0);
    }
  }

  class CompletionProvider {
    /** When the last admitted request started; 0 before any. */
    var lastRequest: int

    constructor()
      ensures lastRequest == 0
    {
      lastRequest := 0;
    }

    /**
     * A request less than `MinDelay` after the last admitted one returns no
     * items and leaves the clock alone. Any other request is admitted and
     * recorded, even when the prefix gate then returns no items.
     */
    method ProvideCompletionItems(doc: Document, position: Position, now: int, setting: Option<int>, reply: Reply)
      returns (items: seq<CompletionItem>, sent: Option<Window>)
      modifies this
      ensures now - old(lastRequest) < MinDelay ==> items == [] && sent == None && lastRequest == old(lastRequest)
      ensures now - old(lastRequest) >= MinDelay ==> lastRequest == now && Outcome(items, sent) == Complete(doc, position, setting, reply)
    {
      if now - lastRequest < MinDelay {
        return [], None;
      }
      lastRequest := now;
      var maxSuggestions := MaxSuggestions(setting);
      if position.line >= |doc.lines| {
        return [], None;
      }
      var linePrefix := Prefix(doc.lines[position.line], position.character);
      if |Trim(linePrefix)| < 3 {
        return [], None;
      }
      var window := ContextWindow(position.line, |doc.lines|, 10, 5);
      sent := Some(window);
      if HasText(reply) {
        var suggestions := ParseSuggestions(reply.response.value, maxSuggestions);
        items := ItemsOf(suggestions);
      } else {
        items := [];
      }
    }
  }
}
