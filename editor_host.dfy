/**
 * What the providers see of the editor and of the backend: a text document,
 * a cursor position, a range, and the outcome of one backend request.
 */
module EditorHost {
  import opened Options

  /** A text document: `uri` is `document.uri.toString()`, `lines` its text split into lines. */
  datatype Document = Document(
    uri: string,
    scheme: string,
    fsPath: string,
    languageId: string,
    isDirty: bool,
    lines: seq<string>)

  /** A zero-based cursor position. */
  datatype Position = Position(line: nat, character: nat)

  /** A range of the editor, start and end as (line, character). */
  datatype Range = Range(startLine: int, startCharacter: int, endLine: int, endCharacter: int)

  /**
   * What one awaited backend call produced: the `{success, response, error}`
   * object (a missing or `undefined` field is `None`), or an exception it threw.
   */
  datatype Reply =
    | Answered(success: bool, response: Option<string>, error: Option<string>)
    | Threw(reason: string)

  /** `result.success && result.response`: a successful reply whose text is a non-empty string. */
  predicate HasText(reply: Reply) {
    reply.Answered? && reply.success && reply.response.Some? && reply.response.value != ""
  }

  /** JavaScript's `value || fallback` for an optional string. */
  function OrElse(value: Option<string>, fallback: string): string {
    if value.Some? && value.value != "" then value.value else fallback
  }

  /** The lines `[startLine, endLine]` sent to the backend around the cursor. */
  datatype Window = Window(startLine: int, endLine: int)

  /**
   * `Math.max(0, line - before)` to `Math.min(lineCount - 1, line + after)`:
   * for a cursor inside the document the window holds the cursor line, stays
   * inside the document and is cut only by the document's ends.
   */
  function ContextWindow(line: nat, lineCount: nat, before: nat, after: nat): (w: Window)
    ensures line < lineCount ==> 0 <= w.startLine <= line <= w.endLine < lineCount
    ensures line - w.startLine <= before && w.endLine - line <= after
    ensures w.startLine == 0 || line - w.startLine == before
    ensures w.endLine == lineCount - 1 || w.endLine - line == after
  {
    Window(if line - before < 0 then 0 else line - before,
           if lineCount - 1 < line + after then lineCount - 1 else line + after)
  }
}
