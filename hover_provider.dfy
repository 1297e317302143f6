/**
 * The hover provider: for a word of at least three characters it answers
 * from a five-minute cache keyed by file and word, or asks the backend about
 * the lines around the cursor and caches a successful answer.
 */
module Hovering {
  import opened Options
  import opened EditorHost

  /** The markdown shown on hover and the word's range it is attached to. */
  datatype Hover = Hover(contents: string, range: Range)

  /** A cached hover and the clock reading taken when it was stored. */
  datatype CacheEntry = CacheEntry(hover: Hover, timestamp: int)

  /** How long a cached hover is served, in milliseconds. */
  const CacheLifetime := 300000

  const InsightsHeading := "### \U{1F916} BECA Insights\n\n"

  /** The template string `${fsPath}:${word}`. */
  function CacheKey(fsPath: string, word: string): string {
    fsPath + ":" + word
  }

  /** An entry is served only while it is younger than the lifetime. */
  predicate Fresh(e: CacheEntry, now: int) {
    now - e.timestamp < CacheLifetime
  }

  /** What one hover request returns, the lines it sent to the backend, and the cache it leaves. */
  datatype HoverStep = HoverStep(hover: Option<Hover>, asked: Option<Window>, cache: map<string, CacheEntry>)

  /**
   * `provideHover`. `wordRange` is what `getWordRangeAtPosition` gave and
   * `word` the text of that range; `now` is the clock before the lookup,
   * `reply` the backend's answer and `later` the clock after it.
   */
  function HoverFor(cache: map<string, CacheEntry>, doc: Document, position: Position, wordRange: Option<Range>,
                    word: string, now: int, reply: Reply, later: int): HoverStep
  {
    if wordRange.None? || |word| < 3 then HoverStep(None, None, cache)
    else
      var key := CacheKey(doc.fsPath, word);
      if key in cache && Fresh(cache[key], now) then HoverStep(Some(cache[key].hover), None, cache)
      else
        var window := ContextWindow(position.line, |doc.lines|, 5, 5);
        if HasText(reply) then
          var hover := Hover(InsightsHeading + reply.response.value, wordRange.value);
          HoverStep(Some(hover), Some(window), cache[key := CacheEntry(hover, later)])
        else HoverStep(None, Some(window), cache)
  }

  /** No word at the cursor, or one shorter than three characters: nothing is shown, asked or cached. */
  lemma ShortWordIgnored(cache: map<string, CacheEntry>, doc: Document, position: Position, wordRange: Option<Range>,
                         word: string, now: int, reply: Reply, later: int)
    requires wordRange.None? || |word| < 3
    ensures HoverFor(cache, doc, position, wordRange, word, now, reply, later) == HoverStep(None, None, cache)
  {
  }

  /** A fresh entry is served as it is, without asking the backend and without touching the cache. */
  lemma FreshEntryServed(cache: map<string, CacheEntry>, doc: Document, position: Position, wordRange: Option<Range>,
                         word: string, now: int, reply: Reply, later: int)
    requires wordRange.Some? && |word| >= 3
    requires CacheKey(doc.fsPath, word) in cache && Fresh(cache[CacheKey(doc.fsPath, word)], now)
    ensures HoverFor(cache, doc, position, wordRange, word, now, reply, later)
      == HoverStep(Some(cache[CacheKey(doc.fsPath, word)].hover), None, cache)
  {
  }

  /**
   * Without a fresh entry the backend is asked about at most 11 lines around
   * the cursor, inside the document. A successful answer with text is shown
   * under the heading and stored under the key, stamped with the later clock
   * reading; any other outcome shows nothing and leaves the cache as it was,
   * a stale entry included.
   */
  lemma MissAsksBackend(cache: map<string, CacheEntry>, doc: Document, position: Position, wordRange: Option<Range>,
                        word: string, now: int, reply: Reply, later: int)
    requires wordRange.Some? && |word| >= 3
    requires !(CacheKey(doc.fsPath, word) in cache && Fresh(cache[CacheKey(doc.fsPath, word)], now))
    ensures HoverFor(cache, doc, position, wordRange, word, now, reply, later).asked.Some?
    ensures position.line < |doc.lines| ==>
      0 <= HoverFor(cache, doc, position, wordRange, word, now, reply, later).asked.value.startLine <= position.line
      <= HoverFor(cache, doc, position, wordRange, word, now, reply, later).asked.value.endLine < |doc.lines|
    ensures HoverFor(cache, doc, position, wordRange, word, now, reply, later).asked.value.endLine
      - HoverFor(cache, doc, position, wordRange, word, now, reply, later).asked.value.startLine <= 10
    ensures HoverFor(cache, doc, position, wordRange, word, now, reply, later).hover.Some? <==> HasText(reply)
    ensures HasText(reply) ==>
      HoverFor(cache, doc, position, wordRange, word, now, reply, later).hover
        == Some(Hover(InsightsHeading + reply.response.value, wordRange.value))
      && HoverFor(cache, doc, position, wordRange, word, now, reply, later).cache
        == cache[CacheKey(doc.fsPath, word) := CacheEntry(Hover(InsightsHeading + reply.response.value, wordRange.value), later)]
    ensures !HasText(reply) ==> HoverFor(cache, doc, position, wordRange, word, now, reply, later).cache == cache
  {
  }

  /** A request changes at most the entry under its own key. */
  lemma OtherEntriesUntouched(cache: map<string, CacheEntry>, doc: Document, position: Position, wordRange: Option<Range>,
                              word: string, now: int, reply: Reply, later: int, k: string)
    requires k != CacheKey(doc.fsPath, word)
    ensures k in HoverFor(cache, doc, position, wordRange, word, now, reply, later).cache <==> k in cache
    ensures k in cache ==> HoverFor(cache, doc, position, wordRange, word, now, reply, later).cache[k] == cache[k]
  {
  }

  /** A shown hover is either a fresh cached one or the one just stored; so every hover shown is in the cache afterwards. */
  lemma ShownHoverIsCached(cache: map<string, CacheEntry>, doc: Document, position: Position, wordRange: Option<Range>,
                           word: string, now: int, reply: Reply, later: int)
    requires HoverFor(cache, doc, position, wordRange, word, now, reply, later).hover.Some?
    ensures CacheKey(doc.fsPath, word) in HoverFor(cache, doc, position, wordRange, word, now, reply, later).cache
    ensures HoverFor(cache, doc, position, wordRange, word, now, reply, later).cache[CacheKey(doc.fsPath, word)].hover
      == HoverFor(cache, doc, position, wordRange, word, now, reply, later).hover.value
  {
  }

  /**
   * Once a backend answer has been stored at clock reading `later`, a
   * request for the same word of the same file is answered with that hover,
   * without the backend, until the lifetime has passed, and is not answered
   * from the cache once it has.
   */
  lemma StoredHoverLifetime(cache: map<string, CacheEntry>, doc: Document, position: Position, wordRange: Option<Range>,
                            word: string, now: int, reply: Reply, later: int,
                            doc2: Document, position2: Position, wordRange2: Option<Range>, now2: int, reply2: Reply, later2: int)
    requires HoverFor(cache, doc, position, wordRange, word, now, reply, later).asked.Some?
    requires HasText(reply) && doc2.fsPath == doc.fsPath && wordRange2.Some?
    ensures now2 - later < CacheLifetime ==>
      HoverFor(HoverFor(cache, doc, position, wordRange, word, now, reply, later).cache, doc2, position2, wordRange2, word, now2, reply2, later2)
        == HoverStep(HoverFor(cache, doc, position, wordRange, word, now, reply, later).hover, None,
                     HoverFor(cache, doc, position, wordRange, word, now, reply, later).cache)
    ensures now2 - later >= CacheLifetime ==>
      HoverFor(HoverFor(cache, doc, position, wordRange, word, now, reply, later).cache, doc2, position2, wordRange2, word, now2, reply2, later2).asked.Some?
  {
  }

  /**
   * Words never hold the separator ':' (the editor's word pattern excludes
   * it), so the key names one file and one word: the separator is the last
   * ':' of the key.
   */
  lemma CacheKeyInjective(path1: string, word1: string, path2: string, word2: string)
    requires ':' !in word1 && ':' !in word2
    requires CacheKey(path1, word1) == CacheKey(path2, word2)
    ensures path1 == path2 && word1 == word2
  {
    var key := CacheKey(path1, word1);
    var i, j := |path1|, |path2|;
    assert key[i] == ':' && key[j] == ':';
    assert forall t :: i < t < |key| ==> key[t] == word1[t - i - 1];
    assert forall t :: j < t < |key| ==> key[t] == word2[t - j - 1];
    assert i == j;
    assert word1 == key[i + 1..] == word2;
    assert path1 == key[..i] == path2;
  }

  class HoverProvider {
    var cache: map<string, CacheEntry>

    constructor()
      ensures cache == map[]
    {
      cache := map[];
    }

    /** `provideHover`: the result and the new cache are those `HoverFor` gives. */
    method ProvideHover(doc: Document, position: Position, wordRange: Option<Range>, word: string,
                        now: int, reply: Reply, later: int)
      returns (hover: Option<Hover>, asked: Option<Window>)
      modifies this
      ensures HoverStep(hover, asked, cache) == HoverFor(old(cache), doc, position, wordRange, word, now, reply, later)
    {
      if wordRange.None? {
        return None, None;
      }
      if |word| < 3 {
        return None, None;
      }
      var key := CacheKey(doc.fsPath, word);
      if key in cache {
        var cached := cache[key];
        if now - cached.timestamp < CacheLifetime {
          return Some(cached.hover), None;
        }
      }
      var window := ContextWindow(position.line, |doc.lines|, 5, 5);
      asked := Some(window);
      hover := None;
      if HasText(reply) {
        var h := Hover(InsightsHeading + reply.response.value, wordRange.value);
        cache := cache[key := CacheEntry(h, later)];
        hover := Some(h);
      }
    }

    /** `clearCache` empties the cache. */
    method ClearCache()
      modifies this
      ensures cache == map[]
    {
      cache := map[];
    }
  }
}
