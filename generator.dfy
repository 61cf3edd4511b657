/**
 * `generate_comment_from_content`: a short comment for a post, written by the
 * first Gemini model that loads, or one of the static fallback comments. A
 * process-wide latch, GEMINI_ENABLED, switches generation off for good after
 * the first failure.
 *
 * The Gemini SDK is not modelled: which model names the SDK accepts is the
 * parameter `loads`, and what a model answers for the prompt is the
 * parameter `respond` (None where the request or `response.text` raises).
 * `random.choice` is the parameter `pick`.
 */
module Generator {
  import opened Wrappers
  import opened Text

  const FALLBACK_COMMENTS: seq<string> := [
    "Çok güzel paylaşım 👍",
    "Emeğinize sağlık",
    "Süper içerik",
    "Güzel bilgiler",
    "Bayıldım buna"
  ]

  /** The models tried, in order. */
  const MODEL_NAMES: seq<string> := [
    "gemini-2.0-flash", "gemini-1.5-flash", "gemini-1.5-pro", "gemini-pro", "gemini-1.0-pro"
  ]

  /** Contents shorter than this get a fallback comment without asking a model. */
  const MIN_CONTENT_LENGTH := 10

  /** `random.choice(FALLBACK_COMMENTS)`, the random draw being `pick`. */
  function Choice(pick: nat): (c: string)
    ensures c in FALLBACK_COMMENTS
  {
    FALLBACK_COMMENTS[pick % |FALLBACK_COMMENTS|]
  }

  /** The index of the first name that loads; |names| when none does. */
  function FirstLoaded(names: seq<string>, loads: set<string>): (i: nat)
    ensures i <= |names|
    ensures i < |names| ==> names[i] in loads
    ensures forall j :: 0 <= j < i ==> names[j] !in loads
  {
    if names == [] then 0
    else if names[0] in loads then 0
    else 1 + FirstLoaded(names[1..], loads)
  }

  /**
   * `s[:n]` with Python's slice bounds: a non-negative `n` keeps the first `n`
   * characters, a negative `n` drops the last `-n`.
   */
  function PyPrefix(s: string, n: int): (r: string)
    ensures |r| <= |s| && r == s[..|r|]
    ensures n >= 0 ==> |r| == if n <= |s| then n else |s|
    ensures n < 0 ==> |r| == if |s| + n >= 0 then |s| + n else 0
  {
    var k := if n >= 0 then (if n <= |s| then n else |s|) else (if |s| + n >= 0 then |s| + n else 0);
    s[..k]
  }

  /**
   * What becomes of a model's text: stripped, and, when longer than
   * `maxLength`, cut to `comment[:maxLength]` with "..." appended.
   */
  function Shape(text: string, maxLength: int): string {
    var c := Strip(text);
    if |c| > maxLength then PyPrefix(c, maxLength) + "..." else c
  }

  /** A comment is the model's, or one of the fallback comments. */
  datatype Comment = Fallback | Generated(text: string)

  /**
   * One call: the latch afterwards, the model names tried (those built, up to
   * and including the first that loads) and the comment produced.
   */
  datatype Attempt = Attempt(enabledAfter: bool, tried: seq<string>, comment: Comment)

  /** The model names tried when the first to load is at index `i`. */
  function TriedUpTo(i: nat): seq<string>
    requires i <= |MODEL_NAMES|
  {
    if i < |MODEL_NAMES| then MODEL_NAMES[..i + 1] else MODEL_NAMES
  }

  /** `generate_comment_from_content(content)`, with GEMINI_ENABLED as `enabled`. */
  function GenerateSpec(enabled: bool, hasApiKey: bool, maxLength: int, content: string,
                        loads: set<string>, respond: string -> Option<string>): Attempt
  {
    if !enabled then Attempt(false, [], Fallback)
    // The ValueError for the missing key is caught by the handler below, which disables Gemini.
    else if !hasApiKey then Attempt(false, [], Fallback)
    else if |content| < MIN_CONTENT_LENGTH then Attempt(true, [], Fallback)
    else
      var i := FirstLoaded(MODEL_NAMES, loads);
      if i == |MODEL_NAMES| then Attempt(false, MODEL_NAMES, Fallback)
      else
        match respond(MODEL_NAMES[i])
        case None => Attempt(false, TriedUpTo(i), Fallback)
        case Some(text) => Attempt(true, TriedUpTo(i), Generated(Shape(text, maxLength)))
  }

  // ---------------------------------------------------------------------------
  // Properties of one call.

  /** Once disabled, a call asks no model and falls back. */
  lemma DisabledFallsBack(hasApiKey: bool, maxLength: int, content: string,
                          loads: set<string>, respond: string -> Option<string>)
    ensures GenerateSpec(false, hasApiKey, maxLength, content, loads, respond) == Attempt(false, [], Fallback)
  {
  }

  /**
   * The latch: a call leaves Gemini enabled exactly when it was enabled, a key
   * is configured, and the comment was either skipped for a short content or
   * generated. In particular it never re-enables Gemini.
   */
  lemma LatchAfterCall(enabled: bool, hasApiKey: bool, maxLength: int, content: string,
                       loads: set<string>, respond: string -> Option<string>)
    ensures var a := GenerateSpec(enabled, hasApiKey, maxLength, content, loads, respond);
      a.enabledAfter <==> enabled && hasApiKey && (|content| < MIN_CONTENT_LENGTH || a.comment.Generated?)
    ensures GenerateSpec(enabled, hasApiKey, maxLength, content, loads, respond).enabledAfter ==> enabled
  {
  }

  /** Without an API key the first call disables Gemini, whatever the content. */
  lemma MissingKeyDisables(maxLength: int, content: string, loads: set<string>, respond: string -> Option<string>)
    ensures GenerateSpec(true, false, maxLength, content, loads, respond) == Attempt(false, [], Fallback)
  {
  }

  /** A content under ten characters gets a fallback and leaves the latch alone. */
  lemma ShortContentKeepsLatch(enabled: bool, maxLength: int, content: string,
                               loads: set<string>, respond: string -> Option<string>)
    requires |content| < MIN_CONTENT_LENGTH
    ensures GenerateSpec(enabled, true, maxLength, content, loads, respond) == Attempt(enabled, [], Fallback)
  {
  }

  /**
   * A comment is generated exactly when the call gets to the models, some model
   * name loads, and the first that loads answers.
   */
  lemma GeneratedExactly(enabled: bool, hasApiKey: bool, maxLength: int, content: string,
                         loads: set<string>, respond: string -> Option<string>)
    ensures GenerateSpec(enabled, hasApiKey, maxLength, content, loads, respond).comment.Generated? <==>
      && enabled && hasApiKey && |content| >= MIN_CONTENT_LENGTH
      && (exists k :: 0 <= k < |MODEL_NAMES| && MODEL_NAMES[k] in loads)
      && respond(MODEL_NAMES[FirstLoaded(MODEL_NAMES, loads)]).Some?
  {
    var i := FirstLoaded(MODEL_NAMES, loads);
    if exists k :: 0 <= k < |MODEL_NAMES| && MODEL_NAMES[k] in loads {
      var k :| 0 <= k < |MODEL_NAMES| && MODEL_NAMES[k] in loads;
      assert i <= k;
    }
  }

  /**
   * A generated comment comes from the last model tried: the names tried are
   * the first ones of MODEL_NAMES in order, all but the last failed to load,
   * and the comment is the last one's answer, shaped.
   */
  lemma GeneratedByLastTried(enabled: bool, hasApiKey: bool, maxLength: int, content: string,
                             loads: set<string>, respond: string -> Option<string>)
    requires GenerateSpec(enabled, hasApiKey, maxLength, content, loads, respond).comment.Generated?
    ensures var a := GenerateSpec(enabled, hasApiKey, maxLength, content, loads, respond);
      && a.tried != [] && |a.tried| <= |MODEL_NAMES| && a.tried == MODEL_NAMES[..|a.tried|]
      && a.tried[|a.tried| - 1] in loads
      && (forall j :: 0 <= j < |a.tried| - 1 ==> a.tried[j] !in loads)
      && respond(a.tried[|a.tried| - 1]).Some?
      && a.comment.text == Shape(respond(a.tried[|a.tried| - 1]).value, maxLength)
  {
    PrefixUpToFirstLoaded(MODEL_NAMES, loads);
  }

  /** The names up to and including the first that loads: all but the last fail to load. */
  lemma PrefixUpToFirstLoaded(names: seq<string>, loads: set<string>)
    requires FirstLoaded(names, loads) < |names|
    ensures var i := FirstLoaded(names, loads); var tried := names[..i + 1];
      && tried != [] && |tried| <= |names| && tried == names[..|tried|]
      && tried[|tried| - 1] == names[i] && tried[|tried| - 1] in loads
      && (forall j :: 0 <= j < |tried| - 1 ==> tried[j] !in loads)
  {
  }

  /** When no model name loads, all five are tried and Gemini is disabled. */
  lemma NoModelDisables(maxLength: int, content: string, loads: set<string>, respond: string -> Option<string>)
    requires |content| >= MIN_CONTENT_LENGTH
    requires forall k :: 0 <= k < |MODEL_NAMES| ==> MODEL_NAMES[k] !in loads
    ensures GenerateSpec(true, true, maxLength, content, loads, respond) == Attempt(false, MODEL_NAMES, Fallback)
  {
    assert FirstLoaded(MODEL_NAMES, loads) == |MODEL_NAMES|;
  }

  // ---------------------------------------------------------------------------
  // Successive calls.

  /** What one call is given besides the latch and the settings. */
  datatype Call = Call(content: string, loads: set<string>, respond: string -> Option<string>)

  /** A run of calls, each starting from the latch the previous one left. */
  function Run(enabled: bool, hasApiKey: bool, maxLength: int, calls: seq<Call>): (r: seq<Attempt>)
    ensures |r| == |calls|
    ensures calls != [] ==>
      r[0] == GenerateSpec(enabled, hasApiKey, maxLength, calls[0].content, calls[0].loads, calls[0].respond)
    ensures forall j :: 0 <= j < |calls| - 1 ==>
      r[j + 1] == GenerateSpec(r[j].enabledAfter, hasApiKey, maxLength,
                               calls[j + 1].content, calls[j + 1].loads, calls[j + 1].respond)
  {
    assert forall j :: 0 < j < |calls| ==> calls[1..][j - 1] == calls[j];
    if calls == [] then []
    else
      var c := calls[0];
      var a := GenerateSpec(enabled, hasApiKey, maxLength, c.content, c.loads, c.respond);
      [a] + Run(a.enabledAfter, hasApiKey, maxLength, calls[1..])
  }

  /** Starting disabled, every call of a run falls back without building a model. */
  lemma {:induction false} RunWhileDisabled(hasApiKey: bool, maxLength: int, calls: seq<Call>)
    ensures forall j :: 0 <= j < |calls| ==> Run(false, hasApiKey, maxLength, calls)[j] == Attempt(false, [], Fallback)
  {
    if calls != [] {
      RunWhileDisabled(hasApiKey, maxLength, calls[1..]);
    }
  }

  /**
   * The latch holds across calls: after the first call that disables Gemini,
   * every later call falls back without building a model.
   */
  lemma {:induction false} DisabledForGood(enabled: bool, hasApiKey: bool, maxLength: int, calls: seq<Call>, i: int, j: int)
    requires 0 <= i < j < |calls|
    requires !Run(enabled, hasApiKey, maxLength, calls)[i].enabledAfter
    ensures Run(enabled, hasApiKey, maxLength, calls)[j] == Attempt(false, [], Fallback)
  {
    var c := calls[0];
    var a := GenerateSpec(enabled, hasApiKey, maxLength, c.content, c.loads, c.respond);
    var rest := Run(a.enabledAfter, hasApiKey, maxLength, calls[1..]);
    assert Run(enabled, hasApiKey, maxLength, calls) == [a] + rest;
    if i == 0 {
      RunWhileDisabled(hasApiKey, maxLength, calls[1..]);
    } else {
      DisabledForGood(a.enabledAfter, hasApiKey, maxLength, calls[1..], i - 1, j - 1);
    }
  }

  /** Without an API key no call of a run ever builds a model or generates a comment. */
  lemma NoKeyNoModel(enabled: bool, maxLength: int, calls: seq<Call>)
    ensures forall j :: 0 <= j < |calls| ==> Run(enabled, false, maxLength, calls)[j] == Attempt(false, [], Fallback)
  {
    if calls != [] {
      RunWhileDisabled(false, maxLength, calls[1..]);
    }
  }

  // ---------------------------------------------------------------------------
  // The shape of a generated comment.

  /**
   * With a non-negative limit, a comment within the limit is the stripped
   * text itself, and a longer one is its first `maxLength` characters and
   * "...": exactly `maxLength + 3` characters, three more than the limit.
   */
  lemma ShapeWithinLimit(text: string, maxLength: nat)
    ensures |Strip(text)| <= maxLength ==> Shape(text, maxLength) == Strip(text)
    ensures |Strip(text)| > maxLength ==>
      && |Shape(text, maxLength)| == maxLength + 3
      && Shape(text, maxLength) == Strip(text)[..maxLength] + "..."
    ensures |Shape(text, maxLength)| <= maxLength + 3
  {
  }

  /**
   * A negative limit (MAX_COMMENT_LENGTH is read from the environment) follows
   * Python's slice bounds: `comment[:-k]` drops the last k characters, so
   * every reply is cut, by |maxLength| characters, before "..." is appended.
   */
  lemma ShapeNegativeLimit(text: string, maxLength: int)
    requires maxLength < 0
    ensures var c := Strip(text);
      Shape(text, maxLength) == c[..if |c| + maxLength >= 0 then |c| + maxLength else 0] + "..."
  {
  }

  /** The result begins with the stripped text, or with a prefix of it. */
  lemma ShapeKeepsPrefix(text: string, maxLength: int)
    ensures var c := Strip(text); var r := Shape(text, maxLength);
      (r == c) || (|r| >= 3 && r[..|r| - 3] == c[..|r| - 3] && r[|r| - 3..] == "...")
  {
    var c := Strip(text);
    if |c| > maxLength {
      var p := PyPrefix(c, maxLength);
      assert (p + "...")[..|p|] == p;
    }
  }

  // ---------------------------------------------------------------------------
  // The stateful generator.

  /** GEMINI_ENABLED and the two settings read from the environment. */
  class CommentGenerator {
    var enabled: bool
    const hasApiKey: bool
    const maxLength: int

    constructor(hasApiKey: bool, maxLength: int)
      ensures enabled && this.hasApiKey == hasApiKey && this.maxLength == maxLength
    {
      enabled := true;
      this.hasApiKey := hasApiKey;
      this.maxLength := maxLength;
    }

    /**
     * One call of `generate_comment_from_content(content)`. Returns the comment
     * and the model names it tried to build.
     */
    method Generate(content: string, loads: set<string>, respond: string -> Option<string>, pick: nat)
      returns (comment: string, tried: seq<string>)
      modifies this
      ensures var a := GenerateSpec(old(enabled), hasApiKey, maxLength, content, loads, respond);
        && enabled == a.enabledAfter
        && tried == a.tried
        && comment == (match a.comment case Fallback => Choice(pick) case Generated(t) => t)
    {
      tried := [];
      if !enabled {
        return Choice(pick), tried;
      }
      if !hasApiKey {
        enabled := false;
        return Choice(pick), tried;
      }
      if |content| < MIN_CONTENT_LENGTH {
        return Choice(pick), tried;
      }
      ghost var first := FirstLoaded(MODEL_NAMES, loads);
      var i := 0;
      var loaded := false;
      while i < |MODEL_NAMES| && !loaded
        invariant 0 <= i <= |MODEL_NAMES|
        invariant tried == MODEL_NAMES[..i]
        invariant if loaded then i == first + 1 else i <= first
      {
        var name := MODEL_NAMES[i];
        tried := tried + [name];
        i := i + 1;
        if name in loads {
          loaded := true;
        }
      }
      if !loaded {
        assert tried == MODEL_NAMES;
        enabled := false;
        return Choice(pick), tried;
      }
      match respond(MODEL_NAMES[i - 1])
      case None =>
        enabled := false;
        comment := Choice(pick);
      case Some(text) =>
        comment := Strip(text);
        if |comment| > maxLength {
          comment := PyPrefix(comment, maxLength) + "...";
        }
    }
  }
}
