/**
 * `message_handler` and `is_admin`: which incoming posts get a comment, and
 * after how long. The chat, the sender, the admin lookup, the random draw
 * against COMMENT_CHANCE and the generator's oracles are parameters; the
 * sleep and the reply itself are left out.
 */
module Handler {
  import opened Wrappers
  import opened TargetGroups
  import opened Membership
  import opened Generator

  /** What the admin lookup of `is_admin` came back with. */
  datatype AdminLookup = Admins(ids: seq<int>) | LookupFailed

  /** `is_admin(chat, user_id)`: membership in the admin ids, and true when the lookup raised. */
  function IsAdmin(lookup: AdminLookup, userId: int): (r: bool)
    ensures lookup.LookupFailed? ==> r
    ensures lookup.Admins? ==> (r <==> exists k :: 0 <= k < |lookup.ids| && lookup.ids[k] == userId)
  {
    match lookup
    case LookupFailed => true
    case Admins(ids) => userId in ids
  }

  /** Where the handler stops: at the first check that fails, or at the reply. */
  datatype Verdict = NotTarget | OwnMessage | NotAdmin | ChanceSkip | EmptyContent | Reply

  /**
   * The checks of `message_handler`, in order, each returning early:
   * the chat's id is a stored positive id, the sender is not the bot itself,
   * the sender is an admin, the random draw is below COMMENT_CHANCE
   * (`drawBelowChance`), and the post has text.
   */
  function Gate(positives: seq<int>, chatId: int, senderId: int, botUserId: int,
                admin: AdminLookup, drawBelowChance: bool, content: string): (v: Verdict)
    ensures v == Reply <==>
      && chatId in positives && senderId != botUserId && IsAdmin(admin, senderId)
      && drawBelowChance && content != []
  {
    if chatId !in positives then NotTarget
    else if senderId == botUserId then OwnMessage
    else if !IsAdmin(admin, senderId) then NotAdmin
    else if !drawBelowChance then ChanceSkip
    else if content == [] then EmptyContent
    else Reply
  }

  /**
   * Each verdict names the first check that failed: all the checks before it
   * passed, and its own did not.
   */
  lemma GateStopsAtFirstFailure(positives: seq<int>, chatId: int, senderId: int, botUserId: int,
                                admin: AdminLookup, drawBelowChance: bool, content: string)
    ensures var v := Gate(positives, chatId, senderId, botUserId, admin, drawBelowChance, content);
      && (v == NotTarget <==> chatId !in positives)
      && (v == OwnMessage <==> chatId in positives && senderId == botUserId)
      && (v == NotAdmin <==> chatId in positives && senderId != botUserId && !IsAdmin(admin, senderId))
      && (v == ChanceSkip <==>
            chatId in positives && senderId != botUserId && IsAdmin(admin, senderId) && !drawBelowChance)
      && (v == EmptyContent <==>
            chatId in positives && senderId != botUserId && IsAdmin(admin, senderId) && drawBelowChance
            && content == [])
  {
  }

  /**
   * The admin check fails open: when the lookup raises, every sender other
   * than the bot passes it.
   */
  lemma AdminCheckFailsOpen(positives: seq<int>, chatId: int, senderId: int, botUserId: int,
                            drawBelowChance: bool, content: string)
    requires chatId in positives && senderId != botUserId
    ensures Gate(positives, chatId, senderId, botUserId, LookupFailed, drawBelowChance, content) != NotAdmin
  {
  }

  /** `random.randint(minDelay, maxDelay)`: a delay in the closed range, or None where it raises. */
  method ChooseDelay(minDelay: int, maxDelay: int) returns (delay: Option<int>)
    ensures delay.None? <==> minDelay > maxDelay
    ensures delay.Some? ==> minDelay <= delay.value <= maxDelay
  {
    if minDelay > maxDelay {
      return None;
    }
    var d :| minDelay <= d <= maxDelay;
    return Some(d);
  }

  /** A comment to send after a delay, in seconds. */
  datatype Scheduled = Scheduled(comment: string, delay: int)

  /**
   * The handler's gate only looks at the positive ids: a chat it lets through
   * is also accepted by `is_target_group_id`.
   */
  lemma GateWithinMembership(t: Targets, chatId: int, senderId: int, botUserId: int,
                             admin: AdminLookup, drawBelowChance: bool, content: string)
    requires Gate(t.positives, chatId, senderId, botUserId, admin, drawBelowChance, content) != NotTarget
    ensures IsTargetGroupId(t.groups, t.positives, Num(chatId)) == Some(true)
  {
  }

  lemma {:induction false} NoNumericNoPositives(toks: seq<string>)
    requires AllRegistrable(toks)
    requires forall k :: 0 <= k < |toks| ==> !IsNumeric(toks[k])
    ensures PositivesOf(toks) == []
  {
    if toks != [] {
      var front := toks[..|toks| - 1];
      assert forall k :: 0 <= k < |front| ==> front[k] == toks[k];
      NoNumericNoPositives(front);
    }
  }

  /** Targets that are all usernames: stored verbatim, and no positive id. */
  lemma UsernameTokensStored(t: Targets, toks: seq<string>)
    requires AllRegistrable(toks) && Describes(NO_TARGETS, toks, t)
    requires forall k :: 0 <= k < |toks| ==> !IsNumeric(toks[k])
    ensures t.positives == []
    ensures forall k :: 0 <= k < |toks| ==> Name(toks[k]) in t.groups
  {
    NoNumericNoPositives(toks);
    assert t.positives == [] + PositivesOf(toks);
    var es := EntriesOf(toks);
    assert t.groups == [] + es;
    forall k | 0 <= k < |toks| ensures Name(toks[k]) in t.groups {
      assert !IsNumeric(toks[k]);
      assert es[k] == EntryOf(toks[k]) == Name(toks[k]);
      assert t.groups[k] == es[k];
    }
  }

  /**
   * Targets given by username are stored, and `is_target_group_id` accepts
   * them, but the handler never comments there: with no numeric token in the
   * setting, no positive id is stored and every chat is NotTarget.
   */
  lemma UsernameTargetsNeverServed(raw: string, chatId: int, senderId: int, botUserId: int,
                                   admin: AdminLookup, drawBelowChance: bool, content: string)
    requires Register(NO_TARGETS, raw).Done?
    requires forall k :: 0 <= k < |RawTokens(raw)| ==> !IsNumeric(RawTokens(raw)[k])
    ensures var t := Register(NO_TARGETS, raw).targets;
      && Gate(t.positives, chatId, senderId, botUserId, admin, drawBelowChance, content) == NotTarget
      && forall k :: 0 <= k < |RawTokens(raw)| ==>
           IsTargetGroupId(t.groups, t.positives, Name(RawTokens(raw)[k])) == Some(true)
  {
    var toks := RawTokens(raw);
    var t := Register(NO_TARGETS, raw).targets;
    SetupEffect(NO_TARGETS, raw);
    UsernameTokensStored(t, toks);
    StoredValuesAccepted(t.groups, t.positives);
  }

  /**
   * One incoming post, from the gate to the scheduled reply. The generator is
   * called only when the gate says Reply; the delay is drawn after the comment
   * is generated, so an empty delay range (where `randint` raises and the
   * handler's own `except` swallows the error) still leaves the generator's
   * latch where the call put it, and schedules nothing.
   */
  method HandleMessage(gen: CommentGenerator, positives: seq<int>, chatId: int, senderId: int, botUserId: int,
                       admin: AdminLookup, drawBelowChance: bool, content: string,
                       loads: set<string>, respond: string -> Option<string>, pick: nat,
                       minDelay: int, maxDelay: int)
    returns (verdict: Verdict, scheduled: Option<Scheduled>)
    modifies gen
    ensures verdict == Gate(positives, chatId, senderId, botUserId, admin, drawBelowChance, content)
    ensures verdict != Reply ==> scheduled.None? && gen.enabled == old(gen.enabled)
    ensures verdict == Reply ==>
      var a := GenerateSpec(old(gen.enabled), gen.hasApiKey, gen.maxLength, content, loads, respond);
      && gen.enabled == a.enabledAfter
      && (scheduled.Some? <==> minDelay <= maxDelay)
      && (scheduled.Some? ==>
            && minDelay <= scheduled.value.delay <= maxDelay
            && scheduled.value.comment == (match a.comment case Fallback => Choice(pick) case Generated(t) => t))
  {
    verdict := Gate(positives, chatId, senderId, botUserId, admin, drawBelowChance, content);
    scheduled := None;
    if verdict != Reply {
      return;
    }
    var comment, _ := gen.Generate(content, loads, respond, pick);
    var delay := ChooseDelay(minDelay, maxDelay);
    if delay.Some? {
      scheduled := Some(Scheduled(comment, delay.value));
    }
  }
}
