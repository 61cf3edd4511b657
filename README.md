# Telegram auto-commenter: target ids, membership, comment generator and reply gate

This project models the decision logic of `bot.py`, a Telegram user bot that
leaves a short comment under new posts by admins of configured groups and
channels. Five pieces of the bot are modelled and proved:

- **Channel ids** (`ids.dfy`, module `ChannelIds`). `convert_id_format` moves
  between a channel's positive id `D` and its marked form `-100D`. The module
  also gives the arithmetic of that encoding:
  `int("-100" + d) == -(100 * 10^len(d) + value(d))`.
- **Target setup** (`targets.dfy`, module `TargetGroups`). `setup_target_groups`
  turns the comma-separated TARGET_GROUPS setting into three structures:
  TARGET_GROUPS, TARGET_POSITIVE_IDS and TARGET_ID_MAP.
  - The setup is a class, `TargetRegistry`, whose loop appends to its fields.
    The loop is proved against a fold, `Register`.
  - `Register` is proved against an independent description, `Describes`:
    one entry per token, one positive id per numeric token, and a map that
    pairs them.
- **Target membership** (`membership.dfy`, module `Membership`).
  `is_target_group_id` runs four tests in order. Its third test searches the
  printed list `str(TARGET_GROUPS)` as a substring, and it is modelled
  literally on the printed list. Lemmas reduce that test to a per-entry
  condition.
- **Comment generator** (`generator.dfy`, module `Generator`).
  `generate_comment_from_content` is a class with the GEMINI_ENABLED latch as
  a field. Its model-name loop is proved against a specification function,
  `GenerateSpec`. Lemmas cover the latch, the fallback cases, the candidate
  chain and the length of a truncated comment.
- **Reply gate** (`handler.dfy`, module `Handler`). `message_handler` becomes:
  - a decision function, `Gate`, that returns the first check that failed;
  - `is_admin`'s result, which fails open when the lookup raises;
  - the delay drawn with `randint`;
  - a method, `HandleMessage`, that chains them with the generator.

Supporting modules:
- `text.dfy` holds `Wrappers` (Option) and `Text`: Python's `strip`, `split`,
  `startswith` and substring test.
- `decimal.dfy` (module `Decimal`) holds decimal digit strings: their value,
  `str(n)` and `int(s)`.

Where the code raises, the model has an explicit error outcome instead of a
precondition:
- `int()` raising ValueError during setup stops it with a `Raised` result.
  The structures are left as the code leaves them at that point.
- The same error inside `is_target_group_id` gives `None`.
- `randint` with an empty range gives no scheduled reply.

Foreign calls and randomness are parameters:
- the admin lookup's outcome;
- the draw `random.random() < COMMENT_CHANCE`, as a boolean;
- which model names the Gemini SDK accepts (`loads`);
- what the model answers (`respond`);
- the index `random.choice` picks (`pick`).

### Where the code does not do what its comments say

- **The `-1002` correction.** The comments at bot.py:165 and bot.py:203-205
  say that an id in the `-1002…` form is corrected to the `-100…` form: by
  `convert_id_format`, and by the setup. The code cannot do it. Both `-1002`
  tests come after a `-100` test that every such string already passes
  (bot.py:161 before bot.py:166, and bot.py:190 before bot.py:204). The model
  follows the code:
  - `ChannelIds.Prefix1002TakesMarkBranch` proves that such a string loses
    only the four-character mark.
  - `TargetGroups.Token1002StoredAsMarked` proves that the token is stored
    as the integer it spells, with the digits after `-100` as its positive id.
  Such an id is also the ordinary marked id of a channel whose positive id
  begins with 2, and it is that id the code stores.
- **Short tokens.** The comment at bot.py:217 calls a token "-r" a normal
  negative id and adds the `-100` mark: "-12" is stored as -10012 with
  positive id 12. The text of the token itself is then no target:
  `is_target_group_id` rejects the chat "-12"
  (`Membership.ShortTokenTextRejected`).

### Digit-only target tokens

The setup gives no numeric treatment to a token of bare digits, such as
`12345`. Only tokens starting with `-` reach the numeric branches
(bot.py:190 and bot.py:202). A bare-digit token takes the final branch
(bot.py:227-231): it is stored verbatim as a string, mapped to `"str"`, and
never added to the positive ids (`TargetGroups.NameTokenStoredVerbatim`).

## Model

| member | source | states |
|---|---|---|
| ChannelIds.ConvertDigits | bot.py:154-158 | a digit string gains the `-100` mark, and the result parses to the integer `-(100·10^len(d) + value(d))` |
| ChannelIds.ConvertMarked | bot.py:161-163 | a string starting with `-100` loses exactly those four characters |
| ChannelIds.ConvertRoundTrip | bot.py:151-171 | converting twice gives back a digit string, and gives back a marked digit string |
| ChannelIds.ConvertOther | bot.py:151-171 | a string that is neither digits nor marked (e.g. "-5", "name") is returned unchanged |
| ChannelIds.Prefix1002TakesMarkBranch | bot.py:161-168 | a `-1002…` string takes the `-100` branch: "-1002"+x becomes "2"+x, and the `-1002` rewrite is never reached |
| ChannelIds.ConvertIntegerIds | bot.py:151-171 | on integers, a positive id converts to the text of its marked integer, and that text converts back to the positive id's text |
| ChannelIds.NegativeFormParses | bot.py:192 | `int("-100"+r)` is `-(100·10^len(r) + value(r))` for every digit run r, including the empty one (-100) |
| ChannelIds.NegativeFormRendering | bot.py:192 | `str(int("-100"+r)) == "-100"+r`: the marked integer prints back to its text |
| ChannelIds.NegativeFormInjective | bot.py:190-199 | different digit runs give different marked integers |
| Decimal.IntToStringRoundTrip | bot.py:254 | `int(str(n)) == n` for every integer n |
| Text.Strip | bot.py:185 | `strip()` removes exactly the leading and the trailing whitespace: the result is a substring with only whitespace before and after it in the input; it is empty exactly when the input is all whitespace, and otherwise starts and ends with a non-space |
| Text.Split | bot.py:182 | `split(',')` gives at least one piece, and no piece contains a comma |
| Text.JoinSplit | bot.py:182 | joining the pieces of `split(sep)` with sep gives the original string back |
| TargetGroups.TargetRegistry.Setup | bot.py:173-231 | the loop over the pieces leaves the three structures exactly as the fold `Register` says, and reports whether `int()` raised |
| TargetGroups.TargetRegistry.StoreToken | bot.py:190-231 | one token's branch chain updates the structures as `AddToken` says |
| TargetGroups.TargetRegistry.StoreNumeric | bot.py:192-199 | the two `int()` calls, the two appends and the map store, stopping at the first `int()` that raises |
| TargetGroups.SetupEffect | bot.py:173-231 | the setup completes exactly when every stripped, non-empty token is registrable, and then the groups gain one entry per token and the positive ids one value per numeric token, in order, and the map pairs each entry with its value and keeps every other key |
| TargetGroups.AddPiecesEffect | bot.py:182-231 | the loop over pieces completes exactly when every stripped, non-empty token is registrable, and then meets the description above, starting from any structures |
| TargetGroups.RaisedStays | bot.py:192-196 | once an `int()` raises, the pieces after it are never looked at: the whole loop ends as it stood at the raise |
| TargetGroups.AddTokenEffect | bot.py:190-231 | one token completes exactly when its digits parse; it then adds its entry, its positive id if numeric, and its map pair; when it raises, it leaves only the -100 that a bare "-100" or "-" appends |
| TargetGroups.CountsOf | bot.py:184-231 | TARGET_GROUPS gains exactly as many entries as there are tokens, and TARGET_POSITIVE_IDS as many as there are `-` tokens |
| TargetGroups.EmptySettingRegistersNothing | bot.py:177-179 | an empty setting leaves all three structures empty |
| TargetGroups.BlankPieceSkipped | bot.py:185-187 | a whitespace-only piece changes nothing |
| TargetGroups.NameTokenStoredVerbatim | bot.py:227-231 | a token not starting with `-` is appended verbatim, never to the positive ids, and mapped to "str" |
| TargetGroups.MarkedTokenStored | bot.py:190-199 | a token "-100r" stores `int("-100r")` and `int(r)` and maps the first to the second |
| TargetGroups.ShortTokenLikeMarked | bot.py:202-226 | a token "-r" whose digits do not start with "100" registers the same as "-100r" |
| TargetGroups.Token1002StoredAsMarked | bot.py:190-215 | a `-1002…` token takes the `-100` branch and is stored uncorrected |
| TargetGroups.BareMarkRaises | bot.py:190-196 | a bare "-100" appends -100 to TARGET_GROUPS, and then `int("")` raises |
| Membership.ListStrContains | bot.py:260 | `"-100"+s` is a substring of `str(TARGET_GROUPS)` exactly when it is a substring of one entry's printed form |
| Membership.StoredValuesAccepted | bot.py:244-251 | every stored positive id and every stored target is accepted |
| Membership.MarkedSuffixAccepted | bot.py:265-269 | a marked id whose suffix parses to a stored positive id is accepted |
| Membership.DigitIdAccepted | bot.py:244-262 | a digit id is accepted exactly when it is stored, or its marked form occurs inside some target's printed form |
| Membership.OtherIdsRejected | bot.py:244-273 | an id that is not stored, not digits and not marked is rejected |
| Membership.ShortTokenTextRejected | bot.py:253-273 | a short token "-r" (r not starting with "100"), stored as int("-100r") with positive id int(r), is not accepted by its own text "-r" |
| Membership.MarkedIdAccepted | bot.py:264-273 | a marked id whose suffix parses is accepted exactly when it is stored or its suffix is a stored positive id, and otherwise gets false |
| Membership.UnstoredMarkedIdRejected | bot.py:264-273 | a marked chat id "-100r" is rejected when neither it nor `int(r)` is stored (e.g. -1005 with nothing stored) |
| Membership.RaisesExactly | bot.py:265-266 | the check raises exactly for an unmatched marked id whose suffix is not an integer |
| Membership.BareMarkChatRaises | bot.py:265-266 | the chat id -100 makes the check raise, unless -100 is itself stored |
| Membership.RegisteredEncodingsAccepted | bot.py:190-273 | a registered token is accepted as its stored entry; a numeric one also as its positive id, its digits and its marked text |
| Membership.SetupTargetsAccepted | bot.py:173-273 | after a completed setup, every token of the setting is accepted as its stored entry, and a numeric token also as its positive id, its digit string and its "-100" text (not as its own "-r" text, see ShortTokenTextRejected) |
| Membership.PrefixOfTargetAccepted | bot.py:257-262 | as written, a positive id whose digits are a proper prefix of a stored target's digits is accepted |
| Membership.TargetTwelveRegistered | bot.py:202-226 | the setting "-12" stores the target -10012 with positive id 12 |
| Membership.ChatOneMatchesTargetTwelve | bot.py:257-262 | with only -10012 stored, the chat 1 is accepted |
| Membership.ExactPositiveIds | bot.py:257-262 | with step 4 as intended, a positive id is accepted exactly when it is stored, or some target prints exactly as its marked form |
| Membership.ExactRejectsPrefix | bot.py:257-262 | with step 4 as intended, a proper prefix of the only target's digits is rejected; as written, it is accepted |
| Membership.ExactAcceptsNumericEncodings | bot.py:244-269 | with step 4 as intended, a stored numeric target is still accepted as its positive id, its digits and its marked text |
| Generator.Choice | bot.py:35-41 | `random.choice(FALLBACK_COMMENTS)` is one of the five static comments |
| Generator.FirstLoaded | bot.py:99-115 | the index of the first model name that loads, or `len(names)` when none does: every earlier name failed |
| Generator.DisabledFallsBack | bot.py:81-83 | with the latch off, a call builds no model, falls back and leaves the latch off |
| Generator.LatchAfterCall | bot.py:79-149 | after a call Gemini stays enabled exactly when it was enabled, a key is set, and the content was short or a comment was generated; a call never re-enables it |
| Generator.MissingKeyDisables | bot.py:86-87 | without an API key the call falls back and the latch goes off |
| Generator.ShortContentKeepsLatch | bot.py:90-91 | with a key, content under ten characters falls back and leaves the latch as it was |
| Generator.GeneratedExactly | bot.py:85-139 | a comment is generated exactly when the call gets past the pre-checks, some model name loads, and the first that loads answers |
| Generator.GeneratedByLastTried | bot.py:95-139 | the names tried are a prefix of the list in order; all but the last failed to load; the comment is the last one's answer, shaped |
| Generator.NoModelDisables | bot.py:117-120 | when no name loads, all five are tried, the latch goes off and the call falls back |
| Generator.Run | bot.py:79-149 | successive calls share the latch: the first call starts from the given latch, and each later call starts from the latch the previous one left |
| Generator.RunWhileDisabled | bot.py:81-83 | starting with the latch off, every call of a run falls back without building a model |
| Generator.DisabledForGood | bot.py:119 | after the first call that disables Gemini, every later call falls back without building a model |
| Generator.NoKeyNoModel | bot.py:86-87 | without an API key no call of a run ever builds a model |
| Generator.ShapeWithinLimit | bot.py:133-137 | a stripped answer within the limit is kept; a longer one becomes its first MAX characters plus "...", exactly MAX+3 characters |
| Generator.ShapeNegativeLimit | bot.py:136-137 | a negative limit follows Python's slice bounds: the last abs(MAX) characters are dropped before "..." |
| Generator.ShapeKeepsPrefix | bot.py:133-137 | the comment is the stripped answer, or a prefix of it followed by "..." |
| Generator.CommentGenerator.Generate | bot.py:79-149 | the loop with `break` tries exactly the names `GenerateSpec` says; the latch and the comment are as `GenerateSpec` says; a fallback is `random.choice` of the static list |
| Handler.IsAdmin | bot.py:305-331 | the sender is an admin exactly when it is in the admin ids; a lookup that raises counts as admin |
| Handler.Gate | bot.py:355-388 | a reply is attempted exactly when the chat is a stored positive id, the sender is not the bot, the sender is an admin, the draw is below the chance, and the post has text |
| Handler.GateStopsAtFirstFailure | bot.py:355-388 | each verdict means that all earlier checks passed and its own failed |
| Handler.AdminCheckFailsOpen | bot.py:328-331 | when the admin lookup raises, no sender other than the bot is turned away as a non-admin |
| Handler.GateWithinMembership | bot.py:355-364 | a chat the handler lets through is also accepted by `is_target_group_id` |
| Handler.UsernameTargetsNeverServed | bot.py:355-364 | with only username targets configured, `is_target_group_id` accepts them, but the handler turns every chat away |
| Handler.ChooseDelay | bot.py:396 | `randint(MIN_DELAY, MAX_DELAY)` lies in the closed range, and raises exactly when the range is empty |
| Handler.HandleMessage | bot.py:355-410 | the verdict is the gate's; only a Reply calls the generator; a Reply is scheduled exactly when the delay range is non-empty, with the generator's comment and a delay in range |

## Left out

- The Telethon client, session and login (bot.py:60, 413-458) are network and terminal I/O.
- `get_group_info` (bot.py:275-303) only lists dialogs and logs them, over a remote call.
- The remote lookups of `is_admin` (bot.py:309-324) are left out, including the `creator` and `creator_id` lookups. Only the result is modelled: membership in the admin ids, or true when the lookup raises.
- The Gemini SDK is left out: `genai.configure`, `list_available_models`, the construction of `GenerativeModel` and `generate_content` (bot.py:25-32, 62-72, 108, 130). They become the parameters `loads` and `respond`.
- The prompt text (bot.py:123-127) is opaque: `respond` is given per model name for the call's content.
- The kill switch at bot.py:435-442 cannot happen, because `list_available_models` swallows its own errors.
- Environment variables, dotenv and logging (bot.py:10-22, 44-57) are left out. Settings are parameters, and BOT_USER_ID is taken as an integer.
- `asyncio.sleep`, `event.reply`, its error handling, and the interleaving of concurrent handlers (bot.py:400-407) are left out.
- Randomness and floats are left out: COMMENT_CHANCE and `random.random()` (bot.py:384) become the boolean `drawBelowChance`. `random.choice` becomes the index `pick`, and `randint` becomes a nondeterministic choice in its range.
- Handler.HandleMessage: the outer `except` (bot.py:410) is modelled for `randint` on an empty range, as "nothing scheduled". The other exceptions it catches come from remote calls that are not modelled, or from a post without text (below).
- Handler.HandleMessage: a post without text is the empty string. For `message.message` being None, the code raises TypeError earlier, at the slice in the log line at bot.py:352, before the target check; bot.py:410 swallows it. The outcome is the same as the model's (no generator call, nothing scheduled), but the model reports the verdict of the gate (NotTarget, ..., EmptyContent) instead of a raise.
- Decimal.ParseInt: `int()` accepts an optional `+` or `-` sign and ASCII digits. Python also accepts surrounding whitespace, underscores and non-ASCII digits. Those inputs count as a ValueError here.
- Decimal.IsDigits: `str.isdigit` is taken as ASCII digits. Other Unicode digits are treated as non-digits.
- Membership.Repr: the quotes and escapes that `repr` picks for a name containing quotes or unprintable characters are not modelled. They never produce or break a run of `-` and digits, so step 4 is unaffected.
- Generator.CommentGenerator.Generate: `last_error` and the log messages are not modelled. The `generation_config` values (bot.py:101-106) are passed to the SDK, which is not modelled.

## Findings

| source | as written | input that shows it | evidently intended | confidence | as-written member | corrected member |
|---|---|---|---|---|---|---|
| bot.py:257-262 | step 4 of `is_target_group_id` tests whether `"-100"+str(chat_id)` is a substring of `str(TARGET_GROUPS)` | TARGET_GROUPS set to "-12", which stores -10012, and chat id 1: "-1001" occurs in "[-10012]", so the chat is accepted | accept the digit id only when its marked integer `int("-100"+s)` is itself one of the stored targets | not executed | Membership.ChatOneMatchesTargetTwelve | Membership.IsTargetGroupIdExact |

`Membership.PrefixOfTargetAccepted` states the general case: any positive id
whose digits are a proper prefix of a stored target's digits is accepted.
`Membership.ExactRejectsPrefix` proves the corrected check rejects such an id.
`Membership.ExactPositiveIds` proves the corrected check's intended meaning on positive ids.
`Membership.ExactAcceptsNumericEncodings` proves it still accepts every encoding of a stored target.

The other membership lemmas describe the code as written. Neither version
decides whether the bot replies: the handler tests only TARGET_POSITIVE_IDS
(`Handler.GateWithinMembership`).
