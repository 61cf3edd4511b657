/**
 * `is_target_group_id`: whether a chat id, given in any of its encodings,
 * names one of the configured targets. The check reads the structures that
 * the target setup filled and changes nothing.
 */
module Membership {
  import opened Wrappers
  import opened Text
  import opened Decimal
  import opened ChannelIds
  import opened TargetGroups

  /** `str(chat_id)` */
  function Str(e: Entry): string {
    match e
    case Num(n) => IntToString(n)
    case Name(s) => s
  }

  /**
   * How an element is written inside `str(list)`: an int by its digits, a str
   * by `repr`, which puts it in quotes. (Escapes that `repr` uses for quotes,
   * backslashes and unprintable characters are not modelled; they never
   * produce or break a run of `-` and digits.)
   */
  function Repr(e: Entry): string {
    match e
    case Num(n) => IntToString(n)
    case Name(s) => "'" + s + "'"
  }

  /** `", ".join(repr(x) for x in groups)` */
  function JoinReprs(groups: seq<Entry>): string {
    if groups == [] then []
    else if |groups| == 1 then Repr(groups[0])
    else Repr(groups[0]) + ", " + JoinReprs(groups[1..])
  }

  /** `str(TARGET_GROUPS)` */
  function ListStr(groups: seq<Entry>): string {
    "[" + JoinReprs(groups) + "]"
  }

  /**
   * `is_target_group_id(chat_id)` over TARGET_GROUPS and TARGET_POSITIVE_IDS:
   * Some(answer), or None where `int()` raises ValueError on the text after a
   * `-100` mark (for the chat id -100, say).
   */
  function IsTargetGroupId(groups: seq<Entry>, positives: seq<int>, chat: Entry): Option<bool> {
    // 1. the positive form
    if chat.Num? && chat.n in positives then Some(true)
    // 2. the stored form
    else if chat in groups then Some(true)
    else
      var s := Str(chat);
      // 4. a digit id, marked, as a substring of the printed list
      if IsDigits(s) && Contains(ListStr(groups), MARK + s) then Some(true)
      // 5. a marked id, unmarked and parsed
      else if HasPrefix(s, MARK) then
        match ParseInt(s[|MARK|..])
        case None => None
        case Some(p) => Some(p in positives)
      else Some(false)
  }

  // ---------------------------------------------------------------------------
  // The substring test of step 4, entry by entry.

  /** A marked digit id consists of `-` and digits only: no separator of the printed list. */
  lemma MarkedAvoidsPunctuation(s: string)
    requires IsDigits(s)
    ensures forall i :: 0 <= i < |MARK + s| ==> (MARK + s)[i] !in ", []'"
  {
    var w := MARK + s;
    forall i | 0 <= i < |w| ensures w[i] !in ", []'" {
      if i >= 4 { assert w[i] == s[i - 4]; }
    }
  }

  /** The repr of some element contains `w`. */
  predicate SomeReprContains(groups: seq<Entry>, w: string) {
    exists i :: 0 <= i < |groups| && Contains(Repr(groups[i]), w)
  }

  lemma SomeReprContainsCons(groups: seq<Entry>, w: string)
    requires |groups| > 0
    ensures SomeReprContains(groups, w) <==> Contains(Repr(groups[0]), w) || SomeReprContains(groups[1..], w)
  {
    if SomeReprContains(groups, w) && !Contains(Repr(groups[0]), w) {
      var i :| 0 <= i < |groups| && Contains(Repr(groups[i]), w);
      assert groups[1..][i - 1] == groups[i];
    }
    if SomeReprContains(groups[1..], w) {
      var i :| 0 <= i < |groups[1..]| && Contains(Repr(groups[1..][i]), w);
      assert groups[1..][i] == groups[i + 1];
    }
  }

  /** Where the joined reprs contain the needle, some element's repr does. */
  lemma {:induction false} JoinReprsContainsOnlyIn(groups: seq<Entry>, w: string)
    requires |w| > 0 && forall i :: 0 <= i < |w| ==> w[i] !in ", "
    requires Contains(JoinReprs(groups), w)
    ensures SomeReprContains(groups, w)
  {
    if |groups| == 0 {
      assert false;
    } else if |groups| > 1 {
      var head, rest := Repr(groups[0]), JoinReprs(groups[1..]);
      ContainsAcrossSeparator(head, ", ", rest, w);
      if !Contains(head, w) {
        JoinReprsContainsOnlyIn(groups[1..], w);
      }
      SomeReprContainsCons(groups, w);
    } else {
      assert Contains(Repr(groups[0]), w);
    }
  }

  /** Where some element's repr contains the needle, the joined reprs do. */
  lemma {:induction false} JoinReprsContainsFrom(groups: seq<Entry>, w: string)
    requires SomeReprContains(groups, w)
    ensures Contains(JoinReprs(groups), w)
  {
    SomeReprContainsCons(groups, w);
    if |groups| > 1 {
      var head, rest := Repr(groups[0]), JoinReprs(groups[1..]);
      assert JoinReprs(groups) == head + (", " + rest);
      if Contains(head, w) {
        ContainsInConcat(head, ", " + rest, w);
      } else {
        JoinReprsContainsFrom(groups[1..], w);
        ContainsInConcat(", ", rest, w);
        ContainsInConcat(head, ", " + rest, w);
      }
    }
  }

  /**
   * A needle without list punctuation occurs in the joined reprs exactly when
   * it occurs in the repr of one element.
   */
  lemma JoinReprsContains(groups: seq<Entry>, w: string)
    requires |w| > 0 && forall i :: 0 <= i < |w| ==> w[i] !in ", "
    ensures Contains(JoinReprs(groups), w) <==> SomeReprContains(groups, w)
  {
    if Contains(JoinReprs(groups), w) {
      JoinReprsContainsOnlyIn(groups, w);
    }
    if SomeReprContains(groups, w) {
      JoinReprsContainsFrom(groups, w);
    }
  }

  /**
   * Step 4 reads element by element: a marked digit id is a substring of
   * `str(TARGET_GROUPS)` exactly when it is a substring of one element's repr.
   */
  lemma ListStrContains(groups: seq<Entry>, s: string)
    requires IsDigits(s)
    ensures Contains(ListStr(groups), MARK + s) <==> SomeReprContains(groups, MARK + s)
  {
    var w, j := MARK + s, JoinReprs(groups);
    MarkedAvoidsPunctuation(s);
    JoinReprsContains(groups, w);
    if Contains(ListStr(groups), w) {
      assert ListStr(groups) == [] + "[" + (j + "]");
      ContainsAcrossSeparator([], "[", j + "]", w);
      assert !Contains([], w);
      assert j + "]" == j + "]" + [];
      ContainsAcrossSeparator(j, "]", [], w);
    }
    if Contains(j, w) {
      ContainsInConcat(j, "]", w);
      ContainsInConcat("[", j + "]", w);
      assert ListStr(groups) == "[" + (j + "]");
    }
  }

  // ---------------------------------------------------------------------------
  // What the check accepts.

  /** Every stored positive id and every stored target is accepted as it is. */
  lemma StoredValuesAccepted(groups: seq<Entry>, positives: seq<int>)
    ensures forall p :: p in positives ==> IsTargetGroupId(groups, positives, Num(p)) == Some(true)
    ensures forall e :: e in groups ==> IsTargetGroupId(groups, positives, e) == Some(true)
  {
  }

  /** A marked id whose suffix parses to a stored positive id is accepted. */
  lemma MarkedSuffixAccepted(groups: seq<Entry>, positives: seq<int>, chat: Entry, r: string)
    requires Str(chat) == MARK + r
    requires ParseInt(r).Some? && ParseInt(r).value in positives
    ensures IsTargetGroupId(groups, positives, chat) == Some(true)
  {
    assert Str(chat)[0] == '-';
    assert HasPrefix(Str(chat), MARK) && Str(chat)[|MARK|..] == r;
  }

  /**
   * A digit id is accepted exactly when it is a stored positive id or target,
   * or its marked form is a substring of some stored target's repr.
   */
  lemma DigitIdAccepted(groups: seq<Entry>, positives: seq<int>, chat: Entry)
    requires IsDigits(Str(chat))
    ensures IsTargetGroupId(groups, positives, chat) == Some(
      || (chat.Num? && chat.n in positives)
      || chat in groups
      || SomeReprContains(groups, MARK + Str(chat)))
  {
    ListStrContains(groups, Str(chat));
    assert !HasPrefix(Str(chat), MARK) by {
      assert IsDigit(Str(chat)[0]);
    }
  }

  /**
   * A marked id whose suffix parses is accepted exactly when it is stored, or
   * the suffix is a stored positive id; otherwise the check returns false.
   */
  lemma MarkedIdAccepted(groups: seq<Entry>, positives: seq<int>, chat: Entry)
    requires HasPrefix(Str(chat), MARK) && ParseInt(Str(chat)[|MARK|..]).Some?
    ensures IsTargetGroupId(groups, positives, chat) == Some(
      || (chat.Num? && chat.n in positives)
      || chat in groups
      || ParseInt(Str(chat)[|MARK|..]).value in positives)
  {
    assert !IsDigits(Str(chat)) by { assert Str(chat)[0] == '-'; }
  }

  /**
   * A marked chat id "-100r" is rejected when neither it nor `int(r)` is
   * stored: with nothing stored and 5 not a positive id, the chat -1005 gets
   * false.
   */
  lemma UnstoredMarkedIdRejected(groups: seq<Entry>, positives: seq<int>, r: string)
    requires IsDigits(r)
    requires NegativeForm(r) !in positives && Num(NegativeForm(r)) !in groups && Value(r) !in positives
    ensures IsTargetGroupId(groups, positives, Num(NegativeForm(r))) == Some(false)
  {
    var chat := Num(NegativeForm(r));
    NegativeFormRendering(r);
    assert Str(chat) == MARK + r;
    assert Str(chat)[..|MARK|] == MARK && Str(chat)[|MARK|..] == r;
    assert ParseInt(r) == Some(Value(r));
    MarkedIdAccepted(groups, positives, chat);
  }

  /**
   * A short token "-r" is stored as int("-100r") with positive id int(r), but
   * its own text "-r" is not accepted: it is neither stored, nor digits, nor
   * marked. With the setting "-12", the chat "-12" gets false.
   */
  lemma ShortTokenTextRejected(r: string)
    requires IsDigits(r) && !HasPrefix(r, "100")
    ensures IsTargetGroupId([Num(NegativeForm(r))], [Value(r)], Name("-" + r)) == Some(false)
  {
    assert !HasPrefix("-" + r, MARK) by {
      if |r| >= 3 { assert ("-" + r)[1..4] == r[..3]; }
    }
    assert !IsDigits("-" + r) by { assert ("-" + r)[0] == '-'; }
  }

  /** An id that is neither stored, nor digits, nor marked is rejected. */
  lemma OtherIdsRejected(groups: seq<Entry>, positives: seq<int>, chat: Entry)
    requires !(chat.Num? && chat.n in positives) && chat !in groups
    requires !IsDigits(Str(chat)) && !HasPrefix(Str(chat), MARK)
    ensures IsTargetGroupId(groups, positives, chat) == Some(false)
  {
  }

  /**
   * The check raises ValueError exactly for an unmatched marked id whose
   * suffix is not an integer.
   */
  lemma RaisesExactly(groups: seq<Entry>, positives: seq<int>, chat: Entry)
    ensures IsTargetGroupId(groups, positives, chat).None? <==>
      && !(chat.Num? && chat.n in positives) && chat !in groups
      && HasPrefix(Str(chat), MARK) && ParseInt(Str(chat)[|MARK|..]).None?
  {
    if HasPrefix(Str(chat), MARK) {
      assert !IsDigits(Str(chat)) by { assert Str(chat)[0] == '-'; }
    }
  }

  /** The chat id -100 makes the check raise unless -100 itself is stored. */
  lemma BareMarkChatRaises(groups: seq<Entry>, positives: seq<int>)
    requires -100 !in positives && Num(-100) !in groups
    ensures IsTargetGroupId(groups, positives, Num(-100)) == None
  {
    NegativeFormRendering([]);
    assert NegativeForm([]) == -100;
    assert Str(Num(-100)) == MARK;
    RaisesExactly(groups, positives, Num(-100));
  }

  // ---------------------------------------------------------------------------
  // The setup and the check together.

  /**
   * A registered token is accepted in every encoding: its stored entry, and for
   * a numeric token with digits r also the positive id r, the digit string r
   * and the marked string "-100r".
   */
  lemma RegisteredEncodingsAccepted(groups: seq<Entry>, positives: seq<int>, tok: string)
    requires Registrable(tok) && EntryOf(tok) in groups
    requires IsNumeric(tok) ==> Value(DigitsPart(tok)) in positives
    ensures IsTargetGroupId(groups, positives, EntryOf(tok)) == Some(true)
    ensures IsNumeric(tok) ==>
      var r := DigitsPart(tok);
      && IsTargetGroupId(groups, positives, Num(Value(r))) == Some(true)
      && IsTargetGroupId(groups, positives, Name(r)) == Some(true)
      && IsTargetGroupId(groups, positives, Name(MARK + r)) == Some(true)
  {
    if IsNumeric(tok) {
      NumericEncodingsAccepted(groups, positives, DigitsPart(tok));
    }
  }

  /** The digit string r and the marked string "-100r" of a stored numeric target are accepted. */
  lemma NumericEncodingsAccepted(groups: seq<Entry>, positives: seq<int>, r: string)
    requires IsDigits(r) && Num(NegativeForm(r)) in groups && Value(r) in positives
    ensures IsTargetGroupId(groups, positives, Name(r)) == Some(true)
    ensures IsTargetGroupId(groups, positives, Name(MARK + r)) == Some(true)
  {
    var i :| 0 <= i < |groups| && groups[i] == Num(NegativeForm(r));
    assert AllDigits([]) && r + [] == r;
    MarkedPrefixInRepr(r, []);
    ReprWitness(groups, i, MARK + r);
    DigitIdAccepted(groups, positives, Name(r));
    assert ParseInt(r) == Some(Value(r));
    MarkedSuffixAccepted(groups, positives, Name(MARK + r), r);
  }

  lemma {:induction false} PositivesOfHas(toks: seq<string>, i: int)
    requires AllRegistrable(toks) && 0 <= i < |toks| && IsNumeric(toks[i])
    ensures Value(DigitsPart(toks[i])) in PositivesOf(toks)
  {
    var front := toks[..|toks| - 1];
    assert AllRegistrable(front) by {
      forall j | 0 <= j < |front| ensures Registrable(front[j]) { assert front[j] == toks[j]; }
    }
    if i < |toks| - 1 {
      assert front[i] == toks[i];
      PositivesOfHas(front, i);
    }
  }

  /**
   * After a setup that completes, every token of the setting is accepted in
   * each of its encodings.
   */
  lemma SetupTargetsAccepted(raw: string, i: int)
    requires Register(NO_TARGETS, raw).Done?
    requires 0 <= i < |RawTokens(raw)|
    ensures var t := Register(NO_TARGETS, raw).targets; var tok := RawTokens(raw)[i];
      && Registrable(tok)
      && IsTargetGroupId(t.groups, t.positives, EntryOf(tok)) == Some(true)
      && (IsNumeric(tok) ==>
        && IsTargetGroupId(t.groups, t.positives, Num(Value(DigitsPart(tok)))) == Some(true)
        && IsTargetGroupId(t.groups, t.positives, Name(DigitsPart(tok))) == Some(true)
        && IsTargetGroupId(t.groups, t.positives, Name(MARK + DigitsPart(tok))) == Some(true))
  {
    var toks := RawTokens(raw);
    var t := Register(NO_TARGETS, raw).targets;
    SetupEffect(NO_TARGETS, raw);
    assert t.groups == EntriesOf(toks) && t.positives == PositivesOf(toks);
    assert t.groups[i] == EntryOf(toks[i]);
    if IsNumeric(toks[i]) {
      PositivesOfHas(toks, i);
    }
    RegisteredEncodingsAccepted(t.groups, t.positives, toks[i]);
  }

  // ---------------------------------------------------------------------------
  // Step 4 matches prefixes.

  /**
   * As written, step 4 accepts a positive id whose digits are a proper prefix
   * of a target's digits: with the target -10012 stored, the chat 1 passes,
   * because "-1001" is a substring of "[-10012]".
   */
  lemma PrefixOfTargetAccepted(groups: seq<Entry>, positives: seq<int>, n: nat, x: string)
    requires IsDigits(x) && Num(NegativeForm(NatToDigits(n) + x)) in groups
    ensures IsTargetGroupId(groups, positives, Num(n)) == Some(true)
  {
    var s := NatToDigits(n);
    AllDigitsAppend(s, x);
    var i :| 0 <= i < |groups| && groups[i] == Num(NegativeForm(s + x));
    MarkedPrefixInRepr(s, x);
    ReprWitness(groups, i, MARK + s);
    DigitIdAccepted(groups, positives, Num(n));
  }

  /** "-100s" begins the rendering of the target -100(s+x). */
  lemma MarkedPrefixInRepr(s: string, x: string)
    requires AllDigits(s) && AllDigits(x) && AllDigits(s + x)
    ensures OccursAt(Repr(Num(NegativeForm(s + x))), MARK + s, 0)
  {
    NegativeFormRendering(s + x);
    assert MARK + (s + x) == (MARK + s) + x;
    assert ((MARK + s) + x)[..|MARK + s|] == MARK + s;
  }

  lemma ReprWitness(groups: seq<Entry>, i: int, w: string)
    requires 0 <= i < |groups| && OccursAt(Repr(groups[i]), w, 0)
    ensures SomeReprContains(groups, w)
  {
    assert Contains(Repr(groups[i]), w);
  }

  /** A setting of one token, without commas or surrounding blanks, registers that token. */
  lemma SingleTokenSetting(t: Targets, tok: string)
    requires tok != [] && ',' !in tok && Strip(tok) == tok
    ensures Register(t, tok) == AddToken(t, tok)
  {
    SplitWithoutSeparator(tok, ',');
    assert [tok][..0] == [];
    TokenLastPiece(t, [tok]);
  }

  /**
   * A setting of one `-` token whose digits do not begin with "100" registers
   * the target -100 followed by those digits.
   */
  lemma ShortMarkSetting(r: string)
    requires IsDigits(r) && !HasPrefix(r, "100")
    ensures Register(NO_TARGETS, "-" + r) ==
      Done(Targets([Num(NegativeForm(r))], [Value(r)], map[Num(NegativeForm(r)) := Positive(Value(r))]))
  {
    var tok := "-" + r;
    DashDigitsTokenPlain(r);
    SingleTokenSetting(NO_TARGETS, tok);
    ShortTokenLikeMarked(NO_TARGETS, r);
    MarkedTokenStored(NO_TARGETS, r);
    var e, v := Num(NegativeForm(r)), Positive(Value(r));
    assert NO_TARGETS.idMap[e := v] == map[e := v];
    assert NO_TARGETS.groups + [e] == [e];
    assert NO_TARGETS.positives + [Value(r)] == [Value(r)];
  }

  /** A `-` followed by digits has no comma and no surrounding blanks. */
  lemma DashDigitsTokenPlain(r: string)
    requires IsDigits(r)
    ensures var tok := "-" + r; tok != [] && ',' !in tok && Strip(tok) == tok
  {
    var tok := "-" + r;
    assert tok[|tok| - 1] == r[|r| - 1];
    StripOfTrimmed(tok);
    forall k | 0 <= k < |tok| ensures tok[k] != ',' {
      if k > 0 { assert tok[k] == r[k - 1]; }
    }
  }

  /** The concrete case, part one: the setting "-12" registers the target -10012. */
  lemma TargetTwelveRegistered()
    ensures Register(NO_TARGETS, "-12") == Done(Targets([Num(-10012)], [12], map[Num(-10012) := Positive(12)]))
  {
    assert Value("12") == 12 by { assert "12"[..1] == "1" && "1"[..0] == ""; }
    assert Pow10(2) == 100;
    assert NegativeForm("12") == -10012;
    assert "-" + "12" == "-12";
    ShortMarkSetting("12");
  }

  /** The concrete case, part two: with the target -10012 stored, the chat 1 is accepted. */
  lemma ChatOneMatchesTargetTwelve()
    ensures IsTargetGroupId([Num(-10012)], [12], Num(1)) == Some(true)
  {
    assert NatToDigits(1) + "2" == "12";
    assert Pow10(2) == 100;
    assert Value("12") == 12 by { assert "12"[..1] == "1" && "1"[..0] == ""; }
    assert NegativeForm("12") == -10012;
    PrefixOfTargetAccepted([Num(-10012)], [12], 1, "2");
  }

  /**
   * Step 4 as evidently intended: the marked digit id, as an integer, is one
   * of the stored targets.
   */
  function IsTargetGroupIdExact(groups: seq<Entry>, positives: seq<int>, chat: Entry): Option<bool> {
    if chat.Num? && chat.n in positives then Some(true)
    else if chat in groups then Some(true)
    else
      var s := Str(chat);
      if IsDigits(s) && Num(NegativeForm(s)) in groups then Some(true)
      else if HasPrefix(s, MARK) then
        match ParseInt(s[|MARK|..])
        case None => None
        case Some(p) => Some(p in positives)
      else Some(false)
  }

  /**
   * The intended check accepts a positive id exactly when it is stored, or the
   * target it names by the `-100` encoding is stored: a target whose digits
   * merely begin with the chat's digits no longer counts.
   */
  lemma ExactPositiveIds(groups: seq<Entry>, positives: seq<int>, n: nat)
    ensures IsTargetGroupIdExact(groups, positives, Num(n)) == Some(
      || n in positives
      || Num(n) in groups
      || exists i :: 0 <= i < |groups| && Repr(groups[i]) == MARK + IntToString(n))
  {
    var s := NatToDigits(n);
    assert !HasPrefix(s, MARK) by { assert IsDigit(s[0]); }
    forall i | 0 <= i < |groups| ensures Repr(groups[i]) == MARK + s <==> groups[i] == Num(NegativeForm(s)) {
      ReprIsMarkedForm(groups[i], s);
    }
  }

  /** Exactly one entry is rendered as "-100s": the integer -100s. */
  lemma ReprIsMarkedForm(e: Entry, s: string)
    requires IsDigits(s)
    ensures Repr(e) == MARK + s <==> e == Num(NegativeForm(s))
  {
    NegativeFormRendering(s);
    if e.Name? {
      assert Repr(e)[0] == '\'' && (MARK + s)[0] == '-';
    } else if Repr(e) == MARK + s {
      IntToStringRoundTrip(e.n);
      NegativeFormParses(s);
    }
  }

  /** With the target -100(s+x) alone stored, the intended check rejects the chat s. */
  lemma ExactRejectsPrefix(positives: seq<int>, n: nat, x: string)
    requires IsDigits(x) && n !in positives
    ensures IsTargetGroupIdExact([Num(NegativeForm(NatToDigits(n) + x))], positives, Num(n)) == Some(false)
    ensures IsTargetGroupId([Num(NegativeForm(NatToDigits(n) + x))], positives, Num(n)) == Some(true)
  {
    var s := NatToDigits(n);
    AllDigitsAppend(s, x);
    var groups := [Num(NegativeForm(s + x))];
    if Num(NegativeForm(s)) in groups {
      NegativeFormInjective(s, s + x);
    }
    assert !HasPrefix(s, MARK) by { assert IsDigit(s[0]); }
    PrefixOfTargetAccepted(groups, positives, n, x);
  }

  /**
   * The intended check still accepts every encoding of a stored numeric
   * target: the positive id r, the digit string r and the marked "-100r".
   */
  lemma ExactAcceptsNumericEncodings(groups: seq<Entry>, positives: seq<int>, r: string)
    requires IsDigits(r) && Num(NegativeForm(r)) in groups && Value(r) in positives
    ensures IsTargetGroupIdExact(groups, positives, Num(Value(r))) == Some(true)
    ensures IsTargetGroupIdExact(groups, positives, Name(r)) == Some(true)
    ensures IsTargetGroupIdExact(groups, positives, Name(MARK + r)) == Some(true)
  {
    assert ParseInt(r) == Some(Value(r));
    var m := MARK + r;
    assert m[0] == '-' && HasPrefix(m, MARK) && m[|MARK|..] == r;
  }
}
