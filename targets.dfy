/**
 * `setup_target_groups`: the comma-separated TARGET_GROUPS setting becomes
 * three structures, the list of targets in their negative (or verbatim name)
 * form, the list of positive ids, and a map from the first to the second.
 */
module TargetGroups {
  import opened Wrappers
  import opened Text
  import opened Decimal
  import opened ChannelIds

  /**
   * A Python value that is either an int or a str: an element of
   * TARGET_GROUPS, a key of TARGET_ID_MAP, or a chat id.
   */
  datatype Entry = Num(n: int) | Name(s: string)

  /** A value of TARGET_ID_MAP: a positive id, or the marker string "str". */
  datatype MapValue = Positive(p: int) | StrTag

  /** TARGET_GROUPS, TARGET_POSITIVE_IDS and TARGET_ID_MAP together. */
  datatype Targets = Targets(groups: seq<Entry>, positives: seq<int>, idMap: map<Entry, MapValue>)

  /**
   * The outcome of registering: completed, or stopped by the ValueError that
   * `int()` raises, which propagates out of the setup. Either way `targets`
   * is what the three structures hold at that point.
   */
  datatype SetupResult = Done(targets: Targets) | Raised(targets: Targets)

  const NO_TARGETS := Targets([], [], map[])

  /**
   * One numeric token: `int(negText)` is appended to the groups, then
   * `int(posText)` to the positive ids, and the map records the pair.
   * A failing `int()` stops the setup where it stands.
   */
  function AddNumeric(t: Targets, negText: string, posText: string): SetupResult {
    match ParseInt(negText)
    case None => Raised(t)
    case Some(neg) =>
      var groups := t.groups + [Num(neg)];
      match ParseInt(posText)
      case None => Raised(t.(groups := groups))
      case Some(pos) => Done(Targets(groups, t.positives + [pos], t.idMap[Num(neg) := Positive(pos)]))
  }

  /**
   * One stripped, non-empty token. The source's `-1002` branch sits under
   * the `-` branch, after the `-100` test that every `-1002…` token passes,
   * so it is unreachable and is not part of this definition.
   */
  function AddToken(t: Targets, tok: string): SetupResult {
    if HasPrefix(tok, MARK) then AddNumeric(t, tok, tok[|MARK|..])
    else if HasPrefix(tok, "-") then AddNumeric(t, MARK + tok[1..], tok[1..])
    else Done(Targets(t.groups + [Name(tok)], t.positives, t.idMap[Name(tok) := StrTag]))
  }

  /** The loop over the comma-separated pieces, in order; blank pieces are skipped. */
  function AddPieces(t: Targets, pieces: seq<string>): SetupResult
    decreases |pieces|
  {
    if pieces == [] then Done(t)
    else
      match AddPieces(t, pieces[..|pieces| - 1])
      case Raised(t') => Raised(t')
      case Done(t') =>
        var tok := Strip(pieces[|pieces| - 1]);
        if tok == [] then Done(t') else AddToken(t', tok)
  }

  /** `setup_target_groups` on the raw setting, starting from the structures `t`. */
  function Register(t: Targets, raw: string): SetupResult {
    if raw == [] then Done(t) else AddPieces(t, Split(raw, ','))
  }

  // ---------------------------------------------------------------------------
  // An independent description of what the setup registers.

  /** The stripped, non-empty pieces, in order. */
  function Tokens(pieces: seq<string>): (toks: seq<string>)
    ensures forall i :: 0 <= i < |toks| ==> toks[i] != []
    decreases |pieces|
  {
    if pieces == [] then []
    else
      var tok := Strip(pieces[|pieces| - 1]);
      Tokens(pieces[..|pieces| - 1]) + (if tok == [] then [] else [tok])
  }

  /** The tokens of the raw setting; an empty setting has none. */
  function RawTokens(raw: string): seq<string> {
    if raw == [] then [] else Tokens(Split(raw, ','))
  }

  predicate IsNumeric(tok: string) {
    HasPrefix(tok, "-")
  }

  /** The digits a numeric token carries: after `-100` if it has that mark, after `-` otherwise. */
  function DigitsPart(tok: string): string {
    if HasPrefix(tok, MARK) then tok[|MARK|..]
    else if HasPrefix(tok, "-") then tok[1..]
    else []
  }

  /** A token the setup registers without raising. */
  predicate Registrable(tok: string) {
    !IsNumeric(tok) || IsDigits(DigitsPart(tok))
  }

  /** The TARGET_GROUPS entry of a token. */
  function EntryOf(tok: string): Entry
    requires Registrable(tok)
  {
    if IsNumeric(tok) then Num(NegativeForm(DigitsPart(tok))) else Name(tok)
  }

  /** The TARGET_ID_MAP value of a token. */
  function ValueOf(tok: string): MapValue
    requires Registrable(tok)
  {
    if IsNumeric(tok) then Positive(Value(DigitsPart(tok))) else StrTag
  }

  predicate AllRegistrable(toks: seq<string>) {
    forall i :: 0 <= i < |toks| ==> Registrable(toks[i])
  }

  /** One entry per token, in order. */
  function EntriesOf(toks: seq<string>): (es: seq<Entry>)
    requires AllRegistrable(toks)
    ensures |es| == |toks|
    ensures forall i :: 0 <= i < |toks| ==> es[i] == EntryOf(toks[i])
  {
    if toks == [] then [] else EntriesOf(toks[..|toks| - 1]) + [EntryOf(toks[|toks| - 1])]
  }

  /** One positive id per numeric token, in order. */
  function PositivesOf(toks: seq<string>): seq<int>
    requires AllRegistrable(toks)
  {
    if toks == [] then []
    else
      var last := toks[|toks| - 1];
      PositivesOf(toks[..|toks| - 1]) + (if IsNumeric(last) then [Value(DigitsPart(last))] else [])
  }

  /** How many tokens are numeric. */
  function NumericCount(toks: seq<string>): nat {
    if toks == [] then 0
    else NumericCount(toks[..|toks| - 1]) + (if IsNumeric(toks[|toks| - 1]) then 1 else 0)
  }

  /** One TARGET_ID_MAP value per token, in order. */
  function ValuesOf(toks: seq<string>): (vs: seq<MapValue>)
    requires AllRegistrable(toks)
    ensures |vs| == |toks|
    ensures forall i :: 0 <= i < |toks| ==> vs[i] == ValueOf(toks[i])
  {
    if toks == [] then [] else ValuesOf(toks[..|toks| - 1]) + [ValueOf(toks[|toks| - 1])]
  }

  /**
   * `m'` is `m` after storing `vs[i]` under `es[i]` for every i: its keys are
   * the old keys and the entries, every entry maps to its value, and the other
   * keys keep theirs.
   */
  ghost predicate MapWrites(m: map<Entry, MapValue>, es: seq<Entry>, vs: seq<MapValue>, m': map<Entry, MapValue>)
    requires |es| == |vs|
  {
    && (forall k :: k in m' <==> k in m || k in es)
    && (forall i :: 0 <= i < |es| ==> es[i] in m' && m'[es[i]] == vs[i])
    && (forall k :: k in m && k !in es ==> m'[k] == m[k])
  }

  // ---------------------------------------------------------------------------
  // The setup against that description.

  /** `int("-100" + r)` and `int(r)` for the digits of a numeric token. */
  lemma NumericParses(tok: string)
    requires IsNumeric(tok)
    ensures HasPrefix(tok, MARK) ==> tok == MARK + DigitsPart(tok)
    ensures !HasPrefix(tok, MARK) ==> tok == "-" + DigitsPart(tok)
    ensures AllDigits(DigitsPart(tok)) ==> ParseInt(MARK + DigitsPart(tok)) == Some(NegativeForm(DigitsPart(tok)))
    ensures !AllDigits(DigitsPart(tok)) ==> ParseInt(MARK + DigitsPart(tok)) == None
    ensures IsDigits(DigitsPart(tok)) ==> ParseInt(DigitsPart(tok)) == Some(Value(DigitsPart(tok)))
    ensures AllDigits(DigitsPart(tok)) && !IsDigits(DigitsPart(tok)) ==> ParseInt(DigitsPart(tok)) == None
  {
    var r := DigitsPart(tok);
    if AllDigits(r) {
      NegativeFormParses(r);
    } else {
      var i :| 0 <= i < |r| && !IsDigit(r[i]);
      assert (MARK + r)[1..][3 + i] == r[i];
    }
  }

  /**
   * One token: it is registered exactly when its digits parse, and then it adds
   * its entry to the groups, its positive id (if numeric) to the positive ids,
   * and its pair to the map. When `int()` raises, the only trace it leaves is
   * the -100 appended for a bare "-100" or "-".
   */
  lemma AddTokenEffect(t: Targets, tok: string)
    requires tok != []
    ensures AddToken(t, tok).Done? <==> Registrable(tok)
    ensures Registrable(tok) ==> AddToken(t, tok).targets == Targets(
      t.groups + [EntryOf(tok)],
      t.positives + (if IsNumeric(tok) then [Value(DigitsPart(tok))] else []),
      t.idMap[EntryOf(tok) := ValueOf(tok)])
    ensures !Registrable(tok) ==>
      AddToken(t, tok).targets == t.(groups := t.groups + (if DigitsPart(tok) == [] then [Num(-100)] else []))
  {
    if IsNumeric(tok) {
      NumericParses(tok);
      var r := DigitsPart(tok);
      if HasPrefix(tok, MARK) {
        assert tok[|MARK|..] == r;
      } else {
        assert MARK + tok[1..] == MARK + r;
      }
      if r == [] {
        assert NegativeForm(r) == -100;
      }
    }
  }

  /** Two registrable tokens with the same entry have the same map value. */
  lemma EntryDeterminesValue(tok1: string, tok2: string)
    requires Registrable(tok1) && Registrable(tok2)
    requires EntryOf(tok1) == EntryOf(tok2)
    ensures ValueOf(tok1) == ValueOf(tok2)
  {
    if IsNumeric(tok1) && IsNumeric(tok2) {
      NegativeFormInjective(DigitsPart(tok1), DigitsPart(tok2));
    }
  }

  /**
   * `t'` is `t` after registering the tokens `toks`: TARGET_GROUPS gains one
   * entry per token and TARGET_POSITIVE_IDS one positive id per numeric
   * token, in input order, and TARGET_ID_MAP maps every token's entry to its
   * value and leaves the other keys alone.
   */
  ghost predicate Describes(t: Targets, toks: seq<string>, t': Targets)
    requires AllRegistrable(toks)
  {
    && t'.groups == t.groups + EntriesOf(toks)
    && t'.positives == t.positives + PositivesOf(toks)
    && MapWrites(t.idMap, EntriesOf(toks), ValuesOf(toks), t'.idMap)
  }

  lemma RegistrableSnoc(toks: seq<string>, tok: string)
    requires AllRegistrable(toks) && Registrable(tok)
    ensures AllRegistrable(toks + [tok])
  {
    var all := toks + [tok];
    forall i | 0 <= i < |all| ensures Registrable(all[i]) {
      if i < |toks| { assert all[i] == toks[i]; }
    }
  }

  /** One more store keeps MapWrites, given that the entry has had no other value. */
  lemma MapWritesSnoc(m: map<Entry, MapValue>, es: seq<Entry>, vs: seq<MapValue>, m': map<Entry, MapValue>,
                      e: Entry, v: MapValue)
    requires |es| == |vs| && MapWrites(m, es, vs, m')
    requires forall i :: 0 <= i < |es| && es[i] == e ==> vs[i] == v
    ensures MapWrites(m, es + [e], vs + [v], m'[e := v])
  {
    var es', vs' := es + [e], vs + [v];
    assert forall k :: k in es' <==> k in es || k == e;
    forall i | 0 <= i < |es'| ensures es'[i] in m'[e := v] && m'[e := v][es'[i]] == vs'[i] {
      if i < |es| {
        assert es'[i] == es[i] && vs'[i] == vs[i];
      }
    }
  }

  /** Registering one more token keeps the description. */
  lemma {:induction false} DescribesSnoc(t: Targets, toks: seq<string>, t0: Targets, tok: string, t1: Targets)
    requires Registrable(tok)
    requires AllRegistrable(toks) && Describes(t, toks, t0)
    requires t1 == Targets(
      t0.groups + [EntryOf(tok)],
      t0.positives + (if IsNumeric(tok) then [Value(DigitsPart(tok))] else []),
      t0.idMap[EntryOf(tok) := ValueOf(tok)])
    ensures AllRegistrable(toks + [tok])
    ensures Describes(t, toks + [tok], t1)
  {
    RegistrableSnoc(toks, tok);
    ListsOfSnoc(toks, tok);
    var extra := if IsNumeric(tok) then [Value(DigitsPart(tok))] else [];
    ConcatAssoc(t.groups, EntriesOf(toks), [EntryOf(tok)]);
    ConcatAssoc(t.positives, PositivesOf(toks), extra);
    var es, vs := EntriesOf(toks), ValuesOf(toks);
    forall i | 0 <= i < |es| && es[i] == EntryOf(tok) ensures vs[i] == ValueOf(tok) {
      EntryDeterminesValue(toks[i], tok);
    }
    MapWritesSnoc(t.idMap, es, vs, t0.idMap, EntryOf(tok), ValueOf(tok));
  }

  lemma ConcatAssoc<T>(a: seq<T>, b: seq<T>, c: seq<T>)
    ensures (a + b) + c == a + (b + c)
  {
  }

  lemma ListsOfSnoc(toks: seq<string>, tok: string)
    requires AllRegistrable(toks) && Registrable(tok) && AllRegistrable(toks + [tok])
    ensures EntriesOf(toks + [tok]) == EntriesOf(toks) + [EntryOf(tok)]
    ensures ValuesOf(toks + [tok]) == ValuesOf(toks) + [ValueOf(tok)]
    ensures PositivesOf(toks + [tok]) == PositivesOf(toks) + (if IsNumeric(tok) then [Value(DigitsPart(tok))] else [])
  {
    var all := toks + [tok];
    assert all[..|all| - 1] == toks;
    assert all[|all| - 1] == tok;
  }

  /** A blank last piece adds no token and changes nothing. */
  lemma BlankLastPiece(t: Targets, pieces: seq<string>)
    requires pieces != [] && Strip(pieces[|pieces| - 1]) == []
    ensures Tokens(pieces) == Tokens(pieces[..|pieces| - 1])
    ensures AddPieces(t, pieces) == AddPieces(t, pieces[..|pieces| - 1])
  {
  }

  /** A non-blank last piece adds its token after the others. */
  lemma TokenLastPiece(t: Targets, pieces: seq<string>)
    requires pieces != [] && Strip(pieces[|pieces| - 1]) != []
    ensures Tokens(pieces) == Tokens(pieces[..|pieces| - 1]) + [Strip(pieces[|pieces| - 1])]
    ensures AddPieces(t, pieces) ==
      match AddPieces(t, pieces[..|pieces| - 1])
      case Raised(t') => Raised(t')
      case Done(t') => AddToken(t', Strip(pieces[|pieces| - 1]))
  {
  }

  /** The loop's step: piece `i` is handled after pieces `0..i-1`. */
  lemma AddPiecesStep(t: Targets, pieces: seq<string>, i: nat)
    requires i < |pieces|
    ensures AddPieces(t, pieces[..i + 1]) ==
      match AddPieces(t, pieces[..i])
      case Raised(t') => Raised(t')
      case Done(t') => if Strip(pieces[i]) == [] then Done(t') else AddToken(t', Strip(pieces[i]))
  {
    var done := pieces[..i + 1];
    assert done[..i] == pieces[..i] && done[i] == pieces[i];
  }

  /** Once a ValueError is raised, later pieces are never looked at. */
  lemma {:induction false} RaisedStays(t: Targets, pieces: seq<string>, j: nat)
    requires j <= |pieces| && AddPieces(t, pieces[..j]).Raised?
    ensures AddPieces(t, pieces) == AddPieces(t, pieces[..j])
    decreases |pieces|
  {
    if j < |pieces| {
      var front := pieces[..|pieces| - 1];
      assert front[..j] == pieces[..j];
      RaisedStays(t, front, j);
    } else {
      assert pieces[..j] == pieces;
    }
  }

  /** A token that is not registrable makes any longer token list unregistrable. */
  lemma NotAllRegistrableSnoc(toks: seq<string>, tok: string)
    requires !AllRegistrable(toks) || !Registrable(tok)
    ensures !AllRegistrable(toks + [tok])
  {
    var all := toks + [tok];
    if !AllRegistrable(toks) {
      var i :| 0 <= i < |toks| && !Registrable(toks[i]);
      assert all[i] == toks[i];
    } else {
      assert all[|toks|] == tok;
    }
  }

  /**
   * The loop against the description: it completes exactly when every token
   * is registrable, and then its result is described by the tokens.
   */
  lemma {:induction false} AddPiecesEffect(t: Targets, pieces: seq<string>)
    ensures AddPieces(t, pieces).Done? <==> AllRegistrable(Tokens(pieces))
    ensures AddPieces(t, pieces).Done? ==> Describes(t, Tokens(pieces), AddPieces(t, pieces).targets)
    decreases |pieces|
  {
    if pieces == [] {
    } else {
      var front := pieces[..|pieces| - 1];
      var tok := Strip(pieces[|pieces| - 1]);
      AddPiecesEffect(t, front);
      if tok == [] {
        BlankLastPiece(t, pieces);
      } else {
        TokenLastPiece(t, pieces);
        var r0 := AddPieces(t, front);
        if r0.Done? {
          AddTokenEffect(r0.targets, tok);
          if Registrable(tok) {
            DescribesSnoc(t, Tokens(front), r0.targets, tok, AddToken(r0.targets, tok).targets);
          } else {
            NotAllRegistrableSnoc(Tokens(front), tok);
          }
        } else {
          NotAllRegistrableSnoc(Tokens(front), tok);
        }
      }
    }
  }

  /** The whole setup against the description, starting from any structures. */
  lemma SetupEffect(t: Targets, raw: string)
    ensures Register(t, raw).Done? <==> AllRegistrable(RawTokens(raw))
    ensures Register(t, raw).Done? ==> Describes(t, RawTokens(raw), Register(t, raw).targets)
  {
    if raw != [] {
      AddPiecesEffect(t, Split(raw, ','));
    }
  }

  /** An empty setting leaves all three structures empty. */
  lemma EmptySettingRegistersNothing()
    ensures Register(NO_TARGETS, "") == Done(NO_TARGETS)
  {
  }

  /** Blank pieces, such as the empty one after a trailing comma, change nothing. */
  lemma BlankPieceSkipped(t: Targets, pieces: seq<string>, blank: string)
    requires forall i :: 0 <= i < |blank| ==> IsSpace(blank[i])
    ensures AddPieces(t, pieces + [blank]) == AddPieces(t, pieces)
  {
    assert (pieces + [blank])[..|pieces|] == pieces;
  }

  /** The number of stored ids: one group per token, one positive per numeric token. */
  lemma {:induction false} CountsOf(toks: seq<string>)
    requires AllRegistrable(toks)
    ensures |EntriesOf(toks)| == |toks|
    ensures |PositivesOf(toks)| == NumericCount(toks)
  {
    if toks != [] {
      var front := toks[..|toks| - 1];
      assert AllRegistrable(front) by {
        forall i | 0 <= i < |front| ensures Registrable(front[i]) { assert front[i] == toks[i]; }
      }
      CountsOf(front);
    }
  }

  /** A name token is stored verbatim, never as a positive id, and mapped to "str". */
  lemma NameTokenStoredVerbatim(t: Targets, tok: string)
    requires tok != [] && !HasPrefix(tok, "-")
    ensures AddToken(t, tok) == Done(Targets(t.groups + [Name(tok)], t.positives, t.idMap[Name(tok) := StrTag]))
  {
  }

  /**
   * A marked token "-100r" stores `int("-100r")` and `int(r)`, paired in the map.
   */
  lemma MarkedTokenStored(t: Targets, r: string)
    requires IsDigits(r)
    ensures AddToken(t, MARK + r) == Done(Targets(
      t.groups + [Num(NegativeForm(r))], t.positives + [Value(r)],
      t.idMap[Num(NegativeForm(r)) := Positive(Value(r))]))
  {
    var tok := MARK + r;
    assert HasPrefix(tok, MARK) && DigitsPart(tok) == r;
    AddTokenEffect(t, tok);
  }

  /**
   * A short token "-r" whose digits do not start with "100" registers the same
   * pair as the marked token "-100r": `int("-100r")` and `int(r)`.
   */
  lemma ShortTokenLikeMarked(t: Targets, r: string)
    requires IsDigits(r) && !HasPrefix(r, "100")
    ensures AddToken(t, "-" + r) == AddToken(t, MARK + r)
  {
    var tok := "-" + r;
    if |r| >= 3 {
      assert tok[1..4] == r[..3];
    }
    assert DigitsPart(tok) == r;
    AddTokenEffect(t, tok);
    MarkedTokenStored(t, r);
  }

  /**
   * A `-1002…` token is not corrected to `-100…`: it takes the `-100` branch,
   * so "-1002555" is stored as -1002555 with positive id 2555.
   */
  lemma Token1002StoredAsMarked(t: Targets, x: string)
    requires AllDigits(x)
    ensures AddToken(t, "-1002" + x) == Done(Targets(
      t.groups + [Num(NegativeForm("2" + x))], t.positives + [Value("2" + x)],
      t.idMap[Num(NegativeForm("2" + x)) := Positive(Value("2" + x))]))
  {
    assert "-1002" + x == MARK + ("2" + x);
    assert IsDigits("2" + x) by { AllDigitsAppend("2", x); }
    MarkedTokenStored(t, "2" + x);
  }

  /** A bare "-100" appends -100 to the groups and then raises on `int("")`. */
  lemma BareMarkRaises(t: Targets)
    ensures AddToken(t, MARK) == Raised(t.(groups := t.groups + [Num(-100)]))
  {
    AddTokenEffect(t, MARK);
    assert DigitsPart(MARK) == [];
  }

  /**
   * The three module-level structures that `setup_target_groups` fills in
   * place: TARGET_GROUPS, TARGET_POSITIVE_IDS and TARGET_ID_MAP.
   */
  class TargetRegistry {
    var groups: seq<Entry>
    var positives: seq<int>
    var idMap: map<Entry, MapValue>

    function Snapshot(): Targets
      reads this
    {
      Targets(groups, positives, idMap)
    }

    /** The structures as the module initialises them: empty. */
    constructor ()
      ensures Snapshot() == NO_TARGETS
    {
      groups, positives, idMap := [], [], map[];
    }

    /**
     * `setup_target_groups`: `ok` is false where `int()` raises ValueError,
     * and the structures are then left as they stood at the raise.
     */
    method Setup(raw: string) returns (ok: bool)
      modifies this
      ensures ok == Register(old(Snapshot()), raw).Done?
      ensures Snapshot() == Register(old(Snapshot()), raw).targets
    {
      if raw == [] {
        return true;
      }
      var pieces := Split(raw, ',');
      ghost var start := Snapshot();
      ok := true;
      var i := 0;
      // A raised ValueError ends the loop, and the setup, at once.
      while ok && i < |pieces|
        invariant 0 <= i <= |pieces|
        invariant AddPieces(start, pieces[..i]) == (if ok then Done(Snapshot()) else Raised(Snapshot()))
      {
        AddPiecesStep(start, pieces, i);
        var tok := Strip(pieces[i]);
        if tok != [] {
          ok := StoreToken(tok);
        }
        i := i + 1;
      }
      if ok {
        assert pieces[..i] == pieces;
      } else {
        RaisedStays(start, pieces, i);
      }
    }

    /** The body of the loop for one stripped, non-empty token. */
    method StoreToken(tok: string) returns (ok: bool)
      modifies this
      ensures ok == AddToken(old(Snapshot()), tok).Done?
      ensures Snapshot() == AddToken(old(Snapshot()), tok).targets
    {
      if HasPrefix(tok, MARK) {
        ok := StoreNumeric(tok, tok[|MARK|..]);
      } else if HasPrefix(tok, "-") {
        ok := StoreNumeric(MARK + tok[1..], tok[1..]);
      } else {
        groups := groups + [Name(tok)];
        idMap := idMap[Name(tok) := StrTag];
        ok := true;
      }
    }

    /** The body of a numeric branch: two `int()` calls, two appends and a map store. */
    method StoreNumeric(negText: string, posText: string) returns (ok: bool)
      modifies this
      ensures ok == AddNumeric(old(Snapshot()), negText, posText).Done?
      ensures Snapshot() == AddNumeric(old(Snapshot()), negText, posText).targets
    {
      var neg := ParseInt(negText);
      if neg.None? {
        return false;
      }
      groups := groups + [Num(neg.value)];
      var pos := ParseInt(posText);
      if pos.None? {
        return false;
      }
      positives := positives + [pos.value];
      idMap := idMap[Num(neg.value) := Positive(pos.value)];
      return true;
    }
  }
}
