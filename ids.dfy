/**
 * Telegram channel identifiers come in two encodings: the positive id `D`
 * that the client library reports for a chat, and the "marked" form `-100D`
 * that users paste into configuration. This module holds `convert_id_format`
 * and the arithmetic of the `-100` encoding.
 */
module ChannelIds {
  import opened Wrappers
  import opened Text
  import opened Decimal

  const MARK := "-100"

  /**
   * `int("-100" + r)` for a run of digits `r`, written out:
   * `-(100 * 10^|r| + value(r))`.
   */
  function NegativeForm(r: string): int
    requires AllDigits(r)
  {
    -(100 * Pow10(|r|) + Value(r))
  }

  /**
   * `convert_id_format(id_value)` on `str(id_value)`: a digit string gains the
   * `-100` mark, a marked string loses it, anything else is returned as it is.
   * The source's third test (a `-1002` prefix, rewritten to `-100`) can never
   * be reached, because every such string already passed the `-100` test; it
   * has no counterpart here, and Prefix1002TakesMarkBranch records the effect.
   */
  function ConvertIdFormat(id: string): string {
    if IsDigits(id) && !HasPrefix(id, "-") then MARK + id
    else if HasPrefix(id, MARK) then id[|MARK|..]
    else id
  }

  /** `int("-100" + r)` is NegativeForm(r), also for the empty `r` (`int("-100") == -100`). */
  lemma NegativeFormParses(r: string)
    requires AllDigits(r)
    ensures ParseInt(MARK + r) == Some(NegativeForm(r))
  {
    ValueAppend("100", r);
    assert (MARK + r)[1..] == "100" + r;
    assert Value("100") == 100 by {
      assert "100"[..2] == "10" && "10"[..1] == "1" && "1"[..0] == "";
    }
  }

  /** `str(int("-100" + r)) == "-100" + r`: the marked form renders back to itself. */
  lemma NegativeFormRendering(r: string)
    requires AllDigits(r)
    ensures IntToString(NegativeForm(r)) == MARK + r
  {
    NegativeFormParses(r);
    var d := "100" + r;
    assert (MARK + r)[1..] == d;
    assert Canonical(d) by { assert d[0] == '1'; }
    DigitsOfValue(d);
    assert MARK + r == "-" + d;
  }

  /** Different digit runs give different marked ids. */
  lemma NegativeFormInjective(r1: string, r2: string)
    requires AllDigits(r1) && AllDigits(r2)
    requires NegativeForm(r1) == NegativeForm(r2)
    ensures r1 == r2
  {
    NegativeFormRendering(r1);
    NegativeFormRendering(r2);
    assert r1 == (MARK + r1)[4..] && r2 == (MARK + r2)[4..];
  }

  /** A digit string gains the mark, and the result is the integer `int("-100" + d)`. */
  lemma ConvertDigits(d: string)
    requires IsDigits(d)
    ensures ConvertIdFormat(d) == MARK + d
    ensures ParseInt(ConvertIdFormat(d)) == Some(NegativeForm(d))
  {
    NegativeFormParses(d);
  }

  /** A marked string loses exactly the four-character mark. */
  lemma ConvertMarked(x: string)
    ensures ConvertIdFormat(MARK + x) == x
  {
    var s := MARK + x;
    assert s[0] == '-';
    assert s[..4] == MARK;
    assert s[4..] == x;
  }

  /** Converting twice is the identity on digit strings and on marked digit strings. */
  lemma ConvertRoundTrip(d: string)
    requires IsDigits(d)
    ensures ConvertIdFormat(ConvertIdFormat(d)) == d
    ensures ConvertIdFormat(ConvertIdFormat(MARK + d)) == MARK + d
  {
    ConvertDigits(d);
    ConvertMarked(d);
  }

  /** Strings that are neither digits nor marked, such as "-5" or "name", come back unchanged. */
  lemma ConvertOther(s: string)
    requires !IsDigits(s) && !HasPrefix(s, MARK)
    ensures ConvertIdFormat(s) == s
  {
  }

  /**
   * A `-1002…` string is not rewritten to `-100…`: it loses only the `-100`
   * mark, so "-1002555" becomes "2555".
   */
  lemma Prefix1002TakesMarkBranch(x: string)
    ensures ConvertIdFormat("-1002" + x) == "2" + x
  {
    assert "-1002" + x == MARK + ("2" + x);
    ConvertMarked("2" + x);
  }

  /**
   * On integer ids: the positive id `n` converts to the rendering of the
   * integer `int("-100" + str(n))`, and that converts back to `str(n)`.
   */
  lemma ConvertIntegerIds(n: nat)
    ensures ConvertIdFormat(IntToString(n)) == IntToString(NegativeForm(NatToDigits(n)))
    ensures ConvertIdFormat(IntToString(NegativeForm(NatToDigits(n)))) == IntToString(n)
  {
    var d := NatToDigits(n);
    ConvertDigits(d);
    NegativeFormRendering(d);
    ConvertMarked(d);
  }
}
