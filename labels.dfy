/** The editor shows each chain as the label `name (chainId)` and later recovers
    the chain ID from the chosen label with the global regular expression
    `([0-9]+)` (the source writes it as a string literal in which `\(` is just
    `(`, so the parentheses form a capture group, not literal brackets). The ID
    taken is the LAST match, i.e. the last maximal run of decimal digits. */
module Labels {
  import opened Wrappers
  import opened JsBuiltins

  predicate IsDigit(c: char) { '0' <= c <= '9' }

  predicate AllDigits(s: string) { forall i :: 0 <= i < |s| ==> IsDigit(s[i]) }

  /** `${name} (${chainId})` */
  function Label(name: string, chainId: string): string {
    name + " (" + chainId + ")"
  }

  /** Length of the longest suffix of `s` made of digits. */
  function DigitSuffixLength(s: string): (n: nat)
    ensures n <= |s|
    ensures forall i :: |s| - n <= i < |s| ==> IsDigit(s[i])
    ensures n < |s| ==> !IsDigit(s[|s| - n - 1])
    decreases |s|
  {
    if s == [] || !IsDigit(s[|s| - 1]) then 0 else DigitSuffixLength(s[..|s| - 1]) + 1
  }

  /** Bounds `(b, e)` of the last maximal digit run of `s`: what the last match of
      the global regular expression `[0-9]+` covers. */
  function LastDigitRun(s: string): (r: Option<(nat, nat)>)
    ensures r.None? <==> forall i :: 0 <= i < |s| ==> !IsDigit(s[i])
    ensures r.Some? ==> r.value.0 < r.value.1 <= |s|
    ensures r.Some? ==> forall i :: r.value.0 <= i < r.value.1 ==> IsDigit(s[i])
    ensures r.Some? && r.value.0 > 0 ==> !IsDigit(s[r.value.0 - 1])
    ensures r.Some? ==> forall i :: r.value.1 <= i < |s| ==> !IsDigit(s[i])
    decreases |s|
  {
    if s == [] then None
    else if IsDigit(s[|s| - 1]) then Some((|s| - DigitSuffixLength(s), |s|))
    else
      var r := LastDigitRun(s[..|s| - 1]);
      assert forall i :: 0 <= i < |s| - 1 ==> s[..|s| - 1][i] == s[i];
      r
  }

  /** `[...label.match(regex)].pop().replace('(', '').replace(')', '')`;
      None where `match` returns null and the spread throws. */
  function ChainIdOfLabel(choice: string): (r: Option<string>)
    ensures r.None? <==> forall i :: 0 <= i < |choice| ==> !IsDigit(choice[i])
    ensures r.Some? ==> r.value != [] && AllDigits(r.value)
  {
    match LastDigitRun(choice)
    case None => None
    case Some((b, e)) =>
      var run := choice[b..e];
      NoBracketInDigits(run);
      Some(ReplaceFirst(ReplaceFirst(run, "(", ""), ")", ""))
  }

  /** The ID read back from a label is exactly its last run of digits, the
      last match of the global `([0-9]+)`. */
  lemma ChainIdIsLastDigitRun(choice: string)
    ensures ChainIdOfLabel(choice).Some? <==> LastDigitRun(choice).Some?
    ensures LastDigitRun(choice).Some? ==>
              ChainIdOfLabel(choice).value == choice[LastDigitRun(choice).value.0..LastDigitRun(choice).value.1]
  {
    match LastDigitRun(choice)
    case None =>
    case Some((b, e)) =>
      NoBracketInDigits(choice[b..e]);
  }

  /** The two `replace` calls change nothing: a digit run holds no bracket. */
  lemma NoBracketInDigits(run: string)
    requires AllDigits(run)
    ensures ReplaceFirst(run, "(", "") == run
    ensures ReplaceFirst(run, ")", "") == run
  {
    DigitsLackChar(run, '(');
    DigitsLackChar(run, ')');
  }

  /** A digit string contains no occurrence of a non-digit character. */
  lemma DigitsLackChar(run: string, c: char)
    requires AllDigits(run) && !IsDigit(c)
    ensures IndexOfText(run, [c]) == -1
  {
    forall i | 0 <= i <= |run| ensures !OccursAt(run, [c], i) {
      if i < |run| {
        assert run[i..i + 1] == [run[i]];
      }
    }
  }

  /** Round trip: the label of a chain whose ID is a non-empty digit string
      gives back exactly that ID, whatever the name holds. */
  lemma {:induction false} LabelRoundTrip(name: string, chainId: string)
    requires chainId != [] && AllDigits(chainId)
    ensures ChainIdOfLabel(Label(name, chainId)) == Some(chainId)
  {
    var s := Label(name, chainId);
    var b0, e0 := |name| + 2, |name| + 2 + |chainId|;
    assert s[e0] == ')' && s[b0 - 1] == '(';
    assert forall i :: b0 <= i < e0 ==> s[i] == chainId[i - b0];
    var r := LastDigitRun(s);
    assert IsDigit(s[b0]);
    var (b, e) := r.value;
    assert IsDigit(s[e0 - 1]) && !IsDigit(s[e0]) && IsDigit(s[e - 1]);
    assert e == e0;
    assert IsDigit(s[b]) && !IsDigit(s[b0 - 1]);
    assert b == b0;
    assert s[b..e] == chainId;
    NoBracketInDigits(chainId);
  }
}
