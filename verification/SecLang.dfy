/**
 Values inside double-quoted SecLang arguments: what is accepted, how it is
 quoted, and how Coraza reads it back.
 */
module SecLang {
  import opened Wrappers

  datatype ValueError = Empty | LineBreak | TrailingBackslash | BackslashQuote

  predicate IsLineBreak(c: char) {
    c == '\r' || c == '\n'
  }

  predicate HasLineBreak(value: string) {
    exists i :: 0 <= i < |value| && IsLineBreak(value[i])
  }

  predicate HasBackslashQuote(value: string) {
    exists i :: 0 <= i < |value| - 1 && value[i] == '\\' && value[i + 1] == '"'
  }

  /** Why `value` cannot be written inside a quoted argument, if it cannot. */
  function QuotedValueError(value: string): Option<ValueError> {
    if value == "" then Some(Empty)
    else if HasLineBreak(value) then Some(LineBreak)
    else if value[|value| - 1] == '\\' then Some(TrailingBackslash)
    else if HasBackslashQuote(value) then Some(BackslashQuote)
    else None
  }

  /** value.replace('"', '\\"'): quotes are escaped, backslashes are left alone. */
  function Escape(value: string): string {
    if value == "" then ""
    else (if value[0] == '"' then "\\\"" else [value[0]]) + Escape(value[1..])
  }

  function QuoteModsec(value: string): Result<string, ValueError> {
    match QuotedValueError(value)
    case Some(error) => Failure(error)
    case None => Success(Escape(value))
  }

  /**
   How Coraza reads on from an opening quote: a backslash takes the next
   character with it, so backslash-quote is a literal quote and a doubled
   backslash stays two characters; a bare quote ends the argument, and so does
   the end of the line (without a value).
   */
  function Scan(text: string): Option<(string, string)> {
    if text == "" || IsLineBreak(text[0]) then None
    else if text[0] == '"' then Some(("", text[1..]))
    else if text[0] == '\\' then
      if |text| == 1 || IsLineBreak(text[1]) then None
      else Prepend(if text[1] == '"' then "\"" else text[..2], Scan(text[2..]))
    else Prepend(text[..1], Scan(text[1..]))
  }

  function Prepend(s: string, scanned: Option<(string, string)>): Option<(string, string)> {
    match scanned
    case None => None
    case Some((value, rest)) => Some((s + value, rest))
  }

  /** How many backslashes stand directly before position i. */
  function BackslashesBefore(value: string, i: nat): nat
    requires i <= |value|
  {
    if i == 0 || value[i - 1] != '\\' then 0 else 1 + BackslashesBefore(value, i - 1)
  }

  /** Every quote, and the end, is preceded by an even run of backslashes. */
  ghost predicate EvenRuns(value: string) {
    forall i :: 0 <= i <= |value| && (i == |value| || value[i] == '"') ==> BackslashesBefore(value, i) % 2 == 0
  }

  /** The same, the way the scanner meets it: backslashes pair up with what follows. */
  predicate PairsUp(value: string) {
    if value == "" then true
    else if value[0] == '\\' then |value| >= 2 && value[1] != '"' && PairsUp(value[2..])
    else PairsUp(value[1..])
  }

  lemma {:induction false} RunsInSuffix(value: string, k: nat, i: nat)
    requires k <= i <= |value|
    ensures BackslashesBefore(value, i) ==
      BackslashesBefore(value[k..], i - k) +
      if BackslashesBefore(value[k..], i - k) == i - k then BackslashesBefore(value, k) else 0
    decreases i
  {
    if i > k && value[i - 1] == '\\' {
      RunsInSuffix(value, k, i - 1);
    }
  }

  lemma {:induction false} PairsUpIsEvenRuns(value: string)
    ensures PairsUp(value) <==> EvenRuns(value)
    decreases |value|
  {
    if value == "" {
    } else if value[0] != '\\' {
      PairsUpIsEvenRuns(value[1..]);
      SuffixRuns(value, 1);
    } else if |value| == 1 || value[1] == '"' {
      assert BackslashesBefore(value, 1) == 1 + BackslashesBefore(value, 0);
    } else {
      PairsUpIsEvenRuns(value[2..]);
      SuffixRuns(value, 2);
    }
  }

  /** Cutting off a prefix that ends in an even run, without a quote at risk in it, changes nothing. */
  lemma SuffixRuns(value: string, k: nat)
    requires k <= |value| && BackslashesBefore(value, k) % 2 == 0
    requires forall i :: 0 <= i < k && value[i] == '"' ==> BackslashesBefore(value, i) % 2 == 0
    ensures EvenRuns(value) <==> EvenRuns(value[k..])
  {
    var tail := value[k..];
    if EvenRuns(value) {
      forall j | 0 <= j <= |tail| && (j == |tail| || tail[j] == '"')
        ensures BackslashesBefore(tail, j) % 2 == 0
      {
        SameParity(value, k, j + k);
        assert j + k == |value| || value[j + k] == '"';
      }
    }
    if EvenRuns(tail) {
      forall i | 0 <= i <= |value| && (i == |value| || value[i] == '"')
        ensures BackslashesBefore(value, i) % 2 == 0
      {
        if k <= i {
          SameParity(value, k, i);
          assert i - k == |tail| || tail[i - k] == '"';
        }
      }
    }
  }

  lemma SameParity(value: string, k: nat, i: nat)
    requires k <= i <= |value| && BackslashesBefore(value, k) % 2 == 0
    ensures BackslashesBefore(value, i) % 2 == BackslashesBefore(value[k..], i - k) % 2
  {
    RunsInSuffix(value, k, i);
  }

  lemma {:induction false} ScanRecovers(value: string, rest: string)
    requires PairsUp(value) && !HasLineBreak(value)
    ensures Scan(Escape(value) + "\"" + rest) == Some((value, rest))
    decreases |value|
  {
    var text := Escape(value) + "\"" + rest;
    if value == "" {
      assert text == "\"" + rest;
    } else if value[0] == '\\' {
      var tail := value[2..];
      assert Escape(value) == value[..2] + Escape(tail) by {
        assert value[1..][1..] == tail;
        assert Escape(value[1..]) == [value[1]] + Escape(tail);
      }
      assert text == value[..2] + (Escape(tail) + "\"" + rest);
      assert text[..2] == value[..2] && text[2..] == Escape(tail) + "\"" + rest;
      assert text[0] == value[0] && text[1] == value[1];
      assert value == value[..2] + tail;
      hide Escape;
      ScanRecovers(tail, rest);
    } else {
      var tail := value[1..];
      var unit := if value[0] == '"' then "\\\"" else [value[0]];
      assert text == unit + (Escape(tail) + "\"" + rest);
      assert text[|unit|..] == Escape(tail) + "\"" + rest;
      assert value == value[..1] + tail;
      assert value[0] == '"' ==> text[0] == '\\' && text[1] == '"' && value[..1] == "\"";
      assert value[0] != '"' ==> text[..1] == value[..1];
      hide Escape;
      ScanRecovers(tail, rest);
    }
  }

  lemma {:induction false} ScanGoesWrong(value: string)
    requires !PairsUp(value) || HasLineBreak(value)
    ensures var scanned := Scan(Escape(value) + "\""); scanned.None? || scanned.value.1 != ""
    decreases |value|
  {
    var text := Escape(value) + "\"";
    if value[0] == '\\' {
      if |value| == 1 {
        assert value[1..] == "";
        assert Escape(value) == "\\" + "";
        assert text == "\\\"";
      } else {
        var tail := value[2..];
        assert value[1..][1..] == tail;
        if value[1] == '"' {
          assert Escape(value[1..]) == "\\\"" + Escape(tail);
          assert text == "\\\\\"" + (Escape(tail) + "\"");
          assert text[2..] == "\"" + (Escape(tail) + "\"");
        } else {
          assert Escape(value[1..]) == [value[1]] + Escape(tail);
          assert text[..2] == value[..2];
          assert text[2..] == Escape(tail) + "\"";
          if !IsLineBreak(value[1]) {
            ScanGoesWrong(tail);
          }
        }
      }
    } else if !IsLineBreak(value[0]) {
      var tail := value[1..];
      assert text[if value[0] == '"' then 2 else 1..] == Escape(tail) + "\"";
      ScanGoesWrong(tail);
    }
  }

  /**
   When the encoding works: Coraza stops at the closing quote and recovers the
   value, whatever follows, exactly for the values without line breaks whose
   backslash runs before quotes and before the end are all even.
   */
  lemma QuotingRoundTrip(value: string)
    ensures (forall rest: string :: Scan(Escape(value) + "\"" + rest) == Some((value, rest))) <==>
      !HasLineBreak(value) && EvenRuns(value)
  {
    PairsUpIsEvenRuns(value);
    if PairsUp(value) && !HasLineBreak(value) {
      forall rest: string ensures Scan(Escape(value) + "\"" + rest) == Some((value, rest)) {
        ScanRecovers(value, rest);
      }
    } else {
      ScanGoesWrong(value);
      assert Escape(value) + "\"" + "" == Escape(value) + "\"";
    }
  }

  /** Everything `quoted_value_error` accepts is recovered. */
  lemma AcceptedIsRecovered(value: string, rest: string)
    requires QuotedValueError(value).None?
    ensures QuoteModsec(value).Success?
    ensures Scan(QuoteModsec(value).value + "\"" + rest) == Some((value, rest))
  {
    forall i | 0 <= i <= |value| && (i == |value| || value[i] == '"')
      ensures BackslashesBefore(value, i) % 2 == 0
    {
      assert i == 0 || value[i - 1] != '\\';
    }
    PairsUpIsEvenRuns(value);
    ScanRecovers(value, rest);
  }

  /**
   The rejected backslash values are not all lost: one before a quote or at the
   end is lost exactly when its run of backslashes is odd.
   */
  lemma RejectedBackslashes(value: string)
    requires QuotedValueError(value) == Some(TrailingBackslash) || QuotedValueError(value) == Some(BackslashQuote)
    ensures Scan(Escape(value) + "\"") == Some((value, "")) <==> EvenRuns(value)
  {
    PairsUpIsEvenRuns(value);
    if PairsUp(value) {
      ScanRecovers(value, "");
      assert Escape(value) + "\"" + "" == Escape(value) + "\"";
    } else {
      ScanGoesWrong(value);
    }
  }

  /** One backslash at the end or before a quote is lost; two are rejected although they survive. */
  lemma RejectedExamples()
    ensures Scan(Escape("a\\") + "\"") != Some(("a\\", ""))
    ensures Scan(Escape("\\\"") + "\"") != Some(("\\\"", ""))
    ensures QuotedValueError("a\\\\") == Some(TrailingBackslash) && Scan(Escape("a\\\\") + "\"") == Some(("a\\\\", ""))
  {
    ScanGoesWrong("a\\") by { assert "a\\"[1..] == "\\"; }
    ScanGoesWrong("\\\"");
    var v := "a\\\\";
    assert v[1..] == "\\\\" && v[1..][2..] == "";
    ScanRecovers(v, "");
    assert Escape(v) + "\"" + "" == Escape(v) + "\"";
  }
}
