/** `extract_scores`: `re.findall(r"(\d+(?:\.\d+)?)/10", evaluation)` read as floats.
    Any match of this pattern starting at a position is unique, because each digit run in it is
    followed by a non-digit (`.` or `/`), so the regex engine's backtracking can only succeed on
    the maximal runs; the scanner below therefore reads maximal digit runs. */
module Scores {
  import opened Outcomes
  import opened Text

  /** The end of the run of digits that starts at `p`. */
  function DigitRun(s: string, p: nat): (q: nat)
    requires p <= |s|
    ensures p <= q <= |s|
    ensures forall i :: p <= i < q ==> IsDigit(s[i])
    ensures q == |s| || !IsDigit(s[q])
    decreases |s| - p
  {
    if p < |s| && IsDigit(s[p]) then DigitRun(s, p + 1) else p
  }

  /** A digit run is determined by where it starts: any `q` that ends a run of digits from `p` is `DigitRun(s, p)`. */
  lemma {:induction false} DigitRunIsUnique(s: string, p: nat, q: nat)
    requires p <= q <= |s|
    requires forall i :: p <= i < q ==> IsDigit(s[i])
    requires q == |s| || !IsDigit(s[q])
    ensures DigitRun(s, p) == q
    decreases q - p
  {
    if p < q {
      DigitRunIsUnique(s, p + 1, q);
    }
  }

  /** `/10` occurs at position q. */
  predicate SlashTenAt(s: string, q: nat) {
    q + 3 <= |s| && s[q] == '/' && s[q + 1] == '1' && s[q + 2] == '0'
  }

  /** The capture group `\d+(?:\.\d+)?`: digits, optionally followed by a dot and more digits. */
  ghost predicate IsNumeral(a: string) {
    && |a| > 0
    && (|| AllDigits(a)
        || exists d :: 0 < d < |a| - 1 && a[d] == '.' && AllDigits(a[..d]) && AllDigits(a[d + 1..]))
  }

  /** The pattern matches at `p` with its group ending at `e`: `s[p..e]` is a numeral followed by `/10`. */
  ghost predicate IsScoreAt(s: string, p: nat, e: nat) {
    p < e <= |s| && IsNumeral(s[p..e]) && SlashTenAt(s, e)
  }

  /** The match of the pattern starting at `p`, as the end of its numeral, if there is one. */
  function MatchAt(s: string, p: nat): (r: Option<nat>)
    requires p <= |s|
    ensures r.Some? ==> p < r.value && SlashTenAt(s, r.value)
  {
    var k := DigitRun(s, p);
    if k == p then None
    else if k < |s| && s[k] == '.' then
      var m := DigitRun(s, k + 1);
      if m > k + 1 && SlashTenAt(s, m) then Some(m) else None
    else if SlashTenAt(s, k) then Some(k) else None
  }

  /** A match the scanner finds is a match of the pattern. */
  lemma MatchAtIsSound(s: string, p: nat, e: nat)
    requires p <= |s| && MatchAt(s, p) == Some(e)
    ensures IsScoreAt(s, p, e)
  {
    var k := DigitRun(s, p);
    var a := s[p..e];
    if k < |s| && s[k] == '.' {
      var d := k - p;
      assert a[..d] == s[p..k];
      assert a[d + 1..] == s[k + 1..e];
      assert a[d] == '.' && AllDigits(a[..d]) && AllDigits(a[d + 1..]);
    } else {
      assert e == k;
      assert AllDigits(a);
    }
  }

  /** A match of the pattern with a dot in its numeral is found by the scanner. */
  lemma DecimalMatchIsFound(s: string, p: nat, e: nat, d: nat)
    requires p < p + d < e - 1 && SlashTenAt(s, e)
    requires s[p + d] == '.' && AllDigits(s[p..p + d]) && AllDigits(s[p + d + 1..e])
    ensures MatchAt(s, p) == Some(e)
  {
    forall i | p <= i < p + d ensures IsDigit(s[i]) {
      assert s[i] == s[p..p + d][i - p];
    }
    DigitRunIsUnique(s, p, p + d);
    forall i | p + d + 1 <= i < e ensures IsDigit(s[i]) {
      assert s[i] == s[p + d + 1..e][i - (p + d + 1)];
    }
    DigitRunIsUnique(s, p + d + 1, e);
  }

  /** A match of the pattern with a whole-number numeral is found by the scanner. */
  lemma WholeMatchIsFound(s: string, p: nat, e: nat)
    requires p < e && SlashTenAt(s, e) && AllDigits(s[p..e])
    ensures MatchAt(s, p) == Some(e)
  {
    forall i | p <= i < e ensures IsDigit(s[i]) {
      assert s[i] == s[p..e][i - p];
    }
    DigitRunIsUnique(s, p, e);
  }

  /** The scanner agrees with the pattern in both directions: it finds a match at `p` exactly
      when the pattern matches there, and reports where its numeral ends. */
  lemma MatchAtIsThePattern(s: string, p: nat, e: nat)
    requires p <= |s|
    ensures MatchAt(s, p) == Some(e) <==> IsScoreAt(s, p, e)
  {
    if MatchAt(s, p) == Some(e) {
      MatchAtIsSound(s, p, e);
    }
    if IsScoreAt(s, p, e) {
      var a := s[p..e];
      if AllDigits(a) {
        WholeMatchIsFound(s, p, e);
      } else {
        var d :| 0 < d < |a| - 1 && a[d] == '.' && AllDigits(a[..d]) && AllDigits(a[d + 1..]);
        assert a[..d] == s[p..p + d] && a[d + 1..] == s[p + d + 1..e];
        DecimalMatchIsFound(s, p, e, d);
      }
    }
  }

  /** One match: the group is `s[start..numEnd]` and the whole match ends at `numEnd + 3`. */
  datatype Token = Token(start: nat, numEnd: nat)

  /** Whether position q is the start of a token or lies inside one. */
  ghost predicate Consumed(tokens: seq<Token>, q: nat) {
    exists k :: 0 <= k < |tokens| && tokens[k].start <= q < tokens[k].numEnd + 3
  }

  /** `re.findall` from position `p`: try a match at each position; after a match, resume
      right after it. */
  function Scan(s: string, p: nat): (tokens: seq<Token>)
    requires p <= |s|
    ensures forall k :: 0 <= k < |tokens| ==>
              p <= tokens[k].start <= |s| && MatchAt(s, tokens[k].start) == Some(tokens[k].numEnd)
    ensures forall k :: 0 <= k < |tokens| - 1 ==> tokens[k].numEnd + 3 <= tokens[k + 1].start
    decreases |s| - p
  {
    if p == |s| then []
    else
      match MatchAt(s, p)
      case None => Scan(s, p + 1)
      case Some(e) =>
        var rest := Scan(s, e + 3);
        var tokens := [Token(p, e)] + rest;
        assert forall k :: 0 < k < |tokens| ==> tokens[k] == rest[k - 1];
        tokens
  }

  /** A match of the pattern starts at `q`. */
  predicate MatchStarts(s: string, q: nat) {
    q <= |s| && MatchAt(s, q).Some?
  }

  /** The scan from `p` misses no match: every later position where a match starts is consumed. */
  lemma {:induction false} ScanCoversMatches(s: string, p: nat)
    requires p <= |s|
    ensures forall q :: p <= q && MatchStarts(s, q) ==> Consumed(Scan(s, p), q)
    decreases |s| - p
  {
    if p < |s| {
      match MatchAt(s, p)
      case None =>
        ScanCoversMatches(s, p + 1);
        var tokens := Scan(s, p + 1);
        assert Scan(s, p) == tokens;
        forall q | p <= q && MatchStarts(s, q) ensures Consumed(tokens, q) {
          assert q != p;
        }
      case Some(e) =>
        ScanCoversMatches(s, e + 3);
        var rest := Scan(s, e + 3);
        assert Scan(s, p) == [Token(p, e)] + rest;
        ConsumedAfterMatch(s, p, e, rest);
    }
  }

  /** After a match from `p` to `e`, every later match position is consumed by that match or by
      the tokens found from `e + 3` on. */
  lemma ConsumedAfterMatch(s: string, p: nat, e: nat, rest: seq<Token>)
    requires p < e && e + 3 <= |s|
    requires forall q :: e + 3 <= q && MatchStarts(s, q) ==> Consumed(rest, q)
    ensures forall q :: p <= q && MatchStarts(s, q) ==> Consumed([Token(p, e)] + rest, q)
  {
    var tokens := [Token(p, e)] + rest;
    forall q | p <= q && MatchStarts(s, q) ensures Consumed(tokens, q) {
      if q < e + 3 {
        assert tokens[0].start <= q < tokens[0].numEnd + 3;
      } else {
        var k :| 0 <= k < |rest| && rest[k].start <= q < rest[k].numEnd + 3;
        assert tokens[k + 1] == rest[k];
      }
    }
  }

  function Pow10(n: nat): (r: nat)
    ensures r > 0
  {
    if n == 0 then 1 else 10 * Pow10(n - 1)
  }

  lemma QuotientNonNegative(x: real, d: real)
    requires x >= 0.0 && d > 0.0
    ensures x / d >= 0.0
  {
  }

  /** A match is a digit run, then either its end or a point and a second digit run. */
  lemma MatchShape(s: string, p: nat, e: nat)
    requires p <= |s| && MatchAt(s, p) == Some(e)
    ensures var k := DigitRun(s, p);
            && p < k <= e <= |s| && AllDigits(s[p..k])
            && (k < e ==> s[k] == '.' && AllDigits(s[k + 1..e]))
  {
    var k := DigitRun(s, p);
    if k < e {
      assert e == DigitRun(s, k + 1);
    }
  }

  /** `v` shifted left by the places of `d` reads `n`. */
  predicate Shifted(v: real, d: nat, n: nat) {
    v * d as real == n as real
  }

  lemma ScaledFraction(v: real, w: nat, f: nat, d: nat, n: nat)
    requires d > 0 && n == w * d + f && v == w as real + f as real / d as real
    ensures Shifted(v, d, n)
  {
  }

  lemma ShiftStep(x: nat, y: nat, d: nat, q: nat)
    ensures 10 * (x * q + y) + d == x * (10 * q) + (10 * y + d)
  {
  }

  /** Reading digits `a` followed by digits `b` is reading `a`, shifted by `|b|` places, plus `b`. */
  lemma {:induction false} ParseNatAppend(a: string, b: string)
    requires AllDigits(a) && AllDigits(b)
    ensures AllDigits(a + b)
    ensures ParseNat(a + b) == ParseNat(a) * Pow10(|b|) + ParseNat(b)
  {
    if |b| == 0 {
      assert a + b == a;
    } else {
      var front := b[..|b| - 1];
      var last := b[|b| - 1];
      assert AllDigits(front);
      assert a + b == (a + front) + [last];
      ParseNatAppend(a, front);
      assert AllDigits(a + b) by {
        assert forall i :: 0 <= i < |a + front| ==> (a + b)[i] == (a + front)[i];
      }
      assert (a + b)[..|a + b| - 1] == a + front;
      ShiftStep(ParseNat(a), ParseNat(front), (last - '0') as nat, Pow10(|front|));
    }
  }

  /** `float(match)`: the integer part plus the fraction digits over the matching power of ten. */
  function NumeralValue(s: string, p: nat, e: nat): (v: real)
    requires p <= |s| && MatchAt(s, p) == Some(e)
    ensures v >= 0.0
  {
    var k := DigitRun(s, p);
    MatchShape(s, p, e);
    var whole := s[p..k];
    if k < e then
      var digits := s[k + 1..e];
      var scale := Pow10(e - k - 1);
      QuotientNonNegative(ParseNat(digits) as real, scale as real);
      ParseNat(whole) as real + ParseNat(digits) as real / scale as real
    else
      ParseNat(whole) as real
  }

  /** `float` reads the numeral in decimal: with the point removed, its digits read as a whole
      number are the value shifted by as many places as there are fraction digits. */
  lemma NumeralValueIsDecimal(s: string, p: nat, e: nat)
    requires p <= |s| && MatchAt(s, p) == Some(e)
    ensures p < DigitRun(s, p) <= e <= |s|
    ensures DigitRun(s, p) == e ==> AllDigits(s[p..e]) && NumeralValue(s, p, e) == ParseNat(s[p..e]) as real
    ensures var k := DigitRun(s, p);
            k < e ==> s[k] == '.' && AllDigits(s[p..k] + s[k + 1..e]) &&
                      Shifted(NumeralValue(s, p, e), Pow10(e - k - 1), ParseNat(s[p..k] + s[k + 1..e]))
  {
    var k := DigitRun(s, p);
    MatchShape(s, p, e);
    if k < e {
      var whole := s[p..k];
      var digits := s[k + 1..e];
      var scale := Pow10(e - k - 1);
      ParseNatAppend(whole, digits);
      var v := NumeralValue(s, p, e);
      assert v == ParseNat(whole) as real + ParseNat(digits) as real / scale as real;
      ScaledFraction(v, ParseNat(whole), ParseNat(digits), scale, ParseNat(whole + digits));
    }
  }

  function Values(s: string, tokens: seq<Token>): (values: seq<real>)
    requires forall k :: 0 <= k < |tokens| ==>
               tokens[k].start <= |s| && MatchAt(s, tokens[k].start) == Some(tokens[k].numEnd)
    ensures |values| == |tokens|
    ensures forall k :: 0 <= k < |tokens| ==> values[k] == NumeralValue(s, tokens[k].start, tokens[k].numEnd)
  {
    if |tokens| == 0 then [] else [NumeralValue(s, tokens[0].start, tokens[0].numEnd)] + Values(s, tokens[1..])
  }

  /** `extract_scores`: the values of all matches, left to right. */
  function ExtractScores(evaluation: string): (scores: seq<real>)
    ensures |scores| == |Scan(evaluation, 0)|
    ensures forall k :: 0 <= k < |scores| ==> scores[k] >= 0.0
  {
    Values(evaluation, Scan(evaluation, 0))
  }

  /** Every match the scanner reports is a match of the pattern, and matches come left to
      right without overlapping. */
  lemma ScanIsSound(s: string)
    ensures forall k :: 0 <= k < |Scan(s, 0)| ==> IsScoreAt(s, Scan(s, 0)[k].start, Scan(s, 0)[k].numEnd)
    ensures forall k :: 0 <= k < |Scan(s, 0)| - 1 ==> Scan(s, 0)[k].numEnd + 3 <= Scan(s, 0)[k + 1].start
  {
    var tokens := Scan(s, 0);
    forall k | 0 <= k < |tokens| ensures IsScoreAt(s, tokens[k].start, tokens[k].numEnd) {
      MatchAtIsThePattern(s, tokens[k].start, tokens[k].numEnd);
    }
  }

  /** Every place where the pattern matches is the start of a reported match or lies inside one:
      no match is missed except the ones an earlier match has consumed. */
  lemma ScanIsComplete(s: string, q: nat, e: nat)
    requires IsScoreAt(s, q, e)
    ensures Consumed(Scan(s, 0), q)
  {
    MatchAtIsThePattern(s, q, e);
    ScanCoversMatches(s, 0);
  }

  /** A text in which `/10` never occurs has no scores. */
  lemma NoSlashTenNoScores(evaluation: string)
    requires forall q :: 0 <= q <= |evaluation| ==> !SlashTenAt(evaluation, q)
    ensures ExtractScores(evaluation) == []
  {
  }

  /** The text of the two-score example below. */
  const TwoScoreText: string := ['8', '/', '1', '0', ' ', '7', '.', '5', '/', '1', '0']

  lemma TwoScoreMatches()
    ensures MatchAt(TwoScoreText, 0) == Some(1)
    ensures MatchAt(TwoScoreText, 4) == None
    ensures MatchAt(TwoScoreText, 5) == Some(8)
  {
    var s := TwoScoreText;
    assert DigitRun(s, 1) == 1;
    assert DigitRun(s, 0) == 1;
    assert DigitRun(s, 4) == 4;
    assert DigitRun(s, 6) == 6;
    assert DigitRun(s, 5) == 6;
    assert DigitRun(s, 8) == 8;
    assert DigitRun(s, 7) == 8;
  }

  lemma TwoScoreTokens()
    ensures Scan(TwoScoreText, 0) == [Token(0, 1), Token(5, 8)]
  {
    var s := TwoScoreText;
    TwoScoreMatches();
    assert Scan(s, 11) == [];
    assert Scan(s, 5) == [Token(5, 8)];
    assert Scan(s, 4) == [Token(5, 8)];
  }

  lemma TwoScoreValues()
    ensures MatchAt(TwoScoreText, 0) == Some(1) && NumeralValue(TwoScoreText, 0, 1) == 8.0
    ensures MatchAt(TwoScoreText, 5) == Some(8) && NumeralValue(TwoScoreText, 5, 8) == 7.5
  {
    var s := TwoScoreText;
    TwoScoreMatches();
    assert DigitRun(s, 1) == 1 && DigitRun(s, 0) == 1;
    assert DigitRun(s, 6) == 6 && DigitRun(s, 5) == 6;
    assert s[0..1] == ['8'];
    assert s[5..6] == ['7'];
    assert s[7..8] == ['5'];
    assert ParseNat(['8']) == 8 && ParseNat(['7']) == 7 && ParseNat(['5']) == 5;
    assert Pow10(1) == 10;
  }

  /** Two scores, a whole and a decimal one, read in order. */
  lemma TwoScores()
    ensures ExtractScores("8/10 7.5/10") == [8.0, 7.5]
  {
    assert TwoScoreText == "8/10 7.5/10";
    TwoScoreTokens();
    TwoScoreValues();
  }
}
