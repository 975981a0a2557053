/** The handful of Python string operations the modelled code relies on: `str.strip`,
    `" ".join`, `str.startswith`, the module-name normalisation `lower().replace(" ", "_")`,
    and decimal rendering / parsing of natural numbers. */
module Text {

  /** Python's `str.isspace` for a single character (the characters `str.strip()` removes). */
  predicate IsSpace(c: char) {
    || c == ' '
    || ('\U{9}' <= c <= '\U{D}')
    || ('\U{1C}' <= c <= '\U{1F}')
    || c == '\U{85}' || c == '\U{A0}' || c == '\U{1680}'
    || ('\U{2000}' <= c <= '\U{200A}')
    || c == '\U{2028}' || c == '\U{2029}' || c == '\U{202F}' || c == '\U{205F}' || c == '\U{3000}'
  }

  predicate AllSpace(s: string) {
    forall i :: 0 <= i < |s| ==> IsSpace(s[i])
  }

  /** Neither end of `s` is whitespace: what `strip()` guarantees of its result. */
  predicate Trimmed(s: string) {
    s == [] || (!IsSpace(s[0]) && !IsSpace(s[|s| - 1]))
  }

  /** The first index at or after `i` that is not whitespace (or `|s|`): where `strip()` starts. */
  function SpaceEndFrom(s: string, i: nat): (r: nat)
    requires i <= |s|
    ensures i <= r <= |s|
    ensures forall k :: i <= k < r ==> IsSpace(s[k])
    ensures r == |s| || !IsSpace(s[r])
    decreases |s| - i
  {
    if i < |s| && IsSpace(s[i]) then SpaceEndFrom(s, i + 1) else i
  }

  /** The last index at or before `j`, and not below `lo`, that follows a non-space (or `lo`):
      where `strip()` ends. */
  function SpaceStartBefore(s: string, lo: nat, j: nat): (r: nat)
    requires lo <= j <= |s|
    ensures lo <= r <= j
    ensures forall k :: r <= k < j ==> IsSpace(s[k])
    ensures r == lo || !IsSpace(s[r - 1])
    decreases j
  {
    if j > lo && IsSpace(s[j - 1]) then SpaceStartBefore(s, lo, j - 1) else j
  }

  /** `s.strip()`: the infix of `s` between its leading and its trailing whitespace. */
  function Strip(s: string): (r: string)
    ensures |r| <= |s|
    ensures Trimmed(r)
  {
    var i := SpaceEndFrom(s, 0);
    var j := SpaceStartBefore(s, i, |s|);
    assert i < j ==> s[i..j][0] == s[i] && s[i..j][j - i - 1] == s[j - 1];
    s[i..j]
  }

  /** A string is stripped to nothing exactly when it is all whitespace. */
  lemma StripEmptyIffBlank(s: string)
    ensures Strip(s) == [] <==> AllSpace(s)
  {
    var i := SpaceEndFrom(s, 0);
    var j := SpaceStartBefore(s, i, |s|);
    assert Strip(s) == s[i..j];
    if AllSpace(s) {
      assert i == |s|;
    }
  }

  /** `strip()` keeps an infix of `s` and removes only whitespace around it. */
  lemma StripRemovesOuterSpace(s: string)
    ensures exists i, j :: 0 <= i <= j <= |s| && Strip(s) == s[i..j] && AllSpace(s[..i]) && AllSpace(s[j..])
  {
    var i := SpaceEndFrom(s, 0);
    var j := SpaceStartBefore(s, i, |s|);
    assert Strip(s) == s[i..j];
    assert forall k :: 0 <= k < i ==> s[..i][k] == s[k];
    assert forall k :: 0 <= k < |s| - j ==> s[j..][k] == s[j + k];
    assert AllSpace(s[..i]) && AllSpace(s[j..]);
  }

  /** Conversely, whitespace around a trimmed middle is exactly what `strip()` removes. */
  lemma StripOfPadded(a: string, r: string, b: string)
    requires AllSpace(a) && AllSpace(b) && Trimmed(r)
    ensures Strip(a + r + b) == r
  {
    var s := a + r + b;
    if r == [] {
      assert forall k :: 0 <= k < |s| ==> s[k] == if k < |a| then a[k] else b[k - |a|];
      StripEmptyIffBlank(s);
    } else {
      var i := SpaceEndFrom(s, 0);
      assert s[|a|] == r[0];
      assert forall k :: 0 <= k < |a| ==> s[k] == a[k];
      assert i == |a|;
      var j := SpaceStartBefore(s, i, |s|);
      assert s[|a| + |r| - 1] == r[|r| - 1];
      assert forall k :: |a| + |r| <= k < |s| ==> s[k] == b[k - |a| - |r|];
      assert j == |a| + |r|;
      assert s[i..j] == r;
    }
  }

  /** Stripping a string that has no whitespace at either end changes nothing. */
  lemma StripTrimmed(s: string)
    requires Trimmed(s)
    ensures Strip(s) == s
  {
    assert SpaceEndFrom(s, 0) == 0;
    assert SpaceStartBefore(s, 0, |s|) == |s|;
    assert s[0..|s|] == s;
  }

  /** `strip()` is idempotent. */
  lemma StripIdempotent(s: string)
    ensures Strip(Strip(s)) == Strip(s)
  {
    StripTrimmed(Strip(s));
  }

  /** `sep.join(parts)`. */
  function Join(parts: seq<string>, sep: string): (r: string)
    ensures |parts| == 0 ==> r == []
    ensures |parts| > 0 ==> parts[0] <= r
  {
    if |parts| == 0 then []
    else if |parts| == 1 then parts[0]
    else parts[0] + sep + Join(parts[1..], sep)
  }

  /** Joining one more part at the end adds the separator and the part: Python's left-to-right join. */
  lemma {:induction false} JoinSnoc(parts: seq<string>, x: string, sep: string)
    requires |parts| > 0
    ensures Join(parts + [x], sep) == Join(parts, sep) + sep + x
  {
    if |parts| == 1 {
      assert parts + [x] == [parts[0], x];
    } else {
      assert (parts + [x])[1..] == parts[1..] + [x];
      JoinSnoc(parts[1..], x, sep);
    }
  }

  /** Non-empty stripped parts joined by a space give a non-empty stripped string
      whose last character is the last part's last character. */
  lemma {:induction false} JoinTrimmed(parts: seq<string>)
    requires forall k :: 0 <= k < |parts| ==> parts[k] != [] && Trimmed(parts[k])
    ensures Trimmed(Join(parts, " "))
    ensures Join(parts, " ") == [] <==> parts == []
    ensures |parts| > 0 ==> Join(parts, " ")[|Join(parts, " ")| - 1] == parts[|parts| - 1][|parts[|parts| - 1]| - 1]
  {
    if |parts| > 1 {
      JoinTrimmed(parts[1..]);
      var rest := Join(parts[1..], " ");
      var r := parts[0] + " " + rest;
      assert r[0] == parts[0][0];
      assert r[|r| - 1] == rest[|rest| - 1];
    }
  }

  /** `s.startswith(prefix)`. */
  predicate StartsWith(s: string, prefix: string) {
    |prefix| <= |s| && s[..|prefix|] == prefix
  }

  /** `str.lower()` on one character, for the ASCII letters. */
  function Lower(c: char): (r: char)
    ensures 'A' <= c <= 'Z' ==> 'a' <= r <= 'z' && r as int - 'a' as int == c as int - 'A' as int
    ensures !('A' <= c <= 'Z') ==> r == c
  {
    if 'A' <= c <= 'Z' then (c - 'A' + 'a') as char else c
  }

  /** `module.lower().replace(" ", "_")`: the key a module's display name is stored under. */
  function ModuleKey(name: string): (key: string)
    ensures |key| == |name|
    ensures forall i :: 0 <= i < |name| ==> key[i] == (if name[i] == ' ' then '_' else Lower(name[i]))
  {
    if |name| == 0 then []
    else [if name[0] == ' ' then '_' else Lower(name[0])] + ModuleKey(name[1..])
  }

  /** A normalised key has no spaces and no ASCII capitals, so normalising it again changes nothing. */
  lemma ModuleKeyIdempotent(name: string)
    ensures forall i :: 0 <= i < |name| ==> ModuleKey(name)[i] != ' ' && !('A' <= ModuleKey(name)[i] <= 'Z')
    ensures ModuleKey(ModuleKey(name)) == ModuleKey(name)
  {
    var key := ModuleKey(name);
    var twice := ModuleKey(key);
    forall i | 0 <= i < |name| ensures twice[i] == key[i] {
      assert key[i] != ' ' && !('A' <= key[i] <= 'Z');
    }
  }

  predicate IsDigit(c: char) {
    '0' <= c <= '9'
  }

  predicate AllDigits(s: string) {
    forall i :: 0 <= i < |s| ==> IsDigit(s[i])
  }

  /** Python's `str(n)` for a natural number. */
  function NatToString(n: nat): (s: string)
    ensures |s| > 0 && AllDigits(s)
    ensures s[0] == '0' ==> n == 0
  {
    if n < 10 then ['0' + n as char]
    else NatToString(n / 10) + ['0' + (n % 10) as char]
  }

  /** The value of a string of decimal digits, as `int(s)` computes it. */
  function ParseNat(s: string): nat
    requires AllDigits(s)
  {
    if |s| == 0 then 0 else 10 * ParseNat(s[..|s| - 1]) + (s[|s| - 1] - '0') as nat
  }

  /** Reading back a rendered number gives the number: the decimal form is injective. */
  lemma {:induction false} ParseNatToString(n: nat)
    ensures ParseNat(NatToString(n)) == n
  {
    if n >= 10 {
      var s := NatToString(n);
      assert s[..|s| - 1] == NatToString(n / 10);
      ParseNatToString(n / 10);
    }
  }

  lemma NatToStringInjective(m: nat, n: nat)
    requires NatToString(m) == NatToString(n)
    ensures m == n
  {
    ParseNatToString(m);
    ParseNatToString(n);
  }
}
