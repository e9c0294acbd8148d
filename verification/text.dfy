/** Character classes and the string helpers of the Rust and JavaScript standard
    libraries that the feed pipeline relies on: trimming, prefixes and suffixes,
    splitting and joining on a separator, and decimal rendering. */
module Text {
  import opened Wrappers

  /** Rust's `char::is_whitespace`, i.e. the Unicode White_Space property. */
  predicate IsRustSpace(c: char) {
    || ('\t' <= c <= '\r') || c == ' ' || c == '\U{85}' || c == '\U{A0}' || c == '\U{1680}'
    || ('\U{2000}' <= c <= '\U{200A}') || c == '\U{2028}' || c == '\U{2029}'
    || c == '\U{202F}' || c == '\U{205F}' || c == '\U{3000}'
  }

  /** The characters JavaScript's `String.prototype.trim` removes: WhiteSpace
      (which includes U+FEFF but not U+0085) and LineTerminator. */
  predicate IsJsSpace(c: char) {
    || ('\t' <= c <= '\r') || c == ' ' || c == '\U{A0}' || c == '\U{FEFF}' || c == '\U{1680}'
    || ('\U{2000}' <= c <= '\U{200A}') || c == '\U{2028}' || c == '\U{2029}'
    || c == '\U{202F}' || c == '\U{205F}' || c == '\U{3000}'
  }

  /** `s` has no removable character at either end. */
  predicate IsTrimmed(s: string, space: char -> bool) {
    s == [] || (!space(s[0]) && !space(s[|s| - 1]))
  }

  /** The first index at or after `i` that does not hold a `space` character. */
  function SkipForward(s: string, space: char -> bool, i: nat): (a: nat)
    requires i <= |s|
    ensures i <= a <= |s|
    ensures forall j :: i <= j < a ==> space(s[j])
    ensures a == |s| || !space(s[a])
    decreases |s| - i
  {
    if i < |s| && space(s[i]) then SkipForward(s, space, i + 1) else i
  }

  /** The least `b` between `lo` and `j` such that `s[b..j]` is all `space`
      characters. */
  function SkipBackward(s: string, space: char -> bool, lo: nat, j: nat): (b: nat)
    requires lo <= j <= |s|
    ensures lo <= b <= j
    ensures forall k :: b <= k < j ==> space(s[k])
    ensures b == lo || !space(s[b - 1])
    decreases j
  {
    if lo < j && space(s[j - 1]) then SkipBackward(s, space, lo, j - 1) else j
  }

  /** Drops the longest prefix made of `space` characters (`trim_start`). */
  function TrimStart(s: string, space: char -> bool): (r: string)
    ensures |r| <= |s| && r == s[|s| - |r|..]
    ensures forall i :: 0 <= i < |s| - |r| ==> space(s[i])
    ensures r == [] || !space(r[0])
  {
    s[SkipForward(s, space, 0)..]
  }

  /** Drops whitespace at both ends (`str::trim`, `String.prototype.trim`): what is
      left is the slice between the first and after the last non-whitespace
      character. */
  function Trim(s: string, space: char -> bool): (r: string)
    ensures IsTrimmed(r, space)
    ensures var k := SkipForward(s, space, 0);
      && k + |r| <= |s| && r == s[k..k + |r|]
      && (forall i :: 0 <= i < k ==> space(s[i]))
      && (forall i :: k + |r| <= i < |s| ==> space(s[i]))
  {
    var k := SkipForward(s, space, 0);
    s[k..SkipBackward(s, space, k, |s|)]
  }

  /** Trimming is the identity exactly on trimmed strings, hence idempotent. */
  lemma TrimFixedPoint(s: string, space: char -> bool)
    ensures Trim(s, space) == s <==> IsTrimmed(s, space)
  {
    if IsTrimmed(s, space) && |s| > 0 {
      assert SkipForward(s, space, 0) == 0;
      assert SkipBackward(s, space, 0, |s|) == |s|;
    }
  }

  /** Trimming leaves nothing exactly when every character is whitespace. */
  lemma TrimEmptyIffBlank(s: string, space: char -> bool)
    ensures Trim(s, space) == [] <==> forall i :: 0 <= i < |s| ==> space(s[i])
  {
    if Trim(s, space) != [] {
      assert !space(s[SkipForward(s, space, 0)]);
    }
  }

  predicate StartsWith(s: string, prefix: string) {
    |prefix| <= |s| && s[..|prefix|] == prefix
  }

  predicate EndsWith(s: string, suffix: string) {
    |suffix| <= |s| && s[|s| - |suffix|..] == suffix
  }

  /** `str::strip_prefix`. */
  function StripPrefix(s: string, prefix: string): (r: Option<string>)
    ensures r.Some? <==> StartsWith(s, prefix)
    ensures r.Some? ==> prefix + r.value == s
  {
    if StartsWith(s, prefix) then
      assert prefix + s[|prefix|..] == s;
      Some(s[|prefix|..])
    else None
  }

  lemma StripPrefixOf(p: string, t: string)
    ensures StripPrefix(p + t, p) == Some(t)
  {
    assert (p + t)[..|p|] == p;
    assert (p + t)[|p|..] == t;
  }

  /** `str::strip_suffix`. */
  function StripSuffix(s: string, suffix: string): (r: Option<string>)
    ensures r.Some? <==> EndsWith(s, suffix)
    ensures r.Some? ==> r.value + suffix == s
  {
    if EndsWith(s, suffix) then
      assert s[..|s| - |suffix|] + suffix == s;
      Some(s[..|s| - |suffix|])
    else None
  }

  /** `str::split(sep)`: the pieces between separators; always at least one piece,
      and the empty string splits into one empty piece. */
  function Split(s: string, sep: char): (r: seq<string>)
    ensures |r| >= 1
    ensures forall i :: 0 <= i < |r| ==> sep !in r[i]
    decreases |s|
  {
    if |s| == 0 then [[]]
    else
      var rest := Split(s[1..], sep);
      if s[0] == sep then [[]] + rest else [[s[0]] + rest[0]] + rest[1..]
  }

  /** `slice.join(sep)` / `Array.prototype.join(sep)`. */
  function Join(parts: seq<string>, sep: string): string
    decreases |parts|
  {
    if |parts| == 0 then []
    else if |parts| == 1 then parts[0]
    else parts[0] + sep + Join(parts[1..], sep)
  }

  /** Splitting undoes joining whenever no piece contains the separator. */
  lemma {:induction false} SplitJoin(parts: seq<string>, sep: char)
    requires |parts| >= 1
    requires forall i :: 0 <= i < |parts| ==> sep !in parts[i]
    ensures Split(Join(parts, [sep]), sep) == parts
    decreases |parts|, |parts[0]|
  {
    if |parts[0]| == 0 {
      if |parts| == 1 {
        assert Join(parts, [sep]) == [];
      } else {
        var tail := Join(parts[1..], [sep]);
        assert Join(parts, [sep]) == [sep] + tail;
        assert ([sep] + tail)[1..] == tail;
        SplitJoin(parts[1..], sep);
      }
    } else {
      var c := parts[0][0];
      var shorter := [parts[0][1..]] + parts[1..];
      assert shorter[1..] == parts[1..];
      assert forall i :: 0 <= i < |shorter| ==> sep !in shorter[i] by {
        assert forall x :: x in parts[0][1..] ==> x in parts[0];
      }
      SplitJoin(shorter, sep);
      var j := Join(parts, [sep]);
      JoinFirstChar(parts, sep);
      assert j[1..] == Join(shorter, [sep]);
      assert c != sep by { assert c in parts[0]; }
      assert Split(j, sep) == [[c] + shorter[0]] + shorter[1..];
      assert [c] + shorter[0] == parts[0];
      assert [parts[0]] + parts[1..] == parts;
    }
  }

  /** Joining peels off the first character of a non-empty first part. */
  lemma JoinFirstChar(parts: seq<string>, sep: char)
    requires |parts| >= 1 && |parts[0]| > 0
    ensures Join(parts, [sep]) == [parts[0][0]] + Join([parts[0][1..]] + parts[1..], [sep])
  {
    var c, head, tail := parts[0][0], parts[0][1..], parts[1..];
    assert parts[0] == [c] + head;
    assert parts == [[c] + head] + tail;
    JoinCons(c, head, tail, [sep]);
  }

  /** A character in front of the first part comes out in front of the join. */
  lemma JoinCons(c: char, head: string, tail: seq<string>, sep: string)
    ensures Join([[c] + head] + tail, sep) == [c] + Join([head] + tail, sep)
  {
    var long, short := [[c] + head] + tail, [head] + tail;
    assert long[1..] == tail && short[1..] == tail;
    if |tail| > 0 {
      var rest := Join(tail, sep);
      assert Join(long, sep) == ([c] + head) + sep + rest;
      assert Join(short, sep) == head + sep + rest;
    }
  }

  /** Joining undoes splitting. */
  lemma {:induction false} JoinSplit(s: string, sep: char)
    ensures Join(Split(s, sep), [sep]) == s
    decreases |s|
  {
    if |s| > 0 {
      var rest := Split(s[1..], sep);
      JoinSplit(s[1..], sep);
      if s[0] == sep {
        assert Split(s, sep) == [[]] + rest;
        assert ([[]] + rest)[1..] == rest;
        assert Join([[]] + rest, [sep]) == [sep] + Join(rest, [sep]);
        assert s == [s[0]] + s[1..];
      } else {
        var parts := [[s[0]] + rest[0]] + rest[1..];
        assert parts[1..] == rest[1..];
        if |rest| == 1 {
          assert Join(parts, [sep]) == [s[0]] + rest[0];
          assert Join(rest, [sep]) == rest[0];
        } else {
          assert Join(parts, [sep]) == [s[0]] + rest[0] + [sep] + Join(rest[1..], [sep]);
          assert Join(rest, [sep]) == rest[0] + [sep] + Join(rest[1..], [sep]);
        }
        assert s == [s[0]] + s[1..];
      }
    }
  }

  predicate IsDigit(c: char) {
    '0' <= c <= '9'
  }

  predicate AllDigits(s: string) {
    forall i :: 0 <= i < |s| ==> IsDigit(s[i])
  }

  function DigitChar(d: nat): (c: char)
    requires d < 10
    ensures IsDigit(c)
  {
    ('0' as int + d) as char
  }

  /** The value of a string of decimal digits (most significant first). */
  function DigitsValue(s: string): nat
    requires AllDigits(s)
    decreases |s|
  {
    if |s| == 0 then 0
    else DigitsValue(s[..|s| - 1]) * 10 + ((s[|s| - 1] as int) - ('0' as int))
  }

  /** Rust/JavaScript rendering of a non-negative integer: shortest decimal form. */
  function Decimal(n: nat): (r: string)
    ensures |r| >= 1 && AllDigits(r)
    ensures r[0] == '0' ==> n == 0
    ensures DigitsValue(r) == n
    decreases n
  {
    if n < 10 then [DigitChar(n)]
    else
      var r := Decimal(n / 10) + [DigitChar(n % 10)];
      assert r[..|r| - 1] == Decimal(n / 10);
      r
  }

  /** Ten to the power `k`. */
  function Pow10(k: nat): (r: nat)
    ensures r >= 1
  {
    if k == 0 then 1 else 10 * Pow10(k - 1)
  }

  /** A number below `10^w` has at most `w` decimal digits. */
  lemma {:induction false} DecimalFits(n: nat, w: nat)
    requires 1 <= w && n < Pow10(w)
    ensures |Decimal(n)| <= w
    decreases n
  {
    if n >= 10 {
      assert Pow10(1) == 10;
      DecimalFits(n / 10, w - 1);
    }
  }

  /** `n` in exactly `width` zero-padded decimal digits (`{:0width}`). */
  function Padded(n: nat, width: nat): (r: string)
    requires 1 <= width && n < Pow10(width)
    ensures |r| == width && AllDigits(r) && DigitsValue(r) == n
  {
    DecimalFits(n, width);
    ZeroPadValue(Decimal(n), width);
    ZeroPad(Decimal(n), width)
  }

  /** `n` zero digits. */
  function Zeros(n: nat): (r: string)
    ensures |r| == n && forall i :: 0 <= i < n ==> r[i] == '0'
  {
    seq(n, _ => '0')
  }

  /** Left-pads with zeros to at least `width` characters (`{:0width}`). */
  function ZeroPad(s: string, width: nat): (r: string)
    ensures |r| == if |s| < width then width else |s|
    ensures r[|r| - |s|..] == s
    ensures forall i :: 0 <= i < |r| - |s| ==> r[i] == '0'
  {
    (if |s| < width then Zeros(width - |s|) else []) + s
  }

  /** Zero padding does not change the value of a digit string. */
  lemma ZeroPadValue(s: string, width: nat)
    requires AllDigits(s)
    ensures AllDigits(ZeroPad(s, width))
    ensures DigitsValue(ZeroPad(s, width)) == DigitsValue(s)
  {
    if |s| < width {
      ZerosValue(width - |s|, s);
    }
  }

  /** Leading zeros do not change the value of a digit string. */
  lemma {:induction false} ZerosValue(n: nat, s: string)
    requires AllDigits(s)
    ensures AllDigits(Zeros(n) + s)
    ensures DigitsValue(Zeros(n) + s) == DigitsValue(s)
  {
    if n > 0 {
      ZerosValue(n - 1, s);
      assert Zeros(n) + s == ['0'] + (Zeros(n - 1) + s);
      LeadingZeroValue(Zeros(n - 1) + s);
    } else {
      assert Zeros(n) + s == s;
    }
  }

  lemma {:induction false} LeadingZeroValue(s: string)
    requires AllDigits(s)
    ensures AllDigits(['0'] + s)
    ensures DigitsValue(['0'] + s) == DigitsValue(s)
    decreases |s|
  {
    if |s| > 0 {
      var t := ['0'] + s;
      assert t[..|t| - 1] == ['0'] + s[..|s| - 1];
      LeadingZeroValue(s[..|s| - 1]);
    }
  }

  /** The `n` characters from index `i` are decimal digits. */
  predicate DigitsAt(s: string, i: nat, n: nat) {
    i + n <= |s| && forall j :: i <= j < i + n ==> IsDigit(s[j])
  }

  /** The value of one decimal digit. */
  function DigitValue(c: char): int {
    c as int - '0' as int
  }

  /** The value of the two digits at `i` and `i + 1`. */
  function Value2(s: string, i: nat): int
    requires i + 2 <= |s|
  {
    DigitValue(s[i]) * 10 + DigitValue(s[i + 1])
  }

  /** The value of the four digits from `i` to `i + 3`. */
  function Value4(s: string, i: nat): int
    requires i + 4 <= |s|
  {
    Value2(s, i) * 100 + Value2(s, i + 2)
  }

  /** Two zero-padded decimal digits (`{:02}`). */
  function Two(n: nat): (r: string)
    requires n < 100
    ensures |r| == 2 && AllDigits(r)
    ensures Value2(r, 0) == n
  {
    [DigitChar(n / 10), DigitChar(n % 10)]
  }

  /** Four zero-padded decimal digits (`{:04}`). */
  function Four(n: nat): (r: string)
    requires n < 10000
    ensures |r| == 4 && AllDigits(r)
    ensures Value4(r, 0) == n
  {
    var r := Two(n / 100) + Two(n % 100);
    assert r[2..] == Two(n % 100);
    r
  }

  /** ASCII lower-casing of one character. */
  function LowerChar(c: char): char {
    if 'A' <= c <= 'Z' then (c as int + 32) as char else c
  }

  /** Lower-casing of a string, character by character. */
  function Lower(s: string): (r: string)
    ensures |r| == |s|
    ensures forall i :: 0 <= i < |s| ==> r[i] == LowerChar(s[i])
  {
    seq(|s|, i requires 0 <= i < |s| => LowerChar(s[i]))
  }
}
