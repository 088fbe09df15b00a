/**
 * The JavaScript string primitives the three core files rely on, stated over Dafny strings:
 * `trim`, `includes`/`indexOf`, `split`/`join`, `padStart`, `Number(...)`, `parseInt` and
 * the decimal rendering of integers. Each carries the properties the parsers above it need.
 */
module JsText {
  import opened Wrappers

  /** The characters `String.prototype.trim` strips: ECMAScript WhiteSpace and LineTerminator. */
  predicate IsSpace(c: char) {
    || c == ' ' || c == '\t' || c == '\n' || c == '\r' || c == '\U{000B}' || c == '\U{000C}'
    || c == '\U{00A0}' || c == '\U{1680}' || ('\U{2000}' <= c <= '\U{200A}')
    || c == '\U{2028}' || c == '\U{2029}' || c == '\U{202F}' || c == '\U{205F}'
    || c == '\U{3000}' || c == '\U{FEFF}'
  }

  predicate AllSpace(s: string) {
    forall i :: 0 <= i < |s| ==> IsSpace(s[i])
  }

  /** The position of the first non-whitespace character at or after `i`, or the length. */
  function SkipSpace(s: string, i: nat): (n: nat)
    requires i <= |s|
    ensures i <= n <= |s|
    ensures forall j :: i <= j < n ==> IsSpace(s[j])
    ensures n == |s| || !IsSpace(s[n])
    decreases |s| - i
  {
    if i < |s| && IsSpace(s[i]) then SkipSpace(s, i + 1) else i
  }

  /** The position just after the last non-whitespace character of `s[lo..j]`, or `lo`. */
  function SkipSpaceBack(s: string, lo: nat, j: nat): (n: nat)
    requires lo <= j <= |s|
    ensures lo <= n <= j
    ensures forall k :: n <= k < j ==> IsSpace(s[k])
    ensures n == lo || !IsSpace(s[n - 1])
    decreases j - lo
  {
    if lo < j && IsSpace(s[j - 1]) then SkipSpaceBack(s, lo, j - 1) else j
  }

  /** `String.prototype.trimStart`: drops the leading whitespace. */
  function TrimStart(s: string): (r: string)
    ensures r == [] || !IsSpace(r[0])
  {
    s[SkipSpace(s, 0)..]
  }

  /** `String.prototype.trim`: the slice of `s` left once both whitespace margins are removed. */
  function Trim(s: string): (r: string)
    ensures r == "" <==> AllSpace(s)
    ensures r != "" ==> !IsSpace(r[0]) && !IsSpace(r[|r| - 1])
    ensures |r| <= |s|
  {
    var a := SkipSpace(s, 0);
    var b := SkipSpaceBack(s, a, |s|);
    assert a < b ==> s[a..b][0] == s[a];
    s[a..b]
  }

  /** `trim` removes an all-whitespace margin at each end and keeps what lies between them. */
  lemma TrimMargins(s: string)
    ensures var r := Trim(s);
      exists a :: 0 <= a && a + |r| <= |s| && s[a..a + |r|] == r && AllSpace(s[..a]) && AllSpace(s[a + |r|..])
  {
    var a := SkipSpace(s, 0);
    var b := SkipSpaceBack(s, a, |s|);
    assert Trim(s) == s[a..b];
    assert forall i :: 0 <= i < a ==> s[..a][i] == s[i];
    assert forall i :: 0 <= i < |s| - b ==> s[b..][i] == s[b + i];
  }

  /** Trimming keeps no character the string lacked. */
  lemma TrimInside(s: string, c: char)
    requires c !in s
    ensures c !in Trim(s)
  {
    var a := SkipSpace(s, 0);
    var b := SkipSpaceBack(s, a, |s|);
    assert forall i :: 0 <= i < b - a ==> Trim(s)[i] == s[a + i];
  }

  /** A string with no whitespace at either end is its own trim. */
  lemma TrimmedIsFixed(s: string)
    requires s == "" || (!IsSpace(s[0]) && !IsSpace(s[|s| - 1]))
    ensures Trim(s) == s
  {
  }

  /** `sub` occurs in `s` at position `i`. */
  predicate OccursAt(s: string, sub: string, i: int) {
    0 <= i && i + |sub| <= |s| && MatchesFrom(s, sub, i, 0)
  }

  /** The characters of `sub` from `sub[j]` on match those of `s` from `s[i + j]` on. */
  predicate MatchesFrom(s: string, sub: string, i: nat, j: nat)
    requires i + |sub| <= |s| && j <= |sub|
    decreases |sub| - j
  {
    j == |sub| || (s[i + j] == sub[j] && MatchesFrom(s, sub, i, j + 1))
  }

  lemma {:induction false} MatchesFromChars(s: string, sub: string, i: nat, j: nat)
    requires i + |sub| <= |s| && j <= |sub|
    ensures MatchesFrom(s, sub, i, j) <==> forall k :: j <= k < |sub| ==> s[i + k] == sub[k]
    decreases |sub| - j
  {
    if j < |sub| {
      MatchesFromChars(s, sub, i, j + 1);
    }
  }

  /** An occurrence is a slice of `s` equal to `sub`. */
  lemma OccursAtSlice(s: string, sub: string, i: nat)
    requires i + |sub| <= |s|
    ensures OccursAt(s, sub, i) <==> s[i..i + |sub|] == sub
  {
    MatchesFromChars(s, sub, i, 0);
    if forall k :: 0 <= k < |sub| ==> s[i + k] == sub[k] {
      assert s[i..i + |sub|] == sub;
    }
  }

  /** An occurrence of a non-empty `sub` starts with its first character. */
  lemma OccursAtFirstChar(s: string, sub: string, i: int)
    requires |sub| > 0 && OccursAt(s, sub, i)
    ensures s[i] == sub[0]
  {
  }

  /** `s.indexOf(sub, from)`: the first position at or after `from` where `sub` occurs, or -1. */
  function IndexOfFrom(s: string, sub: string, from: nat): (r: int)
    requires from <= |s|
    ensures r == -1 || from <= r <= |s|
    ensures r >= 0 ==> OccursAt(s, sub, r)
    decreases |s| - from
  {
    if OccursAt(s, sub, from) then from
    else if from == |s| then -1
    else IndexOfFrom(s, sub, from + 1)
  }

  /** No occurrence at or after `from` comes before the one `IndexOfFrom` finds. */
  lemma {:induction false} IndexOfFromFirst(s: string, sub: string, from: nat)
    requires from <= |s|
    ensures var r := IndexOfFrom(s, sub, from);
      forall j :: from <= j <= |s| && (r < 0 || j < r) ==> !OccursAt(s, sub, j)
    decreases |s| - from
  {
    if !OccursAt(s, sub, from) && from < |s| {
      IndexOfFromFirst(s, sub, from + 1);
    }
  }

  /** `String.prototype.indexOf`. */
  function IndexOf(s: string, sub: string): (r: int)
    ensures r == -1 || 0 <= r <= |s|
    ensures r >= 0 ==> OccursAt(s, sub, r)
  {
    IndexOfFrom(s, sub, 0)
  }

  /** `IndexOf` finds the first occurrence: there is none before it, and none at all when it gives -1. */
  lemma IndexOfFirst(s: string, sub: string)
    ensures var r := IndexOf(s, sub);
      forall j :: 0 <= j <= |s| && (r < 0 || j < r) ==> !OccursAt(s, sub, j)
  {
    IndexOfFromFirst(s, sub, 0);
  }

  /** An occurrence with none before it is the one `IndexOf` finds. */
  lemma IndexOfAt(s: string, sub: string, i: nat)
    requires OccursAt(s, sub, i)
    requires forall j :: 0 <= j < i ==> !OccursAt(s, sub, j)
    ensures IndexOf(s, sub) == i
  {
    IndexOfFirst(s, sub);
  }

  /** `String.prototype.includes`. */
  predicate Includes(s: string, sub: string) {
    IndexOf(s, sub) >= 0
  }

  lemma IncludesWhenOccurs(s: string, sub: string, i: int)
    requires OccursAt(s, sub, i)
    ensures Includes(s, sub)
  {
    IndexOfFirst(s, sub);
  }

  /** `sub` cannot occur in a string lacking its first character. */
  lemma NotIncludedWithoutFirstChar(s: string, sub: string)
    requires |sub| > 0 && sub[0] !in s
    ensures !Includes(s, sub)
  {
  }

  /** A one-character separator occurs in `s` exactly where that character does. */
  lemma IncludesChar(s: string, c: char)
    ensures Includes(s, [c]) <==> c in s
  {
    if c in s {
      var i :| 0 <= i < |s| && s[i] == c;
      assert s[i..i + 1] == [c];
      IncludesWhenOccurs(s, [c], i);
    } else {
      NotIncludedWithoutFirstChar(s, [c]);
    }
  }

  /** `Array.prototype.join`. */
  function Join(parts: seq<string>, sep: string): string {
    if |parts| == 0 then ""
    else if |parts| == 1 then parts[0]
    else parts[0] + sep + Join(parts[1..], sep)
  }

  /** An occurrence inside a prefix of `s` is an occurrence in `s`. */
  lemma PrefixOccurrence(s: string, sub: string, i: nat, j: int)
    requires i <= |s| && OccursAt(s[..i], sub, j)
    ensures OccursAt(s, sub, j) && j + |sub| <= i
  {
    OccursAtSlice(s[..i], sub, j);
    OccursAtSlice(s, sub, j);
    assert s[..i][j..j + |sub|] == s[j..j + |sub|];
  }

  /**
   * `String.prototype.split` with a non-empty string separator: the pieces between the
   * left-to-right, non-overlapping occurrences of `sep`.
   */
  function Split(s: string, sep: string): (parts: seq<string>)
    requires |sep| > 0
    ensures |parts| >= 1
    ensures |parts| == 1 <==> !Includes(s, sep)
    ensures parts[0] <= s
    decreases |s|
  {
    var i := IndexOf(s, sep);
    if i < 0 then [s] else [s[..i]] + Split(s[i + |sep|..], sep)
  }

  /** The text before the first occurrence of `sep` holds no occurrence of it. */
  lemma FirstPieceClean(s: string, sep: string)
    requires |sep| > 0 && IndexOf(s, sep) >= 0
    ensures !Includes(s[..IndexOf(s, sep)], sep)
  {
    var i := IndexOf(s, sep);
    var head := s[..i];
    IndexOfFirst(s, sep);
    if Includes(head, sep) {
      PrefixOccurrence(s, sep, i, IndexOf(head, sep));
    }
  }

  /** Joining the pieces back with `sep` gives `s`. */
  lemma {:induction false} SplitJoin(s: string, sep: string)
    requires |sep| > 0
    ensures Join(Split(s, sep), sep) == s
    decreases |s|
  {
    var i := IndexOf(s, sep);
    if i >= 0 {
      var head, tail := s[..i], s[i + |sep|..];
      OccursAtSlice(s, sep, i);
      assert s == head + s[i..i + |sep|] + tail;
      var rest := Split(tail, sep);
      var parts := Split(s, sep);
      assert parts == [head] + rest;
      assert parts[1..] == rest;
      SplitJoin(tail, sep);
    }
  }

  /** No piece holds the separator. */
  lemma SplitClean(s: string, sep: string)
    requires |sep| > 0
    ensures forall k :: 0 <= k < |Split(s, sep)| ==> !Includes(Split(s, sep)[k], sep)
  {
    forall k | 0 <= k < |Split(s, sep)| ensures !Includes(Split(s, sep)[k], sep) {
      SplitPieceClean(s, sep, k);
    }
  }

  lemma {:induction false} SplitPieceClean(s: string, sep: string, k: nat)
    requires |sep| > 0 && k < |Split(s, sep)|
    ensures !Includes(Split(s, sep)[k], sep)
    decreases |s|
  {
    var i := IndexOf(s, sep);
    if i >= 0 {
      var tail := s[i + |sep|..];
      if k == 0 {
        assert Split(s, sep)[0] == s[..i];
        FirstPieceClean(s, sep);
      } else {
        assert Split(s, sep)[k] == Split(tail, sep)[k - 1];
        SplitPieceClean(tail, sep, k - 1);
      }
    }
  }

  /** Splitting on one character undoes joining on it, when no piece holds that character. */
  lemma {:induction false} SplitJoinChar(parts: seq<string>, c: char)
    requires |parts| >= 1
    requires forall k :: 0 <= k < |parts| ==> c !in parts[k]
    ensures Split(Join(parts, [c]), [c]) == parts
  {
    var s := Join(parts, [c]);
    if |parts| == 1 {
      IncludesChar(parts[0], c);
    } else {
      var p := parts[0];
      assert s == p + [c] + Join(parts[1..], [c]);
      assert s[|p|..|p| + 1] == [c];
      OccursAtSlice(s, [c], |p|);
      forall j | 0 <= j < |p| ensures !OccursAt(s, [c], j) {
        assert s[j] == p[j];
      }
      IndexOfAt(s, [c], |p|);
      assert s[..|p|] == p;
      assert s[|p| + 1..] == Join(parts[1..], [c]);
      SplitJoinChar(parts[1..], c);
    }
  }

  /** Splitting at a first occurrence: when `sep` cannot start inside `a`, `a` is the first piece. */
  lemma SplitAfterFirst(a: string, sep: string, b: string)
    requires |sep| > 0 && sep[0] !in a
    ensures Split(a + sep + b, sep) == [a] + Split(b, sep)
  {
    var s := a + sep + b;
    assert s[|a|..|a| + |sep|] == sep;
    OccursAtSlice(s, sep, |a|);
    forall j | 0 <= j < |a| ensures !OccursAt(s, sep, j) {
      assert s[j] == a[j];
    }
    IndexOfAt(s, sep, |a|);
    assert s[..|a|] == a;
    assert s[|a| + |sep|..] == b;
  }

  predicate IsDigit(c: char) {
    '0' <= c <= '9'
  }

  predicate AllDigits(s: string) {
    forall i :: 0 <= i < |s| ==> IsDigit(s[i])
  }

  /** The value of a run of decimal digits, most significant first. */
  function DigitsValue(s: string): nat
    requires AllDigits(s)
  {
    if s == "" then 0 else 10 * DigitsValue(s[..|s| - 1]) + (s[|s| - 1] as int - '0' as int)
  }

  function DigitChar(d: nat): (c: char)
    requires d < 10
    ensures IsDigit(c) && c as int - '0' as int == d
  {
    ('0' as int + d) as char
  }

  /** The decimal rendering of a natural number, as `Number.prototype.toString` writes it. */
  function NatToString(n: nat): (s: string)
    ensures |s| >= 1 && AllDigits(s) && DigitsValue(s) == n
  {
    if n < 10 then [DigitChar(n)]
    else
      var s := NatToString(n / 10) + [DigitChar(n % 10)];
      assert s[..|s| - 1] == NatToString(n / 10);
      s
  }

  /** The decimal rendering has no leading zero: only 0 itself starts with '0'. */
  lemma {:induction false} NatToStringNoLeadingZero(n: nat)
    ensures |NatToString(n)| == 1 || NatToString(n)[0] != '0'
  {
    if n >= 10 {
      var head := NatToString(n / 10);
      assert NatToString(n) == head + [DigitChar(n % 10)];
      NatToStringNoLeadingZero(n / 10);
      if |head| == 1 {
        NonZeroDigit(head);
      }
    }
  }

  /** A single digit of non-zero value is not '0'. */
  lemma NonZeroDigit(t: string)
    requires |t| == 1 && AllDigits(t) && DigitsValue(t) > 0
    ensures t[0] != '0'
  {
    assert t[..0] == "";
  }

  /** `Number.prototype.toString` on an integer: a minus sign for negatives, then the digits. */
  function IntToString(i: int): string {
    if i < 0 then "-" + NatToString(-i) else NatToString(i)
  }

  /** `String.prototype.padStart(width, fill)` with a one-character fill. */
  function PadStart(s: string, width: nat, fill: char): (r: string)
    ensures |r| == if |s| < width then width else |s|
    ensures r[|r| - |s|..] == s
    ensures forall i :: 0 <= i < |r| - |s| ==> r[i] == fill
  {
    if |s| >= width then s else seq(width - |s|, _ => fill) + s
  }

  /** Leading zeros do not change the value of a digit run. */
  lemma {:induction false} LeadingZeros(z: string, s: string)
    requires forall i :: 0 <= i < |z| ==> z[i] == '0'
    requires AllDigits(s)
    ensures AllDigits(z + s) && DigitsValue(z + s) == DigitsValue(s)
  {
    if s == "" {
      if z != "" {
        assert (z + s)[..|z| - 1] == z[..|z| - 1];
        LeadingZeros(z[..|z| - 1], "");
        assert z[..|z| - 1] + "" == z[..|z| - 1];
        assert z + s == z;
      }
    } else {
      assert (z + s)[..|z + s| - 1] == z + s[..|s| - 1];
      LeadingZeros(z, s[..|s| - 1]);
    }
  }

  /** Zero-padding a digit run keeps it a digit run of the same value. */
  lemma PadDigits(s: string, width: nat)
    requires AllDigits(s)
    ensures AllDigits(PadStart(s, width, '0'))
    ensures DigitsValue(PadStart(s, width, '0')) == DigitsValue(s)
  {
    if |s| < width {
      LeadingZeros(seq(width - |s|, _ => '0'), s);
    }
  }

  /**
   * `Number(s)` on the strings this model meets: after trimming, the empty string is 0 and an
   * optionally signed run of decimal digits is its value; anything else is NaN (`None`).
   */
  function ToNumber(s: string): Option<int> {
    var t := Trim(s);
    if t == "" then Some(0)
    else if (t[0] == '-' || t[0] == '+') && |t| > 1 && AllDigits(t[1..]) then
      var v: int := if t[0] == '-' then -(DigitsValue(t[1..]) as int) else DigitsValue(t[1..]);
      Some(v)
    else if AllDigits(t) then Some(DigitsValue(t))
    else None
  }

  /** `Number` reads a plain run of digits as its decimal value. */
  lemma ToNumberDigits(s: string)
    requires AllDigits(s)
    ensures ToNumber(s) == Some(DigitsValue(s))
  {
    if s != "" {
      TrimmedIsFixed(s);
    }
  }

  /** The longest prefix of `s` made of decimal digits. */
  function DigitPrefix(s: string): (d: string)
    ensures d <= s && AllDigits(d)
    ensures |d| < |s| ==> !IsDigit(s[|d|])
  {
    if |s| > 0 && IsDigit(s[0]) then [s[0]] + DigitPrefix(s[1..]) else ""
  }

  /**
   * `parseInt(s)` with radix 10: skip leading whitespace, take an optional sign and the longest
   * run of digits after it; no digits at all is NaN (`None`).
   */
  function ParseInt(s: string): Option<int> {
    var t := TrimStart(s);
    var negative := |t| > 0 && t[0] == '-';
    var body := if |t| > 0 && (t[0] == '-' || t[0] == '+') then t[1..] else t;
    var d := DigitPrefix(body);
    var v: int := if negative then -(DigitsValue(d) as int) else DigitsValue(d);
    if d == "" then None else Some(v)
  }

  /** `parseInt` reads a non-empty run of digits as its decimal value. */
  lemma ParseIntDigits(s: string)
    requires s != "" && AllDigits(s)
    ensures ParseInt(s) == Some(DigitsValue(s))
  {
    assert IsDigit(s[0]) && !IsSpace(s[0]);
    assert TrimStart(s) == s;
    DigitPrefixOfDigits(s);
  }

  lemma {:induction false} DigitPrefixOfDigits(s: string)
    requires AllDigits(s)
    ensures DigitPrefix(s) == s
  {
    if s != "" {
      DigitPrefixOfDigits(s[1..]);
    }
  }
}
