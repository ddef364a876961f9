/**
 * The handful of JavaScript string operations the application's helpers rely
 * on, written out over `seq<char>`: the `\D` filter, `split`/`join` on one
 * separator, `includes`, `toLowerCase`, `padStart(2, "0")`, integer
 * `String(n)`, `parseInt` and `Number` on integer text.
 */
module Text {
  import opened Wrappers

  // ------------------------------------------------------------------
  // Digits

  predicate IsDigit(c: char) { '0' <= c <= '9' }

  predicate AllDigits(s: string) { forall i :: 0 <= i < |s| ==> IsDigit(s[i]) }

  function DigitValue(c: char): nat
    requires IsDigit(c)
  {
    c as int - '0' as int
  }

  function DigitChar(d: nat): (c: char)
    requires d < 10
    ensures IsDigit(c) && DigitValue(c) == d
  {
    ('0' as int + d) as char
  }

  /** `s.replace(/\D/g, "")`: every character that is not an ASCII digit removed. */
  function DigitsOf(s: string): (r: string)
    ensures AllDigits(r) && |r| <= |s|
  {
    if s == [] then ""
    else (if IsDigit(s[0]) then [s[0]] else "") + DigitsOf(s[1..])
  }

  lemma {:induction false} DigitsOfAppend(a: string, b: string)
    ensures DigitsOf(a + b) == DigitsOf(a) + DigitsOf(b)
  {
    if a != [] {
      assert (a + b)[1..] == a[1..] + b;
      DigitsOfAppend(a[1..], b);
    } else {
      assert a + b == b;
    }
  }

  /** Filtering a string of digits leaves it as it is. */
  lemma {:induction false} DigitsOfAllDigits(s: string)
    requires AllDigits(s)
    ensures DigitsOf(s) == s
  {
    if s != [] {
      DigitsOfAllDigits(s[1..]);
    }
  }

  /** The value of a string of decimal digits. */
  function DigitsValue(s: string): nat
    requires AllDigits(s)
  {
    if s == [] then 0 else 10 * DigitsValue(s[..|s| - 1]) + DigitValue(s[|s| - 1])
  }

  /** A leading zero does not change the value of a digit string. */
  lemma {:induction false} DigitsValueLeadingZero(s: string)
    requires AllDigits(s)
    ensures AllDigits("0" + s) && DigitsValue("0" + s) == DigitsValue(s)
  {
    var z := "0" + s;
    assert AllDigits(z) by {
      forall i | 0 <= i < |z| ensures IsDigit(z[i]) {
        if i > 0 { assert z[i] == s[i - 1]; }
      }
    }
    if s != [] {
      assert z[..|z| - 1] == "0" + s[..|s| - 1];
      DigitsValueLeadingZero(s[..|s| - 1]);
    }
  }

  /** `String(n)` for a non-negative integer: decimal, no leading zero. */
  function NatToString(n: nat): (r: string)
    ensures |r| >= 1 && AllDigits(r) && DigitsValue(r) == n
    ensures |r| > 1 ==> r[0] != '0'
  {
    if n < 10 then [DigitChar(n)]
    else
      var r := NatToString(n / 10) + [DigitChar(n % 10)];
      assert r[..|r| - 1] == NatToString(n / 10);
      r
  }

  /** `String(n)` for any integer. */
  function IntToString(n: int): (r: string)
    ensures |r| >= 1
    ensures n >= 0 ==> AllDigits(r) && DigitsValue(r) == n
    ensures n < 0 ==> r[0] == '-' && AllDigits(r[1..]) && DigitsValue(r[1..]) == -n
  {
    if n < 0 then "-" + NatToString(-n) else NatToString(n)
  }

  // ------------------------------------------------------------------
  // Hexadecimal digits (parseInt honours a 0x prefix)

  predicate IsHexDigit(c: char) { IsDigit(c) || 'a' <= c <= 'f' || 'A' <= c <= 'F' }

  function HexDigitValue(c: char): nat
    requires IsHexDigit(c)
  {
    if IsDigit(c) then DigitValue(c)
    else if 'a' <= c <= 'f' then c as int - 'a' as int + 10
    else c as int - 'A' as int + 10
  }

  function HexValue(s: string): nat
    requires forall i :: 0 <= i < |s| ==> IsHexDigit(s[i])
  {
    if s == [] then 0 else 16 * HexValue(s[..|s| - 1]) + HexDigitValue(s[|s| - 1])
  }

  // ------------------------------------------------------------------
  // Whitespace, as ECMAScript's StrWhiteSpaceChar (WhiteSpace and LineTerminator)

  predicate IsJsWhitespace(c: char) {
    var n := c as int;
    n == 0x09 || n == 0x0A || n == 0x0B || n == 0x0C || n == 0x0D || n == 0x20 ||
    n == 0xA0 || n == 0x1680 || (0x2000 <= n <= 0x200A) || n == 0x2028 ||
    n == 0x2029 || n == 0x202F || n == 0x205F || n == 0x3000 || n == 0xFEFF
  }

  function TrimStart(s: string): (r: string)
    ensures |r| <= |s|
  {
    if s != [] && IsJsWhitespace(s[0]) then TrimStart(s[1..]) else s
  }

  function TrimEnd(s: string): (r: string)
    ensures |r| <= |s|
  {
    if s != [] && IsJsWhitespace(s[|s| - 1]) then TrimEnd(s[..|s| - 1]) else s
  }

  // ------------------------------------------------------------------
  // parseInt and Number

  /** The longest prefix of `s` made of decimal digits. */
  function LeadingDigits(s: string): (r: string)
    ensures AllDigits(r) && |r| <= |s|
  {
    if s != [] && IsDigit(s[0]) then [s[0]] + LeadingDigits(s[1..]) else ""
  }

  /** The longest prefix of `s` made of hexadecimal digits. */
  function LeadingHexDigits(s: string): (r: string)
    ensures forall i :: 0 <= i < |r| ==> IsHexDigit(r[i])
    ensures |r| <= |s|
  {
    if s != [] && IsHexDigit(s[0]) then [s[0]] + LeadingHexDigits(s[1..]) else ""
  }

  function Signed(negative: bool, magnitude: nat): int {
    if negative then -(magnitude as int) else magnitude
  }

  /**
   * The digits parseInt reads once whitespace and sign are gone: after a
   * `0x`/`0X` prefix the longest run of hexadecimal digits, otherwise the
   * longest run of decimal digits; no digits at all is None.
   */
  function ParseMagnitude(u: string): Option<nat>
  {
    if |u| >= 2 && u[0] == '0' && (u[1] == 'x' || u[1] == 'X') then
      var h := LeadingHexDigits(u[2..]);
      if h == [] then None else Some(HexValue(h))
    else
      var d := LeadingDigits(u);
      if d == [] then None else Some(DigitsValue(d))
  }

  /**
   * `parseInt(s)` with no radix: leading whitespace skipped, one optional
   * sign, a `0x`/`0X` prefix switching to base 16, then the longest run of
   * digits; no digits at all is NaN, modelled as None.
   */
  function ParseInt(s: string): Option<int>
  {
    var t := TrimStart(s);
    var negative := |t| > 0 && t[0] == '-';
    var u := if |t| > 0 && (t[0] == '-' || t[0] == '+') then t[1..] else t;
    match ParseMagnitude(u)
    case None => None
    case Some(m) => Some(Signed(negative, m))
  }

  lemma {:induction false} LeadingDigitsAppend(a: string, b: string)
    requires AllDigits(a) && (b == [] || !IsDigit(b[0]))
    ensures LeadingDigits(a + b) == a
  {
    if a == [] {
      assert a + b == b;
    } else {
      assert (a + b)[1..] == a[1..] + b;
      LeadingDigitsAppend(a[1..], b);
    }
  }

  /** Decimal digits followed by text that neither continues them nor makes a `0x` prefix. */
  lemma MagnitudeOfDigits(a: string, rest: string)
    requires a != [] && AllDigits(a)
    requires rest == [] || (!IsDigit(rest[0]) && rest[0] != 'x' && rest[0] != 'X')
    ensures ParseMagnitude(a + rest) == Some(DigitsValue(a))
  {
    var u := a + rest;
    assert u[0] == a[0];
    if |a| >= 2 {
      assert u[1] == a[1];
    } else if |u| >= 2 {
      assert u[1] == rest[0];
    }
    LeadingDigitsAppend(a, rest);
  }

  /** Text that starts with a digit has no sign and no leading whitespace for parseInt to skip. */
  lemma ParseIntUnsigned(w: string, m: nat)
    requires |w| > 0 && IsDigit(w[0]) && ParseMagnitude(w) == Some(m)
    ensures ParseInt(w) == Some(m)
  {
    var t := TrimStart(w);
    assert !IsJsWhitespace(w[0]);
    assert t == w;
    assert t[0] != '-' && t[0] != '+';
  }

  /** Text that starts with "-" reads as the negated magnitude after it. */
  lemma ParseIntMinus(w: string, m: nat)
    requires |w| > 0 && w[0] == '-' && ParseMagnitude(w[1..]) == Some(m)
    ensures ParseInt(w) == Some(-(m as int))
  {
    var t := TrimStart(w);
    assert !IsJsWhitespace(w[0]);
    assert t == w;
  }

  /**
   * parseInt stops at the first character that cannot continue the number:
   * `String(n)` followed by text that starts with neither a digit nor an
   * `x` reads back as `n`.
   */
  lemma ParseIntPrefix(n: int, rest: string)
    requires rest == [] || (!IsDigit(rest[0]) && rest[0] != 'x' && rest[0] != 'X')
    ensures ParseInt(IntToString(n) + rest) == Some(n)
  {
    var s := IntToString(n);
    var w := s + rest;
    if n < 0 {
      assert w[0] == '-';
      assert w[1..] == s[1..] + rest;
      MagnitudeOfDigits(s[1..], rest);
      ParseIntMinus(w, -n);
    } else {
      assert w[0] == s[0];
      MagnitudeOfDigits(s, rest);
      ParseIntUnsigned(w, n);
    }
  }

  /** parseInt undoes String(n) for every integer. */
  lemma ParseIntOfIntToString(n: int)
    ensures ParseInt(IntToString(n)) == Some(n)
  {
    ParseIntPrefix(n, []);
    assert IntToString(n) + [] == IntToString(n);
  }

  /**
   * `Number(s)` on text that denotes an integer: surrounding whitespace
   * trimmed, blank is 0, one optional sign before decimal digits; every
   * other text is NaN (None).
   */
  function NumberOf(s: string): (r: Option<int>)
    ensures s == "" ==> r == Some(0)
    ensures s != [] && AllDigits(s) ==> r == Some(DigitsValue(s))
  {
    var t := TrimEnd(TrimStart(s));
    assert s != [] && AllDigits(s) ==> TrimStart(s) == s && TrimEnd(s) == s;
    if t == "" then Some(0)
    else if AllDigits(t) then Some(DigitsValue(t))
    else if |t| >= 2 && (t[0] == '+' || t[0] == '-') && AllDigits(t[1..]) then
      Some(Signed(t[0] == '-', DigitsValue(t[1..])))
    else None
  }

  // ------------------------------------------------------------------
  // Padding, joining, splitting

  /** `s.padStart(2, "0")`. */
  function PadStart2(s: string): (r: string)
    ensures |r| == if |s| >= 2 then |s| else 2
    ensures r[|r| - |s|..] == s
    ensures forall i :: 0 <= i < |r| - |s| ==> r[i] == '0'
  {
    if |s| == 0 then "00" else if |s| == 1 then "0" + s else s
  }

  /** `Number(String(n))` is `n` again. */
  lemma NumberOfNat(n: nat)
    ensures NumberOf(NatToString(n)) == Some(n)
  {
  }

  /** `Number(String(n).padStart(2, "0"))` is `n` again. */
  lemma NumberOfPadded(n: nat)
    ensures NumberOf(PadStart2(NatToString(n))) == Some(n)
  {
    PaddedNat(n);
  }

  /** `String(n).padStart(2, "0")` is still a digit string of value `n`. */
  lemma PaddedNat(n: nat)
    ensures AllDigits(PadStart2(NatToString(n)))
    ensures DigitsValue(PadStart2(NatToString(n))) == n
    ensures |PadStart2(NatToString(n))| >= 2
  {
    var s := NatToString(n);
    if |s| == 1 {
      DigitsValueLeadingZero(s);
    }
  }

  /** A number, printed and padded, holds no character other than digits. */
  lemma PaddedFree(n: nat, c: char)
    requires !IsDigit(c)
    ensures c !in NatToString(n) && c !in PadStart2(NatToString(n))
  {
    PaddedNat(n);
    NoSeparatorInDigits(NatToString(n), c);
    NoSeparatorInDigits(PadStart2(NatToString(n)), c);
  }

  /** `parts.join(sep)`. */
  function Join(parts: seq<string>, sep: string): string {
    if |parts| == 0 then ""
    else if |parts| == 1 then parts[0]
    else parts[0] + sep + Join(parts[1..], sep)
  }

  /** `s.split(c)` for a one-character separator: always at least one piece. */
  function Split(s: string, c: char): (r: seq<string>)
    ensures |r| >= 1
  {
    if s == [] then [""]
    else
      var rest := Split(s[1..], c);
      if s[0] == c then [""] + rest
      else [[s[0]] + rest[0]] + rest[1..]
  }

  /** No piece of a split holds the separator. */
  lemma {:induction false} SplitPiecesFree(s: string, c: char)
    ensures forall i :: 0 <= i < |Split(s, c)| ==> c !in Split(s, c)[i]
  {
    if s != [] {
      SplitPiecesFree(s[1..], c);
      var rest := Split(s[1..], c);
      if s[0] != c {
        assert c !in [s[0]] + rest[0];
      }
    }
  }

  /** Joining the pieces of a split with the separator gives the string back. */
  lemma {:induction false} JoinSplit(s: string, c: char)
    ensures Join(Split(s, c), [c]) == s
  {
    if s != [] {
      var rest := Split(s[1..], c);
      JoinSplit(s[1..], c);
      if s[0] == c {
        assert Split(s, c) == [""] + rest;
        assert ([""] + rest)[1..] == rest;
      } else {
        var r := Split(s, c);
        assert r == [[s[0]] + rest[0]] + rest[1..];
        if |rest| > 1 {
          assert r[1..] == rest[1..];
          assert Join(rest, [c]) == rest[0] + [c] + Join(rest[1..], [c]);
        }
      }
    }
  }

  /** A piece free of the separator, followed by the separator, splits off whole. */
  lemma {:induction false} SplitPiece(a: string, c: char, b: string)
    requires c !in a
    ensures Split(a + [c] + b, c) == [a] + Split(b, c)
  {
    if a == [] {
      assert a + [c] + b == [c] + b;
      assert ([c] + b)[1..] == b;
    } else {
      assert (a + [c] + b)[1..] == a[1..] + [c] + b;
      SplitPiece(a[1..], c, b);
      assert [a[0]] + a[1..] == a;
    }
  }

  /** A string free of the separator is a single piece. */
  lemma {:induction false} SplitWhole(a: string, c: char)
    requires c !in a
    ensures Split(a, c) == [a]
  {
    if a != [] {
      SplitWhole(a[1..], c);
      assert [a[0]] + a[1..] == a;
    }
  }

  /** Splitting a join of separator-free pieces gives the pieces back. */
  lemma {:induction false} SplitJoin(parts: seq<string>, c: char)
    requires |parts| >= 1
    requires forall i :: 0 <= i < |parts| ==> c !in parts[i]
    ensures Split(Join(parts, [c]), c) == parts
  {
    if |parts| == 1 {
      SplitWhole(parts[0], c);
    } else {
      SplitJoin(parts[1..], c);
      SplitPiece(parts[0], c, Join(parts[1..], [c]));
      assert [parts[0]] + parts[1..] == parts;
    }
  }

  /** Joining one more piece appends the separator and that piece. */
  lemma {:induction false} JoinSnoc(init: seq<string>, last: string, sep: string)
    requires |init| >= 1
    ensures Join(init + [last], sep) == Join(init, sep) + sep + last
  {
    if |init| == 1 {
      assert (init + [last])[1..] == [last];
    } else {
      assert (init + [last])[1..] == init[1..] + [last];
      JoinSnoc(init[1..], last, sep);
    }
  }

  /**
   * The last piece of a split (`split(c).pop()`): the whole string when it
   * has no separator, otherwise what follows the last separator.
   */
  lemma SplitLast(s: string, c: char)
    ensures c !in Split(s, c)[|Split(s, c)| - 1]
    ensures c !in s ==> Split(s, c)[|Split(s, c)| - 1] == s
    ensures c in s ==> EndsWith(s, [c] + Split(s, c)[|Split(s, c)| - 1])
  {
    SplitPiecesFree(s, c);
    if c !in s {
      SplitWhole(s, c);
    } else {
      SplitLastSuffix(s, c);
    }
  }

  /** A string holding the separator ends with the separator followed by the last piece. */
  lemma SplitLastSuffix(s: string, c: char)
    requires c in s
    ensures EndsWith(s, [c] + Split(s, c)[|Split(s, c)| - 1])
  {
    JoinSplit(s, c);
    if |Split(s, c)| == 1 {
      SplitPiecesFree(s, c);
    } else {
      JoinEndsWithLast(Split(s, c), [c]);
    }
  }

  /** A join of two or more pieces ends with the separator and the last piece. */
  lemma JoinEndsWithLast(parts: seq<string>, sep: string)
    requires |parts| >= 2
    ensures EndsWith(Join(parts, sep), sep + parts[|parts| - 1])
  {
    var init, last := parts[..|parts| - 1], parts[|parts| - 1];
    assert parts == init + [last];
    JoinSnoc(init, last, sep);
    assert Join(parts, sep) == Join(init, sep) + (sep + last);
    AppendAffixes(Join(init, sep), sep + last);
  }

  /** What follows the last separator is the last piece. */
  lemma {:induction false} SplitAfterLast(x: string, c: char, b: string)
    requires c !in b
    ensures |Split(x + [c] + b, c)| >= 2
    ensures Split(x + [c] + b, c)[|Split(x + [c] + b, c)| - 1] == b
  {
    if x == [] {
      assert x + [c] + b == [c] + b;
      assert ([c] + b)[1..] == b;
      SplitWhole(b, c);
    } else {
      assert (x + [c] + b)[1..] == x[1..] + [c] + b;
      SplitAfterLast(x[1..], c, b);
    }
  }

  /** The last piece of a split is empty exactly when the string is empty or ends with the separator. */
  lemma SplitLastEmpty(s: string, c: char)
    ensures Split(s, c)[|Split(s, c)| - 1] == "" <==> s == "" || s[|s| - 1] == c
  {
    var last := Split(s, c)[|Split(s, c)| - 1];
    SplitLast(s, c);
    if s != "" && c in s {
      var tail := s[|s| - |[c] + last|..];
      assert tail == [c] + last;
      assert s[|s| - 1] == tail[|tail| - 1];
      if last != "" {
        assert tail[|tail| - 1] == last[|last| - 1];
        assert last[|last| - 1] in last;
      }
    } else if s != "" {
      assert s[|s| - 1] in s;
    }
  }

  /** Three separator-free pieces joined by the separator split back into those pieces. */
  lemma SplitThree(a: string, b: string, c: string, sep: char)
    requires sep !in a && sep !in b && sep !in c
    ensures Split(a + [sep] + b + [sep] + c, sep) == [a, b, c]
  {
    var parts := [a, b, c];
    assert parts[1..] == [b, c];
    assert parts[1..][1..] == [c];
    assert Join([b, c], [sep]) == b + [sep] + c;
    assert Join(parts, [sep]) == a + [sep] + (b + [sep] + c);
    assert a + [sep] + b + [sep] + c == a + [sep] + (b + [sep] + c);
    SplitJoin(parts, sep);
  }

  /** Two separator-free pieces joined by the separator split back into those pieces. */
  lemma SplitTwo(a: string, b: string, sep: char)
    requires sep !in a && sep !in b
    ensures Split(a + [sep] + b, sep) == [a, b]
  {
    var parts := [a, b];
    assert parts[1..] == [b];
    assert Join(parts, [sep]) == a + [sep] + b;
    SplitJoin(parts, sep);
  }

  /** A string of digits holds no character that is not a digit. */
  lemma NoSeparatorInDigits(s: string, c: char)
    requires AllDigits(s) && !IsDigit(c)
    ensures c !in s
  {
    assert forall k :: 0 <= k < |s| ==> IsDigit(s[k]) && s[k] != c;
  }

  // ------------------------------------------------------------------
  // Substrings and case

  predicate StartsWith(s: string, prefix: string) {
    |prefix| <= |s| && s[..|prefix|] == prefix
  }

  predicate EndsWith(s: string, suffix: string) {
    |suffix| <= |s| && s[|s| - |suffix|..] == suffix
  }

  /** A concatenation starts with its first part and ends with its second. */
  lemma AppendAffixes(a: string, b: string)
    ensures StartsWith(a + b, a) && EndsWith(a + b, b)
  {
    assert (a + b)[..|a|] == a;
    assert (a + b)[|a|..] == b;
  }

  /** A concatenation of three parts starts with the first and ends with the last. */
  lemma AppendAffixes3(a: string, b: string, c: string)
    ensures StartsWith(a + b + c, a) && EndsWith(a + b + c, c)
  {
    assert (a + b + c)[..|a|] == a;
    assert (a + b + c)[|a| + |b|..] == c;
  }

  /** `s.includes(sub)`. */
  predicate Contains(s: string, sub: string)
    decreases |s|
  {
    StartsWith(s, sub) || (|s| > 0 && Contains(s[1..], sub))
  }

  /** `sub` occurs in `s` starting at index `i`. */
  predicate OccursAt(s: string, sub: string, i: int) {
    0 <= i <= |s| - |sub| && s[i..i + |sub|] == sub
  }

  /** `Contains` holds exactly when `sub` occurs at some position of `s`. */
  lemma {:induction false} ContainsAt(s: string, sub: string)
    ensures Contains(s, sub) <==> exists i :: OccursAt(s, sub, i)
  {
    if StartsWith(s, sub) {
      assert OccursAt(s, sub, 0);
    }
    if |s| > 0 {
      ContainsAt(s[1..], sub);
      if Contains(s[1..], sub) {
        var i :| OccursAt(s[1..], sub, i);
        assert s[1..][i..i + |sub|] == s[i + 1..i + 1 + |sub|];
        assert OccursAt(s, sub, i + 1);
      }
      if exists i :: OccursAt(s, sub, i) {
        var i :| OccursAt(s, sub, i);
        if i > 0 {
          assert s[1..][i - 1..i - 1 + |sub|] == s[i..i + |sub|];
          assert OccursAt(s[1..], sub, i - 1);
        }
      }
    } else if exists i :: OccursAt(s, sub, i) {
      var i :| OccursAt(s, sub, i);
      assert i == 0;
    }
  }

  /** A text lacking the first character of `sub` does not contain `sub`. */
  lemma NotContainsFirstChar(s: string, sub: string)
    requires |sub| > 0 && sub[0] !in s
    ensures !Contains(s, sub)
  {
    ContainsAt(s, sub);
  }

  /** A text of the same length as `sub` contains it only by being equal to it. */
  lemma ContainsSameLength(s: string, sub: string)
    requires |s| == |sub|
    ensures Contains(s, sub) <==> s == sub
  {
    ContainsAt(s, sub);
    if exists i :: OccursAt(s, sub, i) {
      var i :| OccursAt(s, sub, i);
      assert i == 0 && s[0..|s|] == s;
    }
    if s == sub {
      assert s[0..|s|] == s;
      assert OccursAt(s, sub, 0);
    }
  }

  /** A text shorter than `sub` does not contain it. */
  lemma NotContainsLonger(s: string, sub: string)
    requires |sub| > |s|
    ensures !Contains(s, sub)
  {
    ContainsAt(s, sub);
  }

  /** A text contains what occurs in it. */
  lemma ContainsWitness(s: string, sub: string, i: int)
    requires OccursAt(s, sub, i)
    ensures Contains(s, sub)
  {
    ContainsAt(s, sub);
  }

  /** `toLowerCase` on one character, for Basic Latin and Latin-1. */
  function LowerChar(c: char): char {
    var n := c as int;
    if 'A' <= c <= 'Z' || (0xC0 <= n <= 0xDE && n != 0xD7) then (n + 32) as char else c
  }

  /** `s.toLowerCase()`. */
  function ToLower(s: string): (r: string)
    ensures |r| == |s|
    ensures forall i :: 0 <= i < |s| ==> r[i] == LowerChar(s[i])
  {
    seq(|s|, i requires 0 <= i < |s| => LowerChar(s[i]))
  }

  /** Lower-casing twice is lower-casing once. */
  lemma ToLowerIdempotent(s: string)
    ensures ToLower(ToLower(s)) == ToLower(s)
  {
  }

  /** Truthiness of an optional string: present and not empty. */
  predicate Truthy(s: Option<string>) {
    s.Some? && s.value != ""
  }
}
