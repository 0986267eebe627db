/** The parts of JavaScript's string and number semantics that the page's logic
    relies on: white space and `trim`, decimal digits, `String(n)`, `padStart(2, "0")`,
    `split` on one character, `parseInt` without a radix, and `Number` of a string. */
module JsText {
  import opened Wrappers

  /** White space as `String.prototype.trim` and the regular-expression class `\s`
      see it: the WhiteSpace and LineTerminator code points of ECMAScript. */
  predicate IsSpace(c: char) {
    c == '\t' || c == '\n' || c == '\U{000B}' || c == '\U{000C}' || c == '\r' || c == ' '
    || c == '\U{00A0}' || c == '\U{1680}' || ('\U{2000}' <= c <= '\U{200A}')
    || c == '\U{2028}' || c == '\U{2029}' || c == '\U{202F}' || c == '\U{205F}'
    || c == '\U{3000}' || c == '\U{FEFF}'
  }

  /** The characters that `.` in a regular expression does not match. */
  predicate IsLineTerminator(c: char) {
    c == '\n' || c == '\r' || c == '\U{2028}' || c == '\U{2029}'
  }

  /** `s` with its leading white space removed. */
  function TrimStart(s: string): (r: string)
    ensures |r| <= |s| && r == s[|s| - |r|..]
    ensures forall i :: 0 <= i < |s| - |r| ==> IsSpace(s[i])
    ensures r != [] ==> !IsSpace(r[0])
  {
    if s != [] && IsSpace(s[0]) then TrimStart(s[1..]) else s
  }

  /** `s` with its trailing white space removed. */
  function TrimEnd(s: string): (r: string)
    ensures |r| <= |s| && r == s[..|r|]
    ensures forall i :: |r| <= i < |s| ==> IsSpace(s[i])
    ensures r != [] ==> !IsSpace(r[|r| - 1])
  {
    if s != [] && IsSpace(s[|s| - 1]) then TrimEnd(s[..|s| - 1]) else s
  }

  /** JavaScript truthiness of a stored string: `null` (`None`) and `""` are falsy. */
  predicate IsTruthy(v: Option<string>) {
    v.Some? && v.value != ""
  }

  /** `s.trim()` */
  function Trim(s: string): string {
    TrimEnd(TrimStart(s))
  }

  /** `s.trim()` is empty exactly when `s` is all white space, and otherwise
      neither of its ends is white space. */
  lemma TrimSpec(s: string)
    ensures Trim(s) != [] ==> !IsSpace(Trim(s)[0]) && !IsSpace(Trim(s)[|Trim(s)| - 1])
    ensures Trim(s) == [] <==> forall i :: 0 <= i < |s| ==> IsSpace(s[i])
  {
    var u := TrimStart(s);
    if Trim(s) != [] {
      assert Trim(s)[0] == u[0];
    }
  }

  /** A string whose ends are not white space is its own `trim()`. */
  lemma {:induction false} TrimUnpadded(s: string)
    requires s == [] || (!IsSpace(s[0]) && !IsSpace(s[|s| - 1]))
    ensures Trim(s) == s
  {
  }

  /** Trimming a string that is white space followed by an unpadded string. */
  lemma {:induction false} TrimAfterLeadingSpace(pad: string, s: string)
    requires forall i :: 0 <= i < |pad| ==> IsSpace(pad[i])
    requires s != [] && !IsSpace(s[0]) && !IsSpace(s[|s| - 1])
    ensures Trim(pad + s) == s
  {
    if pad == [] {
      assert pad + s == s;
      TrimUnpadded(s);
    } else {
      assert (pad + s)[1..] == pad[1..] + s;
      TrimAfterLeadingSpace(pad[1..], s);
      assert TrimStart(pad + s) == TrimStart(pad[1..] + s);
    }
  }

  /** A character outside the Basic Multilingual Plane, which a JavaScript
      string holds as a surrogate pair. */
  predicate IsAstral(c: char) {
    c as int >= 0x10000
  }

  /** `s.length`: JavaScript counts UTF-16 code units, so every astral
      character counts twice. */
  function Utf16Length(s: string): (n: nat)
    ensures |s| <= n <= 2 * |s|
  {
    if s == [] then 0 else (if IsAstral(s[0]) then 2 else 1) + Utf16Length(s[1..])
  }

  /** `.length` agrees with the number of characters exactly when no
      character is astral. */
  lemma {:induction false} Utf16LengthIsLength(s: string)
    ensures Utf16Length(s) == |s| <==> forall i :: 0 <= i < |s| ==> !IsAstral(s[i])
  {
    if s != [] {
      Utf16LengthIsLength(s[1..]);
      if !IsAstral(s[0]) && Utf16Length(s[1..]) == |s| - 1 {
        forall i | 0 <= i < |s|
          ensures !IsAstral(s[i])
        {
          if i > 0 { assert s[i] == s[1..][i - 1]; }
        }
      }
      if forall i :: 0 <= i < |s| ==> !IsAstral(s[i]) {
        assert !IsAstral(s[0]);
        assert forall i :: 0 <= i < |s| - 1 ==> s[1..][i] == s[i + 1];
      }
    }
  }

  /** Code units add up over a concatenation. */
  lemma {:induction false} Utf16LengthAppend(a: string, b: string)
    ensures Utf16Length(a + b) == Utf16Length(a) + Utf16Length(b)
  {
    if a == [] {
      assert a + b == b;
    } else {
      assert (a + b)[0] == a[0] && (a + b)[1..] == a[1..] + b;
      Utf16LengthAppend(a[1..], b);
    }
  }

  predicate IsDigit(c: char) {
    '0' <= c <= '9'
  }

  predicate AllDigits(s: string) {
    forall i :: 0 <= i < |s| ==> IsDigit(s[i])
  }

  function DigitValue(c: char): (d: nat)
    requires IsDigit(c)
    ensures d < 10
  {
    (c as int) - ('0' as int)
  }

  function DigitChar(d: nat): (c: char)
    requires d < 10
    ensures IsDigit(c) && DigitValue(c) == d
  {
    (('0' as int) + d) as char
  }

  /** The number a run of decimal digits denotes (the empty run denotes 0). */
  function DigitsValue(s: string): nat
    requires AllDigits(s)
  {
    if s == [] then 0 else DigitsValue(s[..|s| - 1]) * 10 + DigitValue(s[|s| - 1])
  }

  /** `String(n)` for a natural number: its shortest decimal representation. */
  function Decimal(n: nat): (r: string)
    ensures 1 <= |r| && AllDigits(r)
    ensures n < 10 <==> |r| == 1
    ensures |r| > 1 ==> r[0] != '0'
    ensures n < 100 ==> |r| <= 2
    decreases n
  {
    if n < 10 then [DigitChar(n)] else Decimal(n / 10) + [DigitChar(n % 10)]
  }

  /** Reading back what `Decimal` printed gives the number. */
  lemma {:induction false} DecimalValue(n: nat)
    ensures DigitsValue(Decimal(n)) == n
    decreases n
  {
    if n >= 10 {
      DecimalValue(n / 10);
      var r := Decimal(n);
      assert r[..|r| - 1] == Decimal(n / 10);
    }
  }

  /** `String(n)` for any integer. */
  function IntToString(n: int): string {
    if n < 0 then "-" + Decimal(-n) else Decimal(n)
  }

  /** `s.padStart(2, "0")` */
  function PadStart2(s: string): (r: string)
    ensures |s| >= 2 ==> r == s
    ensures |s| < 2 ==> |r| == 2 && r == r[..2 - |s|] + s
    ensures forall i :: 0 <= i < |r| - |s| ==> r[i] == '0'
  {
    if |s| == 0 then "00" else if |s| == 1 then "0" + s else s
  }

  /** A number below 100 padded to two digits denotes itself. */
  lemma TwoDigitValue(n: nat)
    requires n < 100
    ensures |PadStart2(Decimal(n))| == 2 && AllDigits(PadStart2(Decimal(n)))
    ensures DigitsValue(PadStart2(Decimal(n))) == n
  {
    var r := PadStart2(Decimal(n));
    DecimalValue(n);
    if n < 10 {
      assert r == ['0', DigitChar(n)];
      assert r[..1] == ['0'];
    } else {
      assert Decimal(n) == Decimal(n / 10) + [DigitChar(n % 10)];
      assert Decimal(n / 10) == [DigitChar(n / 10)];
      assert r == [DigitChar(n / 10), DigitChar(n % 10)];
      assert r[..1] == [DigitChar(n / 10)];
    }
  }

  /** Index of the first `c` in `s`, or `|s|` when there is none. */
  function IndexOf(s: string, c: char): (i: nat)
    ensures i <= |s|
    ensures i < |s| ==> s[i] == c
    ensures forall k :: 0 <= k < i ==> s[k] != c
  {
    if s == [] then 0 else if s[0] == c then 0 else 1 + IndexOf(s[1..], c)
  }

  /** `s.split(c)` for a one-character separator. */
  function Split(s: string, c: char): (parts: seq<string>)
    ensures |parts| >= 1
    decreases |s|
  {
    var i := IndexOf(s, c);
    if i == |s| then [s] else [s[..i]] + Split(s[i + 1..], c)
  }

  /** Splitting a string with no separator in it gives the string itself. */
  lemma SplitNone(s: string, c: char)
    requires forall k :: 0 <= k < |s| ==> s[k] != c
    ensures Split(s, c) == [s]
  {
  }

  /** Splitting `a + [c] + b` where `a` holds no `c` peels `a` off the front. */
  lemma SplitFirst(a: string, c: char, b: string)
    requires forall k :: 0 <= k < |a| ==> a[k] != c
    ensures Split(a + [c] + b, c) == [a] + Split(b, c)
  {
    var s := a + [c] + b;
    IndexOfAfter(a, c, b);
    assert s[..|a|] == a;
    assert s[|a| + 1..] == b;
  }

  lemma {:induction false} IndexOfAfter(a: string, c: char, b: string)
    requires forall k :: 0 <= k < |a| ==> a[k] != c
    ensures IndexOf(a + [c] + b, c) == |a|
  {
    if a != [] {
      assert (a + [c] + b)[1..] == a[1..] + [c] + b;
      IndexOfAfter(a[1..], c, b);
    }
  }

  predicate IsHexDigit(c: char) {
    IsDigit(c) || ('a' <= c <= 'f') || ('A' <= c <= 'F')
  }

  function HexDigitValue(c: char): (d: nat)
    requires IsHexDigit(c)
    ensures d < 16
  {
    if IsDigit(c) then DigitValue(c)
    else if 'a' <= c <= 'f' then (c as int) - ('a' as int) + 10
    else (c as int) - ('A' as int) + 10
  }

  /** The longest prefix of `s` made of characters satisfying `ok`. */
  function LongestPrefix(s: string, ok: char -> bool): (r: string)
    ensures |r| <= |s| && r == s[..|r|]
    ensures forall i :: 0 <= i < |r| ==> ok(r[i])
    ensures |r| < |s| ==> !ok(s[|r|])
  {
    if s != [] && ok(s[0]) then [s[0]] + LongestPrefix(s[1..], ok) else []
  }

  function HexValue(s: string): nat
    requires forall i :: 0 <= i < |s| ==> IsHexDigit(s[i])
  {
    if s == [] then 0 else HexValue(s[..|s| - 1]) * 16 + HexDigitValue(s[|s| - 1])
  }

  /** The magnitude `parseInt` reads after the sign: a hexadecimal run after
      `0x`/`0X`, or else the longest decimal run; `None` when the run is empty. */
  function ParseMagnitude(u: string): (r: Option<nat>)
    ensures r.None? <==> if |u| >= 2 && u[0] == '0' && (u[1] == 'x' || u[1] == 'X')
                         then |u| == 2 || !IsHexDigit(u[2])
                         else u == [] || !IsDigit(u[0])
  {
    if |u| >= 2 && u[0] == '0' && (u[1] == 'x' || u[1] == 'X') then
      var h := LongestPrefix(u[2..], IsHexDigit);
      if h == [] then None else Some(HexValue(h))
    else
      var d := LongestPrefix(u, IsDigit);
      if d == [] then None else Some(DigitsValue(d))
  }

  /** `parseInt(s)` with no radix: leading white space, an optional sign, then
      the magnitude; `None` is NaN. */
  function ParseInt(s: string): Option<int> {
    var t := TrimStart(s);
    var sign := if t != [] && t[0] == '-' then -1 else 1;
    var u := if t != [] && (t[0] == '-' || t[0] == '+') then t[1..] else t;
    var mag := ParseMagnitude(u);
    if mag.None? then None else Some(sign * mag.value)
  }

  /** `parseInt` reads any digits-first string by its leading decimal run, whatever follows. */
  lemma ParseIntDecimalPrefix(digits: string, rest: string)
    requires digits != [] && AllDigits(digits) && digits[0] != '0'
    requires rest == [] || !IsDigit(rest[0])
    ensures ParseInt(digits + rest) == Some(DigitsValue(digits))
  {
    var s := digits + rest;
    assert !IsSpace(s[0]);
    assert TrimStart(s) == s;
    LongestPrefixOf(digits, rest, IsDigit);
  }

  /** `parseInt(String(n))` is `n` for a positive number. */
  lemma ParseIntOfDecimal(n: nat)
    requires n > 0
    ensures ParseInt(IntToString(n)) == Some(n)
  {
    var r := Decimal(n);
    assert r == r + "";
    if n < 10 {
      assert r[0] == DigitChar(n);
    }
    ParseIntDecimalPrefix(r, "");
    DecimalValue(n);
  }

  lemma {:induction false} LongestPrefixOf(p: string, rest: string, ok: char -> bool)
    requires forall i :: 0 <= i < |p| ==> ok(p[i])
    requires rest == [] || !ok(rest[0])
    ensures LongestPrefix(p + rest, ok) == p
  {
    if p != [] {
      assert (p + rest)[1..] == p[1..] + rest;
      LongestPrefixOf(p[1..], rest, ok);
    } else {
      assert p + rest == rest;
    }
  }

  /** The longest `ok` prefix is the one prefix of `ok` characters that
      cannot be extended. */
  lemma LongestPrefixUnique(s: string, r: string, ok: char -> bool)
    requires |r| <= |s| && r == s[..|r|]
    requires forall i :: 0 <= i < |r| ==> ok(r[i])
    requires |r| < |s| ==> !ok(s[|r|])
    ensures LongestPrefix(s, ok) == r
  {
  }

  /** Cutting white space off the end of a string does not change its longest
      run of digits or hex digits. */
  lemma LongestPrefixBeforeSpace(u: string, m: nat, ok: char -> bool)
    requires m <= |u|
    requires forall i :: m <= i < |u| ==> IsSpace(u[i])
    requires forall c :: IsSpace(c) ==> !ok(c)
    ensures LongestPrefix(u[..m], ok) == LongestPrefix(u, ok)
  {
    var r := LongestPrefix(u[..m], ok);
    assert r == u[..|r|];
    LongestPrefixUnique(u, r, ok);
  }

  /** `parseInt` skips leading white space and stops at the first character
      that is not part of the number, so trimming its argument changes nothing. */
  lemma ParseIntOfTrimmed(s: string)
    ensures ParseInt(Trim(s)) == ParseInt(s)
  {
    var t := TrimStart(s);
    var t2 := TrimEnd(t);
    if t2 != [] {
      ParseIntDropsTrailingSpace(t, t2);
    }
  }

  lemma ParseIntDropsTrailingSpace(t: string, t2: string)
    requires 0 < |t2| <= |t| && t2 == t[..|t2|] && !IsSpace(t[0])
    requires forall i :: |t2| <= i < |t| ==> IsSpace(t[i])
    ensures ParseInt(t2) == ParseInt(t)
  {
    assert TrimStart(t) == t;
    assert TrimStart(t2) == t2;
    var signed := t[0] == '-' || t[0] == '+';
    var m := if signed then |t2| - 1 else |t2|;
    var u := if signed then t[1..] else t;
    assert (if signed then t2[1..] else t2) == u[..m];
    MagnitudeBeforeSpace(u, m);
  }

  /** Cutting white space off the end of what follows the sign does not
      change the magnitude `parseInt` reads. */
  lemma MagnitudeBeforeSpace(u: string, m: nat)
    requires m <= |u|
    requires forall i :: m <= i < |u| ==> IsSpace(u[i])
    ensures ParseMagnitude(u[..m]) == ParseMagnitude(u)
  {
    var v := u[..m];
    if m >= 2 {
      assert v[0] == u[0] && v[1] == u[1];
      assert v[2..] == u[2..][..m - 2];
      LongestPrefixBeforeSpace(u[2..], m - 2, IsHexDigit);
    } else if |u| >= 2 {
      assert IsSpace(u[1]);
    }
    LongestPrefixBeforeSpace(u, m, IsDigit);
  }

  /** `Number(s)` for the strings the page feeds it: after trimming, the empty string
      is 0 and a run of decimal digits is its value; anything else is NaN (`None`). */
  function Number(s: string): (r: Option<int>)
    ensures r.Some? ==> r.value >= 0
  {
    var t := Trim(s);
    if AllDigits(t) then Some(DigitsValue(t)) else None
  }

  /** `Number` reads back a number printed by `padStart(2, "0")` or `String(n)`. */
  lemma NumberOfDigits(s: string)
    requires s != [] && AllDigits(s)
    ensures Number(s) == Some(DigitsValue(s))
  {
    TrimUnpadded(s);
  }
}
