/** The few JavaScript primitives the repository relies on: `parseInt`,
    `Number.isInteger`, strict equality on numbers, `String.prototype.split`,
    `Number.prototype.toString` and `padStart(2, '0')`, truncating `%`. */
module Js {

  import opened Wrappers

  /** A JavaScript value as `Number.isInteger` and `parseInt` see it: an integral
      number, or anything else (NaN, a fraction, a string, `undefined`, ...). */
  datatype Num = Int(i: int) | NotInt

  /** `a === b` on two such values: NaN (and every non-integer) is never equal. */
  predicate StrictEq(a: Num, b: Num) {
    a.Int? && b.Int? && a.i == b.i
  }

  /** `p - 1` on a parsed value: NaN stays NaN. */
  function Pred(p: Num): Num {
    if p.Int? then Int(p.i - 1) else NotInt
  }

  // ---------------------------------------------------------------- parseInt

  /** The white space `parseInt` and `trim` skip: tab, vertical tab, form
      feed, U+FEFF, the Unicode space separators (category Zs) and the line
      terminators. */
  predicate IsWhite(ch: char) {
    ch == ' ' || ch == '\t' || ch == '\n' || ch == '\r' || ch == '\U{000B}' || ch == '\U{000C}'
    || ch == '\U{00A0}' || ch == '\U{1680}' || ('\U{2000}' <= ch <= '\U{200A}')
    || ch == '\U{2028}' || ch == '\U{2029}' || ch == '\U{202F}' || ch == '\U{205F}'
    || ch == '\U{3000}' || ch == '\U{FEFF}'
  }

  predicate IsDecimalDigit(ch: char) { '0' <= ch <= '9' }

  /** Whether `ch` is a digit of radix 10 or 16, and its value. */
  predicate IsRadixDigit(ch: char, radix: nat) {
    if radix == 16 then IsDecimalDigit(ch) || 'a' <= ch <= 'f' || 'A' <= ch <= 'F'
    else IsDecimalDigit(ch)
  }

  function DigitValue(ch: char): nat {
    if IsDecimalDigit(ch) then ch as nat - '0' as nat
    else if 'a' <= ch <= 'f' then ch as nat - 'a' as nat + 10
    else if 'A' <= ch <= 'F' then ch as nat - 'A' as nat + 10
    else 0
  }

  function TrimStart(s: string): (r: string)
    ensures |r| <= |s|
    ensures r != [] ==> !IsWhite(r[0])
  {
    if s != [] && IsWhite(s[0]) then TrimStart(s[1..]) else s
  }

  /** What `TrimStart` keeps is a suffix of its input. */
  lemma {:induction false} TrimStartSuffix(s: string)
    ensures TrimStart(s) == s[|s| - |TrimStart(s)|..]
    decreases |s|
  {
    if s != [] && IsWhite(s[0]) {
      TrimStartSuffix(s[1..]);
      assert s[1..][|s[1..]| - |TrimStart(s[1..])|..] == s[|s| - |TrimStart(s)|..];
    }
  }

  /** The longest prefix of `s` made of digits of `radix`. */
  function DigitPrefix(s: string, radix: nat): (r: string)
    ensures |r| <= |s| && r == s[..|r|]
    ensures forall k :: 0 <= k < |r| ==> IsRadixDigit(r[k], radix)
  {
    if s != [] && IsRadixDigit(s[0], radix) then [s[0]] + DigitPrefix(s[1..], radix) else []
  }

  /** The value of a digit string, most significant digit first. */
  function DigitsValue(ds: string, radix: nat): nat {
    if ds == [] then 0 else DigitsValue(ds[..|ds| - 1], radix) * radix + DigitValue(ds[|ds| - 1])
  }

  predicate HasHexPrefix(s: string) {
    |s| >= 2 && s[0] == '0' && (s[1] == 'x' || s[1] == 'X')
  }

  /** The digits after the sign: a `0x`/`0X` prefix selects radix 16; no digit at all is NaN. */
  function ParseUnsigned(u: string): Option<nat> {
    var radix := if HasHexPrefix(u) then 16 else 10;
    var ds := DigitPrefix(if radix == 16 then u[2..] else u, radix);
    if ds == [] then None else Some(DigitsValue(ds, radix))
  }

  /** `parseInt(s)` with no radix: leading white space, an optional sign, an
      optional `0x` prefix, then the longest run of digits; NaN without digits. */
  function ParseInt(s: string): Num {
    var t := TrimStart(s);
    if t != [] && t[0] == '-' then
      (var v := ParseUnsigned(t[1..]); if v.Some? then Int(-(v.value as int)) else NotInt)
    else
      var v := ParseUnsigned(if t != [] && t[0] == '+' then t[1..] else t);
      if v.Some? then Int(v.value) else NotInt
  }

  /** `parseInt` applied to `undefined` (a missing piece after `split`). */
  function ParseOptInt(s: Option<string>): Num {
    if s.Some? then ParseInt(s.value) else NotInt
  }

  /** `parseInt(s, 10)`: as `ParseInt`, but always in radix 10, so a `0x`
      prefix reads as the digit 0. */
  function ParseDecimal(s: string): Num {
    var t := TrimStart(s);
    var u := if t != [] && (t[0] == '-' || t[0] == '+') then t[1..] else t;
    var ds := DigitPrefix(u, 10);
    if ds == [] then NotInt
    else if t[0] == '-' then Int(-(DigitsValue(ds, 10) as int))
    else Int(DigitsValue(ds, 10))
  }

  /** `parseInt(undefined, 10)`. */
  function ParseOptDecimal(s: Option<string>): Num {
    if s.Some? then ParseDecimal(s.value) else NotInt
  }

  // ---------------------------------------------------------------- toString

  function DigitChar(d: nat): char
    requires d < 10
  {
    ['0', '1', '2', '3', '4', '5', '6', '7', '8', '9'][d]
  }

  /** `n.toString()` for a non-negative integer. */
  function NatToString(n: nat): (s: string)
    ensures s != [] && forall k :: 0 <= k < |s| ==> IsDecimalDigit(s[k])
    decreases n
  {
    if n < 10 then [DigitChar(n)] else NatToString(n / 10) + [DigitChar(n % 10)]
  }

  /** `n.toString()` for any integer. */
  function IntToString(n: int): string {
    if n < 0 then "-" + NatToString(-n) else NatToString(n)
  }

  /** `n.toString().padStart(2, '0')`. */
  function Pad2(n: int): (s: string)
    ensures |s| >= 2
    ensures 0 <= n < 10 ==> s == ['0', DigitChar(n)]
    ensures 0 <= n < 100 ==> |s| == 2 && IsDecimalDigit(s[0]) && IsDecimalDigit(s[1])
  {
    var t := IntToString(n);
    assert 10 <= n < 100 ==> |t| == 2 by {
      if 10 <= n < 100 {
        assert t == NatToString(n / 10) + [DigitChar(n % 10)];
      }
    }
    if |t| >= 2 then t else "0" + t
  }

  /** Two padded digits read back as the number they show. */
  lemma Pad2Value(n: nat)
    requires n < 100
    ensures DigitsValue(Pad2(n), 10) == n
  {
    if n >= 10 {
      DigitsValueOfNatToString(n);
    } else {
      assert Pad2(n)[..1] == "0";
      assert DigitsValue("0", 10) == DigitsValue("", 10) * 10 + DigitValue('0');
    }
  }

  lemma {:induction false} DigitsValueOfNatToString(n: nat)
    ensures DigitsValue(NatToString(n), 10) == n
    decreases n
  {
    var s := NatToString(n);
    if n >= 10 {
      DigitsValueOfNatToString(n / 10);
      assert s[..|s| - 1] == NatToString(n / 10);
    }
  }

  lemma DigitPrefixOfDigits(s: string)
    requires forall k :: 0 <= k < |s| ==> IsDecimalDigit(s[k])
    ensures DigitPrefix(s, 10) == s
  {
    if s != [] {
      DigitPrefixOfDigits(s[1..]);
    }
  }

  lemma TrimStartOfDigits(s: string)
    requires s != [] && IsDecimalDigit(s[0])
    ensures TrimStart(s) == s
  {
  }

  lemma ParseUnsignedOfDigits(s: string)
    requires s != [] && forall k :: 0 <= k < |s| ==> IsDecimalDigit(s[k])
    ensures ParseUnsigned(s) == Some(DigitsValue(s, 10))
  {
    assert !HasHexPrefix(s) by {
      if |s| >= 2 { assert IsDecimalDigit(s[1]); }
    }
    DigitPrefixOfDigits(s);
  }

  /** Reading back what `toString` wrote: `parseInt(String(n)) === n` for every `n >= 0`. */
  lemma ParseIntOfNatToString(n: nat)
    ensures ParseInt(NatToString(n)) == Int(n)
  {
    var s := NatToString(n);
    TrimStartOfDigits(s);
    ParseUnsignedOfDigits(s);
    DigitsValueOfNatToString(n);
  }

  /** ... and `parseInt(String(n), 10) === n` as well. */
  lemma ParseDecimalOfNatToString(n: nat)
    ensures ParseDecimal(NatToString(n)) == Int(n)
  {
    var s := NatToString(n);
    TrimStartOfDigits(s);
    DigitPrefixOfDigits(s);
    DigitsValueOfNatToString(n);
  }

  // ---------------------------------------------------------------- strings

  /** No element occurs twice: what a `Set` guarantees of its contents. */
  predicate NoDup<T(==)>(s: seq<T>) {
    forall a, b :: 0 <= a < b < |s| ==> s[a] != s[b]
  }

  /** `toLowerCase` and `toUpperCase` on one character (ASCII letters only). */
  function LowerChar(ch: char): char {
    if 'A' <= ch <= 'Z' then (ch as int - 'A' as int + 'a' as int) as char else ch
  }

  function UpperChar(ch: char): char {
    if 'a' <= ch <= 'z' then (ch as int - 'a' as int + 'A' as int) as char else ch
  }

  function Lower(s: string): (r: string)
    ensures |r| == |s| && forall k :: 0 <= k < |s| ==> r[k] == LowerChar(s[k])
  {
    seq(|s|, k requires 0 <= k < |s| => LowerChar(s[k]))
  }

  function TrimEnd(s: string): (r: string)
    ensures |r| <= |s|
    ensures r != [] ==> !IsWhite(r[|r| - 1])
  {
    if s != [] && IsWhite(s[|s| - 1]) then TrimEnd(s[..|s| - 1]) else s
  }

  /** What `TrimEnd` keeps is a prefix of its input. */
  lemma {:induction false} TrimEndPrefix(s: string)
    ensures TrimEnd(s) == s[..|TrimEnd(s)|]
    decreases |s|
  {
    if s != [] && IsWhite(s[|s| - 1]) {
      TrimEndPrefix(s[..|s| - 1]);
      assert s[..|s| - 1][..|TrimEnd(s)|] == s[..|TrimEnd(s)|];
    }
  }

  /** `s.trim()`. */
  function Trim(s: string): (r: string)
    ensures |r| <= |s|
    ensures r != [] ==> !IsWhite(r[0]) && !IsWhite(r[|r| - 1])
  {
    var t := TrimStart(s);
    TrimEndPrefix(t);
    TrimEnd(t)
  }

  /** What trimming keeps is one stretch of the string, starting after its
      leading white space. */
  lemma TrimSlice(s: string)
    ensures var i := |s| - |TrimStart(s)|; i + |Trim(s)| <= |s| && Trim(s) == s[i..i + |Trim(s)|]
  {
    var t := TrimStart(s);
    var r := TrimEnd(t);
    var i := |s| - |t|;
    TrimStartSuffix(s);
    TrimEndPrefix(t);
    assert r == t[..|r|] && t == s[i..];
    assert r == s[i..i + |r|];
  }

  /** `TrimStart` drops only white space. */
  lemma {:induction false} TrimStartDropsWhite(s: string)
    ensures forall k :: 0 <= k < |s| - |TrimStart(s)| ==> IsWhite(s[k])
    decreases |s|
  {
    if s != [] && IsWhite(s[0]) {
      TrimStartDropsWhite(s[1..]);
    }
  }

  /** `TrimEnd` drops only white space. */
  lemma {:induction false} TrimEndDropsWhite(s: string)
    ensures forall k :: |TrimEnd(s)| <= k < |s| ==> IsWhite(s[k])
    decreases |s|
  {
    if s != [] && IsWhite(s[|s| - 1]) {
      TrimEndDropsWhite(s[..|s| - 1]);
    }
  }

  /** `trim` removes white space at both ends and nothing else: what it keeps
      is the stretch `s[i..j]` that starts after the leading white space,
      and everything before and after that stretch is white space. */
  lemma TrimDropsOnlyWhite(s: string)
    ensures var i := |s| - |TrimStart(s)|;
            i + |Trim(s)| <= |s| && Trim(s) == s[i..i + |Trim(s)|] &&
            (forall k :: 0 <= k < i ==> IsWhite(s[k])) &&
            (forall k :: i + |Trim(s)| <= k < |s| ==> IsWhite(s[k]))
  {
    var t := TrimStart(s);
    var i := |s| - |t|;
    TrimSlice(s);
    TrimStartDropsWhite(s);
    TrimEndAfterStart(s);
  }

  /** The white space `TrimEnd` cuts off the suffix left by `TrimStart`. */
  lemma TrimEndAfterStart(s: string)
    ensures var i := |s| - |TrimStart(s)|;
            forall k :: i + |Trim(s)| <= k < |s| ==> IsWhite(s[k])
  {
    var t := TrimStart(s);
    var i := |s| - |t|;
    TrimStartSuffix(s);
    TrimEndDropsWhite(t);
    assert |Trim(s)| == |TrimEnd(t)|;
    forall k | i + |TrimEnd(t)| <= k < |s| ensures IsWhite(s[k]) {
      assert s[k] == t[k - i];
    }
  }

  /** Trimming twice is trimming once. */
  lemma TrimIdempotent(s: string)
    ensures Trim(Trim(s)) == Trim(s)
  {
    var r := Trim(s);
    if r != [] {
      assert TrimStart(r) == r;
      assert TrimEnd(r) == r;
    }
  }

  // ---------------------------------------------------------------- split / join

  /** `s.split(sep)`: the pieces between occurrences of `sep`; always at least one piece. */
  function Split(s: string, sep: char): (parts: seq<string>)
    ensures |parts| >= 1
    ensures forall k :: 0 <= k < |parts| ==> sep !in parts[k]
    decreases |s|
  {
    if s == [] then [""]
    else if s[0] == sep then [""] + Split(s[1..], sep)
    else var rest := Split(s[1..], sep); [[s[0]] + rest[0]] + rest[1..]
  }

  /** The first piece is the text before the first `sep`, or all of `s`. */
  lemma {:induction false} SplitHead(s: string, sep: char)
    ensures var p := Split(s, sep)[0]; |p| <= |s| && p == s[..|p|] && (|p| < |s| ==> s[|p|] == sep)
    decreases |s|
  {
    if s != [] && s[0] != sep {
      SplitHead(s[1..], sep);
      var rest := Split(s[1..], sep);
      assert Split(s, sep)[0] == [s[0]] + rest[0];
    }
  }

  /** `parts.join(sep)`. */
  function Join(parts: seq<string>, sep: char): string {
    if parts == [] then "" else if |parts| == 1 then parts[0] else parts[0] + [sep] + Join(parts[1..], sep)
  }

  lemma {:induction false} SplitNoSep(s: string, sep: char)
    requires sep !in s
    ensures Split(s, sep) == [s]
    decreases |s|
  {
    if s != [] {
      SplitNoSep(s[1..], sep);
      assert [s[0]] + s[1..] == s;
    }
  }

  lemma {:induction false} SplitAppend(a: string, sep: char, b: string)
    requires sep !in a
    ensures Split(a + [sep] + b, sep) == [a] + Split(b, sep)
    decreases |a|
  {
    if a == [] {
      assert a + [sep] + b == [sep] + b;
      assert ([sep] + b)[1..] == b;
    } else {
      assert (a + [sep] + b)[1..] == a[1..] + [sep] + b;
      SplitAppend(a[1..], sep, b);
      assert [a[0]] + a[1..] == a;
    }
  }

  /** Splitting undoes joining when no piece contains the separator. */
  lemma {:induction false} SplitJoin(parts: seq<string>, sep: char)
    requires |parts| >= 1
    requires forall k :: 0 <= k < |parts| ==> sep !in parts[k]
    ensures Split(Join(parts, sep), sep) == parts
    decreases |parts|
  {
    if |parts| == 1 {
      SplitNoSep(parts[0], sep);
    } else {
      SplitJoin(parts[1..], sep);
      SplitAppend(parts[0], sep, Join(parts[1..], sep));
      assert [parts[0]] + parts[1..] == parts;
    }
  }

  // ---------------------------------------------------------------- arithmetic

  /** JavaScript's `%`: the remainder takes the sign of the dividend. */
  function JsRem(a: int, b: int): (r: int)
    requires b > 0
    ensures a >= 0 ==> r == a % b
    ensures -b < r < b
  {
    if a >= 0 then a % b else -((-a) % b)
  }

  function Min(a: int, b: int): int { if a <= b then a else b }
  function Max(a: int, b: int): int { if a >= b then a else b }
}
