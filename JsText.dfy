/**
 * String operations of the JavaScript runtime that the modelled code relies on:
 * the `\s` character class (which is also the set `String.prototype.trim`
 * removes), `\d`, `trim`, `includes`, `split` on a one-character separator,
 * `substring(0, n)`, number-to-string conversion and `parseInt`.
 * Strings are sequences of Unicode scalar values here, not UTF-16 code units.
 */
module JsText {

  datatype Option<T> = None | Some(value: T)

  /** The outcome of an operation that can throw: `Failure` carries the error message. */
  datatype Result<T> = Success(value: T) | Failure(error: string)

  /** ECMAScript WhiteSpace and LineTerminator code points: what `\s` matches and `trim` removes. */
  predicate IsSpace(c: char) {
    c == '\t' || c == '\n' || c == '\U{B}' || c == '\U{C}' || c == '\r' || c == ' '
    || c == '\U{A0}' || c == '\U{1680}' || ('\U{2000}' <= c <= '\U{200A}')
    || c == '\U{2028}' || c == '\U{2029}' || c == '\U{202F}' || c == '\U{205F}'
    || c == '\U{3000}' || c == '\U{FEFF}'
  }

  /** ECMAScript LineTerminator: the characters that `.` in a regular expression does not match. */
  predicate IsLineTerminator(c: char) {
    c == '\n' || c == '\r' || c == '\U{2028}' || c == '\U{2029}'
  }

  /** What `\d` matches (ASCII digits only). */
  predicate IsDigit(c: char) {
    '0' <= c <= '9'
  }

  predicate NoSpaceAt(s: string, i: int) {
    0 <= i < |s| ==> !IsSpace(s[i])
  }

  predicate HasDigit(s: string) {
    exists i :: 0 <= i < |s| && IsDigit(s[i])
  }

  predicate AllDigits(s: string) {
    forall i :: 0 <= i < |s| ==> IsDigit(s[i])
  }

  function TrimStart(s: string): (r: string)
    ensures |r| <= |s|
    ensures |r| == |s| ==> r == s
    ensures |r| < |s| ==> r == s[|s| - |r|..]
    ensures r == [] || !IsSpace(r[0])
    ensures forall i :: 0 <= i < |s| - |r| ==> IsSpace(s[i])
  {
    if s == [] || !IsSpace(s[0]) then s else TrimStart(s[1..])
  }

  function TrimEnd(s: string): (r: string)
    ensures |r| <= |s| && r == s[..|r|]
    ensures r == [] || !IsSpace(r[|r| - 1])
    ensures forall i :: |r| <= i < |s| ==> IsSpace(s[i])
  {
    if s == [] || !IsSpace(s[|s| - 1]) then s else TrimEnd(s[..|s| - 1])
  }

  /** `String.prototype.trim`. */
  function Trim(s: string): (r: string)
    ensures |r| <= |s|
    ensures r == [] || (!IsSpace(r[0]) && !IsSpace(r[|r| - 1]))
  {
    TrimEnd(TrimStart(s))
  }

  lemma {:induction false} TrimKeepsChars(s: string, p: char -> bool)
    requires forall i :: 0 <= i < |s| ==> p(s[i])
    ensures forall i :: 0 <= i < |Trim(s)| ==> p(Trim(s)[i])
  {
    var t := TrimStart(s);
    assert forall i :: 0 <= i < |t| ==> t[i] == s[|s| - |t| + i];
    var u := TrimEnd(t);
    assert forall i :: 0 <= i < |u| ==> u[i] == t[i];
  }

  lemma TrimEmptyIffBlank(s: string)
    ensures Trim(s) == [] <==> forall i :: 0 <= i < |s| ==> IsSpace(s[i])
  {
    var t := TrimStart(s);
    if t != [] {
      assert !IsSpace(t[0]);
      assert TrimEnd(t) != [] by { assert TrimEnd(t)[0] == t[0] || |TrimEnd(t)| > 0; }
      assert !IsSpace(s[|s| - |t|]);
    }
  }

  /** What `trim` leaves: no white space at either end. */
  predicate Trimmed(s: string) {
    s == [] || (!IsSpace(s[0]) && !IsSpace(s[|s| - 1]))
  }

  /** Trimming a trimmed string changes nothing, so `trim` is idempotent. */
  lemma TrimOfTrimmed(s: string)
    requires Trimmed(s)
    ensures Trim(s) == s
  {
    assert TrimStart(s) == s;
  }

  lemma TrimIdempotent(s: string)
    ensures Trim(Trim(s)) == Trim(s)
  {
    TrimOfTrimmed(Trim(s));
  }

  /** `s.startsWith(t)` */
  predicate StartsWith(s: string, t: string) {
    |t| <= |s| && s[..|t|] == t
  }

  /** `s.includes(t)` */
  predicate Includes(s: string, t: string)
    decreases |s|
  {
    StartsWith(s, t) || (s != [] && Includes(s[1..], t))
  }

  lemma {:induction false} IncludesAt(s: string, t: string, i: nat)
    requires i + |t| <= |s| && s[i..i + |t|] == t
    ensures Includes(s, t)
    decreases i
  {
    if i > 0 {
      assert s[1..][i - 1..i - 1 + |t|] == s[i..i + |t|];
      IncludesAt(s[1..], t, i - 1);
    }
  }

  lemma {:induction false} IncludesWitness(s: string, t: string) returns (i: nat)
    requires Includes(s, t)
    ensures i + |t| <= |s| && s[i..i + |t|] == t
    decreases |s|
  {
    if StartsWith(s, t) {
      i := 0;
    } else {
      var j := IncludesWitness(s[1..], t);
      i := j + 1;
      assert s[i..i + |t|] == s[1..][j..j + |t|];
    }
  }

  /** A string that does not contain the first character of `t` does not include `t`. */
  lemma {:induction false} NotIncludesWithout(s: string, t: string)
    requires t != [] && forall i :: 0 <= i < |s| ==> s[i] != t[0]
    ensures !Includes(s, t)
    decreases |s|
  {
    if s != [] {
      assert |t| > |s| || s[..|t|][0] == s[0];
      NotIncludesWithout(s[1..], t);
    }
  }

  /** `s.substring(0, n)` for n >= 0. */
  function Prefix(s: string, n: nat): (r: string)
    ensures |r| == if n < |s| then n else |s|
    ensures r == s[..|r|]
  {
    if n < |s| then s[..n] else s
  }

  /** `s.split(c)` for a one-character separator: the pieces between the occurrences of `c`. */
  function Split(s: string, c: char): (r: seq<string>)
    ensures |r| >= 1
    ensures forall k :: 0 <= k < |r| ==> forall i :: 0 <= i < |r[k]| ==> r[k][i] != c
    decreases |s|
  {
    if s == [] then [[]]
    else
      var rest := Split(s[1..], c);
      if s[0] == c then [[]] + rest else [[s[0]] + rest[0]] + rest[1..]
  }

  /** Concatenating the pieces of `Split(s, c)` with `c` between them gives back `s`. */
  function JoinWith(parts: seq<string>, c: char): string
    requires |parts| >= 1
  {
    if |parts| == 1 then parts[0] else parts[0] + [c] + JoinWith(parts[1..], c)
  }

  lemma {:induction false} SplitJoin(s: string, c: char)
    ensures JoinWith(Split(s, c), c) == s
    decreases |s|
  {
    if s != [] {
      SplitJoin(s[1..], c);
      var rest := Split(s[1..], c);
      if s[0] != c {
        if |rest| == 1 {
        } else {
          assert JoinWith([[s[0]] + rest[0]] + rest[1..], c)
              == [s[0]] + rest[0] + [c] + JoinWith(rest[1..], c);
        }
      }
    }
  }

  /** Splitting at a separator splits the two sides independently. */
  lemma {:induction false} SplitAtSeparator(a: string, b: string, c: char)
    ensures Split(a + [c] + b, c) == Split(a, c) + Split(b, c)
    decreases |a|
  {
    if a == [] {
      assert a + [c] + b == [c] + b;
      assert ([c] + b)[1..] == b;
    } else {
      var s := a + [c] + b;
      assert s[0] == a[0] && s[1..] == a[1..] + [c] + b;
      SplitAtSeparator(a[1..], b, c);
    }
  }

  /** A string without the separator is a single piece. */
  lemma {:induction false} SplitWithoutSeparator(b: string, c: char)
    requires forall i :: 0 <= i < |b| ==> b[i] != c
    ensures Split(b, c) == [b]
    decreases |b|
  {
    if b != [] {
      SplitWithoutSeparator(b[1..], c);
      assert [b[0]] + b[1..] == b;
    }
  }

  /** `.filter(x => x.trim())`: the strings that are not blank. */
  function NonBlank(xs: seq<string>): (r: seq<string>)
    ensures |r| <= |xs|
    ensures forall x :: x in r <==> x in xs && Trim(x) != ""
  {
    if xs == [] then []
    else
      assert forall x :: x in xs <==> x == xs[0] || x in xs[1..];
      if Trim(xs[0]) != "" then [xs[0]] + NonBlank(xs[1..]) else NonBlank(xs[1..])
  }

  /** `parts.join(", ")`-style concatenation with an arbitrary separator. */
  function Join(parts: seq<string>, sep: string): string {
    if parts == [] then []
    else if |parts| == 1 then parts[0]
    else parts[0] + sep + Join(parts[1..], sep)
  }

  function Digit(d: nat): char
    requires d < 10
  {
    "0123456789"[d]
  }

  /** The decimal text of a natural number, as JavaScript's `String(n)` writes it. */
  function NatToString(n: nat): (r: string)
    ensures |r| >= 1 && AllDigits(r)
    decreases n
  {
    if n < 10 then [Digit(n)] else NatToString(n / 10) + [Digit(n % 10)]
  }

  /** `String(n)` for an integer-valued number. */
  function IntToString(n: int): string {
    if n < 0 then "-" + NatToString(-n) else NatToString(n)
  }

  function DigitValue(c: char): nat
    requires IsDigit(c)
  {
    (c as int) - ('0' as int)
  }

  /** ASCII case folding, the only folding JavaScript's non-Unicode `i` flag applies to the literals used here. */
  function Lower(c: char): char {
    if 'A' <= c <= 'Z' then ((c as int) + 32) as char else c
  }

  predicate IsLowerAsciiText(t: string) {
    forall i :: 0 <= i < |t| ==> Lower(t[i]) == t[i]
  }

  /** Case-insensitive `startsWith` against a lower-case literal `t`. */
  predicate StartsWithCI(s: string, t: string) {
    |t| <= |s| && forall i :: 0 <= i < |t| ==> Lower(s[i]) == t[i]
  }

  /** The index of the first case-insensitive occurrence of the lower-case literal `t` at or after `from`. */
  function FindCI(s: string, t: string, from: nat): (r: Option<nat>)
    requires from <= |s|
    ensures r.Some? ==> from <= r.value <= |s| && StartsWithCI(s[r.value..], t)
    ensures r.Some? ==> forall j :: from <= j < r.value ==> !StartsWithCI(s[j..], t)
    ensures r.None? ==> forall j :: from <= j <= |s| ==> !StartsWithCI(s[j..], t)
    decreases |s| - from
  {
    if StartsWithCI(s[from..], t) then Some(from)
    else if from == |s| then None
    else FindCI(s, t, from + 1)
  }

  function HexValue(c: char): Option<nat> {
    if '0' <= c <= '9' then Some((c as int) - ('0' as int))
    else if 'a' <= c <= 'f' then Some((c as int) - ('a' as int) + 10)
    else if 'A' <= c <= 'F' then Some((c as int) - ('A' as int) + 10)
    else None
  }

  function DigitIn(c: char, radix: nat): Option<nat> {
    var v := HexValue(c);
    if v.Some? && v.value < radix then v else None
  }

  /** Number of leading characters of `s` that are digits in `radix`. */
  function DigitRun(s: string, radix: nat): (k: nat)
    ensures k <= |s|
    ensures forall i :: 0 <= i < k ==> DigitIn(s[i], radix).Some?
    ensures k < |s| ==> DigitIn(s[k], radix).None?
  {
    if s != [] && DigitIn(s[0], radix).Some? then 1 + DigitRun(s[1..], radix) else 0
  }

  /** The value of a digit string in `radix`. */
  function DigitsValue(s: string, radix: nat): nat
    requires forall i :: 0 <= i < |s| ==> DigitIn(s[i], radix).Some?
  {
    if s == [] then 0
    else
      var high := DigitsValue(s[..|s| - 1], radix);
      MulNat(high, radix);
      high * radix + DigitIn(s[|s| - 1], radix).value
  }

  lemma MulNat(a: nat, b: nat)
    ensures a * b >= 0
  {
  }

  /**
   * `parseInt(s)` with no radix argument: leading white space is skipped, an optional
   * sign is read, a `0x`/`0X` prefix selects radix 16, and the longest run of digits
   * that follows is converted; `None` stands for NaN.
   */
  function ParseInt(s: string): Option<int> {
    var t := TrimStart(s);
    if t != [] && t[0] == '-' then
      match ParseMagnitude(t[1..])
      case None => None
      case Some(v) => Some(0 - v)
    else if t != [] && t[0] == '+' then ParseMagnitudeInt(t[1..])
    else ParseMagnitudeInt(t)
  }

  /** The unsigned part of `parseInt`: a `0x`/`0X` prefix selects radix 16. */
  function ParseMagnitude(u: string): Option<nat> {
    if |u| >= 2 && u[0] == '0' && (u[1] == 'x' || u[1] == 'X') then ParseDigits(u[2..], 16)
    else ParseDigits(u, 10)
  }

  function ParseMagnitudeInt(u: string): Option<int> {
    match ParseMagnitude(u)
    case None => None
    case Some(v) => Some(v)
  }

  /** The value of the longest prefix of digits in `radix`, or NaN when there is none. */
  function ParseDigits(b: string, radix: nat): Option<nat> {
    var k := DigitRun(b, radix);
    if k == 0 then None else Some(DigitsValue(b[..k], radix))
  }

  lemma {:induction false} DigitsValueOfDecimal(n: nat)
    ensures forall i :: 0 <= i < |NatToString(n)| ==> DigitIn(NatToString(n)[i], 10).Some?
    ensures DigitsValue(NatToString(n), 10) == n
    decreases n
  {
    if n >= 10 {
      DigitsValueOfDecimal(n / 10);
      var s := NatToString(n);
      assert s[..|s| - 1] == NatToString(n / 10);
    }
  }

  lemma {:induction false} DigitRunAll(s: string, radix: nat)
    requires forall i :: 0 <= i < |s| ==> DigitIn(s[i], radix).Some?
    ensures DigitRun(s, radix) == |s|
    decreases |s|
  {
    if s != [] {
      DigitRunAll(s[1..], radix);
    }
  }

  lemma DigitsAreRadixTen(d: string)
    requires AllDigits(d)
    ensures forall i :: 0 <= i < |d| ==> DigitIn(d[i], 10).Some?
  {
  }

  /** What `parseInt` reads from a non-empty decimal digit string, with and without a minus sign. */
  lemma {:induction false} ParseIntOfDigits(d: string)
    requires d != [] && AllDigits(d)
    ensures forall i :: 0 <= i < |d| ==> DigitIn(d[i], 10).Some?
    ensures ParseMagnitude(d) == Some(DigitsValue(d, 10))
  {
    DigitsAreRadixTen(d);
    DigitRunAll(d, 10);
    assert d[..|d|] == d;
  }

  /** `parseInt(String(n))` gives `n` back for every integer. */
  lemma ParseIntOfIntToString(n: int)
    ensures ParseInt(IntToString(n)) == Some(n)
  {
    var m: nat := if n < 0 then -n else n;
    var d := NatToString(m);
    DigitsValueOfDecimal(m);
    ParseIntOfDigits(d);
    if n < 0 {
      ParseIntNegative(d, m);
    } else {
      ParseIntUnsigned(d, m);
    }
  }

  lemma ParseIntUnsigned(d: string, m: nat)
    requires d != [] && AllDigits(d) && ParseMagnitude(d) == Some(m)
    ensures ParseInt(d) == Some(m)
  {
    assert IsDigit(d[0]);
    ParseIntOfDigitStart(d);
  }

  /** Text that starts with a digit has neither leading white space nor a sign: `parseInt` reads its magnitude. */
  lemma ParseIntOfDigitStart(u: string)
    requires u != [] && IsDigit(u[0])
    ensures ParseInt(u) == ParseMagnitudeInt(u)
  {
    NoLeadingSpace(u);
    assert u[0] != '-' && u[0] != '+';
  }

  /** Text that starts with a digit has nothing for `TrimStart` to remove. */
  lemma NoLeadingSpace(d: string)
    requires d != [] && IsDigit(d[0])
    ensures TrimStart(d) == d
  {
    assert !IsSpace(d[0]);
  }

  lemma ParseIntNegative(d: string, m: nat)
    requires d != [] && AllDigits(d) && ParseMagnitude(d) == Some(m)
    ensures ParseInt("-" + d) == Some(0 - m)
  {
    var t := "-" + d;
    assert t[0] == '-';
    assert TrimStart(t) == t;
    assert t[1..] == d;
  }
}
