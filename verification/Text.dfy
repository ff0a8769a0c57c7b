/**
 Character classes and the small operations on strings and sets the other
 modules share.
 Strings are sequences of Unicode scalar values. A number printed in decimal
 is a sequence of digits, and Value is its inverse.
 */
module Text {

  datatype Option<+T> = None | Some(value: T)

  predicate IsDigit(c: char) {
    '0' <= c <= '9'
  }

  predicate IsAlnum(c: char) {
    IsDigit(c) || 'a' <= c <= 'z' || 'A' <= c <= 'Z'
  }

  /** The word characters of a regular expression's \w and \b. */
  predicate IsWord(c: char) {
    IsAlnum(c) || c == '_'
  }

  /** The blanks of a regular expression's \s. */
  predicate IsBlank(c: char) {
    c == ' ' || c == '\t' || c == '\n' || c == '\r' || c == '\U{0C}'
  }

  /** unicode.IsSpace, which TrimSpace and Fields use. */
  predicate IsSpace(c: char) {
    || IsBlank(c) || c == '\U{0B}' || c == '\U{85}' || c == '\U{A0}' || c == '\U{1680}'
    || '\U{2000}' <= c <= '\U{200A}' || c == '\U{2028}' || c == '\U{2029}' || c == '\U{202F}'
    || c == '\U{205F}' || c == '\U{3000}'
  }

  function LowerChar(c: char): char {
    if 'A' <= c <= 'Z' then c - 'A' + 'a' else c
  }

  function Lower(s: string): string {
    seq(|s|, i requires 0 <= i < |s| => LowerChar(s[i]))
  }

  /** How many characters from position i on are in the class. */
  function RunLength(s: string, i: nat, inClass: char -> bool): (n: nat)
    requires i <= |s|
    ensures i + n <= |s|
    ensures forall k :: i <= k < i + n ==> inClass(s[k])
    ensures i + n < |s| ==> !inClass(s[i + n])
    decreases |s| - i
  {
    if i < |s| && inClass(s[i]) then 1 + RunLength(s, i + 1, inClass) else 0
  }

  /** The contract of RunLength leaves one value. */
  lemma RunLengthIs(s: string, i: nat, inClass: char -> bool, n: nat)
    requires i + n <= |s|
    requires forall k :: i <= k < i + n ==> inClass(s[k])
    requires i + n < |s| ==> !inClass(s[i + n])
    ensures RunLength(s, i, inClass) == n
  {
  }

  function TrimLeft(s: string, inClass: char -> bool): string {
    s[RunLength(s, 0, inClass)..]
  }

  function TrimRight(s: string, inClass: char -> bool): (t: string)
    ensures t <= s
    ensures t != [] ==> !inClass(t[|t| - 1])
    ensures forall k :: |t| <= k < |s| ==> inClass(s[k])
  {
    if s != [] && inClass(s[|s| - 1]) then TrimRight(s[..|s| - 1], inClass) else s
  }

  function Trim(s: string, inClass: char -> bool): string {
    TrimRight(TrimLeft(s, inClass), inClass)
  }

  lemma TrimNothing(s: string, inClass: char -> bool)
    requires s != [] ==> !inClass(s[0]) && !inClass(s[|s| - 1])
    ensures Trim(s, inClass) == s
  {
    assert TrimLeft(s, inClass) == s;
  }

  function TrimSpace(s: string): string {
    Trim(s, IsSpace)
  }

  predicate HasSuffix(s: string, suffix: string) {
    |suffix| <= |s| && s[|s| - |suffix|..] == suffix
  }

  function TrimSuffix(s: string, suffix: string): string {
    if HasSuffix(s, suffix) then s[..|s| - |suffix|] else s
  }

  function Replace(s: string, from: char, to: char): (t: string)
    ensures |t| == |s|
    ensures forall i :: 0 <= i < |s| ==> t[i] == if s[i] == from then to else s[i]
  {
    seq(|s|, i requires 0 <= i < |s| => if s[i] == from then to else s[i])
  }

  /** The position of the first occurrence of sep, or None. */
  function IndexOf(s: string, sep: string): (r: Option<nat>)
    ensures r.Some? ==> r.value + |sep| <= |s| && s[r.value..r.value + |sep|] == sep
    decreases |s|
  {
    if sep <= s then
      Some(0)
    else if s == [] then
      None
    else
      match IndexOf(s[1..], sep)
      case None => None
      case Some(k) => Some(k + 1)
  }

  /** strings.Cut: what stands before and after the first sep. */
  function Cut(s: string, sep: string): Option<(string, string)> {
    match IndexOf(s, sep)
    case None => None
    case Some(k) => Some((s[..k], s[k + |sep|..]))
  }

  function Decimal(n: nat): (s: string)
    ensures |s| >= 1
    ensures forall c :: c in s ==> IsDigit(c)
  {
    if n < 10 then [n as char + '0'] else Decimal(n / 10) + [(n % 10) as char + '0']
  }

  function DigitValue(c: char): nat
    requires IsDigit(c)
  {
    (c - '0') as nat
  }

  /** strconv.Atoi on a non-empty run of digits short enough not to overflow. */
  function Value(s: string): nat
    requires forall c :: c in s ==> IsDigit(c)
  {
    if s == [] then 0 else 10 * Value(s[..|s| - 1]) + DigitValue(s[|s| - 1])
  }

  lemma {:induction false} ValueOfDecimal(n: nat)
    ensures Value(Decimal(n)) == n
  {
    var s := Decimal(n);
    if n >= 10 {
      assert s[..|s| - 1] == Decimal(n / 10);
      ValueOfDecimal(n / 10);
    }
  }

  lemma {:induction false} DecimalLength(n: nat)
    ensures n < 10 <==> |Decimal(n)| == 1
    ensures n < 100 <==> |Decimal(n)| <= 2
    ensures n < 1000 <==> |Decimal(n)| <= 3
    ensures n < 10000 <==> |Decimal(n)| <= 4
  {
    if n >= 10 {
      DecimalLength(n / 10);
    }
  }

  lemma ValueOfZeroPadded(s: string)
    requires forall c :: c in s ==> IsDigit(c)
    ensures Value("0" + s) == Value(s)
  {
    if s != [] {
      var t := "0" + s;
      assert t[..|t| - 1] == "0" + s[..|s| - 1];
      ValueOfZeroPadded(s[..|s| - 1]);
    }
  }

  /** strconv.Atoi on a short text: an optional sign and digits. */
  function Atoi(s: string): Option<int> {
    var digits := if s != "" && s[0] in "+-" then s[1..] else s;
    if digits == "" || RunLength(digits, 0, IsDigit) < |digits| then None
    else
      var n: int := Value(digits);
      Some(if s[0] == '-' then -n else n)
  }

  /** Printf's %02d: two digits at least, the sign taking one of them. */
  function Pad2(n: int): string {
    if n < 0 then "-" + Decimal(-n)
    else if n < 10 then "0" + Decimal(n)
    else Decimal(n)
  }

  lemma Pad2Digits(n: nat)
    ensures forall c :: c in Pad2(n) ==> IsDigit(c)
    ensures Value(Pad2(n)) == n
    ensures |Pad2(n)| >= 2
    ensures n <= 99 <==> |Pad2(n)| <= 2
    ensures n <= 9999 <==> |Pad2(n)| <= 4
  {
    ValueOfDecimal(n);
    DecimalLength(n);
    ValueOfZeroPadded(Decimal(n));
  }

  /** Go's < on strings: the order of the code points at the first difference. */
  predicate LexLess(a: string, b: string) {
    if b == [] then false
    else if a == [] then true
    else a[0] < b[0] || (a[0] == b[0] && LexLess(a[1..], b[1..]))
  }

  lemma {:induction false} LexTotal(a: string, b: string)
    ensures LexLess(a, b) || LexLess(b, a) || a == b
    ensures !(LexLess(a, b) && LexLess(b, a))
    ensures !LexLess(a, a)
    decreases |a|
  {
    if a != [] {
      LexTotal(a[1..], a[1..]);
      if b != [] {
        LexTotal(a[1..], b[1..]);
        assert a == [a[0]] + a[1..] && b == [b[0]] + b[1..];
      }
    }
  }

  lemma {:induction false} LexTransitive(a: string, b: string, c: string)
    requires LexLess(a, b) && LexLess(b, c)
    ensures LexLess(a, c)
    decreases |a|
  {
    if a != [] && a[0] == b[0] == c[0] {
      LexTransitive(a[1..], b[1..], c[1..]);
    }
  }

  lemma {:induction false} LexLessConcat(a: string, b: string, x: string, y: string)
    requires |a| == |b|
    ensures LexLess(a + x, b + y) <==> LexLess(a, b) || (a == b && LexLess(x, y))
  {
    if a == [] {
      assert a + x == x && b + y == y;
    } else {
      assert (a + x)[1..] == a[1..] + x && (b + y)[1..] == b[1..] + y;
      assert a == [a[0]] + a[1..] && b == [b[0]] + b[1..];
      LexLessConcat(a[1..], b[1..], x, y);
    }
  }

  predicate AllDigits(s: string) {
    forall c :: c in s ==> IsDigit(c)
  }

  lemma LexOfOne(x: char, y: char)
    ensures LexLess([x], [y]) <==> x < y
  {
    assert [x][1..] == [] && [y][1..] == [];
  }

  /** On digits of one length, the order of strings is the order of numbers. */
  lemma {:induction false} LexIsNumeric(a: string, b: string)
    requires |a| == |b| && AllDigits(a) && AllDigits(b)
    ensures LexLess(a, b) <==> Value(a) < Value(b)
    ensures a == b <==> Value(a) == Value(b)
  {
    if a != [] {
      var n := |a| - 1;
      assert a == a[..n] + [a[n]] && b == b[..n] + [b[n]];
      LexIsNumeric(a[..n], b[..n]);
      LexLessConcat(a[..n], b[..n], [a[n]], [b[n]]);
      assert a[n] in a && b[n] in b;
      LexOfOne(a[n], b[n]);
    }
  }

  lemma SubsetSize<T>(a: set<T>, b: set<T>)
    requires a <= b
    ensures |a| <= |b|
  {
    assert b == a + (b - a);
  }

  /** strconv.Atoi reads back a run of digits as its number. */
  lemma AtoiOfDigits(digits: string)
    requires digits != "" && AllDigits(digits)
    ensures Atoi(digits) == Some(Value(digits))
  {
    assert digits[0] in digits;
    forall i | 0 <= i < |digits|
      ensures IsDigit(digits[i])
    {
      assert digits[i] in digits;
    }
    RunLengthIs(digits, 0, IsDigit, |digits|);
  }
}
