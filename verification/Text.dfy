/** Strings as the backend uses them: whitespace stripping, ASCII case folding,
    the code-point order that MongoDB and Python use to compare strings, and
    zero-padded decimal fields. */
module Text {
  import opened Prelude

  predicate IsSpace(c: char) {
    c in {' ', '\t', '\n', '\r', '\U{000B}', '\U{000C}', '\U{001C}', '\U{001D}', '\U{001E}', '\U{001F}', '\U{0085}',
      '\U{00A0}'}
  }

  /** What `str.isspace` accepts among the first 256 code points. */
  lemma SpacesExactly(c: char)
    ensures IsSpace(c) <==> c as int in {9, 10, 11, 12, 13, 28, 29, 30, 31, 32, 133, 160}
  {
  }

  function TrimLeft(s: string): (r: string)
    ensures |r| <= |s|
    ensures r == [] || !IsSpace(r[0])
  {
    if s != [] && IsSpace(s[0]) then TrimLeft(s[1..]) else s
  }

  function TrimRight(s: string): (r: string)
    ensures |r| <= |s| && r == s[..|r|]
    ensures r == [] || !IsSpace(r[|r| - 1])
  {
    if s != [] && IsSpace(s[|s| - 1]) then TrimRight(s[..|s| - 1]) else s
  }

  /** `str.strip()`. */
  function Trim(s: string): string {
    TrimRight(TrimLeft(s))
  }

  predicate Trimmed(s: string) {
    s == [] || (!IsSpace(s[0]) && !IsSpace(s[|s| - 1]))
  }

  lemma TrimIsTrimmed(s: string)
    ensures Trimmed(Trim(s))
    ensures Trim(Trim(s)) == Trim(s)
  {
  }

  lemma TrimOfTrimmed(s: string)
    requires Trimmed(s)
    ensures Trim(s) == s
  {
  }

  lemma {:induction false} TrimLeftSplits(s: string) returns (n: nat)
    ensures n <= |s| && TrimLeft(s) == s[n..] && forall i :: 0 <= i < n ==> IsSpace(s[i])
  {
    n := 0;
    if s != [] && IsSpace(s[0]) {
      var m := TrimLeftSplits(s[1..]);
      n := m + 1;
      assert s[1..][m..] == s[n..];
      forall i | 0 < i < n ensures IsSpace(s[i]) { assert s[i] == s[1..][i - 1]; }
    }
  }

  lemma {:induction false} TrimRightSplits(s: string)
    ensures forall i :: |TrimRight(s)| <= i < |s| ==> IsSpace(s[i])
  {
    if s != [] && IsSpace(s[|s| - 1]) { TrimRightSplits(s[..|s| - 1]); }
  }

  /** A text is blanks, the stripped text, and blanks again. */
  lemma {:induction false} TrimSplits(s: string)
    ensures exists i, j ::
      && 0 <= i <= j <= |s| && Trim(s) == s[i..j] && Trimmed(s[i..j])
      && (forall k :: 0 <= k < |s| && !(i <= k < j) ==> IsSpace(s[k]))
  {
    var i := TrimLeftSplits(s);
    var rest := s[i..];
    TrimRightSplits(rest);
    var j := i + |Trim(s)|;
    TrimIsTrimmed(s);
    assert Trim(s) == s[i..j];
    forall k | 0 <= k < |s| && !(i <= k < j) ensures IsSpace(s[k]) {
      if k >= j { assert s[k] == rest[k - i]; }
    }
  }

  /** Python's `a or b`. */
  function OrElse(a: string, b: string): string {
    if a != "" then a else b
  }

  function LowerChar(c: char): char {
    if 'A' <= c <= 'Z' then (c as int + 32) as char else c
  }

  function UpperChar(c: char): char {
    if 'a' <= c <= 'z' then (c as int - 32) as char else c
  }

  function Lower(s: string): (r: string)
    ensures |r| == |s| && forall i :: 0 <= i < |s| ==> r[i] == LowerChar(s[i])
  {
    seq(|s|, i requires 0 <= i < |s| => LowerChar(s[i]))
  }

  function Upper(s: string): (r: string)
    ensures |r| == |s| && forall i :: 0 <= i < |s| ==> r[i] == UpperChar(s[i])
  {
    seq(|s|, i requires 0 <= i < |s| => UpperChar(s[i]))
  }

  lemma LowerIdempotent(s: string)
    ensures Lower(Lower(s)) == Lower(s)
    ensures Trimmed(s) ==> Trimmed(Lower(s))
  {
  }

  lemma UpperIdempotent(s: string)
    ensures Upper(Upper(s)) == Upper(s)
    ensures Trimmed(s) ==> Trimmed(Upper(s))
  {
  }

  // ---- Code-point order ------------------------------------------------

  /** Strict code-point order, a proper prefix coming first. */
  predicate Less(a: string, b: string) {
    b != [] && (a == [] || a[0] < b[0] || (a[0] == b[0] && Less(a[1..], b[1..])))
  }

  predicate LessEq(a: string, b: string) {
    a == b || Less(a, b)
  }

  lemma {:induction false} LessIrreflexive(a: string)
    ensures !Less(a, a)
  {
    if a != [] { LessIrreflexive(a[1..]); }
  }

  lemma {:induction false} LessTransitive(a: string, b: string, c: string)
    requires Less(a, b) && Less(b, c)
    ensures Less(a, c)
  {
    if a != [] && a[0] == b[0] == c[0] { LessTransitive(a[1..], b[1..], c[1..]); }
  }

  lemma {:induction false} LessTotal(a: string, b: string)
    ensures Less(a, b) || a == b || Less(b, a)
  {
    if a != [] && b != [] && a[0] == b[0] {
      LessTotal(a[1..], b[1..]);
      if a[1..] == b[1..] { assert a == [a[0]] + a[1..] && b == [b[0]] + b[1..]; }
    }
  }

  lemma LessEqIsTotalOrder(a: string, b: string, c: string)
    ensures LessEq(a, a)
    ensures LessEq(a, b) || LessEq(b, a)
    ensures LessEq(a, b) && LessEq(b, a) ==> a == b
    ensures LessEq(a, b) && LessEq(b, c) ==> LessEq(a, c)
  {
    LessTotal(a, b);
    if Less(a, b) && Less(b, a) { LessTransitive(a, b, a); LessIrreflexive(a); }
    if Less(a, b) && Less(b, c) { LessTransitive(a, b, c); }
  }

  // ---- Decimal fields ----------------------------------------------------

  function DigitChar(d: int): char
    requires 0 <= d < 10
  {
    (d + 48) as char
  }

  /** `n` in exactly `w` decimal digits (the value is taken modulo 10^w). */
  function Pad(n: nat, w: nat): (r: string)
    ensures |r| == w
    ensures forall i :: 0 <= i < w ==> '0' <= r[i] <= '9'
  {
    if w == 0 then [] else Pad(n / 10, w - 1) + [DigitChar(n % 10)]
  }

  function Pow10(w: nat): (p: nat)
    ensures p >= 1
  {
    if w == 0 then 1 else 10 * Pow10(w - 1)
  }

  /** Python's `str(n)` for n >= 0. */
  function Decimal(n: nat): (r: string)
    ensures |r| >= 1
    ensures forall i :: 0 <= i < |r| ==> '0' <= r[i] <= '9'
  {
    if n < 10 then [DigitChar(n)] else Decimal(n / 10) + [DigitChar(n % 10)]
  }

  function Value(s: string): nat
    requires forall i :: 0 <= i < |s| ==> '0' <= s[i] <= '9'
  {
    if s == [] then 0 else 10 * Value(s[..|s| - 1]) + (s[|s| - 1] as int - 48)
  }

  /** Python's `str(n)`. */
  function ShowInt(n: int): string {
    if n < 0 then "-" + Decimal(-n) else Decimal(n)
  }

  predicate AllDigits(s: string) {
    s != "" && forall i :: 0 <= i < |s| ==> '0' <= s[i] <= '9'
  }

  /** Python's `int(s)`: surrounding whitespace and a sign are allowed; none where it raises. */
  function ParseInt(s: string): Option<int> {
    var t := Trim(s);
    if AllDigits(t) then Some(Value(t))
    else if t != "" && t[0] == '+' && AllDigits(t[1..]) then Some(Value(t[1..]))
    else if t != "" && t[0] == '-' && AllDigits(t[1..]) then Some(0 - Value(t[1..]))
    else None
  }

  /** A numeral is read with and without a sign; nothing else is. */
  lemma {:induction false} ParseSigns(s: string)
    requires AllDigits(s)
    ensures ParseInt(s) == Some(Value(s)) && ParseInt("+" + s) == Some(Value(s))
      && ParseInt("-" + s) == Some(0 - Value(s))
  {
    hide Trim, Value;
    TrimOfTrimmed(s);
    TrimOfTrimmed("+" + s);
    TrimOfTrimmed("-" + s);
    assert ("+" + s)[1..] == s && ("-" + s)[1..] == s;
  }

  lemma {:induction false} ValueOfDecimal(n: nat)
    ensures Value(Decimal(n)) == n
  {
    if n < 10 {
      assert Decimal(n)[..0] == [];
    } else {
      ValueOfDecimal(n / 10);
      assert Decimal(n)[..|Decimal(n)| - 1] == Decimal(n / 10);
    }
  }

  lemma {:induction false} ValueOfPad(n: nat, w: nat)
    requires n < Pow10(w)
    ensures Value(Pad(n, w)) == n
  {
    if w > 0 {
      ValueOfPad(n / 10, w - 1);
      assert Pad(n, w)[..w - 1] == Pad(n / 10, w - 1);
    }
  }

  lemma DigitOrder(a: int, b: int, x: string, y: string)
    requires 0 <= a < 10 && 0 <= b < 10
    ensures Less([DigitChar(a)] + x, [DigitChar(b)] + y) <==> a < b || (a == b && Less(x, y))
  {
    assert ([DigitChar(a)] + x)[1..] == x && ([DigitChar(b)] + y)[1..] == y;
  }

  /** Fixed-width fields compare like the numbers they hold, whatever follows. */
  lemma {:induction false} PadOrder(a: nat, b: nat, w: nat, x: string, y: string)
    requires a < Pow10(w) && b < Pow10(w)
    ensures Less(Pad(a, w) + x, Pad(b, w) + y) <==> a < b || (a == b && Less(x, y))
  {
    hide Less, DigitChar;
    if w == 0 {
      assert Pad(a, 0) + x == x && Pad(b, 0) + y == y;
    } else {
      var da, db := [DigitChar(a % 10)], [DigitChar(b % 10)];
      assert Pad(a, w) + x == Pad(a / 10, w - 1) + (da + x);
      assert Pad(b, w) + y == Pad(b / 10, w - 1) + (db + y);
      PadOrder(a / 10, b / 10, w - 1, da + x, db + y);
      DigitOrder(a % 10, b % 10, x, y);
    }
  }

  /** A common literal separator does not affect the order. */
  lemma PrefixOrder(c: char, x: string, y: string)
    ensures Less([c] + x, [c] + y) <==> Less(x, y)
  {
    assert ([c] + x)[1..] == x && ([c] + y)[1..] == y;
  }
}
