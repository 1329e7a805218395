/** The Python string operations the core relies on, on `string`
    (a sequence of Unicode scalar values, as a Python `str` is a sequence of
    code points): `split`, `replace(" ", "")`, `endswith`, `isdigit`,
    `int()` on a string, `str()` of a non-negative integer, and the ordering
    `<` that `sorted` uses. Only the ASCII digits count as digits here. */
module Text {
  import opened Wrappers
  import opened Seqs

  predicate IsDigit(c: char) {
    '0' <= c <= '9'
  }

  /** `s.isdigit()`: non-empty and made of digits only. */
  predicate IsDigitString(s: string) {
    |s| > 0 && forall i :: 0 <= i < |s| ==> IsDigit(s[i])
  }

  function DigitValue(c: char): (d: nat)
    requires IsDigit(c)
    ensures d < 10
  {
    (c as int) - ('0' as int)
  }

  function DigitChar(d: nat): (c: char)
    requires d < 10
    ensures IsDigit(c) && DigitValue(c) == d
  {
    (('0' as int) + d) as char
  }

  /** `s.replace(" ", "")` */
  function RemoveSpaces(s: string): (r: string)
    ensures ' ' !in r
    ensures |r| <= |s|
    ensures ' ' !in s ==> r == s
  {
    var r := Filter(s, c => c != ' ');
    if ' ' !in s then FilterAll(s, c => c != ' '); r else r
  }

  /** `s.split(sep)[0]`: the longest prefix of `s` without `sep`. */
  function SplitHead(s: string, sep: char): (r: string)
    ensures r <= s
    ensures sep !in r
    ensures |r| < |s| ==> s[|r|] == sep
  {
    if s == [] || s[0] == sep then [] else [s[0]] + SplitHead(s[1..], sep)
  }

  /** `s.split(sep)` with an explicit one-character separator. */
  function Split(s: string, sep: char): (parts: seq<string>)
    ensures |parts| >= 1 && parts[0] == SplitHead(s, sep)
    ensures forall i :: 0 <= i < |parts| ==> sep !in parts[i]
    decreases |s|
  {
    var h := SplitHead(s, sep);
    if |h| == |s| then [s] else [h] + Split(s[|h| + 1..], sep)
  }

  /** `s.endswith(suffix)` */
  predicate EndsWith(s: string, suffix: string) {
    |suffix| <= |s| && s[|s| - |suffix|..] == suffix
  }

  /** `c.isspace()` for a single character: the characters Python counts as
      whitespace. */
  predicate IsSpace(c: char) {
    || ('\U{0009}' <= c <= '\U{000D}') || ('\U{001C}' <= c <= '\U{0020}')
    || c == '\U{0085}' || c == '\U{00A0}' || c == '\U{1680}'
    || ('\U{2000}' <= c <= '\U{200A}') || c == '\U{2028}' || c == '\U{2029}'
    || c == '\U{202F}' || c == '\U{205F}' || c == '\U{3000}'
  }

  /** `s.lstrip()` */
  function StripLeft(s: string): string {
    if s != [] && IsSpace(s[0]) then StripLeft(s[1..]) else s
  }

  /** `s.rstrip()` */
  function StripRight(s: string): string {
    if s != [] && IsSpace(s[|s| - 1]) then StripRight(s[..|s| - 1]) else s
  }

  /** `s.strip()`: leading and trailing whitespace removed. */
  function Strip(s: string): string {
    StripRight(StripLeft(s))
  }

  /** The value of a string of decimal digits, most significant first. */
  function DigitsValue(s: string): nat
    requires forall i :: 0 <= i < |s| ==> IsDigit(s[i])
  {
    if s == [] then 0 else 10 * DigitsValue(s[..|s| - 1]) + DigitValue(s[|s| - 1])
  }

  /** The rest of an integer literal after its first digit, `acc` being the
      value read so far: a digit, or an underscore followed by a digit, at a
      time. */
  function DigitRun(u: string, acc: nat): Option<nat>
    decreases |u|
  {
    if u == [] then Some(acc)
    else if IsDigit(u[0]) then DigitRun(u[1..], 10 * acc + DigitValue(u[0]))
    else if u[0] == '_' && |u| >= 2 && IsDigit(u[1]) then DigitRun(u[2..], 10 * acc + DigitValue(u[1]))
    else None
  }

  /** An unsigned integer literal as `int()` reads it: a digit first, then
      digits with single underscores between two digits. */
  function Unsigned(u: string): Option<nat> {
    if u != [] && IsDigit(u[0]) then DigitRun(u[1..], DigitValue(u[0])) else None
  }

  /** `int(s)` for a `str` argument: surrounding whitespace, an optional sign,
      then digits (with `_` separators); anything else is a ValueError, here
      `None`. */
  function ParseInt(s: string): Option<int> {
    var t := Strip(s);
    if |t| > 0 && (t[0] == '-' || t[0] == '+') then
      match Unsigned(t[1..])
      case Some(n) => Some(if t[0] == '-' then -(n as int) else n as int)
      case None => None
    else
      match Unsigned(t)
      case Some(n) => Some(n)
      case None => None
  }

  /** A plain digit string is an integer, and its value is the decimal one. */
  lemma ParseDigits(s: string)
    requires IsDigitString(s)
    ensures ParseInt(s) == Some(DigitsValue(s))
  {
    StripDigits(s);
    UnsignedDigits(s);
    assert IsDigit(s[0]);
  }

  /** A cell that starts with neither a digit, a sign nor whitespace is not
      an integer: `int("Ab.")` is a ValueError. */
  lemma ParseNonNumeric(s: string)
    requires s != [] && !IsSpace(s[0]) && !IsSpace(s[|s| - 1])
    requires !IsDigit(s[0]) && s[0] != '-' && s[0] != '+'
    ensures ParseInt(s) == None
  {
    assert StripLeft(s) == s;
    assert Strip(s) == s;
  }

  lemma StripDigits(s: string)
    requires IsDigitString(s)
    ensures Strip(s) == s
  {
    assert StripLeft(s) == s;
  }

  /** Reading the digits `u` after a value `acc` shifts `acc` left by the
      number of digits and adds their value. */
  lemma {:induction false} DigitRunDigits(u: string, acc: nat)
    requires forall i :: 0 <= i < |u| ==> IsDigit(u[i])
    ensures DigitRun(u, acc) == Some(acc * Pow10(|u|) + DigitsValue(u))
    decreases |u|
  {
    if u != [] {
      var d := DigitValue(u[0]);
      var p := Pow10(|u| - 1);
      DigitRunDigits(u[1..], 10 * acc + d);
      LeadingDigit(u);
      ShiftValue(acc, d, p);
    }
  }

  lemma ShiftValue(acc: int, d: int, p: int)
    ensures (10 * acc + d) * p == acc * (10 * p) + d * p
  {
  }

  lemma UnsignedDigits(s: string)
    requires IsDigitString(s)
    ensures Unsigned(s) == Some(DigitsValue(s))
  {
    DigitRunDigits(s[1..], DigitValue(s[0]));
    LeadingDigit(s);
  }

  /** `str(n)` for `n >= 0` */
  function NatToString(n: nat): (s: string)
    ensures IsDigitString(s) && DigitsValue(s) == n
  {
    if n < 10 then [DigitChar(n)]
    else
      var s := NatToString(n / 10) + [DigitChar(n % 10)];
      assert s[..|s| - 1] == NatToString(n / 10);
      s
  }

  function Pow10(k: nat): (p: nat)
    ensures p >= 1
  {
    if k == 0 then 1 else 10 * Pow10(k - 1)
  }

  /** `n` written in exactly `w` digits, with leading zeros (`%0wd`). */
  function PadDigits(n: nat, w: nat): (s: string)
    requires n < Pow10(w)
    ensures |s| == w && (forall i :: 0 <= i < w ==> IsDigit(s[i]))
    ensures DigitsValue(s) == n
  {
    if w == 0 then []
    else
      var s := PadDigits(n / 10, w - 1) + [DigitChar(n % 10)];
      assert s[..|s| - 1] == PadDigits(n / 10, w - 1);
      s
  }

  lemma {:induction false} DigitsValueConcat(x: string, y: string)
    requires forall i :: 0 <= i < |x| ==> IsDigit(x[i])
    requires forall i :: 0 <= i < |y| ==> IsDigit(y[i])
    ensures DigitsValue(x + y) == DigitsValue(x) * Pow10(|y|) + DigitsValue(y)
    decreases |y|
  {
    if y == [] {
      assert x + y == x;
    } else {
      var y' := y[..|y| - 1];
      var c := DigitValue(y[|y| - 1]);
      assert (x + y)[..|x + y| - 1] == x + y';
      assert (x + y)[|x + y| - 1] == y[|y| - 1];
      DigitsValueConcat(x, y');
      assert DigitsValue(x + y) == 10 * DigitsValue(x + y') + c;
      ShiftDigit(DigitsValue(x), Pow10(|y'|), DigitsValue(y'), c);
    }
  }

  lemma ShiftDigit(a: int, p: int, b: int, c: int)
    ensures 10 * (a * p + b) + c == a * (10 * p) + (10 * b + c)
  {
  }

  lemma {:induction false} DigitsValueBound(s: string)
    requires forall i :: 0 <= i < |s| ==> IsDigit(s[i])
    ensures DigitsValue(s) < Pow10(|s|)
  {
    if s != [] {
      DigitsValueBound(s[..|s| - 1]);
    }
  }

  lemma {:induction false} LeadingDigit(x: string)
    requires |x| >= 1 && forall i :: 0 <= i < |x| ==> IsDigit(x[i])
    ensures DigitsValue(x) == DigitValue(x[0]) * Pow10(|x| - 1) + DigitsValue(x[1..])
    decreases |x|
  {
    var init := x[..|x| - 1];
    var last := DigitValue(x[|x| - 1]);
    if |x| == 1 {
      assert init == [] && x[1..] == [];
    } else {
      LeadingDigit(init);
      assert init[0] == x[0];
      assert init[1..] == x[1..][..|x| - 2];
      assert x[1..][|x| - 2] == x[|x| - 1];
      ShiftDigit(DigitValue(x[0]), Pow10(|x| - 2), DigitsValue(init[1..]), last);
    }
  }

  /** On digit strings of one length, the string order is the numeric order. */
  lemma {:induction false} LexLtDigits(x: string, y: string)
    requires |x| == |y|
    requires forall i :: 0 <= i < |x| ==> IsDigit(x[i])
    requires forall i :: 0 <= i < |y| ==> IsDigit(y[i])
    requires LexLt(x, y)
    ensures DigitsValue(x) < DigitsValue(y)
  {
    LeadingDigit(x);
    LeadingDigit(y);
    if x[0] == y[0] {
      LexLtDigits(x[1..], y[1..]);
    } else {
      DigitsValueBound(x[1..]);
      LeadingDigitDecides(DigitValue(x[0]), DigitValue(y[0]), Pow10(|x| - 1), DigitsValue(x[1..]), DigitsValue(y[1..]));
    }
  }

  lemma LeadingDigitDecides(a: nat, b: nat, p: nat, u: nat, v: nat)
    requires a < b && u < p
    ensures a * p + u < b * p + v
  {
    assert b * p == (a + 1) * p + (b - a - 1) * p;
  }

  /** Comparing two strings whose first parts have one length compares the
      first parts, then the rest. */
  lemma {:induction false} LexLtConcat(x: string, s: string, y: string, t: string)
    requires |x| == |y|
    requires LexLt(x + s, y + t)
    ensures LexLt(x, y) || (x == y && LexLt(s, t))
  {
    if x == [] {
      assert x + s == s && y + t == t;
    } else {
      assert (x + s)[0] == x[0] && (y + t)[0] == y[0];
      assert (x + s)[1..] == x[1..] + s && (y + t)[1..] == y[1..] + t;
      if x[0] == y[0] {
        LexLtConcat(x[1..], s, y[1..], t);
        if x[1..] == y[1..] {
          assert x == [x[0]] + x[1..] && y == [y[0]] + y[1..];
        }
      }
    }
  }

  /** Splitting a string whose first piece has no separator. */
  /** The first field of `x`, `sep`, `rest` is `x`. */
  lemma {:induction false} SplitHeadConcat(x: string, sep: char, rest: string)
    requires sep !in x
    ensures SplitHead(x + ([sep] + rest), sep) == x
  {
    if x != [] {
      assert (x + ([sep] + rest))[1..] == x[1..] + ([sep] + rest);
      SplitHeadConcat(x[1..], sep, rest);
    }
  }

  lemma SplitConcat(x: string, sep: char, rest: string)
    requires sep !in x
    ensures Split(x + ([sep] + rest), sep) == [x] + Split(rest, sep)
  {
    var s := x + ([sep] + rest);
    SplitHeadConcat(x, sep, rest);
    assert s[|x| + 1..] == rest;
  }

  /** Three fields joined by `sep` split back into those fields. */
  lemma SplitThree(a: string, b: string, c: string, sep: char)
    requires sep !in a && sep !in b && sep !in c
    ensures Split(a + ([sep] + (b + ([sep] + c))), sep) == [a, b, c]
  {
    SplitNoSep(c, sep);
    SplitConcat(b, sep, c);
    SplitConcat(a, sep, b + ([sep] + c));
  }

  lemma SplitNoSep(x: string, sep: char)
    requires sep !in x
    ensures Split(x, sep) == [x]
  {
  }

  // ----- the ordering of `str` values (what `sorted` uses) -----

  /** Python's `a < b` on strings: code point by code point, a proper prefix
      first. */
  predicate LexLt(a: string, b: string) {
    if a == [] then b != []
    else if b == [] then false
    else if a[0] != b[0] then a[0] < b[0]
    else LexLt(a[1..], b[1..])
  }

  predicate LexLe(a: string, b: string) {
    a == b || LexLt(a, b)
  }

  lemma {:induction false} LexLtIrreflexive(a: string)
    ensures !LexLt(a, a)
  {
    if a != [] {
      LexLtIrreflexive(a[1..]);
    }
  }

  lemma {:induction false} LexLtTransitive(a: string, b: string, c: string)
    requires LexLt(a, b) && LexLt(b, c)
    ensures LexLt(a, c)
  {
    if a != [] && b != [] && c != [] && a[0] == b[0] && b[0] == c[0] {
      LexLtTransitive(a[1..], b[1..], c[1..]);
    }
  }

  lemma {:induction false} LexLtTotal(a: string, b: string)
    ensures a == b || LexLt(a, b) || LexLt(b, a)
  {
    if a != [] && b != [] && a[0] == b[0] {
      LexLtTotal(a[1..], b[1..]);
      if a[1..] == b[1..] {
        assert a == [a[0]] + a[1..] && b == [b[0]] + b[1..];
      }
    }
  }

  lemma {:induction false} LexLtAsymmetric(a: string, b: string)
    requires LexLt(a, b)
    ensures !LexLt(b, a)
  {
    if LexLt(b, a) {
      LexLtTransitive(a, b, a);
      LexLtIrreflexive(a);
    }
  }

  // ----- `sorted(list(set(xs)))` -----

  predicate StrictlySorted(s: seq<string>) {
    forall i, j :: 0 <= i < j < |s| ==> LexLt(s[i], s[j])
  }

  lemma StrictlySortedNoDup(s: seq<string>)
    requires StrictlySorted(s)
    ensures NoDup(s)
  {
    forall i, j | 0 <= i < j < |s| ensures s[i] != s[j] {
      LexLtIrreflexive(s[i]);
    }
  }

  /** Inserts `x` at its place in a strictly sorted sequence, unless it is
      already there. */
  function Insert(x: string, s: seq<string>): (r: seq<string>)
    requires StrictlySorted(s)
    ensures StrictlySorted(r)
    ensures forall y :: y in r <==> y == x || y in s
  {
    if s == [] then [x]
    else if x == s[0] then s
    else if LexLt(x, s[0]) then
      assert forall j :: 0 <= j < |s| ==> LexLt(x, s[j]) by {
        forall j | 0 < j < |s| ensures LexLt(x, s[j]) {
          LexLtTransitive(x, s[0], s[j]);
        }
      }
      [x] + s
    else
      LexLtTotal(x, s[0]);
      var t := Insert(x, s[1..]);
      assert forall y :: y in t ==> LexLt(s[0], y);
      [s[0]] + t
  }

  /** `sorted(list(set(s)))` */
  function SortedUnique(s: seq<string>): (r: seq<string>)
    ensures StrictlySorted(r)
    ensures forall y :: y in r <==> y in s
  {
    if s == [] then [] else Insert(s[|s| - 1], SortedUnique(s[..|s| - 1]))
  }

  /** A set of strings has one strictly sorted listing, so `SortedUnique`
      fixes nothing that `sorted` leaves open. */
  lemma {:induction false} SortedListingUnique(a: seq<string>, b: seq<string>)
    requires StrictlySorted(a) && StrictlySorted(b)
    requires forall y :: y in a <==> y in b
    ensures a == b
  {
    assert a != [] ==> a[0] in b;
    assert b != [] ==> b[0] in a;
    if a != [] && b != [] {
      assert a[0] == b[0] by {
        LexLtTotal(a[0], b[0]);
        var k :| 0 <= k < |b| && b[k] == a[0];
        var j :| 0 <= j < |a| && a[j] == b[0];
        if LexLt(a[0], b[0]) {
          if k == 0 {
            LexLtIrreflexive(a[0]);
          } else {
            LexLtAsymmetric(a[0], b[0]);
          }
        }
      }
      forall y ensures y in a[1..] <==> y in b[1..] {
        StrictlySortedNoDup(a);
        StrictlySortedNoDup(b);
        if y in a[1..] {
          var i :| 1 <= i < |a| && a[i] == y;
          assert y in a;
          var j :| 0 <= j < |b| && b[j] == y;
          assert j != 0;
        }
        if y in b[1..] {
          var i :| 1 <= i < |b| && b[i] == y;
          assert y in b;
          var j :| 0 <= j < |a| && a[j] == y;
          assert j != 0;
        }
      }
      SortedListingUnique(a[1..], b[1..]);
    }
  }
}
