/** The string operations the application uses on `string`s: decimal rendering
    (template literals), fixed-width digits (ISO 8601 date keys), JavaScript's
    string comparison, `split`/`join`, `includes` and the truthiness-based `||`. */
module Text {
  import opened Wrappers

  // ---------------------------------------------------------------------------
  // Decimal digits

  predicate IsDigit(c: char) { '0' <= c <= '9' }

  predicate IsDigits(s: string) {
    forall i :: 0 <= i < |s| ==> IsDigit(s[i])
  }

  function DigitChar(n: nat): (c: char)
    requires n < 10
    ensures IsDigit(c)
  {
    ('0' as int + n) as char
  }

  function DigitValue(c: char): nat
    requires IsDigit(c)
  {
    c as int - '0' as int
  }

  /** The number a string of decimal digits spells. */
  function ParseDigits(s: string): nat
    requires IsDigits(s)
  {
    if s == [] then 0 else 10 * ParseDigits(s[..|s| - 1]) + DigitValue(s[|s| - 1])
  }

  function Pow10(n: nat): (r: nat)
    ensures r >= 1
  {
    if n == 0 then 1 else 10 * Pow10(n - 1)
  }

  /** `${n}` for a non-negative integer: its decimal digits, without leading zeros. */
  function Decimal(n: nat): (s: string)
    ensures |s| >= 1 && IsDigits(s)
    ensures |s| > 1 ==> s[0] != '0'
  {
    if n < 10 then [DigitChar(n)] else Decimal(n / 10) + [DigitChar(n % 10)]
  }

  /** `${i}` for any integer: a minus sign in front of the magnitude when negative. */
  function IntToString(i: int): string {
    if i < 0 then "-" + Decimal(-i) else Decimal(i)
  }

  /** The last `width` decimal digits of `n`, zero-padded on the left. */
  function Digits(n: nat, width: nat): (s: string)
    ensures |s| == width && IsDigits(s)
  {
    if width == 0 then "" else Digits(n / 10, width - 1) + [DigitChar(n % 10)]
  }

  lemma ParseLastDigit(s: string, c: char)
    requires IsDigits(s) && IsDigit(c)
    ensures IsDigits(s + [c]) && ParseDigits(s + [c]) == 10 * ParseDigits(s) + DigitValue(c)
  {
    assert (s + [c])[..|s + [c]| - 1] == s;
  }

  /** Reading back what Decimal wrote gives the number again. */
  lemma {:induction false} DecimalRoundTrip(n: nat)
    ensures ParseDigits(Decimal(n)) == n
  {
    if n < 10 {
      assert Decimal(n)[..0] == [];
    } else {
      DecimalRoundTrip(n / 10);
      ParseLastDigit(Decimal(n / 10), DigitChar(n % 10));
    }
  }

  /** Reads an optionally negative decimal integer; None when `s` is not one. */
  function ParseInt(s: string): Option<int> {
    if |s| >= 2 && s[0] == '-' && IsDigits(s[1..]) then Some(0 - ParseDigits(s[1..]) as int)
    else if |s| >= 1 && IsDigits(s) then Some(ParseDigits(s))
    else None
  }

  /** Reading back what IntToString wrote gives the integer again. */
  lemma IntToStringRoundTrip(i: int)
    ensures ParseInt(IntToString(i)) == Some(i)
  {
    var s := IntToString(i);
    if i < 0 {
      var d := Decimal(-i);
      assert s == "-" + d;
      assert s[1..] == d;
      assert |s| >= 2 && s[0] == '-' && IsDigits(s[1..]);
      DecimalRoundTrip(-i);
    } else {
      assert s == Decimal(i);
      assert IsDigit(s[0]);
      DecimalRoundTrip(i);
    }
  }

  /** Different integers are written differently. */
  lemma IntToStringInjective(a: int, b: int)
    requires IntToString(a) == IntToString(b)
    ensures a == b
  {
    IntToStringRoundTrip(a);
    IntToStringRoundTrip(b);
  }

  /** An integer's text is a minus sign and digits, or digits alone. */
  lemma IntToStringChars(i: int, c: char)
    requires c != '-' && !IsDigit(c)
    ensures c !in IntToString(i)
  {
  }

  /** Fixed-width digits lose nothing when the number fits the width. */
  lemma {:induction false} DigitsRoundTrip(n: nat, width: nat)
    requires n < Pow10(width)
    ensures ParseDigits(Digits(n, width)) == n
  {
    if width > 0 {
      DigitsRoundTrip(n / 10, width - 1);
      ParseLastDigit(Digits(n / 10, width - 1), DigitChar(n % 10));
    }
  }

  // ---------------------------------------------------------------------------
  // JavaScript string comparison

  /** JavaScript `a < b` on strings: the first differing character decides,
      and a proper prefix is smaller than the string it begins. Characters
      are compared as Unicode scalar values; JavaScript compares UTF-16 code
      units, which agrees on the ASCII keys this model compares. */
  predicate LexLess(a: string, b: string)
    decreases |a|
  {
    |b| > 0 && (|a| == 0 || a[0] < b[0] || (a[0] == b[0] && LexLess(a[1..], b[1..])))
  }

  /** JavaScript `a <= b` on strings, which the language defines as `!(b < a)`. */
  predicate LexLe(a: string, b: string) {
    !LexLess(b, a)
  }

  lemma {:induction false} LexLessIrreflexive(a: string)
    ensures !LexLess(a, a)
    decreases |a|
  {
    if |a| > 0 {
      LexLessIrreflexive(a[1..]);
    }
  }

  /** Any two different strings are ordered one way round, and never both ways. */
  lemma {:induction false} LexTrichotomy(a: string, b: string)
    ensures a == b || LexLess(a, b) || LexLess(b, a)
    ensures !(LexLess(a, b) && LexLess(b, a))
    decreases |a|
  {
    if |a| > 0 && |b| > 0 && a[0] == b[0] {
      LexTrichotomy(a[1..], b[1..]);
      if a[1..] == b[1..] {
        assert a == [a[0]] + a[1..] && b == [b[0]] + b[1..];
      }
    }
  }

  /** `<=` on strings is `<` or equality. */
  lemma LexLeIsLessOrEqual(a: string, b: string)
    ensures LexLe(a, b) <==> (a == b || LexLess(a, b))
  {
    LexTrichotomy(a, b);
    LexLessIrreflexive(a);
  }

  /** `<` on strings is transitive. */
  lemma {:induction false} LexLessTransitive(a: string, b: string, c: string)
    requires LexLess(a, b) && LexLess(b, c)
    ensures LexLess(a, c)
    decreases |a|
  {
    if |a| > 0 && a[0] == b[0] && b[0] == c[0] {
      LexLessTransitive(a[1..], b[1..], c[1..]);
    }
  }

  /** `<=` on strings is transitive. */
  lemma LexLeTransitive(a: string, b: string, c: string)
    ensures LexLe(a, b) && LexLe(b, c) ==> LexLe(a, c)
  {
    LexLeIsLessOrEqual(a, b);
    LexLeIsLessOrEqual(b, c);
    LexLeIsLessOrEqual(a, c);
    if LexLess(a, b) && LexLess(b, c) {
      LexLessTransitive(a, b, c);
    }
  }

  /** Comparing two strings whose first parts have equal length: the first parts
      decide unless they are equal, and then the rest decides. */
  lemma {:induction false} LexLessConcat(p: string, q: string, s: string, t: string)
    requires |p| == |q|
    ensures LexLess(p + s, q + t) <==> LexLess(p, q) || (p == q && LexLess(s, t))
    decreases |p|
  {
    if |p| == 0 {
      assert p + s == s && q + t == t;
    } else {
      assert (p + s)[1..] == p[1..] + s && (q + t)[1..] == q[1..] + t;
      LexLessConcat(p[1..], q[1..], s, t);
      if p[0] == q[0] && p[1..] == q[1..] {
        assert p == [p[0]] + p[1..] && q == [q[0]] + q[1..];
      }
    }
  }

  /** Zero-padded numbers of one width compare as strings the way they compare as numbers. */
  lemma {:induction false} DigitsOrder(a: nat, b: nat, width: nat)
    requires a < Pow10(width) && b < Pow10(width)
    ensures LexLess(Digits(a, width), Digits(b, width)) <==> a < b
    decreases width
  {
    if width > 0 {
      var p, q := Digits(a / 10, width - 1), Digits(b / 10, width - 1);
      var x, y := DigitChar(a % 10), DigitChar(b % 10);
      DigitsOrder(a / 10, b / 10, width - 1);
      DigitsOrder(b / 10, a / 10, width - 1);
      LexLessConcat(p, q, [x], [y]);
      LexLessIrreflexive(p);
      assert LexLess([x], [y]) <==> x < y;
      assert a == 10 * (a / 10) + a % 10 && b == 10 * (b / 10) + b % 10;
    }
  }

  // ---------------------------------------------------------------------------
  // Searching, splitting and joining

  predicate OccursAt(s: string, sep: string, i: nat) {
    i + |sep| <= |s| && s[i..i + |sep|] == sep
  }

  /** The first position at or after `i` where `sep` occurs in `s`. */
  function FindFrom(s: string, sep: string, i: nat): (r: Option<nat>)
    requires i <= |s|
    ensures r.Some? ==> i <= r.value && OccursAt(s, sep, r.value)
    ensures r.Some? ==> forall j :: i <= j < r.value ==> !OccursAt(s, sep, j)
    ensures r.None? ==> forall j :: i <= j <= |s| ==> !OccursAt(s, sep, j)
    decreases |s| - i
  {
    if OccursAt(s, sep, i) then Some(i)
    else if i == |s| then None
    else FindFrom(s, sep, i + 1)
  }

  /** JavaScript `s.indexOf(sep)`, with `None` for -1. */
  function IndexOf(s: string, sep: string): Option<nat> {
    FindFrom(s, sep, 0)
  }

  /** JavaScript `s.includes(sub)`. */
  predicate Contains(s: string, sub: string) {
    IndexOf(s, sub).Some?
  }

  /** JavaScript `s.split(sep)` for a non-empty separator: the pieces between
      the non-overlapping occurrences of `sep`, found left to right. */
  function Split(s: string, sep: string): (parts: seq<string>)
    requires sep != ""
    ensures |parts| >= 1
    decreases |s|
  {
    match IndexOf(s, sep)
    case None => [s]
    case Some(i) =>
      assert OccursAt(s, sep, i);
      [s[..i]] + Split(s[i + |sep|..], sep)
  }

  /** JavaScript `parts.join(sep)`. */
  function Join(parts: seq<string>, sep: string): string {
    if |parts| == 0 then ""
    else if |parts| == 1 then parts[0]
    else parts[0] + sep + Join(parts[1..], sep)
  }

  /** Joining the pieces of a split with the same separator gives back the string. */
  lemma {:induction false} JoinSplit(s: string, sep: string)
    requires sep != ""
    ensures Join(Split(s, sep), sep) == s
    decreases |s|
  {
    match IndexOf(s, sep)
    case None =>
    case Some(i) =>
      assert OccursAt(s, sep, i);
      var rest := s[i + |sep|..];
      var tail := Split(rest, sep);
      JoinSplit(rest, sep);
      assert Split(s, sep) == [s[..i]] + tail;
      assert Join([s[..i]] + tail, sep) == s[..i] + sep + Join(tail, sep) by {
        assert ([s[..i]] + tail)[1..] == tail;
      }
      assert s == s[..i] + sep + rest;
  }

  /** No piece of a split contains the separator. */
  lemma {:induction false} SplitPiecesFree(s: string, sep: string, k: nat)
    requires sep != "" && k < |Split(s, sep)|
    ensures !Contains(Split(s, sep)[k], sep)
    decreases |s|
  {
    match IndexOf(s, sep)
    case None =>
    case Some(i) =>
      assert OccursAt(s, sep, i);
      var tail := Split(s[i + |sep|..], sep);
      assert Split(s, sep) == [s[..i]] + tail;
      if k == 0 {
        var piece := s[..i];
        if Contains(piece, sep) {
          var j := IndexOf(piece, sep).value;
          assert piece[j..j + |sep|] == s[j..j + |sep|];
          assert OccursAt(s, sep, j);
          assert false;
        }
      } else {
        SplitPiecesFree(s[i + |sep|..], sep, k - 1);
        assert Split(s, sep)[k] == tail[k - 1];
      }
  }

  /** JavaScript `s.split(c)[0]`: the text before the first `c`, or all of `s`. */
  function BeforeFirst(s: string, c: char): string {
    Split(s, [c])[0]
  }

  /** The text before the first `c` is a prefix without `c`, and it is the whole
      text exactly when `c` does not occur. */
  lemma BeforeFirstIsPrefix(s: string, c: char)
    ensures BeforeFirst(s, c) <= s
    ensures c !in BeforeFirst(s, c)
    ensures BeforeFirst(s, c) == s <==> c !in s
  {
    var k := BeforeFirst(s, c);
    SplitPiecesFree(s, [c], 0);
    if c in k {
      var j :| 0 <= j < |k| && k[j] == c;
      assert k[j..j + 1] == [c];
      assert OccursAt(k, [c], j);
      assert false;
    }
    match IndexOf(s, [c])
    case None =>
    case Some(i) =>
      assert s[i..i + 1] == [c];
      assert s[i] == c;
  }

  /** A key followed by `c` and anything: the text before the first `c` is the key. */
  lemma BeforeFirstOfPrefix(key: string, c: char, rest: string)
    requires c !in key
    ensures BeforeFirst(key + [c] + rest, c) == key
  {
    var s := key + [c] + rest;
    assert OccursAt(s, [c], |key|) by { assert s[|key|..|key| + 1] == [c]; }
    forall j | 0 <= j < |key|
      ensures !OccursAt(s, [c], j)
    {
      assert s[j] == key[j];
      assert s[j..j + 1] == [s[j]];
    }
    var i := IndexOf(s, [c]).value;
    assert i == |key|;
    assert s[..i] == key;
  }

  /** A string is its text before position `k`, the character there and the rest. */
  lemma Rejoin(s: string, k: nat)
    requires k < |s|
    ensures s == s[..k] + [s[k]] + s[k + 1..]
  {
  }

  /** A string is a prefix of it followed by the rest. */
  lemma PrefixRest(s: string, p: string)
    requires p <= s
    ensures s == p + s[|p|..]
  {
  }

  /** When `c` occurs, the text before the first `c` is followed by `c`. */
  lemma BeforeFirstFollowedBy(s: string, c: char)
    requires BeforeFirst(s, c) != s
    ensures |BeforeFirst(s, c)| < |s| && s[|BeforeFirst(s, c)|] == c
  {
    match IndexOf(s, [c])
    case None =>
      assert false;
    case Some(i) =>
      assert OccursAt(s, [c], i);
      assert s[i..i + 1] == [c];
      assert BeforeFirst(s, c) == s[..i];
  }

  /** A string without the separator's first character splits into itself. */
  lemma SplitWithout(s: string, sep: string)
    requires sep != "" && sep[0] !in s
    ensures Split(s, sep) == [s]
  {
    match IndexOf(s, sep)
    case None =>
    case Some(i) =>
      assert false;
  }

  /** A key without the separator's first character, then the separator: the
      split's first piece is the key. */
  lemma SplitFirstOfPrefix(key: string, sep: string, rest: string)
    requires sep != "" && sep[0] !in key
    ensures Split(key + sep + rest, sep)[0] == key
  {
    var s := key + sep + rest;
    assert OccursAt(s, sep, |key|) by { assert s[|key|..|key| + |sep|] == sep; }
    forall j | 0 <= j < |key|
      ensures !OccursAt(s, sep, j)
    {
      assert s[j] == key[j];
    }
    var i := IndexOf(s, sep).value;
    assert i == |key|;
    assert s[..i] == key;
  }

  // ---------------------------------------------------------------------------
  // Truthiness

  /** JavaScript `a || b` where `a` is a string: `a` unless it is empty. */
  function Or(a: string, b: string): string {
    if a != "" then a else b
  }
}
