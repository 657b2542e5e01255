/** The helper that turns a loosely typed value into the integer 0 or 1:
    None and False give 0, True gives 1, and any other value gives 1 exactly
    when its string form, stripped and lower-cased, is one of the truthy words. */
module Coercion {
  import opened Values

  /** The spellings that count as "yes". */
  predicate IsTruthyWord(w: string) {
    w == "1" || w == "true" || w == "t" || w == "yes" || w == "y"
  }

  /** Every truthy word is non-empty and starts and ends with a digit or a lower-case letter. */
  lemma TruthyWordShape(w: string)
    requires IsTruthyWord(w)
    ensures w != [] && !IsSpace(w[0]) && !IsSpace(w[|w| - 1])
    ensures w[0] == '1' || 'a' <= w[0] <= 'z'
    ensures 2 <= |w| ==> 'a' <= w[0] <= 'z'
  {
  }

  /** The characters Python's `str.strip()` removes when given no argument. */
  predicate IsSpace(c: char) {
    || c == ' '
    || '\t' <= c <= '\r'
    || '\U{1C}' <= c <= '\U{1F}'
    || c == '\U{85}' || c == '\U{A0}' || c == '\U{1680}'
    || '\U{2000}' <= c <= '\U{200A}'
    || c == '\U{2028}' || c == '\U{2029}' || c == '\U{202F}' || c == '\U{205F}' || c == '\U{3000}'
  }

  predicate AllSpace(s: string) {
    forall k :: 0 <= k < |s| ==> IsSpace(s[k])
  }

  /** The number of whitespace characters at the front of `s`. */
  function LeadingSpace(s: string): (n: nat)
    ensures n <= |s| && AllSpace(s[..n])
    ensures n < |s| ==> !IsSpace(s[n])
  {
    if s == [] || !IsSpace(s[0]) then 0
    else
      var m := LeadingSpace(s[1..]);
      assert s[..1 + m] == [s[0]] + s[1..][..m];
      1 + m
  }

  /** The length of `s` once its trailing whitespace is removed. */
  function TrailingStart(s: string): (n: nat)
    ensures n <= |s| && AllSpace(s[n..])
    ensures 0 < n ==> !IsSpace(s[n - 1])
  {
    if s == [] || !IsSpace(s[|s| - 1]) then |s|
    else
      var n := TrailingStart(s[..|s| - 1]);
      assert s[n..] == s[..|s| - 1][n..] + [s[|s| - 1]];
      n
  }

  /** Python's `s.strip()`. */
  function Strip(s: string): string {
    var t := s[LeadingSpace(s)..];
    t[..TrailingStart(t)]
  }

  /** Lower-casing of one character; only the ASCII letters change. */
  function LowerChar(c: char): char {
    if 'A' <= c <= 'Z' then (c as int + 32) as char else c
  }

  /** Python's `s.lower()` restricted to ASCII case mappings. */
  function Lower(s: string): string {
    seq(|s|, k requires 0 <= k < |s| => LowerChar(s[k]))
  }

  /** 1 when the stripped, lower-cased text is a truthy word, else 0. */
  function TextToBit(s: string): int {
    if IsTruthyWord(Lower(Strip(s))) then 1 else 0
  }

  /** The decimal digits of `n`, as `str(n)` writes them. */
  function Digits(n: nat): (s: string)
    ensures 1 <= |s| && (10 <= n ==> 2 <= |s|)
    ensures forall k :: 0 <= k < |s| ==> '0' <= s[k] <= '9'
    ensures n < 10 ==> s == [('0' as int + n) as char]
  {
    (if n < 10 then "" else Digits(n / 10)) + [('0' as int + n % 10) as char]
  }

  /** Python's `str(i)` for an integer. */
  function DecimalText(i: int): (d: string)
    ensures d != [] && forall k :: 0 <= k < |d| ==> d[k] == '-' || '0' <= d[k] <= '9'
    ensures d[0] == '-' <==> i < 0
    ensures 10 <= i ==> 2 <= |d|
    ensures 0 <= i < 10 ==> d == [('0' as int + i) as char]
  {
    if i < 0 then "-" + Digits(-i) else Digits(i)
  }

  /** The value of `to_int_bool(v)`. */
  function ToIntBool(v: Value): (r: int)
    ensures r == 0 || r == 1
    ensures v.Null? ==> r == 0
    ensures v.Bool? ==> (r == 1 <==> v.b)
    ensures v.Float? || v.Array? || v.Object? ==> r == 0
  {
    match v
    case Null => 0
    case Bool(b) => if b then 1 else 0
    case Int(i) => TextToBit(DecimalText(i))
    case Text(s) => TextToBit(s)
    // str() of a float always holds '.', 'e', "inf" or "nan"; that of a list
    // or dict starts with '[' or '{'. No truthy word can come out of either.
    case Float(_) => 0
    case Array(_) => 0
    case Object(_) => 0
  }

  // ---------------------------------------------------------------------
  // Strip is characterised independently: the middle of a string framed by
  // whitespace is what strip() returns, provided the middle neither begins
  // nor ends with whitespace.
  // ---------------------------------------------------------------------

  lemma {:induction false} LeadingSpaceAt(s: string, k: nat)
    requires k < |s| && AllSpace(s[..k]) && !IsSpace(s[k])
    ensures LeadingSpace(s) == k
  {
    if k > 0 {
      assert IsSpace(s[..k][0]);
      assert s[1..][..k - 1] == s[..k][1..];
      LeadingSpaceAt(s[1..], k - 1);
    }
  }

  lemma {:induction false} LeadingSpaceAll(s: string)
    requires AllSpace(s)
    ensures LeadingSpace(s) == |s|
  {
    if s != [] {
      LeadingSpaceAll(s[1..]);
    }
  }

  lemma {:induction false} TrailingStartAt(s: string, k: nat)
    requires 0 < k <= |s| && AllSpace(s[k..]) && !IsSpace(s[k - 1])
    ensures TrailingStart(s) == k
  {
    if k < |s| {
      assert IsSpace(s[k..][|s| - 1 - k]);
      assert s[..|s| - 1][k..] == s[k..][..|s| - 1 - k];
      TrailingStartAt(s[..|s| - 1], k);
    }
  }

  lemma {:induction false} StripFramed(p: string, m: string, q: string)
    requires AllSpace(p) && AllSpace(q)
    requires m != [] ==> !IsSpace(m[0]) && !IsSpace(m[|m| - 1])
    ensures Strip(p + m + q) == m
  {
    var s := p + m + q;
    if m == [] {
      assert AllSpace(s) by {
        forall k | 0 <= k < |s| ensures IsSpace(s[k]) {
          if k < |p| { assert s[k] == p[k]; } else { assert s[k] == q[k - |p|]; }
        }
      }
      LeadingSpaceAll(s);
    } else {
      assert s[..|p|] == p;
      LeadingSpaceAt(s, |p|);
      var t := s[|p|..];
      assert t == m + q;
      assert t[|m|..] == q;
      TrailingStartAt(t, |m|);
      assert t[..|m|] == m;
    }
  }

  // ---------------------------------------------------------------------
  // Properties of to_int_bool.
  // ---------------------------------------------------------------------

  /** Where strip() cuts: the text between the leading and the trailing whitespace. */
  lemma StripBounds(s: string) returns (a: nat, b: nat)
    ensures a <= b <= |s| && AllSpace(s[..a]) && AllSpace(s[b..]) && Strip(s) == s[a..b]
  {
    a := LeadingSpace(s);
    var t := s[a..];
    b := a + TrailingStart(t);
    assert s[b..] == t[TrailingStart(t)..];
  }

  /** Text gives 1 exactly when some whitespace-framed middle lower-cases to a truthy word. */
  lemma ToIntBoolText(s: string)
    ensures ToIntBool(Text(s)) == 1 <==> TruthyFramed(s)
  {
    assert ToIntBool(Text(s)) == TextToBit(s);
    if TextToBit(s) == 1 {
      TruthyIsFramed(s);
    }
    if TruthyFramed(s) {
      FramedIsTruthy(s);
    }
  }

  /** `s` is a truthy word, in any letter case, between two runs of whitespace. */
  predicate TruthyFramed(s: string) {
    exists i, j :: 0 <= i <= j <= |s| && TruthyFramedAt(s, i, j)
  }

  predicate TruthyFramedAt(s: string, i: nat, j: nat)
    requires i <= j <= |s|
  {
    AllSpace(s[..i]) && AllSpace(s[j..]) && IsTruthyWord(Lower(s[i..j]))
  }

  lemma TruthyIsFramed(s: string)
    requires TextToBit(s) == 1
    ensures TruthyFramed(s)
  {
    var a, b := StripBounds(s);
    assert TruthyFramedAt(s, a, b);
  }

  lemma FramedIsTruthy(s: string)
    requires TruthyFramed(s)
    ensures TextToBit(s) == 1
  {
    var i, j :| 0 <= i <= j <= |s| && TruthyFramedAt(s, i, j);
    var p, m, q := s[..i], s[i..j], s[j..];
    assert s == p + m + q;
    FramedTruthyWord(p, m, q);
  }

  lemma FramedTruthyWord(p: string, m: string, q: string)
    requires AllSpace(p) && AllSpace(q) && IsTruthyWord(Lower(m))
    ensures TextToBit(p + m + q) == 1
  {
    var w := Lower(m);
    // No truthy word is empty or has whitespace at either end, and
    // lower-casing keeps a character whitespace or non-whitespace.
    TruthyWordShape(w);
    assert LowerChar(m[0]) == w[0] && LowerChar(m[|m| - 1]) == w[|w| - 1];
    StripFramed(p, m, q);
  }

  /** Lower-casing leaves text without upper-case ASCII letters alone. */
  lemma LowerFixes(s: string)
    requires forall k :: 0 <= k < |s| ==> !('A' <= s[k] <= 'Z')
    ensures Lower(s) == s
  {
  }

  /** An integer gives 1 exactly when it is 1. */
  lemma ToIntBoolInt(i: int)
    ensures ToIntBool(Int(i)) == if i == 1 then 1 else 0
  {
    DecimalTextBit(i);
  }

  /** The decimal form of an integer is a truthy word only for 1. */
  lemma DecimalTextBit(i: int)
    ensures TextToBit(DecimalText(i)) == if i == 1 then 1 else 0
  {
    var d := DecimalText(i);
    DecimalTextUnchanged(i);
    if i == 1 {
      assert d == "1";
    }
    if IsTruthyWord(d) {
      DecimalTruthyIsOne(i);
    }
  }

  /** `str(i)` has no whitespace and no upper-case letter to remove. */
  lemma DecimalTextUnchanged(i: int)
    ensures Lower(Strip(DecimalText(i))) == DecimalText(i)
  {
    var d := DecimalText(i);
    assert !IsSpace(d[0]) && !IsSpace(d[|d| - 1]);
    assert d == [] + d + [];
    StripFramed([], d, []);
    LowerFixes(d);
  }

  lemma DecimalTruthyIsOne(i: int)
    requires IsTruthyWord(DecimalText(i))
    ensures i == 1
  {
    var d := DecimalText(i);
    TruthyWordShape(d);
    assert d[0] == '1';
    assert |d| == 1;
    assert 0 <= i < 10;
  }

  /** Surrounding whitespace and letter case never change the outcome. */
  lemma ToIntBoolIgnoresFraming(p: string, m: string, q: string)
    requires AllSpace(p) && AllSpace(q)
    requires m != [] ==> !IsSpace(m[0]) && !IsSpace(m[|m| - 1])
    ensures ToIntBool(Text(p + m + q)) == ToIntBool(Text(Lower(m)))
  {
    StripFramed(p, m, q);
    var w := Lower(m);
    assert |w| == |m|;
    assert w != [] ==> LowerChar(m[0]) == w[0] && LowerChar(m[|m| - 1]) == w[|w| - 1];
    assert w == [] + w + [];
    StripFramed([], w, []);
    assert Lower(w) == w;
  }
}
