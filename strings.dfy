/**
 * Text helpers shared by the responder and the logger: joining with a
 * separator (JavaScript's `Array.prototype.join`) and its inverse, the
 * decimal rendering of a non-negative integer (JavaScript's Number to String
 * for integers below 2^53) and `String.prototype.trim`.
 */
module Strings {

  lemma AppendAssoc<T>(a: seq<T>, b: seq<T>, c: seq<T>)
    ensures a + b + c == a + (b + c)
  {
  }

  lemma SuffixOfAppend<T>(x: seq<T>, y: seq<T>)
    ensures (x + y)[|x|..] == y
  {
  }

  lemma PrefixOfAppend<T>(x: seq<T>, y: seq<T>, k: nat)
    requires k <= |x|
    ensures (x + y)[..k] == x[..k]
  {
  }

  /** `parts.join(sep)`: the parts in order with `sep` between neighbours. */
  function JoinWith(parts: seq<string>, sep: string): string
  {
    if |parts| == 0 then ""
    else if |parts| == 1 then parts[0]
    else parts[0] + sep + JoinWith(parts[1..], sep)
  }

  /** Joining one more part appends the separator (unless it is the first part) and the part. */
  lemma {:induction false} JoinWithSnoc(parts: seq<string>, sep: string, x: string)
    ensures JoinWith(parts + [x], sep) == JoinWith(parts, sep) + (if |parts| == 0 then "" else sep) + x
  {
    if |parts| > 1 {
      assert (parts + [x])[1..] == parts[1..] + [x];
      JoinWithSnoc(parts[1..], sep, x);
    } else if |parts| == 1 {
      assert (parts + [x])[1..] == [x];
    }
  }

  /** `s.split(sep)` for a one-character separator: the maximal pieces between separators. */
  function SplitOn(s: string, sep: char): (r: seq<string>)
    ensures |r| >= 1
  {
    if s == [] then [""]
    else
      var rest := SplitOn(s[1..], sep);
      if s[0] == sep then [""] + rest
      else [[s[0]] + rest[0]] + rest[1..]
  }

  /** A piece without the separator splits to itself, and a separator ends that piece. */
  lemma {:induction false} SplitOnPiece(p: string, sep: char, t: string)
    requires sep !in p
    ensures SplitOn(p, sep) == [p]
    ensures SplitOn(p + [sep] + t, sep) == [p] + SplitOn(t, sep)
  {
    if p != [] {
      SplitOnPiece(p[1..], sep, t);
      assert (p + [sep] + t)[1..] == p[1..] + [sep] + t;
      assert [p[0]] + p[1..] == p;
    } else {
      assert p + [sep] + t == [sep] + t;
      assert ([sep] + t)[1..] == t;
    }
  }

  /** Splitting undoes joining when no part contains the separator (and there is at least one part). */
  lemma {:induction false} SplitJoinRoundTrip(parts: seq<string>, sep: char)
    requires |parts| >= 1
    requires forall i :: 0 <= i < |parts| ==> sep !in parts[i]
    ensures SplitOn(JoinWith(parts, [sep]), sep) == parts
  {
    if |parts| == 1 {
      SplitOnPiece(parts[0], sep, "");
    } else {
      SplitJoinRoundTrip(parts[1..], sep);
      SplitOnPiece(parts[0], sep, JoinWith(parts[1..], [sep]));
      assert [parts[0]] + parts[1..] == parts;
    }
  }

  predicate IsDigit(c: char) { '0' <= c <= '9' }

  function DigitChar(d: nat): (c: char)
    requires d < 10
    ensures IsDigit(c) && c as int - '0' as int == d
  {
    ('0' as int + d) as char
  }

  /** The decimal text of `n`: digits only, no leading zero except for 0 itself. */
  function Decimal(n: nat): (s: string)
    ensures |s| >= 1
    ensures forall i :: 0 <= i < |s| ==> IsDigit(s[i])
    ensures s[0] == '0' ==> n == 0 && s == "0"
    decreases n
  {
    if n < 10 then [DigitChar(n)] else Decimal(n / 10) + [DigitChar(n % 10)]
  }

  function DigitValue(c: char): (d: nat)
    requires IsDigit(c)
    ensures d < 10
  {
    c as int - '0' as int
  }

  /** The number a string of decimal digits denotes (most significant digit first). */
  function DigitsValue(s: string): nat
    requires forall i :: 0 <= i < |s| ==> IsDigit(s[i])
  {
    if s == [] then 0 else 10 * DigitsValue(s[..|s| - 1]) + DigitValue(s[|s| - 1])
  }

  /** Reading the decimal text back gives the number. */
  lemma {:induction false} DecimalRoundTrip(n: nat)
    ensures DigitsValue(Decimal(n)) == n
    decreases n
  {
    if n >= 10 {
      DecimalRoundTrip(n / 10);
      var s := Decimal(n);
      assert s[..|s| - 1] == Decimal(n / 10);
    }
  }

  /** A number below 10^k has at most k decimal digits. */
  lemma {:induction false} DecimalLength(n: nat, k: nat)
    requires k >= 1 && n < Pow10(k)
    ensures |Decimal(n)| <= k
    decreases n
  {
    if n >= 10 {
      assert Pow10(1) == 10;
      assert k >= 2;
      assert n / 10 < Pow10(k - 1);
      DecimalLength(n / 10, k - 1);
    }
  }

  function Pow10(k: nat): (p: nat)
    ensures p >= 1
  {
    if k == 0 then 1 else 10 * Pow10(k - 1)
  }

  /** The characters `String.prototype.trim` removes: WhiteSpace and LineTerminator. */
  predicate IsJsSpace(c: char)
  {
    var n := c as int;
    (0x09 <= n <= 0x0D) || n == 0x20 || n == 0xA0 || n == 0x1680 || (0x2000 <= n <= 0x200A)
    || n == 0x2028 || n == 0x2029 || n == 0x202F || n == 0x205F || n == 0x3000 || n == 0xFEFF
  }

  /** The longest suffix of `s` that does not start with white space. */
  function TrimStart(s: string): (r: string)
    ensures |r| <= |s| && r == s[|s| - |r|..]
    ensures r == [] || !IsJsSpace(r[0])
    ensures forall i :: 0 <= i < |s| - |r| ==> IsJsSpace(s[i])
  {
    if s != [] && IsJsSpace(s[0]) then TrimStart(s[1..]) else s
  }

  /** The longest prefix of `s` that does not end with white space. */
  function TrimEnd(s: string): (r: string)
    ensures |r| <= |s| && r == s[..|r|]
    ensures r == [] || !IsJsSpace(r[|r| - 1])
    ensures forall i :: |r| <= i < |s| ==> IsJsSpace(s[i])
  {
    if s != [] && IsJsSpace(s[|s| - 1]) then TrimEnd(s[..|s| - 1]) else s
  }

  /** How many white-space characters `s` starts with. */
  function LeadingSpace(s: string): (k: nat)
    ensures k <= |s|
  {
    |s| - |TrimStart(s)|
  }

  /** `s.trim()`: white space removed from both ends, the middle untouched. */
  function Trim(s: string): (r: string)
    ensures LeadingSpace(s) + |r| <= |s| && r == s[LeadingSpace(s)..LeadingSpace(s) + |r|]
    ensures r == [] || (!IsJsSpace(r[0]) && !IsJsSpace(r[|r| - 1]))
    ensures forall i :: 0 <= i < |s| && (i < LeadingSpace(s) || LeadingSpace(s) + |r| <= i) ==> IsJsSpace(s[i])
  {
    var t := TrimStart(s);
    var r := TrimEnd(t);
    SliceOfSuffix(s, |s| - |t|, |r|);
    TrailingSpace(s, t, r);
    r
  }

  /** What `TrimEnd` removed from the suffix `t` of `s` is white space of `s`. */
  lemma TrailingSpace(s: string, t: string, r: string)
    requires |t| <= |s| && t == s[|s| - |t|..]
    requires |r| <= |t| && forall j :: |r| <= j < |t| ==> IsJsSpace(t[j])
    ensures forall i :: |s| - |t| + |r| <= i < |s| ==> IsJsSpace(s[i])
  {
    // s[i] is t[i - (|s| - |t|)], which TrimEnd left out.
  }

  lemma SliceOfSuffix<T>(s: seq<T>, a: nat, k: nat)
    requires a + k <= |s|
    ensures s[a..][..k] == s[a..a + k]
  {
  }

  /** `s.startsWith(a)`. */
  predicate StartsWith(s: string, a: string)
  {
    |a| <= |s| && s[..|a|] == a
  }

  /** `s.endsWith(b)`. */
  predicate EndsWith(s: string, b: string)
  {
    |b| <= |s| && s[|s| - |b|..] == b
  }

  /** A non-empty string that neither starts nor ends with white space. */
  predicate Edged(s: string)
  {
    s != [] && !IsJsSpace(s[0]) && !IsJsSpace(s[|s| - 1])
  }

  /** Trimming `a + b` keeps `a` in front when `a` neither starts nor ends with white space. */
  lemma TrimKeepsHead(a: string, b: string)
    requires Edged(a)
    ensures StartsWith(Trim(a + b), a)
  {
    var s := a + b;
    assert s[0] == a[0] && s[|a| - 1] == a[|a| - 1];
    TrimKeepsFirst(s, |a|);
    assert s[..|a|] == a;
  }

  lemma TrimKeepsFirst(s: string, k: nat)
    requires 1 <= k <= |s| && !IsJsSpace(s[0]) && !IsJsSpace(s[k - 1])
    ensures k <= |Trim(s)| && Trim(s)[..k] == s[..k]
  {
    // Nothing leads s, and s[k - 1] is not white space, so the kept slice starts at 0 and reaches past k - 1.
  }

  /** Trimming `a + b` keeps `b` at the end when `b` neither starts nor ends with white space. */
  lemma TrimKeepsTail(a: string, b: string)
    requires Edged(b)
    ensures EndsWith(Trim(a + b), b)
  {
    SuffixOfAppend(a, b);
    TrimKeepsLast(a + b, |b|);
  }

  lemma TrimKeepsLast(s: string, k: nat)
    requires k <= |s| && Edged(s[|s| - k..])
    ensures k <= |Trim(s)| && Trim(s)[|Trim(s)| - k..] == s[|s| - k..]
  {
    // Nothing trails s, and s[|s| - k] is not white space, so the kept slice ends at |s| and starts at or before |s| - k.
  }

  /** Trimming a string without white space at either end changes nothing. */
  lemma TrimNoEdgeSpace(s: string)
    requires s == [] || (!IsJsSpace(s[0]) && !IsJsSpace(s[|s| - 1]))
    ensures Trim(s) == s
  {
  }

  /** Trimming twice is trimming once. */
  lemma TrimIdempotent(s: string)
    ensures Trim(Trim(s)) == Trim(s)
  {
    TrimNoEdgeSpace(Trim(s));
  }
}
