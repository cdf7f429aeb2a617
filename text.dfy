/** The JavaScript string operations the alerts page relies on, over ASCII
    text: `toLowerCase`, `includes`, `trim`, `split` and `Number`. */
module Text {
  import opened Wrappers

  // ---------------------------------------------------------------------
  // toLowerCase
  // ---------------------------------------------------------------------

  function LowerChar(c: char): char {
    if 'A' <= c <= 'Z' then (c as int + 32) as char else c
  }

  /** `toLowerCase` on ASCII letters; every other character is kept. */
  function Lower(s: string): (r: string)
    ensures |r| == |s|
    ensures forall i :: 0 <= i < |s| ==> r[i] == LowerChar(s[i])
  {
    seq(|s|, i requires 0 <= i < |s| => LowerChar(s[i]))
  }

  lemma LowerIdempotent(s: string)
    ensures Lower(Lower(s)) == Lower(s)
  {
    assert forall i :: 0 <= i < |s| ==> Lower(Lower(s))[i] == Lower(s)[i];
  }

  /** Lowering ignores case: a string and its upper-case spelling agree. */
  lemma LowerOfUpperLetter(c: char)
    requires 'a' <= c <= 'z'
    ensures LowerChar((c as int - 32) as char) == c
  {
  }

  // ---------------------------------------------------------------------
  // includes
  // ---------------------------------------------------------------------

  predicate StartsWith(s: string, t: string) {
    |t| <= |s| && s[..|t|] == t
  }

  /** `t` occurs in `s` at offset `i`. */
  predicate OccursAt(s: string, t: string, i: int) {
    0 <= i && i + |t| <= |s| && s[i..i + |t|] == t
  }

  /** `s.includes(t)`: `t` occurs in `s` at some offset. */
  predicate Contains(s: string, t: string)
    decreases |s|
  {
    StartsWith(s, t) || (|s| > 0 && Contains(s[1..], t))
  }

  /** `Contains` finds exactly the offsets at which `t` occurs. */
  lemma {:induction false} ContainsIff(s: string, t: string)
    ensures Contains(s, t) <==> exists i :: OccursAt(s, t, i)
    decreases |s|
  {
    if |s| > 0 {
      ContainsIff(s[1..], t);
      if exists i :: OccursAt(s, t, i) {
        var i :| OccursAt(s, t, i);
        if i > 0 {
          assert OccursAt(s[1..], t, i - 1) by {
            assert s[1..][i - 1..i - 1 + |t|] == s[i..i + |t|];
          }
        }
      }
      if exists i :: OccursAt(s[1..], t, i) {
        var i :| OccursAt(s[1..], t, i);
        assert OccursAt(s, t, i + 1) by {
          assert s[1..][i..i + |t|] == s[i + 1..i + 1 + |t|];
        }
      }
      if StartsWith(s, t) {
        assert OccursAt(s, t, 0);
      }
    } else {
      if exists i :: OccursAt(s, t, i) {
        var i :| OccursAt(s, t, i);
        assert s[..|t|] == s[i..i + |t|];
      }
      if StartsWith(s, t) {
        assert OccursAt(s, t, 0);
      }
    }
  }

  lemma ContainsAt(s: string, t: string, i: nat)
    requires OccursAt(s, t, i)
    ensures Contains(s, t)
  {
    ContainsIff(s, t);
  }

  // ---------------------------------------------------------------------
  // trim
  // ---------------------------------------------------------------------

  /** The ASCII white-space characters `trim` removes. */
  predicate IsSpace(c: char) {
    c == ' ' || c == '\t' || c == '\n' || c == '\r' || c == '\U{B}' || c == '\U{C}'
  }

  /** The first position at or after `lo` that is not white space, or |s|. */
  function FirstNonSpace(s: string, lo: nat): (i: nat)
    requires lo <= |s|
    ensures lo <= i <= |s|
    ensures forall k :: lo <= k < i ==> IsSpace(s[k])
    ensures i == |s| || !IsSpace(s[i])
    decreases |s| - lo
  {
    if lo < |s| && IsSpace(s[lo]) then FirstNonSpace(s, lo + 1) else lo
  }

  /** The end of `s[lo..hi]` once its trailing white space is cut. */
  function EndOfText(s: string, lo: nat, hi: nat): (j: nat)
    requires lo <= hi <= |s|
    ensures lo <= j <= hi
    ensures forall k :: j <= k < hi ==> IsSpace(s[k])
    ensures j == lo || !IsSpace(s[j - 1])
    decreases hi
  {
    if lo < hi && IsSpace(s[hi - 1]) then EndOfText(s, lo, hi - 1) else hi
  }

  /** `trim`: `s` without its leading and trailing white space. */
  function Trim(s: string): (r: string)
    ensures |r| <= |s|
    ensures r == [] || (!IsSpace(r[0]) && !IsSpace(r[|r| - 1]))
  {
    var i := FirstNonSpace(s, 0);
    s[i..EndOfText(s, i, |s|)]
  }

  /** The trimmed string is the slice `s[i..j]`, and everything cut away
      on either side is white space. */
  lemma TrimIsSlice(s: string) returns (i: nat, j: nat)
    ensures i <= j <= |s| && Trim(s) == s[i..j]
    ensures forall k :: 0 <= k < i ==> IsSpace(s[k])
    ensures forall k :: j <= k < |s| ==> IsSpace(s[k])
  {
    i := FirstNonSpace(s, 0);
    j := EndOfText(s, i, |s|);
  }

  // ---------------------------------------------------------------------
  // split
  // ---------------------------------------------------------------------

  /** Position of the first `c` in `s`, or |s| when there is none. */
  function IndexOf(s: string, c: char): (k: nat)
    ensures k <= |s| && c !in s[..k]
    ensures k < |s| ==> s[k] == c
  {
    if s == [] then 0
    else if s[0] == c then 0
    else 1 + IndexOf(s[1..], c)
  }

  /** `s.split(sep)` for a one-character separator. */
  function Split(s: string, sep: char): (parts: seq<string>)
    ensures |parts| >= 1
    decreases |s|
  {
    var k := IndexOf(s, sep);
    if k == |s| then [s] else [s[..k]] + Split(s[k + 1..], sep)
  }

  function Join(parts: seq<string>, sep: char): string
    requires |parts| >= 1
  {
    if |parts| == 1 then parts[0] else parts[0] + [sep] + Join(parts[1..], sep)
  }

  /** How many times `c` occurs in `s`. */
  function Occurrences(s: string, c: char): nat {
    if s == [] then 0 else (if s[0] == c then 1 else 0) + Occurrences(s[1..], c)
  }

  lemma {:induction false} OccurrencesAppend(a: string, b: string, c: char)
    ensures Occurrences(a + b, c) == Occurrences(a, c) + Occurrences(b, c)
  {
    if a == [] {
      assert a + b == b;
    } else {
      assert (a + b)[0] == a[0];
      assert (a + b)[1..] == a[1..] + b;
      OccurrencesAppend(a[1..], b, c);
      assert Occurrences(a + b, c) == (if a[0] == c then 1 else 0) + Occurrences(a[1..] + b, c);
    }
  }

  lemma {:induction false} NoOccurrences(s: string, c: char)
    requires c !in s
    ensures Occurrences(s, c) == 0
  {
    if s != [] {
      NoOccurrences(s[1..], c);
    }
  }

  /** Joining the pieces with the separator gives back the string, and
      there is one piece more than there are separators. */
  lemma SplitJoin(s: string, sep: char)
    ensures Join(Split(s, sep), sep) == s
    ensures |Split(s, sep)| == Occurrences(s, sep) + 1
  {
    JoinSplit(s, sep);
    SplitCount(s, sep);
  }

  /** Split at the first separator, when there is one. */
  lemma SplitAtFirst(s: string, sep: char)
    requires IndexOf(s, sep) < |s|
    ensures var k := IndexOf(s, sep);
            Split(s, sep) == [s[..k]] + Split(s[k + 1..], sep)
  {
  }

  lemma JoinCons(p: string, parts: seq<string>, sep: char)
    requires |parts| >= 1
    ensures Join([p] + parts, sep) == p + [sep] + Join(parts, sep)
  {
    assert ([p] + parts)[1..] == parts;
  }

  lemma CutAt(s: string, k: nat)
    requires k < |s|
    ensures s == s[..k] + [s[k]] + s[k + 1..]
  {
  }

  /** Joining the parts with the separator gives back the string. */
  lemma {:induction false} JoinSplit(s: string, sep: char)
    ensures Join(Split(s, sep), sep) == s
    decreases |s|
  {
    var k := IndexOf(s, sep);
    if k == |s| {
      assert s[..k] == s;
    } else {
      JoinSplit(s[k + 1..], sep);
      SplitAtFirst(s, sep);
      JoinCons(s[..k], Split(s[k + 1..], sep), sep);
      CutAt(s, k);
    }
  }

  /** There is one part more than there are separators. */
  lemma {:induction false} SplitCount(s: string, sep: char)
    ensures |Split(s, sep)| == Occurrences(s, sep) + 1
    decreases |s|
  {
    var k := IndexOf(s, sep);
    if k == |s| {
      SplitWhole(s, sep);
    } else {
      var rest := s[k + 1..];
      SplitCount(rest, sep);
      SplitAtFirst(s, sep);
      assert |Split(s, sep)| == 1 + |Split(rest, sep)|;
      FirstSeparator(s, sep, k);
    }
  }

  /** Without a separator the string is its only part. */
  lemma SplitWhole(s: string, sep: char)
    requires IndexOf(s, sep) == |s|
    ensures Split(s, sep) == [s] && Occurrences(s, sep) == 0
  {
    assert s[..|s|] == s;
    NoOccurrences(s, sep);
  }

  /** No part contains the separator. */
  lemma {:induction false} SplitPartsFree(s: string, sep: char)
    ensures forall i :: 0 <= i < |Split(s, sep)| ==> sep !in Split(s, sep)[i]
    decreases |s|
  {
    var k := IndexOf(s, sep);
    if k < |s| {
      SplitPartsFree(s[k + 1..], sep);
      SplitAtFirst(s, sep);
    }
  }

  /** Cutting at the first separator removes exactly one occurrence. */
  lemma FirstSeparator(s: string, sep: char, k: nat)
    requires k < |s| && s[k] == sep && sep !in s[..k]
    ensures Occurrences(s, sep) == 1 + Occurrences(s[k + 1..], sep)
  {
    var rest := s[k + 1..];
    assert s == s[..k] + [sep] + rest;
    OccurrencesAppend(s[..k] + [sep], rest, sep);
    OccurrencesAppend(s[..k], [sep], sep);
    NoOccurrences(s[..k], sep);
    assert Occurrences([sep], sep) == 1 by {
      assert [sep][1..] == [];
    }
  }

  // ---------------------------------------------------------------------
  // Number
  // ---------------------------------------------------------------------

  predicate IsDigit(c: char) {
    '0' <= c <= '9'
  }

  predicate AllDigits(s: string) {
    forall i :: 0 <= i < |s| ==> IsDigit(s[i])
  }

  function DigitsValue(s: string): (v: nat)
    requires AllDigits(s)
  {
    if s == [] then 0 else DigitsValue(s[..|s| - 1]) * 10 + (s[|s| - 1] as int - '0' as int)
  }

  function Pow10(n: nat): (p: nat)
    ensures p >= 1
  {
    if n == 0 then 1 else 10 * Pow10(n - 1)
  }

  /** Python's `str` of a non-negative integer: its decimal digits with no
      leading zero. */
  function NatToString(n: nat): (s: string)
    ensures s != [] && AllDigits(s)
    ensures |s| > 1 ==> s[0] != '0'
  {
    var d := ['0' + (n % 10) as char];
    if n < 10 then d else NatToString(n / 10) + d
  }

  /** Reading the digits back gives the number. */
  lemma {:induction false} NatToStringValue(n: nat)
    ensures DigitsValue(NatToString(n)) == n
  {
    var s := NatToString(n);
    if n >= 10 {
      NatToStringValue(n / 10);
      assert s[..|s| - 1] == NatToString(n / 10);
    }
  }

  /** An unsigned decimal literal `digits[.digits]` or `.digits`. */
  function UnsignedDecimal(s: string): Option<real> {
    var k := IndexOf(s, '.');
    var whole := s[..k];
    var frac := if k < |s| then s[k + 1..] else [];
    if (whole == [] && frac == []) || !AllDigits(whole) || !AllDigits(frac) then None
    else Some(DigitsValue(whole) as real + DigitsValue(frac) as real / Pow10(|frac|) as real)
  }

  /** `Number(s)` on decimal text: surrounding white space is ignored, an
      empty or blank string is 0, an optional sign precedes the literal;
      anything else is NaN (None). */
  function NumberOf(s: string): (n: Option<real>)
    ensures Trim(s) == [] ==> n == Some(0.0)
  {
    var t := Trim(s);
    if t == [] then Some(0.0)
    else if t[0] == '-' then
      match UnsignedDecimal(t[1..])
      case Some(v) => Some(-v)
      case None => None
    else if t[0] == '+' then UnsignedDecimal(t[1..])
    else UnsignedDecimal(t)
  }

  /** Text without white space is left alone by `trim`. */
  lemma TrimNoSpace(s: string)
    requires forall k :: 0 <= k < |s| ==> !IsSpace(s[k])
    ensures Trim(s) == s
  {
    var i, j := TrimIsSlice(s);
    if |s| > 0 {
      assert !IsSpace(s[0]) && !IsSpace(s[|s| - 1]);
    }
  }

  /** A non-empty run of digits reads as its decimal value. */
  lemma UnsignedDigits(t: string)
    requires t != [] && AllDigits(t)
    ensures UnsignedDecimal(t) == Some(DigitsValue(t) as real)
  {
    DigitsHaveNoPoint(t);
    assert t[..|t|] == t;
  }

  lemma DigitsHaveNoPoint(t: string)
    requires AllDigits(t)
    ensures IndexOf(t, '.') == |t|
  {
    var k := IndexOf(t, '.');
    assert k < |t| ==> IsDigit(t[k]);
  }

  /** `Number` reads the decimal text of a natural number as that number. */
  lemma NumberOfNat(n: nat)
    ensures NumberOf(NatToString(n)) == Some(n as real)
  {
    var t := NatToString(n);
    TrimNoSpace(t);
    UnsignedDigits(t);
    NatToStringValue(n);
  }

  /** ... and a minus sign in front negates it. */
  lemma NumberOfNegatedNat(n: nat)
    ensures NumberOf("-" + NatToString(n)) == Some(-(n as real))
  {
    var d := NatToString(n);
    var t := "-" + d;
    TrimNoSpace(t);
    assert t[1..] == d;
    UnsignedDigits(d);
    NatToStringValue(n);
  }

  /** A character other than a digit, a point or a sign leaves a literal
      unreadable. */
  lemma UnsignedRejects(u: string, q: nat)
    requires q < |u| && !IsDigit(u[q]) && u[q] != '.'
    ensures UnsignedDecimal(u).None?
  {
    var k := IndexOf(u, '.');
    if q < k {
      assert u[..k][q] == u[q];
    } else {
      assert q != k;
      assert u[k + 1..][q - k - 1] == u[q];
    }
  }

  /** Text whose trimmed form holds a character other than a digit, a point
      or a sign is NaN. */
  lemma NumberOfRejects(s: string, p: nat)
    requires p < |Trim(s)|
    requires !IsDigit(Trim(s)[p]) && Trim(s)[p] != '.' && Trim(s)[p] != '+' && Trim(s)[p] != '-'
    ensures NumberOf(s).None?
  {
    var t := Trim(s);
    if t[0] == '-' || t[0] == '+' {
      assert p > 0 && t[1..][p - 1] == t[p];
      UnsignedRejects(t[1..], p - 1);
    } else {
      UnsignedRejects(t, p);
    }
  }
}
