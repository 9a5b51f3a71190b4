// The JavaScript string operations the core relies on: String(n) for
// integers, padStart, join, split on one character, trim, startsWith and
// includes, each written out over seq<char>.

module Text {

  predicate IsDigit(c: char) { '0' <= c <= '9' }

  predicate AllDigits(s: string) { forall i :: 0 <= i < |s| ==> IsDigit(s[i]) }

  function DigitChar(d: nat): (c: char)
    requires d < 10
    ensures IsDigit(c) && (c as int) - ('0' as int) == d
  {
    ['0', '1', '2', '3', '4', '5', '6', '7', '8', '9'][d]
  }

  function DigitValue(c: char): (d: nat)
    requires IsDigit(c)
    ensures d < 10 && DigitChar(d) == c
  {
    (c as int) - ('0' as int)
  }

  /** String(n) for a non-negative integer: its shortest decimal form. */
  function NatToString(n: nat): (s: string)
    ensures 1 <= |s| && AllDigits(s)
    ensures |s| == 1 <==> n < 10
    ensures n >= 10 ==> s[0] != '0'
  {
    if n < 10 then [DigitChar(n)] else NatToString(n / 10) + [DigitChar(n % 10)]
  }

  /** String(i) for any integer: a minus sign before the digits of |i|. */
  function IntToString(i: int): (s: string)
    ensures i >= 0 ==> s == NatToString(i)
    ensures i < 0 ==> s == "-" + NatToString(-i)
  {
    if i < 0 then "-" + NatToString(-i) else NatToString(i)
  }

  /** Reads a string of decimal digits; leading zeros are allowed. */
  function ParseDecimal(s: string): nat
    requires AllDigits(s)
  {
    if s == [] then 0 else ParseDecimal(s[..|s| - 1]) * 10 + DigitValue(s[|s| - 1])
  }

  lemma {:induction false} ParseNatToString(n: nat)
    ensures ParseDecimal(NatToString(n)) == n
  {
    if n >= 10 {
      var s := NatToString(n / 10) + [DigitChar(n % 10)];
      assert s[..|s| - 1] == NatToString(n / 10);
      ParseNatToString(n / 10);
    }
  }

  lemma {:induction false} ParseLeadingZero(s: string)
    requires AllDigits(s)
    ensures AllDigits("0" + s) && ParseDecimal("0" + s) == ParseDecimal(s)
  {
    if s != [] {
      var t := "0" + s;
      assert t[..|t| - 1] == "0" + s[..|s| - 1];
      ParseLeadingZero(s[..|s| - 1]);
    }
  }

  function Repeat(c: char, n: nat): (s: string)
    ensures |s| == n && forall i :: 0 <= i < n ==> s[i] == c
  {
    if n == 0 then [] else [c] + Repeat(c, n - 1)
  }

  /** s.padStart(len, fill) for a one-character fill. */
  function PadStart(s: string, len: nat, fill: char): (r: string)
    ensures |r| == if |s| >= len then |s| else len
    ensures r[|r| - |s|..] == s
    ensures forall i :: 0 <= i < |r| - |s| ==> r[i] == fill
  {
    if |s| >= len then s else Repeat(fill, len - |s|) + s
  }

  /** String(n).padStart(2, "0"): digits only, and they read back as n. */
  lemma {:induction false} ParsePadded(n: nat)
    ensures AllDigits(PadStart(NatToString(n), 2, '0'))
    ensures ParseDecimal(PadStart(NatToString(n), 2, '0')) == n
    ensures n < 100 ==> |PadStart(NatToString(n), 2, '0')| == 2
  {
    ParseNatToString(n);
    if n < 10 {
      assert PadStart(NatToString(n), 2, '0') == "0" + NatToString(n);
      ParseLeadingZero(NatToString(n));
    } else if n < 100 {
      assert NatToString(n) == NatToString(n / 10) + [DigitChar(n % 10)];
    }
  }

  /** parts.join(sep). */
  function Join(parts: seq<string>, sep: string): (r: string)
    ensures |parts| == 1 ==> r == parts[0]
  {
    if parts == [] then ""
    else if |parts| == 1 then parts[0]
    else Join(parts[..|parts| - 1], sep) + sep + parts[|parts| - 1]
  }

  /** JoinContains for all the parts at once. */
  lemma JoinContainsEach(parts: seq<string>, sep: string)
    ensures forall i :: 0 <= i < |parts| ==> Contains(Join(parts, sep), parts[i])
  {
    forall i | 0 <= i < |parts|
      ensures Contains(Join(parts, sep), parts[i])
    {
      JoinContains(parts, sep, i);
    }
  }

  /** Every part occurs in the joined string. */
  lemma {:induction false} JoinContains(parts: seq<string>, sep: string, i: nat)
    requires i < |parts|
    ensures Contains(Join(parts, sep), parts[i])
    decreases |parts|
  {
    var j := Join(parts, sep);
    if |parts| == 1 {
      assert OccursAt(j, parts[0], 0);
    } else {
      var init := parts[..|parts| - 1];
      var head := Join(init, sep);
      assert j == head + sep + parts[|parts| - 1];
      if i == |parts| - 1 {
        var k := |head| + |sep|;
        assert j[k..k + |parts[i]|] == parts[i];
        assert OccursAt(j, parts[i], k);
      } else {
        JoinContains(init, sep, i);
        var k :| 0 <= k <= |head| - |init[i]| && OccursAt(head, init[i], k);
        assert j[k..k + |parts[i]|] == head[k..k + |parts[i]|];
        assert OccursAt(j, parts[i], k);
      }
    }
  }

  /** What occurs in s occurs in any extension of s at the front. */
  lemma ContainsAfterPrefix(pre: string, s: string, sub: string)
    requires Contains(s, sub)
    ensures Contains(pre + s, sub)
  {
    var k :| 0 <= k <= |s| - |sub| && OccursAt(s, sub, k);
    assert (pre + s)[|pre| + k..|pre| + k + |sub|] == s[k..k + |sub|];
    assert OccursAt(pre + s, sub, |pre| + k);
  }

  /** Containment is transitive. */
  lemma ContainsTransitive(s: string, mid: string, sub: string)
    requires Contains(s, mid) && Contains(mid, sub)
    ensures Contains(s, sub)
  {
    var k :| 0 <= k <= |s| - |mid| && OccursAt(s, mid, k);
    var l :| 0 <= l <= |mid| - |sub| && OccursAt(mid, sub, l);
    assert s[k..k + |mid|] == mid;
    forall i | 0 <= i < |sub| ensures s[k + l + i] == sub[i] {
      assert s[k + l + i] == mid[l + i];
      assert mid[l + i] == mid[l..l + |sub|][i];
    }
    assert s[k + l..k + l + |sub|] == sub;
    assert OccursAt(s, sub, k + l);
  }

  /** A string lacking a character contains nothing that holds it. */
  lemma MissingCharExcludes(s: string, sub: string, c: char)
    requires c !in s && c in sub
    ensures !Contains(s, sub)
  {
  }

  /** A character in neither the parts nor the separator is not in the joined string. */
  lemma {:induction false} JoinExcludes(parts: seq<string>, sep: string, c: char)
    requires c !in sep
    requires forall i :: 0 <= i < |parts| ==> c !in parts[i]
    ensures c !in Join(parts, sep)
    decreases |parts|
  {
    if |parts| > 1 {
      JoinExcludes(parts[..|parts| - 1], sep, c);
    }
  }

  /** The text before the first occurrence of c (all of s when c is absent). */
  function Before(s: string, c: char): (r: string)
    ensures c !in r && r <= s
    ensures |r| < |s| ==> s[|r|] == c
  {
    if s == [] || s[0] == c then [] else [s[0]] + Before(s[1..], c)
  }

  /** s.split(c) for a one-character separator: never an empty list. */
  function Split(s: string, c: char): (r: seq<string>)
    ensures |r| >= 1 && r[0] == Before(s, c)
    ensures forall i :: 0 <= i < |r| ==> c !in r[i]
    decreases |s|
  {
    var head := Before(s, c);
    if |head| == |s| then [head] else [head] + Split(s[|head| + 1..], c)
  }

  /** The text before the first separator of a + [c] + rest is a, when a has no separator. */
  lemma {:induction false} BeforeSeparator(a: string, c: char, rest: string)
    requires c !in a
    ensures Before(a + [c] + rest, c) == a
  {
    if a != [] {
      assert (a + [c] + rest)[1..] == a[1..] + [c] + rest;
      BeforeSeparator(a[1..], c, rest);
    }
  }

  lemma {:induction false} BeforeAbsent(a: string, c: char)
    requires c !in a
    ensures Before(a, c) == a
  {
    if a != [] {
      BeforeAbsent(a[1..], c);
    }
  }

  /** Splitting undoes joining with the separator, for parts free of it. */
  lemma SplitSeparated(a: string, c: char, rest: string)
    requires c !in a
    ensures Split(a + [c] + rest, c) == [a] + Split(rest, c)
  {
    BeforeSeparator(a, c, rest);
    var s := a + [c] + rest;
    assert s[|a| + 1..] == rest;
  }

  lemma SplitAbsent(a: string, c: char)
    requires c !in a
    ensures Split(a, c) == [a]
  {
    BeforeAbsent(a, c);
  }

  /** Two separator-free parts joined by c split back into the same two parts. */
  lemma SplitTwo(a: string, b: string, sep: char)
    requires sep !in a && sep !in b
    ensures Split(a + [sep] + b, sep) == [a, b]
  {
    SplitSeparated(a, sep, b);
    SplitAbsent(b, sep);
  }

  /** Three separator-free parts joined by c split back into the same three parts. */
  lemma SplitThree(a: string, b: string, c: string, sep: char)
    requires sep !in a && sep !in b && sep !in c
    ensures Split(a + [sep] + (b + [sep] + c), sep) == [a, b, c]
  {
    SplitSeparated(a, sep, b + [sep] + c);
    SplitSeparated(b, sep, c);
    SplitAbsent(c, sep);
  }

  /** The characters String.prototype.trim removes: WhiteSpace and LineTerminator of ECMA-262. */
  predicate IsJsSpace(c: char)
  {
    c in {'\U{0009}', '\U{000A}', '\U{000B}', '\U{000C}', '\U{000D}', '\U{0020}',
              '\U{00A0}', '\U{1680}', '\U{2000}', '\U{2001}', '\U{2002}', '\U{2003}',
              '\U{2004}', '\U{2005}', '\U{2006}', '\U{2007}', '\U{2008}', '\U{2009}',
              '\U{200A}', '\U{2028}', '\U{2029}', '\U{202F}', '\U{205F}', '\U{3000}',
              '\U{FEFF}'}
  }

  function TrimStart(s: string): (r: string)
    ensures r == [] || !IsJsSpace(r[0])
    ensures |r| <= |s| && r == s[|s| - |r|..]
    ensures forall i :: 0 <= i < |s| - |r| ==> IsJsSpace(s[i])
  {
    if s != [] && IsJsSpace(s[0]) then TrimStart(s[1..]) else s
  }

  function TrimEnd(s: string): (r: string)
    ensures r == [] || !IsJsSpace(r[|r| - 1])
    ensures r <= s
    ensures forall i :: |r| <= i < |s| ==> IsJsSpace(s[i])
  {
    if s != [] && IsJsSpace(s[|s| - 1]) then TrimEnd(s[..|s| - 1]) else s
  }

  /** s.trim(): no leading and no trailing white space, and the middle untouched. */
  function Trim(s: string): (r: string)
    ensures r == [] || (!IsJsSpace(r[0]) && !IsJsSpace(r[|r| - 1]))
    ensures exists k :: OccursAt(s, r, k) && TrimmedAround(s, k, |r|)
  {
    TrimSpan(s);
    TrimEnd(TrimStart(s))
  }

  /** The trimmed text sits at the offset TrimStart removed, with only white space around it. */
  lemma TrimSpan(s: string)
    ensures var t := TrimStart(s); var u := TrimEnd(t);
      OccursAt(s, u, |s| - |t|) && TrimmedAround(s, |s| - |t|, |u|)
  {
    var t := TrimStart(s);
    var u := TrimEnd(t);
    var k := |s| - |t|;
    assert OccursAt(s, u, k) by {
      PrefixOfSuffix(s, k, u);
    }
    forall i | 0 <= k + |u| <= i < |s| ensures IsJsSpace(s[i]) {
      assert s[i] == t[i - k];
    }
  }

  /** A prefix of s[k..] is the slice of s starting at k. */
  lemma PrefixOfSuffix(s: string, k: nat, u: string)
    requires k <= |s| && u <= s[k..]
    ensures OccursAt(s, u, k)
  {
    assert forall j :: 0 <= j < |u| ==> s[k..k + |u|][j] == u[j];
  }

  /** sub occurs in s starting at index i. */
  predicate OccursAt(s: string, sub: string, i: int)
  {
    0 <= i <= |s| - |sub| && s[i..i + |sub|] == sub
  }

  /** Everything outside s[k..k + n] is white space. */
  predicate TrimmedAround(s: string, k: int, n: int)
  {
    (forall i :: 0 <= i < k && i < |s| ==> IsJsSpace(s[i])) &&
    (forall i :: 0 <= k + n <= i < |s| ==> IsJsSpace(s[i]))
  }

  predicate StartsWith(s: string, prefix: string) { prefix <= s }

  /** s.includes(sub). */
  predicate Contains(s: string, sub: string)
  {
    exists i | 0 <= i <= |s| - |sub| :: OccursAt(s, sub, i)
  }
}
