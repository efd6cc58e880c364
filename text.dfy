/** String helpers shared by the page-side and native-side models: JavaScript's
    integer-to-string conversion, `join`, `replaceAll` with a one-character pattern,
    `replace` (first occurrence), `trim`, `startsWith` and substring search. */
module Text {

  /** The decimal digits of a natural number, most significant first, without
      leading zeros ("0" for zero). */
  function NatString(n: nat): (s: string)
    ensures |s| >= 1
    ensures forall i :: 0 <= i < |s| ==> '0' <= s[i] <= '9'
    ensures |s| > 1 ==> s[0] != '0'
    decreases n
  {
    if n < 10 then [DigitChar(n)] else NatString(n / 10) + [DigitChar(n % 10)]
  }

  function DigitChar(d: nat): (c: char)
    requires d < 10
    ensures '0' <= c <= '9'
  {
    ('0' as int + d) as char
  }

  /** The source's template literal `${i}` applied to an integer. */
  function DecimalString(i: int): (s: string)
    ensures |s| >= 1
    ensures i >= 0 ==> s == NatString(i)
    ensures i < 0 ==> s == "-" + NatString(-i)
  {
    if i >= 0 then NatString(i) else "-" + NatString(-i)
  }

  /** Reads back a string of decimal digits; the inverse of NatString. */
  function DigitsValue(s: string): int
  {
    if |s| == 0 then 0 else DigitsValue(s[..|s| - 1]) * 10 + (s[|s| - 1] as int - '0' as int)
  }

  lemma {:induction false} NatStringRoundTrip(n: nat)
    ensures DigitsValue(NatString(n)) == n
    decreases n
  {
    if n >= 10 {
      NatStringRoundTrip(n / 10);
      var s := NatString(n / 10) + [DigitChar(n % 10)];
      assert s[..|s| - 1] == NatString(n / 10);
      assert s[|s| - 1] as int - '0' as int == n % 10;
      calc {
        DigitsValue(s);
        DigitsValue(NatString(n / 10)) * 10 + n % 10;
        (n / 10) * 10 + n % 10;
      }
    }
  }

  /** Two different naturals never print the same (consequence of the round trip). */
  lemma NatStringInjective(m: nat, n: nat)
    requires NatString(m) == NatString(n)
    ensures m == n
  {
    NatStringRoundTrip(m);
    NatStringRoundTrip(n);
  }

  /** `parts.join(sep)` */
  function Join(parts: seq<string>, sep: string): (r: string)
    ensures |parts| == 1 ==> r == parts[0]
    ensures |parts| == 0 ==> r == ""
  {
    if |parts| == 0 then ""
    else if |parts| == 1 then parts[0]
    else Join(parts[..|parts| - 1], sep) + sep + parts[|parts| - 1]
  }

  /** Joining one more part adds exactly one separator and the part at the end. */
  lemma JoinSnoc(parts: seq<string>, sep: string, p: string)
    requires |parts| >= 1
    ensures Join(parts + [p], sep) == Join(parts, sep) + sep + p
  {
    assert (parts + [p])[..|parts|] == parts;
  }

  /** Joining splits off the first part and its separator. */
  lemma {:induction false} JoinCons(parts: seq<string>, sep: string)
    requires |parts| >= 2
    ensures Join(parts, sep) == parts[0] + (sep + Join(parts[1..], sep))
    decreases |parts|
  {
    var n := |parts|;
    if n == 2 {
      assert parts[..1] == [parts[0]];
      assert parts[1..] == [parts[1]];
    } else {
      JoinCons(parts[..n - 1], sep);
      assert parts[..n - 1][1..] == parts[1..][..n - 2];
      assert parts[1..][n - 2] == parts[n - 1];
      assert Join(parts[1..], sep) == Join(parts[1..][..n - 2], sep) + sep + parts[n - 1];
    }
  }

  /** `s.replaceAll(c, rep)` where the pattern is the single character `c`. */
  function ReplaceAllChar(s: string, c: char, rep: string): (r: string)
    ensures c !in rep ==> c !in r
    ensures forall d :: d != c && d in s ==> d in r
    ensures forall d :: d in r ==> (d in s && d != c) || d in rep
  {
    if |s| == 0 then ""
    else (if s[0] == c then rep else [s[0]]) + ReplaceAllChar(s[1..], c, rep)
  }

  /** Replacing every `c` works piece by piece. */
  lemma {:induction false} ReplaceAllAppend(a: string, b: string, c: char, rep: string)
    ensures ReplaceAllChar(a + b, c, rep) == ReplaceAllChar(a, c, rep) + ReplaceAllChar(b, c, rep)
    decreases |a|
  {
    if |a| > 0 {
      assert (a + b)[0] == a[0];
      assert (a + b)[1..] == a[1..] + b;
      ReplaceAllAppend(a[1..], b, c, rep);
    } else {
      assert a + b == b;
    }
  }

  /** One character is replaced when it is `c` and kept otherwise. */
  lemma ReplaceAllOne(d: char, c: char, rep: string)
    ensures ReplaceAllChar([d], c, rep) == if d == c then rep else [d]
  {
    assert [d][1..] == [];
  }

  /** A string without `c` is left as it is. */
  lemma {:induction false} ReplaceAllAbsent(s: string, c: char, rep: string)
    requires c !in s
    ensures ReplaceAllChar(s, c, rep) == s
    decreases |s|
  {
    if |s| > 0 {
      assert forall d :: d in s[1..] ==> d in s;
      ReplaceAllAbsent(s[1..], c, rep);
      assert [s[0]] + s[1..] == s;
    }
  }

  predicate StartsWith(s: string, p: string)
  {
    |p| <= |s| && s[..|p|] == p
  }

  /** `s.indexOf(c)`: the first position of `c`, or -1. */
  function IndexOf(s: string, c: char): (r: int)
    ensures -1 <= r < |s|
    ensures r == -1 <==> c !in s
    ensures r >= 0 ==> s[r] == c && c !in s[..r]
  {
    if |s| == 0 then -1
    else if s[0] == c then 0
    else var k := IndexOf(s[1..], c); (if k == -1 then -1 else k + 1)
  }

  /** `s.lastIndexOf(c)`: the last position of `c`, or -1. */
  function LastIndexOf(s: string, c: char): (r: int)
    ensures -1 <= r < |s|
    ensures r == -1 <==> c !in s
    ensures r >= 0 ==> s[r] == c && c !in s[r + 1..]
  {
    if |s| == 0 then -1
    else if s[|s| - 1] == c then |s| - 1
    else LastIndexOf(s[..|s| - 1], c)
  }

  /** The first position at or after `k` at which `pat` occurs in `s`, or -1
      (`s.indexOf(pat)` is FindFrom(s, pat, 0)). */
  function FindFrom(s: string, pat: string, k: nat): (r: int)
    requires k <= |s|
    ensures r == -1 || (k <= r && r + |pat| <= |s| && s[r..r + |pat|] == pat)
    ensures r != k ==> !StartsWith(s[k..], pat)
    ensures r >= 0 ==> forall j {:trigger StartsWith(s[j..], pat)} :: k <= j < r ==> !StartsWith(s[j..], pat)
    ensures r == -1 ==> forall j {:trigger StartsWith(s[j..], pat)} :: k <= j <= |s| ==> !StartsWith(s[j..], pat)
    decreases |s| - k
  {
    if k + |pat| > |s| then -1
    else if s[k..k + |pat|] == pat then k
    else if k == |s| then -1
    else FindFrom(s, pat, k + 1)
  }

  /** The number of occurrences of `c` in `s`. */
  function Count(s: string, c: char): nat
  {
    if |s| == 0 then 0 else Count(s[..|s| - 1], c) + (if s[|s| - 1] == c then 1 else 0)
  }

  lemma {:induction false} CountAppend(a: string, b: string, c: char)
    ensures Count(a + b, c) == Count(a, c) + Count(b, c)
    decreases |b|
  {
    if |b| > 0 {
      assert (a + b)[..|a + b| - 1] == a + b[..|b| - 1];
      CountAppend(a, b[..|b| - 1], c);
    } else {
      assert a + b == a;
    }
  }

  lemma {:induction false} CountZero(s: string, c: char)
    ensures Count(s, c) == 0 <==> c !in s
    decreases |s|
  {
    if |s| > 0 {
      CountZero(s[..|s| - 1], c);
      assert s == s[..|s| - 1] + [s[|s| - 1]];
    }
  }

  /** `indexOf(c) != -1 && lastIndexOf(c) == indexOf(c)` says exactly that `c`
      occurs once. */
  lemma OccursOnce(s: string, c: char)
    ensures (IndexOf(s, c) != -1 && LastIndexOf(s, c) == IndexOf(s, c)) <==> Count(s, c) == 1
  {
    var i := IndexOf(s, c);
    CountZero(s, c);
    if i != -1 {
      assert s == s[..i] + [c] + s[i + 1..];
      CountAppend(s[..i] + [c], s[i + 1..], c);
      CountAppend(s[..i], [c], c);
      assert Count([c], c) == Count([], c) + 1;
      CountZero(s[..i], c);
      CountZero(s[i + 1..], c);
      var r := LastIndexOf(s, c);
      if r == i {
        assert c !in s[i + 1..];
      }
    }
  }

  /** Searching for a one-character pattern finds its first occurrence. */
  lemma {:induction false} FindFromChar(s: string, c: char, k: nat)
    requires k <= |s|
    ensures var j := IndexOf(s[k..], c);
      FindFrom(s, [c], k) == if j < 0 then -1 else k + j
    decreases |s| - k
  {
    if k < |s| {
      if s[k] != c {
        assert s[k..][1..] == s[k + 1..];
        assert s[k..k + 1] != [c];
        FindFromChar(s, c, k + 1);
      } else {
        assert s[k..k + 1] == [c];
      }
    }
  }

  /** `s.replace(pat, rep)` with a string pattern: only the first occurrence. */
  function ReplaceFirst(s: string, pat: string, rep: string): string
  {
    var i := FindFrom(s, pat, 0);
    if i < 0 then s else s[..i] + rep + s[i + |pat|..]
  }

  /** When `s` begins with the pattern, the occurrence that is replaced is that prefix. */
  lemma ReplaceFirstOfPrefix(pat: string, rest: string, rep: string)
    ensures ReplaceFirst(pat + rest, pat, rep) == rep + rest
  {
    var s := pat + rest;
    assert s[..|pat|] == pat;
    assert s[0..|pat|] == pat;
    assert s[|pat|..] == rest;
  }

  /** Replacing the first occurrence of a single character `c` cuts `s` around
      `s.indexOf(c)`. */
  lemma ReplaceFirstChar(s: string, c: char, rep: string)
    ensures var i := IndexOf(s, c);
      ReplaceFirst(s, [c], rep) == if i < 0 then s else s[..i] + rep + s[i + 1..]
  {
    FindFromChar(s, c, 0);
    assert s[0..] == s;
  }

  /** The characters that `String.prototype.trim` removes (white space and line
      terminators of ECMAScript). */
  predicate IsJsWhitespace(c: char)
  {
    c == '\t' || c == '\n' || c == '\U{000B}' || c == '\U{000C}' || c == '\r' || c == ' '
    || c == '\U{00A0}' || c == '\U{1680}' || ('\U{2000}' <= c <= '\U{200A}')
    || c == '\U{2028}' || c == '\U{2029}' || c == '\U{202F}' || c == '\U{205F}'
    || c == '\U{3000}' || c == '\U{FEFF}'
  }

  function TrimStart(s: string): (r: string)
    ensures |r| <= |s| && r == s[|s| - |r|..]
    ensures forall i :: 0 <= i < |s| - |r| ==> IsJsWhitespace(s[i])
    ensures |r| > 0 ==> !IsJsWhitespace(r[0])
  {
    if |s| > 0 && IsJsWhitespace(s[0]) then
      var r := TrimStart(s[1..]);
      assert s[1..][|s| - 1 - |r|..] == s[|s| - |r|..];
      r
    else s
  }

  function TrimEnd(s: string): (r: string)
    ensures |r| <= |s| && r == s[..|r|]
    ensures forall i :: |r| <= i < |s| ==> IsJsWhitespace(s[i])
    ensures |r| > 0 ==> !IsJsWhitespace(r[|r| - 1])
  {
    if |s| > 0 && IsJsWhitespace(s[|s| - 1]) then TrimEnd(s[..|s| - 1]) else s
  }

  /** `s.trim()` */
  function Trim(s: string): (r: string)
  {
    TrimEnd(TrimStart(s))
  }

  /** A part `r` cut from the front of a suffix `t` of `s`, with white space
      before `t` and between `r` and the end of `t`, is a contiguous part of `s`
      with only white space around it. */
  lemma TrimShape(s: string, t: string, r: string)
    requires |t| <= |s| && t == s[|s| - |t|..]
    requires forall i :: 0 <= i < |s| - |t| ==> IsJsWhitespace(s[i])
    requires |t| > 0 ==> !IsJsWhitespace(t[0])
    requires |r| <= |t| && r == t[..|r|]
    requires forall i :: |r| <= i < |t| ==> IsJsWhitespace(t[i])
    ensures exists a, b :: (0 <= a <= b <= |s| && r == s[a..b]
      && (forall i :: 0 <= i < a ==> IsJsWhitespace(s[i]))
      && (forall i :: b <= i < |s| ==> IsJsWhitespace(s[i])))
    ensures |r| > 0 ==> !IsJsWhitespace(r[0])
  {
    var a := |s| - |t|;
    var b := a + |r|;
    assert r == s[a..b];
    forall i | b <= i < |s|
      ensures IsJsWhitespace(s[i])
    {
      assert s[i] == t[i - a];
    }
    assert 0 <= a <= b <= |s| && r == s[a..b]
      && (forall i :: 0 <= i < a ==> IsJsWhitespace(s[i]))
      && (forall i :: b <= i < |s| ==> IsJsWhitespace(s[i]));
    if |r| > 0 {
      assert r[0] == t[0];
    }
  }

  /** `trim` removes exactly a white-space prefix and suffix: what remains is a
      contiguous part of `s` that neither starts nor ends with white space. */
  lemma TrimSpec(s: string)
    ensures exists a, b :: (0 <= a <= b <= |s| && Trim(s) == s[a..b]
      && (forall i :: 0 <= i < a ==> IsJsWhitespace(s[i]))
      && (forall i :: b <= i < |s| ==> IsJsWhitespace(s[i])))
    ensures |Trim(s)| > 0 ==> !IsJsWhitespace(Trim(s)[0]) && !IsJsWhitespace(Trim(s)[|Trim(s)| - 1])
  {
    TrimShape(s, TrimStart(s), TrimEnd(TrimStart(s)));
  }
}
