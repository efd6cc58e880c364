/** Label-pattern inference (page/format-label.ts): the labels of the last
    non-scrolling page tell how to print the label of the `i`-th cell in scroll
    mode, e.g. "1." becomes "i.". The guess is cached until new labels arrive. */
module FormatLabel {
  import opened Wrappers
  import opened Text

  /** A label formatter: the default `${i}`, or the first label with its single
      '1' replaced by the number. */
  datatype Formatter = Default | Pattern(label1: string)

  function Apply(f: Formatter, i: int): string
  {
    match f
    case Default => DecimalString(i)
    case Pattern(label1) => ReplaceFirst(label1, "1", DecimalString(i))
  }

  /** `/[⌃⌥⇧⌘]/.test(s)` */
  predicate HasModifierSymbol(s: string)
  {
    '⌃' in s || '⌥' in s || '⇧' in s || '⌘' in s
  }

  /** `/C-|A-|S-|M-/.test(s)` */
  predicate HasModifierPrefix(s: string)
  {
    exists i :: 0 <= i < |s| - 1 && s[i] in "CASM" && s[i + 1] == '-'
  }

  function Min(a: int, b: int): int
  {
    if a < b then a else b
  }

  /** The formatter `guessLabelFormatter` settles on, stated by what it checks:
      some labels, a first label free of modifier notation holding exactly one
      '1', and the next labels (up to the tenth) printing 2, 3, ..., 9, 0 the same
      way. */
  function Guessed(labels: seq<string>): Formatter
  {
    if |labels| == 0 then Default
    else
      var label1 := labels[0];
      if HasModifierSymbol(label1) || HasModifierPrefix(label1) then Default
      else if Count(label1, '1') != 1 then Default
      else if forall i :: 1 <= i < Min(|labels|, 10) ==> labels[i] == Apply(Pattern(label1), (i + 1) % 10)
      then Pattern(label1)
      else Default
  }

  /** A learned pattern prints `n` in place of the single '1' of the first label. */
  lemma PatternSplices(label1: string, n: int)
    requires Count(label1, '1') == 1
    ensures var k := IndexOf(label1, '1');
      0 <= k < |label1|
      && Apply(Pattern(label1), n) == label1[..k] + DecimalString(n) + label1[k + 1..]
  {
    OccursOnce(label1, '1');
    ReplaceFirstChar(label1, '1', DecimalString(n));
  }

  /** The learned formatter reproduces every label it was checked against,
      the first one included: label `i` is the formatter applied to `(i + 1) % 10`. */
  lemma GuessedFits(labels: seq<string>)
    requires Guessed(labels).Pattern?
    ensures Guessed(labels).label1 == labels[0]
    ensures forall i :: 0 <= i < Min(|labels|, 10) ==> labels[i] == Apply(Guessed(labels), (i + 1) % 10)
  {
    var label1 := labels[0];
    var g := Guessed(labels);
    assert g == Pattern(label1);
    assert Count(label1, '1') == 1;
    assert forall i :: 1 <= i < Min(|labels|, 10) ==> labels[i] == Apply(Pattern(label1), (i + 1) % 10);
    PatternFirst(label1);
  }

  /** A learned pattern prints 1 as the first label itself. */
  lemma PatternFirst(label1: string)
    requires Count(label1, '1') == 1
    ensures Apply(Pattern(label1), 1) == label1
  {
    var k := IndexOf(label1, '1');
    PatternSplices(label1, 1);
    var one := DecimalString(1);
    assert one == ['1'] by {
      assert NatString(1) == [DigitChar(1)];
      assert DigitChar(1) == '1';
    }
    assert label1[k] == '1';
    Unsplit(label1, k);
  }

  /** A string is its part before `k`, the character at `k` and the rest. */
  lemma Unsplit(s: string, k: int)
    requires 0 <= k < |s|
    ensures s[..k] + [s[k]] + s[k + 1..] == s
  {
    assert s[..k] + [s[k]] + s[k + 1..] == s[..k] + s[k..];
  }

  /** A learned formatter prints different non-negative numbers differently. */
  lemma PatternInjective(label1: string, m: nat, n: nat)
    requires Count(label1, '1') == 1
    requires Apply(Pattern(label1), m) == Apply(Pattern(label1), n)
    ensures m == n
  {
    var k := IndexOf(label1, '1');
    PatternSplices(label1, m);
    PatternSplices(label1, n);
    var a := label1[..k] + NatString(m) + label1[k + 1..];
    var b := label1[..k] + NatString(n) + label1[k + 1..];
    assert |NatString(m)| == |NatString(n)|;
    assert a[k..k + |NatString(m)|] == NatString(m);
    assert b[k..k + |NatString(n)|] == NatString(n);
    NatStringInjective(m, n);
  }

  /** The first label "1." gives "0." for the cell labelled with 0. */
  lemma DotPattern()
    ensures Apply(Pattern("1."), 0) == "0."
  {
    assert Count("1.", '1') == 1 by {
      assert "1."[..1] == "1";
      assert Count("1", '1') == 1 by { assert "1"[..0] == ""; }
    }
    PatternSplices("1.", 0);
  }

  /** The memoised formatter of the module: `lastLabels` and `formatter`. */
  class LabelFormat {
    var lastLabels: seq<string>
    var formatter: Option<Formatter>

    /** A cached formatter is always the one guessed from the current labels. */
    ghost predicate Valid()
      reads this
    {
      formatter.Some? ==> formatter.value == Guessed(lastLabels)
    }

    constructor ()
      ensures Valid() && lastLabels == [] && formatter == None
    {
      lastLabels := [];
      formatter := None;
    }

    /** `setLastLabels(labels)`: new labels invalidate the cache. */
    method SetLastLabels(labels: seq<string>)
      modifies this
      ensures lastLabels == labels && formatter == None && Valid()
    {
      lastLabels := labels;
      formatter := None;
    }

    /** `guessLabelFormatter()` */
    method GuessLabelFormatter() returns (f: Formatter)
      ensures f == Guessed(lastLabels)
    {
      if |lastLabels| == 0 {
        return Default;
      }
      var label1 := lastLabels[0];
      if HasModifierSymbol(label1) || HasModifierPrefix(label1) {
        return Default;
      }
      var index := IndexOf(label1, '1');
      OccursOnce(label1, '1');
      if index == -1 || LastIndexOf(label1, '1') != index {
        return Default;
      }
      var candidate := Pattern(label1);
      var n := Min(|lastLabels|, 10);
      var i := 1;
      while i < n
        invariant 1 <= i <= n
        invariant forall j :: 1 <= j < i ==> lastLabels[j] == Apply(candidate, (j + 1) % 10)
      {
        var number := (i + 1) % 10;
        if lastLabels[i] != Apply(candidate, number) {
          return Default;
        }
        i := i + 1;
      }
      return candidate;
    }

    /** `getLabelFormatter()`: guesses once and then answers from the cache. */
    method GetLabelFormatter() returns (f: Formatter)
      requires Valid()
      modifies this`formatter
      ensures f == Guessed(lastLabels) && formatter == Some(f) && Valid()
      ensures old(formatter).Some? ==> formatter == old(formatter)
    {
      if formatter.None? {
        var g := GuessLabelFormatter();
        formatter := Some(g);
      }
      f := formatter.value;
    }
  }
}
