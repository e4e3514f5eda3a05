/**
 * Column names `chrom:start:end` and the intersection of two column masks
 * (PileupColumnUtils.py; BasePairUtils.py holds identical copies of both).
 */
module PileupColumnUtils {
  import opened Seqs
  import opened OrderedMaps

  /** The decimal digit for `d`. */
  function DigitChar(d: nat): char
    requires d < 10
  {
    ('0' as int + d) as char
  }

  /** Python's `str(n)`: decimal digits, most significant first, after a minus sign when `n` is negative. */
  function IntToString(n: int): string
    decreases if n < 0 then 1 - 2 * n else 2 * n
  {
    if n < 0 then "-" + IntToString(-n)
    else if n < 10 then [DigitChar(n)]
    else IntToString(n / 10) + [DigitChar(n % 10)]
  }

  /**
   * The rendering is non-empty and has no colon; it starts with a minus sign
   * exactly for negative numbers; a non-negative number is all digits, two
   * or more from 10 on.
   */
  lemma {:induction false} IntToStringShape(n: int)
    ensures |IntToString(n)| >= 1 && ':' !in IntToString(n)
    ensures IntToString(n)[0] == '-' <==> n < 0
    ensures n >= 10 ==> |IntToString(n)| >= 2
    ensures n >= 0 ==> forall i :: 0 <= i < |IntToString(n)| ==> '0' <= IntToString(n)[i] <= '9'
    decreases if n < 0 then 1 - 2 * n else 2 * n
  {
    var s := IntToString(n);
    if n < 0 {
      IntToStringShape(-n);
      assert s == "-" + IntToString(-n);
      forall i | 0 <= i < |s|
        ensures s[i] != ':'
      {
        if i > 0 {
          assert s[i] == IntToString(-n)[i - 1];
        }
      }
    } else if n >= 10 {
      IntToStringShape(n / 10);
      assert s == IntToString(n / 10) + [DigitChar(n % 10)];
      forall i | 0 <= i < |s|
        ensures '0' <= s[i] <= '9'
      {
        if i < |s| - 1 {
          assert s[i] == IntToString(n / 10)[i];
        }
      }
    }
  }

  /** The rendering is non-empty and starts with a minus sign exactly for negative numbers. */
  lemma {:induction false} SignRendering(n: int)
    ensures |IntToString(n)| >= 1 && (IntToString(n)[0] == '-' <==> n < 0)
    decreases if n < 0 then 0 else n
  {
    if n >= 10 {
      SignRendering(n / 10);
      assert IntToString(n) == IntToString(n / 10) + [DigitChar(n % 10)];
      assert IntToString(n)[0] == IntToString(n / 10)[0];
    }
  }

  lemma DigitCharInjective(a: nat, b: nat)
    requires a < 10 && b < 10 && DigitChar(a) == DigitChar(b)
    ensures a == b
  {
  }

  /** Two non-negative numbers with the same rendering are equal. */
  lemma {:induction false} NatRenderingInjective(a: nat, b: nat)
    requires IntToString(a) == IntToString(b)
    ensures a == b
    decreases a
  {
    IntToStringShape(a);
    IntToStringShape(b);
    if a < 10 && b < 10 {
      DigitCharInjective(a, b);
    } else if a >= 10 && b >= 10 {
      var s := IntToString(a);
      assert s == IntToString(a / 10) + [DigitChar(a % 10)];
      assert s == IntToString(b / 10) + [DigitChar(b % 10)];
      assert s[|s| - 1] == DigitChar(a % 10) && s[|s| - 1] == DigitChar(b % 10);
      DigitCharInjective(a % 10, b % 10);
      assert IntToString(a / 10) == s[..|s| - 1] == IntToString(b / 10);
      NatRenderingInjective(a / 10, b / 10);
    }
  }

  /** A negative number renders as a minus sign before its absolute value. */
  lemma NegativeRendering(n: int)
    requires n < 0
    ensures IntToString(n)[1..] == IntToString(-n)
  {
    assert IntToString(n) == "-" + IntToString(-n);
  }

  /** `str` is injective on integers: two numbers with the same rendering are equal. */
  lemma IntToStringInjective(a: int, b: int)
    requires IntToString(a) == IntToString(b)
    ensures a == b
  {
    SignRendering(a);
    SignRendering(b);
    assert (a < 0) == (b < 0);
    if a < 0 && b < 0 {
      NegativeRendering(a);
      NegativeRendering(b);
      NatRenderingInjective(-a, -b);
    } else if a >= 0 && b >= 0 {
      NatRenderingInjective(a, b);
    }
  }

  /**
   * `retrieve_pileupcolumn_name`: `chrom + ":" + str(start) + ":" + str(end)`.
   */
  function ColumnName(chrom: string, start: int, end: int): string {
    chrom + ":" + IntToString(start) + ":" + IntToString(end)
  }

  /** A column name is the chromosome, a colon, and the rendered interval. */
  lemma ColumnNameParts(chrom: string, start: int, end: int)
    ensures |ColumnName(chrom, start, end)| > |chrom| + 1
    ensures ColumnName(chrom, start, end)[..|chrom| + 1] == chrom + ":"
    ensures ColumnName(chrom, start, end)[|chrom| + 1..] == IntToString(start) + ":" + IntToString(end)
  {
    var tail := IntToString(start) + ":" + IntToString(end);
    assert ColumnName(chrom, start, end) == (chrom + ":") + tail;
  }

  /** Splitting at the first colon: a colon-free head is determined by the whole string. */
  lemma SplitAtColon(a: string, b: string, a': string, b': string)
    requires ':' !in a && ':' !in a'
    requires a + ":" + b == a' + ":" + b'
    ensures a == a' && b == b'
  {
    var s := a + ":" + b;
    assert s[|a|] == ':' && s[|a'|] == ':';
    assert forall i :: 0 <= i < |a| ==> s[i] == a[i];
    assert forall i :: 0 <= i < |a'| ==> s[i] == a'[i];
    assert a == s[..|a|] == a';
    assert b == s[|a| + 1..] == b';
  }

  /**
   * On one chromosome the name determines the interval: two columns with the
   * same name have the same start and the same end.
   */
  lemma ColumnNameInjective(chrom: string, start: int, end: int, start': int, end': int)
    requires ColumnName(chrom, start, end) == ColumnName(chrom, start', end')
    ensures start == start' && end == end'
  {
    var n := ColumnName(chrom, start, end);
    ColumnNameParts(chrom, start, end);
    ColumnNameParts(chrom, start', end');
    IntToStringShape(start);
    IntToStringShape(start');
    assert IntToString(start) + ":" + IntToString(end) == n[|chrom| + 1..]
        == IntToString(start') + ":" + IntToString(end');
    SplitAtColon(IntToString(start), IntToString(end), IntToString(start'), IntToString(end'));
    IntToStringInjective(start, start');
    IntToStringInjective(end, end');
  }

  /** Names of single-base columns `chrom:p:p+1` are distinct for distinct positions. */
  lemma BaseNamesDistinct(chrom: string, p: int, q: int)
    requires p != q
    ensures ColumnName(chrom, p, p + 1) != ColumnName(chrom, q, q + 1)
  {
    if ColumnName(chrom, p, p + 1) == ColumnName(chrom, q, q + 1) {
      ColumnNameInjective(chrom, p, p + 1, q, q + 1);
    }
  }

  /** The keys that `mask` holds with any value. */
  function Keys(mask: OMap<string, bool>): set<string> {
    mask.values.Keys
  }

  /** The intersection of two masks as the loop leaves it after the columns `cols` of the first. */
  function IntersectOver(cols: seq<string>, mask1: OMap<string, bool>, mask2: OMap<string, bool>): OMap<string, bool>
    requires forall c :: c in cols ==> c in mask1.values
  {
    if |cols| == 0 then Empty()
    else
      var c := cols[|cols| - 1];
      var prev := IntersectOver(cols[..|cols| - 1], mask1, mask2);
      if c in mask2.values then prev.Put(c, mask1.values[c] || mask2.values[c]) else prev
  }

  /** The intersection over distinct columns has the filtered columns as keys and OR-ed values. */
  lemma {:induction false} IntersectOverShape(cols: seq<string>, mask1: OMap<string, bool>, mask2: OMap<string, bool>)
    requires forall c :: c in cols ==> c in mask1.values
    requires Distinct(cols)
    ensures IntersectOver(cols, mask1, mask2).Valid()
    ensures IntersectOver(cols, mask1, mask2).keys == FilterIn(cols, Keys(mask2))
    ensures forall c :: c in IntersectOver(cols, mask1, mask2).values ==>
      IntersectOver(cols, mask1, mask2).values[c] == (mask1.values[c] || mask2.values[c])
  {
    if |cols| > 0 {
      var init := cols[..|cols| - 1];
      DistinctPrefix(cols, |cols| - 1);
      LastNotInPrefix(cols);
      IntersectOverShape(init, mask1, mask2);
    }
  }

  /**
   * `intersect_pileupcolumn_masks`: the columns of the first mask that the
   * second mask also has, in the first mask's order, each masked when either
   * input masks it.  Columns that only one mask knows are dropped.
   */
  method IntersectMasks(mask1: OMap<string, bool>, mask2: OMap<string, bool>) returns (mask: OMap<string, bool>)
    requires mask1.Valid()
    ensures mask == IntersectOver(mask1.keys, mask1, mask2)
    ensures mask.Valid()
    ensures mask.keys == FilterIn(mask1.keys, Keys(mask2))
    ensures forall c :: c in mask.values <==> c in mask1.values && c in mask2.values
    ensures forall c :: c in mask.values ==> mask.values[c] == (mask1.values[c] || mask2.values[c])
  {
    mask := Empty();
    var i := 0;
    while i < |mask1.keys|
      invariant 0 <= i <= |mask1.keys|
      invariant mask == IntersectOver(mask1.keys[..i], mask1, mask2)
    {
      var c := mask1.keys[i];
      assert mask1.keys[..i + 1][..i] == mask1.keys[..i];
      if c in mask2.values {
        mask := mask.Put(c, mask1.values[c] || mask2.values[c]);
      }
      i := i + 1;
    }
    assert mask1.keys[..i] == mask1.keys;
    IntersectOverShape(mask1.keys, mask1, mask2);
  }
}
