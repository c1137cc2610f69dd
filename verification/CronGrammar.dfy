/** The grammar of a field element, written as a grammar, and that the parser accepts exactly it. */
module CronGrammar {
  import opened Prelude
  import opened Names
  import opened NameRules
  import opened CronFields
  import opened CronText

  // ---------------------------------------------------------------- numbers

  /** An optional sign and at least one digit, for a value within int64. */
  ghost predicate Integer(s: Bytes, v: int) {
    exists d: Bytes :: d != [] && AllDigits(d) && -I64_LIMIT <= v < I64_LIMIT
      && ((s == d && v == DecimalValue(d)) || (s == ['+' as int] + d && v == DecimalValue(d)) || (s == ['-' as int] + d && v == -DecimalValue(d)))
  }

  lemma AtoiIff(s: Bytes, v: int)
    ensures Atoi(s) == Some(v) <==> Integer(s, v)
  {
    hide DecimalValue;
    if Atoi(s) == Some(v) {
      var d := if s[0] == PLUS || s[0] == HYPHEN then s[1..] else s;
      assert s == d || s == [s[0]] + d;
      assert Integer(s, v);
    }
    if Integer(s, v) {
      var d: Bytes :| d != [] && AllDigits(d) && -I64_LIMIT <= v < I64_LIMIT
        && ((s == d && v == DecimalValue(d)) || (s == ['+' as int] + d && v == DecimalValue(d)) || (s == ['-' as int] + d && v == -DecimalValue(d)));
      assert 0x30 <= d[0] <= 0x39;
      if s != d {
        assert s[1..] == d;
      }
    }
  }

  function Zeroes(k: nat): Bytes {
    seq(k, _ => 0x30)
  }

  /** Digits stand for their decimal value: they are what is printed for it, after any number of zeros. */
  lemma {:induction false} DigitsDenote(d: Bytes) returns (k: nat)
    requires d != [] && AllDigits(d)
    ensures DecimalValue(d) >= 0 && d == Zeroes(k) + Decimal(DecimalValue(d))
  {
    var front, last := d[..|d| - 1], d[|d| - 1];
    assert d == front + [last];
    if front == [] {
      assert DecimalValue(front) == 0;
      k := 0;
    } else {
      k := DigitsDenote(front);
      var v := DecimalValue(front);
      if v > 0 {
        DecimalGrows(v, last - 0x30);
      } else {
        assert Decimal(0) == [0x30];
        assert Zeroes(k) + [0x30] == Zeroes(k + 1);
        k := k + 1;
      }
    }
  }

  lemma DecimalGrows(v: nat, digit: nat)
    requires v > 0 && digit < 10
    ensures Decimal(v * 10 + digit) == Decimal(v) + [0x30 + digit]
  {
    DivUnique(v * 10 + digit, 10, v, digit);
  }

  // ---------------------------------------------------------------- elements

  ghost predicate RangeText(s: Bytes, lo: int, hi: int) {
    exists a: Bytes, b: Bytes :: s == a + ['-' as int] + b && ('-' as int) !in a && Integer(a, lo) && Integer(b, hi)
  }

  /** Everything the element may range over before a step is given. */
  ghost predicate BaseText(s: Bytes, lo: int, hi: int, min: int, max: int) {
    (s == ['*' as int] && lo == min && hi == max) || (RangeText(s, lo, hi) && min <= lo <= hi <= max)
  }

  /** "7", "*", "2-5", or either of the last two with "/step". */
  ghost predicate Writes(s: Bytes, p: Part, min: int, max: int) {
    p.Steps? &&
    ((p.step == 1 && p.lo == p.hi && ('-' as int) !in s && Integer(s, p.lo) && min <= p.lo <= max)
     || (p.step == 1 && BaseText(s, p.lo, p.hi, min, max))
     || (p.step > 0 && exists base: Bytes, k: Bytes :: s == base + ['/' as int] + k && BaseText(base, p.lo, p.hi, min, max) && Integer(k, p.step)))
  }

  lemma IntegerChars(s: Bytes, v: int)
    requires Integer(s, v)
    ensures SLASH !in s && STAR !in s && s != []
  {
    var d: Bytes :| d != [] && AllDigits(d) && (s == d || s == ['+' as int] + d || s == ['-' as int] + d);
  }

  lemma BaseHasNoSlash(s: Bytes, lo: int, hi: int, min: int, max: int)
    requires BaseText(s, lo, hi, min, max)
    ensures SLASH !in s
  {
    hide Integer;
    if RangeText(s, lo, hi) {
      var a: Bytes, b: Bytes :| s == a + ['-' as int] + b && Integer(a, lo) && Integer(b, hi);
      IntegerChars(a, lo);
      IntegerChars(b, hi);
    }
  }

  lemma SplitHere(s: Bytes, c: Byte, i: nat)
    requires i < |s| && s[i] == c
    ensures s == s[..i] + [c] + s[i + 1..]
  {
  }

  lemma RangeIff(s: Bytes, lo: int, hi: int, min: int, max: int)
    ensures ReadRange(s, min, max) == Steps(lo, hi, 1) <==> RangeText(s, lo, hi) && min <= lo <= hi <= max
  {
    hide Atoi, Integer;
    var i := IndexOf(s, HYPHEN);
    if ReadRange(s, min, max) == Steps(lo, hi, 1) {
      SplitHere(s, HYPHEN, i);
      AtoiIff(s[..i], lo);
      AtoiIff(s[i + 1..], hi);
      assert RangeText(s, lo, hi);
    }
    if RangeText(s, lo, hi) {
      var a: Bytes, b: Bytes :| s == a + ['-' as int] + b && ('-' as int) !in a && Integer(a, lo) && Integer(b, hi);
      FirstSeparator(a, HYPHEN, b);
      assert s[..|a|] == a && s[|a| + 1..] == b;
      AtoiIff(a, lo);
      AtoiIff(b, hi);
    }
  }

  lemma RangeNeedsHyphen(s: Bytes, lo: int, hi: int)
    requires RangeText(s, lo, hi)
    ensures HYPHEN in s && s != [STAR]
  {
    hide Integer;
    var a: Bytes, b: Bytes :| s == a + ['-' as int] + b && Integer(a, lo);
    assert s[|a|] == HYPHEN;
    IntegerChars(a, lo);
    assert s[0] == a[0] && a[0] in a;
  }

  /** Without a slash. */
  lemma PlainIff(s: Bytes, p: Part, min: int, max: int)
    requires p.Steps? && SLASH !in s && min <= max
    ensures ReadPart(s, min, max) == p <==>
              p.step == 1 && ((p.lo == p.hi && HYPHEN !in s && Integer(s, p.lo) && min <= p.lo <= max) || BaseText(s, p.lo, p.hi, min, max))
  {
    hide Atoi, Integer, RangeText, ReadRange;
    RangeIff(s, p.lo, p.hi, min, max);
    AtoiIff(s, p.lo);
    if RangeText(s, p.lo, p.hi) {
      RangeNeedsHyphen(s, p.lo, p.hi);
    }
    if Integer(s, p.lo) {
      IntegerChars(s, p.lo);
    }
    assert ReadRange(s, min, max).Steps? ==> ReadRange(s, min, max).step == 1 by { RangeStepIsOne(s, min, max); }
  }

  lemma RangeStepIsOne(s: Bytes, min: int, max: int)
    ensures ReadRange(s, min, max).Steps? ==> ReadRange(s, min, max).step == 1
  {
  }

  /** With a slash. */
  lemma SteppedIff(s: Bytes, p: Part, min: int, max: int)
    requires p.Steps? && SLASH in s && min <= max
    ensures var i := IndexOf(s, SLASH);
            ReadPart(s, min, max) == p <==>
              p.step > 0 && BaseText(s[..i], p.lo, p.hi, min, max) && Integer(s[i + 1..], p.step)
  {
    hide Atoi, Integer, RangeText, ReadRange;
    var i := IndexOf(s, SLASH);
    RangeIff(s[..i], p.lo, p.hi, min, max);
    AtoiIff(s[i + 1..], p.step);
    RangeStepIsOne(s[..i], min, max);
    if RangeText(s[..i], p.lo, p.hi) {
      RangeNeedsHyphen(s[..i], p.lo, p.hi);
    }
  }

  /** An element is accepted with given values and step if and only if the grammar writes them so. */
  lemma PartIff(s: Bytes, p: Part, min: int, max: int)
    requires p.Steps? && min <= max
    ensures ReadPart(s, min, max) == p <==> Writes(s, p, min, max)
  {
    hide ReadPart, Integer, BaseText;
    if SLASH in s {
      var i := IndexOf(s, SLASH);
      SteppedIff(s, p, min, max);
      SplitHere(s, SLASH, i);
      if Integer(s, p.lo) {
        IntegerChars(s, p.lo);
      }
      if BaseText(s, p.lo, p.hi, min, max) {
        BaseHasNoSlash(s, p.lo, p.hi, min, max);
      }
      forall base: Bytes, k: Bytes | s == base + [SLASH] + k && BaseText(base, p.lo, p.hi, min, max)
        ensures base == s[..i] && k == s[i + 1..]
      {
        BaseHasNoSlash(base, p.lo, p.hi, min, max);
        FirstSeparator(base, SLASH, k);
        assert s[..|base|] == base && s[|base| + 1..] == k;
      }
    } else {
      PlainIff(s, p, min, max);
      forall base: Bytes, k: Bytes
        ensures s != base + [SLASH] + k
      {
        assert (base + [SLASH] + k)[|base|] == SLASH;
      }
    }
  }
}
