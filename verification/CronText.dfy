/** The parser reads back what a crontab line says: every element, field and line, once written out. */
module CronText {
  import opened Prelude
  import opened Names
  import opened CronFields

  // ---------------------------------------------------------------- words

  /** A space starts nowhere in s. */
  predicate Spaceless(s: Bytes) {
    forall i :: 0 <= i < |s| ==> LeadingSpace(s[i..]) == 0
  }

  lemma SpacelessLonger(s: Bytes, n: nat)
    requires 1 <= n <= |s| && LeadingSpace(s) == 0 && Spaceless(s[1..n])
    ensures Spaceless(s[..n])
  {
    hide LeadingSpace, IsSpaceRune;
    forall i | 0 <= i < n
      ensures LeadingSpace(s[..n][i..]) == 0
    {
      if i == 0 {
        assert s[..n][0..] == s[..n];
        PrefixStaysClean(s[..n], s);
      } else {
        assert s[..n][i..] == s[1..n][i - 1..];
      }
    }
  }

  /** The word at the start of s: no space starts in it, and one follows it unless s ends. */
  lemma {:induction false} WordEnds(s: Bytes)
    ensures Spaceless(s[..WordLength(s)])
    ensures WordLength(s) < |s| ==> LeadingSpace(s[WordLength(s)..]) > 0
    decreases |s|
  {
    hide LeadingSpace, Spaceless;
    if s != [] && LeadingSpace(s) == 0 {
      var n := WordLength(s);
      WordEnds(s[1..]);
      assert s[1..][n - 1..] == s[n..];
      assert s[1..][..n - 1] == s[1..n];
      SpacelessLonger(s, n);
    } else {
      NoSpaceInNothing(s);
    }
  }

  lemma NoSpaceInNothing(s: Bytes)
    ensures Spaceless([])
    ensures LeadingSpace(s[0..]) == LeadingSpace(s)
  {
    assert s[0..] == s;
  }

  /** Words are never empty and no space starts inside one. */
  lemma {:induction false} FieldsAreWords(s: Bytes)
    ensures forall i :: 0 <= i < |Fields(s)| ==> Fields(s)[i] != [] && Spaceless(Fields(s)[i])
    decreases |s|
  {
    if s != [] {
      var k := LeadingSpace(s);
      if k > 0 {
        FieldsAreWords(s[k..]);
      } else {
        WordEnds(s);
        FieldsAreWords(s[WordLength(s)..]);
      }
    }
  }

  lemma BlankAfter(w: Bytes, rest: Bytes)
    requires w != [] && LeadingSpace(w) == 0
    requires rest != [] ==> rest[0] == SPACE
    ensures LeadingSpace(w + rest) == 0
  {
    var s := w + rest;
    assert s[..1] == w[..1];
    if |s| >= 2 { assert s[..2][0] == s[0] && s[..2][1] == s[1]; }
    if |s| >= 3 { assert s[..3][0] == s[0] && s[..3][1] == s[1] && s[..3][2] == s[2]; }
    if |w| >= 2 { assert w[..2] == s[..2]; }
    if |w| >= 3 { assert w[..3] == s[..3]; }
  }

  lemma {:induction false} WordLengthIs(w: Bytes, rest: Bytes)
    requires Spaceless(w)
    requires rest != [] ==> rest[0] == SPACE
    ensures WordLength(w + rest) == |w|
  {
    if w == [] {
      assert w + rest == rest;
      if rest != [] { assert rest[..1] == [SPACE]; }
    } else {
      assert LeadingSpace(w[0..]) == 0 && w[0..] == w;
      BlankAfter(w, rest);
      assert (w + rest)[1..] == w[1..] + rest;
      forall i | 0 <= i < |w[1..]|
        ensures LeadingSpace(w[1..][i..]) == 0
      {
        assert w[1..][i..] == w[i + 1..];
      }
      WordLengthIs(w[1..], rest);
    }
  }

  /** Words written with one blank between them are read back. */
  lemma {:induction false} FieldsOfJoined(words: seq<Bytes>)
    requires forall i :: 0 <= i < |words| ==> words[i] != [] && Spaceless(words[i])
    ensures Fields(Join(words, SPACE)) == words
  {
    if words != [] {
      var s, w := Join(words, SPACE), words[0];
      var rest := if |words| == 1 then [] else [SPACE] + Join(words[1..], SPACE);
      assert s == w + rest;
      WordLengthIs(w, rest);
      assert LeadingSpace(w[0..]) == 0 && w[0..] == w;
      BlankAfter(w, rest);
      assert s[..|w|] == w && s[|w|..] == rest;
      FieldsOfJoined(words[1..]);
      if |words| > 1 {
        assert rest[..1] == [SPACE];
        assert rest[1..] == Join(words[1..], SPACE);
      }
    }
  }

  // ---------------------------------------------------------------- separators and numbers

  lemma FirstSeparator(a: Bytes, c: Byte, b: Bytes)
    requires c !in a
    ensures IndexOf(a, c) == |a| && IndexOf(a + [c] + b, c) == |a|
  {
    var s := a + [c] + b;
    var i := IndexOf(s, c);
    assert s[|a|] == c;
    assert forall k :: 0 <= k < |a| ==> s[k] == a[k];
    assert forall k :: 0 <= k < i ==> s[k] in s[..i];
  }

  lemma SplitStep(a: Bytes, c: Byte, rest: Bytes)
    requires c !in a
    ensures Split(a, c) == [a]
    ensures Split(a + [c] + rest, c) == [a] + Split(rest, c)
  {
    var s := a + [c] + rest;
    FirstSeparator(a, c, rest);
    assert s[..|a|] == a && s[|a| + 1..] == rest;
  }

  lemma {:induction false} SplitOfJoined(parts: seq<Bytes>, c: Byte)
    requires parts != [] && forall i :: 0 <= i < |parts| ==> c !in parts[i]
    ensures Split(Join(parts, c), c) == parts
  {
    hide Split;
    if |parts| == 1 {
      SplitStep(parts[0], c, []);
    } else {
      SplitStep(parts[0], c, Join(parts[1..], c));
      SplitOfJoined(parts[1..], c);
    }
  }

  lemma {:induction false} DecimalDigits(n: nat)
    ensures AllDigits(Decimal(n))
  {
    if n >= 10 {
      DecimalDigits(n / 10);
    }
  }

  lemma AtoiReadsDecimal(n: nat)
    ensures Atoi(Decimal(n)) == if n < I64_LIMIT then Some(n) else None
  {
    hide Decimal, DecimalValue;
    DecimalDigits(n);
    DecimalInverse(n);
    AtoiReads(Decimal(n));
  }

  lemma AtoiReads(d: Bytes)
    requires d != [] && AllDigits(d) && DecimalValue(d) >= 0
    ensures Atoi(d) == if DecimalValue(d) < I64_LIMIT then Some(DecimalValue(d)) else None
  {
    hide DecimalValue;
    assert 0x30 <= d[0] <= 0x39;
  }

  // ---------------------------------------------------------------- elements, fields, lines

  predicate Fits(p: Part, min: int, max: int) {
    p.Steps? && min <= p.lo <= p.hi <= max && 0 < p.step < I64_LIMIT
  }

  /** An element in the shortest of the five notations that says it. */
  function WritePart(p: Part, min: int, max: int): Bytes
    requires FieldRange(min, max) && Fits(p, min, max)
  {
    if p.lo == p.hi && p.step == 1 then Decimal(p.lo)
    else if p.lo == min && p.hi == max then
      if p.step == 1 then [STAR] else [STAR] + [SLASH] + Decimal(p.step)
    else if p.step == 1 then WriteRange(p)
    else WriteRange(p) + [SLASH] + Decimal(p.step)
  }

  function WriteRange(p: Part): Bytes
    requires p.Steps? && p.lo >= 0 && p.hi >= 0
  {
    Decimal(p.lo) + [HYPHEN] + Decimal(p.hi)
  }

  predicate ElementChars(s: Bytes) {
    forall i :: 0 <= i < |s| ==> 0x30 <= s[i] <= 0x39 || s[i] == HYPHEN || s[i] == SLASH || s[i] == STAR
  }

  lemma WrittenChars(p: Part, min: int, max: int)
    requires FieldRange(min, max) && Fits(p, min, max)
    ensures ElementChars(WritePart(p, min, max)) && WritePart(p, min, max) != []
  {
    hide Decimal;
    DecimalDigits(p.lo);
    DecimalDigits(p.hi);
    DecimalDigits(p.step);
  }

  lemma RangeReadsBack(p: Part, min: int, max: int)
    requires FieldRange(min, max) && Fits(p, min, max)
    ensures ReadRange(WriteRange(p), min, max) == Steps(p.lo, p.hi, 1)
    ensures HYPHEN in WriteRange(p) && SLASH !in WriteRange(p) && WriteRange(p) != [STAR]
  {
    hide Decimal, Atoi;
    var s, i := WriteRange(p), |Decimal(p.lo)|;
    DecimalDigits(p.lo);
    DecimalDigits(p.hi);
    FirstSeparator(Decimal(p.lo), HYPHEN, Decimal(p.hi));
    assert s[i] == HYPHEN;
    assert s[..i] == Decimal(p.lo) && s[i + 1..] == Decimal(p.hi);
    AtoiReadsDecimal(p.lo);
    AtoiReadsDecimal(p.hi);
  }

  lemma SteppedReadsBack(text: Bytes, step: nat, min: int, max: int)
    requires FieldRange(min, max) && SLASH !in text && 0 < step < I64_LIMIT
    ensures ReadPart(text + [SLASH] + Decimal(step), min, max)
         == if text == [STAR] then Steps(min, max, step)
            else if ReadRange(text, min, max).Steps? then ReadRange(text, min, max).(step := step)
            else ReadRange(text, min, max)
  {
    hide Decimal, Atoi;
    var s := text + [SLASH] + Decimal(step);
    FirstSeparator(text, SLASH, Decimal(step));
    assert s[|text|] == SLASH;
    assert s[..|text|] == text && s[|text| + 1..] == Decimal(step);
    AtoiReadsDecimal(step);
  }

  /** Every element that fits the field is read back from what is written for it. */
  lemma PartReadsBack(p: Part, min: int, max: int)
    requires FieldRange(min, max) && Fits(p, min, max)
    ensures ReadPart(WritePart(p, min, max), min, max) == p
  {
    hide Decimal, Atoi;
    if p.lo == p.hi && p.step == 1 {
      DecimalDigits(p.lo);
      AtoiReadsDecimal(p.lo);
      assert 0x30 <= Decimal(p.lo)[0] <= 0x39;
    } else if p.lo == min && p.hi == max {
      SteppedReadsBack([STAR], p.step, min, max);
    } else {
      RangeReadsBack(p, min, max);
      SteppedReadsBack(WriteRange(p), p.step, min, max);
    }
  }

  /** The element 5/2 crashes the parser, whatever the field. */
  lemma FiveSlashTwoCrashes(min: int, max: int)
    ensures ReadPart([0x35, SLASH, 0x32], min, max) == Crash
  {
    hide Atoi;
    var s: Bytes := [0x35, SLASH, 0x32];
    FirstSeparator([0x35], SLASH, [0x32]);
    assert s == [0x35] + [SLASH] + [0x32];
    assert s[..1] == [0x35] && s[2..] == [0x32] == Decimal(2);
    AtoiReadsDecimal(2);
    PartCrashes(s, min, max);
  }

  /** The month 1-12/9223372036854775807 is accepted, and the months it yields start with a negative number. */
  lemma HugeStepMonth(values: seq<int>)
    ensures var f := WriteRange(Steps(1, 12, 1)) + [SLASH] + Decimal(I64_LIMIT - 1);
            FieldReads(f, 1, 12) && (FieldMeans(f, 1, 12, values) ==> values[0] < 0)
  {
    hide Decimal, ReadPart, Selects;
    var p := Steps(1, 12, 1);
    var f := WriteRange(p) + [SLASH] + Decimal(I64_LIMIT - 1);
    RangeReadsBack(p, 1, 12);
    SteppedReadsBack(WriteRange(p), I64_LIMIT - 1, 1, 12);
    DecimalDigits(1);
    DecimalDigits(12);
    DecimalDigits(I64_LIMIT - 1);
    FirstSeparator(f, COMMA, []);
    assert Parts(f) == [f];
    assert !NoOverflow(ReadPart(Parts(f)[0], 1, 12));
  }

  predicate AllFit(items: seq<Part>, min: int, max: int) {
    items != [] && forall i :: 0 <= i < |items| ==> Fits(items[i], min, max)
  }

  function WriteParts(items: seq<Part>, min: int, max: int): seq<Bytes>
    requires FieldRange(min, max) && AllFit(items, min, max)
  {
    seq(|items|, i requires 0 <= i < |items| => WritePart(items[i], min, max))
  }

  function WriteField(items: seq<Part>, min: int, max: int): Bytes
    requires FieldRange(min, max) && AllFit(items, min, max)
  {
    Join(WriteParts(items, min, max), COMMA)
  }

  /** A written field is accepted and selects exactly what its elements denote. */
  lemma FieldReadsBack(items: seq<Part>, min: int, max: int)
    requires FieldRange(min, max) && AllFit(items, min, max)
    ensures var f := WriteField(items, min, max);
            && |Parts(f)| == |items| && FieldReads(f, min, max)
            && (forall i :: 0 <= i < |items| ==> ReadPart(Parts(f)[i], min, max) == items[i])
            && forall v :: Selects(f, min, max, v) <==> exists i :: 0 <= i < |items| && Denotes(items[i], v)
  {
    hide WritePart, ReadPart, Denotes;
    var parts := WriteParts(items, min, max);
    forall i | 0 <= i < |items|
      ensures COMMA !in parts[i] && ReadPart(parts[i], min, max) == items[i]
    {
      WrittenChars(items[i], min, max);
      PartReadsBack(items[i], min, max);
    }
    SplitOfJoined(parts, COMMA);
  }

  lemma {:induction false} JoinedChars(parts: seq<Bytes>)
    requires parts != [] && forall i :: 0 <= i < |parts| ==> ElementChars(parts[i]) && parts[i] != []
    ensures Join(parts, COMMA) != []
    ensures forall i :: 0 <= i < |Join(parts, COMMA)| ==> SPACE < Join(parts, COMMA)[i] < 0x80
  {
    if |parts| > 1 {
      JoinedChars(parts[1..]);
    }
  }

  lemma PrintableSpaceless(s: Bytes)
    requires forall i :: 0 <= i < |s| ==> SPACE < s[i] < 0x80
    ensures Spaceless(s)
  {
    forall i | 0 <= i < |s|
      ensures LeadingSpace(s[i..]) == 0
    {
      PrintableIsNoSpace(s[i..]);
    }
  }

  lemma FieldIsWord(items: seq<Part>, min: int, max: int)
    requires FieldRange(min, max) && AllFit(items, min, max)
    ensures WriteField(items, min, max) != [] && Spaceless(WriteField(items, min, max))
  {
    hide WritePart;
    forall i | 0 <= i < |items|
      ensures ElementChars(WriteParts(items, min, max)[i]) && WriteParts(items, min, max)[i] != []
    {
      WrittenChars(items[i], min, max);
    }
    JoinedChars(WriteParts(items, min, max));
    PrintableSpaceless(WriteField(items, min, max));
  }

  predicate LineFits(line: seq<seq<Part>>) {
    |line| == 5 && forall k :: 0 <= k < 5 ==> AllFit(line[k], Bounds(k).0, Bounds(k).1)
  }

  function WriteWords(line: seq<seq<Part>>): seq<Bytes>
    requires LineFits(line)
  {
    seq(5, k requires 0 <= k < 5 => WriteField(line[k], Bounds(k).0, Bounds(k).1))
  }

  /** A written line has its five fields as words, is accepted, and each word selects what its elements denote. */
  lemma LineReadsBack(line: seq<seq<Part>>)
    requires LineFits(line)
    ensures var words := Fields(Join(WriteWords(line), SPACE));
            && |words| == 5
            && forall k :: 0 <= k < 5 ==>
                 && WordReads(words, k)
                 && forall v :: Selects(words[k], Bounds(k).0, Bounds(k).1, v)
                                <==> exists i :: 0 <= i < |line[k]| && Denotes(line[k][i], v)
  {
    hide WriteField, Denotes, Selects, Spaceless, FieldReads, Fits;
    var words := WriteWords(line);
    forall k | 0 <= k < 5
      ensures words[k] != [] && Spaceless(words[k]) && FieldReads(words[k], Bounds(k).0, Bounds(k).1)
      ensures forall v :: Selects(words[k], Bounds(k).0, Bounds(k).1, v)
                          <==> exists i :: 0 <= i < |line[k]| && Denotes(line[k][i], v)
    {
      FieldIsWord(line[k], Bounds(k).0, Bounds(k).1);
      FieldReadsBack(line[k], Bounds(k).0, Bounds(k).1);
    }
    FieldsOfJoined(words);
  }
}
