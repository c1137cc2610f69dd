/** The 5-field crontab parser: splitting, integers, ranges, steps, and the sorted list of selected values. */
module CronFields {
  import opened Prelude
  import opened Names
  import opened CronNext
  import Calendar

  const COMMA: Byte := 0x2c
  const HYPHEN: Byte := 0x2d
  const PLUS: Byte := 0x2b
  const SLASH: Byte := 0x2f
  const STAR: Byte := 0x2a

  // ---------------------------------------------------------------- text

  /** Index of the first c in s, |s| if there is none. */
  function IndexOf(s: Bytes, c: Byte): (i: nat)
    ensures i <= |s| && c !in s[..i] && (i < |s| ==> s[i] == c)
  {
    if s == [] || s[0] == c then 0
    else
      var i := 1 + IndexOf(s[1..], c);
      assert s[..i] == [s[0]] + s[1..][..i - 1];
      i
  }

  /** strings.Split. */
  function Split(s: Bytes, c: Byte): (parts: seq<Bytes>)
    ensures |parts| >= 1
    decreases |s|
  {
    var i := IndexOf(s, c);
    if i == |s| then [s] else [s[..i]] + Split(s[i + 1..], c)
  }

  function Join(parts: seq<Bytes>, c: Byte): Bytes {
    if parts == [] then [] else if |parts| == 1 then parts[0] else parts[0] + [c] + Join(parts[1..], c)
  }

  /** Splitting loses nothing and leaves no separator behind. */
  lemma {:induction false} SplitJoins(s: Bytes, c: Byte)
    ensures Join(Split(s, c), c) == s
    ensures forall i :: 0 <= i < |Split(s, c)| ==> c !in Split(s, c)[i]
    decreases |s|
  {
    var i := IndexOf(s, c);
    if i < |s| {
      SplitJoins(s[i + 1..], c);
      assert s == s[..i] + [c] + s[i + 1..];
      assert Split(s, c)[1..] == Split(s[i + 1..], c);
    }
  }

  /** strings.Fields: maximal runs without a space. */
  function Fields(s: Bytes): seq<Bytes>
    decreases |s|
  {
    if s == [] then []
    else
      var k := LeadingSpace(s);
      if k > 0 then Fields(s[k..])
      else
        var n := WordLength(s);
        [s[..n]] + Fields(s[n..])
  }

  function WordLength(s: Bytes): (n: nat)
    ensures n <= |s|
    ensures s != [] && LeadingSpace(s) == 0 ==> n > 0
  {
    if s == [] || LeadingSpace(s) > 0 then 0 else 1 + WordLength(s[1..])
  }

  predicate AllDigits(s: Bytes) {
    forall i :: 0 <= i < |s| ==> 0x30 <= s[i] <= 0x39
  }

  /** strconv.Atoi: optional sign, at least one digit, within int64. */
  function Atoi(s: Bytes): Option<int> {
    var signed := s != [] && (s[0] == PLUS || s[0] == HYPHEN);
    var digits := if signed then s[1..] else s;
    if digits == [] || !AllDigits(digits) then None
    else
      var v := if signed && s[0] == HYPHEN then -DecimalValue(digits) else DecimalValue(digits);
      if -I64_LIMIT <= v < I64_LIMIT then Some(v) else None
  }

  // ---------------------------------------------------------------- one element of a field

  /** How one comma-separated element reads: values lo, lo+step, ... up to hi; an error; or an index panic. */
  datatype Part = Steps(lo: int, hi: int, step: int) | Bad | Crash

  /** "lo-hi". Without a hyphen there is no second part to index. */
  function ReadRange(s: Bytes, min: int, max: int): Part {
    var i := IndexOf(s, HYPHEN);
    if i == |s| then Crash
    else
      match (Atoi(s[..i]), Atoi(s[i + 1..]))
      case (Some(lo), Some(hi)) => if lo < min || hi > max || lo > hi then Bad else Steps(lo, hi, 1)
      case _ => Bad
  }

  function ReadPart(s: Bytes, min: int, max: int): Part {
    if SLASH in s then
      var i := IndexOf(s, SLASH);
      match Atoi(s[i + 1..])
      case None => Bad
      case Some(step) =>
        if step <= 0 then Bad
        else if s[..i] == [STAR] then Steps(min, max, step)
        else
          match ReadRange(s[..i], min, max)
          case Steps(lo, hi, _) => Steps(lo, hi, step)
          case other => other
    else if HYPHEN in s then ReadRange(s, min, max)
    else if s == [STAR] then Steps(min, max, 1)
    else
      match Atoi(s)
      case Some(n) => if min <= n <= max then Steps(n, n, 1) else Bad
      case None => Bad
  }

  /** The values an element denotes. */
  predicate Denotes(p: Part, v: int) {
    p.Steps? && p.step > 0 && p.lo <= v <= p.hi && (v - p.lo) % p.step == 0
  }

  /** The step does not carry the loop variable past the largest int64. */
  predicate NoOverflow(p: Part) {
    p.Steps? ==> p.lo + p.step < I64_LIMIT
  }

  /** The ranges the five fields are parsed with all lie in here. */
  predicate FieldRange(min: int, max: int) {
    0 <= min <= max < 60
  }

  lemma PartInRange(s: Bytes, min: int, max: int)
    requires FieldRange(min, max)
    ensures var p := ReadPart(s, min, max);
            p.Steps? ==> min <= p.lo <= p.hi <= max && 0 < p.step < I64_LIMIT
  {
  }

  /** An element crashes the parser exactly when it is "text/step" with a good step and text neither "*" nor hyphenated. */
  lemma PartCrashes(s: Bytes, min: int, max: int)
    ensures ReadPart(s, min, max).Crash? <==>
              && SLASH in s
              && var i := IndexOf(s, SLASH);
                 && HYPHEN !in s[..i] && s[..i] != [STAR]
                 && Atoi(s[i + 1..]).Some? && Atoi(s[i + 1..]).value > 0
  {
    if SLASH in s {
      var t := s[..IndexOf(s, SLASH)];
      var j := IndexOf(t, HYPHEN);
      assert j == |t| ==> t[..j] == t;
    }
  }

  lemma StepBeyond(lo: int, v: int, step: int, u: int)
    requires step > 0 && lo <= v && (v - lo) % step == 0 && v < u < v + step
    ensures (u - lo) % step != 0
  {
    var q := (v - lo) / step;
    assert v - lo == q * step;
    DivUnique(u - lo, step, q, u - v);
  }

  lemma StepTo(lo: int, v: int, step: int)
    requires step > 0 && lo <= v && (v - lo) % step == 0
    ensures (v + step - lo) % step == 0
  {
    var q := (v - lo) / step;
    assert v - lo == q * step;
    assert (q + 1) * step == q * step + step;
    DivUnique(v + step - lo, step, q + 1, 0);
  }

  /** Without overflow: the values so far are the denoted ones below v. */
  ghost predicate Ascending(values: seq<int>, lo: int, hi: int, step: int, v: int) {
    && step > 0 && lo <= v <= hi + step && (v - lo) % step == 0
    && (v > lo ==> v - step in values)
    && (forall u :: u in values <==> lo <= u < v && Denotes(Steps(lo, hi, step), u))
  }

  lemma AscendingStep(values: seq<int>, lo: int, hi: int, step: int, v: int)
    requires 0 < step && Ascending(values, lo, hi, step, v) && v <= hi
    ensures Ascending(values + [v], lo, hi, step, v + step)
  {
    StepTo(lo, v, step);
    forall u {:trigger u in values + [v]}
      ensures u in values + [v] <==> lo <= u < v + step && Denotes(Steps(lo, hi, step), u)
    {
      if v < u < v + step {
        StepBeyond(lo, v, step, u);
      }
    }
  }

  /** With overflow: the loop alternates between small and very negative values, the second one negative. */
  ghost predicate Bouncing(values: seq<int>, lo: int, step: int, v: int) {
    && (|values| == 0 ==> v == lo)
    && (|values| == 1 ==> v < 0)
    && (|values| >= 2 ==> values[1] < 0)
    && (-60 <= v < 60 || v >= 60 || -I64_LIMIT <= v < -I64_LIMIT + 60)
  }

  /** What makes the loop end even then: every second value is smaller than the one before the last. */
  function LoopMeasure(lo: int, hi: int, step: int, v: int): int {
    if lo + step < I64_LIMIT then hi - v
    else if v < -60 then 2 * (v + step) + 1001
    else 2 * v + 1000
  }

  /**
   * for v := lo; v <= hi; v += step, in 64-bit integers. The values are exactly the denoted ones when the
   * first increment does not overflow; otherwise a negative value gets in.
   */
  method StepValues(lo: int, hi: int, step: int) returns (values: seq<int>)
    requires 0 <= lo <= hi < 60 && 0 < step < I64_LIMIT
    ensures values != []
    ensures lo + step < I64_LIMIT ==> forall v :: v in values <==> Denotes(Steps(lo, hi, step), v)
    ensures lo + step >= I64_LIMIT ==> |values| >= 2 && values[1] < 0
  {
    hide Denotes;
    values := [];
    var v := lo;
    assert lo + step < I64_LIMIT ==> Ascending(values, lo, hi, step, v) by { StartsAscending(lo, hi, step); }
    while v <= hi
      invariant lo + step < I64_LIMIT ==> Ascending(values, lo, hi, step, v)
      invariant lo + step >= I64_LIMIT ==> Bouncing(values, lo, step, v)
      invariant values == [] ==> v == lo
      decreases if v <= hi then LoopMeasure(lo, hi, step, v) else -1
    {
      if lo + step < I64_LIMIT {
        AscendingStep(values, lo, hi, step, v);
        assert v + step < I64_LIMIT;
      }
      values := values + [v];
      v := Wrap64(v + step);
    }
    if lo + step < I64_LIMIT {
      assert forall u :: Denotes(Steps(lo, hi, step), u) ==> lo <= u <= hi by { DenotedInRange(lo, hi, step); }
    }
  }

  lemma StartsAscending(lo: int, hi: int, step: int)
    requires lo <= hi && step > 0
    ensures Ascending([], lo, hi, step, lo)
  {
  }

  lemma DenotedInRange(lo: int, hi: int, step: int)
    ensures forall u :: Denotes(Steps(lo, hi, step), u) ==> lo <= u <= hi
  {
  }

  // ---------------------------------------------------------------- dedupSorted

  predicate StrictlyIncreasing(s: seq<int>) {
    forall i, j :: 0 <= i < j < |s| ==> s[i] < s[j]
  }

  predicate Distinct(s: seq<int>) {
    forall i, j :: 0 <= i < j < |s| ==> s[i] != s[j]
  }

  /** s[..i] is increasing once the element at j is left out of the comparison with what precedes it. */
  predicate IncreasingBut(s: seq<int>, i: nat, j: nat) {
    forall p, q :: 0 <= p < q < i && q != j && q < |s| ==> s[p] < s[q]
  }

  function Swapped(s: seq<int>, j: nat): seq<int>
    requires 0 < j < |s|
  {
    s[j - 1 := s[j]][j := s[j - 1]]
  }

  lemma SwapKeeps(s: seq<int>, i: nat, j: nat)
    requires 0 < j <= i < |s| && s[j - 1] > s[j] && Distinct(s) && IncreasingBut(s, i + 1, j)
    ensures Distinct(Swapped(s, j)) && IncreasingBut(Swapped(s, j), i + 1, j - 1)
    ensures multiset(Swapped(s, j)) == multiset(s)
  {
  }

  method InsertionSort(a: array<int>)
    requires Distinct(a[..])
    modifies a
    ensures StrictlyIncreasing(a[..])
    ensures multiset(a[..]) == multiset(old(a[..]))
  {
    if a.Length == 0 {
      return;
    }
    for i := 1 to a.Length
      invariant IncreasingBut(a[..], i, i)
      invariant Distinct(a[..])
      invariant multiset(a[..]) == multiset(old(a[..]))
    {
      SinkInto(a, i);
    }
  }

  /** The inner loop: element i moves down to its place among the first i. */
  method SinkInto(a: array<int>, i: nat)
    requires 1 <= i < a.Length && Distinct(a[..]) && IncreasingBut(a[..], i, i)
    modifies a
    ensures Distinct(a[..]) && IncreasingBut(a[..], i + 1, i + 1)
    ensures multiset(a[..]) == multiset(old(a[..]))
  {
    var j := i;
    while j > 0 && a[j - 1] > a[j]
      invariant 0 <= j <= i
      invariant IncreasingBut(a[..], i + 1, j)
      invariant Distinct(a[..])
      invariant multiset(a[..]) == multiset(old(a[..]))
    {
      hide Distinct, IncreasingBut;
      ghost var before := a[..];
      SwapKeeps(before, i, j);
      a[j - 1], a[j] := a[j], a[j - 1];
      assert a[..] == Swapped(before, j);
      j := j - 1;
    }
  }

  /** Sorted, without duplicates, same elements. */
  method DedupSorted(vals: seq<int>) returns (out: seq<int>)
    ensures StrictlyIncreasing(out)
    ensures forall v :: v in out <==> v in vals
  {
    if |vals| == 0 {
      return vals;
    }
    var seen: set<int> := {};
    var kept: seq<int> := [];
    for i := 0 to |vals|
      invariant Distinct(kept)
      invariant forall v :: v in seen <==> v in kept
      invariant forall v :: v in kept <==> v in vals[..i]
    {
      if vals[i] !in seen {
        seen := seen + {vals[i]};
        kept := kept + [vals[i]];
      }
    }
    assert vals[..|vals|] == vals;
    var a := new int[|kept|](k requires 0 <= k < |kept| => kept[k]);
    assert a[..] == kept;
    InsertionSort(a);
    out := a[..];
    assert forall v :: v in out <==> v in multiset(out);
    assert forall v :: v in kept <==> v in multiset(kept);
  }

  // ---------------------------------------------------------------- a field, an expression

  datatype FieldOutcome = Values(values: seq<int>) | Rejected | Panicked

  function Parts(field: Bytes): (parts: seq<Bytes>)
    ensures |parts| >= 1
  {
    Split(field, COMMA)
  }

  /** Part i is the first one that does not read as a list of values. */
  predicate FirstFault(parts: seq<Bytes>, min: int, max: int, i: int) {
    && 0 <= i < |parts|
    && !ReadPart(parts[i], min, max).Steps?
    && forall j :: 0 <= j < i ==> ReadPart(parts[j], min, max).Steps?
  }

  predicate PanicsAt(parts: seq<Bytes>, min: int, max: int, i: int) {
    FirstFault(parts, min, max, i) && ReadPart(parts[i], min, max).Crash?
  }

  /** The values a field selects: the union over its comma-separated elements. */
  ghost predicate Selects(field: Bytes, min: int, max: int, v: int) {
    exists i :: 0 <= i < |Parts(field)| && Denotes(ReadPart(Parts(field)[i], min, max), v)
  }

  predicate FieldReads(field: Bytes, min: int, max: int) {
    forall i :: 0 <= i < |Parts(field)| ==> ReadPart(Parts(field)[i], min, max).Steps?
  }

  predicate FieldNoOverflow(field: Bytes, min: int, max: int) {
    forall i :: 0 <= i < |Parts(field)| ==> NoOverflow(ReadPart(Parts(field)[i], min, max))
  }

  predicate InBounds(values: seq<int>, min: int, max: int) {
    forall v :: v in values ==> min <= v <= max
  }

  /** What an accepted field promises. */
  ghost predicate FieldMeans(field: Bytes, min: int, max: int, values: seq<int>) {
    && FieldReads(field, min, max)
    && values != [] && StrictlyIncreasing(values)
    && (FieldNoOverflow(field, min, max) <==> InBounds(values, min, max))
    && (!FieldNoOverflow(field, min, max) ==> values[0] < 0)
    && (FieldNoOverflow(field, min, max) ==> forall v :: v in values <==> Selects(field, min, max, v))
  }

  method ParseField(field: Bytes, min: int, max: int) returns (r: FieldOutcome)
    requires FieldRange(min, max)
    ensures r.Values? <==> FieldReads(field, min, max)
    ensures r.Values? ==> FieldMeans(field, min, max, r.values)
    ensures r.Panicked? <==>
              exists i :: PanicsAt(Parts(field), min, max, i)
  {
    hide ReadPart, Denotes, Parts;
    var parts := Parts(field);
    var values: seq<int> := [];
    for i := 0 to |parts|
      invariant i > 0 ==> values != []
      invariant forall j :: 0 <= j < i ==> ReadPart(parts[j], min, max).Steps?
      invariant (forall j :: 0 <= j < i ==> NoOverflow(ReadPart(parts[j], min, max))) <==> InBounds(values, min, max)
      invariant (forall j :: 0 <= j < i ==> NoOverflow(ReadPart(parts[j], min, max))) || HasNegative(values)
      invariant InBounds(values, min, max) ==>
                  forall v :: v in values <==> exists j :: 0 <= j < i && Denotes(ReadPart(parts[j], min, max), v)
    {
      PartInRange(parts[i], min, max);
      var p := ReadPart(parts[i], min, max);
      match p {
        case Crash =>
          assert PanicsAt(parts, min, max, i);
          return Panicked;
        case Bad =>
          assert FirstFault(parts, min, max, i);
          return Rejected;
        case Steps(lo, hi, step) =>
          var more := StepValues(lo, hi, step);
          PartBounds(p, more, min, max);
          assert InBounds(values + more, min, max) <==> InBounds(values, min, max) && InBounds(more, min, max) by {
            BoundsOfBoth(values, more, min, max);
          }
          assert HasNegative(values) || HasNegative(more) ==> HasNegative(values + more) by {
            NegativeStays(values, more);
          }
          values := values + more;
      }
    }
    var sorted := DedupSorted(values);
    var first := values[0];
    assert first in values;
    assert first in sorted;
    SmallestFirst(sorted);
    r := Values(sorted);
  }

  ghost predicate HasNegative(values: seq<int>) {
    exists v :: v in values && v < 0
  }

  lemma NegativeStays(a: seq<int>, b: seq<int>)
    ensures HasNegative(a) || HasNegative(b) ==> HasNegative(a + b)
  {
    assert forall v :: v in a || v in b ==> v in a + b;
  }

  lemma SmallestFirst(s: seq<int>)
    requires s != [] && StrictlyIncreasing(s)
    ensures HasNegative(s) ==> s[0] < 0
  {
  }

  lemma BoundsOfBoth(a: seq<int>, b: seq<int>, min: int, max: int)
    ensures InBounds(a + b, min, max) <==> InBounds(a, min, max) && InBounds(b, min, max)
  {
    assert forall v :: v in a || v in b ==> v in a + b;
  }

  lemma PartBounds(p: Part, more: seq<int>, min: int, max: int)
    requires FieldRange(min, max) && p.Steps? && min <= p.lo <= p.hi <= max && 0 < p.step < I64_LIMIT
    requires NoOverflow(p) ==> forall v :: v in more <==> Denotes(p, v)
    requires !NoOverflow(p) ==> |more| >= 2 && more[1] < 0
    ensures NoOverflow(p) <==> InBounds(more, min, max)
    ensures NoOverflow(p) || HasNegative(more)
  {
    if !NoOverflow(p) {
      assert more[1] in more;
    }
  }

  datatype CronOutcome = Accepted(schedule: Schedule) | BadExpression | ParserPanic

  /** One field per word, in crontab order, with its bounds. */
  function Bounds(k: nat): (int, int)
    requires k < 5
  {
    if k == 0 then (0, 59) else if k == 1 then (0, 23) else if k == 2 then (1, 31) else if k == 3 then (1, 12) else (0, 6)
  }

  predicate WordReads(words: seq<Bytes>, k: nat)
    requires k < 5 && |words| == 5
  {
    FieldReads(words[k], Bounds(k).0, Bounds(k).1)
  }

  ghost predicate WordMeans(words: seq<Bytes>, k: nat, values: seq<int>)
    requires k < 5 && |words| == 5
  {
    FieldMeans(words[k], Bounds(k).0, Bounds(k).1, values)
  }

  /** Word k is the first that does not read. */
  predicate FirstBadWord(words: seq<Bytes>, k: nat) {
    |words| == 5 && k < 5 && !WordReads(words, k) && forall j :: 0 <= j < k ==> WordReads(words, j)
  }

  /** The first faulty element of word k crashes the parser. */
  ghost predicate WordPanics(words: seq<Bytes>, k: nat)
    requires |words| == 5 && k < 5
  {
    exists i :: PanicsAt(Parts(words[k]), Bounds(k).0, Bounds(k).1, i)
  }

  /** Five words, each a readable field; the schedule holds what each of them means. */
  method ParseCron(expr: Bytes) returns (r: CronOutcome)
    ensures r.Accepted? <==> |Fields(expr)| == 5 && forall k :: 0 <= k < 5 ==> WordReads(Fields(expr), k)
    ensures r.ParserPanic? <==> exists k :: FirstBadWord(Fields(expr), k) && WordPanics(Fields(expr), k)
    ensures r.Accepted? ==>
              && WordMeans(Fields(expr), 0, r.schedule.minute) && WordMeans(Fields(expr), 1, r.schedule.hour)
              && WordMeans(Fields(expr), 2, r.schedule.dayOfMonth) && WordMeans(Fields(expr), 3, r.schedule.month)
              && WordMeans(Fields(expr), 4, r.schedule.dayOfWeek)
  {
    hide FieldMeans, FieldReads, Fields;
    var words := Fields(expr);
    if |words| != 5 {
      return BadExpression;
    }
    var out: seq<seq<int>> := [];
    for k := 0 to 5
      invariant |out| == k
      invariant forall j :: 0 <= j < k ==> WordReads(words, j) && WordMeans(words, j, out[j])
    {
      var f := ParseField(words[k], Bounds(k).0, Bounds(k).1);
      match f {
        case Rejected =>
          assert FirstBadWord(words, k) && !WordPanics(words, k);
          return BadExpression;
        case Panicked =>
          assert FirstBadWord(words, k) && WordPanics(words, k);
          return ParserPanic;
        case Values(vs) =>
          out := out + [vs];
      }
    }
    r := Accepted(Schedule(out[0], out[1], out[2], out[3], out[4]));
  }

  /** For an accepted expression without overflowing steps, next fires exactly at the denoted times. */
  ghost predicate ExpressionMatches(words: seq<Bytes>, t: int)
    requires |words| == 5
  {
    && Selects(words[3], 1, 12, Calendar.MonthOf(t))
    && Selects(words[2], 1, 31, Calendar.DayOfMonthOf(t)) && Selects(words[4], 0, 6, Calendar.WeekdayOf(t))
    && Selects(words[1], 0, 23, Calendar.HourOf(t))
    && Selects(words[0], 0, 59, Calendar.MinuteOf(t))
  }

  lemma ScheduleMeansExpression(words: seq<Bytes>, s: Schedule, t: int)
    requires |words| == 5
    requires && WordMeans(words, 0, s.minute) && WordMeans(words, 1, s.hour) && WordMeans(words, 2, s.dayOfMonth)
             && WordMeans(words, 3, s.month) && WordMeans(words, 4, s.dayOfWeek)
    requires forall k :: 0 <= k < 5 ==> FieldNoOverflow(words[k], Bounds(k).0, Bounds(k).1)
    ensures Matches(s, t) <==> ExpressionMatches(words, t)
  {
    hide Selects, FieldNoOverflow, FieldReads, Calendar.MonthOf, Calendar.DayOfMonthOf, Calendar.WeekdayOf,
      Calendar.HourOf, Calendar.MinuteOf;
    assert FieldNoOverflow(words[0], Bounds(0).0, Bounds(0).1);
    assert FieldNoOverflow(words[1], Bounds(1).0, Bounds(1).1);
    assert FieldNoOverflow(words[2], Bounds(2).0, Bounds(2).1);
    assert FieldNoOverflow(words[3], Bounds(3).0, Bounds(3).1);
    assert FieldNoOverflow(words[4], Bounds(4).0, Bounds(4).1);
  }
}
