/** File names chosen from what a remote peer announces: sanitising, and never overwriting. */
module Names {
  import opened Prelude

  const DOT: Byte := 0x2e
  const SPACE: Byte := 0x20
  const UNDERSCORE: Byte := 0x5f
  // gmmff_received_file
  const FALLBACK: Bytes :=
    [0x67, 0x6d, 0x6d, 0x66, 0x66, 0x5f, 0x72, 0x65, 0x63, 0x65, 0x69, 0x76, 0x65, 0x64, 0x5f, 0x66, 0x69, 0x6c, 0x65]
  // CON, PRN, AUX, NUL, COM, LPT
  const CON: Bytes := [0x43, 0x4f, 0x4e]
  const PRN: Bytes := [0x50, 0x52, 0x4e]
  const AUX: Bytes := [0x41, 0x55, 0x58]
  const NUL: Bytes := [0x4e, 0x55, 0x4c]
  const COM: Bytes := [0x43, 0x4f, 0x4d]
  const LPT: Bytes := [0x4c, 0x50, 0x54]

  // ---------------------------------------------------------------- sanitiseName

  predicate Forbidden(c: Byte) {
    c == 0x2f || c == 0x5c || c == 0x3a || c < 0x20 || c == 0x7f
  }

  predicate AllAllowed(s: Bytes) {
    forall i :: 0 <= i < |s| ==> !Forbidden(s[i])
  }

  function Strip(s: Bytes): Bytes {
    if s == [] then []
    else if Forbidden(s[|s| - 1]) then Strip(s[..|s| - 1])
    else Strip(s[..|s| - 1]) + [s[|s| - 1]]
  }

  predicate HasDotDot(s: Bytes) {
    exists i :: 0 <= i < |s| - 1 && s[i] == DOT && s[i + 1] == DOT
  }

  /** strings.ReplaceAll(s, "..", ""): non-overlapping pairs, left to right, once. */
  function ReplaceDotDot(s: Bytes): (r: Bytes)
    ensures |r| <= |s|
    ensures HasDotDot(s) ==> |r| < |s|
    ensures !HasDotDot(s) ==> r == s
    ensures AllAllowed(s) ==> AllAllowed(r)
  {
    if |s| < 2 then s
    else if s[0] == DOT && s[1] == DOT then
      assert HasDotDot(s);
      ReplaceDotDot(s[2..])
    else
      assert HasDotDot(s) ==> HasDotDot(s[1..]) by {
        if i :| 0 <= i < |s| - 1 && s[i] == DOT && s[i + 1] == DOT {
          assert s[1..][i - 1] == DOT && s[1..][i] == DOT;
        }
      }
      assert HasDotDot(s[1..]) ==> HasDotDot(s) by {
        if i :| 0 <= i < |s| - 2 && s[1..][i] == DOT && s[1..][i + 1] == DOT {
          assert s[i + 1] == DOT && s[i + 2] == DOT;
        }
      }
      [s[0]] + ReplaceDotDot(s[1..])
  }

  function DropDotDot(s: Bytes): (r: Bytes)
    ensures !HasDotDot(r)
    ensures AllAllowed(s) ==> AllAllowed(r)
    decreases |s|
  {
    if HasDotDot(s) then DropDotDot(ReplaceDotDot(s)) else s
  }

  /** UTF-8 encodings of the code points unicode.IsSpace accepts. */
  predicate IsSpaceRune(r: Bytes) {
    if |r| == 1 then r[0] == SPACE || 9 <= r[0] <= 13
    else if |r| == 2 then r[0] == 0xc2 && (r[1] == 0x85 || r[1] == 0xa0)
    else if |r| == 3 then
      || (r[0] == 0xe1 && r[1] == 0x9a && r[2] == 0x80)
      || (r[0] == 0xe2 && r[1] == 0x80 && (0x80 <= r[2] <= 0x8a || r[2] == 0xa8 || r[2] == 0xa9 || r[2] == 0xaf))
      || (r[0] == 0xe2 && r[1] == 0x81 && r[2] == 0x9f)
      || (r[0] == 0xe3 && r[1] == 0x80 && r[2] == 0x80)
    else false
  }

  /** Length of the space at the start of s, 0 if s does not start with one. */
  function LeadingSpace(s: Bytes): (k: nat)
    ensures k <= |s|
  {
    if |s| >= 1 && IsSpaceRune(s[..1]) then 1
    else if |s| >= 2 && IsSpaceRune(s[..2]) then 2
    else if |s| >= 3 && IsSpaceRune(s[..3]) then 3
    else 0
  }

  function TrailingSpace(s: Bytes): (k: nat)
    ensures k <= |s|
  {
    if |s| >= 1 && IsSpaceRune(s[|s| - 1..]) then 1
    else if |s| >= 2 && IsSpaceRune(s[|s| - 2..]) then 2
    else if |s| >= 3 && IsSpaceRune(s[|s| - 3..]) then 3
    else 0
  }

  /** How many bytes of spaces s starts with. */
  function Blanks(s: Bytes): (n: nat)
    ensures n <= |s| && LeadingSpace(s[n..]) == 0
    decreases |s|
  {
    hide LeadingSpace;
    var k := LeadingSpace(s);
    if k == 0 then
      assert s[0..] == s;
      0
    else
      var m := Blanks(s[k..]);
      assert s[k..][m..] == s[k + m..];
      k + m
  }

  function TrimLeft(s: Bytes): (r: Bytes)
    ensures LeadingSpace(r) == 0
    ensures |r| <= |s| && r == s[|s| - |r|..]
    ensures LeadingSpace(s) == 0 ==> r == s
  {
    hide LeadingSpace;
    s[Blanks(s)..]
  }

  function TrimRight(s: Bytes): (r: Bytes)
    ensures TrailingSpace(r) == 0
    ensures r <= s
    ensures TrailingSpace(s) > 0 ==> |r| < |s|
    decreases |s|
  {
    var k := TrailingSpace(s);
    if k == 0 then s else TrimRight(s[..|s| - k])
  }

  predicate EndsInDotOrSpace(s: Bytes) {
    s != [] && (s[|s| - 1] == DOT || s[|s| - 1] == SPACE)
  }

  function TrimDotsSpaces(s: Bytes): (r: Bytes)
    ensures r <= s
    ensures !EndsInDotOrSpace(r)
    decreases |s|
  {
    if EndsInDotOrSpace(s) then TrimDotsSpaces(s[..|s| - 1]) else s
  }

  function Trimmed(name: Bytes): Bytes {
    TrimDotsSpaces(TrimRight(TrimLeft(DropDotDot(Strip(name)))))
  }

  function Upper(s: Bytes): (r: Bytes)
    ensures |r| == |s|
  {
    seq(|s|, i requires 0 <= i < |s| => if 0x61 <= s[i] <= 0x7a then s[i] - 32 else s[i])
  }

  /** The part of a name before its first dot. */
  function Stem(s: Bytes): Bytes {
    if s == [] || s[0] == DOT then [] else [s[0]] + Stem(s[1..])
  }

  predicate DeviceName(stem: Bytes) {
    || stem == CON || stem == PRN || stem == AUX || stem == NUL
    || (|stem| == 4 && (stem[..3] == COM || stem[..3] == LPT) && 0x31 <= stem[3] <= 0x39)
  }

  predicate WindowsReserved(name: Bytes) {
    DeviceName(Upper(Stem(name)))
  }

  function Sanitise(name: Bytes): Bytes {
    var t := Trimmed(name);
    if t == [] then FALLBACK
    else if WindowsReserved(t) then [UNDERSCORE] + t
    else t
  }

  method SanitiseName(name: Bytes) returns (r: Bytes)
    ensures r == Sanitise(name)
  {
    var safe: Bytes := [];
    for i := 0 to |name|
      invariant safe == Strip(name[..i])
    {
      assert name[..i + 1][..i] == name[..i];
      if !Forbidden(name[i]) {
        safe := safe + [name[i]];
      }
    }
    assert name[..|name|] == name;
    r := safe;
    while HasDotDot(r)
      invariant DropDotDot(r) == DropDotDot(Strip(name))
      decreases |r|
    {
      r := ReplaceDotDot(r);
    }
    r := TrimDotsSpaces(TrimRight(TrimLeft(r)));
    if |r| == 0 {
      return FALLBACK;
    }
    if WindowsReserved(r) {
      r := [UNDERSCORE] + r;
    }
  }

  /** What the receiver relies on when it joins a peer-chosen name to its output directory. */
  predicate SafeName(r: Bytes) {
    && r != []
    && AllAllowed(r)
    && !HasDotDot(r)
    && !EndsInDotOrSpace(r)
    && !WindowsReserved(r)
    && LeadingSpace(r) == 0
  }

  lemma {:induction false} StripAllowed(s: Bytes)
    ensures AllAllowed(Strip(s))
    ensures AllAllowed(s) ==> Strip(s) == s
  {
    if s != [] {
      StripAllowed(s[..|s| - 1]);
      assert s == s[..|s| - 1] + [s[|s| - 1]];
    }
  }

  lemma PrefixStaysClean(p: Bytes, s: Bytes)
    requires p <= s
    ensures AllAllowed(s) ==> AllAllowed(p)
    ensures !HasDotDot(s) ==> !HasDotDot(p)
    ensures LeadingSpace(s) == 0 ==> LeadingSpace(p) == 0
  {
    if |p| >= 1 { assert p[..1] == s[..1]; }
    if |p| >= 2 { assert p[..2] == s[..2]; }
    if |p| >= 3 { assert p[..3] == s[..3]; }
  }

  lemma SuffixStaysClean(s: Bytes, k: nat)
    requires k <= |s|
    ensures AllAllowed(s) ==> AllAllowed(s[k..])
    ensures !HasDotDot(s) ==> !HasDotDot(s[k..])
  {
    var l := s[k..];
    if i :| 0 <= i < |l| - 1 && l[i] == DOT && l[i + 1] == DOT {
      assert s[k + i] == DOT && s[k + i + 1] == DOT;
    }
  }

  lemma TrimmingKeepsClean(d: Bytes)
    requires AllAllowed(d) && !HasDotDot(d)
    ensures var t := TrimDotsSpaces(TrimRight(TrimLeft(d)));
            AllAllowed(t) && !HasDotDot(t) && !EndsInDotOrSpace(t) && LeadingSpace(t) == 0
  {
    var l := TrimLeft(d);
    SuffixStaysClean(d, |d| - |l|);
    var r := TrimRight(l);
    PrefixStaysClean(r, l);
    PrefixStaysClean(TrimDotsSpaces(r), r);
  }

  lemma TrimmedIsClean(name: Bytes)
    ensures var t := Trimmed(name);
            AllAllowed(t) && !HasDotDot(t) && !EndsInDotOrSpace(t) && LeadingSpace(t) == 0
  {
    StripAllowed(name);
    TrimmingKeepsClean(DropDotDot(Strip(name)));
  }

  lemma UnderscoreNotReserved(r: Bytes)
    requires r != [] && r[0] == UNDERSCORE
    ensures !WindowsReserved(r)
  {
    var stem := Upper(Stem(r));
    assert stem[0] == UNDERSCORE;
    if |stem| == 4 {
      assert stem[..3][0] == UNDERSCORE;
    }
  }

  lemma UnderscoreEscapes(t: Bytes)
    requires t != [] && AllAllowed(t) && !HasDotDot(t) && !EndsInDotOrSpace(t)
    ensures SafeName([UNDERSCORE] + t)
  {
    var r := [UNDERSCORE] + t;
    UnderscoreNotReserved(r);
    assert forall i :: 0 < i < |r| ==> r[i] == t[i - 1];
    PrintableIsNoSpace(r);
  }

  lemma PrintableIsNoSpace(s: Bytes)
    requires s != []
    ensures 0x20 < s[0] < 0x80 ==> LeadingSpace(s) == 0
    ensures 0x20 < s[|s| - 1] < 0x80 ==> TrailingSpace(s) == 0
  {
    var n := |s|;
    assert s[..1][0] == s[0] && s[n - 1..][0] == s[n - 1];
    if n >= 2 { assert s[..2][0] == s[0] && s[n - 2..][1] == s[n - 1]; }
    if n >= 3 { assert s[..3][0] == s[0] && s[n - 3..][2] == s[n - 1]; }
  }

  lemma FallbackIsSafe()
    ensures SafeName(FALLBACK) && TrailingSpace(FALLBACK) == 0
  {
    hide SafeName, TrailingSpace;
    LongWordIsSafe(FALLBACK);
  }

  /** No device name is longer than four characters. */
  lemma LongWordIsSafe(f: Bytes)
    requires |f| > 4 && forall i :: 0 <= i < |f| ==> 0x5f <= f[i] <= 0x7a
    ensures SafeName(f) && TrailingSpace(f) == 0
  {
    StemWithoutDot(f);
    assert |Upper(Stem(f))| == |f|;
    PrintableIsNoSpace(f);
  }

  lemma {:induction false} StemWithoutDot(s: Bytes)
    requires forall i :: 0 <= i < |s| ==> s[i] != DOT
    ensures Stem(s) == s
  {
    if s != [] {
      StemWithoutDot(s[1..]);
    }
  }

  /** Whatever bytes the peer sends, the resulting name is safe to join to a directory. */
  lemma SanitiseIsSafe(name: Bytes)
    ensures SafeName(Sanitise(name))
  {
    TrimmedIsClean(name);
    var t := Trimmed(name);
    if t == [] {
      FallbackIsSafe();
    } else if WindowsReserved(t) {
      UnderscoreEscapes(t);
    }
  }

  lemma CleanNameOnlyTrimsRight(n: Bytes)
    requires SafeName(n)
    ensures Trimmed(n) == TrimDotsSpaces(TrimRight(n))
  {
    StripAllowed(n);
    assert DropDotDot(n) == n;
    assert TrimLeft(n) == n;
  }

  /** Names that pass unchanged: exactly the safe ones that do not end in a Unicode space. */
  lemma SanitiseFixpoints(n: Bytes)
    ensures Sanitise(n) == n <==> SafeName(n) && TrailingSpace(n) == 0
  {
    SanitiseIsSafe(n);
    if SafeName(n) {
      CleanNameOnlyTrimsRight(n);
      if TrailingSpace(n) > 0 {
        TrailingSpaceChanges(n, Trimmed(n));
      }
    }
  }

  lemma TrailingSpaceChanges(n: Bytes, t: Bytes)
    requires TrailingSpace(n) > 0 && t == Trimmed(n) && t <= n && |t| < |n|
    ensures Sanitise(n) != n
  {
    FallbackIsSafe();
    if t != [] && WindowsReserved(t) && n == [UNDERSCORE] + t {
      assert t[0] == n[0];
      UnderscoreNotReserved(t);
    }
  }

  lemma SecondPass(name: Bytes)
    ensures Sanitise(Sanitise(name)) == Sanitise(name) <==> TrailingSpace(Sanitise(name)) == 0
  {
    SanitiseIsSafe(name);
    SanitiseFixpoints(Sanitise(name));
  }

  /** A second pass changes nothing if and only if, once trailing dots and spaces go, the name does not end in a Unicode space. */
  lemma SanitiseTwice(name: Bytes)
    ensures Sanitise(Sanitise(name)) == Sanitise(name) <==>
              TrailingSpace(TrimDotsSpaces(TrimRight(TrimLeft(DropDotDot(Strip(name)))))) == 0
  {
    hide Trimmed, WindowsReserved, SafeName, TrailingSpace;
    SecondPass(name);
    assert Trimmed(name) == TrimDotsSpaces(TrimRight(TrimLeft(DropDotDot(Strip(name))))) by { TrimmedIs(name); }
    FallbackIsSafe();
    assert TrailingSpace([]) == 0 by { NothingTrails(); }
    if WindowsReserved(Trimmed(name)) {
      ReservedIsLong(Trimmed(name));
      UnderscoreTrails(Trimmed(name));
    }
  }

  lemma TrimmedIs(name: Bytes)
    ensures Trimmed(name) == TrimDotsSpaces(TrimRight(TrimLeft(DropDotDot(Strip(name)))))
  {
  }

  lemma NothingTrails()
    ensures TrailingSpace([]) == 0
  {
  }

  lemma {:induction false} StemIsShorter(s: Bytes)
    ensures |Stem(s)| <= |s|
  {
    if s != [] && s[0] != DOT {
      StemIsShorter(s[1..]);
    }
  }

  lemma ReservedIsLong(t: Bytes)
    requires WindowsReserved(t)
    ensures |t| >= 3
  {
    StemIsShorter(t);
  }

  lemma UnderscoreTrails(t: Bytes)
    requires |t| >= 3
    ensures TrailingSpace([UNDERSCORE] + t) == TrailingSpace(t)
  {
    var s := [UNDERSCORE] + t;
    assert s[|s| - 1..] == t[|t| - 1..] && s[|s| - 2..] == t[|t| - 2..] && s[|s| - 3..] == t[|t| - 3..];
  }

  /** Such names exist: "a", a no-break space, a dot. */
  lemma SanitiseNotIdempotent()
    ensures exists n: Bytes :: Sanitise(Sanitise(n)) != Sanitise(n)
  {
    hide Sanitise;
    var r: Bytes := [0x61, 0xc2, 0xa0];
    DotAfterNoBreakSpace(r);
    SecondPass(r + [DOT]);
  }

  lemma DotAfterNoBreakSpace(r: Bytes)
    requires |r| == 3 && r[0] == 0x61 && r[1] == 0xc2 && r[2] == 0xa0
    ensures Sanitise(r + [DOT]) == r && TrailingSpace(r) > 0
  {
    hide Trimmed, WindowsReserved, LeadingSpace, TrailingSpace;
    PrintableIsNoSpace(r + [DOT]);
    EndsInNoBreakSpace(r);
    NotADevice(r);
    OneDotTrimmed(r);
  }

  lemma EndsInNoBreakSpace(r: Bytes)
    requires |r| >= 2 && r[|r| - 2] == 0xc2 && r[|r| - 1] == 0xa0
    ensures TrailingSpace(r) > 0
  {
    assert r[|r| - 1..][0] == 0xa0 && r[|r| - 2..][0] == 0xc2 && r[|r| - 2..][1] == 0xa0;
  }

  lemma NotADevice(r: Bytes)
    requires |r| == 3 && r[1] >= 0x80 && DOT !in r
    ensures !WindowsReserved(r)
  {
    hide Stem, Upper;
    StemWithoutDot(r);
    UpperKeeps(r, 1);
  }

  lemma OneDotTrimmed(r: Bytes)
    requires r != [] && AllAllowed(r) && DOT !in r && r[|r| - 1] != SPACE
    requires LeadingSpace(r + [DOT]) == 0 && TrailingSpace(r + [DOT]) == 0
    ensures Trimmed(r + [DOT]) == r
  {
    hide Strip, TrimLeft, TrimRight, TrimDotsSpaces, DropDotDot, LeadingSpace, TrailingSpace, AllAllowed, HasDotDot;
    var n := r + [DOT];
    OneDotIsClean(r);
    StripAllowed(n);
    NothingToTrim(n);
    assert n[..|r|] == r;
    TrimsOneDot(n);
  }

  lemma OneDotIsClean(r: Bytes)
    requires AllAllowed(r) && DOT !in r
    ensures AllAllowed(r + [DOT]) && !HasDotDot(r + [DOT])
    ensures r != [] ==> r[|r| - 1] != DOT
  {
    var n := r + [DOT];
    assert forall i :: 0 <= i < |r| ==> n[i] == r[i] && r[i] != DOT;
  }

  lemma UpperKeeps(s: Bytes, i: nat)
    requires i < |s| && s[i] >= 0x80
    ensures Upper(s)[i] == s[i]
  {
  }

  lemma NothingToTrim(n: Bytes)
    ensures !HasDotDot(n) ==> DropDotDot(n) == n
    ensures LeadingSpace(n) == 0 ==> TrimLeft(n) == n
    ensures TrailingSpace(n) == 0 ==> TrimRight(n) == n
  {
  }

  lemma TrimsOneDot(n: Bytes)
    requires n != [] && n[|n| - 1] == DOT && !EndsInDotOrSpace(n[..|n| - 1])
    ensures TrimDotsSpaces(n) == n[..|n| - 1]
  {
  }

  /** On ASCII names the second pass never changes anything. */
  lemma SanitiseAsciiIdempotent(name: Bytes)
    requires forall i :: 0 <= i < |name| ==> name[i] < 0x80
    ensures Sanitise(Sanitise(name)) == Sanitise(name)
  {
    hide Sanitise, SafeName, TrailingSpace;
    SanitiseIsSafe(name);
    SanitiseEndsInAscii(name);
    SafeAsciiEnd(Sanitise(name));
    SecondPass(name);
  }

  lemma SafeAsciiEnd(r: Bytes)
    requires SafeName(r) && r[|r| - 1] < 0x80
    ensures TrailingSpace(r) == 0
  {
    hide WindowsReserved, LeadingSpace, TrailingSpace, HasDotDot;
    assert !Forbidden(r[|r| - 1]);
    PrintableIsNoSpace(r);
  }

  lemma SanitiseEndsInAscii(name: Bytes)
    requires forall i :: 0 <= i < |name| ==> name[i] < 0x80
    ensures var r := Sanitise(name);
            r != [] && r[|r| - 1] < 0x80
  {
    hide Trimmed, WindowsReserved;
    TrimmedKeepsAscii(name);
  }

  lemma TrimmedKeepsAscii(name: Bytes)
    requires forall i :: 0 <= i < |name| ==> name[i] < 0x80
    ensures forall i :: 0 <= i < |Trimmed(name)| ==> Trimmed(name)[i] < 0x80
  {
    StripKeepsAscii(name);
    DropKeepsAscii(Strip(name));
  }

  lemma {:induction false} StripKeepsAscii(s: Bytes)
    requires forall i :: 0 <= i < |s| ==> s[i] < 0x80
    ensures forall i :: 0 <= i < |Strip(s)| ==> Strip(s)[i] < 0x80
  {
    if s != [] {
      StripKeepsAscii(s[..|s| - 1]);
    }
  }

  lemma {:induction false} DropKeepsAscii(s: Bytes)
    requires forall i :: 0 <= i < |s| ==> s[i] < 0x80
    ensures forall i :: 0 <= i < |DropDotDot(s)| ==> DropDotDot(s)[i] < 0x80
    decreases |s|
  {
    if HasDotDot(s) {
      ReplaceKeepsAscii(s);
      DropKeepsAscii(ReplaceDotDot(s));
    }
  }

  lemma {:induction false} ReplaceKeepsAscii(s: Bytes)
    requires forall i :: 0 <= i < |s| ==> s[i] < 0x80
    ensures forall i :: 0 <= i < |ReplaceDotDot(s)| ==> ReplaceDotDot(s)[i] < 0x80
    decreases |s|
  {
    if |s| < 2 {
    } else if s[0] == DOT && s[1] == DOT {
      ReplaceKeepsAscii(s[2..]);
    } else {
      ReplaceKeepsAscii(s[1..]);
    }
  }

  /** Visible ASCII characters no step of the sanitiser is meant to remove. */
  predicate Ordinary(c: Byte) {
    0x21 <= c <= 0x7e && !Forbidden(c) && c != DOT
  }

  function IfOrdinary(c: Byte): Bytes {
    if Ordinary(c) then [c] else []
  }

  function Ordinaries(s: Bytes): Bytes {
    if s == [] then [] else IfOrdinary(s[0]) + Ordinaries(s[1..])
  }

  lemma {:induction false} OrdinariesAppend(a: Bytes, b: Bytes)
    ensures Ordinaries(a + b) == Ordinaries(a) + Ordinaries(b)
  {
    if a == [] {
      assert a + b == b;
    } else {
      hide IfOrdinary;
      var s := a + b;
      assert s[0] == a[0] && s[1..] == a[1..] + b;
      OrdinariesAppend(a[1..], b);
    }
  }

  lemma {:induction false} NoOrdinaries(s: Bytes)
    requires forall i :: 0 <= i < |s| ==> !Ordinary(s[i])
    ensures Ordinaries(s) == []
  {
    if s != [] {
      NoOrdinaries(s[1..]);
    }
  }

  lemma {:induction false} StripKeepsOrdinaries(s: Bytes)
    ensures Ordinaries(Strip(s)) == Ordinaries(s)
  {
    if s != [] {
      var front, last := s[..|s| - 1], [s[|s| - 1]];
      assert s == front + last;
      StripKeepsOrdinaries(front);
      OrdinariesAppend(front, last);
      OrdinariesAppend(Strip(front), last);
    }
  }

  lemma {:induction false} ReplaceKeepsOrdinaries(s: Bytes)
    ensures Ordinaries(ReplaceDotDot(s)) == Ordinaries(s)
    decreases |s|
  {
    if |s| < 2 {
    } else if s[0] == DOT && s[1] == DOT {
      ReplaceKeepsOrdinaries(s[2..]);
      assert s[1..][1..] == s[2..];
    } else {
      ReplaceKeepsOrdinaries(s[1..]);
      OrdinariesAppend([s[0]], s[1..]);
      OrdinariesAppend([s[0]], ReplaceDotDot(s[1..]));
      assert s == [s[0]] + s[1..];
    }
  }

  lemma {:induction false} DropKeepsOrdinaries(s: Bytes)
    ensures Ordinaries(DropDotDot(s)) == Ordinaries(s)
    decreases |s|
  {
    if HasDotDot(s) {
      ReplaceKeepsOrdinaries(s);
      DropKeepsOrdinaries(ReplaceDotDot(s));
    }
  }

  lemma CutKeepsOrdinaries(s: Bytes, k: nat)
    requires k <= |s|
    ensures (forall i :: 0 <= i < k ==> !Ordinary(s[i])) ==> Ordinaries(s[k..]) == Ordinaries(s)
    ensures (forall i :: k <= i < |s| ==> !Ordinary(s[i])) ==> Ordinaries(s[..k]) == Ordinaries(s)
  {
    hide Ordinaries, Ordinary;
    assert s == s[..k] + s[k..];
    OrdinariesAppend(s[..k], s[k..]);
    if forall i :: 0 <= i < k ==> !Ordinary(s[i]) {
      NoOrdinaries(s[..k]);
    }
    if forall i :: k <= i < |s| ==> !Ordinary(s[i]) {
      NoOrdinaries(s[k..]);
    }
  }

  lemma SpacesAreNotOrdinary(s: Bytes)
    ensures forall i :: 0 <= i < LeadingSpace(s) ==> !Ordinary(s[i])
    ensures forall i :: |s| - TrailingSpace(s) <= i < |s| ==> !Ordinary(s[i])
  {
    hide Ordinary, IsSpaceRune, LeadingSpace, TrailingSpace;
    var k, j := LeadingSpace(s), TrailingSpace(s);
    SpacesAreRunes(s);
    if k > 0 {
      SpaceRuneIsNotOrdinary(s[..k]);
      assert forall i :: 0 <= i < k ==> s[i] == s[..k][i];
    }
    if j > 0 {
      SpaceRuneIsNotOrdinary(s[|s| - j..]);
      assert forall i :: |s| - j <= i < |s| ==> s[i] == s[|s| - j..][i - |s| + j];
    }
  }

  lemma SpacesAreRunes(s: Bytes)
    ensures LeadingSpace(s) > 0 ==> IsSpaceRune(s[..LeadingSpace(s)])
    ensures TrailingSpace(s) > 0 ==> IsSpaceRune(s[|s| - TrailingSpace(s)..])
  {
    hide IsSpaceRune;
  }

  lemma SpaceRuneIsNotOrdinary(r: Bytes)
    ensures IsSpaceRune(r) ==> forall i :: 0 <= i < |r| ==> !Ordinary(r[i])
  {
  }

  lemma {:induction false} TrimLeftKeepsOrdinaries(s: Bytes)
    ensures Ordinaries(TrimLeft(s)) == Ordinaries(s)
    decreases |s|
  {
    hide Ordinaries, Ordinary, LeadingSpace;
    var k := LeadingSpace(s);
    SpacesAreNotOrdinary(s);
    if k > 0 {
      assert s[k..][Blanks(s[k..])..] == s[Blanks(s)..];
      CutKeepsOrdinaries(s, k);
      TrimLeftKeepsOrdinaries(s[k..]);
    }
  }

  lemma {:induction false} TrimRightKeepsOrdinaries(s: Bytes)
    ensures Ordinaries(TrimRight(s)) == Ordinaries(s)
    decreases |s|
  {
    hide Ordinaries, Ordinary, TrailingSpace;
    var k := TrailingSpace(s);
    SpacesAreNotOrdinary(s);
    if k > 0 {
      CutKeepsOrdinaries(s, |s| - k);
      TrimRightKeepsOrdinaries(s[..|s| - k]);
    }
  }

  lemma {:induction false} TrimDotsKeepsOrdinaries(s: Bytes)
    ensures Ordinaries(TrimDotsSpaces(s)) == Ordinaries(s)
    decreases |s|
  {
    hide Ordinaries;
    if EndsInDotOrSpace(s) {
      CutKeepsOrdinaries(s, |s| - 1);
      TrimDotsKeepsOrdinaries(s[..|s| - 1]);
    }
  }

  lemma TrimmedKeepsOrdinaries(name: Bytes)
    ensures Ordinaries(Trimmed(name)) == Ordinaries(name)
  {
    hide TrimLeft, TrimRight, TrimDotsSpaces, DropDotDot, Strip, Ordinaries;
    var d := DropDotDot(Strip(name));
    StripKeepsOrdinaries(name);
    DropKeepsOrdinaries(Strip(name));
    TrimLeftKeepsOrdinaries(d);
    TrimRightKeepsOrdinaries(TrimLeft(d));
    TrimDotsKeepsOrdinaries(TrimRight(TrimLeft(d)));
  }

  /** Ordinary characters survive in their order, one underscore perhaps put in front; the fallback replaces none of them. */
  lemma SanitiseKeepsOrdinaries(name: Bytes)
    ensures Trimmed(name) == [] ==> Ordinaries(name) == []
    ensures Trimmed(name) != [] ==>
              Ordinaries(Sanitise(name))
              == if WindowsReserved(Trimmed(name)) then [UNDERSCORE] + Ordinaries(name) else Ordinaries(name)
  {
    hide Trimmed, WindowsReserved, Ordinaries;
    TrimmedKeepsOrdinaries(name);
    UnderscoreIsKept(Trimmed(name));
  }

  lemma UnderscoreIsKept(t: Bytes)
    ensures Ordinaries([UNDERSCORE] + t) == [UNDERSCORE] + Ordinaries(t)
    ensures Ordinaries([]) == []
  {
    assert ([UNDERSCORE] + t)[1..] == t;
  }

  // ---------------------------------------------------------------- uniquePath

  function Decimal(n: nat): (d: Bytes)
    ensures d != []
  {
    if n < 10 then [0x30 + n] else Decimal(n / 10) + [0x30 + n % 10]
  }

  function DecimalValue(d: Bytes): int {
    if d == [] then 0 else DecimalValue(d[..|d| - 1]) * 10 + d[|d| - 1] as int - 0x30
  }

  lemma {:induction false} DecimalInverse(n: nat)
    ensures DecimalValue(Decimal(n)) == n
  {
    if n < 10 {
      assert Decimal(n)[..0] == [];
      assert DecimalValue(Decimal(n)) == DecimalValue(Decimal(n)[..0]) * 10 + n;
    } else {
      assert Decimal(n)[..|Decimal(n)| - 1] == Decimal(n / 10);
      DecimalInverse(n / 10);
    }
  }

  /** filepath.Ext of a base name: from its last dot to its end, empty without a dot. */
  function Ext(name: Bytes): (e: Bytes)
    ensures |e| <= |name| && name[|name| - |e|..] == e
    ensures e != [] ==> e[0] == DOT
  {
    if name == [] then []
    else if name[|name| - 1] == DOT then name[|name| - 1..]
    else
      var e := Ext(name[..|name| - 1]);
      if e == [] then [] else e + [name[|name| - 1]]
  }

  /** There is an extension exactly when there is a dot, and it starts at the last one. */
  lemma {:induction false} ExtFromLastDot(name: Bytes)
    ensures Ext(name) == [] <==> DOT !in name
    ensures Ext(name) != [] ==> DOT !in Ext(name)[1..]
  {
    hide Ext;
    if name == [] {
      ExtOfNothing();
    } else {
      var front, last := name[..|name| - 1], name[|name| - 1];
      assert name == front + [last];
      ExtStep(front, last);
      ExtFromLastDot(front);
    }
  }

  lemma ExtOfNothing()
    ensures Ext([]) == []
  {
  }

  lemma ExtStep(front: Bytes, last: Byte)
    ensures last == DOT ==> Ext(front + [last]) == [DOT]
    ensures last != DOT ==> Ext(front + [last]) == if Ext(front) == [] then [] else Ext(front) + [last]
  {
    var name := front + [last];
    assert name[..|name| - 1] == front;
  }

  function Base(name: Bytes): Bytes {
    name[..|name| - |Ext(name)|]
  }

  /** The "name (N).ext" variant. */
  function Candidate(name: Bytes, n: nat): Bytes {
    Base(name) + [SPACE, 0x28] + Decimal(n) + [0x29] + Ext(name)
  }

  lemma CandidateInjective(name: Bytes, m: nat, n: nat)
    ensures Candidate(name, m) == Candidate(name, n) ==> m == n
    ensures Candidate(name, n) != name
  {
    var b, e := Base(name), Ext(name);
    var c := Candidate(name, n);
    if Candidate(name, m) == c {
      assert Candidate(name, m)[|b| + 2..|c| - |e| - 1] == Decimal(m);
      assert c[|b| + 2..|c| - |e| - 1] == Decimal(n);
      DecimalInverse(m);
      DecimalInverse(n);
    }
  }

  ghost function Candidates(name: Bytes, i: nat): set<Bytes>
    requires i >= 1
  {
    if i == 1 then {} else Candidates(name, i - 1) + {Candidate(name, i - 1)}
  }

  lemma {:induction false} CandidatesCount(name: Bytes, i: nat)
    requires i >= 1
    ensures |Candidates(name, i)| == i - 1
    ensures forall x :: x in Candidates(name, i) ==> exists k: nat :: 1 <= k < i && x == Candidate(name, k)
  {
    hide Candidate;
    if i > 1 {
      CandidatesCount(name, i - 1);
      NewCandidate(name, i - 1);
      var s, x := Candidates(name, i - 1), Candidate(name, i - 1);
      assert x !in s;
      assert |s + {x}| == |s| + 1;
    }
  }

  lemma NewCandidate(name: Bytes, n: nat)
    ensures forall k: nat :: k < n ==> Candidate(name, k) != Candidate(name, n)
  {
    hide Candidate;
    forall k: nat | k < n
      ensures Candidate(name, k) != Candidate(name, n)
    {
      CandidateInjective(name, k, n);
    }
  }

  /** Pigeonhole: at most |existing| probes can miss, counting the probe of the name itself. */
  lemma ProbesAreBounded(existing: set<Bytes>, name: Bytes, i: nat)
    requires i >= 1 && name in existing
    requires forall k :: 1 <= k < i ==> Candidate(name, k) in existing
    ensures i <= |existing|
  {
    hide Candidate;
    var s := Candidates(name, i);
    CandidatesCount(name, i);
    assert name !in s by {
      forall k: nat {
        CandidateInjective(name, k, k);
      }
    }
    SubsetSize(s + {name}, existing);
  }

  lemma {:induction false} SubsetSize<T>(a: set<T>, b: set<T>)
    requires a <= b
    ensures |a| <= |b|
  {
    if a != {} {
      var x :| x in a;
      SubsetSize(a - {x}, b - {x});
    }
  }

  /** r is what uniquePath promises: the name itself if free, else the free variant with the least N. */
  ghost predicate IsUniquePath(existing: set<Bytes>, name: Bytes, r: Bytes) {
    if name !in existing then r == name
    else exists n: nat :: 1 <= n <= |existing| && r == Candidate(name, n) && r !in existing
           && forall k :: 1 <= k < n ==> Candidate(name, k) in existing
  }

  function FirstFree(existing: set<Bytes>, name: Bytes, i: nat): (r: Bytes)
    requires i >= 1 && name in existing
    requires forall k :: 1 <= k < i ==> Candidate(name, k) in existing
    ensures IsUniquePath(existing, name, r)
    decreases |existing| + 1 - i
  {
    ProbesAreBounded(existing, name, i);
    if Candidate(name, i) !in existing then Candidate(name, i) else FirstFree(existing, name, i + 1)
  }

  function UniqueName(existing: set<Bytes>, name: Bytes): (r: Bytes)
    ensures IsUniquePath(existing, name, r)
  {
    if name !in existing then name else FirstFree(existing, name, 1)
  }

  method UniquePath(existing: set<Bytes>, name: Bytes) returns (r: Bytes)
    ensures IsUniquePath(existing, name, r)
    ensures r == UniqueName(existing, name)
  {
    if name !in existing {
      return name;
    }
    var i := 1;
    r := Candidate(name, i);
    while r in existing
      invariant 1 <= i <= |existing|
      invariant r == Candidate(name, i)
      invariant forall k :: 1 <= k < i ==> Candidate(name, k) in existing
      invariant FirstFree(existing, name, i) == UniqueName(existing, name)
      decreases |existing| + 1 - i
    {
      i := i + 1;
      ProbesAreBounded(existing, name, i);
      r := Candidate(name, i);
    }
  }
}
