/** The rules for file names written down a second time, as tables and character lists, and shown to agree. */
module NameRules {
  import opened Prelude
  import opened Names
  import opened Receiver

  /** A string of ASCII characters as bytes. */
  predicate Spells(b: Bytes, s: string) {
    |b| == |s| && forall i :: 0 <= i < |b| ==> b[i] == s[i] as int
  }

  lemma FixedNames()
    ensures Spells(FALLBACK, "gmmff_received_file")
    ensures Spells(PARTIAL_SUFFIX, ".gmmff_partial")
    ensures Spells(META_SUFFIX, ".gmmff_meta")
  {
  }

  // ---------------------------------------------------------------- forbidden characters

  lemma ForbiddenIff(c: Byte)
    ensures Forbidden(c) <==> c == '/' as int || c == '\\' as int || c == ':' as int || c < ' ' as int || c == 127
  {
  }

  // ---------------------------------------------------------------- device names

  const DEVICES := ["CON", "PRN", "AUX", "NUL",
    "COM1", "COM2", "COM3", "COM4", "COM5", "COM6", "COM7", "COM8", "COM9",
    "LPT1", "LPT2", "LPT3", "LPT4", "LPT5", "LPT6", "LPT7", "LPT8", "LPT9"]

  /** The same letter in either case, or the same character. */
  predicate SameLetter(b: Byte, c: char) {
    b == c as int || ('A' <= c <= 'Z' && b == c as int + 32)
  }

  predicate SpellsFolded(b: Bytes, s: string) {
    |b| == |s| && forall i :: 0 <= i < |b| ==> SameLetter(b[i], s[i])
  }

  predicate NamesDevice(stem: Bytes, k: int) {
    0 <= k < |DEVICES| && SpellsFolded(stem, DEVICES[k])
  }

  lemma FoldsTo(b: Byte, c: char)
    requires 'A' <= c <= 'Z' || '0' <= c <= '9'
    ensures (if 0x61 <= b <= 0x7a then b - 32 else b as int) == c as int <==> SameLetter(b, c)
  {
  }

  lemma UpperSpells(b: Bytes, s: string, u: Bytes)
    requires Spells(u, s) && forall i :: 0 <= i < |s| ==> 'A' <= s[i] <= 'Z' || '0' <= s[i] <= '9'
    ensures Upper(b) == u <==> SpellsFolded(b, s)
  {
    if |b| == |s| {
      forall i | 0 <= i < |b|
        ensures Upper(b)[i] == u[i] <==> SameLetter(b[i], s[i])
      {
        FoldsTo(b[i], s[i]);
      }
    }
  }

  lemma NumberedDevice(stem: Bytes, port: Bytes, name: string, n: nat)
    requires (port == COM && name == "COM") || (port == LPT && name == "LPT")
    requires 1 <= n <= 9
    ensures Upper(stem) == port + [0x30 + n] <==> SpellsFolded(stem, name + [(0x30 + n) as char])
  {
    UpperSpells(stem, name + [(0x30 + n) as char], port + [0x30 + n]);
  }

  /** A name is reserved exactly when what stands before its first dot is, in any case, one of the 22 device names. */
  lemma ReservedIff(name: Bytes)
    ensures WindowsReserved(name) <==> IsDevice(Stem(name))
  {
    hide DeviceName, Upper, IsDevice;
    DeviceIff(Stem(name));
  }

  ghost predicate IsDevice(stem: Bytes) {
    exists k :: NamesDevice(stem, k)
  }

  lemma DeviceIff(stem: Bytes)
    ensures DeviceName(Upper(stem)) <==> IsDevice(stem)
  {
    hide Upper, SpellsFolded;
    UpperSpells(stem, "CON", CON);
    UpperSpells(stem, "PRN", PRN);
    UpperSpells(stem, "AUX", AUX);
    UpperSpells(stem, "NUL", NUL);
    PortsIff(stem);
    DevicesListed(stem);
  }

  predicate Port(stem: Bytes, n: int) {
    1 <= n <= 9 && (SpellsFolded(stem, "COM" + [(0x30 + n) as char]) || SpellsFolded(stem, "LPT" + [(0x30 + n) as char]))
  }

  lemma PortsIff(stem: Bytes)
    ensures (exists n :: Port(stem, n)) <==>
              var u := Upper(stem);
              |u| == 4 && (u[..3] == COM || u[..3] == LPT) && 0x31 <= u[3] <= 0x39
  {
    hide Upper, SpellsFolded;
    var u := Upper(stem);
    if |u| == 4 && (u[..3] == COM || u[..3] == LPT) && 0x31 <= u[3] <= 0x39 {
      var n := u[3] - 0x30;
      assert u == u[..3] + [0x30 + n];
      if u[..3] == COM { NumberedDevice(stem, COM, "COM", n); } else { NumberedDevice(stem, LPT, "LPT", n); }
      assert Port(stem, n);
    }
    if n :| Port(stem, n) {
      NumberedDevice(stem, COM, "COM", n);
      NumberedDevice(stem, LPT, "LPT", n);
      assert u == COM + [0x30 + n] || u == LPT + [0x30 + n];
    }
  }

  lemma PortAt(n: nat)
    requires 1 <= n <= 9
    ensures DEVICES[3 + n] == "COM" + [(0x30 + n) as char] && DEVICES[12 + n] == "LPT" + [(0x30 + n) as char]
  {
  }

  lemma DevicesListed(stem: Bytes)
    ensures (exists k :: NamesDevice(stem, k)) <==>
              SpellsFolded(stem, "CON") || SpellsFolded(stem, "PRN") || SpellsFolded(stem, "AUX") || SpellsFolded(stem, "NUL")
              || exists n :: Port(stem, n)
  {
    hide SpellsFolded;
    if k :| NamesDevice(stem, k) {
      if 4 <= k < 13 {
        PortAt(k - 3);
        assert Port(stem, k - 3);
      } else if k >= 13 {
        PortAt(k - 12);
        assert Port(stem, k - 12);
      }
    }
    if n :| Port(stem, n) {
      PortAt(n);
      assert NamesDevice(stem, 3 + n) || NamesDevice(stem, 12 + n);
    }
    assert SpellsFolded(stem, "CON") ==> NamesDevice(stem, 0);
    assert SpellsFolded(stem, "PRN") ==> NamesDevice(stem, 1);
    assert SpellsFolded(stem, "AUX") ==> NamesDevice(stem, 2);
    assert SpellsFolded(stem, "NUL") ==> NamesDevice(stem, 3);
  }

  /** The stem is everything before the first dot. */
  lemma {:induction false} StemEndsAtFirstDot(s: Bytes)
    ensures Stem(s) <= s && DOT !in Stem(s)
    ensures |Stem(s)| < |s| ==> s[|Stem(s)|] == '.' as int
  {
    if s != [] && s[0] != DOT {
      StemEndsAtFirstDot(s[1..]);
      assert s == [s[0]] + s[1..];
    }
  }

  // ---------------------------------------------------------------- Unicode spaces

  /** The code points with the White_Space property. */
  predicate WhiteSpace(cp: nat) {
    cp in {0x9, 0xA, 0xB, 0xC, 0xD, 0x20, 0x85, 0xA0, 0x1680, 0x2028, 0x2029, 0x202F, 0x205F, 0x3000} || 0x2000 <= cp <= 0x200A
  }

  /** UTF-8, for code points below U+10000. */
  function Utf8(cp: nat): (b: Bytes)
    requires cp < 0x10000
  {
    if cp < 0x80 then [cp]
    else if cp < 0x800 then [0xC0 + cp / 64, 0x80 + cp % 64]
    else [0xE0 + cp / 4096, 0x80 + cp / 64 % 64, 0x80 + cp % 64]
  }

  function Decoded(r: Bytes): int {
    if |r| == 1 then r[0]
    else if |r| == 2 then (r[0] as int - 0xC0) * 64 + (r[1] as int - 0x80)
    else if |r| == 3 then (r[0] as int - 0xE0) * 4096 + (r[1] as int - 0x80) * 64 + (r[2] as int - 0x80)
    else -1
  }

  /** The byte strings that count as one space are the encodings of exactly these code points. */
  lemma SpaceRuneIff(r: Bytes)
    ensures IsSpaceRune(r) <==> exists cp :: 0 <= cp < 0x10000 && WhiteSpace(cp) && r == Utf8(cp)
  {
    if IsSpaceRune(r) {
      var cp := Decoded(r);
      assert WhiteSpace(cp) && r == Utf8(cp);
    }
    if cp :| 0 <= cp < 0x10000 && WhiteSpace(cp) && r == Utf8(cp) {
      EncodedSpace(cp);
    }
  }

  lemma EncodedSpace(cp: nat)
    requires cp < 0x10000 && WhiteSpace(cp)
    ensures IsSpaceRune(Utf8(cp))
  {
    if 0x2000 <= cp <= 0x200A {
      assert cp / 4096 == 2 && cp / 64 % 64 == 0 && cp % 64 == cp - 0x2000;
    }
  }

  // ---------------------------------------------------------------- pairs of dots

  /** Every run of dots cut down to one dot if it was odd, to nothing if it was even; odd: an unpaired dot is pending. */
  function DotsPaired(s: Bytes, odd: bool): Bytes {
    if s == [] then if odd then [DOT] else []
    else if s[0] == DOT then DotsPaired(s[1..], !odd)
    else (if odd then [DOT] else []) + [s[0]] + DotsPaired(s[1..], false)
  }

  lemma {:induction false} ReplacePairs(s: Bytes)
    ensures ReplaceDotDot(s) == DotsPaired(s, false)
    decreases |s|
  {
    if |s| >= 2 {
      if s[0] == DOT && s[1] == DOT {
        ReplacePairs(s[2..]);
        assert s[1..][1..] == s[2..];
      } else {
        ReplacePairs(s[1..]);
        if s[0] == DOT {
          PendingDot(s[1..]);
        }
      }
    } else if |s| == 1 {
      assert s[1..] == [];
      assert s == [s[0]];
    }
  }

  /** A pending dot before something that is not a dot comes out as it is. */
  lemma PendingDot(s: Bytes)
    requires s != [] && s[0] != DOT
    ensures DotsPaired(s, true) == [DOT] + DotsPaired(s, false)
  {
    assert [DOT] + ([s[0]] + DotsPaired(s[1..], false)) == [DOT] + [s[0]] + DotsPaired(s[1..], false);
  }

  lemma {:induction false} PairedHasNoPair(s: Bytes, odd: bool)
    ensures !HasDotDot(DotsPaired(s, odd))
    ensures !odd && s != [] && s[0] != DOT ==> DotsPaired(s, odd) != [] && DotsPaired(s, odd)[0] != DOT
    decreases |s|
  {
    if s != [] {
      if s[0] == DOT {
        PairedHasNoPair(s[1..], !odd);
      } else {
        PairedHasNoPair(s[1..], false);
        NoPairAdded(s[0], DotsPaired(s[1..], false), odd);
      }
    }
  }

  lemma NoPairAdded(c: Byte, t: Bytes, odd: bool)
    requires c != DOT && !HasDotDot(t)
    ensures !HasDotDot((if odd then [DOT] else []) + [c] + t)
  {
    var r := (if odd then [DOT] else []) + [c] + t;
    var k := if odd then 2 else 1;
    assert forall i :: k <= i < |r| ==> r[i] == t[i - k];
  }

  /** The whole loop removes dots in pairs within each run, and one pass of it is enough. */
  lemma DropPairs(s: Bytes)
    ensures DropDotDot(s) == DotsPaired(s, false) == ReplaceDotDot(s)
  {
    hide HasDotDot;
    ReplacePairs(s);
    PairedHasNoPair(s, false);
    assert DropDotDot(ReplaceDotDot(s)) == ReplaceDotDot(s);
  }

  // ---------------------------------------------------------------- trimming

  /** Nothing but spaces, one after the other. */
  ghost predicate AllSpaces(s: Bytes)
    decreases |s|
  {
    s == [] || exists k :: 1 <= k <= |s| && IsSpaceRune(s[..k]) && AllSpaces(s[k..])
  }

  lemma {:induction false} SpacesAppend(a: Bytes, b: Bytes)
    requires AllSpaces(a) && AllSpaces(b)
    ensures AllSpaces(a + b)
    decreases |a|
  {
    hide IsSpaceRune;
    if a == [] {
      assert a + b == b;
    } else {
      var k :| 1 <= k <= |a| && IsSpaceRune(a[..k]) && AllSpaces(a[k..]);
      SpacesAppend(a[k..], b);
      assert (a + b)[..k] == a[..k] && (a + b)[k..] == a[k..] + b;
    }
  }

  lemma NoSpaces()
    ensures AllSpaces([])
  {
  }

  lemma OneSpace(r: Bytes)
    requires IsSpaceRune(r)
    ensures AllSpaces(r)
  {
    assert r[..|r|] == r && r[|r|..] == [];
  }

  /** Trimming on the left cuts off spaces only, and all of them. */
  lemma {:induction false} TrimLeftCutsSpaces(s: Bytes)
    ensures s == s[..Blanks(s)] + TrimLeft(s) && AllSpaces(s[..Blanks(s)]) && LeadingSpace(TrimLeft(s)) == 0
    decreases |s|
  {
    hide IsSpaceRune, LeadingSpace, AllSpaces;
    var k := LeadingSpace(s);
    if k > 0 {
      SpacesAreRunes(s);
      TrimLeftCutsSpaces(s[k..]);
      var m := Blanks(s[k..]);
      OneSpace(s[..k]);
      SpacesAppend(s[..k], s[k..][..m]);
      assert s[..k + m] == s[..k] + s[k..][..m];
    } else {
      assert s[..0] == [];
      NoSpaces();
    }
  }

  /** Trimming on the right cuts off spaces only, and all of them. */
  lemma {:induction false} TrimRightCutsSpaces(s: Bytes)
    ensures TrimRight(s) <= s && AllSpaces(s[|TrimRight(s)|..]) && TrailingSpace(TrimRight(s)) == 0
    decreases |s|
  {
    hide IsSpaceRune, TrailingSpace, AllSpaces;
    var k := TrailingSpace(s);
    if k > 0 {
      SpacesAreRunes(s);
      var front, tail := s[..|s| - k], s[|s| - k..];
      var n := |TrimRight(front)|;
      TrimRightCutsSpaces(front);
      OneSpace(tail);
      SpacesAppend(front[n..], tail);
      TailOfTail(s, n, |s| - k);
    } else {
      assert s[|s|..] == [];
      NoSpaces();
    }
  }

  lemma TailOfTail(s: Bytes, i: nat, j: nat)
    requires i <= j <= |s|
    ensures s[i..] == s[..j][i..] + s[j..]
  {
  }

  /** The last step cuts off dots and blanks only, and all of them. */
  lemma {:induction false} DotsAndBlanksCut(s: Bytes)
    ensures TrimDotsSpaces(s) <= s && !EndsInDotOrSpace(TrimDotsSpaces(s))
    ensures forall i :: |TrimDotsSpaces(s)| <= i < |s| ==> s[i] == '.' as int || s[i] == ' ' as int
    decreases |s|
  {
    if EndsInDotOrSpace(s) {
      DotsAndBlanksCut(s[..|s| - 1]);
    }
  }

  // ---------------------------------------------------------------- numbered variants

  lemma {:induction false} DecimalShape(n: nat)
    ensures forall i :: 0 <= i < |Decimal(n)| ==> '0' as int <= Decimal(n)[i] <= '9' as int
    ensures n > 0 ==> Decimal(n)[0] != '0' as int
    ensures n == 0 ==> Decimal(n) == [0x30]
  {
    if n >= 10 {
      DecimalShape(n / 10);
    }
  }

  /** The variant puts " (N)" between the stem and the extension, and has the same extension. */
  lemma CandidateShape(name: Bytes, n: nat)
    ensures name == Base(name) + Ext(name)
    ensures Candidate(name, n) == Base(name) + [' ' as int, '(' as int] + Decimal(n) + [')' as int] + Ext(name)
    ensures Ext(Candidate(name, n)) == Ext(name)
  {
    hide Ext, Decimal;
    var e := Ext(name);
    var stem := Base(name) + [' ' as int, '(' as int] + Decimal(n) + [')' as int];
    DecimalShape(n);
    ExtFromLastDot(name);
    if e == [] {
      assert Base(name) == name;
      NoDotIn(name, Decimal(n), e);
      ExtFromLastDot(stem + e);
    } else {
      ExtAfter(stem, e);
    }
  }

  lemma NoDotIn(b: Bytes, d: Bytes, e: Bytes)
    requires DOT !in b && e == [] && forall i :: 0 <= i < |d| ==> '0' as int <= d[i] <= '9' as int
    ensures DOT !in b + [' ' as int, '(' as int] + d + [')' as int] + e
  {
  }

  lemma NotLater(s: Bytes, i: nat, e: Bytes, j: nat)
    requires i <= |s| && s[i..] == e && e != [] && DOT !in e[1..] && j < |s| && s[j] == DOT
    ensures j <= i
  {
    assert forall k :: i < k < |s| ==> s[k] == e[1..][k - i - 1];
  }

  /** What starts with a dot and has no other is the extension of anything it ends. */
  lemma ExtAfter(stem: Bytes, e: Bytes)
    requires e != [] && e[0] == DOT && DOT !in e[1..]
    ensures Ext(stem + e) == e
  {
    hide Ext;
    var s := stem + e;
    var x := Ext(s);
    assert s[|stem|] == DOT;
    ExtFromLastDot(s);
    assert x[0] == DOT && s[|s| - |x|..] == x;
    var i := |s| - |x|;
    assert s[|stem|..] == e;
    assert i <= |stem| by { NotLater(s, |stem|, e, i); }
    assert i >= |stem| by { NotLater(s, i, x, |stem|); }
  }
}
