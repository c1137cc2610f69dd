/**
 * The STORE-only ZIP writer and a reader that follows PKWARE APPNOTE.TXT: end of central directory record
 * (4.3.16), central directory headers (4.3.12), local file headers (4.3.7).
 */
module Zip {
  import opened Prelude
  import opened Endian
  import opened Crc

  datatype Entry = Entry(name: Bytes, data: Bytes)

  const LOCAL_SIGNATURE := 0x04034b50
  const CENTRAL_SIGNATURE := 0x02014b50
  const END_SIGNATURE := 0x06054b50

  function Le2(v: nat): (b: Bytes)
    ensures |b| == 2
  {
    LittleEndian(v, 2)
  }

  function Le4(v: nat): (b: Bytes)
    ensures |b| == 4
  {
    LittleEndian(v, 4)
  }

  function Zeros(n: nat): (z: Bytes)
    ensures |z| == n
  {
    seq(n, i => 0)
  }

  function CrcOf(data: Bytes): nat {
    Crc32(data) as int
  }

  // ---------------------------------------------------------------- layout

  /** Bytes up to `off` padded with zeros, then a field: a write into a zeroed buffer. */
  function Put(done: Bytes, off: nat, field: Bytes): (b: Bytes)
    requires |done| <= off
    ensures |b| == off + |field|
  {
    done + Zeros(off - |done|) + field
  }

  function LocalHeader(name: Bytes, size: nat, crc: nat): (b: Bytes)
    ensures |b| == 30 + |name|
  {
    var b := Put(Put(Put(Put([], 0, Le4(LOCAL_SIGNATURE)), 4, Le2(20)), 6, Le2(0)), 8, Le2(0));
    var b := Put(Put(Put(b, 14, Le4(crc)), 18, Le4(size)), 22, Le4(size));
    Put(Put(b, 26, Le2(|name|)), 30, name)
  }

  function CentralHeader(name: Bytes, size: nat, crc: nat, offset: nat): (b: Bytes)
    ensures |b| == 46 + |name|
  {
    var b := Put(Put(Put([], 0, Le4(CENTRAL_SIGNATURE)), 4, Le2(20)), 6, Le2(20));
    var b := Put(Put(b, 8, Le2(0)), 10, Le2(0));
    var b := Put(Put(Put(b, 16, Le4(crc)), 20, Le4(size)), 24, Le4(size));
    Put(Put(Put(b, 28, Le2(|name|)), 42, Le4(offset)), 46, name)
  }

  function EndRecord(count: nat, cdSize: nat, cdOffset: nat): (b: Bytes)
    ensures |b| == 22
  {
    var b := Put(Put(Put([], 0, Le4(END_SIGNATURE)), 8, Le2(count)), 10, Le2(count));
    Put(Put(Put(b, 12, Le4(cdSize)), 16, Le4(cdOffset)), 22, [])
  }

  function LocalPart(e: Entry): Bytes {
    LocalHeader(e.name, |e.data|, CrcOf(e.data)) + e.data
  }

  function Locals(es: seq<Entry>): (parts: seq<Bytes>)
    ensures |parts| == |es|
    ensures forall i :: 0 <= i < |es| ==> parts[i] == LocalPart(es[i])
  {
    seq(|es|, i requires 0 <= i < |es| => LocalPart(es[i]))
  }

  /** Where entry i's local header really starts. */
  function TrueOffset(es: seq<Entry>, i: nat): nat
    requires i <= |es|
  {
    |Flatten(Locals(es)[..i])|
  }

  function Centrals(es: seq<Entry>): (parts: seq<Bytes>)
    ensures |parts| == |es|
    ensures forall i :: 0 <= i < |es| ==>
              parts[i] == CentralHeader(es[i].name, |es[i].data|, CrcOf(es[i].data), TrueOffset(es, i))
  {
    seq(|es|, i requires 0 <= i < |es| =>
      CentralHeader(es[i].name, |es[i].data|, CrcOf(es[i].data), TrueOffset(es, i)))
  }

  function Assembled(locals: Bytes, centrals: Bytes, count: nat): Bytes {
    locals + centrals + EndRecord(count, |centrals|, |locals|)
  }

  function Archive(es: seq<Entry>): Bytes {
    Assembled(Flatten(Locals(es)), Flatten(Centrals(es)), |es|)
  }

  // ---------------------------------------------------------------- the writer

  /** The buffer holds done, then zeros. */
  ghost predicate Filled(b: array<Byte>, done: Bytes)
    reads b
  {
    |done| <= b.Length && b[..] == Put(done, b.Length, [])
  }

  method PutUint32LE(b: array<Byte>, off: nat, v: nat, ghost done: Bytes) returns (ghost now: Bytes)
    requires Filled(b, done) && |done| <= off && off + 4 <= b.Length
    modifies b
    ensures now == Put(done, off, Le4(v)) && Filled(b, now)
  {
    var w := Le4(v);
    b[off], b[off + 1], b[off + 2], b[off + 3] := w[0], w[1], w[2], w[3];
    now := Put(done, off, w);
    assert b[..] == Put(now, b.Length, []);
  }

  method PutUint16LE(b: array<Byte>, off: nat, v: nat, ghost done: Bytes) returns (ghost now: Bytes)
    requires Filled(b, done) && |done| <= off && off + 2 <= b.Length
    modifies b
    ensures now == Put(done, off, Le2(v)) && Filled(b, now)
  {
    var w := Le2(v);
    b[off], b[off + 1] := w[0], w[1];
    now := Put(done, off, w);
    assert b[..] == Put(now, b.Length, []);
  }

  /** copy(b[off:], name), where the name ends the buffer. */
  method CopyName(b: array<Byte>, off: nat, name: Bytes, ghost done: Bytes)
    requires Filled(b, done) && |done| <= off && off + |name| == b.Length
    modifies b
    ensures b[..] == Put(done, off, name)
  {
    for i := 0 to |name|
      invariant b[..] == Put(Put(done, off, name[..i]), b.Length, [])
    {
      b[off + i] := name[i];
      assert name[..i + 1] == name[..i] + [name[i]];
    }
    assert name[..|name|] == name;
  }

  method BuildLocalFileHeader(name: Bytes, size: nat, crc: nat) returns (r: Bytes)
    ensures r == LocalHeader(name, size, crc)
  {
    hide Le2, Le4, Put, Filled;
    var b := new Byte[30 + |name|](i => 0);
    AllZero(b);
    ghost var d: Bytes := [];
    d := PutUint32LE(b, 0, LOCAL_SIGNATURE, d);
    d := PutUint16LE(b, 4, 20, d);
    d := PutUint16LE(b, 6, 0, d);
    d := PutUint16LE(b, 8, 0, d);
    d := PutUint32LE(b, 14, crc, d);
    d := PutUint32LE(b, 18, size, d);
    d := PutUint32LE(b, 22, size, d);
    d := PutUint16LE(b, 26, |name|, d);
    CopyName(b, 30, name, d);
    r := b[..];
  }

  method BuildCentralDirEntry(name: Bytes, size: nat, crc: nat, offset: nat) returns (r: Bytes)
    ensures r == CentralHeader(name, size, crc, offset)
  {
    hide Le2, Le4, Put, Filled;
    var b := new Byte[46 + |name|](i => 0);
    AllZero(b);
    ghost var d: Bytes := [];
    d := PutUint32LE(b, 0, CENTRAL_SIGNATURE, d);
    d := PutUint16LE(b, 4, 20, d);
    d := PutUint16LE(b, 6, 20, d);
    d := PutUint16LE(b, 8, 0, d);
    d := PutUint16LE(b, 10, 0, d);
    d := PutUint32LE(b, 16, crc, d);
    d := PutUint32LE(b, 20, size, d);
    d := PutUint32LE(b, 24, size, d);
    d := PutUint16LE(b, 28, |name|, d);
    d := PutUint32LE(b, 42, offset, d);
    CopyName(b, 46, name, d);
    r := b[..];
  }

  method BuildEOCD(count: nat, cdSize: nat, cdOffset: nat) returns (r: Bytes)
    ensures r == EndRecord(count, cdSize, cdOffset)
  {
    hide Le2, Le4, Put, Filled;
    var b := new Byte[22](i => 0);
    AllZero(b);
    ghost var d: Bytes := [];
    d := PutUint32LE(b, 0, END_SIGNATURE, d);
    d := PutUint16LE(b, 8, count, d);
    d := PutUint16LE(b, 10, count, d);
    d := PutUint32LE(b, 12, cdSize, d);
    d := PutUint32LE(b, 16, cdOffset, d);
    FilledIs(b, d);
    r := b[..];
  }

  lemma FilledIs(b: array<Byte>, done: Bytes)
    requires Filled(b, done)
    ensures |done| <= b.Length && b[..] == Put(done, b.Length, [])
  {
  }

  lemma AllZero(b: array<Byte>)
    requires forall i :: 0 <= i < b.Length ==> b[i] == 0
    ensures Filled(b, [])
  {
    assert b[..] == Zeros(b.Length);
  }

  // ---------------------------------------------------------------- writing a list of entries

  /** 32-bit fields hold values modulo 2^32, so writing a wrapped offset writes the true one's low half. */
  lemma FieldWraps(v: nat)
    ensures Le4(v % U32) == Le4(v) && Le2(v % 65536) == Le2(v)
  {
    WrapKeeps(v, 4);
    WrapKeeps(v, 2);
    PowersOf256();
  }

  lemma {:induction false} WrapKeeps(v: nat, n: nat)
    ensures LittleEndian(v % Pow256(n), n) == LittleEndian(v, n)
  {
    if n > 0 {
      var p := Pow256(n - 1);
      SplitMod(v, p);
      var w := v % (256 * p);
      assert w == 256 * (v / 256 % p) + v % 256;
      DivUnique(w, 256, v / 256 % p, v % 256);
      WrapKeeps(v / 256, n - 1);
    }
  }

  lemma HeadersWrap(name: Bytes, size: nat, crc: nat, offset: nat)
    ensures LocalHeader(name, size % U32, crc) == LocalHeader(name, size, crc)
    ensures CentralHeader(name, size % U32, crc, offset % U32) == CentralHeader(name, size, crc, offset)
  {
    hide Le2, Le4, Put;
    FieldWraps(size);
    FieldWraps(offset);
  }

  lemma EndWraps(count: nat, cdSize: nat, cdOffset: nat)
    ensures EndRecord(count % 65536, cdSize % U32, cdOffset % U32) == EndRecord(count, cdSize, cdOffset)
  {
    hide Le2, Le4, Put;
    FieldWraps(count);
    FieldWraps(cdSize);
    FieldWraps(cdOffset);
  }

  lemma AddWraps(a: nat, b: nat)
    ensures (a % U32 + b % U32) % U32 == (a + b) % U32
  {
  }

  /** One more part written: how the flattened prefix and its length grow. */
  lemma PartAppended(parts: seq<Bytes>, i: nat)
    requires i < |parts|
    ensures Flatten(parts[..i + 1]) == Flatten(parts[..i]) + parts[i]
  {
    assert parts[..i + 1] == parts[..i] + [parts[i]];
    FlattenSnoc(parts[..i], parts[i]);
  }

  datatype Written = Written(name: Bytes, data: Bytes, crc: nat, offset: nat)

  /** The writer, with its 32-bit running offset and directory size. */
  method ZipEntries(entries: seq<Entry>) returns (out: Bytes)
    ensures out == Archive(entries)
  {
    hide LocalHeader, CentralHeader, EndRecord, Crc32;
    out := [];
    var locals: seq<Written> := [];
    var offset := 0;
    ghost var parts := Locals(entries);
    assert parts[..0] == [];
    for i := 0 to |entries|
      invariant out == Flatten(parts[..i])
      invariant offset == |out| % U32
      invariant |locals| == i
      invariant forall j :: 0 <= j < i ==>
        locals[j] == Written(entries[j].name, entries[j].data, CrcOf(entries[j].data), TrueOffset(entries, j) % U32)
    {
      var e := entries[i];
      var crc := Crc32Compute(e.data);
      locals := locals + [Written(e.name, e.data, crc as int, offset)];
      var lf := BuildLocalFileHeader(e.name, |e.data| % U32, crc as int);
      HeadersWrap(e.name, |e.data|, crc as int, 0);
      PartAppended(parts, i);
      AddWraps(|out|, |lf| + |e.data|);
      AddWraps(|lf|, |e.data|);
      offset := (offset + (|lf| % U32 + |e.data| % U32) % U32) % U32;
      out := out + lf + e.data;
    }
    assert parts[..|entries|] == parts;
    var dir, cdSize := WriteDirectory(entries, locals);
    var eocd := BuildEOCD(|locals| % 65536, cdSize, offset);
    EndWraps(|locals|, |dir|, |out|);
    out := out + dir + eocd;
  }

  /** The central directory, with its 32-bit running size. */
  method WriteDirectory(ghost entries: seq<Entry>, locals: seq<Written>) returns (out: Bytes, cdSize: nat)
    requires |locals| == |entries|
    requires forall j :: 0 <= j < |entries| ==>
      locals[j] == Written(entries[j].name, entries[j].data, CrcOf(entries[j].data), TrueOffset(entries, j) % U32)
    ensures out == Flatten(Centrals(entries)) && cdSize == |out| % U32
  {
    hide LocalHeader, CentralHeader, EndRecord, CrcOf, TrueOffset;
    out := [];
    cdSize := 0;
    ghost var dir := Centrals(entries);
    assert dir[..0] == [];
    for i := 0 to |locals|
      invariant out == Flatten(dir[..i])
      invariant cdSize == |out| % U32
    {
      var w := locals[i];
      var cd := BuildCentralDirEntry(w.name, |w.data| % U32, w.crc, w.offset);
      HeadersWrap(w.name, |w.data|, w.crc, TrueOffset(entries, i));
      PartAppended(dir, i);
      AddWraps(|out|, |cd|);
      cdSize := (cdSize + |cd| % U32) % U32;
      out := out + cd;
    }
    assert dir[..|entries|] == dir;
  }

  // ---------------------------------------------------------------- the reader

  function U16At(z: Bytes, p: nat): nat
    requires p + 2 <= |z|
  {
    FromLittleEndian(z[p..p + 2])
  }

  function U32At(z: Bytes, p: nat): nat
    requires p + 4 <= |z|
  {
    FromLittleEndian(z[p..p + 4])
  }

  /** 4.3.7: a STORE local header at p that carries the checksum and sizes the directory announced. */
  predicate LocalAgrees(z: Bytes, p: nat, size: nat, crc: nat) {
    && p + 30 <= |z| && U32At(z, p) == LOCAL_SIGNATURE && U16At(z, p + 8) == 0
    && U32At(z, p + 14) == crc && U32At(z, p + 18) == size && U32At(z, p + 22) == size
  }

  /** The data behind the local header at p, if header, name and checksum agree with the directory. */
  function ReadLocal(z: Bytes, p: nat, name: Bytes, size: nat, crc: nat): Option<Bytes> {
    if !LocalAgrees(z, p, size, crc) then None
    else
      var n, x := U16At(z, p + 26), U16At(z, p + 28);
      var start := p + 30 + n + x;
      if start + size > |z| || z[p + 30..p + 30 + n] != name then None
      else
        var data := z[start..start + size];
        if CrcOf(data) == crc then Some(data) else None
  }

  /** 4.3.12: k directory headers from position p on. */
  function ReadDirectory(z: Bytes, p: nat, k: nat): Option<seq<Entry>>
    decreases k
  {
    if k == 0 then Some([])
    else if p + 46 > |z| || U32At(z, p) != CENTRAL_SIGNATURE || U16At(z, p + 10) != 0 then None
    else if U32At(z, p + 20) != U32At(z, p + 24) then None
    else
      var n := U16At(z, p + 28);
      var next := p + 46 + n + U16At(z, p + 30) + U16At(z, p + 32);
      if next > |z| then None
      else
        var name := z[p + 46..p + 46 + n];
        match (ReadLocal(z, U32At(z, p + 42), name, U32At(z, p + 24), U32At(z, p + 16)), ReadDirectory(z, next, k - 1))
        case (Some(data), Some(rest)) => Some([Entry(name, data)] + rest)
        case _ => None
  }

  /** 4.3.16: the end record closes the archive; it says how many headers there are and where they start. */
  function ReadArchive(z: Bytes): Option<seq<Entry>> {
    if |z| < 22 then None
    else
      var e := |z| - 22;
      if U32At(z, e) != END_SIGNATURE || U16At(z, e + 20) != 0 then None
      else if U32At(z, e + 16) + U32At(z, e + 12) != e || U16At(z, e + 8) != U16At(z, e + 10) then None
      else ReadDirectory(z, U32At(z, e + 16), U16At(z, e + 10))
  }

  // ---------------------------------------------------------------- round trip

  ghost predicate At(z: Bytes, p: nat, s: Bytes) {
    p + |s| <= |z| && z[p..p + |s|] == s
  }

  lemma PutFields(done: Bytes, off: nat, field: Bytes)
    requires |done| <= off
    ensures var b := Put(done, off, field);
            done <= b && b[off..off + |field|] == field && b[|done|..off] == Zeros(off - |done|)
  {
  }

  lemma PrefixSlice(b: Bytes, h: Bytes, i: nat, j: nat)
    requires b <= h && i <= j <= |b|
    ensures h[i..j] == b[i..j]
  {
  }

  lemma LocalFields(name: Bytes, size: nat, crc: nat)
    ensures var h := LocalHeader(name, size, crc);
            && h[0..4] == Le4(LOCAL_SIGNATURE) && h[8..10] == Le2(0)
            && h[14..18] == Le4(crc) && h[18..22] == Le4(size) && h[22..26] == Le4(size)
            && h[26..28] == Le2(|name|) && h[28..30] == Zeros(2)
            && h[30..30 + |name|] == name
  {
    hide Le2, Le4, Put, Zeros;
    var b1 := Put([], 0, Le4(LOCAL_SIGNATURE));
    var b2 := Put(b1, 4, Le2(20));
    var b3 := Put(b2, 6, Le2(0));
    var b4 := Put(b3, 8, Le2(0));
    var b5 := Put(b4, 14, Le4(crc));
    var b6 := Put(b5, 18, Le4(size));
    var b7 := Put(b6, 22, Le4(size));
    var b8 := Put(b7, 26, Le2(|name|));
    var h := Put(b8, 30, name);
    PutFields([], 0, Le4(LOCAL_SIGNATURE));
    PutFields(b1, 4, Le2(20));
    PutFields(b2, 6, Le2(0));
    PutFields(b3, 8, Le2(0));
    PutFields(b4, 14, Le4(crc));
    PutFields(b5, 18, Le4(size));
    PutFields(b6, 22, Le4(size));
    PutFields(b7, 26, Le2(|name|));
    PutFields(b8, 30, name);
    PrefixSlice(b1, h, 0, 4);
    PrefixSlice(b4, h, 8, 10);
    PrefixSlice(b5, h, 14, 18);
    PrefixSlice(b6, h, 18, 22);
    PrefixSlice(b7, h, 22, 26);
    PrefixSlice(b8, h, 26, 28);
  }

  lemma CentralFields(name: Bytes, size: nat, crc: nat, offset: nat)
    ensures var h := CentralHeader(name, size, crc, offset);
            && h[0..4] == Le4(CENTRAL_SIGNATURE) && h[10..12] == Le2(0)
            && h[16..20] == Le4(crc) && h[20..24] == Le4(size) && h[24..28] == Le4(size)
            && h[28..30] == Le2(|name|) && h[30..42] == Zeros(12)
            && h[42..46] == Le4(offset) && h[46..46 + |name|] == name
  {
    hide Le2, Le4, Put, Zeros;
    var b1 := Put([], 0, Le4(CENTRAL_SIGNATURE));
    var b2 := Put(b1, 4, Le2(20));
    var b3 := Put(b2, 6, Le2(20));
    var b4 := Put(b3, 8, Le2(0));
    var b5 := Put(b4, 10, Le2(0));
    var b6 := Put(b5, 16, Le4(crc));
    var b7 := Put(b6, 20, Le4(size));
    var b8 := Put(b7, 24, Le4(size));
    var b9 := Put(b8, 28, Le2(|name|));
    var b10 := Put(b9, 42, Le4(offset));
    var h := Put(b10, 46, name);
    PutFields([], 0, Le4(CENTRAL_SIGNATURE));
    PutFields(b1, 4, Le2(20));
    PutFields(b2, 6, Le2(20));
    PutFields(b3, 8, Le2(0));
    PutFields(b4, 10, Le2(0));
    PutFields(b5, 16, Le4(crc));
    PutFields(b6, 20, Le4(size));
    PutFields(b7, 24, Le4(size));
    PutFields(b8, 28, Le2(|name|));
    PutFields(b9, 42, Le4(offset));
    PutFields(b10, 46, name);
    PrefixSlice(b1, h, 0, 4);
    PrefixSlice(b5, h, 10, 12);
    PrefixSlice(b6, h, 16, 20);
    PrefixSlice(b7, h, 20, 24);
    PrefixSlice(b8, h, 24, 28);
    PrefixSlice(b9, h, 28, 30);
    PrefixSlice(b10, h, 30, 42);
    PrefixSlice(b10, h, 42, 46);
  }

  lemma EndFields(count: nat, cdSize: nat, cdOffset: nat)
    ensures var h := EndRecord(count, cdSize, cdOffset);
            && h[0..4] == Le4(END_SIGNATURE) && h[8..10] == Le2(count) && h[10..12] == Le2(count) && h[12..16] == Le4(cdSize)
            && h[16..20] == Le4(cdOffset) && h[20..22] == Zeros(2)
  {
    hide Le2, Le4, Put, Zeros;
    var b1 := Put([], 0, Le4(END_SIGNATURE));
    var b2 := Put(b1, 8, Le2(count));
    var b3 := Put(b2, 10, Le2(count));
    var b4 := Put(b3, 12, Le4(cdSize));
    var b5 := Put(b4, 16, Le4(cdOffset));
    var h := Put(b5, 22, []);
    PutFields([], 0, Le4(END_SIGNATURE));
    PutFields(b1, 8, Le2(count));
    PutFields(b2, 10, Le2(count));
    PutFields(b3, 12, Le4(cdSize));
    PutFields(b4, 16, Le4(cdOffset));
    PutFields(b5, 22, []);
    PrefixSlice(b1, h, 0, 4);
    PrefixSlice(b2, h, 8, 10);
    PrefixSlice(b3, h, 10, 12);
    PrefixSlice(b4, h, 12, 16);
    PrefixSlice(b5, h, 16, 20);
  }

  lemma FieldValues(v: nat)
    ensures FromLittleEndian(Le4(v)) == v % U32
    ensures FromLittleEndian(Le2(v)) == v % 65536
    ensures FromLittleEndian(Zeros(2)) == 0
  {
    LittleEndianKeeps(v, 4);
    LittleEndianKeeps(v, 2);
    PowersOf256();
    assert Zeros(2)[1..][1..] == [];
    assert FromLittleEndian(Zeros(2)) == 256 * FromLittleEndian(Zeros(2)[1..]);
  }

  /** Parts of a piece found in the archive are found at the corresponding place. */
  lemma AtSlice(z: Bytes, p: nat, s: Bytes, i: nat, j: nat)
    requires At(z, p, s) && i <= j <= |s|
    ensures At(z, p + i, s[i..j])
  {
    assert forall k :: i <= k < j ==> s[k] == z[p + k];
  }

  lemma Field4(z: Bytes, p: nat, s: Bytes, i: nat, v: nat)
    requires At(z, p, s) && i + 4 <= |s| && s[i..i + 4] == Le4(v)
    ensures p + i + 4 <= |z| && U32At(z, p + i) == v % U32
  {
    AtSlice(z, p, s, i, i + 4);
    FieldValues(v);
  }

  lemma Field2(z: Bytes, p: nat, s: Bytes, i: nat, v: nat)
    requires At(z, p, s) && i + 2 <= |s| && (s[i..i + 2] == Le2(v) || (v == 0 && s[i..i + 2] == Zeros(2)))
    ensures p + i + 2 <= |z| && U16At(z, p + i) == v % 65536
  {
    AtSlice(z, p, s, i, i + 2);
    FieldValues(v);
  }

  lemma FlattenAt(parts: seq<Bytes>, i: nat)
    requires i < |parts|
    ensures At(Flatten(parts), |Flatten(parts[..i])|, parts[i])
  {
    FlattenAppend(parts[..i + 1], parts[i + 1..]);
    assert parts == parts[..i + 1] + parts[i + 1..];
    PartAppended(parts, i);
  }

  lemma AtInside(z: Bytes, base: nat, whole: Bytes, p: nat, s: Bytes)
    requires At(z, base, whole) && At(whole, p, s)
    ensures At(z, base + p, s)
  {
    AtSlice(z, base, whole, p, p + |s|);
  }

  lemma LocalReads(z: Bytes, p: nat, e: Entry)
    requires At(z, p, LocalPart(e)) && |e.name| < 65536 && |e.data| < U32
    ensures ReadLocal(z, p, e.name, |e.data|, CrcOf(e.data)) == Some(e.data)
  {
    hide CrcOf, LocalHeader, Le2, Le4, Zeros, U16At, U32At, At;
    var h := LocalHeader(e.name, |e.data|, CrcOf(e.data));
    HeaderThenData(z, p, h, e.data);
    LocalFields(e.name, |e.data|, CrcOf(e.data));
    Field4(z, p, h, 0, LOCAL_SIGNATURE);
    Field2(z, p, h, 8, 0);
    Field4(z, p, h, 14, CrcOf(e.data));
    Field4(z, p, h, 18, |e.data|);
    Field4(z, p, h, 22, |e.data|);
    CrcFits(e.data);
    Field2(z, p, h, 26, |e.name|);
    Field2(z, p, h, 28, 0);
    AtSlice(z, p, h, 30, 30 + |e.name|);
    AtIs(z, p + 30, e.name);
    AtIs(z, p + |h|, e.data);
  }

  lemma HeaderThenData(z: Bytes, p: nat, h: Bytes, data: Bytes)
    requires At(z, p, h + data)
    ensures At(z, p, h) && At(z, p + |h|, data)
  {
    AtSlice(z, p, h + data, 0, |h|);
    AtSlice(z, p, h + data, |h|, |h + data|);
    assert (h + data)[0..|h|] == h && (h + data)[|h|..|h + data|] == data;
  }

  /** What the directory reader needs to find, from header i on. */
  ghost predicate Findable(z: Bytes, base: nat, es: seq<Entry>) {
    && (forall j :: 0 <= j < |es| ==> At(z, TrueOffset(es, j), LocalPart(es[j])))
    && (forall j :: 0 <= j < |es| ==> At(z, base + |Flatten(Centrals(es)[..j])|, Centrals(es)[j]))
  }

  /** The directory header at p names entry i correctly. */
  lemma CentralReads(z: Bytes, p: nat, e: Entry, offset: nat)
    requires At(z, p, CentralHeader(e.name, |e.data|, CrcOf(e.data), offset))
    requires |e.name| < 65536 && |e.data| < U32 && offset < U32
    ensures p + 46 + |e.name| <= |z|
    ensures U32At(z, p) == CENTRAL_SIGNATURE && U16At(z, p + 10) == 0
    ensures U16At(z, p + 28) == |e.name| && U16At(z, p + 30) == 0 && U16At(z, p + 32) == 0
    ensures U32At(z, p + 42) == offset && U32At(z, p + 20) == U32At(z, p + 24) == |e.data| && U32At(z, p + 16) == CrcOf(e.data)
    ensures z[p + 46..p + 46 + |e.name|] == e.name
  {
    hide CrcOf, CentralHeader, Le2, Le4, U16At, U32At, At, Zeros;
    var h := CentralHeader(e.name, |e.data|, CrcOf(e.data), offset);
    CentralFields(e.name, |e.data|, CrcOf(e.data), offset);
    Field4(z, p, h, 0, CENTRAL_SIGNATURE);
    Field2(z, p, h, 10, 0);
    Field4(z, p, h, 16, CrcOf(e.data));
    Field4(z, p, h, 20, |e.data|);
    Field4(z, p, h, 24, |e.data|);
    Field2(z, p, h, 28, |e.name|);
    ZerosInside(h);
    Field2(z, p, h, 30, 0);
    Field2(z, p, h, 32, 0);
    Field4(z, p, h, 42, offset);
    AtSlice(z, p, h, 46, 46 + |e.name|);
    AtIs(z, p + 46, e.name);
    CrcFits(e.data);
  }

  lemma ZerosInside(h: Bytes)
    requires |h| >= 42 && h[30..42] == Zeros(12)
    ensures h[30..32] == Zeros(2) && h[32..34] == Zeros(2)
  {
    assert forall k :: 30 <= k < 42 ==> h[k] == h[30..42][k - 30];
  }

  lemma AtIs(z: Bytes, p: nat, s: Bytes)
    requires At(z, p, s)
    ensures p + |s| <= |z| && z[p..p + |s|] == s
  {
  }

  lemma CrcFits(data: Bytes)
    ensures CrcOf(data) < U32
  {
    hide Crc32;
  }

  lemma {:induction false} DirectoryReads(z: Bytes, base: nat, es: seq<Entry>, i: nat)
    requires i <= |es| && Findable(z, base, es)
    requires forall j :: 0 <= j < |es| ==> |es[j].name| < 65536 && |es[j].data| < U32 && TrueOffset(es, j) < U32
    ensures ReadDirectory(z, base + |Flatten(Centrals(es)[..i])|, |es| - i) == Some(es[i..])
    decreases |es| - i
  {
    hide Crc32, ReadLocal, LocalPart, CentralHeader, TrueOffset, U16At, U32At;
    if i < |es| {
      var p := base + |Flatten(Centrals(es)[..i])|;
      var e := es[i];
      CentralReads(z, p, e, TrueOffset(es, i));
      LocalReads(z, TrueOffset(es, i), e);
      PartAppended(Centrals(es), i);
      DirectoryReads(z, base, es, i + 1);
      assert es[i..] == [e] + es[i + 1..];
    }
  }

  lemma AssembledParts(locals: Bytes, centrals: Bytes, count: nat)
    ensures var z := Assembled(locals, centrals, count);
            && At(z, 0, locals) && At(z, |locals|, centrals)
            && |z| == |locals| + |centrals| + 22
            && At(z, |z| - 22, EndRecord(count, |centrals|, |locals|))
  {
    hide EndRecord;
  }

  lemma PartIsFound(parts: seq<Bytes>, dir: seq<Bytes>, count: nat, j: nat)
    requires j < |parts| == |dir|
    ensures var z := Assembled(Flatten(parts), Flatten(dir), count);
            && At(z, |Flatten(parts[..j])|, parts[j])
            && At(z, |Flatten(parts)| + |Flatten(dir[..j])|, dir[j])
            && |Flatten(parts[..j])| + |parts[j]| <= |Flatten(parts)|
  {
    var locals, centrals := Flatten(parts), Flatten(dir);
    var p, q := |Flatten(parts[..j])|, |Flatten(dir[..j])|;
    hide Assembled, At;
    FlattenAt(parts, j);
    FlattenAt(dir, j);
    FoundInside(locals, centrals, count, p, parts[j], q, dir[j]);
  }

  lemma FoundInside(locals: Bytes, centrals: Bytes, count: nat, p: nat, local: Bytes, q: nat, central: Bytes)
    requires At(locals, p, local) && At(centrals, q, central)
    ensures var z := Assembled(locals, centrals, count);
            At(z, p, local) && At(z, |locals| + q, central) && p + |local| <= |locals|
  {
    hide Assembled, At;
    var z := Assembled(locals, centrals, count);
    AssembledParts(locals, centrals, count);
    AtIs(locals, p, local);
    AtInside(z, 0, locals, p, local);
    AtInside(z, |locals|, centrals, q, central);
  }

  lemma EntryIsFound(es: seq<Entry>, j: nat)
    requires j < |es|
    ensures At(Archive(es), TrueOffset(es, j), LocalPart(es[j]))
    ensures At(Archive(es), |Flatten(Locals(es))| + |Flatten(Centrals(es)[..j])|, Centrals(es)[j])
    ensures TrueOffset(es, j) + |LocalPart(es[j])| <= |Flatten(Locals(es))|
  {
    hide LocalPart, Assembled, At, Centrals;
    PartIsFound(Locals(es), Centrals(es), |es|, j);
  }

  lemma ArchiveIsFindable(es: seq<Entry>)
    ensures Findable(Archive(es), |Flatten(Locals(es))|, es)
    ensures forall j :: 0 <= j < |es| ==> TrueOffset(es, j) + |LocalPart(es[j])| <= |Flatten(Locals(es))|
  {
    hide LocalPart, Archive, At, TrueOffset, Locals, Centrals;
    forall j | 0 <= j < |es|
      ensures At(Archive(es), TrueOffset(es, j), LocalPart(es[j]))
      ensures At(Archive(es), |Flatten(Locals(es))| + |Flatten(Centrals(es)[..j])|, Centrals(es)[j])
      ensures TrueOffset(es, j) + |LocalPart(es[j])| <= |Flatten(Locals(es))|
    {
      EntryIsFound(es, j);
    }
  }

  /** The size limits of the format the writer uses. */
  predicate Fits(es: seq<Entry>) {
    && |es| < 65536
    && (forall i :: 0 <= i < |es| ==> |es[i].name| < 65536)
    && |Archive(es)| < U32
  }

  lemma EndReads(locals: Bytes, centrals: Bytes, count: nat)
    requires count < 65536 && |locals| < U32 && |centrals| < U32
    ensures var z := Assembled(locals, centrals, count);
            var e := |z| - 22;
            && |z| == |locals| + |centrals| + 22
            && U32At(z, e) == END_SIGNATURE && U16At(z, e + 20) == 0 && U16At(z, e + 8) == U16At(z, e + 10) == count
            && U32At(z, e + 16) == |locals| && U32At(z, e + 12) == |centrals|
  {
    hide EndRecord, At, U16At, U32At, Le2, Le4, Zeros, Assembled;
    var z := Assembled(locals, centrals, count);
    var r := EndRecord(count, |centrals|, |locals|);
    var e := |z| - 22;
    AssembledParts(locals, centrals, count);
    EndFields(count, |centrals|, |locals|);
    Field4(z, e, r, 0, END_SIGNATURE);
    Field2(z, e, r, 8, count);
    Field2(z, e, r, 10, count);
    Field4(z, e, r, 12, |centrals|);
    Field4(z, e, r, 16, |locals|);
    Field2(z, e, r, 20, 0);
  }

  /** Reading a written archive gives back the same entries in the same order, checksums verified. */
  lemma ZipRoundTrip(es: seq<Entry>)
    requires Fits(es)
    ensures ReadArchive(Archive(es)) == Some(es)
  {
    hide Assembled, Findable, U16At, U32At, Flatten, ReadDirectory;
    var locals, centrals := Flatten(Locals(es)), Flatten(Centrals(es));
    hide Locals, Centrals, TrueOffset;
    ArchiveIsFindable(es);
    AssembledParts(locals, centrals, |es|);
    EndReads(locals, centrals, |es|);
    forall j | 0 <= j < |es|
      ensures |es[j].name| < 65536 && |es[j].data| < U32 && TrueOffset(es, j) < U32
    {
      LocalLength(es[j]);
    }
    DirectoryReads(Archive(es), |locals|, es, 0);
    NoHeadersYet(es);
  }

  lemma LocalLength(e: Entry)
    ensures |LocalPart(e)| == 30 + |e.name| + |e.data|
  {
  }

  lemma NoHeadersYet(es: seq<Entry>)
    ensures Flatten(Centrals(es)[..0]) == [] && es[0..] == es
  {
  }

  /** The offset recorded for an entry is where its local header starts exactly while that fits 32 bits. */
  lemma RecordedOffsetIff(es: seq<Entry>, i: nat)
    requires i < |es|
    ensures U32At(Centrals(es)[i], 42) == TrueOffset(es, i) <==> TrueOffset(es, i) < U32
    ensures At(Archive(es), TrueOffset(es, i), LocalPart(es[i]))
  {
    hide CrcOf, Le4, Archive, CentralHeader, LocalPart, TrueOffset;
    var e := es[i];
    ArchiveIsFindable(es);
    CentralFields(e.name, |e.data|, CrcOf(e.data), TrueOffset(es, i));
    FieldValues(TrueOffset(es, i));
  }
}
