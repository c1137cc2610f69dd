/** Fixed-width big- and little-endian integers, as encoding/binary and putUint32LE lay them out. */
module Endian {
  import opened Prelude

  function Pow256(n: nat): (p: nat)
    ensures p >= 1
  {
    if n == 0 then 1 else 256 * Pow256(n - 1)
  }

  function BigEndian(v: nat, n: nat): (b: Bytes)
    ensures |b| == n
  {
    if n == 0 then [] else BigEndian(v / 256, n - 1) + [v % 256]
  }

  function FromBigEndian(b: Bytes): nat {
    if b == [] then 0 else FromBigEndian(b[..|b| - 1]) * 256 + b[|b| - 1]
  }

  function LittleEndian(v: nat, n: nat): (b: Bytes)
    ensures |b| == n
  {
    if n == 0 then [] else [v % 256] + LittleEndian(v / 256, n - 1)
  }

  function FromLittleEndian(b: Bytes): nat {
    if b == [] then 0 else b[0] + 256 * FromLittleEndian(b[1..])
  }

  lemma {:induction false} SplitMod(v: nat, p: nat)
    requires p >= 1
    ensures v % (256 * p) == 256 * (v / 256 % p) + v % 256
  {
    var w, r := v / 256, v % 256;
    var q, t := w / p, w % p;
    assert w == q * p + t;
    assert v == 256 * (q * p + t) + r;
    assert 256 * (q * p) == q * (256 * p);
    DivUnique(v, 256 * p, q, 256 * t + r);
  }

  /** Writing n bytes keeps exactly the value modulo 256^n: what does not fit is lost, nothing else. */
  lemma {:induction false} BigEndianKeeps(v: nat, n: nat)
    ensures FromBigEndian(BigEndian(v, n)) == v % Pow256(n)
  {
    if n > 0 {
      var b := BigEndian(v, n);
      assert b[..n - 1] == BigEndian(v / 256, n - 1);
      BigEndianKeeps(v / 256, n - 1);
      SplitMod(v, Pow256(n - 1));
    }
  }

  lemma {:induction false} LittleEndianKeeps(v: nat, n: nat)
    ensures FromLittleEndian(LittleEndian(v, n)) == v % Pow256(n)
  {
    if n > 0 {
      var b := LittleEndian(v, n);
      assert b[1..] == LittleEndian(v / 256, n - 1);
      LittleEndianKeeps(v / 256, n - 1);
      SplitMod(v, Pow256(n - 1));
    }
  }

  lemma {:induction false} BigEndianOnto(b: Bytes)
    ensures BigEndian(FromBigEndian(b), |b|) == b
    ensures FromBigEndian(b) < Pow256(|b|)
  {
    if b != [] {
      var n := |b|;
      var v := FromBigEndian(b);
      BigEndianOnto(b[..n - 1]);
      DivUnique(v, 256, FromBigEndian(b[..n - 1]), b[n - 1]);
      assert b == b[..n - 1] + [b[n - 1]];
    }
  }

  lemma PowersOf256()
    ensures Pow256(2) == 65536 && Pow256(4) == U32 && Pow256(8) == U64
  {
    assert Pow256(2) == 256 * 256;
    assert Pow256(4) == 256 * 256 * Pow256(2);
    assert Pow256(6) == 256 * 256 * Pow256(4);
    assert Pow256(8) == 256 * 256 * Pow256(6);
  }
}
