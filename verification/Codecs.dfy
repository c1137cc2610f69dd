/** The hypotheses on encodings can be met: a self-delimiting code for headers and sidecars. */
module Codecs {
  import opened Prelude
  import opened Receiver

  /** Each byte behind a 1, then a 0. */
  function PutText(s: Bytes): Bytes {
    if s == [] then [0] else [1, s[0]] + PutText(s[1..])
  }

  datatype Parsed = Parsed(text: Bytes, rest: Bytes)

  function GetText(z: Bytes): Option<Parsed> {
    if z == [] then None
    else if z[0] == 0 then Some(Parsed([], z[1..]))
    else if |z| < 2 then None
    else match GetText(z[2..])
      case None => None
      case Some(p) => Some(Parsed([z[1]] + p.text, p.rest))
  }

  lemma {:induction false} TextReadsBack(s: Bytes, rest: Bytes)
    ensures GetText(PutText(s) + rest) == Some(Parsed(s, rest))
  {
    var z := PutText(s) + rest;
    if s == [] {
      assert z[1..] == rest;
    } else {
      assert z[2..] == PutText(s[1..]) + rest;
      assert z[0] == 1 && z[1] == s[0] && [s[0]] + s[1..] == s;
      TextReadsBack(s[1..], rest);
    }
  }

  lemma {:induction false} CutTextFails(s: Bytes, n: nat)
    requires n < |PutText(s)|
    ensures GetText(PutText(s)[..n]) == None
  {
    if s != [] && n >= 2 {
      assert PutText(s)[..n][2..] == PutText(s[1..])[..n - 2];
      CutTextFails(s[1..], n - 2);
    }
  }

  function PutAll(fields: seq<Bytes>): Bytes {
    if fields == [] then [] else PutText(fields[0]) + PutAll(fields[1..])
  }

  /** Exactly k texts and nothing behind them. */
  function GetAll(z: Bytes, k: nat): Option<seq<Bytes>>
    decreases k
  {
    if k == 0 then if z == [] then Some([]) else None
    else match GetText(z)
      case None => None
      case Some(p) =>
        match GetAll(p.rest, k - 1)
        case None => None
        case Some(more) => Some([p.text] + more)
  }

  lemma {:induction false} AllReadBack(fields: seq<Bytes>)
    ensures GetAll(PutAll(fields), |fields|) == Some(fields)
  {
    if fields != [] {
      TextReadsBack(fields[0], PutAll(fields[1..]));
      AllReadBack(fields[1..]);
      assert [fields[0]] + fields[1..] == fields;
    }
  }

  lemma {:induction false} CutAllFails(fields: seq<Bytes>, n: nat)
    requires n < |PutAll(fields)|
    ensures GetAll(PutAll(fields)[..n], |fields|) == None
  {
    var first, more := PutText(fields[0]), PutAll(fields[1..]);
    var z := PutAll(fields)[..n];
    if n < |first| {
      assert z == first[..n];
      CutTextFails(fields[0], n);
    } else {
      assert z == first + more[..n - |first|];
      TextReadsBack(fields[0], more[..n - |first|]);
      CutAllFails(fields[1..], n - |first|);
    }
  }

  /** A sign, then as many bytes as the number is large. */
  function PutInt(n: int): Bytes {
    if n >= 0 then [0] + seq(n, _ => 0) else [1] + seq(-n, _ => 0)
  }

  function GetInt(s: Bytes): int {
    if s == [] then 0 else if s[0] == 0 then |s| - 1 else 1 - |s|
  }

  function EncodeMeta(m: PartialMeta): Bytes {
    PutAll([m.sha, PutInt(m.chunkSize), PutInt(m.bytesDone), PutInt(m.chunksDone)])
  }

  function DecodeMeta(z: Bytes): Option<PartialMeta> {
    match GetAll(z, 4)
    case None => None
    case Some(f) => if |f| == 4 then Some(PartialMeta(f[0], GetInt(f[1]), GetInt(f[2]), GetInt(f[3]))) else None
  }

  function EncodeHeader(h: FileHeader): Bytes {
    PutAll([h.name, PutInt(h.size), PutInt(h.chunkSize), h.sha, PutInt(h.chunks), h.message])
  }

  function DecodeHeader(z: Bytes): Option<FileHeader> {
    match GetAll(z, 6)
    case None => None
    case Some(f) =>
      if |f| == 6 then Some(FileHeader(f[0], GetInt(f[1]), GetInt(f[2]), f[3], GetInt(f[4]), f[5])) else None
  }

  /** Whatever the digest function, some encoding is lossless and refuses truncated sidecars. */
  lemma LosslessExists(sha: Bytes -> Bytes)
    ensures exists c: Codec :: c.sha == sha && Lossless(c)
  {
    hide PutAll, GetAll;
    var c := Codec(EncodeHeader, DecodeHeader, EncodeMeta, DecodeMeta, sha);
    forall h: FileHeader
      ensures c.decHeader(c.encHeader(h)) == Some(h)
    {
      AllReadBack([h.name, PutInt(h.size), PutInt(h.chunkSize), h.sha, PutInt(h.chunks), h.message]);
    }
    forall m: PartialMeta
      ensures c.decMeta(c.encMeta(m)) == Some(m)
    {
      AllReadBack([m.sha, PutInt(m.chunkSize), PutInt(m.bytesDone), PutInt(m.chunksDone)]);
    }
    forall m: PartialMeta, n: nat | n < |c.encMeta(m)|
      ensures c.decMeta(c.encMeta(m)[..n]) == None
    {
      CutAllFails([m.sha, PutInt(m.chunkSize), PutInt(m.bytesDone), PutInt(m.chunksDone)], n);
    }
    assert Lossless(c);
  }
}
