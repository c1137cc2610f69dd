/** Bytes, machine integers and the few sequence facts every other module uses. */
module Prelude {

  type Byte = x: int | 0 <= x < 256
  type Bytes = seq<Byte>

  const U32 := 0x1_0000_0000
  const U64 := 0x1_0000_0000_0000_0000
  const I64_LIMIT := 0x8000_0000_0000_0000

  datatype Option<+T> = None | Some(value: T)

  function Min(a: int, b: int): (r: int)
    ensures r <= a && r <= b && (r == a || r == b)
  {
    if a < b then a else b
  }

  /** The value a 64-bit signed integer holds after an operation whose exact result is x. */
  function Wrap64(x: int): (r: int)
    ensures -I64_LIMIT <= r < I64_LIMIT
    ensures -I64_LIMIT <= x < I64_LIMIT ==> r == x
  {
    (x + I64_LIMIT) % U64 - I64_LIMIT
  }

  /** Number of chunks of `size` bytes needed for `total` bytes, as Go's (total + size - 1) / size. */
  function ChunkCount(total: nat, size: nat): nat
    requires size >= 1
  {
    (total + size - 1) / size
  }

  /** Bytes in the first k chunks of `size` bytes out of `total`; the last chunk may be short. */
  function Covered(k: nat, size: nat, total: nat): (r: nat)
    ensures r <= total
  {
    Min(k * size, total)
  }

  lemma CoveredNext(k: nat, size: nat, total: nat)
    ensures k * size < total ==> Covered(k, size, total) == k * size
    ensures k * size < total ==> Covered(k + 1, size, total) == k * size + Min(size, total - k * size)
    ensures k * size >= total ==> Covered(k, size, total) == Covered(k + 1, size, total) == total
  {
    assert (k + 1) * size == k * size + size;
  }

  lemma ChunkCountIs(total: nat, size: nat, k: nat)
    requires size >= 1
    requires k * size >= total
    requires total > 0 ==> (k - 1) * size < total
    requires total == 0 ==> k == 0
    ensures ChunkCount(total, size) == k
  {
    if total > 0 {
      var r := total + size - 1 - k * size;
      assert total + size - 1 == k * size + r;
      assert (k - 1) * size == k * size - size;
      assert 0 <= r < size;
      DivUnique(total + size - 1, size, k, r);
    } else {
      DivUnique(size - 1, size, 0, size - 1);
    }
  }

  lemma DivUnique(x: int, d: int, q: int, r: int)
    requires d > 0 && 0 <= r < d && x == q * d + r
    ensures x / d == q && x % d == r
  {
    var q', r' := x / d, x % d;
    assert (q' - q) * d == r - r';
    if q' > q {
      MulMono(1, q' - q, d);
    } else if q' < q {
      MulMono(q' - q, -1, d);
    }
  }

  lemma MulMono(a: int, b: int, c: int)
    requires a <= b && 0 <= c
    ensures a * c <= b * c
  {
  }

  /** Concatenation of a list of byte strings, in order. */
  function Flatten(parts: seq<Bytes>): Bytes {
    if parts == [] then [] else parts[0] + Flatten(parts[1..])
  }

  lemma {:induction false} FlattenAppend(a: seq<Bytes>, b: seq<Bytes>)
    ensures Flatten(a + b) == Flatten(a) + Flatten(b)
  {
    if a == [] {
      assert a + b == b;
    } else {
      assert (a + b)[1..] == a[1..] + b;
      FlattenAppend(a[1..], b);
    }
  }

  lemma FlattenSnoc(a: seq<Bytes>, x: Bytes)
    ensures Flatten(a + [x]) == Flatten(a) + x
  {
    FlattenAppend(a, [x]);
    assert Flatten([x]) == x + Flatten([]);
  }

  lemma SliceSlice<T>(s: seq<T>, i: nat, j: nat, k: nat)
    requires i <= j <= k <= |s|
    ensures s[i..j] + s[j..k] == s[i..k]
  {
  }
}
