/** The combine primitive of package xor: position-wise exclusive-or of two
    byte strings, truncated to the shorter one. */
module Xor {

  function Min(a: int, b: int): int
  {
    if a < b then a else b
  }

  /** The bytes of `a` XOR-ed with the bytes of `b`, as many as the shorter
      of the two has: the value the Go function XOR returns after filling a
      buffer of the longer length with BufXOR and slicing it down to the
      count BufXOR reports. */
  function XOR(a: seq<bv8>, b: seq<bv8>): seq<bv8>
  {
    seq(Min(|a|, |b|), i requires 0 <= i < Min(|a|, |b|) => a[i] ^ b[i])
  }

  /** BufXOR writes the XOR of `a` and `b` into the front of `dst` and
      returns how many bytes it wrote; `dst` must be at least that long
      (in Go a shorter `dst` is an index-out-of-range panic). */
  method BufXOR(dst: array<bv8>, a: seq<bv8>, b: seq<bv8>) returns (n: int)
    requires Min(|a|, |b|) <= dst.Length
    modifies dst
    ensures n == Min(|a|, |b|)
    ensures dst[..n] == XOR(a, b)
    ensures dst[n..] == old(dst[n..])
  {
    n := |a|;
    if |b| < n {
      n := |b|;
    }
    var i := 0;
    while i < n
      invariant 0 <= i <= n
      invariant forall j :: 0 <= j < i ==> dst[j] == a[j] ^ b[j]
      invariant dst[n..] == old(dst[n..])
    {
      dst[i] := a[i] ^ b[i];
      i := i + 1;
    }
  }

  /** The Go function XOR: a fresh buffer as long as the longer input,
      filled by BufXOR and cut down to the count it reports. */
  method XorToNewBuffer(a: seq<bv8>, b: seq<bv8>) returns (r: seq<bv8>)
    ensures |r| == Min(|a|, |b|)
    ensures forall i :: 0 <= i < |r| ==> r[i] == a[i] ^ b[i]
  {
    var size := |a|;
    if |b| > size {
      size := |b|;
    }
    var buf := new bv8[size];
    var n := BufXOR(buf, a, b);
    r := buf[..n];
  }

  /** XOR is its own inverse: for a plaintext and a key of equal length,
      XOR-ing the ciphertext with either one gives back the other. */
  lemma {:induction false} XorInvolution(p: seq<bv8>, k: seq<bv8>)
    requires |p| == |k|
    ensures XOR(p, XOR(p, k)) == k
    ensures XOR(k, XOR(p, k)) == p
  {
    var c := XOR(p, k);
    assert XOR(p, c) == k by {
      forall i | 0 <= i < |k| ensures XOR(p, c)[i] == k[i] {
        assert p[i] ^ (p[i] ^ k[i]) == k[i];
      }
    }
    assert XOR(k, c) == p by {
      forall i | 0 <= i < |p| ensures XOR(k, c)[i] == p[i] {
        assert k[i] ^ (p[i] ^ k[i]) == p[i];
      }
    }
  }

  /** Only the first Min(|a|, |b|) bytes of either input matter: a key longer
      than the data gives the same result as the key cut to the data's
      length. */
  lemma {:induction false} XorUsesCommonPrefix(a: seq<bv8>, b: seq<bv8>)
    ensures XOR(a, b) == XOR(a[..Min(|a|, |b|)], b[..Min(|a|, |b|)])
  {
    var m := Min(|a|, |b|);
    var a', b' := a[..m], b[..m];
    var lhs, rhs := XOR(a, b), XOR(a', b');
    assert |lhs| == m == |rhs|;
    forall i | 0 <= i < m ensures lhs[i] == rhs[i] {
      assert a'[i] == a[i] && b'[i] == b[i];
    }
    assert lhs == rhs;
  }

  /** XOR distributes over concatenation when the first halves line up. */
  lemma {:induction false} XorAppend(a1: seq<bv8>, a2: seq<bv8>, b1: seq<bv8>, b2: seq<bv8>)
    requires |a1| == |b1|
    ensures XOR(a1 + a2, b1 + b2) == XOR(a1, b1) + XOR(a2, b2)
  {
    var lhs, rhs := XOR(a1 + a2, b1 + b2), XOR(a1, b1) + XOR(a2, b2);
    forall i | 0 <= i < |lhs| ensures lhs[i] == rhs[i] {
      if i < |a1| {
        assert (a1 + a2)[i] == a1[i] && (b1 + b2)[i] == b1[i];
      } else {
        assert (a1 + a2)[i] == a2[i - |a1|] && (b1 + b2)[i] == b2[i - |b1|];
      }
    }
  }

  /** Splitting both inputs into a head and a tail and XOR-ing head with head
      and tail with tail gives the whole XOR, provided the heads have equal
      length or the shorter head is already all of its input (so its tail is
      empty and the surplus of the other head is beyond the shorter input). */
  lemma {:induction false} XorChunked(a: seq<bv8>, b: seq<bv8>, k1: nat, k2: nat)
    requires k1 <= |a| && k2 <= |b|
    requires k1 == k2 || (k1 < k2 && k1 == |a|) || (k2 < k1 && k2 == |b|)
    ensures XOR(a, b) == XOR(a[..k1], b[..k2]) + XOR(a[k1..], b[k2..])
  {
    if k1 == k2 {
      assert a == a[..k1] + a[k1..] && b == b[..k2] + b[k2..];
      XorAppend(a[..k1], a[k1..], b[..k2], b[k2..]);
    } else {
      assert XOR(a[k1..], b[k2..]) == [];
      var a', b' := a[..k1], b[..k2];
      var lhs, rhs := XOR(a, b), XOR(a', b');
      assert |lhs| == |rhs|;
      forall i | 0 <= i < |lhs| ensures lhs[i] == rhs[i] {
        assert a'[i] == a[i] && b'[i] == b[i];
      }
      assert lhs == rhs;
    }
  }

  /** The single-byte vector of the package's basic I/O test:
      plaintext 01010100, key 10010011, ciphertext 11000111. */
  lemma BasicIOVector()
    ensures XOR([0x54], [0x93]) == [0xC7]
    ensures XOR([0xC7], [0x93]) == [0x54]
    ensures XOR([0x54], [0xC7]) == [0x93]
  {
  }
}
