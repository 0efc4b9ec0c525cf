/**
  The binary Merkle tree (BMT) hash of bmt/bmt_r.go, and the value that each node
  of the pooled tree of bmt/bmt.go has to compute.

  The base hash is an arbitrary function on byte sequences and `size` is the
  segment size (the size of a base hash). A leaf of the tree covers a double
  segment, 2 * size bytes.
 */
module BmtReference {

  newtype Byte = x: int | 0 <= x < 0x100
  type Bytes = seq<Byte>
  type BaseHash = Bytes -> Bytes

  /** RefHasher: section is a double segment, span the left part of a full tree. */
  datatype RefHasher = RefHasher(section: nat, span: nat, cap: nat)

  /** Bytes covered by a node at height h; leaves have height 0. */
  function Width(size: nat, h: nat): (w: nat)
    ensures size > 0 ==> w > 0
  {
    if h == 0 then 2 * size else 2 * Width(size, h - 1)
  }

  lemma {:induction false} WidthMonotone(size: nat, g: nat, h: nat)
    requires g <= h
    ensures Width(size, g) <= Width(size, h)
    ensures size > 0 && g < h ==> 2 * Width(size, g) <= Width(size, h)
    decreases h
  {
    if g < h {
      WidthMonotone(size, g, h - 1);
    }
  }

  /** The span s is halved until it is shorter than the data. */
  function Halve(s: nat, l: nat): (r: nat)
    requires l > 0
    ensures r <= s && r < l
    ensures s >= l ==> 2 * r + 2 > l
    ensures s < l ==> r == s
  {
    if s >= l then Halve(s / 2, l) else s
  }

  /** RefHasher.hash: the reference BMT hash of d with span s. */
  function RefHash(hash: BaseHash, size: nat, d: Bytes, s: nat): Bytes
    requires size > 0 && s > 0
    decreases |d|
  {
    if |d| > 2 * size then
      var t := Halve(s, |d|);
      var left := RefHash(hash, size, d[..t], t);
      var right := if |d| - t > size then RefHash(hash, size, d[t..], t) else d[t..];
      hash(left + right)
    else
      hash(d)
  }

  /** RefHasher.Hash: input beyond the capacity is ignored. */
  function RefHashOf(hash: BaseHash, size: nat, rh: RefHasher, d: Bytes): Bytes
    requires size > 0 && rh.span > 0
  {
    RefHash(hash, size, if |d| > rh.cap then d[..rh.cap] else d, rh.span)
  }

  /** The halving loop and the recursion of RefHasher.hash. */
  method Hash(hash: BaseHash, size: nat, d: Bytes, span: nat) returns (r: Bytes)
    requires size > 0 && span > 0
    ensures r == RefHash(hash, size, d, span)
    decreases |d|
  {
    var l := |d|;
    var left, right := d, [];
    if l > 2 * size {
      var s := span;
      while s >= l
        invariant s > 0
        invariant Halve(s, l) == Halve(span, l)
      {
        s := s / 2;
      }
      left := Hash(hash, size, d[..s], s);
      right := d[s..];
      if l - s > size {
        right := Hash(hash, size, right, s);
      }
    } else {
      assert d + [] == d;
    }
    r := hash(left + right);
  }

  function Pow2(e: nat): (p: nat)
    ensures p > 0
  {
    if e == 0 then 1 else 2 * Pow2(e - 1)
  }

  lemma {:induction false} WidthIsPower(size: nat, h: nat)
    ensures Width(size, h) == Pow2(h + 1) * size
  {
    if h > 0 {
      WidthIsPower(size, h - 1);
      assert (2 * Pow2(h)) * size == 2 * (Pow2(h) * size);
    } else {
      assert Pow2(1) == 2;
    }
  }

  lemma {:induction false} MulMonotone(a: nat, b: nat, k: nat)
    ensures a <= b ==> a * k <= b * k
    ensures a < b && k > 0 ==> a * k < b * k
  {
    if a <= b {
      assert b * k == a * k + (b - a) * k;
    }
  }

  /** NewRefHasher: the span is a node width, and a tree of twice the span holds all segments. */
  method NewRefHasher(size: nat, count: nat) returns (rh: RefHasher, ghost g: nat)
    requires size > 0
    ensures rh.section == 2 * size && rh.cap == count * size
    ensures rh.span == Width(size, g)
    ensures rh.cap <= Width(size, g + 1)
    ensures g > 0 ==> rh.cap > Width(size, g)
  {
    var c := 2;
    ghost var e := 0;
    while c < count
      invariant c == Pow2(e + 1)
      invariant e > 0 ==> Pow2(e) < count
      decreases count - c
    {
      c, e := c * 2, e + 1;
    }
    g := if e > 0 then e - 1 else 0;
    WidthIsPower(size, g);
    WidthIsPower(size, g + 1);
    MulMonotone(count, Pow2(g + 2), size);
    MulMonotone(Pow2(g + 1), count, size);
    if c > 2 {
      c := c / 2;
    }
    assert c == Pow2(g + 1);
    rh := RefHasher(2 * size, c * size, count * size);
  }

  /**
    What a node at height h passes to its parent when its part of the data is d:
    at most one segment goes up unhashed, a double segment is hashed once, and
    a node whose right half is empty passes on what its left child gave it.
   */
  function NodeValue(hash: BaseHash, size: nat, d: Bytes, h: nat): Bytes
    requires size > 0 && 0 < |d| <= Width(size, h)
    decreases h
  {
    if h == 0 then
      if |d| > size then hash(d) else d
    else
      var half := Width(size, h - 1);
      if |d| <= half then NodeValue(hash, size, d, h - 1)
      else hash(NodeValue(hash, size, d[..half], h - 1) + NodeValue(hash, size, d[half..], h - 1))
  }

  lemma {:induction false} ShortDataPassesUnhashed(hash: BaseHash, size: nat, d: Bytes, h: nat)
    requires size > 0 && 0 < |d| <= size && |d| <= Width(size, h)
    ensures NodeValue(hash, size, d, h) == d
    decreases h
  {
    if h > 0 {
      WidthMonotone(size, 0, h - 1);
      ShortDataPassesUnhashed(hash, size, d, h - 1);
    }
  }

  lemma {:induction false} HalveToWidth(size: nat, g: nat, h: nat, l: nat)
    requires size > 0 && h <= g
    requires Width(size, h) < l <= 2 * Width(size, h)
    ensures Halve(Width(size, g), l) == Width(size, h)
    decreases g
  {
    if h < g {
      WidthMonotone(size, h, g);
      HalveToWidth(size, g - 1, h, l);
    }
  }

  /** One level of the reference hash, for data that fills more than the left half of a node. */
  lemma {:induction false} RefHashSplits(hash: BaseHash, size: nat, d: Bytes, h: nat, g: nat)
    requires size > 0 && h <= g
    requires Width(size, h) < |d| <= 2 * Width(size, h)
    ensures var half := Width(size, h);
            var right := if |d| - half > size then RefHash(hash, size, d[half..], half) else d[half..];
            RefHash(hash, size, d, Width(size, g)) == hash(RefHash(hash, size, d[..half], half) + right)
  {
    WidthMonotone(size, 0, h);
    HalveToWidth(size, g, h, |d|);
  }

  /**
    For more than one segment of data the node value is the reference hash, for any
    span of which the data fits into twice.
   */
  lemma {:induction false} NodeValueIsRefHash(hash: BaseHash, size: nat, d: Bytes, h: nat, g: nat)
    requires size > 0 && size < |d| <= Width(size, h)
    requires |d| <= Width(size, g + 1)
    ensures NodeValue(hash, size, d, h) == RefHash(hash, size, d, Width(size, g))
    decreases h
  {
    if h == 0 {
    } else if |d| <= Width(size, h - 1) {
      NodeValueIsRefHash(hash, size, d, h - 1, g);
    } else {
      assert h - 1 <= g by {
        if g < h - 1 {
          WidthMonotone(size, g + 1, h - 1);
          assert false;
        }
      }
      RefHashSplits(hash, size, d, h - 1, g);
      HalvesAgree(hash, size, d, h);
    }
  }

  lemma {:induction false} HalvesAgree(hash: BaseHash, size: nat, d: Bytes, h: nat)
    requires size > 0 && h > 0 && Width(size, h - 1) < |d| <= Width(size, h)
    ensures var half := Width(size, h - 1);
            && NodeValue(hash, size, d[..half], h - 1) == RefHash(hash, size, d[..half], half)
            && NodeValue(hash, size, d[half..], h - 1)
               == if |d| - half > size then RefHash(hash, size, d[half..], half) else d[half..]
    decreases h, 1
  {
    var half := Width(size, h - 1);
    WidthMonotone(size, 0, h - 1);
    HalfAgrees(hash, size, d[..half], h - 1);
    HalfAgrees(hash, size, d[half..], h - 1);
  }

  lemma {:induction false} HalfAgrees(hash: BaseHash, size: nat, d: Bytes, h: nat)
    requires size > 0 && 0 < |d| <= Width(size, h)
    ensures NodeValue(hash, size, d, h) == if |d| > size then RefHash(hash, size, d, Width(size, h)) else d
    decreases h + 1, 0
  {
    if |d| > size {
      WidthMonotone(size, h, h + 1);
      NodeValueIsRefHash(hash, size, d, h, h);
    } else {
      ShortDataPassesUnhashed(hash, size, d, h);
    }
  }
}
