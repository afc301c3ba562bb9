/** A buffer that is written one element after the other from some position on, wrapping
    around at its end.  The page cache (modulo 256), the data store and the mirror
    (both modulo 16 MB) are all such rings. */
module Ring {
  import opened Geometry

  /** The index that the k-th element from position pos on occupies. */
  function At(pos: nat, k: nat, size: nat): (a: nat)
    requires size > 0
    ensures a < size
  {
    (pos + k) % size
  }

  /** What index a holds after s[0], s[1], ... have been written to the indices from pos on:
      the last of these elements that lands there, or else what it held before. */
  function LastWrite(base: seq<Byte>, pos: nat, s: seq<Byte>, a: nat): Byte
    requires a < |base|
  {
    if s == [] then base[a]
    else
      var n := |s| - 1;
      if At(pos, n, |base|) == a then s[n] else LastWrite(base, pos, s[..n], a)
  }

  function Put(base: seq<Byte>, pos: nat, s: seq<Byte>): (r: seq<Byte>)
    requires |base| > 0
    ensures |r| == |base|
  {
    seq(|base|, a requires 0 <= a < |base| => LastWrite(base, pos, s, a))
  }

  /** The n elements read one after the other from position pos on. */
  function Get(base: seq<Byte>, pos: nat, n: nat): (r: seq<Byte>)
    requires |base| > 0
    ensures |r| == n
  {
    seq(n, i requires 0 <= i < n => base[At(pos, i, |base|)])
  }

  function Zeros(n: nat): (r: seq<Byte>)
    ensures |r| == n && forall i :: 0 <= i < n ==> r[i] == 0
  {
    seq(n, _ => 0)
  }

  /** k is the last of the n elements written from position pos on that lands on index a. */
  ghost predicate LastHit(size: nat, pos: nat, n: nat, a: nat, k: nat)
    requires size > 0
  {
    k < n && At(pos, k, size) == a && forall j :: k < j < n ==> At(pos, j, size) != a
  }

  /** The last write to an index wins, and an index that is never written keeps its value. */
  lemma {:induction false} LastWriteWins(base: seq<Byte>, pos: nat, s: seq<Byte>, a: nat)
    requires a < |base|
    ensures forall k: nat :: LastHit(|base|, pos, |s|, a, k) ==> Put(base, pos, s)[a] == s[k]
    ensures (forall j :: 0 <= j < |s| ==> At(pos, j, |base|) != a) ==> Put(base, pos, s)[a] == base[a]
  {
    if s != [] {
      var n := |s| - 1;
      LastWriteWins(base, pos, s[..n], a);
      forall k: nat | LastHit(|base|, pos, |s|, a, k) ensures Put(base, pos, s)[a] == s[k] {
        assert k < n ==> LastHit(|base|, pos, n, a, k);
      }
    }
  }

  lemma PutNothing(base: seq<Byte>, pos: nat)
    requires |base| > 0
    ensures Put(base, pos, []) == base
  {
  }

  /** Writing one more element. */
  lemma PutSnoc(base: seq<Byte>, pos: nat, s: seq<Byte>, x: Byte)
    requires |base| > 0
    ensures Put(base, pos, s + [x]) == Put(base, pos, s)[At(pos, |s|, |base|) := x]
  {
    assert (s + [x])[..|s|] == s;
  }

  /** Writing s and then t is writing s + t. */
  lemma {:induction false} PutConcat(base: seq<Byte>, pos: nat, s: seq<Byte>, t: seq<Byte>)
    requires |base| > 0
    ensures Put(Put(base, pos, s), pos + |s|, t) == Put(base, pos, s + t)
  {
    forall a | 0 <= a < |base|
      ensures LastWrite(Put(base, pos, s), pos + |s|, t, a) == LastWrite(base, pos, s + t, a)
    {
      LastWriteConcat(base, pos, s, t, a);
    }
  }

  lemma {:induction false} LastWriteConcat(base: seq<Byte>, pos: nat, s: seq<Byte>, t: seq<Byte>, a: nat)
    requires a < |base|
    ensures LastWrite(Put(base, pos, s), pos + |s|, t, a) == LastWrite(base, pos, s + t, a)
  {
    if t == [] {
      assert s + t == s;
    } else {
      var n := |t| - 1;
      LastWriteConcat(base, pos, s, t[..n], a);
      assert (s + t)[..|s| + n] == s + t[..n];
      assert At(pos + |s|, n, |base|) == At(pos, |s| + n, |base|);
    }
  }

  lemma PutJoin(base: seq<Byte>, pos: nat, s: seq<Byte>, next: nat, t: seq<Byte>, u: seq<Byte>)
    requires |base| > 0 && next == pos + |s| && u == s + t
    ensures Put(Put(base, pos, s), next, t) == Put(base, pos, u)
  {
    PutConcat(base, pos, s, t);
  }

  lemma ModUnique(q: int, r: nat, size: nat)
    requires r < size && q * size + r >= 0
    ensures (q * size + r) % size == r
  {
    var x := q * size + r;
    var e := x / size - q;
    assert e * size == r - x % size;
  }

  lemma ModSum(p: nat, n: nat, size: nat)
    requires size > 0
    ensures At(p % size, n, size) == At(p, n, size)
  {
    var x := p % size + n;
    var q := p / size + x / size;
    assert p + n == q * size + x % size;
    ModUnique(q, x % size, size);
  }

  /** Only the position modulo the size of the ring matters. */
  lemma PutWraps(base: seq<Byte>, pos: nat, s: seq<Byte>)
    requires |base| > 0
    ensures Put(base, pos % |base|, s) == Put(base, pos, s)
  {
    forall a | 0 <= a < |base|
      ensures LastWrite(base, pos % |base|, s, a) == LastWrite(base, pos, s, a)
    {
      LastWriteWraps(base, pos, s, a);
    }
  }

  lemma {:induction false} LastWriteWraps(base: seq<Byte>, pos: nat, s: seq<Byte>, a: nat)
    requires a < |base|
    ensures LastWrite(base, pos % |base|, s, a) == LastWrite(base, pos, s, a)
  {
    if s != [] {
      LastWriteWraps(base, pos, s[..|s| - 1], a);
      ModSum(pos, |s| - 1, |base|);
    }
  }

  /** A write that does not run past the end just replaces a slice. */
  lemma PutIsSplice(base: seq<Byte>, pos: nat, s: seq<Byte>)
    requires |base| > 0 && pos + |s| <= |base|
    ensures Put(base, pos, s) == base[..pos] + s + base[pos + |s|..]
  {
    forall a | 0 <= a < |base|
      ensures LastWrite(base, pos, s, a) == if pos <= a < pos + |s| then s[a - pos] else base[a]
    {
      LastWriteInside(base, pos, s, a);
    }
  }

  lemma {:induction false} LastWriteInside(base: seq<Byte>, pos: nat, s: seq<Byte>, a: nat)
    requires a < |base| && pos + |s| <= |base|
    ensures LastWrite(base, pos, s, a) == if pos <= a < pos + |s| then s[a - pos] else base[a]
  {
    if s != [] {
      LastWriteInside(base, pos, s[..|s| - 1], a);
      ModUnique(0, pos + |s| - 1, |base|);
    }
  }
}
