// Byte sequences and the small helpers shared by the RAM-disk stream, the
// virtual-disk dispatch and the chipset model.

module Common {

  datatype Option<+T> = None | Some(value: T)

  function Min(a: int, b: int): int { if a <= b then a else b }

  function Max(a: int, b: int): int { if a <= b then b else a }

  /** `n` zero bytes: the `memset(zero_buffer, 0, 512)` of the format path. */
  function Zeros(n: nat): (z: seq<bv8>)
    ensures |z| == n
    ensures forall i :: 0 <= i < n ==> z[i] == 0
  {
    seq(n, _ => 0)
  }

  /** `s` with the bytes at `[at, at + |d|)` replaced by `d`: a `memcpy` into
      memory that is already large enough. */
  function Splice(s: seq<bv8>, at: nat, d: seq<bv8>): (r: seq<bv8>)
    requires at + |d| <= |s|
    ensures |r| == |s|
    ensures r[at..at + |d|] == d
    ensures forall i :: 0 <= i < |s| && !(at <= i < at + |d|) ==> r[i] == s[i]
  {
    s[..at] + d + s[at + |d|..]
  }

  /** A sequence of the same length that agrees with `d` on `[at, at + |d|)`
      and with `s` elsewhere is the splice. */
  lemma SpliceCharacterised(s: seq<bv8>, at: nat, d: seq<bv8>, t: seq<bv8>)
    requires at + |d| <= |s| && |t| == |s|
    requires t[at..at + |d|] == d
    requires forall i :: 0 <= i < |s| && !(at <= i < at + |d|) ==> t[i] == s[i]
    ensures t == Splice(s, at, d)
  {
    var r := Splice(s, at, d);
    forall i | 0 <= i < |s| ensures t[i] == r[i] {
      if at <= i < at + |d| {
        assert t[i] == t[at..at + |d|][i - at] == d[i - at];
        assert r[i] == r[at..at + |d|][i - at];
      }
    }
  }

  /** Two copies that follow each other are one copy of the joined data. */
  lemma SpliceConsecutive(s: seq<bv8>, at: nat, x: seq<bv8>, y: seq<bv8>)
    requires at + |x| + |y| <= |s|
    ensures Splice(Splice(s, at, x), at + |x|, y) == Splice(s, at, x + y)
  {
    var lhs := Splice(Splice(s, at, x), at + |x|, y);
    var rhs := Splice(s, at, x + y);
    forall i | 0 <= i < |s| ensures lhs[i] == rhs[i] {
      if at <= i < at + |x| {
        assert lhs[i] == Splice(s, at, x)[i] == x[i - at];
        assert rhs[i] == (x + y)[i - at];
      } else if at + |x| <= i < at + |x| + |y| {
        assert lhs[i] == y[i - at - |x|];
        assert rhs[i] == (x + y)[i - at];
      }
    }
  }

  /** A host file after `fseek(at)` and `fwrite(d)`: a write past the end of
      the file extends it, and the gap between the old end and `at` reads as
      zero bytes. Writing nothing leaves the file as it is, even when `at`
      lies past its end. */
  function Overwrite(f: seq<bv8>, at: nat, d: seq<bv8>): (r: seq<bv8>)
    ensures |d| == 0 ==> r == f
    ensures 0 < |d| ==> |r| == Max(|f|, at + |d|) && r[at..at + |d|] == d
    ensures 0 < |d| ==> forall i :: |f| <= i < at ==> r[i] == 0
    ensures forall i :: 0 <= i < |f| && !(at <= i < at + |d|) ==> r[i] == f[i]
  {
    if |d| == 0 then f
    else
      var padded := if at <= |f| then f else f + Zeros(at - |f|);
      padded[..at] + d + (if at + |d| <= |padded| then padded[at + |d|..] else [])
  }

  /** Writing `x` and then `y` right after it is writing `x + y` once. */
  lemma OverwriteConsecutive(f: seq<bv8>, at: nat, x: seq<bv8>, y: seq<bv8>)
    ensures Overwrite(Overwrite(f, at, x), at + |x|, y) == Overwrite(f, at, x + y)
  {
    var lhs := Overwrite(Overwrite(f, at, x), at + |x|, y);
    var rhs := Overwrite(f, at, x + y);
    assert |lhs| == |rhs|;
    forall i | 0 <= i < |lhs| ensures lhs[i] == rhs[i] {
      if i < at {
      } else if i < at + |x| {
        assert lhs[i] == Overwrite(f, at, x)[i] == x[i - at];
        assert rhs[i] == (x + y)[i - at];
      } else if i < at + |x| + |y| {
        assert lhs[i] == y[i - at - |x|];
        assert rhs[i] == (x + y)[i - at];
      }
    }
  }

  /** What `fseek(at)` and `fread` of `n` bytes obtain from a host file: the
      bytes that exist, which may be fewer than `n` near the end. */
  function FileRead(f: seq<bv8>, at: nat, n: nat): (r: seq<bv8>)
    ensures |r| == if at < |f| then Min(n, |f| - at) else 0
    ensures forall i :: 0 <= i < |r| ==> r[i] == f[at + i]
  {
    f[Min(at, |f|)..Min(at + n, |f|)]
  }

  /** Reading back what was just written at the same place returns it. */
  lemma FileReadAfterOverwrite(f: seq<bv8>, at: nat, d: seq<bv8>)
    ensures FileRead(Overwrite(f, at, d), at, |d|) == d
  {
    if 0 < |d| {
      var w := Overwrite(f, at, d);
      assert FileRead(w, at, |d|) == w[at..at + |d|];
    }
  }
}
