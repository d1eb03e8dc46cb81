/** String equality by blocks, the fast form of `strcmp(...) == 0`.

    The block size is a parameter; the code has it at 16 (NEON) and 32 (AVX2).  A block is loaded
    whole, so bytes behind the terminator, up to the end of its block, are read and compared too. */
module BlockCompare {
  import opened Common

  const SHORT_LIMIT := 16

  /** The length of the C string at the start of the memory `m`; its size if no byte is 0. */
  function StrLen(m: seq<Byte>): (n: nat)
    ensures n <= |m| && (n < |m| ==> m[n] == 0)
    ensures forall k :: 0 <= k < n ==> m[k] != 0
  {
    if m == [] || m[0] == 0 then 0 else 1 + StrLen(m[1..])
  }

  ghost predicate Terminated(m: seq<Byte>) {
    StrLen(m) < |m|
  }

  /** The C string itself. */
  function Text(m: seq<Byte>): seq<Byte> {
    m[..StrLen(m)]
  }

  /** The first position where `a` ends or the two differ. */
  function Stop(a: seq<Byte>, b: seq<Byte>): (n: nat)
    ensures n <= |a| && n <= |b|
    ensures n < |a| && n < |b| ==> a[n] == 0 || a[n] != b[n]
    ensures forall k :: 0 <= k < n ==> a[k] != 0 && a[k] == b[k]
  {
    if a == [] || b == [] || a[0] == 0 || a[0] != b[0] then 0 else 1 + Stop(a[1..], b[1..])
  }

  /** The end of the block of size `size` that holds position `n`: the one multiple of the size among
      the `size` positions behind `n`. */
  function BlockEnd(n: nat, size: nat): (e: nat)
    requires size > 0
    ensures n < e <= n + size && e % size == 0
  {
    if n < size then
      NextMultiple(0, size);
      size
    else
      NextMultiple(BlockEnd(n - size, size), size);
      size + BlockEnd(n - size, size)
  }

  lemma NextMultiple(e: nat, size: nat)
    requires size > 0 && e % size == 0
    ensures (size + e) % size == 0
  {
    var d := (size + e) / size;
    RemainderIsZero(size, e / size + 1 - d, (size + e) % size);
  }

  lemma RemainderIsZero(size: int, q: int, r: int)
    requires 0 <= r < size && size * q == r
    ensures r == 0
  {
    assert q > 0 ==> size * q >= size;
  }

  /** All the memory a comparison may touch: the blocks up to the one where it stops. */
  ghost predicate Loadable(a: seq<Byte>, b: seq<Byte>, size: nat)
    requires size > 0
  {
    BlockEnd(Stop(a, b), size) <= |a| && BlockEnd(Stop(a, b), size) <= |b|
  }

  /** The blocks up to and including the one where the comparison stops agree. */
  ghost predicate BlocksAgree(a: seq<Byte>, b: seq<Byte>, size: nat)
    requires size > 0 && Loadable(a, b, size)
  {
    a[..BlockEnd(Stop(a, b), size)] == b[..BlockEnd(Stop(a, b), size)]
  }

  /** One vector load and compare: are the blocks at `p` equal, and does the first contain a NUL? */
  method CompareBlock(a: seq<Byte>, b: seq<Byte>, p: nat, size: nat) returns (allEqual: bool, hasNull: bool)
    requires p + size <= |a| && p + size <= |b|
    ensures allEqual <==> forall j :: p <= j < p + size ==> a[j] == b[j]
    ensures hasNull <==> exists j :: p <= j < p + size && a[j] == 0
  {
    allEqual, hasNull := true, false;
    for k := 0 to size
      invariant allEqual <==> forall j :: p <= j < p + k ==> a[j] == b[j]
      invariant hasNull <==> exists j :: p <= j < p + k && a[j] == 0
    {
      allEqual := allEqual && a[p + k] == b[p + k];
      hasNull := hasNull || a[p + k] == 0;
    }
  }

  /** `simd_strcmp_arm` and `simd_strcmp_u128`.  `touched` is how far the memory was read: never past
      the block holding the first terminator or difference. */
  method BlockStrcmp(a: seq<Byte>, b: seq<Byte>, size: nat) returns (r: int, ghost touched: nat)
    requires size > 0 && Loadable(a, b, size)
    ensures r == if BlocksAgree(a, b, size) then 0 else 1
    ensures touched <= BlockEnd(Stop(a, b), size)
  {
    ghost var stop, end := Stop(a, b), BlockEnd(Stop(a, b), size);
    var p := 0;
    while true
      invariant p <= stop && end == p + BlockEnd(stop - p, size)
      invariant forall j :: 0 <= j < p ==> a[j] == b[j]
      decreases stop - p
    {
      touched := p + size;
      var allEqual, hasNull := CompareBlock(a, b, p, size);
      if !allEqual {
        ghost var j :| p <= j < p + size && a[j] != b[j];
        assert a[..end][j] != b[..end][j];
        return 1, touched;
      }
      if hasNull {
        return 0, touched;
      }
      p := p + size;
    }
  }

  // ----- against strcmp -----

  /** The sign of `strcmp`, section 7.24.4.2 of ISO C11: by the first differing byte, unsigned. */
  function StrCmp(a: seq<Byte>, b: seq<Byte>): int {
    var n := Stop(a, b);
    if n < |a| && n < |b| then a[n] as int - b[n] as int else 0
  }

  lemma StopAtEnd(a: seq<Byte>, b: seq<Byte>)
    requires Terminated(a) && Terminated(b)
    ensures Stop(a, b) <= StrLen(a) && Stop(a, b) <= StrLen(b)
    ensures Text(a) == Text(b) ==> Stop(a, b) == StrLen(a) == StrLen(b)
    ensures a[Stop(a, b)] == b[Stop(a, b)] ==> Text(a) == Text(b)
  {
  }

  /** The order of strings, byte by byte: `a` ends where `b` goes on, or has the smaller byte where they
      first differ. */
  ghost predicate Before(a: seq<Byte>, b: seq<Byte>) {
    exists n :: 0 <= n <= |a| && n < |b| && a[..n] == b[..n] && (n == |a| || a[n] < b[n])
  }

  lemma StopSplits(a: seq<Byte>, b: seq<Byte>, n: nat)
    requires Terminated(a) && Terminated(b) && n <= StrLen(a) && n <= StrLen(b)
    requires Text(a)[..n] == Text(b)[..n] && a[n] != b[n]
    ensures Stop(a, b) == n
  {
    assert forall k :: 0 <= k < n ==> a[k] == Text(a)[..n][k] && b[k] == Text(b)[..n][k];
  }

  /** `strcmp` is negative exactly if the first string comes before the second. */
  lemma StrCmpOrders(a: seq<Byte>, b: seq<Byte>)
    requires Terminated(a) && Terminated(b)
    ensures StrCmp(a, b) < 0 <==> Before(Text(a), Text(b))
    ensures StrCmp(a, b) > 0 <==> Before(Text(b), Text(a))
  {
    StrCmpBefore(a, b);
    StrCmpBefore(b, a);
    StopIsSymmetric(a, b);
  }

  lemma {:induction false} StopIsSymmetric(a: seq<Byte>, b: seq<Byte>)
    ensures Stop(a, b) == Stop(b, a)
  {
    if a != [] && b != [] && a[0] != 0 && a[0] == b[0] {
      StopIsSymmetric(a[1..], b[1..]);
    }
  }

  lemma StrCmpBefore(a: seq<Byte>, b: seq<Byte>)
    requires Terminated(a) && Terminated(b)
    ensures StrCmp(a, b) < 0 <==> Before(Text(a), Text(b))
  {
    StopAtEnd(a, b);
    var n := Stop(a, b);
    assert Text(a)[..n] == Text(b)[..n];
    if StrCmp(a, b) < 0 {
      assert n < |Text(b)| && (n == |Text(a)| || Text(a)[n] < Text(b)[n]);
    }
    if m :| 0 <= m <= |Text(a)| && m < |Text(b)| && Text(a)[..m] == Text(b)[..m]
            && (m == |Text(a)| || Text(a)[m] < Text(b)[m]) {
      StopSplits(a, b, m);
    }
  }

  /** `strcmp` is 0 exactly on equal strings. */
  lemma StrCmpZero(a: seq<Byte>, b: seq<Byte>)
    requires Terminated(a) && Terminated(b)
    ensures StrCmp(a, b) == 0 <==> Text(a) == Text(b)
  {
  }

  /** Main result.  The block comparison says 0 if and only if the strings are equal and the bytes
      behind their terminators agree up to the end of the block. */
  lemma BlocksAgreeExactly(a: seq<Byte>, b: seq<Byte>, size: nat)
    requires size > 0 && Terminated(a) && Terminated(b) && Loadable(a, b, size)
    ensures BlocksAgree(a, b, size) <==>
            && Text(a) == Text(b)
            && a[StrLen(a)..BlockEnd(Stop(a, b), size)] == b[StrLen(b)..BlockEnd(Stop(a, b), size)]
  {
  }

  // ----- as an equality of names -----

  /** The size of a vector register, in bytes. */
  type Width = n: nat | n > 0 witness 16

  /** The memory of a name can be compared: it is terminated, and readable to the end of the vector
      block its terminator is in. */
  ghost predicate IsName(m: seq<Byte>, vectors: Option<Width>) {
    Terminated(m) && (vectors.Some? ==> BlockEnd(StrLen(m), vectors.value) <= |m|)
  }

  /** The bytes behind the terminators agree up to the end of the block. */
  ghost predicate TailsAgree(a: seq<Byte>, b: seq<Byte>, size: Width) {
    forall k :: StrLen(a) <= k < BlockEnd(StrLen(a), size) && k < |a| && k < |b| ==> a[k] == b[k]
  }

  predicate IsShort(m: seq<Byte>) {
    StrLen(m) < SHORT_LIMIT
  }

  /** When `optimized_strcmp` takes two names for equal. */
  ghost predicate SameName(vectors: Option<Width>, a: seq<Byte>, b: seq<Byte>) {
    && Text(a) == Text(b)
    && (vectors.Some? && !IsShort(a) && !IsShort(b) ==> TailsAgree(a, b, vectors.value))
  }

  lemma {:induction false} BlockEndMonotone(m: nat, n: nat, size: nat)
    requires size > 0 && m <= n
    ensures BlockEnd(m, size) <= BlockEnd(n, size)
  {
    if size <= m {
      BlockEndMonotone(m - size, n - size, size);
    }
  }

  lemma NamesAreLoadable(a: seq<Byte>, b: seq<Byte>, size: Width)
    requires IsName(a, Some(size)) && IsName(b, Some(size))
    ensures Loadable(a, b, size)
  {
    StopAtEnd(a, b);
    BlockEndMonotone(Stop(a, b), StrLen(a), size);
    BlockEndMonotone(Stop(a, b), StrLen(b), size);
  }

  lemma AgreeMeansTails(a: seq<Byte>, b: seq<Byte>, size: Width)
    requires IsName(a, Some(size)) && IsName(b, Some(size)) && Loadable(a, b, size)
    ensures BlocksAgree(a, b, size) <==> Text(a) == Text(b) && TailsAgree(a, b, size)
  {
    BlocksAgreeExactly(a, b, size);
    StopAtEnd(a, b);
    if Text(a) == Text(b) {
      var n, end := StrLen(a), BlockEnd(StrLen(a), size);
      if a[n..end] == b[n..end] {
        forall k | n <= k < end
          ensures a[k] == b[k]
        {
          assert a[n..end][k - n] == b[n..end][k - n];
        }
      }
    }
  }

  /** `optimized_strcmp` on a target with vectors of `vectors` bytes, or without any. */
  method OptimizedStrcmp(a: seq<Byte>, b: seq<Byte>, vectors: Option<Width>) returns (r: int)
    requires IsName(a, vectors) && IsName(b, vectors)
    ensures r == 0 <==> SameName(vectors, a, b)
    ensures vectors.None? || IsShort(a) || IsShort(b) ==>
              (r < 0 <==> Before(Text(a), Text(b))) && (r > 0 <==> Before(Text(b), Text(a)))
    ensures vectors.Some? && !IsShort(a) && !IsShort(b) ==> r == 0 || r == 1
  {
    StrCmpZero(a, b);
    StrCmpOrders(a, b);
    if IsShort(a) || IsShort(b) || vectors.None? {
      return StrCmp(a, b);
    }
    NamesAreLoadable(a, b, vectors.value);
    AgreeMeansTails(a, b, vectors.value);
    ghost var touched;
    r, touched := BlockStrcmp(a, b, vectors.value);
  }

  /** Equal strings can compare unequal: the same 16 characters with different bytes behind the
      terminator, in the second of two 16-byte blocks. */
  lemma EqualStringsMayDiffer()
    ensures var a: seq<Byte> := seq(16, _ => 120) + seq(16, k => if k == 0 then 0 else 1);
            var b: seq<Byte> := seq(16, _ => 120) + seq(16, _ => 0);
            && Terminated(a) && Terminated(b) && Loadable(a, b, 16)
            && Text(a) == Text(b) && StrCmp(a, b) == 0
            && !BlocksAgree(a, b, 16)
  {
    var a: seq<Byte> := seq(16, _ => 120) + seq(16, k => if k == 0 then 0 else 1);
    var b: seq<Byte> := seq(16, _ => 120) + seq(16, _ => 0);
    assert a[16] == 0 && b[16] == 0;
    assert StrLen(a) == 16 && StrLen(b) == 16;
    assert Text(a) == Text(b);
    StrCmpZero(a, b);
    StopAtEnd(a, b);
    assert BlockEnd(16, 16) == 32;
    assert a[..32][17] != b[..32][17];
  }
}
