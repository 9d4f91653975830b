/**
  The vector instructions the kernels use, lane by lane.  A register holds the vl active lanes.
  The instructions are methods: a kernel knows of each exactly what its contract says.
  Slides that would bring in a lane beyond vl must prove that no active lane asks for one.
 */
module VectorUnit {
  import opened Rings

  /** `vsetvl`: section 6.3 of the RISC-V "V" extension, with the vl = min(AVL, VLMAX) choice. */
  function SetVl(avl: nat, vlmax: nat): nat {
    if avl <= vlmax then avl else vlmax
  }

  method VAdd<T>(K: Ring<T>, a: seq<T>, b: seq<T>) returns (r: seq<T>)
    requires |a| == |b|
    ensures |r| == |a| && forall t :: 0 <= t < |a| ==> r[t] == Add(K, a[t], b[t])
  {
    r := [];
    for i := 0 to |a|
      invariant |r| == i && forall t :: 0 <= t < i ==> r[t] == Add(K, a[t], b[t])
    {
      r := r + [Add(K, a[i], b[i])];
    }
  }

  method VSub<T>(K: Ring<T>, a: seq<T>, b: seq<T>) returns (r: seq<T>)
    requires |a| == |b|
    ensures |r| == |a| && forall t :: 0 <= t < |a| ==> r[t] == Sub(K, a[t], b[t])
  {
    r := [];
    for i := 0 to |a|
      invariant |r| == i && forall t :: 0 <= t < i ==> r[t] == Sub(K, a[t], b[t])
    {
      r := r + [Sub(K, a[i], b[i])];
    }
  }

  method VMul<T>(K: Ring<T>, a: seq<T>, b: seq<T>) returns (r: seq<T>)
    requires |a| == |b|
    ensures |r| == |a| && forall t :: 0 <= t < |a| ==> r[t] == Mul(K, a[t], b[t])
  {
    r := [];
    for i := 0 to |a|
      invariant |r| == i && forall t :: 0 <= t < i ==> r[t] == Mul(K, a[t], b[t])
    {
      r := r + [Mul(K, a[i], b[i])];
    }
  }

  /** `vfmacc.vv`: acc + a·b */
  method VMacc<T>(K: Ring<T>, acc: seq<T>, a: seq<T>, b: seq<T>) returns (r: seq<T>)
    requires |acc| == |a| == |b|
    ensures |r| == |a| && forall t :: 0 <= t < |a| ==> r[t] == Add(K, acc[t], Mul(K, a[t], b[t]))
  {
    r := [];
    for i := 0 to |a|
      invariant |r| == i && forall t :: 0 <= t < i ==> r[t] == Add(K, acc[t], Mul(K, a[t], b[t]))
    {
      r := r + [Add(K, acc[i], Mul(K, a[i], b[i]))];
    }
  }

  /** `vfnmsac.vv`: acc - a·b */
  method VNmsac<T>(K: Ring<T>, acc: seq<T>, a: seq<T>, b: seq<T>) returns (r: seq<T>)
    requires |acc| == |a| == |b|
    ensures |r| == |a| && forall t :: 0 <= t < |a| ==> r[t] == Sub(K, acc[t], Mul(K, a[t], b[t]))
  {
    r := [];
    for i := 0 to |a|
      invariant |r| == i && forall t :: 0 <= t < i ==> r[t] == Sub(K, acc[t], Mul(K, a[t], b[t]))
    {
      r := r + [Sub(K, acc[i], Mul(K, a[i], b[i]))];
    }
  }

  /** `vmnot.m` */
  method VMaskNot(m: seq<bool>) returns (r: seq<bool>)
    ensures |r| == |m| && forall t :: 0 <= t < |m| ==> r[t] == !m[t]
  {
    r := [];
    for i := 0 to |m|
      invariant |r| == i && forall t :: 0 <= t < i ==> r[t] == !m[t]
    {
      r := r + [!m[i]];
    }
  }

  /** `vmerge.vvm`: b where the mask is set, a elsewhere. */
  method VMerge<T>(m: seq<bool>, a: seq<T>, b: seq<T>) returns (r: seq<T>)
    requires |m| == |a| == |b|
    ensures |r| == |a| && forall t :: 0 <= t < |a| ==> r[t] == if m[t] then b[t] else a[t]
  {
    r := [];
    for i := 0 to |a|
      invariant |r| == i && forall t :: 0 <= t < i ==> r[t] == if m[t] then b[t] else a[t]
    {
      r := r + [if m[i] then b[i] else a[i]];
    }
  }

  /** `vslidedown.vx` under a mask, first vl lanes, other lanes undisturbed. */
  method VSlideDown<T>(m: seq<bool>, dest: seq<T>, src: seq<T>, offset: nat, vl: nat) returns (r: seq<T>)
    requires |m| == |dest| == |src| && vl <= |src|
    requires forall t :: 0 <= t < vl && m[t] ==> t + offset < |src|
    ensures |r| == |src| && forall t :: 0 <= t < |src| ==> r[t] == if t < vl && m[t] then src[t + offset] else dest[t]
  {
    r := [];
    for i := 0 to |src|
      invariant |r| == i && forall t :: 0 <= t < i ==> r[t] == if t < vl && m[t] then src[t + offset] else dest[t]
    {
      r := r + [if i < vl && m[i] then src[i + offset] else dest[i]];
    }
  }

  /** `vslideup.vx` under a mask: lanes below the offset and masked-off lanes undisturbed. */
  method VSlideUp<T>(m: seq<bool>, dest: seq<T>, src: seq<T>, offset: nat) returns (r: seq<T>)
    requires |m| == |dest| == |src|
    ensures |r| == |src| && forall t :: 0 <= t < |src| ==> r[t] == if offset <= t && m[t] then src[t - offset] else dest[t]
  {
    r := [];
    for i := 0 to |src|
      invariant |r| == i && forall t :: 0 <= t < i ==> r[t] == if offset <= t && m[t] then src[t - offset] else dest[t]
    {
      r := r + [if offset <= i && m[i] then src[i - offset] else dest[i]];
    }
  }

  /** `vse32.v`, `vse64.v` */
  method VStore<T>(a: array<T>, base: nat, v: seq<T>)
    requires base + |v| <= a.Length
    modifies a
    ensures forall k :: 0 <= k < a.Length ==> a[k] == if base <= k < base + |v| then v[k - base] else old(a[k])
  {
    for i := 0 to |v|
      invariant forall k :: 0 <= k < a.Length ==> a[k] == if base <= k < base + i then v[k - base] else old(a[k])
    {
      a[base + i] := v[i];
    }
  }

  /** Lane indices that are in range and pairwise different. */
  ghost predicate IsPermutation(index: seq<nat>) {
    && (forall t :: 0 <= t < |index| ==> index[t] < |index|)
    && forall t, u :: 0 <= t < u < |index| ==> index[t] != index[u]
  }

  /** `vsuxei32.v`: lane t goes to element index[t] behind the base. */
  method VStoreIndexed<T>(a: array<T>, base: nat, index: seq<nat>, v: seq<T>)
    requires |index| == |v| && base + |v| <= a.Length && IsPermutation(index)
    modifies a
    ensures forall t :: 0 <= t < |v| ==> a[base + index[t]] == v[t]
    ensures forall p :: 0 <= p < base || base + |v| <= p < a.Length ==> a[p] == old(a[p])
  {
    for i := 0 to |v|
      invariant forall t :: 0 <= t < i ==> a[base + index[t]] == v[t]
      invariant forall p :: 0 <= p < base || base + |v| <= p < a.Length ==> a[p] == old(a[p])
    {
      a[base + index[i]] := v[i];
    }
  }

  // ---------- Scalar operands ----------

  /** `vmacc.vx`, `vfmacc.vf`: acc + x·v */
  method VMaccScalar<T>(K: Ring<T>, acc: seq<T>, x: T, v: seq<T>) returns (r: seq<T>)
    requires |acc| == |v|
    ensures |r| == |v| && forall t :: 0 <= t < |v| ==> r[t] == Add(K, acc[t], Mul(K, x, v[t]))
  {
    r := [];
    for i := 0 to |v|
      invariant |r| == i && forall t :: 0 <= t < i ==> r[t] == Add(K, acc[t], Mul(K, x, v[t]))
    {
      r := r + [Add(K, acc[i], Mul(K, x, v[i]))];
    }
  }

  /** `vmul.vx`, `vfmul.vf` */
  method VMulScalar<T>(K: Ring<T>, x: T, v: seq<T>) returns (r: seq<T>)
    ensures |r| == |v| && forall t :: 0 <= t < |v| ==> r[t] == Mul(K, x, v[t])
  {
    r := [];
    for i := 0 to |v|
      invariant |r| == i && forall t :: 0 <= t < i ==> r[t] == Mul(K, x, v[t])
    {
      r := r + [Mul(K, x, v[i])];
    }
  }

  /** `vslide1down.vx`: section 16.3.4, the scalar enters at the last lane. */
  function Slide1Down<T>(v: seq<T>, x: T): (r: seq<T>)
    requires |v| >= 1
    ensures |r| == |v|
  {
    v[1..] + [x]
  }

  /** `vslide1up.vx`: section 16.3.3, the scalar enters at lane 0. */
  function Slide1Up<T>(v: seq<T>, x: T): (r: seq<T>)
    requires |v| >= 1
    ensures |r| == |v|
  {
    [x] + v[..|v| - 1]
  }
}
