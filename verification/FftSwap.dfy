/** The swap table built by doubling, and the in-place reordering that applies it once. */
module FftSwap {
  import opened Bits

  newtype int16 = x: int | -0x8000 <= x < 0x8000

  /** The first m entries are bit reversals on n bits. */
  ghost predicate IsRevTable(t: seq<int16>, m: nat, n: nat) {
    m <= |t| && forall k: nat :: k < m ==> t[k] as int == Rev(k, n)
  }

  /** Entry j + 2^i is entry j plus 2^(n-1-i), and fits 16 bits. */
  lemma NextEntry(j: nat, i: nat, n: nat)
    requires n <= 15 && i < n && j < Pow2(i)
    ensures Rev(j + Pow2(i), n) == Rev(j, n) + Pow2(n - 1 - i) < 0x8000
    ensures j + Pow2(i) < Pow2(i + 1) <= Pow2(n)
  {
    hide Rev, Pow2;
    RevSetBit(j, i, n);
    Pow2Step(i + 1);
    Pow2Monotonic(i + 1, n);
    Pow2Monotonic(n, 15);
    Pow2Of15();
  }

  lemma Pow2Of15()
    ensures Pow2(15) == 0x8000
  {
    assert Pow2(5) == 0x20;
    Pow2Add(5, 5);
    Pow2Add(5, 10);
  }

  lemma TableGrows(t: seq<int16>, t': seq<int16>, j: nat, i: nat, n: nat)
    requires n <= 15 && i < n && j < Pow2(i) && |t| == Pow2(n)
    requires IsRevTable(t, Pow2(i) + j, n)
    requires j + Pow2(i) < |t| && 0 <= t[j] as int + Pow2(n - 1 - i) < 0x8000
    requires t' == t[j + Pow2(i) := (t[j] as int + Pow2(n - 1 - i)) as int16]
    ensures IsRevTable(t', Pow2(i) + j + 1, n)
  {
    hide Rev, Pow2;
    NextEntry(j, i, n);
    forall k: nat | k < Pow2(i) + j + 1 ensures t'[k] as int == Rev(k, n) {
      if k == Pow2(i) + j {
        assert t[j] as int == Rev(j, n);
      }
    }
  }

  /** One round of the table construction: the known iM entries, each plus iL, are appended. */
  method DoubleTable(table: array<int16>, iL: nat, iM: nat, ghost i: nat, ghost n: nat)
    requires n <= 15 && i < n && table.Length == Pow2(n) && iL == Pow2(n - 1 - i) && iM == Pow2(i)
    requires IsRevTable(table[..], iM, n)
    modifies table
    ensures IsRevTable(table[..], Pow2(i + 1), n)
  {
    hide Rev;
    for j := 0 to iM
      invariant IsRevTable(table[..], iM + j, n)
    {
      ghost var t := table[..];
      NextEntry(j, i, n);
      assert t[j] as int == Rev(j, n);
      table[j + iM] := (table[j] as int + iL) as int16;
      TableGrows(t, table[..], j, i, n);
    }
  }

  /** `SetupR2SwapTable`. Its entries are 16-bit, so N is at most 2^15. */
  method SetupR2SwapTable(table: array<int16>, ghost n: nat)
    requires n <= 15 && table.Length == Pow2(n)
    modifies table
    ensures IsRevTable(table[..], Pow2(n), n)
  {
    Log2OfPow2(n);
    var log2N := Log2(table.Length);
    var iL, iM := table.Length / 2, 1;
    table[0] := 0;
    RevZero(n);
    for i := 0 to log2N
      invariant iM == Pow2(i) && (i < n ==> iL == Pow2(n - 1 - i))
      invariant IsRevTable(table[..], iM, n)
    {
      DoubleTable(table, iL, iM, i, n);
      iL := iL / 2;
      iM := iM * 2;
    }
  }

  lemma {:induction false} RevZero(n: nat)
    ensures Rev(0, n) == 0
  {
    if n == 0 {
    } else {
      RevZero(n - 1);
    }
  }

  /** The table maps positions to positions, and back. */
  ghost predicate IsInvolution(t: seq<int16>, n: nat) {
    |t| >= n && forall i: nat :: i < n ==> 0 <= t[i] as int < n && t[t[i]] as int == i
  }

  lemma RevTableIsInvolution(t: seq<int16>, n: nat)
    requires IsRevTable(t, Pow2(n), n)
    ensures IsInvolution(t, Pow2(n))
  {
    forall i: nat | i < Pow2(n) ensures 0 <= t[i] as int < Pow2(n) && t[t[i]] as int == i {
      RevRev(i, n);
      assert t[Rev(i, n)] as int == Rev(Rev(i, n), n);
    }
  }

  /** y is x with every element fetched from the position the table gives. */
  ghost predicate IsPermuted<T>(x: seq<T>, t: seq<int16>, y: seq<T>)
    requires IsInvolution(t, |x|)
  {
    |y| == |x| && forall i: nat :: i < |x| ==> y[i] == x[t[i]]
  }

  /** `SwapSamples`: a pair is swapped when its lower position is visited, and never again. */
  method SwapSamples<T>(data: array<T>, table: array<int16>)
    requires IsInvolution(table[..], data.Length)
    requires table as object != data as object
    modifies data
    ensures IsPermuted(old(data[..]), table[..], data[..])
  {
    ghost var x, t := data[..], table[..];
    for i := 0 to data.Length
      invariant table[..] == t
      invariant forall k: nat :: k < |x| ==>
        data[k] == if k < i || t[k] as int < i then x[t[k]] else x[k]
    {
      var S := data[i];
      var SwapIndex := table[i];
      assert t[i] == SwapIndex;
      if i < SwapIndex as int {
        data[i] := data[SwapIndex];
        data[SwapIndex] := S;
      }
      forall k: nat | k < |x| ensures data[k] == if k < i + 1 || t[k] as int < i + 1 then x[t[k]] else x[k] {
        assert t[t[k]] as int == k;
      }
    }
  }
}
