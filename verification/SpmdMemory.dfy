/**
  The memory of the cores in Spmd.dfy, in every interleaving: nothing is read before it is written,
  nothing is written twice, every run ends, and it ends with the product of the matrices.
 */
module SpmdMemory {
  import opened Arith
  import opened Spmd
  import opened SpmdBarrier

  // ---------- What has been written ----------

  /** The core has written entry (i, k) of BB, for a row i of its share. */
  predicate WroteB<T>(place: Place<T>, i: nat, k: nat) {
    place.Transposing? ==> k < place.k || (k == place.k && i < place.i)
  }

  /** The core has stored C in row j and column i, for a row j of its share. */
  predicate WroteC<T>(place: Place<T>, j: nat, i: nat) {
    match place
    case Transposing(_, _) => false
    case Multiplying(i0, j0, _, _, _, _, _) => i < i0 || (i < i0 + 4 && j < j0)
    case Stored(i0, j0) => i < i0 || (i < i0 + 4 && j <= j0)
    case Finished => true
  }

  /** The entries of one share are exactly those that its core has written. */
  ghost predicate ShareB<T>(cfg: Config<T>, bb: map<(nat, nat), T>, c: nat, place: Place<T>) {
    forall i: nat, k: nat | Lo(cfg, c) <= i < Hi(cfg, c) && k < cfg.lda :: ((i, k) in bb <==> WroteB(place, i, k))
  }

  ghost predicate ShareC<T>(cfg: Config<T>, m: map<(nat, nat), T>, c: nat, place: Place<T>) {
    forall j: nat, i: nat | Lo(cfg, c) <= j < Hi(cfg, c) && i < cfg.lda :: ((j, i) in m <==> WroteC(place, j, i))
  }

  /** BB holds entries of the transpose of B, C holds entries of the product. */
  ghost predicate ValuesB<T>(cfg: Config<T>, bb: map<(nat, nat), T>) {
    forall i, k | (i, k) in bb :: i < cfg.lda && k < cfg.lda && bb[(i, k)] == Entry(cfg, cfg.B, k, i)
  }

  ghost predicate ValuesC<T>(cfg: Config<T>, m: map<(nat, nat), T>) {
    forall j, i | (j, i) in m :: j < cfg.lda && i < cfg.lda && m[(j, i)] == Dot(cfg, j, i, cfg.lda)
  }

  ghost predicate SharesOk<T>(cfg: Config<T>, s: State<T>) {
    forall c :: 0 <= c < |s.cores| ==> ShareB(cfg, s.bb, c, s.cores[c].place) && ShareC(cfg, s.c, c, s.cores[c].place)
  }

  ghost predicate Inv<T>(cfg: Config<T>, s: State<T>) {
    BarrierInv(cfg, s) && SharesOk(cfg, s) && ValuesB(cfg, s.bb) && ValuesC(cfg, s.c)
  }

  // ---------- Reads ----------

  /** A core that multiplies finds everybody beyond the last write to BB. */
  lemma TransposeDone<T>(cfg: Config<T>, s: State<T>, c: nat, d: nat, i: nat, k: nat)
    requires Valid(cfg) && BarrierInv(cfg, s) && c < |s.cores| && d < |s.cores|
    requires s.cores[c].place.Multiplying? && Lo(cfg, d) <= i < Hi(cfg, d) && k < cfg.lda
    ensures WroteB(s.cores[d].place, i, k)
  {
    assert CoreOk(cfg, s.released, c, s.cores[c]) && CoreOk(cfg, s.released, d, s.cores[d]);
    hide CountOk, CoresOk, Lo, Hi, Chunk;
    AllMeet(cfg, s, cfg.lda - 1, c, d);
  }

  /** No core reads an entry of BB before it is written: whatever a multiplying core reads is there, and is the transpose. */
  lemma ReadsAreWritten<T>(cfg: Config<T>, s: State<T>, c: nat, i: nat, t: nat)
    requires Valid(cfg) && Inv(cfg, s) && c < |s.cores| && s.cores[c].place.Multiplying? && i < cfg.lda && t < cfg.lda
    ensures (i, t) in s.bb && s.bb[(i, t)] == cfg.B[t][i] == Entry(cfg, cfg.B, t, i)
  {
    var d := Owner(cfg, i);
    TransposeDone(cfg, s, c, d, i, t);
    assert ShareB(cfg, s.bb, d, s.cores[d].place);
  }

  lemma ReadsTransposeHolds<T>(cfg: Config<T>, s: State<T>, c: nat)
    requires Valid(cfg) && Inv(cfg, s) && c < |s.cores|
    ensures ReadsTranspose(cfg, s, c)
  {
    if s.cores[c].gate.Outside? && s.cores[c].place.Multiplying? {
      var p := s.cores[c].place;
      assert CoreOk(cfg, s.released, c, s.cores[c]);
      hide Inv, Entry, Valid;
      forall i, t | p.i <= i < p.i + 4 && 0 <= t < cfg.lda
        ensures Read(cfg, s.bb, i, t) == Entry(cfg, cfg.B, t, i)
      {
        ReadsAreWritten(cfg, s, c, i, t);
      }
    }
  }

  // ---------- Writes ----------

  /** Two maps have the same keys outside the rows of core c. */
  ghost predicate OwnRowsOnly<T>(cfg: Config<T>, c: nat, m: map<(nat, nat), T>, m': map<(nat, nat), T>) {
    forall r: nat, q: nat | !(Lo(cfg, c) <= r < Hi(cfg, c)) :: ((r, q) in m' <==> (r, q) in m)
  }

  /** When core c moves on and writes in its own rows only, the other shares stay as they are. */
  lemma OthersKeep<T>(cfg: Config<T>, s: State<T>, s': State<T>, c: nat)
    requires SharesOk(cfg, s) && c < |s.cores| == |s'.cores|
    requires forall d :: 0 <= d < |s.cores| && d != c ==> s'.cores[d] == s.cores[d]
    requires OwnRowsOnly(cfg, c, s.bb, s'.bb) && OwnRowsOnly(cfg, c, s.c, s'.c)
    requires ShareB(cfg, s'.bb, c, s'.cores[c].place) && ShareC(cfg, s'.c, c, s'.cores[c].place)
    ensures SharesOk(cfg, s')
  {
    forall d | 0 <= d < |s.cores| && d != c
      ensures ShareB(cfg, s'.bb, d, s'.cores[d].place) && ShareC(cfg, s'.c, d, s'.cores[d].place)
    {
      assert ShareB(cfg, s.bb, d, s.cores[d].place) && ShareC(cfg, s.c, d, s.cores[d].place);
      if c < d { SharesDisjoint(cfg, c, d); } else { SharesDisjoint(cfg, d, c); }
      hide Lo, Hi, WroteB, WroteC;
    }
  }

  /** Going through the barrier writes nothing: the loop headers agree on what was written. */
  lemma AfterKeeps<T>(cfg: Config<T>, s: State<T>, c: nat)
    requires Valid(cfg) && c < cfg.ncores && c < |s.cores|
    requires PlaceOk(cfg, c, s.cores[c]) && !s.cores[c].gate.Outside?
    requires ShareB(cfg, s.bb, c, s.cores[c].place) && ShareC(cfg, s.c, c, s.cores[c].place)
    ensures ShareB(cfg, s.bb, c, After(cfg, c, s.cores[c].place))
    ensures ShareC(cfg, s.c, c, After(cfg, c, s.cores[c].place))
  {
    var p := s.cores[c].place;
    Shares(cfg, c);
    hide Lo, Hi, Valid, Chunk;
    assert p.Transposing? || p.Stored?;
    forall i: nat, k: nat | Lo(cfg, c) <= i < Hi(cfg, c) && k < cfg.lda
      ensures WroteB(After(cfg, c, p), i, k) == WroteB(p, i, k)
    {
    }
    forall j: nat, i: nat | Lo(cfg, c) <= j < Hi(cfg, c) && i < cfg.lda
      ensures WroteC(After(cfg, c, p), j, i) == WroteC(p, j, i)
    {
    }
  }

  lemma LeaveKeeps<T>(cfg: Config<T>, s: State<T>, s': State<T>, c: nat)
    requires Valid(cfg) && Inv(cfg, s) && c < |s.cores| && !s.cores[c].gate.Outside?
    requires s'.cores == Leave(cfg, s, c).cores && s'.bb == s.bb && s'.c == s.c
    ensures SharesOk(cfg, s')
  {
    assert CoreOk(cfg, s.released, c, s.cores[c]);
    AfterKeeps(cfg, s, c);
    hide After, PlaceOk, CoreOk, BarrierInv, ShareB, ShareC;
    OthersKeep(cfg, s, s', c);
  }

  /** BB[i * lda + k] = B[k * lda + i]: a first write, in the own rows. */
  lemma TransposeStores<T>(cfg: Config<T>, bb: map<(nat, nat), T>, c: nat, p: Place<T>)
    requires p.Transposing? && Lo(cfg, c) <= p.i < Hi(cfg, c) && p.k < cfg.lda && ShareB(cfg, bb, c, p)
    ensures StoresB(cfg, c, p).Keys !! bb.Keys && OwnRowsOnly(cfg, c, bb, bb + StoresB(cfg, c, p))
    ensures ShareB(cfg, bb + StoresB(cfg, c, p), c, Transposing(p.k, p.i + 1))
  {
    hide Lo, Hi, Entry;
  }

  /** The four stores into C: first writes, in the own row. */
  lemma ProductStores<T>(cfg: Config<T>, m: map<(nat, nat), T>, c: nat, p: Place<T>)
    requires p.Multiplying? && Lo(cfg, c) <= p.j < Hi(cfg, c) && p.i + 4 <= cfg.lda <= p.k && ShareC(cfg, m, c, p)
    ensures StoresC(cfg, p).Keys !! m.Keys && OwnRowsOnly(cfg, c, m, m + StoresC(cfg, p))
    ensures ShareC(cfg, m + StoresC(cfg, p), c, Stored(p.i, p.j))
  {
    hide Lo, Hi;
  }

  /** What the invariant says about core c, when it is outside the barrier. */
  lemma CoreFacts<T>(cfg: Config<T>, s: State<T>, c: nat)
    requires Valid(cfg) && Inv(cfg, s) && c < |s.cores| && s.cores[c].gate.Outside?
    ensures c < cfg.ncores && Hi(cfg, c) <= cfg.lda && SharesOk(cfg, s) && ValuesB(cfg, s.bb) && ValuesC(cfg, s.c)
    ensures ShareB(cfg, s.bb, c, s.cores[c].place) && ShareC(cfg, s.c, c, s.cores[c].place) && PlaceOk(cfg, c, s.cores[c])
  {
    hide Lo, Hi, PlaceOk, GateOk, ShareB, ShareC, ValuesB, ValuesC, CountOk;
    assert CoreOk(cfg, s.released, c, s.cores[c]);
    Shares(cfg, c);
  }

  lemma TransposeWrite<T>(cfg: Config<T>, s: State<T>, c: nat)
    requires Valid(cfg) && Inv(cfg, s) && c < |s.cores| && s.cores[c].gate.Outside? && s.cores[c].place.Transposing?
    requires s.cores[c].place.i < Hi(cfg, c)
    ensures SharesOk(cfg, Work(cfg, s, c)) && ValuesB(cfg, Work(cfg, s, c).bb)
  {
    hide Lo, Hi, Valid, Inv, SharesOk, Entry, ShareB;
    var p, s' := s.cores[c].place, Work(cfg, s, c);
    CoreFacts(cfg, s, c);
    TransposeStores(cfg, s.bb, c, p);
    assert ShareC(cfg, s'.c, c, s'.cores[c].place);
    OthersKeep(cfg, s, s', c);
  }

  lemma ProductWrite<T>(cfg: Config<T>, s: State<T>, c: nat)
    requires Valid(cfg) && Inv(cfg, s) && c < |s.cores| && s.cores[c].gate.Outside? && s.cores[c].place.Multiplying?
    requires s.cores[c].place.k >= cfg.lda
    ensures SharesOk(cfg, Work(cfg, s, c)) && ValuesC(cfg, Work(cfg, s, c).c)
  {
    hide Lo, Hi, Valid, Inv, SharesOk, Dot, ShareC, ValuesB;
    var p, s' := s.cores[c].place, Work(cfg, s, c);
    CoreFacts(cfg, s, c);
    ProductStores(cfg, s.c, c, p);
    assert ShareB(cfg, s'.bb, c, s'.cores[c].place);
    OthersKeep(cfg, s, s', c);
  }

  /** All other steps write nothing. */
  lemma QuietKeeps<T>(cfg: Config<T>, s: State<T>, s': State<T>, c: nat)
    requires Valid(cfg) && Inv(cfg, s) && c < |s.cores| && |s'.cores| == |s.cores| && s'.bb == s.bb && s'.c == s.c
    requires forall d :: 0 <= d < |s.cores| && d != c ==> s'.cores[d] == s.cores[d]
    requires forall i: nat, k: nat :: WroteB(s'.cores[c].place, i, k) == WroteB(s.cores[c].place, i, k)
    requires forall j: nat, i: nat :: WroteC(s'.cores[c].place, j, i) == WroteC(s.cores[c].place, j, i)
    ensures SharesOk(cfg, s')
  {
    assert ShareB(cfg, s.bb, c, s.cores[c].place) && ShareC(cfg, s.c, c, s.cores[c].place);
    hide Lo, Hi, WroteB, WroteC;
    assert ShareB(cfg, s'.bb, c, s'.cores[c].place);
    assert ShareC(cfg, s'.c, c, s'.cores[c].place);
    OthersKeep(cfg, s, s', c);
  }

  lemma WorkKeeps<T>(cfg: Config<T>, s: State<T>, c: nat)
    requires Valid(cfg) && Inv(cfg, s) && c < |s.cores| && s.cores[c].gate.Outside?
    ensures var s' := Work(cfg, s, c); SharesOk(cfg, s') && ValuesB(cfg, s'.bb) && ValuesC(cfg, s'.c)
  {
    hide Inv, SharesOk, ValuesB, ValuesC, Valid, Eight, StoresB, StoresC, Hi;
    var p := s.cores[c].place;
    InvValues(cfg, s);
    if p.Transposing? && p.i < Hi(cfg, c) {
      TransposeWrite(cfg, s, c);
    } else if p.Multiplying? && p.k >= cfg.lda {
      ProductWrite(cfg, s, c);
    } else {
      QuietKeeps(cfg, s, Work(cfg, s, c), c);
    }
  }

  lemma InvValues<T>(cfg: Config<T>, s: State<T>)
    requires Inv(cfg, s)
    ensures ValuesB(cfg, s.bb) && ValuesC(cfg, s.c)
  {
  }

  lemma StepKeeps<T>(cfg: Config<T>, s: State<T>, c: nat)
    requires Valid(cfg) && Inv(cfg, s)
    ensures Inv(cfg, Step(cfg, s, c))
  {
    var s' := Step(cfg, s, c);
    if c < |s.cores| {
      ReadsTransposeHolds(cfg, s, c);
    }
    BarrierStep(cfg, s, c);
    if Enabled(s, c) {
      hide BarrierInv, SharesOk, ValuesB, ValuesC, Work, After, Valid, ReadsTranspose;
      match s.cores[c].gate
      case Outside => WorkKeeps(cfg, s, c);
      case Waiting => LeaveKeeps(cfg, s, s', c);
      case Last => QuietKeeps(cfg, s, s', c);
      case Releasing => LeaveKeeps(cfg, s, s', c);
    }
  }

  /** The invariant holds after every schedule. */
  lemma {:induction false} RunKeeps<T>(cfg: Config<T>, schedule: seq<nat>)
    requires Valid(cfg)
    ensures Inv(cfg, Run(cfg, schedule))
  {
    if schedule == [] {
      InitBarrier(cfg);
    } else {
      RunKeeps(cfg, schedule[..|schedule| - 1]);
      StepKeeps(cfg, Run(cfg, schedule[..|schedule| - 1]), schedule[|schedule| - 1]);
    }
  }

  /** What the next step of core c writes. */
  function WritesB<T>(cfg: Config<T>, s: State<T>, c: nat): map<(nat, nat), T>
    requires c < |s.cores|
  {
    if Enabled(s, c) && s.cores[c].gate.Outside? then StoresB(cfg, c, s.cores[c].place) else map[]
  }

  function WritesC<T>(cfg: Config<T>, s: State<T>, c: nat): map<(nat, nat), T>
    requires c < |s.cores|
  {
    if Enabled(s, c) && s.cores[c].gate.Outside? then StoresC(cfg, s.cores[c].place) else map[]
  }

  lemma StepWrites<T>(cfg: Config<T>, s: State<T>, c: nat)
    requires c < |s.cores|
    ensures Step(cfg, s, c).bb == s.bb + WritesB(cfg, s, c) && Step(cfg, s, c).c == s.c + WritesC(cfg, s, c)
  {
    hide Work, After, StoresB, StoresC;
    WorkWrites(cfg, s, c);
    WriteNothing(s.bb);
    WriteNothing(s.c);
  }

  lemma WriteNothing<T>(m: map<(nat, nat), T>)
    ensures m + map[] == m
  {
  }

  lemma WorkWrites<T>(cfg: Config<T>, s: State<T>, c: nat)
    requires c < |s.cores|
    ensures Work(cfg, s, c).bb == s.bb + StoresB(cfg, c, s.cores[c].place)
    ensures Work(cfg, s, c).c == s.c + StoresC(cfg, s.cores[c].place)
  {
    hide Eight, Entry, Hi;
    match s.cores[c].place
    case Transposing(_, _) =>
    case Multiplying(_, _, _, _, _, _, _) =>
    case Stored(_, _) =>
    case Finished =>
  }

  /** All entries lie in rows of core c. */
  ghost predicate InShare<T>(cfg: Config<T>, c: nat, m: map<(nat, nat), T>) {
    forall x :: x in m ==> Lo(cfg, c) <= x.0 < Hi(cfg, c)
  }

  lemma WritesBOwn<T>(cfg: Config<T>, s: State<T>, c: nat)
    requires Valid(cfg) && Inv(cfg, s) && c < |s.cores|
    ensures WritesB(cfg, s, c).Keys !! s.bb.Keys && InShare(cfg, c, WritesB(cfg, s, c))
  {
    hide Lo, Hi, Valid, Inv, SharesOk, Entry, ShareB, ShareC, ValuesB, ValuesC, Dot, Times, Chunk;
    var p := s.cores[c].place;
    if Enabled(s, c) && s.cores[c].gate.Outside? && p.Transposing? && p.i < Hi(cfg, c) {
      CoreFacts(cfg, s, c);
      TransposeStores(cfg, s.bb, c, p);
    }
  }

  lemma WritesCOwn<T>(cfg: Config<T>, s: State<T>, c: nat)
    requires Valid(cfg) && Inv(cfg, s) && c < |s.cores|
    ensures WritesC(cfg, s, c).Keys !! s.c.Keys && InShare(cfg, c, WritesC(cfg, s, c))
  {
    hide Lo, Hi, Valid, Inv, SharesOk, Entry, ShareB, ShareC, ValuesB, ValuesC, Dot, Times, Chunk;
    var p := s.cores[c].place;
    if Enabled(s, c) && s.cores[c].gate.Outside? && p.Multiplying? && p.k >= cfg.lda {
      CoreFacts(cfg, s, c);
      ProductStores(cfg, s.c, c, p);
    }
  }

  /** A step writes only cells that no step has written before, in rows of its own core; all other cells stay. */
  lemma WritesAreOwn<T>(cfg: Config<T>, s: State<T>, c: nat)
    requires Valid(cfg) && Inv(cfg, s) && c < |s.cores|
    ensures Step(cfg, s, c).bb == s.bb + WritesB(cfg, s, c) && Step(cfg, s, c).c == s.c + WritesC(cfg, s, c)
    ensures WritesB(cfg, s, c).Keys !! s.bb.Keys && WritesC(cfg, s, c).Keys !! s.c.Keys
    ensures InShare(cfg, c, WritesB(cfg, s, c)) && InShare(cfg, c, WritesC(cfg, s, c))
  {
    hide *;
    StepWrites(cfg, s, c);
    WritesBOwn(cfg, s, c);
    WritesCOwn(cfg, s, c);
  }

  /** Whatever two cores are about to write, they write different cells. */
  lemma WritersApart<T>(cfg: Config<T>, s: State<T>, c: nat, d: nat)
    requires Valid(cfg) && Inv(cfg, s) && c < d < |s.cores|
    ensures WritesB(cfg, s, c).Keys !! WritesB(cfg, s, d).Keys && WritesC(cfg, s, c).Keys !! WritesC(cfg, s, d).Keys
  {
    hide Inv, Valid, WritesB, WritesC, Lo, Hi;
    WritesAreOwn(cfg, s, c);
    WritesAreOwn(cfg, s, d);
    SharesDisjoint(cfg, c, d);
  }

  /** The rows of BB that fit into the static array: BB[1024]. */
  lemma FitsStaticArray(lda: nat, i: nat, k: nat)
    requires lda <= 32 && i < lda && k < lda
    ensures i * lda + k < 1024
  {
    MulLe(lda, i + 1, lda);
    assert (i + 1) * lda == i * lda + lda;
    MulLe(lda, lda, 32);
  }
}
