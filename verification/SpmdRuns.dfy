/**
  Whole runs of the cores in Spmd.dfy: every schedule that never gives a turn to a core that cannot
  move comes to an end, and at the end C is the product of A and B.
 */
module SpmdRuns {
  import opened Arith
  import opened Rings
  import opened Spmd
  import opened SpmdBarrier
  import opened SpmdMemory

  /** The sum of A[j][t] · B[t][i] for t below n. */
  function Inner<T>(R: Ring<T>, A: seq<seq<T>>, B: seq<seq<T>>, j: nat, i: nat, n: nat): T
    requires j < |A| && n <= |A[j]| && n <= |B| && forall t :: 0 <= t < n ==> i < |B[t]|
  {
    if n == 0 then R.zero else Add(R, Inner(R, A, B, j, i, n - 1), Mul(R, A[j][n - 1], B[n - 1][i]))
  }

  lemma {:induction false} DotIsInner<T>(cfg: Config<T>, j: nat, i: nat, n: nat)
    requires Valid(cfg) && j < cfg.lda && i < cfg.lda && n <= cfg.lda
    ensures Dot(cfg, j, i, n) == Inner(cfg.R, cfg.A, cfg.B, j, i, n)
  {
    if n == 0 {
    } else {
      DotIsInner(cfg, j, i, n - 1);
    }
  }

  /** The matrix product: every entry was stored, and is the sum of the products of a row and a column. */
  ghost predicate IsProduct<T>(cfg: Config<T>, m: map<(nat, nat), T>)
    requires Valid(cfg)
  {
    forall j: nat, i: nat | j < cfg.lda && i < cfg.lda ::
      (j, i) in m && m[(j, i)] == Inner(cfg.R, cfg.A, cfg.B, j, i, cfg.lda)
  }

  lemma FinishedIsProduct<T>(cfg: Config<T>, s: State<T>)
    requires Valid(cfg) && Inv(cfg, s) && AllFinished(s)
    ensures IsProduct(cfg, s.c)
  {
    hide Dot, Inner;
    forall j: nat, i: nat | j < cfg.lda && i < cfg.lda
      ensures (j, i) in s.c && s.c[(j, i)] == Inner(cfg.R, cfg.A, cfg.B, j, i, cfg.lda)
    {
      var c := Owner(cfg, j);
      assert c < |s.cores|;
      assert ShareC(cfg, s.c, c, s.cores[c].place);
      DotIsInner(cfg, j, i, cfg.lda);
    }
  }

  // ---------- Every run ends ----------

  /** The work left inside the current round, counted in steps. */
  function RoundWork<T>(cfg: Config<T>, c: nat, core: Core<T>): nat {
    match core.gate
    case Waiting => 1
    case Last => 2
    case Releasing => 1
    case Outside =>
      match core.place
      case Transposing(_, i) => 4 + if i < Hi(cfg, c) then Hi(cfg, c) - i else 0
      case Multiplying(_, _, k, _, _, _, _) => 5 + if k < cfg.lda then cfg.lda - k else 0
      case Stored(_, _) => 4
      case Finished => 0
  }

  /** The work left to a core: its rounds, and the steps of the current one. */
  function WorkLeft<T>(cfg: Config<T>, c: nat, core: Core<T>): nat {
    var rounds := Rounds(cfg) - Round(cfg, c, core.place);
    (if rounds > 0 then Times(rounds, cfg.lda + 6) else 0) + RoundWork(cfg, c, core)
  }

  function TotalWork<T>(cfg: Config<T>, cores: seq<Core<T>>, n: nat): nat
    requires n <= |cores|
  {
    if n == 0 then 0 else TotalWork(cfg, cores, n - 1) + WorkLeft(cfg, n - 1, cores[n - 1])
  }

  lemma {:induction false} TotalOfUpdate<T>(cfg: Config<T>, cores: seq<Core<T>>, c: nat, core: Core<T>, n: nat)
    requires c < |cores| && n <= |cores|
    ensures TotalWork(cfg, cores[c := core], n)
         == TotalWork(cfg, cores, n) + if c < n then WorkLeft(cfg, c, core) - WorkLeft(cfg, c, cores[c]) else 0
  {
    hide WorkLeft;
    if n == 0 {
    } else {
      TotalOfUpdate(cfg, cores, c, core, n - 1);
    }
  }

  lemma RoundWorkBounds<T>(cfg: Config<T>, c: nat, core: Core<T>)
    requires Valid(cfg) && c < cfg.ncores && PlaceOk(cfg, c, core)
    ensures RoundWork(cfg, c, core) <= cfg.lda + 5 && (!core.gate.Outside? ==> RoundWork(cfg, c, core) >= 1)
  {
    Shares(cfg, c);
    hide Lo, Dot, Chunk;
  }

  lemma OneRoundLess(rounds: nat, n: nat)
    requires rounds >= 1
    ensures Times(rounds, n) == (if rounds > 1 then Times(rounds - 1, n) else 0) + n
  {
  }

  /** Going through the barrier costs a whole round. */
  lemma LeaveWork<T>(cfg: Config<T>, c: nat, core: Core<T>)
    requires Valid(cfg) && c < cfg.ncores && PlaceOk(cfg, c, core) && !core.gate.Outside?
    ensures WorkLeft(cfg, c, Core(After(cfg, c, core.place), Outside, core.threadsense)) < WorkLeft(cfg, c, core)
  {
    hide Round, Rounds, RoundWork, Times, After, PlaceOk, Valid;
    var core' := Core(After(cfg, c, core.place), Outside, core.threadsense);
    RoundAfter(cfg, c, core);
    RoundsLeft(cfg, c, core);
    RoundsLeft(cfg, c, core');
    RoundWorkBounds(cfg, c, core);
    RoundWorkBounds(cfg, c, core');
    OneRoundLess(Rounds(cfg) - Round(cfg, c, core.place), cfg.lda + 6);
  }

  /** Within a round every step takes some of its work away. */
  lemma WorkWork<T>(cfg: Config<T>, s: State<T>, c: nat)
    requires Valid(cfg) && BarrierInv(cfg, s) && c < |s.cores| && s.cores[c].gate.Outside? && !s.cores[c].place.Finished?
    ensures Work(cfg, s, c).cores == s.cores[c := Work(cfg, s, c).cores[c]]
    ensures WorkLeft(cfg, c, Work(cfg, s, c).cores[c]) < WorkLeft(cfg, c, s.cores[c])
  {
    hide Work, BarrierInv, Round, Rounds, RoundWork, Times;
    WorkInRound(cfg, s, c);
  }

  lemma WorkInRound<T>(cfg: Config<T>, s: State<T>, c: nat)
    requires Valid(cfg) && BarrierInv(cfg, s) && c < |s.cores| && s.cores[c].gate.Outside? && !s.cores[c].place.Finished?
    ensures var core' := Work(cfg, s, c).cores[c];
      && Work(cfg, s, c).cores == s.cores[c := core']
      && Round(cfg, c, core'.place) == Round(cfg, c, s.cores[c].place)
      && RoundWork(cfg, c, core') < RoundWork(cfg, c, s.cores[c])
  {
    hide Eight, Dot, Times, Lo, Hi, CountOk, StoresB, StoresC, Chunk, Entry;
    assert CoreOk(cfg, s.released, c, s.cores[c]);
    match s.cores[c].place
    case Transposing(_, _) =>
    case Multiplying(_, _, _, _, _, _, _) =>
    case Stored(_, _) =>
  }

  /** Every step of a core that can move makes the total smaller. */
  lemma StepWorks<T>(cfg: Config<T>, s: State<T>, c: nat)
    requires Valid(cfg) && BarrierInv(cfg, s) && Enabled(s, c)
    ensures |Step(cfg, s, c).cores| == |s.cores|
    ensures TotalWork(cfg, Step(cfg, s, c).cores, |s.cores|) < TotalWork(cfg, s.cores, |s.cores|)
  {
    var core, cores' := s.cores[c], Step(cfg, s, c).cores;
    assert CoreOk(cfg, s.released, c, core) && |s.cores| == cfg.ncores;
    if core.gate.Outside? {
      WorkWork(cfg, s, c);
    } else if core.gate.Last? {
      assert WorkLeft(cfg, c, core.(gate := Releasing)) < WorkLeft(cfg, c, core);
    } else {
      LeaveWork(cfg, c, core);
    }
    hide WorkLeft, Work, After, BarrierInv, Valid;
    assert cores' == s.cores[c := cores'[c]];
    TotalOfUpdate(cfg, s.cores, c, cores'[c], |s.cores|);
  }

  /** Every turn goes to a core that can move. */
  ghost predicate AllMove<T>(cfg: Config<T>, schedule: seq<nat>) {
    forall n :: 0 <= n < |schedule| ==> Enabled(Run(cfg, schedule[..n]), schedule[n])
  }

  lemma {:induction false} RunWorks<T>(cfg: Config<T>, schedule: seq<nat>)
    requires Valid(cfg) && AllMove(cfg, schedule)
    ensures |Run(cfg, schedule).cores| == cfg.ncores
    ensures TotalWork(cfg, Run(cfg, schedule).cores, cfg.ncores) + |schedule| <= TotalWork(cfg, Init(cfg).cores, cfg.ncores)
  {
    RunKeeps(cfg, schedule);
    if schedule == [] {
    } else {
      var n := |schedule| - 1;
      var before := schedule[..n];
      forall m | 0 <= m < n ensures Enabled(Run(cfg, before[..m]), before[m]) {
        assert before[..m] == schedule[..m];
      }
      RunWorks(cfg, before);
      RunKeeps(cfg, before);
      StepWorks(cfg, Run(cfg, before), schedule[n]);
    }
  }

  /** Every run ends: no schedule of moving cores is longer than the work at the start. */
  lemma RunsEnd<T>(cfg: Config<T>, schedule: seq<nat>)
    requires Valid(cfg) && AllMove(cfg, schedule)
    ensures |schedule| <= TotalWork(cfg, Init(cfg).cores, cfg.ncores)
  {
    RunWorks(cfg, schedule);
  }

  /** However the cores are interleaved: when none of them can move any more, C is the product of A and B. */
  lemma RunsEndWithProduct<T>(cfg: Config<T>, schedule: seq<nat>)
    requires Valid(cfg) && forall c :: 0 <= c < cfg.ncores ==> !Enabled(Run(cfg, schedule), c)
    ensures AllFinished(Run(cfg, schedule)) && IsProduct(cfg, Run(cfg, schedule).c)
  {
    var s := Run(cfg, schedule);
    RunKeeps(cfg, schedule);
    assert |s.cores| == cfg.ncores;
    hide CoresOk, CountOk, SharesOk, IsProduct;
    NeverStuck(cfg, s);
    FinishedIsProduct(cfg, s);
  }

  /** In every reachable state a core that multiplies finds all of BB written, and no core is a barrier ahead of another. */
  lemma RunsAreSafe<T>(cfg: Config<T>, schedule: seq<nat>, c: nat, d: nat, i: nat, t: nat, r: nat)
    requires Valid(cfg) && c < cfg.ncores && d < cfg.ncores && i < cfg.lda && t < cfg.lda
    ensures var s := Run(cfg, schedule);
      && |s.cores| == cfg.ncores
      && (s.cores[c].place.Multiplying? ==> (i, t) in s.bb && s.bb[(i, t)] == cfg.B[t][i])
      && (Round(cfg, c, s.cores[c].place) > r ==>
            Round(cfg, d, s.cores[d].place) > r || (Round(cfg, d, s.cores[d].place) == r && !s.cores[d].gate.Outside?))
  {
    var s := Run(cfg, schedule);
    RunKeeps(cfg, schedule);
    assert |s.cores| == cfg.ncores;
    hide BarrierInv, SharesOk, ValuesB, ValuesC, Round, Run;
    if s.cores[c].place.Multiplying? {
      ReadsAreWritten(cfg, s, c, i, t);
    }
    if Round(cfg, c, s.cores[c].place) > r {
      AllMeet(cfg, s, r, c, d);
    }
  }
}
