/**
  The barrier of the cores in Spmd.dfy: its invariant holds in every interleaving, all cores meet at
  every barrier, and the cores are never stuck.
 */
module SpmdBarrier {
  import opened Arith
  import opened Spmd

  // ---------- Counting arrivals ----------

  function Range(n: nat): (r: set<nat>)
    ensures |r| == n && forall c :: c in r <==> 0 <= c < n
  {
    if n == 0 then {} else Range(n - 1) + {n - 1}
  }

  lemma {:induction false} SubsetSize(a: set<nat>, b: set<nat>)
    requires a <= b
    ensures |a| <= |b| && (|a| == |b| ==> a == b)
  {
    if a == {} {
    } else {
      var x :| x in a;
      SubsetSize(a - {x}, b - {x});
    }
  }

  /** Nobody is missing once ncores cores have arrived. */
  lemma AllArrived<T>(cfg: Config<T>, released: nat, cores: seq<Core<T>>)
    requires |ArrivedSet(cfg, released, cores)| >= |cores|
    ensures forall c :: 0 <= c < |cores| ==> Arrived(cfg, released, c, cores[c])
  {
    SubsetSize(ArrivedSet(cfg, released, cores), Range(|cores|));
    forall c | 0 <= c < |cores| ensures Arrived(cfg, released, c, cores[c]) {
      assert c in Range(|cores|);
      assert c in ArrivedSet(cfg, released, cores);
    }
  }

  lemma SameArrivals<T>(cfg: Config<T>, released: nat, cores: seq<Core<T>>, c: nat, core: Core<T>)
    requires c < |cores| && (Arrived(cfg, released, c, core) <==> Arrived(cfg, released, c, cores[c]))
    ensures ArrivedSet(cfg, released, cores[c := core]) == ArrivedSet(cfg, released, cores)
  {
    hide Arrived;
  }

  lemma OneMoreArrival<T>(cfg: Config<T>, released: nat, cores: seq<Core<T>>, c: nat, core: Core<T>)
    requires c < |cores| && Arrived(cfg, released, c, core) && !Arrived(cfg, released, c, cores[c])
    ensures |ArrivedSet(cfg, released, cores[c := core])| == |ArrivedSet(cfg, released, cores)| + 1
  {
    hide Arrived;
    assert ArrivedSet(cfg, released, cores[c := core]) == ArrivedSet(cfg, released, cores) + {c};
  }

  // ---------- Places and rounds ----------

  lemma NextFour(i: nat, n: nat)
    requires i % 4 == 0
    ensures (i + 4) / 4 == i / 4 + 1 && (i + 4) % 4 == 0 && Times((i + 4) / 4, n) == Times(i / 4, n) + n && Times(0, n) == 0
  {
    assert (i / 4 + 1) * n == i / 4 * n + n;
  }

  lemma NoProducts<T>(cfg: Config<T>)
    ensures forall j, i :: Dot(cfg, j, i, 0) == cfg.R.zero
  {
  }

  lemma FourColumns<T>(cfg: Config<T>)
    requires Valid(cfg)
    ensures cfg.lda >= 8 && cfg.lda % 4 == 0
  {
  }

  lemma LastFour(i: nat, n: nat)
    requires i % 4 == 0 && n % 4 == 0 && i + 4 <= n
    ensures if i + 4 < n then i + 8 <= n else (i + 4) / 4 == n / 4
  {
  }

  lemma RoundAfterTranspose<T>(cfg: Config<T>, c: nat, k: nat, i: nat, sense: bool)
    requires Valid(cfg) && c < cfg.ncores && k < cfg.lda
    ensures Round(cfg, c, After(cfg, c, Transposing(k, i))) == k + 1
    ensures PlaceOk(cfg, c, Core(After(cfg, c, Transposing(k, i)), Outside, sense))
  {
    hide Times, Dot, Chunk, Lo, Hi, Valid;
    Shares(cfg, c);
    NoProducts(cfg);
    FourColumns(cfg);
    NextFour(0, Chunk(cfg));
  }

  lemma RoundAfterStore<T>(cfg: Config<T>, c: nat, i: nat, j: nat, sense: bool)
    requires Valid(cfg) && c < cfg.ncores && PlaceOk(cfg, c, Core(Stored(i, j), Outside, sense))
    ensures Round(cfg, c, After(cfg, c, Stored(i, j))) == Round(cfg, c, Stored(i, j)) + 1
    ensures PlaceOk(cfg, c, Core(After(cfg, c, Stored(i, j)), Outside, sense))
  {
    hide Times, Dot, Chunk, Lo, Hi, Valid;
    Shares(cfg, c);
    NoProducts(cfg);
    FourColumns(cfg);
    NextFour(i, Chunk(cfg));
    LastFour(i, cfg.lda);
  }

  /** The next place lies exactly one barrier further on. */
  lemma RoundAfter<T>(cfg: Config<T>, c: nat, core: Core<T>)
    requires Valid(cfg) && c < cfg.ncores && PlaceOk(cfg, c, core) && !core.gate.Outside?
    ensures Round(cfg, c, After(cfg, c, core.place)) == Round(cfg, c, core.place) + 1
    ensures PlaceOk(cfg, c, Core(After(cfg, c, core.place), Outside, core.threadsense))
  {
    hide Valid, After, Dot, Lo, Hi;
    if core.place.Stored? {
      RoundAfterStore(cfg, c, core.place.i, core.place.j, core.threadsense);
    } else {
      RoundAfterTranspose(cfg, c, core.place.k, core.place.i, core.threadsense);
    }
  }

  /** Only a finished core has gone through all barriers. */
  lemma RoundsLeft<T>(cfg: Config<T>, c: nat, core: Core<T>)
    requires Valid(cfg) && c < cfg.ncores && PlaceOk(cfg, c, core)
    ensures 0 <= Round(cfg, c, core.place) <= Rounds(cfg)
    ensures Round(cfg, c, core.place) == Rounds(cfg) <==> core.place.Finished?
  {
    Shares(cfg, c);
    var n := Chunk(cfg);
    match core.place
    case Transposing(_, _) =>
    case Multiplying(i, j, _, _, _, _, _) => RowsLeft(i, cfg.lda, n);
    case Stored(i, j) => RowsLeft(i, cfg.lda, n);
    case Finished =>
  }

  lemma RowsLeft(i: nat, lda: nat, n: nat)
    requires i % 4 == 0 && i + 4 <= lda
    ensures Times(i / 4, n) + n <= Times(lda / 4, n)
  {
    assert i / 4 + 1 <= lda / 4;
    MulLe(n, i / 4 + 1, lda / 4);
    assert Times(i / 4 + 1, n) == Times(i / 4, n) + n;
  }

  // ---------- The invariant, step by step ----------

  lemma InitBarrier<T>(cfg: Config<T>)
    requires Valid(cfg)
    ensures BarrierInv(cfg, Init(cfg))
  {
    var cores := Init(cfg).cores;
    forall c | 0 <= c < cfg.ncores ensures CoreOk(cfg, 0, c, cores[c]) {
      Shares(cfg, c);
    }
    assert ArrivedSet(cfg, 0, cores) == {};
  }

  lemma OneCoreOk<T>(cfg: Config<T>, released: nat, cores: seq<Core<T>>, c: nat, core: Core<T>)
    requires CoresOk(cfg, released, cores) && c < |cores| && CoreOk(cfg, released, c, core)
    ensures CoresOk(cfg, released, cores[c := core])
  {
    hide CoreOk;
  }

  /** As long as some core has not arrived, nobody has seen the full count. */
  lemma NobodyOpens<T>(cfg: Config<T>, released: nat, cores: seq<Core<T>>, count: nat, c: nat)
    requires CountOk(cfg, released, cores, count) && c < |cores| && !Arrived(cfg, released, c, cores[c])
    ensures NobodyOpening(cores) && count == |ArrivedSet(cfg, released, cores)| && count < cfg.ncores
  {
    hide Arrived, ArrivedSet;
  }

  /** Who opens the barrier does so alone. */
  lemma OpensAlone<T>(cfg: Config<T>, released: nat, cores: seq<Core<T>>, count: nat, c: nat)
    requires CountOk(cfg, released, cores, count) && c < |cores| && Opening(cores[c])
    ensures Gathered(cfg, released, cores, c)
  {
    hide Arrived, ArrivedSet;
  }

  /** Steps that change neither an arrival nor who opens the barrier. */
  lemma QuietCount<T>(cfg: Config<T>, released: nat, cores: seq<Core<T>>, count: nat, c: nat, core: Core<T>)
    requires CountOk(cfg, released, cores, count) && c < |cores|
    requires !Arrived(cfg, released, c, cores[c]) && !Arrived(cfg, released, c, core) && !Opening(core)
    ensures CountOk(cfg, released, cores[c := core], count)
  {
    NobodyOpens(cfg, released, cores, count, c);
    SameArrivals(cfg, released, cores, c, core);
    hide Arrived, ArrivedSet;
  }

  /** A step outside the barrier that goes on within the round. */
  lemma QuietStep<T>(cfg: Config<T>, s: State<T>, c: nat, place: Place<T>)
    requires BarrierInv(cfg, s) && c < |s.cores| && s.cores[c].gate.Outside?
    requires Round(cfg, c, place) == Round(cfg, c, s.cores[c].place) && PlaceOk(cfg, c, s.cores[c].(place := place))
    ensures BarrierInv(cfg, Put(s, c, s.cores[c].(place := place)))
  {
    assert CoreOk(cfg, s.released, c, s.cores[c]);
    hide PlaceOk, Round, Rounds, CoresOk, CountOk;
    var core := s.cores[c].(place := place);
    OneCoreOk(cfg, s.released, s.cores, c, core);
    QuietCount(cfg, s.released, s.cores, s.count, c, core);
  }

  lemma ArriveCount<T>(cfg: Config<T>, released: nat, cores: seq<Core<T>>, count: nat, c: nat, core: Core<T>)
    requires |cores| == cfg.ncores && CountOk(cfg, released, cores, count) && c < |cores| && cores[c].gate.Outside?
    requires Arrived(cfg, released, c, core) && core.gate == if count + 1 == cfg.ncores then Last else Waiting
    ensures CountOk(cfg, released, cores[c := core], count + 1)
  {
    NobodyOpens(cfg, released, cores, count, c);
    OneMoreArrival(cfg, released, cores, c, core);
    var cores' := cores[c := core];
    hide Round, Rounds, ArrivedSet;
    if count + 1 == cfg.ncores {
      AllArrived(cfg, released, cores');
      assert Opening(cores'[c]);
      forall d | 0 <= d < |cores'| ensures d != c ==> cores'[d].gate.Waiting? {
        assert Arrived(cfg, released, d, cores'[d]);
        assert d != c ==> !Opening(cores[d]);
      }
      assert Gathered(cfg, released, cores', c);
    }
  }

  /** The loops of this round are done. */
  predicate RoundDone<T>(cfg: Config<T>, c: nat, place: Place<T>) {
    place.Stored? || (place.Transposing? && place.i == Hi(cfg, c))
  }

  lemma PlaceAtBarrier<T>(cfg: Config<T>, c: nat, core: Core<T>, core': Core<T>)
    requires PlaceOk(cfg, c, core) && core'.place == core.place && RoundDone(cfg, c, core.place)
    ensures PlaceOk(cfg, c, core')
  {
  }

  /** The parts of the invariant. */
  lemma Parts<T>(cfg: Config<T>, s: State<T>)
    requires BarrierInv(cfg, s)
    ensures s.sense == Parity(s.released) && CoresOk(cfg, s.released, s.cores) && CountOk(cfg, s.released, s.cores, s.count)
    ensures |s.cores| == cfg.ncores && forall c :: 0 <= c < |s.cores| ==> CoreOk(cfg, s.released, c, s.cores[c])
  {
  }

  lemma Whole<T>(cfg: Config<T>, s: State<T>)
    requires s.sense == Parity(s.released) && CoresOk(cfg, s.released, s.cores) && CountOk(cfg, s.released, s.cores, s.count)
    ensures BarrierInv(cfg, s)
  {
  }

  lemma ArrivedCore<T>(cfg: Config<T>, released: nat, c: nat, core: Core<T>, core': Core<T>)
    requires CoreOk(cfg, released, c, core) && core.gate.Outside? && RoundDone(cfg, c, core.place)
    requires core'.place == core.place && core'.threadsense == !core.threadsense && (core'.gate.Last? || core'.gate.Waiting?)
    ensures CoreOk(cfg, released, c, core') && Arrived(cfg, released, c, core')
  {
    hide PlaceOk, Round, RoundDone;
    PlaceAtBarrier(cfg, c, core, core');
  }

  lemma ArriveStep<T>(cfg: Config<T>, s: State<T>, c: nat)
    requires BarrierInv(cfg, s) && c < |s.cores| && s.cores[c].gate.Outside? && RoundDone(cfg, c, s.cores[c].place)
    ensures BarrierInv(cfg, Arrive(cfg, s, c))
  {
    var gate := if s.count + 1 == cfg.ncores then Last else Waiting;
    var core := Core(s.cores[c].place, gate, !s.cores[c].threadsense);
    var s' := Arrive(cfg, s, c);
    assert s' == s.(cores := s.cores[c := core], count := s.count + 1);
    hide *;
    Parts(cfg, s);
    ArrivedCore(cfg, s.released, c, s.cores[c], core);
    OneCoreOk(cfg, s.released, s.cores, c, core);
    ArriveCount(cfg, s.released, s.cores, s.count, c, core);
    Whole(cfg, s');
  }

  lemma ResetStep<T>(cfg: Config<T>, s: State<T>, c: nat)
    requires BarrierInv(cfg, s) && c < |s.cores| && s.cores[c].gate.Last?
    ensures BarrierInv(cfg, Put(s, c, s.cores[c].(gate := Releasing)).(count := 0))
  {
    assert CoreOk(cfg, s.released, c, s.cores[c]);
    OpensAlone(cfg, s.released, s.cores, s.count, c);
    var core := s.cores[c].(gate := Releasing);
    assert CoreOk(cfg, s.released, c, core);
    OneCoreOk(cfg, s.released, s.cores, c, core);
    hide PlaceOk, Round, Rounds, CoresOk, ArrivedSet;
    var cores' := s.cores[c := core];
    assert Opening(cores'[c]) && Gathered(cfg, s.released, cores', c);
  }

  lemma LeavingCore<T>(cfg: Config<T>, released: nat, c: nat, core: Core<T>, core': Core<T>)
    requires Valid(cfg) && c < cfg.ncores && CoreOk(cfg, released, c, core) && core.gate.Waiting? && core.threadsense == Parity(released)
    requires core' == Core(After(cfg, c, core.place), Outside, core.threadsense)
    ensures CoreOk(cfg, released, c, core') && !Arrived(cfg, released, c, core) && !Arrived(cfg, released, c, core') && !Opening(core')
  {
    RoundAfter(cfg, c, core);
    hide PlaceOk, Round, After;
  }

  lemma WaitingStep<T>(cfg: Config<T>, s: State<T>, c: nat)
    requires Valid(cfg) && BarrierInv(cfg, s) && c < |s.cores| && s.cores[c].gate.Waiting? && Enabled(s, c)
    ensures BarrierInv(cfg, Leave(cfg, s, c))
  {
    var core, s' := Leave(cfg, s, c).cores[c], Leave(cfg, s, c);
    assert core == Core(After(cfg, c, s.cores[c].place), Outside, s.cores[c].threadsense);
    assert s' == s.(cores := s.cores[c := core]) && s.sense == s.cores[c].threadsense;
    hide *;
    Parts(cfg, s);
    LeavingCore(cfg, s.released, c, s.cores[c], core);
    OneCoreOk(cfg, s.released, s.cores, c, core);
    QuietCount(cfg, s.released, s.cores, s.count, c, core);
    Whole(cfg, s');
  }

  lemma ReleaseStep<T>(cfg: Config<T>, s: State<T>, c: nat)
    requires Valid(cfg) && BarrierInv(cfg, s) && c < |s.cores| && s.cores[c].gate.Releasing?
    ensures BarrierInv(cfg, Leave(cfg, s, c).(sense := s.cores[c].threadsense, released := s.released + 1))
  {
    assert CoreOk(cfg, s.released, c, s.cores[c]);
    OpensAlone(cfg, s.released, s.cores, s.count, c);
    RoundAfter(cfg, c, s.cores[c]);
    ReleaseCount(cfg, s.released, s.cores, s.count, c);
    hide PlaceOk, Round, Rounds, After, CountOk;
    var cores' := Leave(cfg, s, c).cores;
    forall d | 0 <= d < |cores'|
      ensures CoreOk(cfg, s.released + 1, d, cores'[d]) && !Arrived(cfg, s.released + 1, d, cores'[d]) && !Opening(cores'[d])
    {
      assert CoreOk(cfg, s.released, d, s.cores[d]) && Arrived(cfg, s.released, d, s.cores[d]);
    }
    hide CoreOk, Arrived, Opening;
    assert ArrivedSet(cfg, s.released + 1, cores') == {};
    EmptyCount(cfg, s.released + 1, cores');
  }

  lemma ReleaseCount<T>(cfg: Config<T>, released: nat, cores: seq<Core<T>>, count: nat, c: nat)
    requires CountOk(cfg, released, cores, count) && c < |cores| && cores[c].gate.Releasing?
    ensures count == 0
  {
    hide Arrived, ArrivedSet;
  }

  lemma EmptyCount<T>(cfg: Config<T>, released: nat, cores: seq<Core<T>>)
    requires Valid(cfg) && NobodyOpening(cores) && ArrivedSet(cfg, released, cores) == {}
    ensures CountOk(cfg, released, cores, 0)
  {
  }

  // ---------- Every step ----------

  lemma EightDot<T>(cfg: Config<T>, bb: map<(nat, nat), T>, j: nat, i: nat, k: nat, n: nat)
    requires forall t :: k <= t < k + n ==> Read(cfg, bb, i, t) == Entry(cfg, cfg.B, t, i)
    ensures Eight(cfg, bb, Dot(cfg, j, i, k), j, i, k, n) == Dot(cfg, j, i, k + n)
    decreases n
  {
    if n == 0 {
    } else {
      EightDot(cfg, bb, j, i, k, n - 1);
    }
  }

  /** The rows of BB that core c reads next are the columns of B. */
  ghost predicate ReadsTranspose<T>(cfg: Config<T>, s: State<T>, c: nat)
    requires c < |s.cores|
  {
    s.cores[c].gate.Outside? && s.cores[c].place.Multiplying? ==>
      var p := s.cores[c].place;
      forall i, t :: p.i <= i < p.i + 4 && 0 <= t < cfg.lda ==> Read(cfg, s.bb, i, t) == Entry(cfg, cfg.B, t, i)
  }

  /** The accumulators after one trip of the inner loop. */
  function Trip<T>(cfg: Config<T>, bb: map<(nat, nat), T>, p: Place<T>): Place<T>
    requires p.Multiplying?
  {
    Multiplying(p.i, p.j, p.k + 8,
      Eight(cfg, bb, p.c1, p.j, p.i, p.k, 8), Eight(cfg, bb, p.c2, p.j, p.i + 1, p.k, 8),
      Eight(cfg, bb, p.c3, p.j, p.i + 2, p.k, 8), Eight(cfg, bb, p.c4, p.j, p.i + 3, p.k, 8))
  }

  lemma NextEight(k: nat, n: nat)
    requires k % 8 == 0 && n % 8 == 0 && k < n
    ensures k + 8 <= n && (k + 8) % 8 == 0
  {
  }

  /** They stay partial dot products. */
  lemma TripOk<T>(cfg: Config<T>, bb: map<(nat, nat), T>, c: nat, p: Place<T>, sense: bool)
    requires cfg.lda % 8 == 0 && p.Multiplying? && p.k < cfg.lda && PlaceOk(cfg, c, Core(p, Outside, sense))
    requires forall i, t :: p.i <= i < p.i + 4 && 0 <= t < cfg.lda ==> Read(cfg, bb, i, t) == Entry(cfg, cfg.B, t, i)
    ensures PlaceOk(cfg, c, Core(Trip(cfg, bb, p), Outside, sense))
  {
    hide Dot, Eight, Read, Entry, Lo, Hi;
    NextEight(p.k, cfg.lda);
    EightDot(cfg, bb, p.j, p.i, p.k, 8);
    EightDot(cfg, bb, p.j, p.i + 1, p.k, 8);
    EightDot(cfg, bb, p.j, p.i + 2, p.k, 8);
    EightDot(cfg, bb, p.j, p.i + 3, p.k, 8);
  }

  /** What the barrier knows of a state does not include the matrices. */
  lemma SameBarrier<T>(cfg: Config<T>, s: State<T>, s': State<T>)
    requires BarrierInv(cfg, s) && s' == s.(bb := s'.bb, c := s'.c)
    ensures BarrierInv(cfg, s')
  {
    hide CoresOk, CountOk;
  }

  lemma WorkMultiplies<T>(cfg: Config<T>, s: State<T>, c: nat)
    requires c < |s.cores| && s.cores[c].place.Multiplying?
    ensures var core := s.cores[c];
            if core.place.k < cfg.lda then Work(cfg, s, c) == Put(s, c, core.(place := Trip(cfg, s.bb, core.place)))
            else Work(cfg, s, c) == Put(s, c, core.(place := Stored(core.place.i, core.place.j))).(c := Work(cfg, s, c).c)
  {
    hide Eight, StoresC;
  }

  /** The place behind the trip lies in the same round, and so does the place behind the stores. */
  lemma MultiplyPlace<T>(cfg: Config<T>, s: State<T>, c: nat)
    requires Valid(cfg) && BarrierInv(cfg, s) && c < |s.cores| && s.cores[c].gate.Outside? && ReadsTranspose(cfg, s, c)
    requires s.cores[c].place.Multiplying?
    ensures var core := s.cores[c];
            var place := if core.place.k < cfg.lda then Trip(cfg, s.bb, core.place) else Stored(core.place.i, core.place.j);
            Round(cfg, c, place) == Round(cfg, c, core.place) && PlaceOk(cfg, c, core.(place := place))
  {
    hide Dot, Eight, CountOk, Lo, Hi, GateOk, Read, Times, Chunk;
    var core := s.cores[c];
    assert CoreOk(cfg, s.released, c, core);
    if core.place.k < cfg.lda {
      TripOk(cfg, s.bb, c, core.place, core.threadsense);
    }
  }

  lemma MultiplyStep<T>(cfg: Config<T>, s: State<T>, c: nat)
    requires Valid(cfg) && BarrierInv(cfg, s) && c < |s.cores| && s.cores[c].gate.Outside? && ReadsTranspose(cfg, s, c)
    requires s.cores[c].place.Multiplying?
    ensures BarrierInv(cfg, Work(cfg, s, c))
  {
    hide *;
    var p := s.cores[c].place;
    MultiplyPlace(cfg, s, c);
    WorkMultiplies(cfg, s, c);
    if p.k < cfg.lda {
      QuietStep(cfg, s, c, Trip(cfg, s.bb, p));
    } else {
      QuietStep(cfg, s, c, Stored(p.i, p.j));
      SameBarrier(cfg, Put(s, c, s.cores[c].(place := Stored(p.i, p.j))), Work(cfg, s, c));
    }
  }

  lemma TransposeStep<T>(cfg: Config<T>, s: State<T>, c: nat)
    requires Valid(cfg) && BarrierInv(cfg, s) && c < |s.cores| && s.cores[c].gate.Outside? && s.cores[c].place.Transposing?
    ensures BarrierInv(cfg, Work(cfg, s, c))
  {
    hide CountOk, Lo, Hi, Valid, GateOk, StoresB;
    var p := s.cores[c].place;
    assert CoreOk(cfg, s.released, c, s.cores[c]);
    if p.i < Hi(cfg, c) {
      QuietStep(cfg, s, c, Transposing(p.k, p.i + 1));
      SameBarrier(cfg, Put(s, c, s.cores[c].(place := Transposing(p.k, p.i + 1))), Work(cfg, s, c));
    } else {
      ArriveStep(cfg, s, c);
    }
  }

  lemma WorkStep<T>(cfg: Config<T>, s: State<T>, c: nat)
    requires Valid(cfg) && BarrierInv(cfg, s) && c < |s.cores| && s.cores[c].gate.Outside? && ReadsTranspose(cfg, s, c)
    ensures BarrierInv(cfg, Work(cfg, s, c))
  {
    hide BarrierInv, ReadsTranspose, Valid;
    match s.cores[c].place
    case Transposing(_, _) => TransposeStep(cfg, s, c);
    case Multiplying(_, _, _, _, _, _, _) => MultiplyStep(cfg, s, c);
    case Stored(_, _) => ArriveStep(cfg, s, c);
    case Finished =>
  }

  lemma BarrierStep<T>(cfg: Config<T>, s: State<T>, c: nat)
    requires Valid(cfg) && BarrierInv(cfg, s) && (c < |s.cores| ==> ReadsTranspose(cfg, s, c))
    ensures BarrierInv(cfg, Step(cfg, s, c))
  {
    hide BarrierInv, Work, Leave;
    if Enabled(s, c) {
      match s.cores[c].gate
      case Outside => WorkStep(cfg, s, c);
      case Waiting => WaitingStep(cfg, s, c);
      case Last => ResetStep(cfg, s, c);
      case Releasing => ReleaseStep(cfg, s, c);
    }
  }

  // ---------- What the barrier is for ----------

  /** All cores meet at every barrier: nobody is past barrier r before everybody has arrived at it. */
  lemma AllMeet<T>(cfg: Config<T>, s: State<T>, r: nat, c: nat, d: nat)
    requires BarrierInv(cfg, s) && c < |s.cores| && d < |s.cores| && Round(cfg, c, s.cores[c].place) > r
    ensures Round(cfg, d, s.cores[d].place) > r
         || (Round(cfg, d, s.cores[d].place) == r && !s.cores[d].gate.Outside?)
  {
    hide PlaceOk, Round, CountOk;
    assert CoreOk(cfg, s.released, c, s.cores[c]) && CoreOk(cfg, s.released, d, s.cores[d]);
  }

  ghost predicate AllFinished<T>(s: State<T>) {
    forall c :: 0 <= c < |s.cores| ==> s.cores[c].place.Finished? && s.cores[c].gate.Outside?
  }

  /** A core that cannot move is finished, or has arrived where others have not. */
  lemma StuckCore<T>(cfg: Config<T>, s: State<T>, c: nat)
    requires Valid(cfg) && BarrierInv(cfg, s) && c < |s.cores| && !Enabled(s, c)
    ensures if s.released == Rounds(cfg) then s.cores[c].place.Finished? && s.cores[c].gate.Outside?
            else Arrived(cfg, s.released, c, s.cores[c])
  {
    assert CoreOk(cfg, s.released, c, s.cores[c]);
    RoundsLeft(cfg, c, s.cores[c]);
    hide Round, Rounds;
  }

  lemma FullSet<T>(cfg: Config<T>, released: nat, cores: seq<Core<T>>)
    requires forall c :: 0 <= c < |cores| ==> Arrived(cfg, released, c, cores[c])
    ensures |ArrivedSet(cfg, released, cores)| == |cores|
  {
    hide Arrived;
    assert ArrivedSet(cfg, released, cores) == Range(|cores|);
  }

  lemma SomebodyMissing<T>(cfg: Config<T>, s: State<T>)
    requires BarrierInv(cfg, s) && NobodyOpening(s.cores)
    ensures exists c :: 0 <= c < |s.cores| && !Arrived(cfg, s.released, c, s.cores[c])
  {
    hide Arrived, ArrivedSet, CoreOk;
    if forall c :: 0 <= c < |s.cores| ==> Arrived(cfg, s.released, c, s.cores[c]) {
      FullSet(cfg, s.released, s.cores);
    }
  }

  /** The cores are never stuck: if nobody can move, everybody is finished. */
  lemma NeverStuck<T>(cfg: Config<T>, s: State<T>)
    requires Valid(cfg) && BarrierInv(cfg, s) && forall c :: 0 <= c < |s.cores| ==> !Enabled(s, c)
    ensures AllFinished(s)
  {
    hide Rounds, Arrived, BarrierInv, Valid;
    forall c | 0 <= c < |s.cores|
      ensures !Opening(s.cores[c])
      ensures if s.released == Rounds(cfg) then s.cores[c].place.Finished? && s.cores[c].gate.Outside?
              else Arrived(cfg, s.released, c, s.cores[c])
    {
      assert !Enabled(s, c);
      StuckCore(cfg, s, c);
    }
    SomebodyMissing(cfg, s);
  }
}
