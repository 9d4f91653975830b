/**
  apps/riscv-tests/mt/ae_matmul.c: several cores multiply two matrices through one shared transposed
  copy BB of the second, meeting at the sense-reversing barrier of benchmarks/common/util.h.
  Every shared access and every step of the barrier is a step of its own; a schedule says whose turn it is.
 */
module Spmd {
  import opened Arith
  import opened Rings

  datatype Config<!T> = Config(R: Ring<T>, ncores: nat, lda: nat, A: seq<seq<T>>, B: seq<seq<T>>)

  ghost predicate Square<T>(lda: nat, M: seq<seq<T>>) {
    |M| == lda && forall r :: 0 <= r < lda ==> |M[r]| == lda
  }

  /** What the kernel relies on: equal shares, columns in fours and eights, and room in BB[1024]. */
  ghost predicate Valid<T>(cfg: Config<T>) {
    && cfg.ncores >= 1 && 8 <= cfg.lda <= 32 && cfg.lda % 8 == 0 && cfg.lda % cfg.ncores == 0
    && Square(cfg.lda, cfg.A) && Square(cfg.lda, cfg.B)
  }

  function Chunk<T>(cfg: Config<T>): nat {
    if cfg.ncores == 0 then 0 else cfg.lda / cfg.ncores
  }

  /** The rows lo .. hi - 1 of core c. */
  function Lo<T>(cfg: Config<T>, c: nat): nat {
    Times(c, Chunk(cfg))
  }

  function Hi<T>(cfg: Config<T>, c: nat): nat {
    Times(c + 1, Chunk(cfg))
  }

  function Entry<T>(cfg: Config<T>, M: seq<seq<T>>, r: nat, c: nat): T {
    if r < |M| && c < |M[r]| then M[r][c] else cfg.R.zero
  }

  /** The first n products of row j of A and column i of B. */
  function Dot<T>(cfg: Config<T>, j: nat, i: nat, n: nat): T {
    if n == 0 then cfg.R.zero
    else Add(cfg.R, Dot(cfg, j, i, n - 1), Mul(cfg.R, Entry(cfg, cfg.A, j, n - 1), Entry(cfg, cfg.B, n - 1, i)))
  }

  // ---------- States ----------

  /** Where a core is in its program. */
  datatype Place<T> =
    | Transposing(k: nat, i: nat)
    | Multiplying(i: nat, j: nat, k: nat, c1: T, c2: T, c3: T, c4: T)
    | Stored(i: nat, j: nat)
    | Finished

  /** Where a core is in the barrier. */
  datatype Gate = Outside | Waiting | Last | Releasing

  datatype Core<T> = Core(place: Place<T>, gate: Gate, threadsense: bool)

  /** bb and c hold the entries written so far; released counts the completed barriers. */
  datatype State<T> = State(cores: seq<Core<T>>, bb: map<(nat, nat), T>, c: map<(nat, nat), T>,
                            count: nat, sense: bool, released: nat)

  /** BB[i * lda + k]; an entry that was not written yet holds something else. */
  function Read<T>(cfg: Config<T>, bb: map<(nat, nat), T>, i: nat, k: nat): T {
    if (i, k) in bb then bb[(i, k)] else cfg.R.zero
  }

  /** Eight products onto an accumulator, in the order of the unrolled loop body. */
  function Eight<T>(cfg: Config<T>, bb: map<(nat, nat), T>, acc: T, j: nat, i: nat, k: nat, n: nat): T
    decreases n
  {
    if n == 0 then acc
    else Add(cfg.R, Eight(cfg, bb, acc, j, i, k, n - 1), Mul(cfg.R, Entry(cfg, cfg.A, j, k + n - 1), Read(cfg, bb, i, k + n - 1)))
  }

  function FirstRow<T>(cfg: Config<T>, c: nat): Place<T> {
    Multiplying(0, Lo(cfg, c), 0, cfg.R.zero, cfg.R.zero, cfg.R.zero, cfg.R.zero)
  }

  /** The place behind the barrier: the loop headers. */
  function After<T>(cfg: Config<T>, c: nat, place: Place<T>): Place<T> {
    match place
    case Transposing(k, _) => if k + 1 < cfg.lda then Transposing(k + 1, Lo(cfg, c)) else FirstRow(cfg, c)
    case Stored(i, j) =>
      if j + 1 < Hi(cfg, c) then Multiplying(i, j + 1, 0, cfg.R.zero, cfg.R.zero, cfg.R.zero, cfg.R.zero)
      else if i + 4 < cfg.lda then Multiplying(i + 4, Lo(cfg, c), 0, cfg.R.zero, cfg.R.zero, cfg.R.zero, cfg.R.zero)
      else Finished
    case _ => place
  }

  function Put<T>(s: State<T>, c: nat, core: Core<T>): State<T>
    requires c < |s.cores|
  {
    s.(cores := s.cores[c := core])
  }

  /** Flip the own sense and count the arrival; the last one to arrive will open the barrier. */
  function Arrive<T>(cfg: Config<T>, s: State<T>, c: nat): State<T>
    requires c < |s.cores|
  {
    var core := s.cores[c];
    var gate := if s.count + 1 == cfg.ncores then Last else Waiting;
    Put(s, c, Core(core.place, gate, !core.threadsense)).(count := s.count + 1)
  }

  /** A core can move unless it is finished, or the barrier holds it back. */
  predicate Enabled<T>(s: State<T>, c: nat) {
    && c < |s.cores|
    && (s.cores[c].gate.Outside? ==> !s.cores[c].place.Finished?)
    && (s.cores[c].gate.Waiting? ==> s.sense == s.cores[c].threadsense)
  }

  /** What a step of core c outside the barrier stores into BB. */
  function StoresB<T>(cfg: Config<T>, c: nat, place: Place<T>): map<(nat, nat), T> {
    if place.Transposing? && place.i < Hi(cfg, c) then map[(place.i, place.k) := Entry(cfg, cfg.B, place.k, place.i)]
    else map[]
  }

  /** And what it stores into C. */
  function StoresC<T>(cfg: Config<T>, place: Place<T>): map<(nat, nat), T> {
    if place.Multiplying? && place.k >= cfg.lda
    then map[(place.j, place.i) := place.c1, (place.j, place.i + 1) := place.c2,
             (place.j, place.i + 2) := place.c3, (place.j, place.i + 3) := place.c4]
    else map[]
  }

  /** One step of core c outside the barrier. */
  function Work<T>(cfg: Config<T>, s: State<T>, c: nat): State<T>
    requires c < |s.cores|
  {
    var core := s.cores[c];
    match core.place
    case Transposing(k, i) =>
      if i < Hi(cfg, c)
      then Put(s, c, core.(place := Transposing(k, i + 1))).(bb := s.bb + StoresB(cfg, c, core.place))
      else Arrive(cfg, s, c)
    case Multiplying(i, j, k, c1, c2, c3, c4) =>
      if k < cfg.lda
      then Put(s, c, core.(place := Multiplying(i, j, k + 8,
             Eight(cfg, s.bb, c1, j, i, k, 8), Eight(cfg, s.bb, c2, j, i + 1, k, 8),
             Eight(cfg, s.bb, c3, j, i + 2, k, 8), Eight(cfg, s.bb, c4, j, i + 3, k, 8))))
      else Put(s, c, core.(place := Stored(i, j))).(c := s.c + StoresC(cfg, core.place))
    case Stored(_, _) => Arrive(cfg, s, c)
    case Finished => s
  }

  function Leave<T>(cfg: Config<T>, s: State<T>, c: nat): State<T>
    requires c < |s.cores|
  {
    Put(s, c, Core(After(cfg, c, s.cores[c].place), Outside, s.cores[c].threadsense))
  }

  /** One step of core c; a core that cannot move stays where it is. */
  function Step<T>(cfg: Config<T>, s: State<T>, c: nat): State<T> {
    if !Enabled(s, c) then s
    else match s.cores[c].gate
      case Outside => Work(cfg, s, c)
      case Waiting => Leave(cfg, s, c)
      case Last => Put(s, c, s.cores[c].(gate := Releasing)).(count := 0)
      case Releasing => Leave(cfg, s, c).(sense := s.cores[c].threadsense, released := s.released + 1)
  }

  function StartCores<T>(cfg: Config<T>, n: nat): (cs: seq<Core<T>>)
    ensures |cs| == n && forall c :: 0 <= c < n ==> cs[c] == Core(Transposing(0, Lo(cfg, c)), Outside, false)
  {
    if n == 0 then [] else StartCores(cfg, n - 1) + [Core(Transposing(0, Lo(cfg, n - 1)), Outside, false)]
  }

  function Init<T>(cfg: Config<T>): State<T> {
    State(StartCores(cfg, cfg.ncores), map[], map[], 0, false, 0)
  }

  /** The state after a schedule: the cores that were given a turn, in order. */
  function Run<T>(cfg: Config<T>, schedule: seq<nat>): State<T> {
    if schedule == [] then Init(cfg)
    else Step(cfg, Run(cfg, schedule[..|schedule| - 1]), schedule[|schedule| - 1])
  }

  // ---------- Shares ----------

  lemma Shares<T>(cfg: Config<T>, c: nat)
    requires Valid(cfg) && c < cfg.ncores
    ensures Chunk(cfg) >= 1 && Hi(cfg, c) == Lo(cfg, c) + Chunk(cfg) && Hi(cfg, c) <= cfg.lda
  {
    var n := Chunk(cfg);
    assert cfg.lda == cfg.ncores * n;
    assert n != 0;
    assert (c + 1) * n == c * n + n;
    MulLe(n, c + 1, cfg.ncores);
  }

  /** Shares of different cores do not meet. */
  lemma SharesDisjoint<T>(cfg: Config<T>, c: nat, d: nat)
    requires c < d
    ensures Hi(cfg, c) <= Lo(cfg, d)
  {
    MulLe(Chunk(cfg), c + 1, d);
  }

  /** Every row has an owner. */
  lemma Owner<T>(cfg: Config<T>, i: nat) returns (c: nat)
    requires Valid(cfg) && i < cfg.lda
    ensures c < cfg.ncores && Lo(cfg, c) <= i < Hi(cfg, c)
  {
    Shares(cfg, 0);
    c := OwnerOf(i, cfg.lda, cfg.ncores, Chunk(cfg));
  }

  lemma OwnerOf(i: nat, lda: nat, ncores: nat, n: nat) returns (c: nat)
    requires n >= 1 && lda == ncores * n && i < lda
    ensures c < ncores && c * n <= i < (c + 1) * n
  {
    c := i / n;
    assert i == n * c + i % n;
    assert (c + 1) * n == n * c + n;
    if c >= ncores {
      MulLe(n, ncores, c);
    }
  }

  // ---------- Barriers: the invariant ----------

  /** How many barriers lie before this place. */
  function Round<T>(cfg: Config<T>, c: nat, place: Place<T>): int {
    match place
    case Transposing(k, _) => k
    case Multiplying(i, j, _, _, _, _, _) => cfg.lda + Times(i / 4, Chunk(cfg)) + (j - Lo(cfg, c))
    case Stored(i, j) => cfg.lda + Times(i / 4, Chunk(cfg)) + (j - Lo(cfg, c))
    case Finished => Rounds(cfg)
  }

  /** How many barriers every core goes through. */
  function Rounds<T>(cfg: Config<T>): nat {
    cfg.lda + Times(cfg.lda / 4, Chunk(cfg))
  }

  function Parity(n: nat): bool {
    n % 2 == 1
  }

  /** The core is inside its loops, its accumulators are partial dot products, and only finished work is at the barrier. */
  ghost predicate PlaceOk<T>(cfg: Config<T>, c: nat, core: Core<T>) {
    match core.place
    case Transposing(k, i) => k < cfg.lda && Lo(cfg, c) <= i <= Hi(cfg, c) && (!core.gate.Outside? ==> i == Hi(cfg, c))
    case Multiplying(i, j, k, c1, c2, c3, c4) =>
      && core.gate.Outside? && i % 4 == 0 && i + 4 <= cfg.lda && Lo(cfg, c) <= j < Hi(cfg, c) && k % 8 == 0 && k <= cfg.lda
      && c1 == Dot(cfg, j, i, k) && c2 == Dot(cfg, j, i + 1, k) && c3 == Dot(cfg, j, i + 2, k) && c4 == Dot(cfg, j, i + 3, k)
    case Stored(i, j) => i % 4 == 0 && i + 4 <= cfg.lda && Lo(cfg, c) <= j < Hi(cfg, c)
    case Finished => core.gate.Outside?
  }

  /** A core in the barrier is waiting for the current round, or was let go from the one before. */
  ghost predicate GateOk<T>(cfg: Config<T>, released: nat, c: nat, core: Core<T>) {
    var r := Round(cfg, c, core.place);
    match core.gate
    case Outside => r == released && core.threadsense == Parity(released)
    case Waiting =>
      || (r == released && core.threadsense == Parity(released + 1))
      || (r + 1 == released && core.threadsense == Parity(released))
    case _ => r == released && core.threadsense == Parity(released + 1)
  }

  ghost predicate CoreOk<T>(cfg: Config<T>, released: nat, c: nat, core: Core<T>) {
    PlaceOk(cfg, c, core) && GateOk(cfg, released, c, core)
  }

  ghost predicate CoresOk<T>(cfg: Config<T>, released: nat, cores: seq<Core<T>>) {
    |cores| == cfg.ncores && forall c :: 0 <= c < |cores| ==> CoreOk(cfg, released, c, cores[c])
  }

  /** The core has arrived at the current barrier. */
  predicate Arrived<T>(cfg: Config<T>, released: nat, c: nat, core: Core<T>) {
    !core.gate.Outside? && Round(cfg, c, core.place) == released
  }

  function ArrivedSet<T>(cfg: Config<T>, released: nat, cores: seq<Core<T>>): set<nat> {
    set c | 0 <= c < |cores| && Arrived(cfg, released, c, cores[c])
  }

  /** A core that saw the full count. */
  predicate Opening<T>(core: Core<T>) {
    core.gate.Last? || core.gate.Releasing?
  }

  /** Everybody has arrived, and everybody but c is still waiting. */
  ghost predicate Gathered<T>(cfg: Config<T>, released: nat, cores: seq<Core<T>>, c: nat) {
    forall d :: 0 <= d < |cores| ==> Arrived(cfg, released, d, cores[d]) && (d != c ==> cores[d].gate.Waiting?)
  }

  ghost predicate NobodyOpening<T>(cores: seq<Core<T>>) {
    forall c :: 0 <= c < |cores| ==> !Opening(cores[c])
  }

  /** The counter counts the arrivals, until the last core to arrive resets it. */
  ghost predicate CountOk<T>(cfg: Config<T>, released: nat, cores: seq<Core<T>>, count: nat) {
    || (NobodyOpening(cores) && count == |ArrivedSet(cfg, released, cores)| && count < cfg.ncores)
    || (exists c :: 0 <= c < |cores| && Opening(cores[c]) && Gathered(cfg, released, cores, c)
          && count == if cores[c].gate.Last? then cfg.ncores else 0)
  }

  ghost predicate BarrierInv<T>(cfg: Config<T>, s: State<T>) {
    && s.sense == Parity(s.released)
    && CoresOk(cfg, s.released, s.cores)
    && CountOk(cfg, s.released, s.cores, s.count)
  }
}
