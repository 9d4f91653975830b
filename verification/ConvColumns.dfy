/**
  The straight-line parts of the 7x7 kernels: one filter column, on all accumulators that meet the
  loaded input rows.  The accumulators are named as in the kernels: v16 .. v28 hold seven neighbouring
  output rows.  The kernels work in five phases, which differ in the input rows they load together and
  in what these rows mean to each accumulator.
 */
module ConvColumns {
  import opened Rings
  import opened Conv
  import opened VectorUnit

  /** The columns n0 .. n0 + n - 1 that one strip works on. */
  datatype Strip = Strip(n0: nat, n: nat)

  /** The accumulator is at row a of column b of channel ch. */
  ghost predicate Partial<T>(P: Problem<T>, s: Strip, v: seq<T>, g: Group, ch: nat, b: nat, a: nat) {
    |v| == s.n && forall t :: 0 <= t < s.n ==> v[t] == Fold(P, g, s.n0 + t, ch, b, a)
  }

  /** The accumulator is ready for column b of channel ch; a new output row needs no initial value. */
  ghost predicate Ready<T>(P: Problem<T>, s: Strip, v: seq<T>, g: Group, ch: nat, b: nat) {
    |v| == s.n && (ch > 0 || b > 0 || g.alo > 0 ==> Partial(P, s, v, g, ch, b, g.alo))
  }

  /** The accumulator holds the first k filter rows of output row r. */
  ghost predicate Holds<T>(P: Problem<T>, s: Strip, v: seq<T>, r: nat, k: nat) {
    |v| == s.n && (k > 0 ==> forall t :: 0 <= t < s.n ==> v[t] == Rows(P, r, k, s.n0 + t))
  }

  /** The register holds an input row, slid by b. */
  ghost predicate Window<T>(P: Problem<T>, s: Strip, v: seq<T>, ch: nat, row: nat, b: nat) {
    |v| == s.n && forall t :: 0 <= t < s.n ==> v[t] == Pixel(P, ch, row, s.n0 + t + b)
  }

  /** The seven scalars of one filter column, as the kernels buffer them. */
  datatype Coefs<T> = Coefs(c0: T, c1: T, c2: T, c3: T, c4: T, c5: T, c6: T)

  /** The buffered scalars are filter column b of channel ch. */
  ghost predicate Column<T>(P: Problem<T>, ch: nat, b: nat, k: Coefs<T>) {
    && k.c0 == F(P, ch, 0, b) && k.c1 == F(P, ch, 1, b) && k.c2 == F(P, ch, 2, b) && k.c3 == F(P, ch, 3, b)
    && k.c4 == F(P, ch, 4, b) && k.c5 == F(P, ch, 5, b) && k.c6 == F(P, ch, 6, b)
  }

  /** The seven accumulators. */
  datatype Accs<T> = Accs(v16: seq<T>, v18: seq<T>, v20: seq<T>, v22: seq<T>, v24: seq<T>, v26: seq<T>, v28: seq<T>)

  ghost predicate ValidStrip<T>(P: Problem<T>, s: Strip) {
    Valid(P) && s.n >= 1 && s.n0 + s.n <= P.N
  }

  // ---------- Between groups ----------

  lemma StartGroup<T>(P: Problem<T>, s: Strip, v: seq<T>, g: Group)
    requires Holds(P, s, v, g.r, g.alo)
    ensures Ready(P, s, v, g, 0, 0)
  {
  }

  lemma NextChannel<T>(P: Problem<T>, s: Strip, v: seq<T>, g: Group, ch: nat)
    requires Ready(P, s, v, g, ch, 7)
    ensures Ready(P, s, v, g, ch + 1, 0)
  {
  }

  lemma EndGroup<T(!new)>(P: Problem<T>, s: Strip, v: seq<T>, g: Group)
    requires CommRing(P.R) && P.C >= 1 && g.alo <= g.ahi && Ready(P, s, v, g, P.C - 1, 7)
    ensures Holds(P, s, v, g.r, g.ahi)
  {
    forall t | 0 <= t < s.n ensures v[t] == Rows(P, g.r, g.ahi, s.n0 + t) {
      FoldIsRows(P, g, s.n0 + t);
    }
  }

  // ---------- Instructions ----------

  /** `vle64.v` of an input row. */
  method Load<T>(P: Problem<T>, s: Strip, ch: nat, row: nat) returns (v: seq<T>)
    requires ValidStrip(P, s) && ch < P.C && row < P.M + 6
    ensures Window(P, s, v, ch, row, 0)
  {
    v := P.img[ch][row][s.n0..s.n0 + s.n];
  }

  /** `vslide1down` of a row by one, the next element of the row entering at the tail. */
  method Slide<T>(P: Problem<T>, s: Strip, v: seq<T>, ch: nat, row: nat, b: nat) returns (r: seq<T>)
    requires ValidStrip(P, s) && ch < P.C && row < P.M + 6 && b < 6 && Window(P, s, v, ch, row, b)
    ensures Window(P, s, r, ch, row, b + 1)
  {
    // i_slide_ptr points n elements behind the strip, and was bumped b times
    r := Slide1Down(v, P.img[ch][row][s.n0 + s.n + b]);
  }

  /** The scalar loads of filter column b of channel ch. */
  method LoadCoefs<T>(P: Problem<T>, ch: nat, b: nat) returns (k: Coefs<T>)
    requires Valid(P) && ch < P.C && b < 7
    ensures Column(P, ch, b, k)
  {
    var base := b + ch * 49;
    k := Coefs(P.f[0 + base], P.f[7 + base], P.f[14 + base], P.f[21 + base], P.f[28 + base], P.f[35 + base], P.f[42 + base]);
  }

  /** `vmacc`: row a of column b, for the output row of the accumulator. */
  method Macc<T>(P: Problem<T>, s: Strip, acc: seq<T>, x: T, w: seq<T>, ghost g: Group, ghost ch: nat, ghost b: nat, ghost a: nat)
      returns (r: seq<T>)
    requires g.alo <= a && Partial(P, s, acc, g, ch, b, a)
    requires x == F(P, ch, a, b) && Window(P, s, w, ch, g.r + a, b)
    ensures Partial(P, s, r, g, ch, b, a + 1)
  {
    r := VMaccScalar(P.R, acc, x, w);
  }

  /** The first instruction on a new output row: `vmul` at the very first column, `vmacc` later. */
  method First<T(!new)>(P: Problem<T>, s: Strip, acc: seq<T>, x: T, w: seq<T>, ghost g: Group, ch: nat, b: nat)
      returns (r: seq<T>)
    requires CommRing(P.R) && g.alo == 0 && Ready(P, s, acc, g, ch, b)
    requires x == F(P, ch, 0, b) && Window(P, s, w, ch, g.r, b)
    ensures Partial(P, s, r, g, ch, b, 1)
  {
    if ch == 0 && b == 0 {
      r := VMulScalar(P.R, x, w);
      forall t | 0 <= t < s.n ensures r[t] == Fold(P, g, s.n0 + t, ch, b, 1) {
        AddZero(P.R, r[t]);
      }
    } else {
      r := Macc(P, s, acc, x, w, g, ch, b, 0);
    }
  }

  /** Row alo, for an accumulator that was begun in an earlier group. */
  method Go<T>(P: Problem<T>, s: Strip, acc: seq<T>, x: T, w: seq<T>, ghost g: Group, ghost ch: nat, ghost b: nat)
      returns (r: seq<T>)
    requires g.alo > 0 && Ready(P, s, acc, g, ch, b)
    requires x == F(P, ch, g.alo, b) && Window(P, s, w, ch, g.r + g.alo, b)
    ensures Partial(P, s, r, g, ch, b, g.alo + 1)
  {
    r := Macc(P, s, acc, x, w, g, ch, b, g.alo);
  }

  lemma Done<T>(P: Problem<T>, s: Strip, v: seq<T>, g: Group, ch: nat, b: nat)
    requires g.alo <= g.ahi && Partial(P, s, v, g, ch, b, g.ahi)
    ensures Ready(P, s, v, g, ch, b + 1)
  {
  }

  // ---------- Phases ----------

  /** What the loaded input rows are to an accumulator: a group of its filter rows, or nothing. */
  datatype Role = Works(g: Group) | Idle

  datatype Roles = Roles(g16: Role, g18: Role, g20: Role, g22: Role, g24: Role, g26: Role, g28: Role)

  /** Head4: input rows 0 to 3.  Head3: rows 4 to 6.  Regime: one row.  Tail4, Tail3: the last seven rows. */
  datatype Phase = Head4 | Head3 | Regime | Tail4 | Tail3

  /** v16 is output row o in all phases. */
  function RolesOf(ph: Phase, o: nat): Roles {
    match ph
    case Head4 =>
      Roles(Works(Group(o, 0, 4)), Works(Group(o + 1, 0, 3)), Works(Group(o + 2, 0, 2)), Works(Group(o + 3, 0, 1)), Idle, Idle, Idle)
    case Head3 =>
      Roles(Works(Group(o, 4, 7)), Works(Group(o + 1, 3, 6)), Works(Group(o + 2, 2, 5)), Works(Group(o + 3, 1, 4)),
            Works(Group(o + 4, 0, 3)), Works(Group(o + 5, 0, 2)), Works(Group(o + 6, 0, 1)))
    case Regime =>
      Roles(Works(Group(o, 6, 7)), Works(Group(o + 1, 5, 6)), Works(Group(o + 2, 4, 5)), Works(Group(o + 3, 3, 4)),
            Works(Group(o + 4, 2, 3)), Works(Group(o + 5, 1, 2)), Works(Group(o + 6, 0, 1)))
    case Tail4 =>
      Roles(Works(Group(o, 6, 7)), Works(Group(o + 1, 5, 7)), Works(Group(o + 2, 4, 7)), Works(Group(o + 3, 3, 7)),
            Works(Group(o + 4, 2, 6)), Works(Group(o + 5, 1, 5)), Works(Group(o + 6, 0, 4)))
    case Tail3 =>
      Roles(Idle, Idle, Idle, Idle, Works(Group(o + 4, 6, 7)), Works(Group(o + 5, 5, 7)), Works(Group(o + 6, 4, 7)))
  }

  function FirstRow(ph: Phase, o: nat): nat {
    match ph
    case Head4 => o
    case Head3 => o + 4
    case Regime => o + 6
    case Tail4 => o + 6
    case Tail3 => o + 10
  }

  function RowCount(ph: Phase): (n: nat)
    ensures 1 <= n <= 4
  {
    match ph
    case Head4 => 4
    case Head3 => 3
    case Regime => 1
    case Tail4 => 4
    case Tail3 => 3
  }

  ghost predicate RoleReady<T>(P: Problem<T>, s: Strip, v: seq<T>, role: Role, ch: nat, b: nat) {
    |v| == s.n && (role.Works? ==> Ready(P, s, v, role.g, ch, b))
  }

  /** All accumulators are ready for column b of channel ch. */
  ghost predicate AllReady<T>(P: Problem<T>, s: Strip, A: Accs<T>, q: Roles, ch: nat, b: nat) {
    && RoleReady(P, s, A.v16, q.g16, ch, b) && RoleReady(P, s, A.v18, q.g18, ch, b) && RoleReady(P, s, A.v20, q.g20, ch, b)
    && RoleReady(P, s, A.v22, q.g22, ch, b) && RoleReady(P, s, A.v24, q.g24, ch, b) && RoleReady(P, s, A.v26, q.g26, ch, b)
    && RoleReady(P, s, A.v28, q.g28, ch, b)
  }

  /** The accumulator holds the filter rows in front of its group, or those up to the end of it. */
  ghost predicate RoleHolds<T>(P: Problem<T>, s: Strip, v: seq<T>, role: Role, done: bool) {
    |v| == s.n && (role.Works? ==> Holds(P, s, v, role.g.r, if done then role.g.ahi else role.g.alo))
  }

  ghost predicate AllHold<T>(P: Problem<T>, s: Strip, A: Accs<T>, q: Roles, done: bool) {
    && RoleHolds(P, s, A.v16, q.g16, done) && RoleHolds(P, s, A.v18, q.g18, done) && RoleHolds(P, s, A.v20, q.g20, done)
    && RoleHolds(P, s, A.v22, q.g22, done) && RoleHolds(P, s, A.v24, q.g24, done) && RoleHolds(P, s, A.v26, q.g26, done)
    && RoleHolds(P, s, A.v28, q.g28, done)
  }

  lemma RoleStarts<T>(P: Problem<T>, s: Strip, v: seq<T>, role: Role)
    requires RoleHolds(P, s, v, role, false)
    ensures RoleReady(P, s, v, role, 0, 0)
  {
    if role.Works? {
      StartGroup(P, s, v, role.g);
    }
  }

  lemma StartPhase<T>(P: Problem<T>, s: Strip, A: Accs<T>, q: Roles)
    requires AllHold(P, s, A, q, false)
    ensures AllReady(P, s, A, q, 0, 0)
  {
    hide RoleHolds, RoleReady;
    RoleStarts(P, s, A.v16, q.g16);
    RoleStarts(P, s, A.v18, q.g18);
    RoleStarts(P, s, A.v20, q.g20);
    RoleStarts(P, s, A.v22, q.g22);
    RoleStarts(P, s, A.v24, q.g24);
    RoleStarts(P, s, A.v26, q.g26);
    RoleStarts(P, s, A.v28, q.g28);
  }

  lemma RoleNextChannel<T>(P: Problem<T>, s: Strip, v: seq<T>, role: Role, ch: nat)
    requires RoleReady(P, s, v, role, ch, 7)
    ensures RoleReady(P, s, v, role, ch + 1, 0)
  {
    if role.Works? {
      NextChannel(P, s, v, role.g, ch);
    }
  }

  lemma NextPhaseChannel<T>(P: Problem<T>, s: Strip, A: Accs<T>, q: Roles, ch: nat)
    requires AllReady(P, s, A, q, ch, 7)
    ensures AllReady(P, s, A, q, ch + 1, 0)
  {
    hide RoleReady;
    RoleNextChannel(P, s, A.v16, q.g16, ch);
    RoleNextChannel(P, s, A.v18, q.g18, ch);
    RoleNextChannel(P, s, A.v20, q.g20, ch);
    RoleNextChannel(P, s, A.v22, q.g22, ch);
    RoleNextChannel(P, s, A.v24, q.g24, ch);
    RoleNextChannel(P, s, A.v26, q.g26, ch);
    RoleNextChannel(P, s, A.v28, q.g28, ch);
  }

  lemma RoleEnds<T(!new)>(P: Problem<T>, s: Strip, v: seq<T>, role: Role)
    requires CommRing(P.R) && P.C >= 1 && (role.Works? ==> role.g.alo <= role.g.ahi)
    requires RoleReady(P, s, v, role, P.C - 1, 7)
    ensures RoleHolds(P, s, v, role, true)
  {
    if role.Works? {
      EndGroup(P, s, v, role.g);
    }
  }

  lemma EndPhase<T(!new)>(P: Problem<T>, s: Strip, A: Accs<T>, ph: Phase, o: nat)
    requires CommRing(P.R) && P.C >= 1 && AllReady(P, s, A, RolesOf(ph, o), P.C - 1, 7)
    ensures AllHold(P, s, A, RolesOf(ph, o), true)
  {
    hide RoleHolds, RoleReady, CommRing;
    var q := RolesOf(ph, o);
    RoleEnds(P, s, A.v16, q.g16);
    RoleEnds(P, s, A.v18, q.g18);
    RoleEnds(P, s, A.v20, q.g20);
    RoleEnds(P, s, A.v22, q.g22);
    RoleEnds(P, s, A.v24, q.g24);
    RoleEnds(P, s, A.v26, q.g26);
    RoleEnds(P, s, A.v28, q.g28);
  }

  // ---------- One filter column of each phase ----------

  lemma ReadyHasLanes<T>(P: Problem<T>, s: Strip, v: seq<T>, g: Group, ch: nat, b: nat)
    requires Ready(P, s, v, g, ch, b)
    ensures |v| == s.n
  {
  }

  /** One row of one column, for an accumulator whose group is that row. */
  method Feed<T>(P: Problem<T>, s: Strip, acc: seq<T>, x: T, w: seq<T>, ghost g: Group, ghost ch: nat, ghost b: nat) returns (r: seq<T>)
    requires g.alo > 0 && g.ahi == g.alo + 1 && Ready(P, s, acc, g, ch, b)
    requires x == F(P, ch, g.alo, b) && Window(P, s, w, ch, g.r + g.alo, b)
    ensures |r| == s.n && Ready(P, s, r, g, ch, b + 1)
  {
    hide Partial, Ready, Window, F;
    r := Go(P, s, acc, x, w, g, ch, b);
    Done(P, s, r, g, ch, b);
    ReadyHasLanes(P, s, r, g, ch, b + 1);
  }

  method FeedNew<T(!new)>(P: Problem<T>, s: Strip, acc: seq<T>, x: T, w: seq<T>, ghost g: Group, ch: nat, b: nat) returns (r: seq<T>)
    requires CommRing(P.R) && g.alo == 0 && g.ahi == 1 && Ready(P, s, acc, g, ch, b)
    requires x == F(P, ch, 0, b) && Window(P, s, w, ch, g.r, b)
    ensures |r| == s.n && Ready(P, s, r, g, ch, b + 1)
  {
    hide Partial, Ready, Window, F, CommRing;
    r := First(P, s, acc, x, w, g, ch, b);
    Done(P, s, r, g, ch, b);
    ReadyHasLanes(P, s, r, g, ch, b + 1);
  }

  method Head4Column<T(!new)>(P: Problem<T>, s: Strip, A: Accs<T>, w0: seq<T>, w1: seq<T>, w2: seq<T>, w3: seq<T>, k: Coefs<T>,
                   ch: nat, b: nat, ghost o: nat)
      returns (A': Accs<T>)
    requires CommRing(P.R) && AllReady(P, s, A, RolesOf(Head4, o), ch, b) && Column(P, ch, b, k)
    requires Window(P, s, w0, ch, o, b) && Window(P, s, w1, ch, o + 1, b) && Window(P, s, w2, ch, o + 2, b) && Window(P, s, w3, ch, o + 3, b)
    ensures AllReady(P, s, A', RolesOf(Head4, o), ch, b + 1)
  {
    hide Partial, Ready, Window, F, CommRing;
    ghost var g16 := Group(o, 0, 4);
    var v16 := First(P, s, A.v16, k.c0, w0, g16, ch, b);
    v16 := Macc(P, s, v16, k.c1, w1, g16, ch, b, 1);
    v16 := Macc(P, s, v16, k.c2, w2, g16, ch, b, 2);
    v16 := Macc(P, s, v16, k.c3, w3, g16, ch, b, 3);
    Done(P, s, v16, g16, ch, b);
    ghost var g18 := Group(o + 1, 0, 3);
    var v18 := First(P, s, A.v18, k.c0, w1, g18, ch, b);
    v18 := Macc(P, s, v18, k.c1, w2, g18, ch, b, 1);
    v18 := Macc(P, s, v18, k.c2, w3, g18, ch, b, 2);
    Done(P, s, v18, g18, ch, b);
    ghost var g20 := Group(o + 2, 0, 2);
    var v20 := First(P, s, A.v20, k.c0, w2, g20, ch, b);
    v20 := Macc(P, s, v20, k.c1, w3, g20, ch, b, 1);
    Done(P, s, v20, g20, ch, b);
    ghost var g22 := Group(o + 3, 0, 1);
    var v22 := First(P, s, A.v22, k.c0, w3, g22, ch, b);
    Done(P, s, v22, g22, ch, b);
    A' := A.(v16 := v16, v18 := v18, v20 := v20, v22 := v22);
  }

  method Head3Column<T(!new)>(P: Problem<T>, s: Strip, A: Accs<T>, w0: seq<T>, w1: seq<T>, w2: seq<T>, k: Coefs<T>,
                   ch: nat, b: nat, ghost o: nat)
      returns (A': Accs<T>)
    requires CommRing(P.R) && AllReady(P, s, A, RolesOf(Head3, o), ch, b) && Column(P, ch, b, k)
    requires Window(P, s, w0, ch, o + 4, b) && Window(P, s, w1, ch, o + 5, b) && Window(P, s, w2, ch, o + 6, b)
    ensures AllReady(P, s, A', RolesOf(Head3, o), ch, b + 1)
  {
    hide Partial, Ready, Window, F, CommRing;
    ghost var g16 := Group(o, 4, 7);
    var v16 := Go(P, s, A.v16, k.c4, w0, g16, ch, b);
    v16 := Macc(P, s, v16, k.c5, w1, g16, ch, b, 5);
    v16 := Macc(P, s, v16, k.c6, w2, g16, ch, b, 6);
    Done(P, s, v16, g16, ch, b);
    ghost var g18 := Group(o + 1, 3, 6);
    var v18 := Go(P, s, A.v18, k.c3, w0, g18, ch, b);
    v18 := Macc(P, s, v18, k.c4, w1, g18, ch, b, 4);
    v18 := Macc(P, s, v18, k.c5, w2, g18, ch, b, 5);
    Done(P, s, v18, g18, ch, b);
    ghost var g20 := Group(o + 2, 2, 5);
    var v20 := Go(P, s, A.v20, k.c2, w0, g20, ch, b);
    v20 := Macc(P, s, v20, k.c3, w1, g20, ch, b, 3);
    v20 := Macc(P, s, v20, k.c4, w2, g20, ch, b, 4);
    Done(P, s, v20, g20, ch, b);
    ghost var g22 := Group(o + 3, 1, 4);
    var v22 := Go(P, s, A.v22, k.c1, w0, g22, ch, b);
    v22 := Macc(P, s, v22, k.c2, w1, g22, ch, b, 2);
    v22 := Macc(P, s, v22, k.c3, w2, g22, ch, b, 3);
    Done(P, s, v22, g22, ch, b);
    ghost var g24 := Group(o + 4, 0, 3);
    var v24 := First(P, s, A.v24, k.c0, w0, g24, ch, b);
    v24 := Macc(P, s, v24, k.c1, w1, g24, ch, b, 1);
    v24 := Macc(P, s, v24, k.c2, w2, g24, ch, b, 2);
    Done(P, s, v24, g24, ch, b);
    ghost var g26 := Group(o + 5, 0, 2);
    var v26 := First(P, s, A.v26, k.c0, w1, g26, ch, b);
    v26 := Macc(P, s, v26, k.c1, w2, g26, ch, b, 1);
    Done(P, s, v26, g26, ch, b);
    ghost var g28 := Group(o + 6, 0, 1);
    var v28 := First(P, s, A.v28, k.c0, w2, g28, ch, b);
    Done(P, s, v28, g28, ch, b);
    A' := A.(v16 := v16, v18 := v18, v20 := v20, v22 := v22, v24 := v24, v26 := v26, v28 := v28);
  }

  method RegimeColumn<T(!new)>(P: Problem<T>, s: Strip, A: Accs<T>, w0: seq<T>, k: Coefs<T>,
                   ch: nat, b: nat, ghost o: nat)
      returns (A': Accs<T>)
    requires CommRing(P.R) && AllReady(P, s, A, RolesOf(Regime, o), ch, b) && Column(P, ch, b, k)
    requires Window(P, s, w0, ch, o + 6, b)
    ensures AllReady(P, s, A', RolesOf(Regime, o), ch, b + 1)
  {
    hide Partial, Ready, Window, F, CommRing;
    var v16 := Feed(P, s, A.v16, k.c6, w0, Group(o, 6, 7), ch, b);
    var v18 := Feed(P, s, A.v18, k.c5, w0, Group(o + 1, 5, 6), ch, b);
    var v20 := Feed(P, s, A.v20, k.c4, w0, Group(o + 2, 4, 5), ch, b);
    var v22 := Feed(P, s, A.v22, k.c3, w0, Group(o + 3, 3, 4), ch, b);
    var v24 := Feed(P, s, A.v24, k.c2, w0, Group(o + 4, 2, 3), ch, b);
    var v26 := Feed(P, s, A.v26, k.c1, w0, Group(o + 5, 1, 2), ch, b);
    var v28 := FeedNew(P, s, A.v28, k.c0, w0, Group(o + 6, 0, 1), ch, b);
    A' := Accs(v16, v18, v20, v22, v24, v26, v28);
  }

  method Tail4Column<T(!new)>(P: Problem<T>, s: Strip, A: Accs<T>, w0: seq<T>, w1: seq<T>, w2: seq<T>, w3: seq<T>, k: Coefs<T>,
                   ch: nat, b: nat, ghost o: nat)
      returns (A': Accs<T>)
    requires CommRing(P.R) && AllReady(P, s, A, RolesOf(Tail4, o), ch, b) && Column(P, ch, b, k)
    requires Window(P, s, w0, ch, o + 6, b) && Window(P, s, w1, ch, o + 7, b) && Window(P, s, w2, ch, o + 8, b) && Window(P, s, w3, ch, o + 9, b)
    ensures AllReady(P, s, A', RolesOf(Tail4, o), ch, b + 1)
  {
    hide Partial, Ready, Window, F, CommRing;
    ghost var g16 := Group(o, 6, 7);
    var v16 := Go(P, s, A.v16, k.c6, w0, g16, ch, b);
    Done(P, s, v16, g16, ch, b);
    ghost var g18 := Group(o + 1, 5, 7);
    var v18 := Go(P, s, A.v18, k.c5, w0, g18, ch, b);
    v18 := Macc(P, s, v18, k.c6, w1, g18, ch, b, 6);
    Done(P, s, v18, g18, ch, b);
    ghost var g20 := Group(o + 2, 4, 7);
    var v20 := Go(P, s, A.v20, k.c4, w0, g20, ch, b);
    v20 := Macc(P, s, v20, k.c5, w1, g20, ch, b, 5);
    v20 := Macc(P, s, v20, k.c6, w2, g20, ch, b, 6);
    Done(P, s, v20, g20, ch, b);
    ghost var g22 := Group(o + 3, 3, 7);
    var v22 := Go(P, s, A.v22, k.c3, w0, g22, ch, b);
    v22 := Macc(P, s, v22, k.c4, w1, g22, ch, b, 4);
    v22 := Macc(P, s, v22, k.c5, w2, g22, ch, b, 5);
    v22 := Macc(P, s, v22, k.c6, w3, g22, ch, b, 6);
    Done(P, s, v22, g22, ch, b);
    ghost var g24 := Group(o + 4, 2, 6);
    var v24 := Go(P, s, A.v24, k.c2, w0, g24, ch, b);
    v24 := Macc(P, s, v24, k.c3, w1, g24, ch, b, 3);
    v24 := Macc(P, s, v24, k.c4, w2, g24, ch, b, 4);
    v24 := Macc(P, s, v24, k.c5, w3, g24, ch, b, 5);
    Done(P, s, v24, g24, ch, b);
    ghost var g26 := Group(o + 5, 1, 5);
    var v26 := Go(P, s, A.v26, k.c1, w0, g26, ch, b);
    v26 := Macc(P, s, v26, k.c2, w1, g26, ch, b, 2);
    v26 := Macc(P, s, v26, k.c3, w2, g26, ch, b, 3);
    v26 := Macc(P, s, v26, k.c4, w3, g26, ch, b, 4);
    Done(P, s, v26, g26, ch, b);
    ghost var g28 := Group(o + 6, 0, 4);
    var v28 := First(P, s, A.v28, k.c0, w0, g28, ch, b);
    v28 := Macc(P, s, v28, k.c1, w1, g28, ch, b, 1);
    v28 := Macc(P, s, v28, k.c2, w2, g28, ch, b, 2);
    v28 := Macc(P, s, v28, k.c3, w3, g28, ch, b, 3);
    Done(P, s, v28, g28, ch, b);
    A' := A.(v16 := v16, v18 := v18, v20 := v20, v22 := v22, v24 := v24, v26 := v26, v28 := v28);
  }

  method Tail3Column<T(!new)>(P: Problem<T>, s: Strip, A: Accs<T>, w0: seq<T>, w1: seq<T>, w2: seq<T>, k: Coefs<T>,
                   ch: nat, b: nat, ghost o: nat)
      returns (A': Accs<T>)
    requires CommRing(P.R) && AllReady(P, s, A, RolesOf(Tail3, o), ch, b) && Column(P, ch, b, k)
    requires Window(P, s, w0, ch, o + 10, b) && Window(P, s, w1, ch, o + 11, b) && Window(P, s, w2, ch, o + 12, b)
    ensures AllReady(P, s, A', RolesOf(Tail3, o), ch, b + 1)
    ensures A'.v16 == A.v16 && A'.v18 == A.v18 && A'.v20 == A.v20 && A'.v22 == A.v22
  {
    hide Partial, Ready, Window, F, CommRing;
    ghost var g24 := Group(o + 4, 6, 7);
    var v24 := Go(P, s, A.v24, k.c6, w0, g24, ch, b);
    Done(P, s, v24, g24, ch, b);
    ghost var g26 := Group(o + 5, 5, 7);
    var v26 := Go(P, s, A.v26, k.c5, w0, g26, ch, b);
    v26 := Macc(P, s, v26, k.c6, w1, g26, ch, b, 6);
    Done(P, s, v26, g26, ch, b);
    ghost var g28 := Group(o + 6, 4, 7);
    var v28 := Go(P, s, A.v28, k.c4, w0, g28, ch, b);
    v28 := Macc(P, s, v28, k.c5, w1, g28, ch, b, 5);
    v28 := Macc(P, s, v28, k.c6, w2, g28, ch, b, 6);
    Done(P, s, v28, g28, ch, b);
    A' := A.(v24 := v24, v26 := v26, v28 := v28);
  }

  /** All rows of the phase, slid to column b. */
  ghost predicate Windows<T>(P: Problem<T>, s: Strip, ws: seq<seq<T>>, ch: nat, row: nat, n: nat, b: nat) {
    |ws| == n && forall j :: 0 <= j < n ==> Window(P, s, ws[j], ch, row + j, b)
  }

  /** The column of a phase, with its coefficients at hand. */
  method PhaseColumn<T(!new)>(P: Problem<T>, s: Strip, A: Accs<T>, ws: seq<seq<T>>, k: Coefs<T>, ch: nat, b: nat, ph: Phase, ghost o: nat)
      returns (A': Accs<T>)
    requires CommRing(P.R) && AllReady(P, s, A, RolesOf(ph, o), ch, b) && Column(P, ch, b, k)
    requires Windows(P, s, ws, ch, FirstRow(ph, o), RowCount(ph), b)
    ensures AllReady(P, s, A', RolesOf(ph, o), ch, b + 1)
    ensures ph == Tail3 ==> A'.v16 == A.v16 && A'.v18 == A.v18 && A'.v20 == A.v20 && A'.v22 == A.v22
  {
    hide AllReady, RolesOf, Window, Column, CommRing;
    match ph
    case Head4 => A' := Head4Column(P, s, A, ws[0], ws[1], ws[2], ws[3], k, ch, b, o);
    case Head3 => A' := Head3Column(P, s, A, ws[0], ws[1], ws[2], k, ch, b, o);
    case Regime => A' := RegimeColumn(P, s, A, ws[0], k, ch, b, o);
    case Tail4 => A' := Tail4Column(P, s, A, ws[0], ws[1], ws[2], ws[3], k, ch, b, o);
    case Tail3 => A' := Tail3Column(P, s, A, ws[0], ws[1], ws[2], k, ch, b, o);
  }

  // ---------- The regime column with its coefficients loaded ahead ----------

  /** `f[7 * a + base]`, one scalar load. */
  method LoadCoef<T>(P: Problem<T>, a: nat, base: nat, ghost ch: nat, ghost b: nat) returns (x: T)
    requires Valid(P) && ch < P.C && b < 7 && a < 7 && base == b + ch * 49
    ensures x == F(P, ch, a, b)
  {
    x := P.f[7 * a + base];
  }

  /**
    One column of the regime, as the loop over the columns interleaves it: f6_buf .. f0_buf hold column b of
    channel ch, and each of them is overwritten by its successor in column (chN, bN) while the ones below it
    are still to be used.  In between the input row slides on.
   */
  method RegimeColumnAhead<T(!new)>(P: Problem<T>, s: Strip, A: Accs<T>, w: seq<T>, fbuf: Coefs<T>, base: nat,
                                    ch: nat, b: nat, o: nat, ghost chN: nat, ghost bN: nat)
      returns (A': Accs<T>, fbuf': Coefs<T>, w': seq<T>)
    requires CommRing(P.R) && ValidStrip(P, s) && ch < P.C && b < 6 && o + 6 < P.M + 6
    requires chN < P.C && bN < 7 && base == bN + chN * 49
    requires AllReady(P, s, A, RolesOf(Regime, o), ch, b) && Column(P, ch, b, fbuf) && Window(P, s, w, ch, o + 6, b)
    ensures AllReady(P, s, A', RolesOf(Regime, o), ch, b + 1) && Column(P, chN, bN, fbuf') && Window(P, s, w', ch, o + 6, b + 1)
  {
    hide Partial, Ready, Window, F, CommRing, Valid;
    var c6, c5, c4, c3, c2, c1, c0 := fbuf.c6, fbuf.c5, fbuf.c4, fbuf.c3, fbuf.c2, fbuf.c1, fbuf.c0;
    var v16 := Feed(P, s, A.v16, c6, w, Group(o, 6, 7), ch, b);
    var v18 := Feed(P, s, A.v18, c5, w, Group(o + 1, 5, 6), ch, b);
    c6 := LoadCoef(P, 6, base, chN, bN);
    var v20 := Feed(P, s, A.v20, c4, w, Group(o + 2, 4, 5), ch, b);
    c5 := LoadCoef(P, 5, base, chN, bN);
    w' := Slide(P, s, w, ch, o + 6, b);
    c4 := LoadCoef(P, 4, base, chN, bN);
    var v22 := Feed(P, s, A.v22, c3, w, Group(o + 3, 3, 4), ch, b);
    c3 := LoadCoef(P, 3, base, chN, bN);
    var v24 := Feed(P, s, A.v24, c2, w, Group(o + 4, 2, 3), ch, b);
    c2 := LoadCoef(P, 2, base, chN, bN);
    var v26 := Feed(P, s, A.v26, c1, w, Group(o + 5, 1, 2), ch, b);
    c1 := LoadCoef(P, 1, base, chN, bN);
    var v28 := FeedNew(P, s, A.v28, c0, w, Group(o + 6, 0, 1), ch, b);
    c0 := LoadCoef(P, 0, base, chN, bN);
    A', fbuf' := Accs(v16, v18, v20, v22, v24, v26, v28), Coefs(c0, c1, c2, c3, c4, c5, c6);
  }

  /** The last column of a channel that is not the last: each coefficient is replaced right after its use, and nothing slides. */
  method RegimeLastColumnAhead<T(!new)>(P: Problem<T>, s: Strip, A: Accs<T>, w: seq<T>, fbuf: Coefs<T>, base: nat,
                                        ch: nat, b: nat, ghost o: nat, ghost chN: nat, ghost bN: nat)
      returns (A': Accs<T>, fbuf': Coefs<T>)
    requires CommRing(P.R) && Valid(P) && chN < P.C && bN < 7 && base == bN + chN * 49
    requires AllReady(P, s, A, RolesOf(Regime, o), ch, b) && Column(P, ch, b, fbuf) && Window(P, s, w, ch, o + 6, b)
    ensures AllReady(P, s, A', RolesOf(Regime, o), ch, b + 1) && Column(P, chN, bN, fbuf')
  {
    hide Partial, Ready, Window, F, CommRing, Valid;
    var c6, c5, c4, c3, c2, c1, c0 := fbuf.c6, fbuf.c5, fbuf.c4, fbuf.c3, fbuf.c2, fbuf.c1, fbuf.c0;
    var v16 := Feed(P, s, A.v16, c6, w, Group(o, 6, 7), ch, b);
    c6 := LoadCoef(P, 6, base, chN, bN);
    var v18 := Feed(P, s, A.v18, c5, w, Group(o + 1, 5, 6), ch, b);
    c5 := LoadCoef(P, 5, base, chN, bN);
    var v20 := Feed(P, s, A.v20, c4, w, Group(o + 2, 4, 5), ch, b);
    c4 := LoadCoef(P, 4, base, chN, bN);
    var v22 := Feed(P, s, A.v22, c3, w, Group(o + 3, 3, 4), ch, b);
    c3 := LoadCoef(P, 3, base, chN, bN);
    var v24 := Feed(P, s, A.v24, c2, w, Group(o + 4, 2, 3), ch, b);
    c2 := LoadCoef(P, 2, base, chN, bN);
    var v26 := Feed(P, s, A.v26, c1, w, Group(o + 5, 1, 2), ch, b);
    c1 := LoadCoef(P, 1, base, chN, bN);
    var v28 := FeedNew(P, s, A.v28, c0, w, Group(o + 6, 0, 1), ch, b);
    c0 := LoadCoef(P, 0, base, chN, bN);
    A', fbuf' := Accs(v16, v18, v20, v22, v24, v26, v28), Coefs(c0, c1, c2, c3, c4, c5, c6);
  }

  /** The very last column of a row uses the coefficients fl, while fbuf is loaded with the first column of channel 0. */
  method RegimeFinish<T(!new)>(P: Problem<T>, s: Strip, A: Accs<T>, w: seq<T>, fl: Coefs<T>, ch: nat, b: nat, ghost o: nat)
      returns (A': Accs<T>, fbuf': Coefs<T>)
    requires CommRing(P.R) && Valid(P)
    requires AllReady(P, s, A, RolesOf(Regime, o), ch, b) && Column(P, ch, b, fl) && Window(P, s, w, ch, o + 6, b)
    ensures AllReady(P, s, A', RolesOf(Regime, o), ch, b + 1) && Column(P, 0, 0, fbuf')
  {
    hide Partial, Ready, Window, F, CommRing, Valid;
    HasChannel(P);
    var c6 := LoadCoef(P, 6, 0, 0, 0);
    var v16 := Feed(P, s, A.v16, fl.c6, w, Group(o, 6, 7), ch, b);
    var c5 := LoadCoef(P, 5, 0, 0, 0);
    var v18 := Feed(P, s, A.v18, fl.c5, w, Group(o + 1, 5, 6), ch, b);
    var v20 := Feed(P, s, A.v20, fl.c4, w, Group(o + 2, 4, 5), ch, b);
    var c4 := LoadCoef(P, 4, 0, 0, 0);
    var v22 := Feed(P, s, A.v22, fl.c3, w, Group(o + 3, 3, 4), ch, b);
    var c3 := LoadCoef(P, 3, 0, 0, 0);
    var v24 := Feed(P, s, A.v24, fl.c2, w, Group(o + 4, 2, 3), ch, b);
    var c2 := LoadCoef(P, 2, 0, 0, 0);
    var v26 := Feed(P, s, A.v26, fl.c1, w, Group(o + 5, 1, 2), ch, b);
    var c1 := LoadCoef(P, 1, 0, 0, 0);
    var v28 := FeedNew(P, s, A.v28, fl.c0, w, Group(o + 6, 0, 1), ch, b);
    var c0 := LoadCoef(P, 0, 0, 0, 0);
    A', fbuf' := Accs(v16, v18, v20, v22, v24, v26, v28), Coefs(c0, c1, c2, c3, c4, c5, c6);
  }
}
