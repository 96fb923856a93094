/**
 The dining philosophers of kern/sync/check_sync.c:76-130, with a mutex and one private
 semaphore each.  A step runs from one semaphore operation to the next.
 */
module PhilosophersSem {
  import opened Philosophers
  import opened Semaphore

  /** `Rest` and `Meal` are outside; in phi_take_forks_sema a philosopher may sleep on the mutex
      (`AskTake`), run the critical section (`Take1`, `Take2`), and call down(&s[i]) (`Take3`) and
      sleep in it (`Take4`); phi_put_forks_sema likewise. */
  datatype Pos = Rest | AskTake | Take1 | Take2 | Take3 | Take4 | Meal | AskPut | Put1 | Put2 | Put3

  datatype Table = Table(mutex: Sem, s: seq<Sem>, st: seq<Phil>, pos: seq<Pos>)

  ghost predicate Typed(t: Table) {
    |t.s| == N && |t.st| == N && |t.pos| == N
  }

  // ----- the program ----------------------------------------------------------------

  /** phi_test_sema(j). */
  function Test(t: Table, j: nat): Table
    requires |t.s| == N && |t.st| == N && j < N
  {
    if MayEat(t.st, j) then t.(st := t.st[j := Eating], s := t.s[j := Up(t.s[j])]) else t
  }

  /** Philosopher `i` is not asleep, or has been woken. */
  predicate CanMove(t: Table, i: nat)
    requires |t.s| == N && |t.st| == N && |t.pos| == N
  {
    && i < N
    && (t.pos[i] in {AskTake, AskPut} ==> i in t.mutex.granted)
    && (t.pos[i] == Take4 ==> i in t.s[i].granted)
  }

  function At(t: Table, i: nat, p: Pos): Table
    requires i < |t.pos|
  {
    t.(pos := t.pos[i := p])
  }

  function Next(t: Table, i: nat): Table
    requires |t.s| == N && |t.st| == N && |t.pos| == N && CanMove(t, i)
  {
    match t.pos[i]
    case Rest => At(t.(mutex := Down(t.mutex, i)), i, if t.mutex.value > 0 then Take1 else AskTake)
    case AskTake => At(t.(mutex := Resume(t.mutex, i)), i, Take1)
    case Take1 => Test(At(t.(st := t.st[i := Hungry]), i, Take2), i)
    case Take2 => At(t.(mutex := Up(t.mutex)), i, Take3)
    case Take3 => At(t.(s := t.s[i := Down(t.s[i], i)]), i, if t.s[i].value > 0 then Meal else Take4)
    case Take4 => At(t.(s := t.s[i := Resume(t.s[i], i)]), i, Meal)
    case Meal => At(t.(mutex := Down(t.mutex, i)), i, if t.mutex.value > 0 then Put1 else AskPut)
    case AskPut => At(t.(mutex := Resume(t.mutex, i)), i, Put1)
    case Put1 => Test(At(t.(st := t.st[i := Thinking]), i, Put2), Left(i))
    case Put2 => Test(At(t, i, Put3), Right(i))
    case Put3 => At(t.(mutex := Up(t.mutex)), i, Rest)
  }

  ghost predicate Start(t: Table) {
    && Typed(t) && t.mutex == Sem(1, [], {})
    && forall i: nat | i < N :: t.s[i] == Sem(0, [], {}) && t.st[i] == Thinking && t.pos[i] == Rest
  }

  ghost predicate Run(t: seq<Table>, who: seq<nat>) {
    && |t| == |who| + 1
    && forall k | 0 <= k < |who| :: Typed(t[k]) && CanMove(t[k], who[k]) && t[k + 1] == Next(t[k], who[k])
  }

  // ----- the invariant --------------------------------------------------------------

  predicate Inside(p: Pos) { p in {Take1, Take2, Put1, Put2, Put3} }
  predicate Asks(p: Pos) { p in {AskTake, AskPut} }

  /** Who has the mutex: nobody, a philosopher it was handed to, or one inside. */
  datatype Token = Free | Handed(i: nat) | Held(i: nat)

  ghost predicate MutexOk(m: Sem, pos: seq<Pos>, tok: Token)
    requires |pos| == N
  {
    && Valid(m)
    && m.value == (if tok == Free then 1 else 0)
    && m.granted == (if tok.Handed? then {tok.i} else {})
    && (forall i <- m.queue :: i < N) && (!tok.Free? ==> tok.i < N)
    && forall i: nat | i < N :: MutexSeat(m, pos, tok, i)
  }

  ghost predicate MutexSeat(m: Sem, pos: seq<Pos>, tok: Token, i: nat)
    requires |pos| == N && i < N
  {
    && (Asks(pos[i]) <==> i in m.queue || i in m.granted)
    && (Inside(pos[i]) <==> tok == Held(i))
  }

  /** The private semaphore holds a unit exactly from the moment its philosopher may eat until
      it notices. */
  function Private(i: nat, p: Pos, st: Phil): Sem {
    if p in {Take2, Take3} && st == Eating then Sem(1, [], {})
    else if p == Take4 then if st == Eating then Sem(0, [], {i}) else Sem(0, [i], {})
    else Sem(0, [], {})
  }

  ghost predicate Consistent(p: Pos, st: Phil) {
    match p
    case Rest | AskTake | Take1 | Put2 | Put3 => st == Thinking
    case Take2 | Take3 | Take4 => st != Thinking
    case Meal | AskPut | Put1 => st == Eating
  }

  /** A hungry philosopher sits next to an eating one, unless its left neighbour has put the
      forks down and has not yet looked to its right. */
  ghost predicate Seat(t: Table, i: nat)
    requires Typed(t) && i < N
  {
    && t.s[i] == Private(i, t.pos[i], t.st[i])
    && Consistent(t.pos[i], t.st[i])
    && Apart(t.st, i)
    && (MayEat(t.st, i) ==> t.pos[Left(i)] == Put2)
  }

  ghost predicate TInv(t: Table, tok: Token) {
    && Typed(t) && MutexOk(t.mutex, t.pos, tok)
    && forall i: nat | i < N :: Seat(t, i)
  }

  // ----- every step keeps it --------------------------------------------------------

  /** The token after `i` moves. */
  function NextToken(t: Table, i: nat, tok: Token): Token
    requires |t.pos| == N && i < N
  {
    match t.pos[i]
    case Rest | Meal => if t.mutex.value > 0 then Held(i) else tok
    case AskTake | AskPut => Held(i)
    case Take2 | Put3 => if t.mutex.queue == [] then Free else Handed(t.mutex.queue[0])
    case _ => tok
  }

  lemma MutexDown(m: Sem, pos: seq<Pos>, tok: Token, i: nat, p: Pos)
    requires |pos| == N && i < N && MutexOk(m, pos, tok) && !Asks(pos[i]) && !Inside(pos[i])
    requires if m.value > 0 then Inside(p) else Asks(p)
    ensures MutexOk(Down(m, i), pos[i := p], if m.value > 0 then Held(i) else tok)
  {
    var m', pos', tok' := Down(m, i), pos[i := p], if m.value > 0 then Held(i) else tok;
    assert MutexSeat(m, pos, tok, i);
    forall k: nat | k < N ensures MutexSeat(m', pos', tok', k) {
      assert MutexSeat(m, pos, tok, k);
    }
  }

  lemma MutexResume(m: Sem, pos: seq<Pos>, tok: Token, i: nat, p: Pos)
    requires |pos| == N && i < N && MutexOk(m, pos, tok) && i in m.granted && Inside(p)
    ensures MutexOk(Resume(m, i), pos[i := p], Held(i))
  {
    var m', pos' := Resume(m, i), pos[i := p];
    assert MutexSeat(m, pos, tok, i);
    forall k: nat | k < N ensures MutexSeat(m', pos', Held(i), k) {
      assert MutexSeat(m, pos, tok, k);
    }
  }

  lemma MutexUp(m: Sem, pos: seq<Pos>, tok: Token, i: nat, p: Pos)
    requires |pos| == N && i < N && MutexOk(m, pos, tok) && Inside(pos[i]) && !Inside(p) && !Asks(p)
    ensures MutexOk(Up(m), pos[i := p], if m.queue == [] then Free else Handed(m.queue[0]))
  {
    var m', pos' := Up(m), pos[i := p];
    var tok' := if m.queue == [] then Free else Handed(m.queue[0]);
    assert MutexSeat(m, pos, tok, i);
    assert forall x <- m'.queue :: x in m.queue;
    assert m.queue != [] ==> m.queue[0] in m.queue;
    forall k: nat | k < N ensures MutexSeat(m', pos', tok', k) {
      assert MutexSeat(m, pos, tok, k);
    }
  }

  lemma MutexSame(m: Sem, pos: seq<Pos>, tok: Token, i: nat, p: Pos)
    requires |pos| == N && i < N && MutexOk(m, pos, tok)
    requires Inside(pos[i]) == Inside(p) && Asks(pos[i]) == Asks(p)
    ensures MutexOk(m, pos[i := p], tok)
  {
    var pos' := pos[i := p];
    forall k: nat | k < N ensures MutexSeat(m, pos', tok, k) {
      assert MutexSeat(m, pos, tok, k);
    }
  }

  lemma MutexStep(t: Table, i: nat, tok: Token)
    requires TInv(t, tok) && CanMove(t, i)
    ensures Typed(Next(t, i)) && MutexOk(Next(t, i).mutex, Next(t, i).pos, NextToken(t, i, tok))
  {
    var p := Next(t, i).pos[i];
    match t.pos[i]
    case Rest | Meal => MutexDown(t.mutex, t.pos, tok, i, p);
    case AskTake | AskPut => MutexResume(t.mutex, t.pos, tok, i, p);
    case Take2 | Put3 => MutexUp(t.mutex, t.pos, tok, i, p);
    case _ => MutexSame(t.mutex, t.pos, tok, i, p);
  }

  /** Steps that leave the states alone. */
  lemma SeatMove(t: Table, i: nat, tok: Token)
    requires TInv(t, tok) && CanMove(t, i) && t.pos[i] !in {Take1, Put1, Put2}
    ensures forall k: nat | k < N :: Seat(Next(t, i), k)
  {
    var t' := Next(t, i);
    assert Seat(t, i) && MutexSeat(t.mutex, t.pos, tok, i);
    forall k: nat | k < N ensures Seat(t', k) {
      assert Seat(t, k) && Seat(t, Left(k)) && Seat(t, Right(k));
      assert MutexSeat(t.mutex, t.pos, tok, k) && MutexSeat(t.mutex, t.pos, tok, Left(k));
    }
  }

  lemma SeatTake(t: Table, i: nat, tok: Token, k: nat)
    requires TInv(t, tok) && CanMove(t, i) && t.pos[i] == Take1 && k < N
    ensures Seat(Next(t, i), k)
  {
    assert Seat(t, i) && Seat(t, k);
    assert MutexSeat(t.mutex, t.pos, tok, i) && MutexSeat(t.mutex, t.pos, tok, Left(k));
    if MayEat(t.st[i := Hungry], i) {
      EatingApart(t.st[i := Hungry], i, k);
    }
  }

  lemma SeatPutLeft(t: Table, i: nat, tok: Token, k: nat)
    requires TInv(t, tok) && CanMove(t, i) && t.pos[i] == Put1 && k < N
    ensures Seat(Next(t, i), k)
  {
    assert Seat(t, i) && Seat(t, k);
    assert MutexSeat(t.mutex, t.pos, tok, i) && MutexSeat(t.mutex, t.pos, tok, k);
    assert MutexSeat(t.mutex, t.pos, tok, Left(k));
    PutLeftServes(t.st, i, k);
  }

  lemma SeatPutRight(t: Table, i: nat, tok: Token, k: nat)
    requires TInv(t, tok) && CanMove(t, i) && t.pos[i] == Put2 && k < N
    ensures Seat(Next(t, i), k)
  {
    assert Seat(t, i) && Seat(t, k);
    assert MutexSeat(t.mutex, t.pos, tok, i) && MutexSeat(t.mutex, t.pos, tok, k);
    assert MutexSeat(t.mutex, t.pos, tok, Left(k));
    if MayEat(t.st, Right(i)) {
      EatingApart(t.st, Right(i), k);
      EatingServes(t.st, Right(i), k);
    }
  }

  lemma StepKeepsInv(t: Table, i: nat, tok: Token)
    requires TInv(t, tok) && CanMove(t, i)
    ensures TInv(Next(t, i), NextToken(t, i, tok))
  {
    MutexStep(t, i, tok);
    var t' := Next(t, i);
    forall k: nat | k < N ensures Seat(t', k) {
      match t.pos[i]
      case Take1 => SeatTake(t, i, tok, k);
      case Put1 => SeatPutLeft(t, i, tok, k);
      case Put2 => SeatPutRight(t, i, tok, k);
      case _ => SeatMove(t, i, tok);
    }
  }

  lemma {:induction false} RunKeepsInv(t: seq<Table>, who: seq<nat>, k: nat) returns (tok: Token)
    requires Run(t, who) && Start(t[0]) && k < |t|
    ensures TInv(t[k], tok)
  {
    if k == 0 {
      tok := Free;
    } else {
      var before := RunKeepsInv(t, who, k - 1);
      StepKeepsInv(t[k - 1], who[k - 1], before);
      tok := NextToken(t[k - 1], who[k - 1], before);
    }
  }

  // ----- what this means for whole runs ------------------------------------------------

  /** Two neighbours are never marked as eating together, so they never eat together. */
  lemma NeighboursNeverEatTogether(t: seq<Table>, who: seq<nat>, k: nat, i: nat)
    requires Run(t, who) && Start(t[0]) && k < |t| && i < N
    ensures Typed(t[k]) && !(t[k].st[i] == Eating && t[k].st[Right(i)] == Eating)
    ensures !(t[k].pos[i] == Meal && t[k].pos[Right(i)] == Meal)
  {
    var tok := RunKeepsInv(t, who, k);
    assert Seat(t[k], i) && Seat(t[k], Right(i));
  }

  /** No wake-up is missed: while the mutex is free, a hungry philosopher has an eating neighbour,
      and a philosopher that may eat has its unit waiting. */
  lemma HungryOnlyBesideEating(t: seq<Table>, who: seq<nat>, k: nat, i: nat)
    requires Run(t, who) && Start(t[0]) && k < |t| && i < N
    requires Typed(t[k]) && t[k].mutex.value == 1
    ensures t[k].st[i] == Hungry ==> t[k].st[Left(i)] == Eating || t[k].st[Right(i)] == Eating
    ensures t[k].st[i] == Eating && t[k].pos[i] in {Take3, Take4} ==> t[k].s[i].value == 1 || i in t[k].s[i].granted
  {
    var tok := RunKeepsInv(t, who, k);
    assert Seat(t[k], i) && MutexSeat(t[k].mutex, t[k].pos, tok, Left(i));
  }

  /** At most one philosopher is inside the critical section. */
  lemma MutualExclusion(t: seq<Table>, who: seq<nat>, k: nat, i: nat, j: nat)
    requires Run(t, who) && Start(t[0]) && k < |t| && i < N && j < N
    requires Typed(t[k]) && Inside(t[k].pos[i]) && Inside(t[k].pos[j])
    ensures i == j
  {
    var tok := RunKeepsInv(t, who, k);
    assert MutexSeat(t[k].mutex, t[k].pos, tok, i) && MutexSeat(t[k].mutex, t[k].pos, tok, j);
  }

  /** With the mutex free, a philosopher that is away can go on, or waits for a neighbour that can. */
  lemma FreeTableMoves(t: Table, tok: Token, j: nat) returns (i: nat)
    requires TInv(t, tok) && tok.Free? && j < N && t.pos[j] != Rest
    ensures i < N && t.pos[i] != Rest && CanMove(t, i)
  {
    i := j;
    assert Seat(t, j) && MutexSeat(t.mutex, t.pos, tok, j);
    if t.st[j] == Hungry {
      assert MutexSeat(t.mutex, t.pos, tok, Left(j));
      i := if t.st[Left(j)] == Eating then Left(j) else Right(j);
      assert Seat(t, i) && MutexSeat(t.mutex, t.pos, tok, i);
    }
  }

  /** The table never deadlocks, also when philosophers stop after some meals: in every state of every
      run in which somebody has not gone back to rest, somebody who has not can move. */
  lemma NoDeadlock(t: seq<Table>, who: seq<nat>, k: nat, j: nat) returns (i: nat)
    requires Run(t, who) && Start(t[0]) && k < |t| && j < N && (Typed(t[k]) ==> t[k].pos[j] != Rest)
    ensures Typed(t[k]) && i < N && t[k].pos[i] != Rest && CanMove(t[k], i)
  {
    var tok := RunKeepsInv(t, who, k);
    if tok.Free? {
      i := FreeTableMoves(t[k], tok, j);
    } else {
      i := tok.i;
      assert MutexSeat(t[k].mutex, t[k].pos, tok, i);
    }
  }

  // ----- every dinner ends ------------------------------------------------------------

  /** The meals that `i` has set out for in the first `k` steps. */
  ghost function Begun(t: seq<Table>, who: seq<nat>, k: nat, i: nat): nat
    requires k <= |who| == |t| - 1
  {
    if k == 0 then 0
    else Begun(t, who, k - 1, i) + if who[k - 1] == i && i < |t[k - 1].pos| && t[k - 1].pos[i] == Rest then 1 else 0
  }

  /** Nobody sets out for more than `times` meals. */
  ghost predicate Limited(t: seq<Table>, who: seq<nat>, times: nat)
    requires |who| == |t| - 1
  {
    forall i: nat | i < N :: Begun(t, who, |who|, i) <= times
  }

  /** The steps that are left of a meal, at most. */
  function ToDo(p: Pos): nat {
    match p
    case Rest => 0 case AskTake => 10 case Take1 => 9 case Take2 => 8 case Take3 => 7 case Take4 => 6
    case Meal => 5 case AskPut => 4 case Put1 => 3 case Put2 => 2 case Put3 => 1
  }

  lemma StepDoes(t: Table, who: nat, i: nat)
    requires Typed(t) && CanMove(t, who) && i < N
    ensures |Next(t, who).pos| == N && (who != i ==> Next(t, who).pos[i] == t.pos[i])
    ensures who == i ==> 1 + ToDo(Next(t, who).pos[i]) <= if t.pos[i] == Rest then 11 else ToDo(t.pos[i])
  {
  }

  /** A meal takes at most eleven steps. */
  lemma {:induction false} StepsOfMeals(t: seq<Table>, who: seq<nat>, k: nat, i: nat)
    requires Run(t, who) && Start(t[0]) && k <= |who| && i < N
    ensures |t[k].pos| == N && Turns(who, k, i) + ToDo(t[k].pos[i]) <= 11 * Begun(t, who, k, i)
  {
    if k > 0 {
      StepsOfMeals(t, who, k - 1, i);
      StepDoes(t[k - 1], who[k - 1], i);
    }
  }

  /** A dinner of `times` meals each is over after so many steps, in whatever order they come; */
  lemma EveryDinnerEnds(t: seq<Table>, who: seq<nat>, times: nat)
    requires Run(t, who) && Start(t[0]) && Limited(t, who, times)
    ensures |who| <= 11 * N * times
  {
    forall i: nat | i < N ensures Turns(who, |who|, i) <= 11 * times {
      StepsOfMeals(t, who, |who|, i);
    }
    Diners(t, who);
    TurnsBound(who, 11 * times);
  }

  lemma Diners(t: seq<Table>, who: seq<nat>)
    requires Run(t, who)
    ensures forall k | 0 <= k < |who| :: who[k] < N
  {
    assert forall k | 0 <= k < |who| :: CanMove(t[k], who[k]);
  }

  /** and when nobody may go on, everybody has had all meals and the table is as in the beginning. */
  lemma EndsAsItStarted(t: seq<Table>, who: seq<nat>, times: nat, i: nat)
    requires Run(t, who) && Start(t[0]) && Limited(t, who, times) && i < N
    requires Typed(t[|who|]) ==>
               forall j: nat | j < N && CanMove(t[|who|], j) ::
                 t[|who|].pos[j] == Rest && Begun(t, who, |who|, j) == times
    ensures Start(t[|who|]) && Begun(t, who, |who|, i) == times
  {
    var last := t[|who|];
    var tok := RunKeepsInv(t, who, |who|);
    forall j: nat | j < N ensures last.pos[j] == Rest {
      if last.pos[j] != Rest {
        var e := NoDeadlock(t, who, |who|, j);
      }
    }
    AllAtRest(last, tok);
    assert CanMove(last, i);
  }

  lemma AllAtRest(t: Table, tok: Token)
    requires TInv(t, tok) && forall j: nat | j < N :: t.pos[j] == Rest
    ensures Start(t)
  {
    forall j: nat | j < N ensures t.s[j] == Sem(0, [], {}) && t.st[j] == Thinking {
      assert Seat(t, j);
    }
    forall j: nat | j < N ensures j !in t.mutex.queue {
      assert MutexSeat(t.mutex, t.pos, tok, j);
    }
    HasMember(t.mutex.queue);
    TokenSeat(t.mutex, t.pos, tok);
  }

  /** Whoever has the mutex or was given it is not away. */
  lemma TokenSeat(m: Sem, pos: seq<Pos>, tok: Token)
    requires |pos| == N && MutexOk(m, pos, tok)
    ensures !tok.Free? ==> tok.i < N && (Inside(pos[tok.i]) || Asks(pos[tok.i]))
  {
    if !tok.Free? {
      assert MutexSeat(m, pos, tok, tok.i);
    }
  }

  // ----- the code -------------------------------------------------------------------

  /** mutex, s[N] and state_sema[N], and where each philosopher is.  A call of a method is what a
      philosopher does from one semaphore operation to the next. */
  class Dinner {
    var mutex: Sem
    var s: seq<Sem>
    var st: seq<Phil>
    var pos: seq<Pos>

    ghost function State(): Table
      reads this
    {
      Table(mutex, s, st, pos)
    }

    constructor ()
      ensures Start(State())
    {
      mutex := Sem(1, [], {});
      s := seq(N, i => Sem(0, [], {}));
      st := seq(N, i => Thinking);
      pos := seq(N, i => Rest);
    }

    /** phi_test_sema. */
    method TestSema(j: nat)
      requires |s| == N && |st| == N && j < N
      modifies `s, `st
      ensures State() == Test(old(State()), j)
    {
      if st[j] == Hungry && st[Left(j)] != Eating && st[Right(j)] != Eating {
        st := st[j := Eating];
        s := s[j := Up(s[j])];
      }
    }

    /** phi_take_forks_sema, from where it stands. */
    method TakeForks(i: nat)
      requires Typed(State()) && CanMove(State(), i) && pos[i] in {Rest, AskTake, Take1, Take2, Take3, Take4}
      modifies this
      ensures State() == Next(old(State()), i)
    {
      match pos[i]
      case Rest =>
        var free := mutex.value > 0;
        mutex := Down(mutex, i);
        pos := pos[i := if free then Take1 else AskTake];
      case AskTake =>
        mutex := Resume(mutex, i);
        pos := pos[i := Take1];
      case Take1 =>
        st := st[i := Hungry];
        pos := pos[i := Take2];
        TestSema(i);
      case Take2 =>
        mutex := Up(mutex);
        pos := pos[i := Take3];
      case Take3 =>
        var free := s[i].value > 0;
        s := s[i := Down(s[i], i)];
        pos := pos[i := if free then Meal else Take4];
      case Take4 =>
        s := s[i := Resume(s[i], i)];
        pos := pos[i := Meal];
    }

    /** phi_put_forks_sema, from where it stands. */
    method PutForks(i: nat)
      requires Typed(State()) && CanMove(State(), i) && pos[i] in {Meal, AskPut, Put1, Put2, Put3}
      modifies this
      ensures State() == Next(old(State()), i)
    {
      match pos[i]
      case Meal =>
        var free := mutex.value > 0;
        mutex := Down(mutex, i);
        pos := pos[i := if free then Put1 else AskPut];
      case AskPut =>
        mutex := Resume(mutex, i);
        pos := pos[i := Put1];
      case Put1 =>
        st := st[i := Thinking];
        pos := pos[i := Put2];
        TestSema(Left(i));
      case Put2 =>
        pos := pos[i := Put3];
        TestSema(Right(i));
      case Put3 =>
        mutex := Up(mutex);
        pos := pos[i := Rest];
    }
  }
}
