/**
 The dining philosophers of kern/sync/check_sync.c:165-235, who share one monitor with a
 condition variable each.

 A step of a philosopher is a step of the monitor together with the assignments to
 state_condvar that precede it in the code.
 */
module PhilosophersMonitor {
  import opened Philosophers
  import opened Monitor

  ghost predicate AllSeats(ks: set<nat>) {
    (forall i: nat | i < N :: i in ks) && (forall i <- ks :: i < N)
  }

  /** Where in its program a philosopher is: away from the table or eating (`Rest`, `Meal`),
      at the three stages of phi_take_forks_condvar, and of phi_put_forks_condvar. */
  datatype Pos = Rest | Take0 | Take1 | Take2 | Meal | Put0 | Put1 | Put2

  datatype Table = Table(mon: Monitor, st: seq<Phil>, pos: seq<Pos>)

  datatype Move = Come(i: nat) | Sync(i: nat) | Act(i: nat)

  // ----- the program ----------------------------------------------------------------

  /** phi_test_condvar(j), run by `i`. */
  function Test(s: Table, i: nat, j: nat): Table
    requires |s.st| == N && j < N
    requires Shape(s.mon) && Enabled(s.mon, Signal(i, j))
  {
    if MayEat(s.st, j) then s.(st := s.st[j := Eating], mon := Do(s.mon, Signal(i, j))) else s
  }

  ghost predicate Typed(s: Table) {
    && |s.st| == N && |s.pos| == N
    && Shape(s.mon)
    && AllSeats(s.mon.place.Keys) && AllSeats(s.mon.count.Keys)
  }

  ghost predicate CanMove(s: Table, e: Move)
    requires Typed(s)
  {
    && e.i < N
    && match e
       case Come(i) => s.pos[i] in {Rest, Meal} && s.mon.place[i] == Outside
       case Sync(i) => Enabled(s.mon, DownStep(i)) || Enabled(s.mon, ResumeStep(i))
       case Act(i) => s.mon.place[i] == Active && s.pos[i] in {Take0, Take1, Take2, Put0, Put1, Put2}
  }

  ghost function Next(s: Table, e: Move): Table
    requires Typed(s) && CanMove(s, e)
  {
    var m, i := s.mon, e.i;
    match e
    case Come(_) => s.(mon := Do(m, Call(i)), pos := s.pos[i := if s.pos[i] == Rest then Take0 else Put0])
    case Sync(_) => s.(mon := if m.place[i].Before? then Do(m, DownStep(i)) else Do(m, ResumeStep(i)))
    case Act(_) =>
      match s.pos[i]
      case Take0 => Test(s.(st := s.st[i := Hungry], pos := s.pos[i := Take1]), i, i)
      case Take1 =>
        if s.st[i] == Hungry then s.(mon := Do(m, Wait(i, i)), pos := s.pos[i := Take2])
        else s.(mon := Do(m, Leave(i)), pos := s.pos[i := Meal])
      case Take2 => s.(mon := Do(m, Leave(i)), pos := s.pos[i := Meal])
      case Put0 => Test(s.(st := s.st[i := Thinking], pos := s.pos[i := Put1]), i, Left(i))
      case Put1 => Test(s.(pos := s.pos[i := Put2]), i, Right(i))
      case Put2 => s.(mon := Do(m, Leave(i)), pos := s.pos[i := Rest])
  }

  ghost predicate Start(s: Table) {
    && Typed(s) && Init(s.mon)
    && forall i | 0 <= i < N :: s.st[i] == Thinking && s.pos[i] == Rest
  }

  ghost predicate Run(s: seq<Table>, es: seq<Move>) {
    && |s| == |es| + 1
    && forall k | 0 <= k < |es| :: Typed(s[k]) && CanMove(s[k], es[k]) && s[k + 1] == Next(s[k], es[k])
  }

  // ----- the invariant --------------------------------------------------------------

  ghost predicate On(tok: Token, id: SemId) {
    !tok.Held? && tok.id == id
  }

  /** What the place of a philosopher in the monitor says about its program and its state. */
  ghost predicate Consistent(i: nat, pos: Pos, st: Phil, p: Place, tok: Token) {
    match pos
    case Rest => p == Outside && st == Thinking
    case Take0 => p in {Before(Mutex), Asleep(Mutex), Active} && st == Thinking
    case Take1 => p == Active && st != Thinking
    case Take2 =>
      || (p == Active && st == Eating)
      || (p in {Before(CvSem(i)), Asleep(CvSem(i))} && st == if On(tok, CvSem(i)) then Eating else Hungry)
    case Meal => p == Outside && st == Eating
    case Put0 => p in {Before(Mutex), Asleep(Mutex), Active} && st == Eating
    case Put1 => p in {Before(NextSem), Asleep(NextSem), Active} && st == Thinking
    case Put2 => p in {Before(NextSem), Asleep(NextSem), Active} && st == Thinking
  }

  /** At most one signaller is suspended, and only while a philosopher it woke has the token
      or is giving it back. */
  ghost predicate Orderly(pos: seq<Pos>, nextCount: int, tok: Token)
    requires |pos| == N
  {
    match tok
    case Held(t) => t < N && nextCount == if pos[t] == Take2 then 1 else 0
    case Free(id) => nextCount == (if id == Mutex then 0 else 1) && (id.CvSem? ==> id.c < N && pos[id.c] == Take2)
    case Handed(id, _) => nextCount == (if id == Mutex then 0 else 1) && (id.CvSem? ==> id.c < N && pos[id.c] == Take2)
  }

  /** A hungry philosopher sits next to an eating one, unless its left neighbour has put the
      forks down and has not yet looked to its right. */
  ghost predicate Served(st: seq<Phil>, pos: seq<Pos>, i: nat)
    requires |st| == N && |pos| == N && i < N
  {
    MayEat(st, i) ==> pos[Left(i)] == Put1
  }

  ghost predicate Seat(st: seq<Phil>, pos: seq<Pos>, place: map<nat, Place>, tok: Token, i: nat)
    requires |st| == N && |pos| == N && i < N && i in place
  {
    Consistent(i, pos[i], st[i], place[i], tok) && Apart(st, i) && Served(st, pos, i)
  }

  /** What the protocol adds to the invariant of the monitor. */
  ghost predicate Rules(st: seq<Phil>, pos: seq<Pos>, place: map<nat, Place>, nextCount: int, tok: Token) {
    && |st| == N && |pos| == N && AllSeats(place.Keys)
    && (forall i: nat | i < N :: Seat(st, pos, place, tok, i))
    && Orderly(pos, nextCount, tok)
  }

  ghost predicate TInv(s: Table, tok: Token) {
    Typed(s) && Inv(s.mon, tok) && Rules(s.st, s.pos, s.mon.place, s.mon.nextCount, tok)
  }

  // ----- the rules, step by step ----------------------------------------------------

  lemma RulesCome(st: seq<Phil>, pos: seq<Pos>, place: map<nat, Place>, nc: int, tok: Token, i: nat)
    requires Rules(st, pos, place, nc, tok) && i < N && pos[i] in {Rest, Meal}
    ensures Rules(st, pos[i := if pos[i] == Rest then Take0 else Put0], place[i := Before(Mutex)], nc, tok)
  {
    var pos', place' := pos[i := if pos[i] == Rest then Take0 else Put0], place[i := Before(Mutex)];
    assert Seat(st, pos, place, tok, i);
    forall k: nat | k < N ensures Seat(st, pos', place', tok, k) {
      assert Seat(st, pos, place, tok, k);
      assert Seat(st, pos, place, tok, Left(k)) && Seat(st, pos, place, tok, Right(k));
    }
  }

  lemma RulesBlock(st: seq<Phil>, pos: seq<Pos>, place: map<nat, Place>, nc: int, tok: Token, i: nat, id: SemId)
    requires Rules(st, pos, place, nc, tok) && i < N && place[i] == Before(id)
    ensures Rules(st, pos, place[i := Asleep(id)], nc, tok)
  {
    var place' := place[i := Asleep(id)];
    assert Seat(st, pos, place, tok, i);
    forall k: nat | k < N ensures Seat(st, pos, place', tok, k) {
      assert Seat(st, pos, place, tok, k);
      assert Seat(st, pos, place, tok, Left(k)) && Seat(st, pos, place, tok, Right(k));
    }
  }

  lemma RulesReturn(st: seq<Phil>, pos: seq<Pos>, place: map<nat, Place>, nc: int, tok: Token, i: nat, id: SemId)
    requires Rules(st, pos, place, nc, tok) && i < N && (place[i] == Before(id) || place[i] == Asleep(id))
    requires On(tok, id)
    ensures Rules(st, pos, place[i := Active], if id == NextSem then nc - 1 else nc, Held(i))
  {
    var place' := place[i := Active];
    assert Seat(st, pos, place, tok, i);
    forall k: nat | k < N ensures Seat(st, pos, place', Held(i), k) {
      assert Seat(st, pos, place, tok, k);
      assert Seat(st, pos, place, tok, Left(k)) && Seat(st, pos, place, tok, Right(k));
    }
  }

  /** The token is given back at the end of a routine or in cond_wait. */
  lemma RulesRelease(st: seq<Phil>, pos: seq<Pos>, place: map<nat, Place>, nc: int, i: nat, tok: Token, next: Pos,
          where: Place)
    requires Rules(st, pos, place, nc, Held(i)) && place[i] == Active
    requires On(tok, if nc > 0 then NextSem else Mutex)
    requires match pos[i]
             case Take1 => if st[i] == Hungry then next == Take2 && where == Before(CvSem(i))
                           else next == Meal && where == Outside
             case Take2 => next == Meal && where == Outside
             case Put2 => next == Rest && where == Outside
             case _ => false
    ensures Rules(st, pos[i := next], place[i := where], nc, tok)
  {
    var pos', place' := pos[i := next], place[i := where];
    assert Seat(st, pos, place, Held(i), i);
    forall k: nat | k < N ensures Seat(st, pos', place', tok, k) {
      assert Seat(st, pos, place, Held(i), k);
      assert Seat(st, pos, place, Held(i), Left(k)) && Seat(st, pos, place, Held(i), Right(k));
    }
  }

  lemma RulesTake(st: seq<Phil>, pos: seq<Pos>, place: map<nat, Place>, nc: int, i: nat)
    requires Rules(st, pos, place, nc, Held(i)) && place[i] == Active && pos[i] == Take0
    requires forall j | 0 <= j < N :: j != i ==> place[j] != Active
    ensures var st1 := st[i := Hungry];
            Rules(if MayEat(st1, i) then st1[i := Eating] else st1, pos[i := Take1], place, nc, Held(i))
  {
    var st1 := st[i := Hungry];
    var st2 := if MayEat(st1, i) then st1[i := Eating] else st1;
    var pos' := pos[i := Take1];
    assert Seat(st, pos, place, Held(i), i);
    forall k: nat | k < N ensures Seat(st2, pos', place, Held(i), k) {
      assert Seat(st, pos, place, Held(i), k);
      assert Seat(st, pos, place, Held(i), Left(k)) && Seat(st, pos, place, Held(i), Right(k));
    }
  }

  /** Nobody but `i` is inside, and no signaller is suspended. */
  ghost predicate Alone(place: map<nat, Place>, i: nat) {
    forall j <- place :: j != i ==> place[j] !in {Active, Before(NextSem), Asleep(NextSem)}
  }

  ghost predicate Waits(place: map<nat, Place>, j: nat) {
    j in place && (place[j] == Before(CvSem(j)) || place[j] == Asleep(CvSem(j)))
  }

  /** `i` puts its forks down, and its left neighbour may eat. */
  lemma RulesPutLeft(st: seq<Phil>, pos: seq<Pos>, place: map<nat, Place>, nc: int, i: nat, tok: Token)
    requires Rules(st, pos, place, nc, Held(i)) && place[i] == Active && Alone(place, i) && pos[i] == Put0
    requires On(tok, CvSem(Left(i))) && MayEat(st[i := Thinking], Left(i))
    ensures Waits(place, Left(i))
    ensures Rules(st[i := Thinking][Left(i) := Eating], pos[i := Put1], place[i := Before(NextSem)], nc + 1, tok)
  {
    var st', pos', place' := st[i := Thinking][Left(i) := Eating], pos[i := Put1], place[i := Before(NextSem)];
    assert Seat(st, pos, place, Held(i), i) && Seat(st, pos, place, Held(i), Left(i));
    forall k: nat | k < N ensures Seat(st', pos', place', tok, k) {
      SeatPutLeft(st, pos, place, nc, i, tok, k);
    }
  }

  lemma SeatPutLeft(st: seq<Phil>, pos: seq<Pos>, place: map<nat, Place>, nc: int, i: nat, tok: Token, k: nat)
    requires Rules(st, pos, place, nc, Held(i)) && place[i] == Active && Alone(place, i) && pos[i] == Put0 && k < N
    requires On(tok, CvSem(Left(i))) && MayEat(st[i := Thinking], Left(i))
    ensures Seat(st[i := Thinking][Left(i) := Eating], pos[i := Put1], place[i := Before(NextSem)], tok, k)
  {
    assert Seat(st, pos, place, Held(i), k) && Seat(st, pos, place, Held(i), Left(k));
    NobodyPuts(st, pos, place, nc, i, Left(k));
    PutLeftServes(st, i, k);
    ConsistentAfterSignal(st, pos, place, nc, i, tok, k);
  }

  /** Only who is inside, or suspended there, has looked to one side only. */
  lemma NobodyPuts(st: seq<Phil>, pos: seq<Pos>, place: map<nat, Place>, nc: int, i: nat, k: nat)
    requires Rules(st, pos, place, nc, Held(i)) && Alone(place, i) && k < N && pos[i] == Put0
    ensures pos[k] != Put1
  {
    assert Seat(st, pos, place, Held(i), k);
  }

  lemma ConsistentAfterSignal(st: seq<Phil>, pos: seq<Pos>, place: map<nat, Place>, nc: int, i: nat, tok: Token, k: nat)
    requires Rules(st, pos, place, nc, Held(i)) && place[i] == Active && Alone(place, i) && pos[i] == Put0 && k < N
    requires On(tok, CvSem(Left(i))) && MayEat(st[i := Thinking], Left(i))
    ensures Consistent(k, pos[i := Put1][k], st[i := Thinking][Left(i) := Eating][k], place[i := Before(NextSem)][k],
            tok)
  {
    assert Seat(st, pos, place, Held(i), k);
  }

  /** `i` puts its forks down, and its left neighbour does not want them or cannot have them. */
  lemma RulesPutOnly(st: seq<Phil>, pos: seq<Pos>, place: map<nat, Place>, nc: int, i: nat)
    requires Rules(st, pos, place, nc, Held(i)) && place[i] == Active && Alone(place, i) && pos[i] == Put0
    requires !MayEat(st[i := Thinking], Left(i))
    ensures Rules(st[i := Thinking], pos[i := Put1], place, nc, Held(i))
  {
    var st', pos' := st[i := Thinking], pos[i := Put1];
    assert Seat(st, pos, place, Held(i), i);
    forall k: nat | k < N ensures Seat(st', pos', place, Held(i), k) {
      assert Seat(st, pos, place, Held(i), k);
      assert Seat(st, pos, place, Held(i), Left(k)) && Seat(st, pos, place, Held(i), Right(k));
    }
  }

  /** Then `i` looks to its right. */
  lemma RulesPutRight(st: seq<Phil>, pos: seq<Pos>, place: map<nat, Place>, nc: int, i: nat, tok: Token)
    requires Rules(st, pos, place, nc, Held(i)) && place[i] == Active && Alone(place, i) && pos[i] == Put1
    requires On(tok, CvSem(Right(i))) && MayEat(st, Right(i))
    ensures Waits(place, Right(i))
    ensures Rules(st[Right(i) := Eating], pos[i := Put2], place[i := Before(NextSem)], nc + 1, tok)
  {
    var st', pos', place' := st[Right(i) := Eating], pos[i := Put2], place[i := Before(NextSem)];
    assert Seat(st, pos, place, Held(i), i) && Seat(st, pos, place, Held(i), Right(i));
    forall k: nat | k < N ensures Seat(st', pos', place', tok, k) {
      SeatPutRight(st, pos, place, nc, i, tok, k);
    }
  }

  lemma SeatPutRight(st: seq<Phil>, pos: seq<Pos>, place: map<nat, Place>, nc: int, i: nat, tok: Token, k: nat)
    requires Rules(st, pos, place, nc, Held(i)) && place[i] == Active && Alone(place, i) && pos[i] == Put1 && k < N
    requires On(tok, CvSem(Right(i))) && MayEat(st, Right(i))
    ensures Seat(st[Right(i) := Eating], pos[i := Put2], place[i := Before(NextSem)], tok, k)
  {
    assert Seat(st, pos, place, Held(i), k) && Seat(st, pos, place, Held(i), Left(k))
        && Seat(st, pos, place, Held(i), i);
    EatingApart(st, Right(i), k);
    EatingServes(st, Right(i), k);
  }

  lemma RulesPutDone(st: seq<Phil>, pos: seq<Pos>, place: map<nat, Place>, nc: int, i: nat)
    requires Rules(st, pos, place, nc, Held(i)) && place[i] == Active && Alone(place, i) && pos[i] == Put1
    requires !MayEat(st, Right(i))
    ensures Rules(st, pos[i := Put2], place, nc, Held(i))
  {
    var pos' := pos[i := Put2];
    assert Seat(st, pos, place, Held(i), i);
    forall k: nat | k < N ensures Seat(st, pos', place, Held(i), k) {
      assert Seat(st, pos, place, Held(i), k);
      assert Seat(st, pos, place, Held(i), Left(k)) && Seat(st, pos, place, Held(i), Right(k));
    }
  }

  // ----- every step of the protocol keeps the invariant ----------------------------------

  lemma HolderIsAlone(m: Monitor, tok: Token, i: nat)
    requires Inv(m, tok) && i in m.place && m.place[i] == Active
    ensures tok == Held(i)
    ensures m.nextCount == 0 ==> Alone(m.place, i)
  {
    if m.nextCount == 0 {
      forall j <- m.place | j != i ensures m.place[j] !in {Active, Before(NextSem), Asleep(NextSem)} {
        assert j !in At(m.place, Before(NextSem)) && j !in At(m.place, Asleep(NextSem));
      }
    }
  }

  lemma WaitersCounted(m: Monitor, tok: Token, j: nat)
    requires Inv(m, tok) && j in m.count
    ensures Waits(m.place, j) ==> m.count[j] > 0
    ensures m.count[j] > 0 ==> exists w <- m.place :: m.place[w] == Before(CvSem(j)) || m.place[w] == Asleep(CvSem(j))
  {
    assert m.count[j] == Suspended(m.place, CvSem(j));
    if Waits(m.place, j) {
      assert j in At(m.place, Before(CvSem(j))) + At(m.place, Asleep(CvSem(j)));
    }
    if m.count[j] > 0 {
      var w :| w in At(m.place, Before(CvSem(j))) + At(m.place, Asleep(CvSem(j)));
    }
  }

  lemma DoKeepsKeys(m: Monitor, e: Step)
    requires Shape(m) && Enabled(m, e)
    ensures Do(m, e).place.Keys == m.place.Keys && Do(m, e).count.Keys == m.count.Keys
  {
  }

  lemma ComeKeeps(s: Table, i: nat, tok: Token)
    requires TInv(s, tok) && CanMove(s, Come(i))
    ensures TInv(Next(s, Come(i)), tok)
  {
    StepKeepsInv(s.mon, Call(i), tok);
    DoKeepsKeys(s.mon, Call(i));
    RulesCome(s.st, s.pos, s.mon.place, s.mon.nextCount, tok, i);
  }

  lemma SyncKeeps(s: Table, i: nat, tok: Token) returns (tok': Token)
    requires TInv(s, tok) && CanMove(s, Sync(i))
    ensures TInv(Next(s, Sync(i)), tok')
  {
    var m := s.mon;
    var e := if m.place[i].Before? then DownStep(i) else ResumeStep(i);
    var id := m.place[i].id;
    tok' := NextToken(m, e, tok);
    StepKeepsInv(m, e, tok);
    DoKeepsKeys(m, e);
    assert TokenShown(id, m.sems[id], tok);
    if m.place[i].Before? && m.sems[id].value == 0 {
      RulesBlock(s.st, s.pos, m.place, m.nextCount, tok, i, id);
    } else {
      RulesReturn(s.st, s.pos, m.place, m.nextCount, tok, i, id);
    }
  }

  /** Leaving the monitor. */
  lemma LeaveKeeps(s: Table, i: nat, tok: Token)
    requires TInv(s, tok) && CanMove(s, Act(i))
    requires s.pos[i] in {Take2, Put2} || (s.pos[i] == Take1 && s.st[i] != Hungry)
    ensures TInv(Next(s, Act(i)), Given(s.mon, ReleaseTo(s.mon)))
  {
    var m, tok' := s.mon, Given(s.mon, ReleaseTo(s.mon));
    HolderIsAlone(m, tok, i);
    StepKeepsInv(m, Leave(i), tok);
    DoKeepsKeys(m, Leave(i));
    RulesRelease(s.st, s.pos, m.place, m.nextCount, i, tok', if s.pos[i] == Put2 then Rest else Meal, Outside);
  }

  /** Waiting in it. */
  lemma WaitKeeps(s: Table, i: nat, tok: Token)
    requires TInv(s, tok) && CanMove(s, Act(i)) && s.pos[i] == Take1 && s.st[i] == Hungry
    ensures TInv(Next(s, Act(i)), Given(s.mon, ReleaseTo(s.mon)))
  {
    var m, tok' := s.mon, Given(s.mon, ReleaseTo(s.mon));
    HolderIsAlone(m, tok, i);
    StepKeepsInv(m, Wait(i, i), tok);
    DoKeepsKeys(m, Wait(i, i));
    RulesRelease(s.st, s.pos, m.place, m.nextCount, i, tok', Take2, Before(CvSem(i)));
  }

  lemma OnlyOwnerWaits(s: Table, tok: Token, i: nat)
    requires TInv(s, tok) && i < N
    ensures s.mon.count[i] > 0 <==> Waits(s.mon.place, i)
  {
    var place := s.mon.place;
    WaitersCounted(s.mon, tok, i);
    if s.mon.count[i] > 0 {
      var w :| w in place && (place[w] == Before(CvSem(i)) || place[w] == Asleep(CvSem(i)));
      assert Seat(s.st, s.pos, place, tok, w);
    }
  }

  lemma NextTake(s: Table, i: nat)
    requires Typed(s) && CanMove(s, Act(i)) && s.pos[i] == Take0 && s.mon.count[i] <= 0
    ensures var st1 := s.st[i := Hungry];
            Next(s, Act(i)) == s.(st := if MayEat(st1, i) then st1[i := Eating] else st1, pos := s.pos[i := Take1])
  {
  }

  lemma TakeKeeps(s: Table, i: nat, tok: Token)
    requires TInv(s, tok) && CanMove(s, Act(i)) && s.pos[i] == Take0
    ensures TInv(Next(s, Act(i)), tok)
  {
    var m := s.mon;
    HolderIsAlone(m, tok, i);
    OnlyOwnerWaits(s, tok, i);
    NextTake(s, i);
    RulesTake(s.st, s.pos, m.place, m.nextCount, i);
  }

  /** What a signal to a waiter does to the monitor. */
  lemma SignalKeeps(m: Monitor, tok: Token, i: nat, j: nat)
    requires Inv(m, tok) && Shape(m) && Enabled(m, Signal(i, j)) && m.count[j] > 0
    ensures var m' := Do(m, Signal(i, j));
            && Shape(m') && Inv(m', Given(m, CvSem(j)))
            && m'.place == m.place[i := Before(NextSem)] && m'.nextCount == m.nextCount + 1
            && m'.place.Keys == m.place.Keys && m'.count.Keys == m.count.Keys
  {
    StepKeepsInv(m, Signal(i, j), tok);
    DoKeepsKeys(m, Signal(i, j));
  }

  lemma NextPutLeft(s: Table, i: nat)
    requires Typed(s) && CanMove(s, Act(i)) && s.pos[i] == Put0
    ensures var st1, pos1 := s.st[i := Thinking], s.pos[i := Put1];
            Next(s, Act(i)) == if MayEat(st1, Left(i))
                then Table(Do(s.mon, Signal(i, Left(i))), st1[Left(i) := Eating], pos1)
                               else Table(s.mon, st1, pos1)
  {
  }

  lemma PutLeftKeeps(s: Table, i: nat, tok: Token) returns (tok': Token)
    requires TInv(s, tok) && CanMove(s, Act(i)) && s.pos[i] == Put0
    ensures TInv(Next(s, Act(i)), tok')
  {
    var m := s.mon;
    HolderIsAlone(m, tok, i);
    OnlyOwnerWaits(s, tok, Left(i));
    NextPutLeft(s, i);
    if MayEat(s.st[i := Thinking], Left(i)) {
      tok' := Given(m, CvSem(Left(i)));
      RulesPutLeft(s.st, s.pos, m.place, m.nextCount, i, tok');
      SignalKeeps(m, tok, i, Left(i));
    } else {
      tok' := tok;
      RulesPutOnly(s.st, s.pos, m.place, m.nextCount, i);
    }
  }

  lemma PutRightKeeps(s: Table, i: nat, tok: Token) returns (tok': Token)
    requires TInv(s, tok) && CanMove(s, Act(i)) && s.pos[i] == Put1
    ensures TInv(Next(s, Act(i)), tok')
  {
    var m := s.mon;
    HolderIsAlone(m, tok, i);
    OnlyOwnerWaits(s, tok, Right(i));
    if MayEat(s.st, Right(i)) {
      tok' := Given(m, CvSem(Right(i)));
      RulesPutRight(s.st, s.pos, m.place, m.nextCount, i, tok');
      SignalKeeps(m, tok, i, Right(i));
    } else {
      tok' := tok;
      RulesPutDone(s.st, s.pos, m.place, m.nextCount, i);
    }
  }

  lemma NextKeeps(s: Table, e: Move, tok: Token) returns (tok': Token)
    requires TInv(s, tok) && CanMove(s, e)
    ensures TInv(Next(s, e), tok')
  {
    match e
    case Come(i) => ComeKeeps(s, i, tok); tok' := tok;
    case Sync(i) => tok' := SyncKeeps(s, i, tok);
    case Act(i) =>
      if s.pos[i] == Take0 {
        TakeKeeps(s, i, tok);
        tok' := tok;
      } else if s.pos[i] == Put0 {
        tok' := PutLeftKeeps(s, i, tok);
      } else if s.pos[i] == Put1 {
        tok' := PutRightKeeps(s, i, tok);
      } else {
        if s.pos[i] == Take1 && s.st[i] == Hungry {
          WaitKeeps(s, i, tok);
        } else {
          LeaveKeeps(s, i, tok);
        }
        tok' := Given(s.mon, ReleaseTo(s.mon));
      }
  }

  lemma {:induction false} RunKeeps(s: seq<Table>, es: seq<Move>, k: nat) returns (tok: Token)
    requires Run(s, es) && Start(s[0]) && k < |s|
    ensures TInv(s[k], tok)
  {
    if k == 0 {
      InitInv(s[0].mon);
      tok := Free(Mutex);
    } else {
      var before := RunKeeps(s, es, k - 1);
      tok := NextKeeps(s[k - 1], es[k - 1], before);
    }
  }

  // ----- what this means for whole runs ------------------------------------------------

  /** Two neighbours never eat together. */
  lemma NeighboursNeverEatTogether(s: seq<Table>, es: seq<Move>, k: nat, i: nat)
    requires Run(s, es) && Start(s[0]) && k < |s| && i < N
    ensures Typed(s[k]) && !(s[k].st[i] == Eating && s[k].st[Right(i)] == Eating)
  {
    var tok := RunKeeps(s, es, k);
    assert Seat(s[k].st, s[k].pos, s[k].mon.place, tok, i);
  }

  /** With the monitor free, nobody is in the middle of a routine. */
  lemma Quiet(s: Table, tok: Token, i: nat)
    requires TInv(s, tok) && tok == Free(Mutex) && i < N
    ensures s.pos[i] in {Rest, Take0, Take2, Meal, Put0}
    ensures s.st[i] == Hungry <==> s.pos[i] == Take2
    ensures s.st[i] == Hungry ==> Waits(s.mon.place, i)
    ensures s.mon.place[i] != Active && s.mon.place[i] != Asleep(Mutex)
  {
    var m := s.mon;
    assert Seat(s.st, s.pos, m.place, tok, i);
    assert TokenShown(Mutex, m.sems[Mutex], tok) && Sleepers(Mutex, m.sems[Mutex], m.place);
    assert i !in At(m.place, Before(NextSem)) && i !in At(m.place, Asleep(NextSem));
  }

  lemma EatingBeside(s: Table, tok: Token, i: nat)
    requires TInv(s, tok) && tok == Free(Mutex) && i < N && s.st[i] == Hungry
    ensures s.st[Left(i)] == Eating || s.st[Right(i)] == Eating
  {
    assert Seat(s.st, s.pos, s.mon.place, tok, i);
    Quiet(s, tok, Left(i));
  }

  /** No wake-up is missed: when nobody is inside, a hungry philosopher is waiting on its
      condition variable and one of its neighbours is eating. */
  lemma HungryOnlyBesideEating(s: seq<Table>, es: seq<Move>, k: nat, i: nat)
    requires Run(s, es) && Start(s[0]) && k < |s| && i < N
    requires Typed(s[k]) && s[k].mon.sems[Mutex].value == 1 && s[k].st[i] == Hungry
    ensures s[k].st[Left(i)] == Eating || s[k].st[Right(i)] == Eating
    ensures Waits(s[k].mon.place, i)
  {
    var tok := RunKeeps(s, es, k);
    assert TokenShown(Mutex, s[k].mon.sems[Mutex], tok);
    Quiet(s[k], tok, i);
    EatingBeside(s[k], tok, i);
  }

  /** With the monitor free, a philosopher that is away can come or go in, or waits for a neighbour
      that can. */
  lemma SomebodyAtTheDoor(s: Table, tok: Token, j: nat) returns (e: Move)
    requires TInv(s, tok) && tok == Free(Mutex) && j < N && s.pos[j] != Rest
    ensures CanMove(s, e) && s.pos[e.i] != Rest
  {
    var i := j;
    if s.st[j] == Hungry {
      EatingBeside(s, tok, j);
      i := if s.st[Left(j)] == Eating then Left(j) else Right(j);
    }
    Quiet(s, tok, i);
    assert Seat(s.st, s.pos, s.mon.place, tok, i);
    e := if s.mon.place[i] == Outside then Come(i) else Sync(i);
  }

  lemma HandedCanResume(m: Monitor, tok: Token)
    requires Inv(m, tok) && tok.Handed?
    ensures tok.t in m.place && Enabled(m, ResumeStep(tok.t))
  {
    assert TokenShown(tok.id, m.sems[tok.id], tok) && Sleepers(tok.id, m.sems[tok.id], m.place);
  }

  lemma SomebodyCanMoveNow(s: Table, tok: Token, j: nat) returns (e: Move)
    requires TInv(s, tok) && j < N && s.pos[j] != Rest
    ensures CanMove(s, e) && s.pos[e.i] != Rest
  {
    var m := s.mon;
    match tok
    case Free(id) =>
      if id == Mutex {
        e := SomebodyAtTheDoor(s, tok, j);
      } else {
        var t :| t in m.place && m.place[t] == Before(id);
        assert Seat(s.st, s.pos, m.place, tok, t);
        e := Sync(t);
      }
    case Handed(_, t) =>
      HandedCanResume(m, tok);
      assert Seat(s.st, s.pos, m.place, tok, t);
      e := Sync(t);
    case Held(t) =>
      assert Seat(s.st, s.pos, m.place, tok, t);
      e := Act(t);
  }

  /** The table never deadlocks, also when philosophers stop after some meals: in every state of every
      run in which somebody has not gone back to rest, somebody who has not can move. */
  lemma NoDeadlock(s: seq<Table>, es: seq<Move>, k: nat, j: nat) returns (e: Move)
    requires Run(s, es) && Start(s[0]) && k < |s| && j < N && (Typed(s[k]) ==> s[k].pos[j] != Rest)
    ensures Typed(s[k]) && CanMove(s[k], e) && s[k].pos[e.i] != Rest
  {
    var tok := RunKeeps(s, es, k);
    e := SomebodyCanMoveNow(s[k], tok, j);
  }

  // ----- every dinner ends ------------------------------------------------------------

  /** Who moves. */
  function Movers(es: seq<Move>): (who: seq<nat>)
    ensures |who| == |es| && forall k | 0 <= k < |es| :: who[k] == es[k].i
  {
    seq(|es|, k requires 0 <= k < |es| => es[k].i)
  }

  /** The meals that `i` has set out for in the first `k` steps. */
  ghost function Begun(s: seq<Table>, es: seq<Move>, k: nat, i: nat): nat
    requires k <= |es| == |s| - 1
  {
    if k == 0 then 0
    else Begun(s, es, k - 1, i) + if es[k - 1] == Come(i) && i < |s[k - 1].pos| && s[k - 1].pos[i] == Rest then 1 else 0
  }

  /** Nobody sets out for more than `times` meals. */
  ghost predicate Limited(s: seq<Table>, es: seq<Move>, times: nat)
    requires |es| == |s| - 1
  {
    forall i: nat | i < N :: Begun(s, es, |es|, i) <= times
  }

  /** The steps that are left of a meal, at most: three for each stage, and at most two to get in again. */
  function ToDo(pos: Pos, p: Place): nat {
    3 * Stages(pos) + match p case Before(_) => 2 case Asleep(_) => 1 case _ => 0
  }

  function Stages(p: Pos): nat {
    match p
    case Rest => 0 case Take0 => 7 case Take1 => 6 case Take2 => 5 case Meal => 4 case Put0 => 3 case Put1 => 2
    case Put2 => 1
  }

  /** The steps of others change nothing of this, */
  lemma OthersStep(s: Table, e: Move, i: nat)
    requires Typed(s) && CanMove(s, e) && i < N && e.i != i
    ensures |Next(s, e).pos| == N && i in Next(s, e).mon.place
    ensures Next(s, e).pos[i] == s.pos[i] && Next(s, e).mon.place[i] == s.mon.place[i]
  {
  }

  /** and each step of its own is one less. */
  lemma OwnStep(s: Table, e: Move)
    requires Typed(s) && CanMove(s, e)
    ensures |Next(s, e).pos| == N && e.i in Next(s, e).mon.place
    ensures var was := if e.Come? && s.pos[e.i] == Rest then 24 else ToDo(s.pos[e.i], s.mon.place[e.i]);
            1 + ToDo(Next(s, e).pos[e.i], Next(s, e).mon.place[e.i]) <= was
  {
  }

  /** A meal takes at most 24 steps. */
  lemma {:induction false} StepsOfMeals(s: seq<Table>, es: seq<Move>, k: nat, i: nat)
    requires Run(s, es) && Start(s[0]) && k <= |es| && i < N
    ensures |s[k].pos| == N && i in s[k].mon.place
    ensures Turns(Movers(es), k, i) + ToDo(s[k].pos[i], s[k].mon.place[i]) <= 24 * Begun(s, es, k, i)
  {
    if k > 0 {
      StepsOfMeals(s, es, k - 1, i);
      if es[k - 1].i == i {
        OwnStep(s[k - 1], es[k - 1]);
      } else {
        OthersStep(s[k - 1], es[k - 1], i);
      }
    }
  }

  /** A dinner of `times` meals each is over after so many steps, in whatever order they come; */
  lemma EveryDinnerEnds(s: seq<Table>, es: seq<Move>, times: nat)
    requires Run(s, es) && Start(s[0]) && Limited(s, es, times)
    ensures |es| <= 24 * N * times
  {
    forall i: nat | i < N ensures Turns(Movers(es), |es|, i) <= 24 * times {
      StepsOfMeals(s, es, |es|, i);
    }
    Diners(s, es, Movers(es));
    TurnsBound(Movers(es), 24 * times);
  }

  lemma Diners(s: seq<Table>, es: seq<Move>, who: seq<nat>)
    requires Run(s, es) && who == Movers(es)
    ensures forall k | 0 <= k < |who| :: who[k] < N
  {
    forall k | 0 <= k < |who| ensures who[k] < N {
      assert CanMove(s[k], es[k]);
    }
  }

  /** and when nobody may go on, everybody has had all meals and the table is as in the beginning. */
  lemma EndsAsItStarted(s: seq<Table>, es: seq<Move>, times: nat, i: nat)
    requires Run(s, es) && Start(s[0]) && Limited(s, es, times) && i < N
    requires Typed(s[|es|]) ==>
               forall e: Move | CanMove(s[|es|], e) :: s[|es|].pos[e.i] == Rest && Begun(s, es, |es|, e.i) == times
    ensures Start(s[|es|]) && Begun(s, es, |es|, i) == times
  {
    var last := s[|es|];
    var tok := RunKeeps(s, es, |es|);
    forall j: nat | j < N ensures last.pos[j] == Rest {
      if last.pos[j] != Rest {
        var e := NoDeadlock(s, es, |es|, j);
      }
    }
    AllAtRest(last, tok);
    assert CanMove(last, Come(i));
  }

  lemma AllAtRest(s: Table, tok: Token)
    requires TInv(s, tok) && forall j: nat | j < N :: s.pos[j] == Rest
    ensures Start(s) && forall j: nat | j < N :: s.mon.place[j] == Outside
  {
    forall j: nat | j < N ensures s.mon.place[j] == Outside && s.st[j] == Thinking {
      assert Seat(s.st, s.pos, s.mon.place, tok, j);
    }
    EmptyMonitor(s.mon, tok);
  }

  // ----- the code -------------------------------------------------------------------

  /** The monitor, state_condvar[N], and where each philosopher is.  A call of a method is what a
      philosopher does from one operation of the monitor to the next. */
  class Dinner {
    const mt: Mt
    var st: seq<Phil>
    var pos: seq<Pos>

    ghost function State(): Table
      reads this, mt
    {
      Table(mt.State(), st, pos)
    }

    constructor ()
      ensures Start(State()) && fresh(mt)
    {
      mt := new Mt(N, {0, 1, 2, 3, 4});
      st := seq(N, i => Thinking);
      pos := seq(N, i => Rest);
    }

    /** phi_test_condvar(j), called by `i`. */
    method TestCondvar(i: nat, j: nat)
      requires |st| == N && j < N && Shape(mt.State()) && Enabled(mt.State(), Signal(i, j))
      modifies `st, mt
      ensures State() == Test(old(State()), i, j)
    {
      if st[j] == Hungry && st[Left(j)] != Eating && st[Right(j)] != Eating {
        st := st[j := Eating];
        mt.CondSignal(i, j);
      }
    }

    /** phi_take_forks_condvar, inside the monitor, from where it stands. */
    method TakeForks(i: nat)
      requires Typed(State()) && CanMove(State(), Act(i)) && pos[i] in {Take0, Take1, Take2}
      modifies this, mt
      ensures State() == Next(old(State()), Act(i))
    {
      match pos[i]
      case Take0 =>
        st := st[i := Hungry];
        pos := pos[i := Take1];
        TestCondvar(i, i);
      case Take1 =>
        if st[i] == Hungry {
          mt.CondWait(i, i);
          pos := pos[i := Take2];
        } else {
          mt.LeaveRoutine(i);
          pos := pos[i := Meal];
        }
      case Take2 =>
        mt.LeaveRoutine(i);
        pos := pos[i := Meal];
    }

    /** phi_put_forks_condvar, inside the monitor, from where it stands. */
    method PutForks(i: nat)
      requires Typed(State()) && CanMove(State(), Act(i)) && pos[i] in {Put0, Put1, Put2}
      modifies this, mt
      ensures State() == Next(old(State()), Act(i))
    {
      match pos[i]
      case Put0 =>
        st := st[i := Thinking];
        pos := pos[i := Put1];
        TestCondvar(i, Left(i));
      case Put1 =>
        pos := pos[i := Put2];
        TestCondvar(i, Right(i));
      case Put2 =>
        mt.LeaveRoutine(i);
        pos := pos[i := Rest];
    }

    /** A down in the monitor, or the return of schedule() in one. */
    method Synchronise(i: nat)
      requires Typed(State()) && CanMove(State(), Sync(i))
      modifies mt
      ensures State() == Next(old(State()), Sync(i))
    {
      if mt.place[i].Before? {
        mt.DownOn(i);
      } else {
        mt.Woken(i);
      }
    }

    /** The call of either routine, up to its down(mutex). */
    method Approach(i: nat)
      requires Typed(State()) && CanMove(State(), Come(i))
      modifies this, mt
      ensures State() == Next(old(State()), Come(i))
    {
      mt.Enter(i);
      pos := pos[i := if pos[i] == Rest then Take0 else Put0];
    }
  }
}
