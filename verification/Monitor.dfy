/**
 The Hoare monitor of kern/sync/monitor.c: any number of threads run routines that enter
 through `mutex`, call cond_signal and cond_wait in any order and any number of times, and
 leave as kern/sync/monitor.h:55-64 prescribes.

 A step is what one thread does from one semaphore operation to the next; steps of
 different threads interleave in any way.
 */
module Monitor {
  import opened Semaphore

  datatype SemId = Mutex | NextSem | CvSem(c: nat)

  /** Where a thread is: outside, running inside, about to call down(id), or asleep in it
      (or woken by up(id) and not yet running). */
  datatype Place = Outside | Active | Before(id: SemId) | Asleep(id: SemId)

  datatype Monitor = Monitor(
    sems: map<SemId, Sem>,
    nextCount: int,
    count: map<nat, int>,
    place: map<Tid, Place>)

  datatype Step =
    | Call(t: Tid)
    | DownStep(t: Tid)
    | ResumeStep(t: Tid)
    | Signal(t: Tid, c: nat)
    | Wait(t: Tid, c: nat)
    | Leave(t: Tid)

  ghost function At(place: map<Tid, Place>, p: Place): set<Tid> {
    set t | t in place && place[t] == p
  }

  /** monitor_init. */
  ghost predicate Init(m: Monitor) {
    && Shape(m)
    && (forall id <- m.sems :: m.sems[id] == Sem(if id == Mutex then 1 else 0, [], {}))
    && m.nextCount == 0
    && (forall c <- m.count :: m.count[c] == 0)
    && (forall t <- m.place :: m.place[t] == Outside)
  }

  // ----- the routines ---------------------------------------------------------------

  function UpSem(m: Monitor, id: SemId): Monitor
    requires id in m.sems
  {
    m.(sems := m.sems[id := Up(m.sems[id])])
  }

  function Move(m: Monitor, t: Tid, p: Place): Monitor {
    m.(place := m.place[t := p])
  }

  /** `if (next_count > 0) up(next) else up(mutex)`, in cond_wait and at the end of a routine. */
  function ReleaseTo(m: Monitor): SemId {
    if m.nextCount > 0 then NextSem else Mutex
  }

  /** `next_count--` or `count--`, after the down(id) that it belongs to. */
  function CountDown(m: Monitor, id: SemId): (r: Monitor)
    requires id.CvSem? ==> id.c in m.count
    ensures r.sems == m.sems && r.place == m.place && r.count.Keys == m.count.Keys
  {
    match id
    case Mutex => m
    case NextSem => m.(nextCount := m.nextCount - 1)
    case CvSem(c) => m.(count := m.count[c := m.count[c] - 1])
  }

  /** What a thread does when down(id) returns, up to its next semaphore operation. */
  function Return(m: Monitor, t: Tid, id: SemId): Monitor
    requires id.CvSem? ==> id.c in m.count
  {
    CountDown(Move(m, t, Active), id)
  }

  ghost predicate Shape(m: Monitor) {
    && Mutex in m.sems && NextSem in m.sems
    && (forall c :: CvSem(c) in m.sems <==> c in m.count)
  }

  ghost predicate Enabled(m: Monitor, e: Step)
    requires Shape(m)
  {
    && e.t in m.place
    && match e
       case Call(t) => m.place[t] == Outside
       case DownStep(t) => m.place[t].Before? && m.place[t].id in m.sems
       case ResumeStep(t) =>
         m.place[t].Asleep? && m.place[t].id in m.sems && t in m.sems[m.place[t].id].granted
       case Signal(t, c) => m.place[t] == Active && c in m.count
       case Wait(t, c) => m.place[t] == Active && c in m.count
       case Leave(t) => m.place[t] == Active
  }

  function Do(m: Monitor, e: Step): Monitor
    requires Shape(m) && Enabled(m, e)
  {
    match e
    case Call(t) => Move(m, t, Before(Mutex))
    case DownStep(t) =>
      var id := m.place[t].id;
      var m1 := m.(sems := m.sems[id := Down(m.sems[id], t)]);
      if m.sems[id].value > 0 then Return(m1, t, id) else Move(m1, t, Asleep(id))
    case ResumeStep(t) =>
      var id := m.place[t].id;
      Return(m.(sems := m.sems[id := Resume(m.sems[id], t)]), t, id)
    case Signal(t, c) =>
      // cond_signal: the signaller lets a waiter in and steps aside
      if m.count[c] > 0 then Move(UpSem(m.(nextCount := m.nextCount + 1), CvSem(c)), t, Before(NextSem))
      else m
    case Wait(t, c) =>
      // cond_wait: the waiter lets a suspended signaller, or else a newcomer, in
      Move(UpSem(m.(count := m.count[c := m.count[c] + 1]), ReleaseTo(m)), t, Before(CvSem(c)))
    case Leave(t) => Move(UpSem(m, ReleaseTo(m)), t, Outside)
  }

  ghost predicate Run(s: seq<Monitor>, es: seq<Step>) {
    && |s| == |es| + 1
    && forall i | 0 <= i < |es| ::
         Shape(s[i]) && Enabled(s[i], es[i]) && s[i + 1] == Do(s[i], es[i])
  }

  // ----- the invariant --------------------------------------------------------------

  /** Where the right to be inside is: counted in a semaphore, on its way to a woken
      thread, or with a running one. */
  datatype Token = Free(id: SemId) | Handed(id: SemId, t: Tid) | Held(t: Tid)

  /** A semaphore holds the token if and only if the token is there. */
  ghost predicate TokenShown(id: SemId, sem: Sem, tok: Token) {
    && sem.value == (if tok == Free(id) then 1 else 0)
    && sem.granted == (if tok.Handed? && tok.id == id then {tok.t} else {})
  }

  /** The sleepers of a semaphore are the threads that sleep in it. */
  ghost predicate Sleepers(id: SemId, sem: Sem, place: map<Tid, Place>) {
    && Valid(sem)
    && (forall t <- place :: place[t] == Asleep(id) <==> t in sem.queue || t in sem.granted)
    && (forall t <- sem.queue :: t in place)
    && sem.granted <= place.Keys
  }

  /** Nobody runs inside but the holder of the token. */
  ghost predicate OneInside(place: map<Tid, Place>, tok: Token) {
    && (forall t <- place :: place[t] == Active <==> tok == Held(t))
    && (tok.Held? ==> tok.t in place)
  }

  /** Threads that have called down(id) from inside and not yet returned from it. */
  ghost function Suspended(place: map<Tid, Place>, id: SemId): nat {
    |At(place, Before(id))| + |At(place, Asleep(id))|
  }

  /** The counters count: suspended signallers, and waiters. */
  ghost predicate Counts(nextCount: int, count: map<nat, int>, place: map<Tid, Place>) {
    && nextCount == Suspended(place, NextSem)
    && forall c <- count :: count[c] == Suspended(place, CvSem(c))
  }

  ghost predicate Counted(m: Monitor) {
    Counts(m.nextCount, m.count, m.place)
  }

  /** A free token is within reach: on `mutex` it is for newcomers and no signaller is
      suspended; elsewhere some thread is just about to take it. */
  ghost predicate InReach(m: Monitor, tok: Token) {
    && (!tok.Held? && tok.id == Mutex ==> m.nextCount == 0)
    && (tok.Free? && tok.id != Mutex ==> exists t <- m.place :: m.place[t] == Before(tok.id))
  }

  ghost predicate Placed(m: Monitor) {
    forall t <- m.place :: m.place[t].Before? || m.place[t].Asleep? ==> m.place[t].id in m.sems
  }

  /** The part of the invariant that the counters do not enter: exactly one token. */
  ghost predicate Core(m: Monitor, tok: Token) {
    && Shape(m) && Placed(m)
    && (forall id <- m.sems :: TokenShown(id, m.sems[id], tok) && Sleepers(id, m.sems[id], m.place))
    && OneInside(m.place, tok)
    && (tok.Held? || tok.id in m.sems)
  }

  ghost predicate Inv(m: Monitor, tok: Token) {
    Core(m, tok) && Counted(m) && InReach(m, tok)
  }

  // ----- every step keeps it --------------------------------------------------------

  /** A thread at `p` is suspended in `id`. */
  function OneIf(p: Place, id: SemId): nat {
    if p == Before(id) || p == Asleep(id) then 1 else 0
  }

  lemma SuspendedAfterMove(place: map<Tid, Place>, t: Tid, p: Place, id: SemId)
    requires t in place
    ensures Suspended(place[t := p], id) ==
            Suspended(place, id) - OneIf(place[t], id) + OneIf(p, id)
  {
    forall q ensures At(place[t := p], q) == if q == p then At(place, q) + {t} else At(place, q) - {t} {
    }
  }

  /** Where the token goes when it is put into `id`. */
  function Given(m: Monitor, id: SemId): Token
    requires id in m.sems
  {
    if m.sems[id].queue == [] then Free(id) else Handed(id, m.sems[id].queue[0])
  }

  /** Where a step moves the token. */
  function NextToken(m: Monitor, e: Step, tok: Token): Token
    requires Shape(m) && Enabled(m, e)
  {
    match e
    case Call(t) => tok
    case DownStep(t) => if m.sems[m.place[t].id].value > 0 then Held(t) else tok
    case ResumeStep(t) => Held(t)
    case Signal(t, c) => if m.count[c] > 0 then Given(m, CvSem(c)) else tok
    case Wait(t, c) => Given(m, ReleaseTo(m))
    case Leave(t) => Given(m, ReleaseTo(m))
  }

  lemma MoveKeepsSleepers(id: SemId, sem: Sem, place: map<Tid, Place>, t: Tid, p: Place)
    requires Sleepers(id, sem, place) && t in place && place[t] != Asleep(id) && p != Asleep(id)
    ensures Sleepers(id, sem, place[t := p])
  {
  }

  lemma UpKeepsSleepers(id: SemId, sem: Sem, place: map<Tid, Place>)
    requires Sleepers(id, sem, place)
    ensures Sleepers(id, Up(sem), place)
  {
  }

  lemma ResumeKeepsSleepers(id: SemId, sem: Sem, place: map<Tid, Place>, t: Tid)
    requires Sleepers(id, sem, place) && t in sem.granted
    ensures Sleepers(id, Resume(sem, t), place[t := Active])
  {
  }

  lemma BlockKeepsSleepers(id: SemId, sem: Sem, place: map<Tid, Place>, t: Tid)
    requires Sleepers(id, sem, place) && t in place && place[t] != Asleep(id) && sem.value == 0
    ensures Sleepers(id, Down(sem, t), place[t := Asleep(id)])
  {
  }

  lemma ShapeKept(m: Monitor, id: SemId, sem: Sem, t: Tid, p: Place)
    requires Shape(m) && Placed(m) && id in m.sems && t in m.place
    requires (p.Before? || p.Asleep?) ==> p.id in m.sems
    ensures var m' := Move(m.(sems := m.sems[id := sem]), t, p);
            Shape(m') && Placed(m') && m'.sems.Keys == m.sems.Keys
  {
    var m' := Move(m.(sems := m.sems[id := sem]), t, p);
    assert m'.sems.Keys == m.sems.Keys;
  }

  lemma InsideKept(place: map<Tid, Place>, t: Tid, p: Place, tok: Token, tok': Token)
    requires OneInside(place, tok) && t in place
    requires if p == Active then !tok.Held? && tok' == Held(t)
             else if tok == Held(t) then !tok'.Held?
             else tok' == tok
    ensures OneInside(place[t := p], tok')
  {
  }

  lemma GiveKeepsCore(m: Monitor, t: Tid, id: SemId, p: Place)
    requires Core(m, Held(t)) && id in m.sems
    requires p == Outside || (p.Before? && p.id in m.sems)
    ensures Core(Move(UpSem(m, id), t, p), Given(m, id))
  {
    var m', tok := Move(UpSem(m, id), t, p), Given(m, id);
    forall k <- m'.sems ensures TokenShown(k, m'.sems[k], tok) && Sleepers(k, m'.sems[k], m'.place) {
      assert TokenShown(k, m.sems[k], Held(t));
      UpKeepsSleepers(k, m.sems[k], m.place);
      MoveKeepsSleepers(k, m'.sems[k], m.place, t, p);
    }
    InsideKept(m.place, t, p, Held(t), tok);
    ShapeKept(m, id, Up(m.sems[id]), t, p);
  }

  /** `t` takes the token out of `id`, by down() or because it was handed over. */
  lemma TakeKeepsCore(m: Monitor, t: Tid, id: SemId, sem: Sem, tok: Token)
    requires Core(m, tok) && t in m.place && id in m.sems
    requires (tok == Free(id) && m.place[t] == Before(id) && sem == Down(m.sems[id], t))
          || (tok == Handed(id, t) && m.place[t] == Asleep(id) && sem == Resume(m.sems[id], t))
    ensures Core(Move(m.(sems := m.sems[id := sem]), t, Active), Held(t))
  {
    var m' := Move(m.(sems := m.sems[id := sem]), t, Active);
    forall k <- m'.sems ensures TokenShown(k, m'.sems[k], Held(t)) && Sleepers(k, m'.sems[k], m'.place) {
      assert TokenShown(k, m.sems[k], tok) && TokenShown(id, m.sems[id], tok);
      if k == id && tok.Handed? {
        ResumeKeepsSleepers(id, m.sems[id], m.place, t);
      } else {
        MoveKeepsSleepers(k, m.sems[k], m.place, t, Active);
      }
    }
    InsideKept(m.place, t, Active, tok, Held(t));
    ShapeKept(m, id, sem, t, Active);
  }

  lemma BlockKeepsCore(m: Monitor, t: Tid, id: SemId, tok: Token)
    requires Core(m, tok) && t in m.place && id in m.sems && m.place[t] == Before(id) && m.sems[id].value == 0
    ensures Core(Move(m.(sems := m.sems[id := Down(m.sems[id], t)]), t, Asleep(id)), tok)
  {
    var m' := Move(m.(sems := m.sems[id := Down(m.sems[id], t)]), t, Asleep(id));
    forall k <- m'.sems ensures TokenShown(k, m'.sems[k], tok) && Sleepers(k, m'.sems[k], m'.place) {
      assert TokenShown(k, m.sems[k], tok);
      if k == id {
        BlockKeepsSleepers(id, m.sems[id], m.place, t);
      } else {
        MoveKeepsSleepers(k, m.sems[k], m.place, t, Asleep(id));
      }
    }
    InsideKept(m.place, t, Asleep(id), tok, tok);
    ShapeKept(m, id, Down(m.sems[id], t), t, Asleep(id));
  }

  /** When the thread that moves to `p` changes no counter but its own, the counters still count. */
  lemma CountedAfterMove(m: Monitor, m': Monitor, t: Tid, p: Place)
    requires Counted(m) && t in m.place && m'.place == m.place[t := p] && m'.count.Keys == m.count.Keys
    requires m'.nextCount == m.nextCount - OneIf(m.place[t], NextSem) + OneIf(p, NextSem)
    requires forall c <- m.count :: m'.count[c] == m.count[c] - OneIf(m.place[t], CvSem(c)) + OneIf(p, CvSem(c))
    ensures Counted(m')
  {
    SuspendedAfterMove(m.place, t, p, NextSem);
    forall c <- m.count ensures m'.count[c] == Suspended(m'.place, CvSem(c)) {
      SuspendedAfterMove(m.place, t, p, CvSem(c));
    }
  }

  lemma CallCounted(m: Monitor, t: Tid)
    requires Counted(m) && t in m.place && m.place[t] == Outside
    ensures Counted(Move(m, t, Before(Mutex)))
  {
    CountedAfterMove(m, Move(m, t, Before(Mutex)), t, Before(Mutex));
  }

  lemma ReturnCounted(m: Monitor, t: Tid, id: SemId)
    requires Counted(m) && t in m.place && (m.place[t] == Before(id) || m.place[t] == Asleep(id))
    requires id.CvSem? ==> id.c in m.count
    ensures Counted(Return(m, t, id))
  {
    CountedAfterMove(m, Return(m, t, id), t, Active);
  }

  lemma BlockCounted(m: Monitor, t: Tid, id: SemId)
    requires Counted(m) && t in m.place && m.place[t] == Before(id)
    ensures Counted(Move(m, t, Asleep(id)))
  {
    CountedAfterMove(m, Move(m, t, Asleep(id)), t, Asleep(id));
  }

  lemma LeaveCounted(m: Monitor, t: Tid)
    requires Counted(m) && t in m.place && m.place[t] == Active
    ensures Counted(Move(m, t, Outside))
  {
    CountedAfterMove(m, Move(m, t, Outside), t, Outside);
  }

  lemma SignalCounted(m: Monitor, t: Tid)
    requires Counted(m) && t in m.place && m.place[t] == Active
    ensures Counted(Move(m.(nextCount := m.nextCount + 1), t, Before(NextSem)))
  {
    CountedAfterMove(m, Move(m.(nextCount := m.nextCount + 1), t, Before(NextSem)), t, Before(NextSem));
  }

  lemma WaitCounted(m: Monitor, t: Tid, c: nat)
    requires Counted(m) && t in m.place && m.place[t] == Active && c in m.count
    ensures Counted(Move(m.(count := m.count[c := m.count[c] + 1]), t, Before(CvSem(c))))
  {
    var m' := Move(m.(count := m.count[c := m.count[c] + 1]), t, Before(CvSem(c)));
    assert m'.count.Keys == m.count.Keys;
    CountedAfterMove(m, m', t, Before(CvSem(c)));
  }

  lemma CoreIgnoresCounters(m: Monitor, m': Monitor, tok: Token)
    requires Core(m, tok) && m'.sems == m.sems && m'.place == m.place && m'.count.Keys == m.count.Keys
    ensures Core(m', tok)
  {
  }

  lemma CallKeepsCore(m: Monitor, t: Tid, tok: Token)
    requires Core(m, tok) && Enabled(m, Call(t))
    ensures Core(Do(m, Call(t)), tok)
  {
    var m' := Do(m, Call(t));
    forall id <- m.sems ensures Sleepers(id, m.sems[id], m'.place) {
      MoveKeepsSleepers(id, m.sems[id], m.place, t, Before(Mutex));
    }
  }

  lemma CallKeepsInv(m: Monitor, t: Tid, tok: Token)
    requires Inv(m, tok) && Enabled(m, Call(t))
    ensures Inv(Do(m, Call(t)), NextToken(m, Call(t), tok))
  {
    var m' := Do(m, Call(t));
    CallKeepsCore(m, t, tok);
    CallCounted(m, t);
    if tok.Free? && tok.id != Mutex {
      var w :| w in m.place && m.place[w] == Before(tok.id);
      assert m'.place[w] == Before(tok.id);
    }
  }

  lemma ReturnFields(m: Monitor, t: Tid, id: SemId, sem: Sem)
    requires id.CvSem? ==> id.c in m.count
    ensures var m', n := Return(m.(sems := m.sems[id := sem]), t, id), Return(m, t, id);
            && m'.sems == m.sems[id := sem] && m'.place == n.place == m.place[t := Active]
            && m'.nextCount == n.nextCount && m'.count == n.count && m'.count.Keys == m.count.Keys
            && (id != NextSem ==> m'.nextCount == m.nextCount)
  {
  }

  lemma ReturnAssembled(m: Monitor, m': Monitor, n: Monitor, t: Tid, id: SemId, sem: Sem, tok: Token)
    requires Inv(m, tok) && t in m.place && id in m.sems
    requires (tok == Free(id) && m.place[t] == Before(id) && sem == Down(m.sems[id], t))
          || (tok == Handed(id, t) && m.place[t] == Asleep(id) && sem == Resume(m.sems[id], t))
    requires m'.sems == m.sems[id := sem] && m'.place == n.place == m.place[t := Active]
    requires m'.nextCount == n.nextCount && m'.count == n.count && m'.count.Keys == m.count.Keys && Counted(n)
    ensures Inv(m', Held(t))
  {
    TakeKeepsCore(m, t, id, sem, tok);
    CoreIgnoresCounters(Move(m.(sems := m.sems[id := sem]), t, Active), m', Held(t));
    Assembled(m', n, Held(t));
  }

  /** down(id) returns: the caller holds the token. */
  lemma ReturnKeepsInv(m: Monitor, t: Tid, id: SemId, sem: Sem, tok: Token)
    requires Inv(m, tok) && t in m.place && id in m.sems
    requires (tok == Free(id) && m.place[t] == Before(id) && sem == Down(m.sems[id], t))
          || (tok == Handed(id, t) && m.place[t] == Asleep(id) && sem == Resume(m.sems[id], t))
    ensures Inv(Return(m.(sems := m.sems[id := sem]), t, id), Held(t))
  {
    ReturnFields(m, t, id, sem);
    ReturnCounted(m, t, id);
    ReturnAssembled(m, Return(m.(sems := m.sems[id := sem]), t, id), Return(m, t, id), t, id, sem, tok);
  }

  /** The counters and the semaphores may be looked at apart. */
  lemma Assembled(m: Monitor, n: Monitor, tok: Token)
    requires Core(m, tok) && InReach(m, tok)
    requires Counted(n) && n.nextCount == m.nextCount && n.count == m.count && n.place == m.place
    ensures Inv(m, tok)
  {
  }

  lemma BlockReach(m: Monitor, t: Tid, id: SemId, tok: Token)
    requires Core(m, tok) && InReach(m, tok) && t in m.place && id in m.sems && m.place[t] == Before(id)
             && m.sems[id].value == 0
    ensures InReach(Move(m.(sems := m.sems[id := Down(m.sems[id], t)]), t, Asleep(id)), tok)
  {
    var m' := Move(m.(sems := m.sems[id := Down(m.sems[id], t)]), t, Asleep(id));
    assert TokenShown(id, m.sems[id], tok);
    if tok.Free? && tok.id != Mutex {
      var w :| w in m.place && m.place[w] == Before(tok.id);
      assert w != t && m'.place[w] == Before(tok.id);
    }
  }

  lemma BlockKeepsInv(m: Monitor, t: Tid, id: SemId, tok: Token)
    requires Inv(m, tok) && t in m.place && id in m.sems && m.place[t] == Before(id) && m.sems[id].value == 0
    ensures Inv(Move(m.(sems := m.sems[id := Down(m.sems[id], t)]), t, Asleep(id)), tok)
  {
    BlockKeepsCore(m, t, id, tok);
    BlockCounted(m, t, id);
    BlockReach(m, t, id, tok);
    Assembled(Move(m.(sems := m.sems[id := Down(m.sems[id], t)]), t, Asleep(id)), Move(m, t, Asleep(id)), tok);
  }

  lemma DownKeepsInv(m: Monitor, t: Tid, tok: Token)
    requires Inv(m, tok) && Enabled(m, DownStep(t))
    ensures Inv(Do(m, DownStep(t)), NextToken(m, DownStep(t), tok))
  {
    var id := m.place[t].id;
    assert TokenShown(id, m.sems[id], tok);
    if m.sems[id].value > 0 {
      ReturnKeepsInv(m, t, id, Down(m.sems[id], t), tok);
    } else {
      BlockKeepsInv(m, t, id, tok);
    }
  }

  lemma ResumeKeepsInv(m: Monitor, t: Tid, tok: Token)
    requires Inv(m, tok) && Enabled(m, ResumeStep(t))
    ensures Inv(Do(m, ResumeStep(t)), NextToken(m, ResumeStep(t), tok))
  {
    var id := m.place[t].id;
    assert TokenShown(id, m.sems[id], tok);
    ReturnKeepsInv(m, t, id, Resume(m.sems[id], t), tok);
  }

  /** Whoever puts the token into a semaphore where threads are suspended finds one to take it. */
  lemma SomeoneTakesIt(m: Monitor, t: Tid, id: SemId, p: Place)
    requires Core(m, Held(t)) && id in m.sems && m.sems[id].queue == [] && Suspended(m.place, id) > 0
    ensures var place := m.place[t := p]; exists w <- place :: place[w] == Before(id)
  {
    assert TokenShown(id, m.sems[id], Held(t)) && Sleepers(id, m.sems[id], m.place);
    assert At(m.place, Asleep(id)) == {};
    var w :| w in At(m.place, Before(id));
    assert m.place[t := p][w] == Before(id);
  }

  /** The token goes from the thread inside, which moves to `p`, into `id`; `m1` is `m` with
      the counters adjusted. */
  lemma GiveKeepsInv(m: Monitor, m1: Monitor, t: Tid, id: SemId, p: Place)
    requires Inv(m, Held(t)) && id in m.sems && (p == Outside || (p.Before? && p.id in m.sems && p.id != id))
    requires m1.sems == m.sems && m1.place == m.place && m1.count.Keys == m.count.Keys
    requires Counted(Move(m1, t, p))
    requires if id == Mutex then m1.nextCount == 0 else Suspended(m.place, id) > 0
    ensures Inv(Move(UpSem(m1, id), t, p), Given(m, id))
  {
    CoreIgnoresCounters(m, m1, Held(t));
    GiveKeepsCore(m1, t, id, p);
    if id != Mutex && m.sems[id].queue == [] {
      SomeoneTakesIt(m, t, id, p);
    }
  }

  lemma SignalKeepsInv(m: Monitor, t: Tid, c: nat, tok: Token)
    requires Inv(m, tok) && Enabled(m, Signal(t, c))
    ensures Inv(Do(m, Signal(t, c)), NextToken(m, Signal(t, c), tok))
  {
    if m.count[c] > 0 {
      SignalCounted(m, t);
      GiveKeepsInv(m, m.(nextCount := m.nextCount + 1), t, CvSem(c), Before(NextSem));
    }
  }

  lemma LeaveKeepsInv(m: Monitor, t: Tid, tok: Token)
    requires Inv(m, tok) && Enabled(m, Leave(t))
    ensures Inv(Do(m, Leave(t)), NextToken(m, Leave(t), tok))
  {
    LeaveCounted(m, t);
    GiveKeepsInv(m, m, t, ReleaseTo(m), Outside);
  }

  /** cond_wait: the counter goes up, and the token to a suspended signaller or a newcomer. */
  lemma WaitGives(m: Monitor, m1: Monitor, t: Tid, c: nat)
    requires Inv(m, Held(t)) && c in m.count && m1 == m.(count := m.count[c := m.count[c] + 1])
    ensures ReleaseTo(m) in m1.sems && ReleaseTo(m) in m.sems
    ensures Inv(Move(UpSem(m1, ReleaseTo(m)), t, Before(CvSem(c))), Given(m, ReleaseTo(m)))
  {
    assert m1.count.Keys == m.count.Keys;
    WaitCounted(m, t, c);
    GiveKeepsInv(m, m1, t, ReleaseTo(m), Before(CvSem(c)));
  }

  lemma WaitKeepsInv(m: Monitor, t: Tid, c: nat, tok: Token)
    requires Inv(m, tok) && Enabled(m, Wait(t, c))
    ensures Inv(Do(m, Wait(t, c)), NextToken(m, Wait(t, c), tok))
  {
    var m1 := m.(count := m.count[c := m.count[c] + 1]);
    DoWait(m, m1, t, c);
    HolderHolds(m, t, tok);
    WaitGives(m, m1, t, c);
  }

  lemma DoWait(m: Monitor, m1: Monitor, t: Tid, c: nat)
    requires Shape(m) && Enabled(m, Wait(t, c)) && m1 == m.(count := m.count[c := m.count[c] + 1])
    ensures ReleaseTo(m) in m1.sems && Do(m, Wait(t, c)) == Move(UpSem(m1, ReleaseTo(m)), t, Before(CvSem(c)))
  {
  }

  lemma HolderHolds(m: Monitor, t: Tid, tok: Token)
    requires Core(m, tok) && t in m.place && m.place[t] == Active
    ensures tok == Held(t)
  {
  }

  /** Every step of every thread keeps exactly one token. */
  lemma StepKeepsInv(m: Monitor, e: Step, tok: Token)
    requires Inv(m, tok) && Enabled(m, e)
    ensures Inv(Do(m, e), NextToken(m, e, tok))
  {
    match e
    case Call(t) => CallKeepsInv(m, t, tok);
    case DownStep(t) => DownKeepsInv(m, t, tok);
    case ResumeStep(t) => ResumeKeepsInv(m, t, tok);
    case Signal(t, c) => SignalKeepsInv(m, t, c, tok);
    case Wait(t, c) => WaitKeepsInv(m, t, c, tok);
    case Leave(t) => LeaveKeepsInv(m, t, tok);
  }

  lemma InitInv(m: Monitor)
    requires Init(m)
    ensures Inv(m, Free(Mutex))
  {
    assert forall p | p != Outside :: At(m.place, p) == {};
  }

  // ----- what this means for whole runs ------------------------------------------------

  lemma {:induction false} RunKeepsInv(s: seq<Monitor>, es: seq<Step>, k: nat) returns (tok: Token)
    requires Run(s, es) && Init(s[0]) && k < |s|
    ensures Inv(s[k], tok)
  {
    if k == 0 {
      InitInv(s[0]);
      tok := Free(Mutex);
    } else {
      var before := RunKeepsInv(s, es, k - 1);
      StepKeepsInv(s[k - 1], es[k - 1], before);
      tok := NextToken(s[k - 1], es[k - 1], before);
    }
  }

  /** At most one thread is ever running inside. */
  lemma MutualExclusion(s: seq<Monitor>, es: seq<Step>, k: nat, t: Tid, u: Tid)
    requires Run(s, es) && Init(s[0]) && k < |s|
    requires t in s[k].place && u in s[k].place && s[k].place[t] == Active && s[k].place[u] == Active
    ensures t == u
  {
    var tok := RunKeepsInv(s, es, k);
  }

  /** Whenever a thread inside reads them, next_count is the number of suspended signallers
      and count the number of waiters, and none of these has been woken. */
  lemma CountersTellTheTruth(s: seq<Monitor>, es: seq<Step>, k: nat, t: Tid)
    requires Run(s, es) && Init(s[0]) && k < |s|
    requires t in s[k].place && s[k].place[t] == Active
    ensures s[k].nextCount == |At(s[k].place, Before(NextSem))| + |At(s[k].place, Asleep(NextSem))|
    ensures forall c <- s[k].count ::
              s[k].count[c] == |At(s[k].place, Before(CvSem(c)))| + |At(s[k].place, Asleep(CvSem(c)))|
    ensures forall id <- s[k].sems :: s[k].sems[id].granted == {} && s[k].sems[id].value == 0
  {
    var tok := RunKeepsInv(s, es, k);
    assert forall id <- s[k].sems :: TokenShown(id, s[k].sems[id], tok);
    assert forall c <- s[k].count :: s[k].count[c] == Suspended(s[k].place, CvSem(c));
  }

  /** `t` can run inside without anybody's help. */
  ghost predicate CanRunInside(m: Monitor, t: Tid)
    requires t in m.place
  {
    match m.place[t]
    case Outside => false
    case Active => true
    case Before(id) => id in m.sems && m.sems[id].value > 0
    case Asleep(id) => id in m.sems && t in m.sems[id].granted
  }

  /** The monitor is never lost: it is open to newcomers, or somebody can go on inside. */
  lemma NeverStuck(s: seq<Monitor>, es: seq<Step>, k: nat)
    requires Run(s, es) && Init(s[0]) && k < |s|
    ensures Mutex in s[k].sems
    ensures s[k].sems[Mutex].value == 1 || exists t <- s[k].place :: CanRunInside(s[k], t)
  {
    var m := s[k];
    var tok := RunKeepsInv(s, es, k);
    if tok.Free? {
      assert TokenShown(tok.id, m.sems[tok.id], tok);
      if tok.id != Mutex {
        var t :| t in m.place && m.place[t] == Before(tok.id);
        assert CanRunInside(m, t);
      }
    } else {
      if tok.Handed? {
        assert TokenShown(tok.id, m.sems[tok.id], tok) && Sleepers(tok.id, m.sems[tok.id], m.place);
      }
      assert CanRunInside(m, tok.t);
    }
  }

  /** No newcomer gets in while a signaller is suspended. */
  lemma SignallersFirst(s: seq<Monitor>, es: seq<Step>, k: nat)
    requires Run(s, es) && Init(s[0]) && k < |s| && s[k].nextCount > 0
    ensures Mutex in s[k].sems && s[k].sems[Mutex].value == 0 && s[k].sems[Mutex].granted == {}
  {
    var tok := RunKeepsInv(s, es, k);
    assert TokenShown(Mutex, s[k].sems[Mutex], tok);
  }

  /** While nobody is inside, the only way in is through the semaphore that has the token. */
  lemma WayIn(m: Monitor, e: Step, u: Tid, tok: Token)
    requires Inv(m, tok) && !tok.Held? && Enabled(m, e)
    requires u in m.place && u in Do(m, e).place && Do(m, e).place[u] == Active
    ensures m.place[u] == Before(tok.id) || m.place[u] == Asleep(tok.id)
  {
    OnlyMover(m, e, u);
    var id := m.place[u].id;
    assert TokenShown(id, m.sems[id], tok);
  }

  /** A step moves one thread only, and makes it active only by a down that returns. */
  lemma OnlyMover(m: Monitor, e: Step, u: Tid)
    requires Shape(m) && Enabled(m, e) && u in m.place && m.place[u] != Active && u in Do(m, e).place
             && Do(m, e).place[u] == Active
    ensures (m.place[u].Before? || m.place[u].Asleep?) && m.place[u].id in m.sems
    ensures var id := m.place[u].id; m.sems[id].value > 0 || u in m.sems[id].granted
  {
  }

  /** Signal-and-wait: whoever runs inside right after a successful signal is a waiter of
      that condition variable. */
  lemma SignalHandsOver(m: Monitor, m': Monitor, t: Tid, c: nat, tok: Token, e: Step, u: Tid)
    requires Inv(m, tok) && Enabled(m, Signal(t, c)) && m.count[c] > 0 && m' == Do(m, Signal(t, c))
    requires Shape(m') && Enabled(m', e) && u in m'.place && u in Do(m', e).place && Do(m', e).place[u] == Active
    ensures u in m.place && (m.place[u] == Before(CvSem(c)) || m.place[u] == Asleep(CvSem(c)))
  {
    SignalKeepsInv(m, t, c, tok);
    DoSignal(m, t, c);
    AfterSignal(m, m', t, c, e, u);
  }

  lemma DoSignal(m: Monitor, t: Tid, c: nat)
    requires Shape(m) && Enabled(m, Signal(t, c)) && m.count[c] > 0
    ensures Do(m, Signal(t, c)).place == m.place[t := Before(NextSem)]
  {
  }

  lemma AfterSignal(m: Monitor, m': Monitor, t: Tid, c: nat, e: Step, u: Tid)
    requires CvSem(c) in m.sems && Inv(m', Given(m, CvSem(c))) && m'.place == m.place[t := Before(NextSem)]
             && t in m.place
    requires Shape(m') && Enabled(m', e) && u in m'.place && u in Do(m', e).place && Do(m', e).place[u] == Active
    ensures u in m.place && (m.place[u] == Before(CvSem(c)) || m.place[u] == Asleep(CvSem(c)))
  {
    WayIn(m', e, u, Given(m, CvSem(c)));
  }

  /** With everybody outside the monitor is as in the beginning. */
  lemma EmptyMonitor(m: Monitor, tok: Token)
    requires Inv(m, tok) && forall t <- m.place :: m.place[t] == Outside
    ensures Init(m)
  {
    forall id <- m.sems ensures m.sems[id] == Sem(if id == Mutex then 1 else 0, [], {}) {
      assert TokenShown(id, m.sems[id], tok) && Sleepers(id, m.sems[id], m.place);
      HasMember(m.sems[id].queue);
    }
    assert At(m.place, Before(NextSem)) == {} && At(m.place, Asleep(NextSem)) == {};
    forall c <- m.count ensures m.count[c] == 0 {
      assert At(m.place, Before(CvSem(c))) == {} && At(m.place, Asleep(CvSem(c))) == {};
    }
  }

  // ----- the code -------------------------------------------------------------------

  /** monitor_t, its semaphores and condition variables, and where each thread is in it.  A method
      is the code between two semaphore operations. */
  class Mt {
    var sems: map<SemId, Sem>
    var nextCount: int
    var count: map<nat, int>
    var place: map<Tid, Place>

    ghost function State(): Monitor
      reads this
    {
      Monitor(sems, nextCount, count, place)
    }

    /** monitor_init, with `n` condition variables. */
    constructor (n: nat, threads: set<Tid>)
      ensures Init(State()) && Inv(State(), Free(Mutex)) && place.Keys == threads
      ensures forall c: nat :: c in count <==> c < n
    {
      var none := Sem(0, [], {});
      var ss: map<SemId, Sem> := map[Mutex := Sem(1, [], {}), NextSem := none];
      var cs: map<nat, int> := map[];
      var i: nat := 0;
      while i < n
        invariant i <= n && Mutex in ss && NextSem in ss
        invariant forall c: nat :: CvSem(c) in ss <==> c < i
        invariant forall c: nat :: c in cs <==> c < i
        invariant forall id <- ss :: ss[id] == Sem(if id == Mutex then 1 else 0, [], {})
        invariant forall c <- cs :: cs[c] == 0
      {
        ss := ss[CvSem(i) := none];
        cs := cs[i := 0];
        i := i + 1;
      }
      sems, nextCount, count := ss, 0, cs;
      place := map t | t in threads :: Outside;
      new;
      InitInv(State());
    }

    method UpOn(id: SemId)
      requires id in sems
      modifies `sems
      ensures sems == old(sems)[id := Up(old(sems)[id])]
    {
      sems := sems[id := Up(sems[id])];
    }

    /** A thread calls a routine, which begins with down(mutex). */
    method Enter(t: Tid)
      requires Shape(State()) && Enabled(State(), Call(t))
      modifies `place
      ensures State() == Do(old(State()), Call(t))
    {
      place := place[t := Before(Mutex)];
    }

    /** cond_signal, up to its down(next). */
    method CondSignal(t: Tid, c: nat)
      requires Shape(State()) && Enabled(State(), Signal(t, c))
      modifies this
      ensures State() == Do(old(State()), Signal(t, c))
    {
      if count[c] > 0 {
        nextCount := nextCount + 1;
        UpOn(CvSem(c));
        place := place[t := Before(NextSem)];
      }
    }

    /** cond_wait, up to its down on the condition variable. */
    method CondWait(t: Tid, c: nat)
      requires Shape(State()) && Enabled(State(), Wait(t, c))
      modifies this
      ensures State() == Do(old(State()), Wait(t, c))
    {
      count := count[c := count[c] + 1];
      if nextCount > 0 {
        UpOn(NextSem);
      } else {
        UpOn(Mutex);
      }
      place := place[t := Before(CvSem(c))];
    }

    /** The end of a routine. */
    method LeaveRoutine(t: Tid)
      requires Shape(State()) && Enabled(State(), Leave(t))
      modifies this
      ensures State() == Do(old(State()), Leave(t))
    {
      if nextCount > 0 {
        UpOn(NextSem);
      } else {
        UpOn(Mutex);
      }
      place := place[t := Outside];
    }

    /** What follows a down that has returned: next_count-- in cond_signal, count-- in cond_wait. */
    method AfterDown(t: Tid, id: SemId)
      requires id.CvSem? ==> id.c in count
      modifies `nextCount, `count, `place
      ensures State() == Return(old(State()), t, id)
    {
      place := place[t := Active];
      match id
      case Mutex =>
      case NextSem => nextCount := nextCount - 1;
      case CvSem(c) => count := count[c := count[c] - 1];
    }

    /** The down that a thread has come to: it returns, or the thread goes to sleep. */
    method DownOn(t: Tid)
      requires Shape(State()) && Enabled(State(), DownStep(t))
      modifies this
      ensures State() == Do(old(State()), DownStep(t))
    {
      var id := place[t].id;
      var free := sems[id].value > 0;
      sems := sems[id := Down(sems[id], t)];
      if free {
        AfterDown(t, id);
      } else {
        place := place[t := Asleep(id)];
      }
    }

    /** schedule() returns to a thread that up() has woken. */
    method Woken(t: Tid)
      requires Shape(State()) && Enabled(State(), ResumeStep(t))
      modifies this
      ensures State() == Do(old(State()), ResumeStep(t))
    {
      var id := place[t].id;
      sems := sems[id := Resume(sems[id], t)];
      AfterDown(t, id);
    }
  }
}
