/**
 The life of processes: wakeup_proc and schedule of kern/schedule/sched.c, and fork, exit, wait,
 kill and the blocking operations of kern/process/proc.c and kern/sync.  A method is a piece of
 kernel code that runs without a switch; every run of the kernel is a sequence of such steps, with
 timer ticks and wake-ups between any two of them.
 */
module Lifecycle {

  type Pid = nat

  datatype State = Sleeping | Runnable | Zombie

  /** wait_state: what a process waits for. */
  datatype Wait = NoWait | Child | Ksem | Timer | Kbd | Ipc

  /** `target` is the argument of do_wait while the process is in it; 0 stands for any child. */
  datatype Proc = Proc(state: State, wait: Wait, parent: Pid, target: Pid, exiting: bool)

  type Procs = map<Pid, Proc>

  /** Every WT_ constant but WT_KSEM has WT_INTERRUPTED. */
  predicate Interruptible(w: Wait) {
    w != NoWait && w != Ksem
  }

  const IDLE: Pid := 0
  const INIT: Pid := 1

  // ----- what holds between steps -------------------------------------------------------------

  predicate InPool(procs: Procs, current: Pid, p: Pid) {
    p in procs && procs[p].state == Runnable && p != current && p != IDLE
  }

  /** The run pool holds exactly the runnable processes other than current and idleproc, once each. */
  ghost predicate PoolOk(procs: Procs, current: Pid, pool: multiset<Pid>) {
    forall p: Pid :: pool[p] == if InPool(procs, current, p) then 1 else 0
  }

  ghost predicate ProcOk(procs: Procs, p: Pid) {
    p in procs ==>
      && (procs[p].wait != NoWait <==> procs[p].state == Sleeping)
      && (p != IDLE ==> procs[p].parent in procs && procs[p].parent != p && procs[procs[p].parent].state != Zombie)
      && (p == IDLE ==> procs[p].state == Runnable)
      && (p == INIT ==> procs[p].state != Zombie && procs[p].parent == IDLE)
  }

  /** `c` is a child that `p` waits for in do_wait, and it has exited. */
  predicate Awaited(procs: Procs, p: Pid, target: Pid, c: Pid) {
    c in procs && c != IDLE && procs[c].parent == p && procs[c].state == Zombie && (target == 0 || target == c)
  }

  /** Nobody sleeps in do_wait while a child it waits for is a zombie. */
  ghost predicate WaitOk(procs: Procs, p: Pid, c: Pid) {
    p in procs && procs[p].wait == Child ==> !Awaited(procs, p, procs[p].target, c)
  }

  /** A process on a wait queue or on the timer list has not come to its end.  One that waits for a
      semaphore is asleep, as nothing else can wake it; others may have been killed. */
  ghost predicate QueuedOk(procs: Procs, queued: map<Pid, Wait>, p: Pid) {
    p in queued ==>
      && p in procs && procs[p].state != Zombie && queued[p] != NoWait && queued[p] != Child
      && (procs[p].wait == queued[p] || (procs[p].wait == NoWait && queued[p] != Ksem))
  }

  /** What holds whenever schedule() is called, */
  ghost predicate Core(procs: Procs, current: Pid, pool: multiset<Pid>, queued: map<Pid, Wait>) {
    && IDLE in procs && INIT in procs && current in procs
    && PoolOk(procs, current, pool)
    && (forall p: Pid :: ProcOk(procs, p))
    && (forall p: Pid, c: Pid :: WaitOk(procs, p, c))
    && (forall p: Pid :: QueuedOk(procs, queued, p))
  }

  /** and between any two steps. */
  ghost predicate Inv(procs: Procs, current: Pid, pool: multiset<Pid>, queued: map<Pid, Wait>) {
    Core(procs, current, pool, queued) && procs[current].state != Zombie
  }

  /** Whoever waits for something, or is on a queue, is no zombie: whatever the callers of
      wakeup_proc find there, its assert holds.  And a zombie is in the run pool no more. */
  lemma NoZombieIsWoken(procs: Procs, current: Pid, pool: multiset<Pid>, queued: map<Pid, Wait>,
          p: Pid)
    requires Inv(procs, current, pool, queued) && p in procs && procs[p].state == Zombie
    ensures procs[p].wait == NoWait && p !in queued && p !in pool && p != current && p != INIT
    ensures forall c | c in procs && c != IDLE :: procs[c].parent != p
  {
    assert ProcOk(procs, p) && QueuedOk(procs, queued, p);
    assert pool[p] == if InPool(procs, current, p) then 1 else 0;
    forall c | c in procs && c != IDLE ensures procs[c].parent != p {
      assert ProcOk(procs, c);
    }
  }

  // ----- wakeup_proc and schedule -------------------------------------------------------------

  function Woken(procs: Procs, p: Pid): Procs
    requires p in procs
  {
    procs[p := procs[p].(state := Runnable, wait := NoWait)]
  }

  function Enqueued(pool: multiset<Pid>, p: Pid): multiset<Pid> {
    if p != IDLE then pool + multiset{p} else pool
  }

  lemma WokenInv(procs: Procs, current: Pid, pool: multiset<Pid>, queued: map<Pid, Wait>, p: Pid)
    requires Inv(procs, current, pool, queued) && p in procs && procs[p].state == Sleeping
    requires p in queued ==> queued[p] != Ksem
    ensures Inv(Woken(procs, p), current, if p != current then Enqueued(pool, p) else pool, queued)
  {
    var procs', pool' := Woken(procs, p), if p != current then Enqueued(pool, p) else pool;
    assert ProcOk(procs, p);
    forall q: Pid ensures ProcOk(procs', q) {
      assert ProcOk(procs, q);
    }
    forall q: Pid, c: Pid ensures WaitOk(procs', q, c) {
      assert WaitOk(procs, q, c);
    }
    forall q: Pid ensures QueuedOk(procs', queued, q) {
      assert QueuedOk(procs, queued, q);
    }
    forall q: Pid ensures pool'[q] == if InPool(procs', current, q) then 1 else 0 {
      assert pool[q] == if InPool(procs, current, q) then 1 else 0;
    }
  }

  /** The pool once schedule has put back a current process that can go on. */
  ghost predicate PutBack(procs: Procs, current: Pid, pool: multiset<Pid>, pool1: multiset<Pid>)
    requires current in procs
  {
    pool1 == if procs[current].state == Runnable then Enqueued(pool, current) else pool
  }

  lemma PutBackAll(procs: Procs, current: Pid, pool: multiset<Pid>, pool1: multiset<Pid>)
    requires current in procs && PoolOk(procs, current, pool) && PutBack(procs, current, pool, pool1)
    ensures forall q: Pid :: pool1[q] == if q in procs && procs[q].state == Runnable && q != IDLE then 1 else 0
  {
    forall q: Pid ensures pool1[q] == if q in procs && procs[q].state == Runnable && q != IDLE then 1 else 0 {
      assert pool[q] == if InPool(procs, current, q) then 1 else 0;
    }
  }

  lemma SwitchInv(procs: Procs, current: Pid, pool: multiset<Pid>, queued: map<Pid, Wait>,
          pool1: multiset<Pid>, next: Pid)
    requires Core(procs, current, pool, queued) && PutBack(procs, current, pool, pool1) && next in pool1
    ensures next in procs && procs[next].state == Runnable && next != IDLE
            && Inv(procs, next, pool1 - multiset{next}, queued)
  {
    PutBackAll(procs, current, pool, pool1);
    var pool2 := pool1 - multiset{next};
    forall q: Pid ensures pool2[q] == if InPool(procs, next, q) then 1 else 0 {
      assert pool1[q] == if q in procs && procs[q].state == Runnable && q != IDLE then 1 else 0;
    }
  }

  lemma IdleInv(procs: Procs, current: Pid, pool: multiset<Pid>, queued: map<Pid, Wait>,
          pool1: multiset<Pid>)
    requires Core(procs, current, pool, queued) && PutBack(procs, current, pool, pool1) && pool1 == multiset{}
    ensures procs[IDLE].state == Runnable && Inv(procs, IDLE, pool1, queued)
  {
    PutBackAll(procs, current, pool, pool1);
    assert ProcOk(procs, IDLE);
    forall q: Pid ensures pool1[q] == if InPool(procs, IDLE, q) then 1 else 0 {
      assert pool1[q] == if q in procs && procs[q].state == Runnable && q != IDLE then 1 else 0;
    }
  }

  // ----- the steps on values ------------------------------------------------------------------

  lemma ForkInv(procs: Procs, current: Pid, pool: multiset<Pid>, queued: map<Pid, Wait>, c: Pid)
    requires Inv(procs, current, pool, queued) && procs[current].state == Runnable && c !in procs
    ensures Inv(procs[c := Proc(Runnable, NoWait, current, 0, false)], current, Enqueued(pool, c), queued)
  {
    var procs', pool' := procs[c := Proc(Runnable, NoWait, current, 0, false)], Enqueued(pool, c);
    forall q: Pid ensures ProcOk(procs', q) {
      assert ProcOk(procs, q);
    }
    forall q: Pid, d: Pid ensures WaitOk(procs', q, d) {
      assert WaitOk(procs, q, d);
    }
    forall q: Pid ensures QueuedOk(procs', queued, q) {
      assert QueuedOk(procs, queued, q);
    }
    forall q: Pid ensures pool'[q] == if InPool(procs', current, q) then 1 else 0 {
      assert pool[q] == if InPool(procs, current, q) then 1 else 0;
    }
  }

  /** do_wait takes the last of a zombie away. */
  lemma ReapInv(procs: Procs, current: Pid, pool: multiset<Pid>, queued: map<Pid, Wait>, c: Pid)
    requires Inv(procs, current, pool, queued) && c in procs && procs[c].state == Zombie
    ensures c != IDLE && c != INIT && c != current && Inv(procs - {c}, current, pool, queued)
  {
    var procs' := procs - {c};
    assert ProcOk(procs, c);
    forall q: Pid ensures ProcOk(procs', q) {
      assert ProcOk(procs, q);
    }
    forall q: Pid, d: Pid ensures WaitOk(procs', q, d) {
      assert WaitOk(procs, q, d);
    }
    forall q: Pid ensures QueuedOk(procs', queued, q) {
      assert QueuedOk(procs, queued, q);
    }
    forall q: Pid ensures pool[q] == if InPool(procs', current, q) then 1 else 0 {
      assert pool[q] == if InPool(procs, current, q) then 1 else 0;
    }
  }

  /** current goes to sleep, and stays current until it calls schedule(). */
  function Asleep(procs: Procs, p: Pid, w: Wait, target: Pid): Procs
    requires p in procs
  {
    procs[p := procs[p].(state := Sleeping, wait := w, target := target)]
  }

  lemma AsleepInv(procs: Procs, current: Pid, pool: multiset<Pid>, queued: map<Pid, Wait>, w: Wait,
          target: Pid)
    requires Inv(procs, current, pool, queued) && current != IDLE && procs[current].state == Runnable
    requires current !in queued && w != NoWait
    requires w == Child ==> forall c: Pid :: !Awaited(procs, current, target, c)
    ensures Inv(Asleep(procs, current, w, target), current, pool, if w == Child then queued else queued[current := w])
  {
    var procs', queued' := Asleep(procs, current, w, target), if w == Child then queued else queued[current := w];
    forall q: Pid ensures ProcOk(procs', q) {
      assert ProcOk(procs, q);
    }
    forall q: Pid, d: Pid ensures WaitOk(procs', q, d) {
      assert WaitOk(procs, q, d);
      assert w == Child ==> !Awaited(procs, current, target, d);
    }
    forall q: Pid ensures QueuedOk(procs', queued', q) {
      assert QueuedOk(procs, queued, q);
    }
    forall q: Pid ensures pool[q] == if InPool(procs', current, q) then 1 else 0 {
      assert pool[q] == if InPool(procs, current, q) then 1 else 0;
    }
  }

  lemma UnqueuedInv(procs: Procs, current: Pid, pool: multiset<Pid>, queued: map<Pid, Wait>, p: Pid)
    requires Inv(procs, current, pool, queued)
    ensures Inv(procs, current, pool, queued - {p})
  {
    forall q: Pid ensures QueuedOk(procs, queued - {p}, q) {
      assert QueuedOk(procs, queued, q);
    }
  }

  lemma MarkedInv(procs: Procs, current: Pid, pool: multiset<Pid>, queued: map<Pid, Wait>, p: Pid)
    requires Inv(procs, current, pool, queued) && p in procs
    ensures Inv(procs[p := procs[p].(exiting := true)], current, pool, queued)
  {
    var procs' := procs[p := procs[p].(exiting := true)];
    forall q: Pid ensures ProcOk(procs', q) {
      assert ProcOk(procs, q);
    }
    forall q: Pid, d: Pid ensures WaitOk(procs', q, d) {
      assert WaitOk(procs, q, d);
    }
    forall q: Pid ensures QueuedOk(procs', queued, q) {
      assert QueuedOk(procs, queued, q);
    }
    forall q: Pid ensures pool[q] == if InPool(procs', current, q) then 1 else 0 {
      assert pool[q] == if InPool(procs, current, q) then 1 else 0;
    }
  }

  // ----- do_exit ------------------------------------------------------------------------------

  predicate HasZombie(procs: Procs, p: Pid) {
    exists c | c in procs :: c != IDLE && procs[c].parent == p && procs[c].state == Zombie
  }

  /** Whom do_exit wakes up: the parent that waits, and initproc that waits if it gets a zombie. */
  predicate WokenByExit(procs: Procs, cur: Pid, q: Pid)
    requires cur in procs
  {
    q in procs && procs[q].wait == Child && (q == procs[cur].parent || (q == INIT && HasZombie(procs, cur)))
  }

  function AfterExit(procs: Procs, cur: Pid, q: Pid): Proc
    requires cur in procs && q in procs
  {
    var r := if q != IDLE && procs[q].parent == cur then procs[q].(parent := INIT) else procs[q];
    if q == cur then r.(state := Zombie)
    else if WokenByExit(procs, cur, q) then r.(state := Runnable, wait := NoWait)
    else r
  }

  function Exited(procs: Procs, cur: Pid): Procs
    requires cur in procs
  {
    map q | q in procs :: AfterExit(procs, cur, q)
  }

  lemma ExitedWait(procs: Procs, cur: Pid, pool: multiset<Pid>, queued: map<Pid, Wait>, q: Pid,
          d: Pid)
    requires Inv(procs, cur, pool, queued) && cur != IDLE && cur != INIT && procs[cur].state == Runnable
    ensures WaitOk(Exited(procs, cur), q, d)
  {
    assert WaitOk(procs, q, d) && ProcOk(procs, cur);
    if q in procs && d in procs && d != IDLE && procs[d].parent == cur && procs[d].state == Zombie {
      assert HasZombie(procs, cur);
    }
  }

  lemma ExitedInv(procs: Procs, cur: Pid, pool: multiset<Pid>, queued: map<Pid, Wait>,
          pool': multiset<Pid>)
    requires Inv(procs, cur, pool, queued) && cur != IDLE && cur != INIT && procs[cur].state == Runnable
             && cur !in queued
    requires forall q: Pid :: pool'[q] == pool[q] + if WokenByExit(procs, cur, q) then 1 else 0
    ensures Core(Exited(procs, cur), cur, pool', queued)
  {
    var procs' := Exited(procs, cur);
    assert ProcOk(procs, cur) && ProcOk(procs, INIT);
    forall q: Pid ensures ProcOk(procs', q) {
      assert ProcOk(procs, q);
      if q in procs && q != IDLE {
        assert ProcOk(procs, procs[q].parent);
      }
    }
    forall q: Pid, d: Pid ensures WaitOk(procs', q, d) {
      ExitedWait(procs, cur, pool, queued, q, d);
    }
    forall q: Pid ensures QueuedOk(procs', queued, q) {
      assert QueuedOk(procs, queued, q);
    }
    forall q: Pid ensures pool'[q] == if InPool(procs', cur, q) then 1 else 0 {
      assert pool[q] == if InPool(procs, cur, q) then 1 else 0;
      assert ProcOk(procs, q);
    }
  }

  /** The assignments of do_exit, one after the other. */
  function Died(procs: Procs, cur: Pid): Procs
    requires cur in procs
  {
    procs[cur := procs[cur].(state := Zombie)]
  }

  function WokenIf(procs: Procs, p: Pid, b: bool): Procs
    requires p in procs
  {
    if b && procs[p].wait == Child then Woken(procs, p) else procs
  }

  function HandedOn(procs: Procs, cur: Pid): Procs {
    map q | q in procs :: if q != IDLE && procs[q].parent == cur then procs[q].(parent := INIT) else procs[q]
  }

  lemma ZombieSame(procs: Procs, cur: Pid)
    requires ProcOk(procs, cur) && cur in procs && cur != IDLE && ProcOk(procs, procs[cur].parent)
    ensures HasZombie(WokenIf(Died(procs, cur), procs[cur].parent, true), cur) == HasZombie(procs, cur)
  {
    var procs' := WokenIf(Died(procs, cur), procs[cur].parent, true);
    if HasZombie(procs, cur) {
      var c :| c in procs && c != IDLE && procs[c].parent == cur && procs[c].state == Zombie;
      assert procs'[c].state == Zombie;
    }
    if HasZombie(procs', cur) {
      var c :| c in procs' && c != IDLE && procs'[c].parent == cur && procs'[c].state == Zombie;
      assert procs[c].state == Zombie;
    }
  }

  function Step2(procs: Procs, cur: Pid): Procs
    requires cur in procs && procs[cur].parent in procs
  {
    WokenIf(Died(procs, cur), procs[cur].parent, true)
  }

  lemma ExitStepAt(procs: Procs, cur: Pid, b: bool, q: Pid)
    requires ProcOk(procs, cur) && cur in procs && cur != IDLE && cur != INIT && INIT in procs
             && procs[cur].state == Runnable
    requires b == HasZombie(procs, cur) && q in procs
    ensures WokenIf(HandedOn(Step2(procs, cur), cur), INIT, b)[q] == AfterExit(procs, cur, q)
  {
  }

  lemma ExitSteps(procs: Procs, cur: Pid)
    requires ProcOk(procs, cur) && cur in procs && cur != IDLE && cur != INIT && INIT in procs
             && procs[cur].state == Runnable
    requires ProcOk(procs, procs[cur].parent)
    ensures var p2 := Step2(procs, cur);
            && HasZombie(p2, cur) == HasZombie(procs, cur)
            && WokenIf(HandedOn(p2, cur), INIT, HasZombie(p2, cur)) == Exited(procs, cur)
  {
    ZombieSame(procs, cur);
    var b := HasZombie(Step2(procs, cur), cur);
    var p4 := WokenIf(HandedOn(Step2(procs, cur), cur), INIT, b);
    ExitKeys(procs, cur, b);
    forall q | q in procs ensures p4[q] == AfterExit(procs, cur, q) {
      ExitStepAt(procs, cur, b, q);
    }
    IsExited(procs, cur, p4);
  }

  lemma ExitKeys(procs: Procs, cur: Pid, b: bool)
    requires cur in procs && procs[cur].parent in procs && INIT in procs
    ensures WokenIf(HandedOn(Step2(procs, cur), cur), INIT, b).Keys == procs.Keys
  {
  }

  lemma IsExited(procs: Procs, cur: Pid, after: Procs)
    requires cur in procs && after.Keys == procs.Keys && forall q | q in procs :: after[q] == AfterExit(procs, cur, q)
    ensures after == Exited(procs, cur)
  {
  }

  function PoolIf(procs: Procs, pool: multiset<Pid>, p: Pid, b: bool): multiset<Pid>
    requires p in procs
  {
    if b && procs[p].wait == Child then Enqueued(pool, p) else pool
  }

  function ExitedPool(procs: Procs, cur: Pid, pool: multiset<Pid>): multiset<Pid>
    requires cur in procs && procs[cur].parent in procs && INIT in procs
  {
    PoolIf(HandedOn(Step2(procs, cur), cur), PoolIf(Died(procs, cur), pool, procs[cur].parent, true), INIT,
        HasZombie(procs, cur))
  }

  lemma ExitPool(procs: Procs, cur: Pid, pool: multiset<Pid>)
    requires ProcOk(procs, cur) && cur in procs && cur != IDLE && cur != INIT && INIT in procs
             && procs[cur].state == Runnable
    requires ProcOk(procs, IDLE)
    ensures var pool' := ExitedPool(procs, cur, pool);
            forall q: Pid :: pool'[q] == pool[q] + if WokenByExit(procs, cur, q) then 1 else 0
  {
  }

  // ----- the kernel ---------------------------------------------------------------------------

  datatype WaitResult = Reaped(child: Pid) | Blocked | NoChild

  datatype KillResult = Marked | Killed | NoSuch

  /** `p` is marked, and woken if and only if its wait can be interrupted. */
  function MarkedProcs(procs: Procs, p: Pid): Procs
    requires p in procs
  {
    var q := procs[p].(exiting := true);
    procs[p := if Interruptible(q.wait) then q.(state := Runnable, wait := NoWait) else q]
  }

  class Kernel {
    var procs: Procs
    var current: Pid
    var pool: multiset<Pid>        // the run pool of the scheduling class
    var procNum: int               // rq->proc_num
    var queued: map<Pid, Wait>     // who has an entry on a wait queue or the timer list, and why

    ghost predicate Valid()
      reads this
    {
      Inv(procs, current, pool, queued) && procNum == |pool|
    }

    /** idleproc and initproc, when proc_init is done. */
    constructor ()
      ensures Valid() && current == IDLE && procs.Keys == {IDLE, INIT}
    {
      procs := map[IDLE := Proc(Runnable, NoWait, IDLE, 0, false), INIT := Proc(Runnable, NoWait, IDLE, 0, false)];
      current, pool, procNum, queued := IDLE, multiset{INIT}, 1, map[];
    }

    /** sched_class_enqueue. */
    method Enqueue(p: Pid)
      modifies `pool, `procNum
      ensures pool == Enqueued(old(pool), p) && procNum - |pool| == old(procNum - |pool|)
    {
      if p != IDLE {
        pool := pool + multiset{p};
        procNum := procNum + 1;
      }
    }

    /** wakeup_proc; its assert is the precondition here. */
    method Wakeup(p: Pid)
      requires p in procs && procs[p].state != Zombie
      modifies `procs, `pool, `procNum
      ensures procNum - |pool| == old(procNum - |pool|)
      ensures procs == if old(procs)[p].state == Runnable then old(procs) else Woken(old(procs), p)
      ensures pool == if old(procs)[p].state == Runnable || p == current then old(pool) else Enqueued(old(pool), p)
    {
      if procs[p].state != Runnable {
        procs := procs[p := procs[p].(state := Runnable, wait := NoWait)];
        if p != current {
          Enqueue(p);
        }
      }
    }

    /** schedule: the next process is one of the pool, or idleproc if that is empty. */
    method Schedule()
      requires Core(procs, current, pool, queued) && procNum == |pool|
      modifies `current, `pool, `procNum
      ensures Valid() && procs[current].state == Runnable && (current == IDLE ==> pool == multiset{})
    {
      ghost var pool0 := pool;
      if procs[current].state == Runnable {
        Enqueue(current);
      }
      Switch(pool0);
    }

    /** The choice of the next process, out of the pool. */
    method Switch(ghost pool0: multiset<Pid>)
      requires Core(procs, current, pool0, queued) && PutBack(procs, current, pool0, pool) && procNum == |pool|
      modifies `current, `pool, `procNum
      ensures Valid() && procs[current].state == Runnable && (current == IDLE ==> pool == multiset{})
    {
      if pool == multiset{} {
        IdleInv(procs, current, pool0, queued, pool);
        current := IDLE;
      } else {
        var next :| next in pool;
        SwitchInv(procs, current, pool0, queued, pool, next);
        pool := pool - multiset{next};
        procNum := procNum - 1;
        current := next;
      }
    }

    /** do_fork from set_links on: the child is runnable. */
    method Fork(c: Pid)
      requires Valid() && procs[current].state == Runnable && c !in procs
      modifies `procs, `pool, `procNum
      ensures Valid() && procs == old(procs)[c := Proc(Runnable, NoWait, current, 0, false)]
              && pool == Enqueued(old(pool), c)
    {
      ForkInv(procs, current, pool, queued, c);
      procs := procs[c := Proc(Runnable, NoWait, current, 0, false)];
      Enqueue(c);
    }

    /** do_exit: current is a zombie, its children belong to initproc, and whoever waits for one of
        the zombies has been woken up. */
    method Exit()
      requires Valid() && current != IDLE && current != INIT && procs[current].state == Runnable && current !in queued
      modifies this
      ensures Valid() && procs == Exited(old(procs), old(current)) && queued == old(queued)
      ensures current != old(current) && procs[current].state == Runnable
    {
      assert ProcOk(procs, current) && ProcOk(procs, IDLE) && ProcOk(procs, procs[current].parent);
      ExitPool(procs, current, pool);
      ExitedInv(procs, current, pool, queued, ExitedPool(procs, current, pool));
      Die();
      Schedule();
    }

    /** do_exit up to schedule(). */
    method Die()
      requires ProcOk(procs, current) && current in procs && INIT in procs && current != IDLE && current != INIT
      requires procs[current].state == Runnable && ProcOk(procs, procs[current].parent) && ProcOk(procs, INIT)
      modifies `procs, `pool, `procNum
      ensures procs == Exited(old(procs), current) && pool == ExitedPool(old(procs), current, old(pool))
      ensures procNum - |pool| == old(procNum - |pool|)
    {
      ghost var procs0 := procs;
      ExitSteps(procs, current);
      procs := procs[current := procs[current].(state := Zombie)];
      var parent := procs[current].parent;
      if procs[parent].wait == Child {
        Wakeup(parent);
      }
      assert procs == Step2(procs0, current);
      var zombie := HasZombie(procs, current);
      procs := HandedOn(procs, current);
      if zombie && procs[INIT].wait == Child {
        Wakeup(INIT);
      }
    }

    /** One turn of do_wait: a zombie is taken away, or current goes to sleep if it has a child to
        wait for.  It goes to sleep only when none of those is a zombie. */
    method WaitChild(target: Pid) returns (r: WaitResult)
      requires Valid() && current != IDLE && procs[current].state == Runnable && current !in queued
      modifies `procs
      ensures Valid()
      ensures r.Reaped? ==> Awaited(old(procs), current, target, r.child) && procs == old(procs) - {r.child}
      ensures r.Blocked? ==> procs == Asleep(old(procs), current, Child, target)
      ensures r.NoChild? ==> procs == old(procs) && forall c | c in procs :: !ChildOf(procs, current, target, c)
      ensures !r.Reaped? ==> forall c | c in old(procs) :: !Awaited(old(procs), current, target, c)
    {
      if c :| c in procs && Awaited(procs, current, target, c) {
        ReapInv(procs, current, pool, queued, c);
        assert c != IDLE && c != INIT;
        procs := procs - {c};
        return Reaped(c);
      }
      if c :| c in procs && ChildOf(procs, current, target, c) {
        AsleepInv(procs, current, pool, queued, Child, target);
        procs := procs[current := procs[current].(state := Sleeping, wait := Child, target := target)];
        return Blocked;
      }
      return NoChild;
    }

    /** The blocking part of down, do_sleep and the pipe: current is on a queue and asleep. */
    method Block(w: Wait)
      requires Valid() && current != IDLE && procs[current].state == Runnable && current !in queued
      requires w != NoWait && w != Child
      modifies `procs, `queued
      ensures Valid() && procs == Asleep(old(procs), current, w, 0) && queued == old(queued)[current := w]
    {
      AsleepInv(procs, current, pool, queued, w, 0);
      procs := procs[current := procs[current].(state := Sleeping, wait := w, target := 0)];
      queued := queued[current := w];
    }

    /** up, a tick that ends a timer, or the other side of a pipe: `p` leaves the queue and is woken
        up.  The asserts of those callers on its wait state, and that of wakeup_proc, hold. */
    method WakeQueued(p: Pid)
      requires Valid() && p in queued
      modifies `procs, `pool, `procNum, `queued
      ensures Valid() && queued == old(queued) - {p} && p in old(procs)
      ensures old(procs)[p].state != Zombie && (old(queued)[p] == Ksem ==> old(procs)[p].wait == Ksem)
      ensures old(procs)[p].wait == NoWait || old(procs)[p].wait == old(queued)[p]
      ensures procs == Woken(old(procs), p)
    {
      assert QueuedOk(procs, queued, p) && ProcOk(procs, p);
      UnqueuedInv(procs, current, pool, queued, p);
      queued := queued - {p};
      if procs[p].state == Sleeping {
        WokenInv(procs, current, pool, queued, p);
      }
      Wakeup(p);
    }

    /** do_kill, with find_proc: numbers that are not positive name nobody. */
    method Kill(pid: int) returns (ret: KillResult)
      requires Valid()
      modifies `procs, `pool, `procNum
      ensures Valid()
      ensures ret == if pid <= 0 || pid !in old(procs) then NoSuch else if old(procs)[pid].exiting
              then Killed else Marked
      ensures !ret.Marked? ==> procs == old(procs) && pool == old(pool)
      ensures ret.Marked? ==> procs == MarkedProcs(old(procs), pid)
    {
      if pid <= 0 || pid !in procs {
        return NoSuch;
      }
      if procs[pid].exiting {
        return Killed;
      }
      MarkedInv(procs, current, pool, queued, pid);
      Interrupt(pid);
      return Marked;
    }

    /** The flag is set, and the process woken if its wait can be interrupted. */
    method Interrupt(p: Pid)
      requires Valid() && p in procs && Inv(procs[p := procs[p].(exiting := true)], current, pool, queued)
      modifies `procs, `pool, `procNum
      ensures Valid() && p in old(procs) && procs == MarkedProcs(old(procs), p)
    {
      assert ProcOk(procs, p) && QueuedOk(procs, queued, p);
      procs := procs[p := procs[p].(exiting := true)];
      if Interruptible(procs[p].wait) {
        WokenInv(procs, current, pool, queued, p);
        Wakeup(p);
      }
    }

    /** schedule() has come back to a process that was suspended: it takes itself off its queue,
        where it can only be if it was killed. */
    method Resume() returns (was: bool)
      requires Valid() && procs[current].state == Runnable
      modifies `queued
      ensures Valid() && current !in queued && queued == old(queued) - {current} && was == (current in old(queued))
      ensures was ==> Interruptible(old(queued)[current])
    {
      assert QueuedOk(procs, queued, current) && ProcOk(procs, current);
      UnqueuedInv(procs, current, pool, queued, current);
      was := current in queued;
      queued := queued - {current};
    }
  }

  /** `c` is a child that do_wait is to wait for. */
  predicate ChildOf(procs: Procs, p: Pid, target: Pid, c: Pid) {
    c in procs && c != IDLE && procs[c].parent == p && (target == 0 || target == c)
  }
}
