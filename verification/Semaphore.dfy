/**
 Counting semaphores with direct hand-off: kern/sync/sem.c on the wait queues of
 kern/sync/wait.c.  A value is enough for the protocols that use them; the class below
 is the code itself.
 */
module Semaphore {

  type Tid = nat

  /** `queue` holds the sleepers, first in first out; `granted` those that up() has taken
      off the queue and made runnable, but that have not yet returned from down(). */
  datatype Sem = Sem(value: nat, queue: seq<Tid>, granted: set<Tid>)

  /** __up: the first sleeper gets the unit; it is counted only if nobody sleeps. */
  function Up(s: Sem): Sem {
    if s.queue == [] then s.(value := s.value + 1)
    else s.(queue := s.queue[1..], granted := s.granted + {s.queue[0]})
  }

  /** __down by `t`, up to the point where it returns or goes to sleep. */
  function Down(s: Sem, t: Tid): Sem {
    if s.value > 0 then s.(value := s.value - 1) else s.(queue := s.queue + [t])
  }

  /** __down by `t`, after schedule() returns. */
  function Resume(s: Sem, t: Tid): Sem {
    s.(granted := s.granted - {t})
  }

  ghost predicate NoDuplicates(q: seq<Tid>) {
    forall i, j | 0 <= i < j < |q| :: q[i] != q[j]
  }

  lemma HasMember(q: seq<Tid>)
    ensures q == [] || exists t :: t in q
  {
    if q != [] {
      assert q[0] in q;
    }
  }

  /** Nobody sleeps on a unit that could be taken, and nobody is there twice. */
  ghost predicate Valid(s: Sem) {
    && (s.value > 0 ==> s.queue == [])
    && NoDuplicates(s.queue)
    && forall t <- s.queue :: t !in s.granted
  }

  // ----- runs of a single semaphore ------------------------------------------------

  datatype Op = DoUp | DoDown(t: Tid) | DoResume(t: Tid)

  /** What the caller of each operation must be: not asleep in it already, or woken by it. */
  ghost predicate Allowed(s: Sem, op: Op) {
    match op
    case DoUp => true
    case DoDown(t) => t !in s.queue && t !in s.granted
    case DoResume(t) => t in s.granted
  }

  function Apply(s: Sem, op: Op): Sem {
    match op
    case DoUp => Up(s)
    case DoDown(t) => Down(s, t)
    case DoResume(t) => Resume(s, t)
  }

  ghost predicate Run(s: seq<Sem>, ops: seq<Op>) {
    && |s| == |ops| + 1
    && forall i | 0 <= i < |ops| :: Allowed(s[i], ops[i]) && s[i + 1] == Apply(s[i], ops[i])
  }

  /** Units put in, and units taken out by calls that returned. */
  ghost function Ups(ops: seq<Op>): nat {
    if ops == [] then 0 else Ups(ops[..|ops| - 1]) + if ops[|ops| - 1].DoUp? then 1 else 0
  }

  ghost function Returns(s: seq<Sem>, ops: seq<Op>): nat
    requires |s| > |ops|
  {
    if ops == [] then 0
    else
      var n := |ops| - 1;
      Returns(s, ops[..n]) + if ops[n].DoResume? || (ops[n].DoDown? && s[n].value > 0) then 1 else 0
  }

  /** Every unit is accounted for in every run: it was counted, handed over, or used up. */
  lemma {:induction false} UnitsConserved(s: seq<Sem>, ops: seq<Op>)
    requires Run(s, ops) && Valid(s[0])
    ensures Valid(s[|ops|])
    ensures s[|ops|].value + |s[|ops|].granted| + Returns(s, ops) == s[0].value + |s[0].granted| + Ups(ops)
  {
    if ops != [] {
      var n := |ops| - 1;
      assert Run(s[..n + 1], ops[..n]);
      UnitsConserved(s[..n + 1], ops[..n]);
      ReturnsPrefix(s, ops[..n], n + 1);
      StepConserves(s[n], ops[n]);
    }
  }

  lemma {:induction false} ReturnsPrefix(s: seq<Sem>, ops: seq<Op>, k: nat)
    requires |ops| < k <= |s|
    ensures Returns(s[..k], ops) == Returns(s, ops)
  {
    if ops != [] {
      ReturnsPrefix(s, ops[..|ops| - 1], k);
    }
  }

  lemma StepConserves(s: Sem, op: Op)
    requires Valid(s) && Allowed(s, op)
    ensures var s' := Apply(s, op);
            && Valid(s')
            && s'.value + |s'.granted| + (if op.DoResume? || (op.DoDown? && s.value > 0) then 1 else 0)
               == s.value + |s.granted| + (if op.DoUp? then 1 else 0)
  {
  }

  ghost predicate SleepsAt(s: Sem, t: Tid, i: int) {
    0 <= i < |s.queue| && s.queue[i] == t
  }

  lemma QueueMoves(s: Sem, op: Op, t: Tid, i: nat)
    requires Allowed(s, op) && SleepsAt(s, t, i)
    ensures op.DoUp? && i == 0 ==> t in Apply(s, op).granted
    ensures op.DoUp? && i > 0 ==> SleepsAt(Apply(s, op), t, i - 1)
    ensures !op.DoUp? && Valid(s) ==> SleepsAt(Apply(s, op), t, i)
  {
  }

  lemma GrantKept(s: Sem, op: Op, t: Tid)
    requires t in s.granted
    ensures t in Apply(s, op).granted || op == DoResume(t)
  {
  }

  lemma {:induction false} StaysValid(s: seq<Sem>, ops: seq<Op>, k: nat)
    requires Run(s, ops) && Valid(s[0]) && k < |s|
    ensures Valid(s[k])
  {
    if k > 0 {
      StaysValid(s, ops, k - 1);
      StepConserves(s[k - 1], ops[k - 1]);
    }
  }

  /** Sleepers are served in the order in which they came: the one at position `i` moves up
      with every up(), and by the i-th from now it has its unit, whoever comes later. */
  lemma {:induction false} FirstComeFirstServed(s: seq<Sem>, ops: seq<Op>, t: Tid, i: nat)
    requires Run(s, ops) && Valid(s[0]) && SleepsAt(s[0], t, i)
    ensures Ups(ops) <= i ==> SleepsAt(s[|ops|], t, i - Ups(ops))
    ensures Ups(ops) > i ==> t in s[|ops|].granted || DoResume(t) in ops
  {
    if ops != [] {
      var n := |ops| - 1;
      assert Run(s[..n + 1], ops[..n]);
      FirstComeFirstServed(s[..n + 1], ops[..n], t, i);
      StaysValid(s, ops, n);
      assert s[n + 1] == Apply(s[n], ops[n]) && Allowed(s[n], ops[n]);
      assert ops == ops[..n] + [ops[n]];
      ServedStep(s[n], ops[n], t, i, Ups(ops[..n]), DoResume(t) in ops[..n]);
    }
  }

  /** One step of that; `k` is the number of calls of up() before it. */
  lemma ServedStep(s: Sem, op: Op, t: Tid, i: nat, k: nat, resumed: bool)
    requires Allowed(s, op) && Valid(s) && (k <= i ==> SleepsAt(s, t, i - k)) && (k > i ==> t in s.granted || resumed)
    ensures var k' := if op.DoUp? then k + 1 else k;
            && (k' <= i ==> SleepsAt(Apply(s, op), t, i - k'))
            && (k' > i ==> t in Apply(s, op).granted || resumed || op == DoResume(t))
  {
    if k <= i {
      QueueMoves(s, op, t, i - k);
    } else if t in s.granted {
      GrantKept(s, op, t);
    }
  }

  // ----- the code -------------------------------------------------------------------

  /** wait->wakeup_flags of a process inside down(): what it was set to by wait_init, or by up(). */
  datatype Flag = WtInterrupted | WtKsem

  class KSem {
    var value: nat
    var queue: seq<Tid>
    var flags: map<Tid, Flag>

    ghost function State(): Sem
      reads this
    {
      Sem(value, queue, set t | t in flags && flags[t].WtKsem?)
    }

    /** A sleeper is on the queue until up() takes it off and marks it. */
    ghost predicate Wf()
      reads this
    {
      Valid(State()) && (forall t <- queue :: t in flags)
          && forall t | t in flags :: flags[t].WtInterrupted? <==> t in queue
    }

    /** sem_init. */
    constructor (v: nat)
      ensures Wf() && State() == Sem(v, [], {})
    {
      value, queue, flags := v, [], map[];
    }

    /** up. */
    method Signal()
      requires Wf()
      modifies this
      ensures Wf() && State() == Up(old(State()))
    {
      if queue == [] {
        value := value + 1;
      } else {
        var t := queue[0];
        queue := queue[1..];
        flags := flags[t := WtKsem];
        assert State().granted == old(State()).granted + {t};
        assert forall x :: x in old(queue) <==> x == t || x in queue;
      }
    }

    /** down by `t`, up to the point where it returns or calls schedule(). */
    method Acquire(t: Tid) returns (done: bool)
      requires Wf() && t !in flags
      modifies this
      ensures Wf() && State() == Down(old(State()), t) && done == (old(value) > 0)
    {
      if value > 0 {
        value := value - 1;
        return true;
      }
      flags := flags[t := WtInterrupted];
      queue := queue + [t];
      assert State().granted == old(State()).granted;
      return false;
    }

    /** down by `t`, when schedule() returns.  Only up() can have woken it, so the assert in down()
        on the result of __down holds. */
    method Acquired(t: Tid) returns (flag: Flag)
      requires Wf() && t in flags && t !in queue
      modifies this
      ensures Wf() && State() == Resume(old(State()), t) && flag.WtKsem?
    {
      flag := flags[t];
      flags := flags - {t};
      assert State().granted == old(State()).granted - {t};
    }

    /** try_down. */
    method TryAcquire() returns (ok: bool)
      requires Wf()
      modifies this
      ensures Wf() && ok == (old(value) > 0)
      ensures State() == old(State()).(value := if ok then old(value) - 1 else 0)
    {
      if value > 0 {
        value := value - 1;
        return true;
      }
      return false;
    }
  }
}
