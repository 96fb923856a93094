/**
 The timer list of kern/schedule/sched.c:102-176.  Each timer stores its distance in ticks
 from the timer before it; what the list means is a deadline for every timer.
 */
module Timers {

  const WORD := 0x1_0000_0000

  datatype Timer = Timer(proc: nat, expires: nat)

  /** A timer with its absolute deadline, in ticks from now. */
  datatype Alarm = Alarm(proc: nat, due: nat)

  /** The meaning of a list of deltas, for a list that starts `base` ticks from now. */
  function Alarms(ts: seq<Timer>, base: nat): (r: seq<Alarm>)
    ensures |r| == |ts|
  {
    if ts == [] then []
    else [Alarm(ts[0].proc, base + ts[0].expires)] + Alarms(ts[1..], base + ts[0].expires)
  }

  function Sum(ts: seq<Timer>): nat {
    if ts == [] then 0 else ts[0].expires + Sum(ts[1..])
  }

  // ----- what the operations mean on alarms ------------------------------------------

  /** A new alarm goes behind every alarm that is not due later, and before the others. */
  ghost predicate InsertedBetween(p: seq<Alarm>, a: Alarm, q: seq<Alarm>, before: seq<Alarm>, after: seq<Alarm>) {
    && before == p + q && after == p + [a] + q
    && (forall x <- p :: x.due <= a.due)
    && (forall x <- q :: a.due < x.due)
  }

  ghost predicate Inserted(before: seq<Alarm>, a: Alarm, after: seq<Alarm>) {
    exists p, q :: InsertedBetween(p, a, q, before, after)
  }

  /** One tick later: who is due, in order, and what is left. */
  function Due(s: seq<Alarm>): seq<nat> {
    if s == [] then [] else (if s[0].due == 1 then [s[0].proc] else []) + Due(s[1..])
  }

  function Later(s: seq<Alarm>): seq<Alarm> {
    if s == [] then []
    else (if s[0].due > 1 then [Alarm(s[0].proc, s[0].due - 1)] else []) + Later(s[1..])
  }

  ghost predicate Sorted(s: seq<Alarm>) {
    forall i, j | 0 <= i < j < |s| :: s[i].due <= s[j].due
  }

  // ----- deltas and alarms ------------------------------------------------------------

  lemma {:induction false} AlarmsHead(ts: seq<Timer>, t: Timer, rest: seq<Timer>, base: nat)
    requires ts != [] && ts[0] == t && ts[1..] == rest
    ensures Alarms(ts, base) == [Alarm(t.proc, base + t.expires)] + Alarms(rest, base + t.expires)
  {
  }

  lemma {:induction false} AlarmsConcat(a: seq<Timer>, b: seq<Timer>, base: nat)
    ensures Alarms(a + b, base) == Alarms(a, base) + Alarms(b, base + Sum(a))
  {
    if a == [] {
      assert a + b == b;
    } else {
      var t, c := a[0], a[1..];
      AlarmsConcat(c, b, base + t.expires);
      AlarmsHead(a + b, t, c + b, base);
      AlarmsHead(a, t, c, base);
      Regroup([Alarm(t.proc, base + t.expires)], Alarms(c, base + t.expires), Alarms(b, base + Sum(a)));
    }
  }

  lemma {:induction false} Regroup(x: seq<Alarm>, p: seq<Alarm>, q: seq<Alarm>)
    ensures x + (p + q) == (x + p) + q
  {
  }

  lemma {:induction false} SumConcat(a: seq<Timer>, b: seq<Timer>)
    ensures Sum(a + b) == Sum(a) + Sum(b)
  {
    if a == [] {
      assert a + b == b;
    } else {
      SumConcat(a[1..], b);
      assert (a + b)[1..] == a[1..] + b;
    }
  }

  /** Deltas can only describe deadlines in order. */
  lemma {:induction false} AlarmsSorted(ts: seq<Timer>, base: nat)
    ensures Sorted(Alarms(ts, base))
    ensures forall a <- Alarms(ts, base) :: base <= a.due <= base + Sum(ts)
  {
    if ts != [] {
      AlarmsSorted(ts[1..], base + ts[0].expires);
    }
  }

  class TimerList {
    var timers: seq<Timer>

    /** The first delta is not 0, and the last deadline fits an unsigned int. */
    ghost predicate Valid()
      reads this
    {
      (timers != [] ==> timers[0].expires > 0) && Sum(timers) < WORD
    }

    ghost function View(): seq<Alarm>
      reads this
    {
      Alarms(timers, 0)
    }

    constructor ()
      ensures Valid() && View() == []
    {
      timers := [];
    }

    /** The search of add_timer: where the timer goes, and what is left of its delta there. */
    method Locate(expires: nat) returns (i: nat, left: nat)
      requires Valid() && expires < WORD
      ensures i <= |timers| && left + Sum(timers[..i]) == expires
      ensures i < |timers| ==> left < timers[i].expires <= Sum(timers)
    {
      i, left := 0, expires;
      while i < |timers|
        invariant i <= |timers| && left + Sum(timers[..i]) == expires
      {
        assert timers == timers[..i] + timers[i..];
        SumConcat(timers[..i], timers[i..]);
        if left < timers[i].expires {
          break;
        }
        assert timers[..i + 1] == timers[..i] + [timers[i]];
        SumConcat(timers[..i], [timers[i]]);
        left := (left - timers[i].expires) % WORD;
        i := i + 1;
      }
    }

    /** add_timer. */
    method Add(proc: nat, expires: nat)
      requires Valid() && 0 < expires < WORD
      modifies this
      ensures Valid() && Inserted(old(View()), Alarm(proc, expires), View())
    {
      var i, left := Locate(expires);
      ghost var a, b, t := timers[..i], timers[i..], Timer(proc, left);
      assert timers == a + b;
      InsertMeaning(a, b, t, Behind(b, left));
      if i < |timers| {
        timers := timers[i := timers[i].(expires := (timers[i].expires - left) % WORD)];
      }
      timers := timers[..i] + [Timer(proc, left)] + timers[i..];
      assert timers == a + ([t] + Behind(b, left));
    }

    /** del_timer, for the timer at position `i`. */
    method Delete(i: nat)
      requires Sum(timers) < WORD && i < |timers|
      modifies this
      ensures View() == old(View()[..i] + View()[i + 1..])
      ensures Sum(timers) < WORD && (old(Valid()) ==> Valid())
      ensures old(timers[i].expires) == 0 ==> timers == old(timers[..i] + timers[i + 1..])
    {
      ghost var ts := timers;
      DeltaSumFits(ts, i);
      if timers[i].expires != 0 {
        if i + 1 < |timers| {
          timers := timers[i + 1 := timers[i + 1].(expires := (timers[i + 1].expires + timers[i].expires) % WORD)];
        }
      }
      timers := timers[..i] + timers[i + 1..];
      DeleteMeaning(ts, i, timers);
    }

    /** run_timer_list: the processes it wakes, in order. */
    method Tick() returns (fired: seq<nat>)
      requires Valid()
      modifies this
      ensures Valid()
      ensures fired == Due(old(View())) && View() == Later(old(View()))
    {
      fired := [];
      if timers != [] {
        ghost var A := View();
        LowerMeaning(timers);
        timers := timers[0 := timers[0].(expires := timers[0].expires - 1)];
        while timers != [] && timers[0].expires == 0
          invariant Sum(timers) < WORD
          invariant fired + Now(View()) == Due(A) && Rest(View()) == Later(A)
          decreases |timers|
        {
          fired := fired + [timers[0].proc];
          assert View()[..0] + View()[1..] == View()[1..];
          Delete(0);
        }
        NothingNow(timers);
      }
    }
  }

  /** Alarms that are due now, and the others. */
  function Now(s: seq<Alarm>): seq<nat> {
    if s == [] then [] else (if s[0].due == 0 then [s[0].proc] else []) + Now(s[1..])
  }

  function Rest(s: seq<Alarm>): seq<Alarm> {
    if s == [] then [] else (if s[0].due > 0 then [s[0]] else []) + Rest(s[1..])
  }

  lemma {:induction false} LowerAll(ts: seq<Timer>, base: nat)
    ensures Now(Alarms(ts, base)) == Due(Alarms(ts, base + 1))
    ensures Rest(Alarms(ts, base)) == Later(Alarms(ts, base + 1))
  {
    if ts != [] {
      LowerAll(ts[1..], base + ts[0].expires);
    }
  }

  /** Taking one off the first delta takes one off every deadline. */
  lemma {:induction false} LowerMeaning(ts: seq<Timer>)
    requires ts != [] && ts[0].expires > 0
    ensures var ts' := ts[0 := ts[0].(expires := ts[0].expires - 1)];
            && Now(Alarms(ts', 0)) == Due(Alarms(ts, 0)) && Rest(Alarms(ts', 0)) == Later(Alarms(ts, 0))
            && Sum(ts') == Sum(ts) - 1
  {
    LowerAll(ts[1..], ts[0].expires - 1);
    assert ts[0 := ts[0].(expires := ts[0].expires - 1)][1..] == ts[1..];
  }

  lemma {:induction false} NoneNow(s: seq<Alarm>)
    requires forall a <- s :: a.due > 0
    ensures Now(s) == [] && Rest(s) == s
  {
    if s != [] {
      NoneNow(s[1..]);
    }
  }

  lemma {:induction false} NothingNow(ts: seq<Timer>)
    requires ts != [] ==> ts[0].expires > 0
    ensures Now(Alarms(ts, 0)) == [] && Rest(Alarms(ts, 0)) == Alarms(ts, 0)
  {
    if ts != [] {
      AlarmsSorted(ts[1..], ts[0].expires);
    }
    NoneNow(Alarms(ts, 0));
  }

  lemma {:induction false} DeltaSumFits(ts: seq<Timer>, i: nat)
    requires i < |ts|
    ensures i + 1 < |ts| ==> ts[i].expires + ts[i + 1].expires <= Sum(ts)
  {
    assert ts == ts[..i] + ts[i..];
    SumConcat(ts[..i], ts[i..]);
  }

  lemma {:induction false} DeleteMeaning(ts: seq<Timer>, i: nat, ts': seq<Timer>)
    requires i < |ts|
    requires ts' == ts[..i] + if i + 1 < |ts|
             then [Timer(ts[i + 1].proc, ts[i].expires + ts[i + 1].expires)] + ts[i + 2..] else []
    ensures Alarms(ts', 0) == Alarms(ts, 0)[..i] + Alarms(ts, 0)[i + 1..]
    ensures Sum(ts') <= Sum(ts)
  {
    var a, c := ts[..i], ts[i].expires;
    var rest := if i + 1 < |ts| then [Timer(ts[i + 1].proc, c + ts[i + 1].expires)] + ts[i + 2..] else [];
    assert ts == a + ([ts[i]] + ts[i + 1..]);
    AlarmsAround(a, ts[i], ts[i + 1..]);
    AlarmsConcat(a, rest, 0);
    SameAlarms(ts[i + 1..], c, Sum(a));
    SumConcat(a, rest);
    assert |Alarms(a, 0)| == i;
    TakeOut(Alarms(a, 0), Alarm(ts[i].proc, Sum(a) + c), Alarms(ts[i + 1..], Sum(a) + c));
  }

  lemma {:induction false} TakeOut(p: seq<Alarm>, x: Alarm, q: seq<Alarm>)
    ensures (p + [x] + q)[..|p|] + (p + [x] + q)[|p| + 1..] == p + q
  {
  }

  /** A delta may be moved from before a list into its first element. */
  lemma {:induction false} SameAlarms(ts: seq<Timer>, c: nat, base: nat)
    ensures var ts' := if ts == [] then [] else [Timer(ts[0].proc, c + ts[0].expires)] + ts[1..];
            Alarms(ts', base) == Alarms(ts, base + c) && Sum(ts') <= Sum(ts) + c
  {
    if ts != [] {
      assert ([Timer(ts[0].proc, c + ts[0].expires)] + ts[1..])[1..] == ts[1..];
    }
  }

  /** What add_timer leaves of the deltas behind the new timer. */
  function Behind(ts: seq<Timer>, left: nat): seq<Timer>
    requires ts != [] ==> left < ts[0].expires
  {
    if ts == [] then [] else [Timer(ts[0].proc, ts[0].expires - left)] + ts[1..]
  }

  lemma {:induction false} BehindSame(ts: seq<Timer>, left: nat, base: nat)
    requires ts != [] ==> left < ts[0].expires
    ensures Alarms(Behind(ts, left), base + left) == Alarms(ts, base)
    ensures ts != [] ==> Sum(Behind(ts, left)) + left == Sum(ts)
    ensures forall x <- Alarms(ts, base) :: base + left < x.due
  {
    if ts != [] {
      assert Behind(ts, left)[1..] == ts[1..];
      AlarmsSorted(ts[1..], base + ts[0].expires);
    }
  }

  lemma {:induction false} AlarmsAround(a: seq<Timer>, t: Timer, c: seq<Timer>)
    ensures Alarms(a + ([t] + c), 0) ==
            Alarms(a, 0) + [Alarm(t.proc, Sum(a) + t.expires)] + Alarms(c, Sum(a) + t.expires)
    ensures Sum(a + ([t] + c)) == Sum(a) + t.expires + Sum(c)
  {
    AlarmsConcat(a, [t] + c, 0);
    AlarmsConcat([t], c, Sum(a));
    SumConcat(a, [t] + c);
    SumConcat([t], c);
  }

  lemma {:induction false} PutBetween(p: seq<Alarm>, n: Alarm, q: seq<Alarm>, before: seq<Alarm>, after: seq<Alarm>)
    requires before == p + q && after == p + [n] + q
    requires (forall x <- p :: x.due <= n.due) && (forall x <- q :: n.due < x.due)
    ensures Inserted(before, n, after)
  {
    assert InsertedBetween(p, n, q, before, after);
  }

  /** The deadlines on both sides of a new timer. */
  lemma {:induction false} InsertOrder(a: seq<Timer>, b: seq<Timer>, left: nat)
    requires b != [] ==> left < b[0].expires
    ensures forall x <- Alarms(a, 0) :: x.due <= Sum(a) + left
    ensures forall x <- Alarms(b, Sum(a)) :: Sum(a) + left < x.due
  {
    AlarmsSorted(a, 0);
    BehindSame(b, left, Sum(a));
  }

  lemma {:induction false} InsertAlarms(a: seq<Timer>, b: seq<Timer>, t: Timer, c: seq<Timer>)
    requires (b != [] ==> t.expires < b[0].expires) && c == Behind(b, t.expires)
    ensures Alarms(a + ([t] + c), 0) == Alarms(a, 0) + [Alarm(t.proc, Sum(a) + t.expires)] + Alarms(b, Sum(a))
  {
    AlarmsAround(a, t, c);
    BehindSame(b, t.expires, Sum(a));
  }

  lemma {:induction false} InsertSum(a: seq<Timer>, b: seq<Timer>, t: Timer, c: seq<Timer>)
    requires (b != [] ==> t.expires < b[0].expires) && c == Behind(b, t.expires)
    ensures Sum(a + ([t] + c)) == if b == [] then Sum(a) + t.expires else Sum(a + b)
  {
    AlarmsAround(a, t, c);
    BehindSame(b, t.expires, Sum(a));
    SumConcat(a, b);
  }

  lemma {:induction false} InsertMeaning(a: seq<Timer>, b: seq<Timer>, t: Timer, c: seq<Timer>)
    requires (b != [] ==> t.expires < b[0].expires) && c == Behind(b, t.expires)
    ensures Inserted(Alarms(a + b, 0), Alarm(t.proc, Sum(a) + t.expires), Alarms(a + ([t] + c), 0))
    ensures Sum(a + ([t] + c)) == if b == [] then Sum(a) + t.expires else Sum(a + b)
  {
    InsertSum(a, b, t, c);
    AlarmsConcat(a, b, 0);
    InsertAlarms(a, b, t, c);
    InsertOrder(a, b, t.expires);
    PutBetween(Alarms(a, 0), Alarm(t.proc, Sum(a) + t.expires), Alarms(b, Sum(a)), Alarms(a + b, 0),
        Alarms(a + ([t] + c), 0));
  }

  // ----- whole runs -------------------------------------------------------------------

  datatype Op = TickOp | AddOp(a: Alarm) | DeleteOp(i: nat)

  ghost predicate Step(s: seq<Alarm>, op: Op, s': seq<Alarm>) {
    match op
    case TickOp => s' == Later(s)
    case AddOp(a) => Inserted(s, a, s')
    case DeleteOp(i) => i < |s| && s' == s[..i] + s[i + 1..]
  }

  ghost predicate Run(s: seq<seq<Alarm>>, ops: seq<Op>) {
    |s| == |ops| + 1 && forall k | 0 <= k < |ops| :: Step(s[k], ops[k], s[k + 1])
  }

  ghost function Ticks(ops: seq<Op>): nat {
    if ops == [] then 0 else Ticks(ops[..|ops| - 1]) + if ops[|ops| - 1].TickOp? then 1 else 0
  }

  ghost predicate Spares(s: seq<Alarm>, op: Op, p: nat) {
    op.DeleteOp? ==> op.i < |s| && s[op.i].proc != p
  }

  /** Nobody deletes an alarm of `p`. */
  ghost predicate LeavesAlone(s: seq<seq<Alarm>>, ops: seq<Op>, p: nat)
    requires Run(s, ops)
  {
    forall k | 0 <= k < |ops| :: Spares(s[k], ops[k], p)
  }

  lemma {:induction false} TickKeeps(s: seq<Alarm>, a: Alarm)
    requires a in s
    ensures a.due > 1 ==> Alarm(a.proc, a.due - 1) in Later(s)
    ensures a.due == 1 ==> a.proc in Due(s)
  {
    if s[0] != a {
      assert a in s[1..];
      TickKeeps(s[1..], a);
    }
  }

  lemma {:induction false} StepKeeps(s: seq<Alarm>, op: Op, s': seq<Alarm>, a: Alarm)
    requires Step(s, op, s') && a in s && Spares(s, op, a.proc)
    ensures !op.TickOp? ==> a in s'
    ensures op.TickOp? && a.due > 1 ==> Alarm(a.proc, a.due - 1) in s'
  {
    match op
    case TickOp => TickKeeps(s, a);
    case AddOp(n) =>
      var p, q :| InsertedBetween(p, n, q, s, s');
      assert a in p || a in q;
    case DeleteOp(i) =>
      var k :| 0 <= k < |s| && s[k] == a;
      assert s'[if k < i then k else k - 1] == a;
  }

  /** An alarm that is left alone counts down with the ticks and with nothing else. */
  lemma {:induction false} CountsDown(s: seq<seq<Alarm>>, ops: seq<Op>, a: Alarm)
    requires Run(s, ops) && a in s[0] && LeavesAlone(s, ops, a.proc) && Ticks(ops) < a.due
    ensures Alarm(a.proc, a.due - Ticks(ops)) in s[|ops|]
  {
    if ops != [] {
      var n := |ops| - 1;
      assert Run(s[..n + 1], ops[..n]);
      CountsDown(s[..n + 1], ops[..n], a);
      assert Step(s[n], ops[n], s[n + 1]) && Spares(s[n], ops[n], a.proc);
      StepKeeps(s[n], ops[n], s[n + 1], Alarm(a.proc, a.due - Ticks(ops[..n])));
    }
  }

  /** So a process that asks to sleep for n ticks is woken by the n-th tick, whatever other
      processes do with their timers. */
  lemma WokenOnTime(s: seq<seq<Alarm>>, ops: seq<Op>, a: Alarm)
    requires Run(s, ops) && a in s[0] && LeavesAlone(s, ops, a.proc) && Ticks(ops) + 1 == a.due
    ensures a.proc in Due(s[|ops|])
  {
    CountsDown(s, ops, a);
    TickKeeps(s[|ops|], Alarm(a.proc, 1));
  }
}
