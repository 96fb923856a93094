/**
 Process identifiers: get_pid in kern/process/proc.c with its two static variables, and the
 part of do_fork and do_wait that adds a process to proc_list and takes it off.
 */
module Pids {

  const MAX_PROCESS := 4096
  const MAX_PID := 2 * MAX_PROCESS

  /** The pid after `p`, round the circle 1 .. MAX_PID - 1. */
  function Succ(p: int): int {
    if p + 1 >= MAX_PID then 1 else p + 1
  }

  /** Steps round the circle from `a` to `b`. */
  function Distance(a: int, b: int): int {
    if a <= b then b - a else b - a + MAX_PID - 1
  }

  ghost predicate InRange(p: int) {
    1 <= p < MAX_PID
  }

  /** `p` is the first pid that is not in use, going round from `start`. */
  ghost predicate FirstFree(start: int, p: int, procs: seq<int>) {
    && InRange(p) && p !in procs
    && forall x :: InRange(x) && Distance(start, x) < Distance(start, p) ==> x in procs
  }

  /** No pid in use lies strictly between the two. */
  ghost predicate SafeGap(lastPid: int, nextSafe: int, procs: seq<int>) {
    forall p <- procs :: !(lastPid < p < nextSafe)
  }

  ghost predicate NoDuplicates(s: seq<int>) {
    forall i, j | 0 <= i < j < |s| :: s[i] != s[j]
  }

  /** Fewer pids in use than there are pids: one is free. */
  lemma {:induction false} SomePidFree(procs: seq<int>, lo: int) returns (f: int)
    requires 1 <= lo <= MAX_PID && |procs| < MAX_PID - lo
    ensures lo <= f < MAX_PID && f !in procs
    decreases |procs|
  {
    if lo !in procs {
      return lo;
    }
    var i :| 0 <= i < |procs| && procs[i] == lo;
    f := SomePidFree(procs[..i] + procs[i + 1..], lo + 1);
    assert forall k | 0 <= k < |procs| && k != i :: procs[k] in procs[..i] + procs[i + 1..] by {
      forall k | 0 <= k < |procs| && k != i ensures procs[k] in procs[..i] + procs[i + 1..] {
        assert (procs[..i] + procs[i + 1..])[if k < i then k else k - 1] == procs[k];
      }
    }
  }

  /** The scan moves on from a pid in use: the next one is nearer to any free pid. */
  lemma StepRound(start: int, p: int, f: int)
    requires InRange(start) && InRange(p) && InRange(f) && p != f
    ensures InRange(Succ(p)) && Distance(Succ(p), f) == Distance(p, f) - 1
    ensures forall x | InRange(x) && x != p :: Distance(start, x) < Distance(start, Succ(p)) ==>
            Distance(start, x) < Distance(start, p)
  {
  }

  class PidTable {
    var procs: seq<int>    // the pids in proc_list, in list order
    var lastPid: int
    var nextSafe: int
    var nrProcess: int

    ghost predicate Valid()
      reads this
    {
      && 1 <= lastPid <= MAX_PID && nextSafe <= MAX_PID
      && NoDuplicates(procs)
      && (forall p <- procs :: InRange(p))
      && SafeGap(lastPid, nextSafe, procs)
      && nrProcess == |procs| + 1 <= MAX_PROCESS
    }

    /** The static initialisers, and proc_init's idle process. */
    constructor ()
      ensures Valid() && procs == []
    {
      procs, nrProcess := [], 1;
      lastPid, nextSafe := MAX_PID, MAX_PID;
    }

    /** get_pid. */
    method GetPid() returns (pid: int)
      requires |procs| < MAX_PID - 1
      requires 1 <= lastPid <= MAX_PID && nextSafe <= MAX_PID && SafeGap(lastPid, nextSafe, procs)
      modifies this`lastPid, this`nextSafe
      ensures pid == lastPid < nextSafe <= MAX_PID
      ensures FirstFree(Succ(old(lastPid)), pid, procs)
      ensures SafeGap(lastPid, nextSafe, procs)
    {
      ghost var start := Succ(lastPid);
      var inside := false;
      lastPid := lastPid + 1;
      if lastPid >= MAX_PID {
        lastPid := 1;
        inside := true;
      }
      if inside || lastPid >= nextSafe {
        ghost var f := SomePidFree(procs, 1);
        nextSafe := MAX_PID;
        var i := 0;
        while i < |procs|
          invariant 0 <= i <= |procs|
          invariant InRange(start) && InRange(lastPid) && lastPid < nextSafe <= MAX_PID
          invariant forall k | 0 <= k < i :: !(lastPid <= procs[k] < nextSafe)
          invariant forall x | InRange(x) && Distance(start, x) < Distance(start, lastPid) :: x in procs
          decreases Distance(lastPid, f), |procs| - i
        {
          if procs[i] == lastPid {
            StepRound(start, lastPid, f);
            lastPid := lastPid + 1;
            if lastPid >= nextSafe {
              if lastPid >= MAX_PID {
                lastPid := 1;
              }
              nextSafe := MAX_PID;
              i := 0;
              continue;
            }
          } else if procs[i] > lastPid && nextSafe > procs[i] {
            nextSafe := procs[i];
          }
          i := i + 1;
        }
      }
      return lastPid;
    }
  
    /** do_fork's bookkeeping: the limit on processes, the pid, and set_links. */
    method Fork() returns (pid: int)
      requires Valid()
      modifies this
      ensures Valid()
      ensures old(nrProcess) == MAX_PROCESS ==>
                pid == E_NO_FREE_PROC && procs == old(procs) && lastPid == old(lastPid) && nextSafe == old(nextSafe)
      ensures old(nrProcess) < MAX_PROCESS ==>
                procs == [pid] + old(procs) && FirstFree(Succ(old(lastPid)), pid, old(procs))
    {
      if nrProcess >= MAX_PROCESS {
        return E_NO_FREE_PROC;
      }
      pid := GetPid();
      procs := [pid] + procs;
      nrProcess := nrProcess + 1;
    }

    /** do_wait's bookkeeping: unhash_proc and remove_links of a dead child. */
    method Reap(i: nat)
      requires Valid() && i < |procs|
      modifies this`procs, this`nrProcess
      ensures Valid() && procs == old(procs[..i] + procs[i + 1..])
    {
      ghost var before := procs;
      procs := procs[..i] + procs[i + 1..];
      assert forall p <- procs :: p in before;
      nrProcess := nrProcess - 1;
    }
  }

  const E_NO_FREE_PROC := -5

  /** "First free" leaves no choice. */
  lemma FirstFreeUnique(start: int, p: int, q: int, procs: seq<int>)
    requires InRange(start) && FirstFree(start, p, procs) && FirstFree(start, q, procs)
    ensures p == q
  {
    assert !(Distance(start, p) < Distance(start, q)) && !(Distance(start, q) < Distance(start, p));
  }
}
