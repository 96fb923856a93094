/**
 The blocking pipe of kern/fs/pipe/pipe.c.  A method is what one process does between two calls of
 schedule(); any number of readers and writers may be suspended inside pipe_read and pipe_write,
 and be resumed in any order once they have been woken up or killed.
 */
module Pipe {

  const SIZE := 4096

  type Pid = nat
  type Byte = b: int | 0 <= b < 256

  /** Where in pipe_read or pipe_write a process is suspended. */
  datatype Op = Reading(want: nat, got: seq<Byte>) | Writing(data: seq<Byte>, ret: nat)

  /** wait->wakeup_flags. */
  datatype Flag = Interrupted | Ipc

  // ----- the ring -----------------------------------------------------------------------------

  function Len(head: nat, tail: nat): nat {
    (tail + SIZE - head) % SIZE
  }

  function Ring(b: seq<Byte>, head: nat, tail: nat): (r: seq<Byte>)
    requires |b| == SIZE && head < SIZE && tail < SIZE
    ensures |r| == Len(head, tail) && forall i | 0 <= i < |r| :: r[i] == b[(head + i) % SIZE]
  {
    seq(Len(head, tail), i requires 0 <= i < Len(head, tail) => b[(head + i) % SIZE])
  }

  lemma Push(b: seq<Byte>, head: nat, tail: nat, x: Byte)
    requires |b| == SIZE && head < SIZE && tail < SIZE && head != (tail + 1) % SIZE
    ensures Ring(b[tail := x], head, (tail + 1) % SIZE) == Ring(b, head, tail) + [x]
  {
    var r, s := Ring(b[tail := x], head, (tail + 1) % SIZE), Ring(b, head, tail) + [x];
    OneLonger(head, tail);
    forall i | 0 <= i < |r| ensures r[i] == s[i] {
      ReachesTail(head, tail, i);
    }
  }

  lemma OneLonger(head: nat, tail: nat)
    requires head < SIZE && tail < SIZE && head != (tail + 1) % SIZE
    ensures Len(head, (tail + 1) % SIZE) == Len(head, tail) + 1
  {
  }

  lemma ReachesTail(head: nat, tail: nat, i: nat)
    requires head < SIZE && tail < SIZE && i <= Len(head, tail)
    ensures (head + i) % SIZE == tail <==> i == Len(head, tail)
  {
  }

  lemma Pop(b: seq<Byte>, head: nat, tail: nat)
    requires |b| == SIZE && head < SIZE && tail < SIZE && head != tail
    ensures Ring(b, head, tail) == [b[head]] + Ring(b, (head + 1) % SIZE, tail)
  {
  }

  // ----- suspended processes ------------------------------------------------------------------

  ghost predicate Distinct(q: seq<Pid>) {
    forall i, j | 0 <= i < j < |q| :: q[i] != q[j]
  }

  predicate OpOk(op: Op) {
    match op
    case Reading(want, got) => |got| <= want
    case Writing(data, ret) => ret <= |data|
  }

  /** A suspended process waits in the queue of its operation until it is woken up. */
  ghost predicate Suspended(procs: map<Pid, Op>, flags: map<Pid, Flag>, rq: seq<Pid>, wq: seq<Pid>, p: Pid) {
    && (p in rq ==> p in procs && procs[p].Reading?)
    && (p in wq ==> p in procs && procs[p].Writing?)
    && (p in procs ==> p in flags && OpOk(procs[p]) && (flags[p].Interrupted? <==> p in rq || p in wq))
  }

  ghost predicate Queues(procs: map<Pid, Op>, flags: map<Pid, Flag>, rq: seq<Pid>, wq: seq<Pid>) {
    Distinct(rq) && Distinct(wq) && forall p: Pid :: Suspended(procs, flags, rq, wq, p)
  }

  /** wait_current_del. */
  function Without(q: seq<Pid>, p: Pid): (r: seq<Pid>)
    ensures forall x :: x in r ==> x in q && x != p
    ensures forall x :: x in q && x != p ==> x in r
  {
    if q == [] then [] else if q[0] == p then Without(q[1..], p) else [q[0]] + Without(q[1..], p)
  }

  lemma {:induction false} WithoutDistinct(q: seq<Pid>, p: Pid)
    requires Distinct(q)
    ensures Distinct(Without(q, p))
  {
    if q != [] {
      WithoutDistinct(q[1..], p);
      var r := Without(q[1..], p);
      assert q[0] !in q[1..];
      if q[0] != p {
        assert forall j | 0 <= j < |r| :: r[j] in r;
      }
    }
  }

  lemma WakeFirst(procs: map<Pid, Op>, flags: map<Pid, Flag>, rq: seq<Pid>, wq: seq<Pid>)
    requires Queues(procs, flags, rq, wq)
    ensures rq != [] ==> Queues(procs, flags[rq[0] := Ipc], rq[1..], wq)
    ensures wq != [] ==> Queues(procs, flags[wq[0] := Ipc], rq, wq[1..])
  {
    if rq != [] {
      var flags', rq' := flags[rq[0] := Ipc], rq[1..];
      assert rq[0] !in rq';
      forall p: Pid ensures Suspended(procs, flags', rq', wq, p) {
        assert Suspended(procs, flags, rq, wq, p) && Suspended(procs, flags, rq, wq, rq[0]);
        assert p in rq <==> p == rq[0] || p in rq';
      }
    }
    if wq != [] {
      var flags', wq' := flags[wq[0] := Ipc], wq[1..];
      assert wq[0] !in wq';
      forall p: Pid ensures Suspended(procs, flags', rq, wq', p) {
        assert Suspended(procs, flags, rq, wq, p) && Suspended(procs, flags, rq, wq, wq[0]);
        assert p in wq <==> p == wq[0] || p in wq';
      }
    }
  }

  /** A process that was not suspended goes to sleep. */
  lemma Sleep(procs: map<Pid, Op>, flags: map<Pid, Flag>, rq: seq<Pid>, wq: seq<Pid>, p: Pid, op: Op)
    requires Queues(procs, flags, rq, wq) && p !in procs && OpOk(op)
    ensures Queues(procs[p := op], flags[p := Interrupted], if op.Reading? then rq + [p] else rq, if op.Writing?
            then wq + [p] else wq)
  {
    var procs', flags' := procs[p := op], flags[p := Interrupted];
    var rq', wq' := if op.Reading? then rq + [p] else rq, if op.Writing? then wq + [p] else wq;
    assert Suspended(procs, flags, rq, wq, p);
    forall x: Pid ensures Suspended(procs', flags', rq', wq', x) {
      assert Suspended(procs, flags, rq, wq, x);
    }
  }

  /** A suspended process goes on, and leaves its queue if it is still there. */
  lemma Leave(procs: map<Pid, Op>, flags: map<Pid, Flag>, rq: seq<Pid>, wq: seq<Pid>, p: Pid)
    requires Queues(procs, flags, rq, wq) && p in procs
    ensures procs[p].Reading? ==> Queues(procs - {p}, flags, Without(rq, p), wq)
    ensures procs[p].Writing? ==> Queues(procs - {p}, flags, rq, Without(wq, p))
  {
    WithoutDistinct(rq, p);
    WithoutDistinct(wq, p);
    var rq', wq' := if procs[p].Reading? then Without(rq, p) else rq, if procs[p].Writing? then Without(wq, p) else wq;
    forall x: Pid ensures Suspended(procs - {p}, flags, rq', wq', x) {
      assert Suspended(procs, flags, rq, wq, x);
    }
  }

  // ----- the pipe -----------------------------------------------------------------------------

  class Pipe {
    var head: nat
    var tail: nat
    const buffer: array<Byte>
    var readQueue: seq<Pid>
    var writeQueue: seq<Pid>
    var procs: map<Pid, Op>
    var flags: map<Pid, Flag>
    ghost var accepted: seq<Byte>    // all bytes that writers have put in
    ghost var delivered: seq<Byte>   // all bytes that readers have taken out

    ghost predicate Shape()
      reads this
    {
      buffer.Length == SIZE && head < SIZE && tail < SIZE
    }

    ghost function Contents(): seq<Byte>
      requires Shape()
      reads this, buffer
    {
      Ring(buffer[..], head, tail)
    }

    /** What has been taken out, followed by what is in the ring, is what has been put in.  A
        reader waits only while the ring is empty, and a writer only while it is full; a suspended
        process that is in no queue has been woken up. */
    ghost predicate Valid()
      reads this, buffer
    {
      && Shape() && delivered + Contents() == accepted
      && (readQueue != [] ==> head == tail)
      && (writeQueue != [] ==> head == (tail + 1) % SIZE)
      && Queues(procs, flags, readQueue, writeQueue)
    }

    /** pipe_create_inode. */
    constructor ()
      ensures Valid() && procs == map[] && accepted == delivered == [] && fresh(buffer)
    {
      head, tail, readQueue, writeQueue, procs, flags := 0, 0, [], [], map[], map[];
      accepted, delivered := [], [];
      buffer := new Byte[SIZE];
    }

    /** wakeup_queue on the writers. */
    method WakeWriters()
      requires Valid()
      modifies `writeQueue, `flags
      ensures Valid() && writeQueue == []
    {
      while writeQueue != []
        invariant Valid()
        decreases |writeQueue|
      {
        WakeFirst(procs, flags, readQueue, writeQueue);
        var w := writeQueue[0];
        flags := flags[w := Ipc];
        writeQueue := writeQueue[1..];
      }
    }

    /** wakeup_queue on the readers. */
    method WakeReaders()
      requires Valid()
      modifies `readQueue, `flags
      ensures Valid() && readQueue == []
    {
      while readQueue != []
        invariant Valid()
        decreases |readQueue|
      {
        WakeFirst(procs, flags, readQueue, writeQueue);
        var r := readQueue[0];
        flags := flags[r := Ipc];
        readQueue := readQueue[1..];
      }
    }

    /** A byte is taken out, and all writers woken up. */
    method TakeByte() returns (x: Byte)
      requires Valid() && head != tail
      modifies `head, `writeQueue, `flags, `delivered
      ensures Valid() && delivered == old(delivered) + [x]
    {
      x := buffer[head];
      if writeQueue != [] {
        WakeWriters();
      }
      Pop(buffer[..], head, tail);
      delivered := delivered + [x];
      head := (head + 1) % SIZE;
    }

    /** A byte is put in, and all readers woken up. */
    method PutByte(x: Byte)
      requires Valid() && head != (tail + 1) % SIZE
      modifies `tail, `readQueue, `flags, `accepted, buffer
      ensures Valid() && accepted == old(accepted) + [x]
    {
      if readQueue != [] {
        WakeReaders();
      }
      Push(buffer[..], head, tail, x);
      buffer[tail] := x;
      accepted := accepted + [x];
      tail := (tail + 1) % SIZE;
    }

    /** The loop of pipe_read, until all is read or the ring is empty and `p` goes to sleep. */
    method ReadLoop(p: Pid, want: nat, before: seq<Byte>) returns (done: bool, got: seq<Byte>)
      requires Valid() && p !in procs && |before| <= want
      modifies this
      ensures Valid() && accepted == old(accepted)
      ensures before <= got && delivered == old(delivered) + got[|before|..]
      ensures done ==> |got| == want && procs == old(procs)
      ensures !done ==> |got| < want && procs == old(procs)[p := Reading(want, got)] && p in readQueue && head == tail
    {
      got := before;
      while |got| < want
        invariant Valid() && procs == old(procs) && accepted == old(accepted)
        invariant before <= got && |got| <= want && delivered == old(delivered) + got[|before|..]
        decreases want - |got|
      {
        if head == tail {
          Sleep(procs, flags, readQueue, writeQueue, p, Reading(want, got));
          procs := procs[p := Reading(want, got)];
          flags := flags[p := Interrupted];
          readQueue := readQueue + [p];
          return false, got;
        }
        var x := TakeByte();
        got := got + [x];
      }
      return true, got;
    }

    /** The loop of pipe_write, until all is written or the ring is full and `p` goes to sleep. */
    method WriteLoop(p: Pid, data: seq<Byte>, before: nat) returns (done: bool, ret: nat)
      requires Valid() && p !in procs && before <= |data|
      modifies this, buffer
      ensures Valid() && delivered == old(delivered)
      ensures before <= ret <= |data| && accepted == old(accepted) + data[before..ret]
      ensures done ==> ret == |data| && procs == old(procs)
      ensures !done ==>
                && ret < |data| && procs == old(procs)[p := Writing(data, ret)] && p in writeQueue
                && head == (tail + 1) % SIZE
    {
      ret := before;
      while ret < |data|
        invariant Valid() && procs == old(procs) && delivered == old(delivered)
        invariant before <= ret <= |data| && accepted == old(accepted) + data[before..ret]
        decreases |data| - ret
      {
        if head == (tail + 1) % SIZE {
          Sleep(procs, flags, readQueue, writeQueue, p, Writing(data, ret));
          procs := procs[p := Writing(data, ret)];
          flags := flags[p := Interrupted];
          writeQueue := writeQueue + [p];
          return false, ret;
        }
        PutByte(data[ret]);
        ret := ret + 1;
      }
      return true, ret;
    }

    /** pipe_read by a process that is not inside the pipe. */
    method Read(p: Pid, want: nat) returns (done: bool, got: seq<Byte>)
      requires Valid() && p !in procs
      modifies this
      ensures Valid() && accepted == old(accepted) && delivered == old(delivered) + got
      ensures done ==> |got| == want && procs == old(procs)
      ensures !done ==> procs == old(procs)[p := Reading(want, got)] && p in readQueue && head == tail
    {
      done, got := ReadLoop(p, want, []);
    }

    /** pipe_write by a process that is not inside the pipe. */
    method Write(p: Pid, data: seq<Byte>) returns (done: bool, ret: nat)
      requires Valid() && p !in procs
      modifies this, buffer
      ensures Valid() && delivered == old(delivered) && ret <= |data| && accepted == old(accepted) + data[..ret]
      ensures done ==> ret == |data| && procs == old(procs)
      ensures !done ==> procs == old(procs)[p := Writing(data, ret)] && p in writeQueue && head == (tail + 1) % SIZE
    {
      done, ret := WriteLoop(p, data, 0);
    }

    /** schedule() returns to a reader: one that was woken up tries again, one that was killed
        while it slept gives up with what it has. */
    method ResumeRead(p: Pid) returns (done: bool, got: seq<Byte>)
      requires Valid() && p in procs && procs[p].Reading?
      modifies this
      ensures Valid() && accepted == old(accepted)
      ensures old(procs[p].got) <= got && delivered == old(delivered) + got[|old(procs[p].got)|..]
      ensures !done ==> p in procs && procs[p] == Reading(old(procs[p].want), got) && p in readQueue && head == tail
      ensures done ==> procs == old(procs) - {p}
      ensures p in old(readQueue) ==> done && got == old(procs[p].got)
    {
      var op := procs[p];
      Leave(procs, flags, readQueue, writeQueue, p);
      assert Suspended(procs, flags, readQueue, writeQueue, p);
      readQueue := Without(readQueue, p);
      procs := procs - {p};
      if flags[p].Ipc? {
        done, got := ReadLoop(p, op.want, op.got);
      } else {
        done, got := true, op.got;
      }
    }

    method ResumeWrite(p: Pid) returns (done: bool, ret: nat)
      requires Valid() && p in procs && procs[p].Writing?
      modifies this, buffer
      ensures Valid() && delivered == old(delivered)
      ensures old(procs[p].ret) <= ret <= |old(procs[p].data)|
      ensures accepted == old(accepted) + old(procs[p].data)[old(procs[p].ret)..ret]
      ensures !done ==>
                && p in procs && procs[p] == Writing(old(procs[p].data), ret) && p in writeQueue
                && head == (tail + 1) % SIZE
      ensures done ==> procs == old(procs) - {p}
      ensures p in old(writeQueue) ==> done && ret == old(procs[p].ret)
    {
      var op := procs[p];
      Leave(procs, flags, readQueue, writeQueue, p);
      assert Suspended(procs, flags, readQueue, writeQueue, p);
      writeQueue := Without(writeQueue, p);
      procs := procs - {p};
      if flags[p].Ipc? {
        done, ret := WriteLoop(p, op.data, op.ret);
      } else {
        done, ret := true, op.ret;
      }
    }

    /** Readers and writers never sleep together, and nobody sleeps who could go on. */
    lemma NobodyStuck(p: Pid)
      requires Valid()
      ensures readQueue == [] || writeQueue == []
      ensures p in procs && procs[p].Reading? && head != tail ==> p in flags && flags[p].Ipc?
      ensures p in procs && procs[p].Writing? && head != (tail + 1) % SIZE ==> p in flags && flags[p].Ipc?
    {
      assert Suspended(procs, flags, readQueue, writeQueue, p);
      assert tail + 1 < SIZE ==> (tail + 1) % SIZE == tail + 1;
    }
  }
}
