/**
 The stride scheduler's run queue, kern/schedule/default_sched_stride.c, and the way
 schedule() in kern/schedule/sched.c drives it.

 A process is known here by the heap entry embedded in it.  Its `pass` is the stride it
 would have if uint32_t did not wrap.
 */
module StrideQueue {
  import opened SkewHeap
  import opened StrideRuns

  lemma {:induction false} SamePasses(t: Tree, x: Proc?, x': Proc?, pass: map<Proc, int>, pass': map<Proc, int>)
    requires Nodes(t) <= pass.Keys && Nodes(t) <= pass'.Keys
    requires forall y <- Nodes(t) :: pass'[y] == pass[y]
    requires x !in Nodes(t) && OrderedBut(t, x, pass)
    ensures OrderedBut(t, x', pass')
  {
    if t.Node? {
      SamePasses(t.l, x, x', pass, pass');
      SamePasses(t.r, x, x', pass, pass');
    }
  }

  /** stride_pick_next may raise the key of the root in place: only the edges below it suffer. */
  lemma RaisedRoot(t: Tree, pass: map<Proc, int>, v: int)
    requires Nodes(t) <= pass.Keys && t.Node? && Distinct(t) && Ordered(t, pass)
    ensures OrderedBut(t, t.n, pass[t.n := v])
  {
    SamePasses(t.l, null, t.n, pass, pass[t.n := v]);
    SamePasses(t.r, null, t.n, pass, pass[t.n := v]);
  }

  lemma InsertedInOrder(t: Tree, x: Proc, pass: map<Proc, int>, v: int)
    requires Nodes(t) <= pass.Keys && Distinct(t) && x !in Nodes(t)
    requires Ordered(t, pass)
    requires Comparable(Nodes(t) + {x}, pass[x := v])
    ensures Nodes(InsertTree(t, x, pass[x := v])) == Nodes(t) + {x}
    ensures Ordered(InsertTree(t, x, pass[x := v]), pass[x := v])
  {
    SamePasses(t, null, null, pass, pass[x := v]);
    assert Nodes(t) + Nodes(Node(x, Leaf, Leaf)) == Nodes(t) + {x};
    MergeTreeOrdered(t, Node(x, Leaf, Leaf), pass[x := v]);
  }

  /** One turn on trees: the root is least, is charged, and leaves an ordered heap behind. */
  lemma TurnOnTree(t: Tree, pass: map<Proc, int>, d: nat)
    requires Nodes(t) <= pass.Keys && t.Node? && Distinct(t) && Ordered(t, pass)
    requires Spread(Nodes(t), pass) && d <= BIG_STRIDE
    ensures Least(t.n, Nodes(t), pass)
    ensures var pass' := pass[t.n := pass[t.n] + d];
            && Spread(Nodes(t), pass')
            && Nodes(RemoveTree(t, t.n, pass')) == Nodes(t) - {t.n}
            && Ordered(RemoveTree(t, t.n, pass'), pass')
  {
    var pass' := pass[t.n := pass[t.n] + d];
    RaisedRoot(t, pass, pass[t.n] + d);
    RemoveTreeOrdered(t, t.n, pass');
  }

  ghost function Opt(p: Proc?): set<Proc> {
    if p == null then {} else {p}
  }

  /** `next` is who the scheduler must serve among `runnable`, and what it is charged. */
  ghost predicate Served(runnable: set<Proc>, before: map<Proc, int>, next: Proc?, after: map<Proc, int>)
    reads Opt(next)
  {
    && runnable <= before.Keys && runnable <= after.Keys
    && (next == null <==> runnable == {})
    && (next == null ==> after == before)
    && (next != null ==>
          && Least(next, runnable, before)
          && after == before[next := before[next] + Step(next.priority)]
          && next.stride == after[next] % WORD)
    && Spread(runnable, after)
  }

  /** A served turn is a Pick step of StrideRuns, so whole runs obey the theorems there. */
  lemma ServedIsPick(runnable: set<Proc>, before: map<Proc, int>, next: Proc?, after: map<Proc, int>)
    requires Served(runnable, before, next, after) && next != null
    ensures Next(map x | x in runnable :: before[x], Pick(next, Step(next.priority)), map x | x in runnable :: after[x])
  {
    var s, s' := map x | x in runnable :: before[x], map x | x in runnable :: after[x];
    assert s' == s[next := s[next] + Step(next.priority)];
  }

  class RunQueue {
    var pool: Proc?
    var procNum: nat
    var maxTimeSlice: int
    ghost var tree: Tree
    ghost var pass: map<Proc, int>

    ghost function Members(): set<Proc>
      reads this
    {
      Nodes(tree)
    }

    /** The pool is a well-formed heap of exactly procNum processes, whatever their strides. */
    ghost predicate Shape()
      reads this, Members()
    {
      && Rep(pool, tree) && Distinct(tree)
      && (pool != null ==> pool.parent == null)
      && procNum == Size(tree)
      && Strides(Members(), pass)
      && (forall x <- Members() :: x.rq == this)
    }

    /** The pool is in heap order of the true passes, and 32 bits are enough to compare them. */
    ghost predicate Sorted()
      requires Members() <= pass.Keys
      reads this
    {
      Comparable(Members(), pass) && Ordered(tree, pass)
    }

    /** stride_init. */
    constructor (slice: int)
      ensures Shape() && Sorted() && Members() == {} && maxTimeSlice == slice && pass == map[]
    {
      pool, procNum, maxTimeSlice := null, 0, slice;
      tree, pass := Leaf, map[];
    }

    /** The heap part of stride_enqueue. */
    method Link(proc: Proc, ghost v: int)
      requires Shape() && proc !in Members() && proc.stride == v % WORD && proc.rq == this
      modifies this, (Members() + {proc})`left, (Members() + {proc})`right, (Members() + {proc})`parent
      ensures Shape() && Members() == old(Members()) + {proc}
      ensures pass == old(pass)[proc := v] && maxTimeSlice == old(maxTimeSlice)
      ensures tree == InsertTree(old(tree), proc, pass)
    {
      ghost var t := tree;
      pass := pass[proc := v];
      tree := InsertTree(t, proc, pass);
      MergeTreeNodes(t, Node(proc, Leaf, Leaf), pass);
      procNum := procNum + 1;
      pool := Insert(pool, proc, t, pass);
    }

    /** stride_enqueue.  `v` is the pass whose low 32 bits the process carries. */
    method Enqueue(proc: Proc, ghost v: int)
      requires Shape() && proc !in Members() && proc.stride == v % WORD
      modifies this, (Members() + {proc})`left, (Members() + {proc})`right, (Members() + {proc})`parent
      modifies proc`timeSlice, proc`rq
      ensures Shape() && Members() == old(Members()) + {proc}
      ensures pass == old(pass)[proc := v] && maxTimeSlice == old(maxTimeSlice)
      ensures tree == InsertTree(old(tree), proc, pass)
      ensures proc.timeSlice ==
              if old(proc.timeSlice) == 0 || old(proc.timeSlice) > maxTimeSlice then maxTimeSlice
              else old(proc.timeSlice)
    {
      if proc.timeSlice == 0 || proc.timeSlice > maxTimeSlice {
        proc.timeSlice := maxTimeSlice;
      }
      proc.rq := this;
      Link(proc, v);
    }
  
    /** stride_dequeue.  The assertion in it holds of every member. */
    method Dequeue(proc: Proc)
      requires Shape() && proc in Members()
      modifies this, Members()`left, Members()`right, Members()`parent
      ensures Shape() && Members() == old(Members()) - {proc}
      ensures pass == old(pass) && maxTimeSlice == old(maxTimeSlice)
      ensures tree == RemoveTree(old(tree), proc, pass)
    {
      assert proc.rq == this && procNum > 0;
      ghost var t := tree;
      RemoveTreeNodes(t, proc, pass);
      tree := RemoveTree(t, proc, pass);
      procNum := procNum - 1;
      pool := Remove(pool, proc, t, pass);
    }

    /** stride_pick_next: the root is charged for its turn while it still sits in the heap. */
    method PickNext() returns (proc: Proc?)
      requires Shape()
      modifies this`pass, Members()`stride
      ensures Shape()
      ensures proc == null <==> tree.Leaf?
      ensures proc != null ==> proc == tree.n
      ensures proc != null ==> pass == old(pass)[proc := old(pass)[proc] + Step(proc.priority)]
      ensures proc == null ==> pass == old(pass)
    {
      if pool == null {
        return null;
      }
      proc := pool;
      ghost var v := pass[proc] + Step(proc.priority);
      StrideAdds(pass[proc], Step(proc.priority));
      if proc.priority != 0 {
        proc.stride := (proc.stride + BIG_STRIDE / proc.priority) % WORD;
      } else {
        proc.stride := (proc.stride + BIG_STRIDE) % WORD;
      }
      assert Rep(proc.left, tree.l) && Rep(proc.right, tree.r);
      pass := pass[proc := v];
    }
  
    /** sched_class_pick_next and sched_class_dequeue, as schedule() calls them. */
    method Take() returns (next: Proc?)
      requires Shape() && Sorted() && Spread(Members(), pass)
      modifies this, Members()`left, Members()`right, Members()`parent, Members()`stride
      ensures Shape() && Sorted()
      ensures Served(old(Members()), old(pass), next, pass)
      ensures Members() == old(Members()) - Opt(next)
    {
      ghost var start := pass;
      next := PickNext();
      if next != null {
        TurnOnTree(tree, start, Step(next.priority));
        Dequeue(next);
      }
    }

    /** stride_enqueue of a process that is not far from the others. */
    method Rejoin(current: Proc)
      requires Shape() && Sorted()
      requires current !in Members() && current in pass && current.stride == pass[current] % WORD
      requires Spread(Members() + {current}, pass)
      modifies this, (Members() + {current})`left, (Members() + {current})`right, (Members() + {current})`parent
      modifies current`timeSlice, current`rq
      ensures Shape() && Sorted()
      ensures Members() == old(Members()) + {current} && pass == old(pass)
    {
      InsertedInOrder(tree, current, pass, pass[current]);
      assert pass[current := pass[current]] == pass;
      Enqueue(current, pass[current]);
    }

    /** The body of schedule(): the running process goes back if it is still runnable, and
        the process that no other is behind takes the turn and is charged for it. */
    method Turn(current: Proc?) returns (next: Proc?)
      requires Shape() && Sorted()
      requires current != null ==>
                 current !in Members() && current in pass && current.stride == pass[current] % WORD
      requires Spread(Members() + Opt(current), pass)
      modifies this, (Members() + Opt(current))`left, (Members() + Opt(current))`right
      modifies (Members() + Opt(current))`parent, (Members() + Opt(current))`stride
      modifies Opt(current)`timeSlice, Opt(current)`rq
      ensures Shape() && Sorted()
      ensures Served(old(Members()) + Opt(current), old(pass), next, pass)
      ensures Members() == old(Members()) + Opt(current) - Opt(next)
    {
      if current != null {
        Rejoin(current);
      }
      next := Take();
    }
  }

  lemma StrideAdds(x: int, d: nat)
    ensures (x % WORD + d) % WORD == (x + d) % WORD
  {
    assert x + d == (x % WORD + d) + (x / WORD) * WORD;
  }
}
