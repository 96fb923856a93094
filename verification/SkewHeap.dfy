/**
 The intrusive skew heap of libs/skew_heap.h, with its parent pointers, and the
 comparator that kern/schedule/default_sched_stride.c hands to it.

 A heap is a web of `Proc` objects.  Its abstract value is a `Tree`, and `Rep`
 says that the pointers spell that tree.  `MergeTree` and `RemoveTree` say on
 trees what the pointer code does; the lemmas about them say what that is worth.
 */
module SkewHeap {

  const WORD := 0x1_0000_0000
  const HALF := 0x8000_0000

  /** The part of struct proc_struct that the scheduler uses, with its embedded heap entry. */
  class Proc {
    var parent: Proc?
    var left: Proc?
    var right: Proc?
    var stride: int
    var priority: nat
    var timeSlice: int
    var rq: object?
  }

  datatype Tree = Leaf | Node(n: Proc, l: Tree, r: Tree)

  ghost function Nodes(t: Tree): set<Proc> {
    match t
    case Leaf => {}
    case Node(n, l, r) => {n} + Nodes(l) + Nodes(r)
  }

  ghost function Size(t: Tree): nat {
    match t
    case Leaf => 0
    case Node(_, l, r) => 1 + Size(l) + Size(r)
  }

  /** Every node occurs once. */
  ghost predicate Distinct(t: Tree) {
    match t
    case Leaf => true
    case Node(n, l, r) =>
      n !in Nodes(l) + Nodes(r) && Nodes(l) !! Nodes(r) && Distinct(l) && Distinct(r)
  }

  /** `p` is the root of a pointer structure that spells `t`; the parent of `p` itself is left open. */
  ghost predicate Rep(p: Proc?, t: Tree)
    reads Nodes(t)
    decreases t
  {
    match t
    case Leaf => p == null
    case Node(n, l, r) =>
      && p == n
      && Rep(n.left, l) && Rep(n.right, r)
      && (l.Node? ==> l.n.parent == n)
      && (r.Node? ==> r.n.parent == n)
  }

  // ----- the comparator ----------------------------------------------------------

  /** int32_t c = a - b on two uint32_t values. */
  function SignedDifference(a: int, b: int): int {
    (a - b + HALF) % WORD - HALF
  }

  /** proc_stride_comp_f. */
  function Compare(a: int, b: int): int {
    var c := SignedDifference(a, b);
    if c > 0 then 1 else if c == 0 then 0 else -1
  }

  function Sign(d: int): int {
    if d > 0 then 1 else if d == 0 then 0 else -1
  }

  /** The wrapped comparison tells the truth about unbounded strides exactly when their
      distance, taken modulo 2^32, falls in the half that has the sign of the distance. */
  lemma CompareIsTrueOrder(x: int, y: int)
    ensures Compare(x % WORD, y % WORD) == Sign(x - y) <==>
            (x > y ==> 0 < (x - y) % WORD < HALF) && (x < y ==> HALF <= (x - y) % WORD)
    ensures -HALF <= x - y < HALF ==> Compare(x % WORD, y % WORD) == Sign(x - y)
  {
    WrapDifference(x, y);
  }

  lemma WrapDifference(x: int, y: int)
    ensures (x % WORD - y % WORD + HALF) % WORD == (x - y + HALF) % WORD
  {
    var q := x / WORD - y / WORD;
    assert x - y + HALF == (x % WORD - y % WORD + HALF) + q * WORD;
  }

  // ----- what merge and remove do to trees ------------------------------------------

  /** skew_heap_merge: the right spine of the winner is merged, then the children swap. */
  ghost function MergeTree(a: Tree, b: Tree, pass: map<Proc, int>): Tree
    requires Nodes(a) + Nodes(b) <= pass.Keys
  {
    if a.Leaf? then b
    else if b.Leaf? then a
    else if Compare(pass[a.n] % WORD, pass[b.n] % WORD) == -1 then Node(a.n, MergeTree(a.r, b, pass), a.l)
    else Node(b.n, MergeTree(a, b.r, pass), b.l)
  }

  /** skew_heap_remove: the node gives way to the merge of its two subtrees. */
  ghost function RemoveTree(t: Tree, x: Proc, pass: map<Proc, int>): Tree
    requires Nodes(t) <= pass.Keys
  {
    if t.Leaf? then t
    else if t.n == x then MergeTree(t.l, t.r, pass)
    else if x in Nodes(t.l) then Node(t.n, RemoveTree(t.l, x, pass), t.r)
    else Node(t.n, t.l, RemoveTree(t.r, x, pass))
  }

  lemma {:induction false} MergeTreeNodes(a: Tree, b: Tree, pass: map<Proc, int>)
    requires Nodes(a) + Nodes(b) <= pass.Keys
    requires Distinct(a) && Distinct(b) && Nodes(a) !! Nodes(b)
    ensures Distinct(MergeTree(a, b, pass))
    ensures Nodes(MergeTree(a, b, pass)) == Nodes(a) + Nodes(b)
    ensures Size(MergeTree(a, b, pass)) == Size(a) + Size(b)
  {
    if a.Node? && b.Node? {
      if Compare(pass[a.n] % WORD, pass[b.n] % WORD) == -1 {
        MergeTreeNodes(a.r, b, pass);
      } else {
        MergeTreeNodes(a, b.r, pass);
      }
    }
  }

  lemma {:induction false} RemoveTreeNodes(t: Tree, x: Proc, pass: map<Proc, int>)
    requires Nodes(t) <= pass.Keys && Distinct(t)
    ensures Distinct(RemoveTree(t, x, pass))
    ensures Nodes(RemoveTree(t, x, pass)) == Nodes(t) - {x}
    ensures x in Nodes(t) ==> Size(RemoveTree(t, x, pass)) == Size(t) - 1
  {
    if t.Node? {
      if t.n == x {
        MergeTreeNodes(t.l, t.r, pass);
      } else if x in Nodes(t.l) {
        RemoveTreeNodes(t.l, x, pass);
      } else {
        RemoveTreeNodes(t.r, x, pass);
      }
    }
  }

  lemma {:induction false} SizeIsCardinality(t: Tree)
    requires Distinct(t)
    ensures Size(t) == |Nodes(t)|
  {
    if t.Node? {
      SizeIsCardinality(t.l);
      SizeIsCardinality(t.r);
      assert Nodes(t) == {t.n} + (Nodes(t.l) + Nodes(t.r));
    }
  }

  // ----- heap order, over the strides as they would be without wrap-around -------------

  /** No node is above one with a smaller pass; the edges below `x` are not looked at. */
  ghost predicate OrderedBut(t: Tree, x: Proc?, pass: map<Proc, int>)
    requires Nodes(t) <= pass.Keys
  {
    match t
    case Leaf => true
    case Node(n, l, r) =>
      && (n == x || forall y <- Nodes(l) + Nodes(r) :: pass[n] <= pass[y])
      && OrderedBut(l, x, pass) && OrderedBut(r, x, pass)
  }

  ghost predicate Ordered(t: Tree, pass: map<Proc, int>)
    requires Nodes(t) <= pass.Keys
  {
    OrderedBut(t, null, pass)
  }

  /** Passes so close to each other that 32-bit subtraction orders them. */
  ghost predicate Comparable(ps: set<Proc>, pass: map<Proc, int>)
    requires ps <= pass.Keys
  {
    forall x <- ps, y <- ps :: pass[x] - pass[y] < HALF
  }

  lemma {:induction false} MergeTreeOrdered(a: Tree, b: Tree, pass: map<Proc, int>)
    requires Nodes(a) + Nodes(b) <= pass.Keys
    requires Distinct(a) && Distinct(b) && Nodes(a) !! Nodes(b)
    requires Comparable(Nodes(a) + Nodes(b), pass)
    requires Ordered(a, pass) && Ordered(b, pass)
    ensures Nodes(MergeTree(a, b, pass)) == Nodes(a) + Nodes(b)
    ensures Ordered(MergeTree(a, b, pass), pass)
  {
    MergeTreeNodes(a, b, pass);
    if a.Node? && b.Node? {
      CompareIsTrueOrder(pass[a.n], pass[b.n]);
      if Compare(pass[a.n] % WORD, pass[b.n] % WORD) == -1 {
        MergeTreeOrdered(a.r, b, pass);
      } else {
        MergeTreeOrdered(a, b.r, pass);
      }
    }
  }

  lemma {:induction false} RemoveTreeOrdered(t: Tree, x: Proc, pass: map<Proc, int>)
    requires Nodes(t) <= pass.Keys
    requires Distinct(t)
    requires Comparable(Nodes(t) - {x}, pass)
    requires OrderedBut(t, x, pass)
    ensures Nodes(RemoveTree(t, x, pass)) == Nodes(t) - {x}
    ensures Ordered(RemoveTree(t, x, pass), pass)
  {
    RemoveTreeNodes(t, x, pass);
    if t.Node? {
      if t.n == x {
        OrderedWithout(t.l, x, pass);
        OrderedWithout(t.r, x, pass);
        MergeTreeOrdered(t.l, t.r, pass);
      } else if x in Nodes(t.l) {
        RemoveTreeNodes(t.l, x, pass);
        RemoveTreeOrdered(t.l, x, pass);
        OrderedWithout(t.r, x, pass);
      } else {
        RemoveTreeNodes(t.r, x, pass);
        RemoveTreeOrdered(t.r, x, pass);
        OrderedWithout(t.l, x, pass);
      }
    }
  }

  lemma OrderedWithout(t: Tree, x: Proc, pass: map<Proc, int>)
    requires Nodes(t) <= pass.Keys && x !in Nodes(t) && OrderedBut(t, x, pass)
    ensures Ordered(t, pass)
  {
  }

  // ----- the pointer code -----------------------------------------------------------

  /** The strides in memory are the passes, wrapped. */
  ghost predicate Strides(ps: set<Proc>, pass: map<Proc, int>)
    reads ps`stride
  {
    ps <= pass.Keys && forall x <- ps :: x.stride == pass[x] % WORD
  }

  /** `x->parent = p` at the root of a heap. */
  method SetParent(x: Proc, p: Proc?, ghost t: Tree)
    requires Rep(x, t) && Distinct(t)
    modifies x`parent
    ensures Rep(x, t) && x.parent == p
  {
    x.parent := p;
    assert Rep(x.left, t.l) && Rep(x.right, t.r);
  }

  /** The tail shared by both branches of skew_heap_merge: `w` gets its new children. */
  method Adopt(w: Proc, l: Proc?, r: Proc?, ghost tl: Tree, ghost tr: Tree)
    requires Rep(l, tl) && Rep(r, tr)
    requires Distinct(Node(w, tl, tr))
    requires r != null ==> r.parent == w
    modifies w`left, w`right, (if l == null then {} else {l})`parent
    ensures Rep(w, Node(w, tl, tr))
  {
    w.left := l;
    w.right := r;
    if l != null {
      l.parent := w;
      assert Rep(l.left, tl.l) && Rep(l.right, tl.r);
    }
  }

  /** skew_heap_merge.  Only links move, and the parent of the root it returns stays as it was. */
  method Merge(a: Proc?, b: Proc?, ghost ta: Tree, ghost tb: Tree, ghost pass: map<Proc, int>) returns (m: Proc?)
    requires Rep(a, ta) && Rep(b, tb)
    requires Distinct(ta) && Distinct(tb) && Nodes(ta) !! Nodes(tb)
    requires Strides(Nodes(ta) + Nodes(tb), pass)
    modifies (Nodes(ta) + Nodes(tb))`left, (Nodes(ta) + Nodes(tb))`right, (Nodes(ta) + Nodes(tb))`parent
    ensures Rep(m, MergeTree(ta, tb, pass))
    ensures m != null ==> m in {a, b} && m.parent == old(m.parent)
    decreases ta, tb
  {
    MergeTreeNodes(ta, tb, pass);
    if a == null {
      return b;
    } else if b == null {
      return a;
    }
    if Compare(a.stride, b.stride) == -1 {
      var r := a.left;
      MergeTreeNodes(ta.r, tb, pass);
      var l := Merge(a.right, b, ta.r, tb, pass);
      Adopt(a, l, r, MergeTree(ta.r, tb, pass), ta.l);
      return a;
    } else {
      var r := b.left;
      MergeTreeNodes(ta, tb.r, pass);
      var l := Merge(a, b.right, ta, tb.r, pass);
      Adopt(b, l, r, MergeTree(ta, tb.r, pass), tb.l);
      return b;
    }
  }

  ghost function InsertTree(t: Tree, x: Proc, pass: map<Proc, int>): Tree
    requires Nodes(t) + {x} <= pass.Keys
  {
    MergeTree(t, Node(x, Leaf, Leaf), pass)
  }

  /** skew_heap_insert. */
  method Insert(a: Proc?, b: Proc, ghost t: Tree, ghost pass: map<Proc, int>) returns (m: Proc)
    requires Rep(a, t) && Distinct(t) && (a != null ==> a.parent == null)
    requires b !in Nodes(t)
    requires Strides(Nodes(t) + {b}, pass)
    modifies (Nodes(t) + {b})`left, (Nodes(t) + {b})`right, (Nodes(t) + {b})`parent
    ensures Rep(m, InsertTree(t, b, pass))
    ensures m.parent == null
  {
    b.left, b.right, b.parent := null, null, null;
    assert Nodes(Node(b, Leaf, Leaf)) == {b};
    var r := Merge(a, b, t, Node(b, Leaf, Leaf), pass);
    return r;
  }

  // ----- removal from the middle: the tree around a node ------------------------------

  ghost function Sub(t: Tree, x: Proc): (u: Tree)
    requires x in Nodes(t)
    ensures u.Node? && u.n == x && Nodes(u) <= Nodes(t)
    ensures Distinct(t) ==> Distinct(u)
    ensures Distinct(t) && t.n != x ==> t.n !in Nodes(u)
  {
    if t.n == x then t else if x in Nodes(t.l) then Sub(t.l, x) else Sub(t.r, x)
  }

  ghost function Replace(t: Tree, x: Proc, u: Tree): Tree
    requires x in Nodes(t)
  {
    if t.n == x then u
    else if x in Nodes(t.l) then Node(t.n, Replace(t.l, x, u), t.r)
    else Node(t.n, t.l, Replace(t.r, x, u))
  }

  ghost function ParentOf(t: Tree, x: Proc): (p: Proc)
    requires x in Nodes(t) && x != t.n
    ensures p in Nodes(t)
  {
    if x in Nodes(t.l) then if t.l.n == x then t.n else ParentOf(t.l, x)
    else assert x in Nodes(t.r); if t.r.n == x then t.n else ParentOf(t.r, x)
  }

  /** The pointers of `t` outside the subtree at `x`. */
  ghost predicate Around(a: Proc?, t: Tree, x: Proc)
    requires Distinct(t) && x in Nodes(t)
    reads Nodes(t) - Nodes(Sub(t, x))
    decreases t
  {
    a == t.n &&
    if t.n == x then true
    else if x in Nodes(t.l) then
      && Around(t.n.left, t.l, x) && (t.l.n != x ==> t.l.n.parent == t.n)
      && Rep(t.n.right, t.r) && (t.r.Node? ==> t.r.n.parent == t.n)
    else
      && Around(t.n.right, t.r, x) && (t.r.n != x ==> t.r.n.parent == t.n)
      && Rep(t.n.left, t.l) && (t.l.Node? ==> t.l.n.parent == t.n)
  }

  lemma {:induction false} Cut(a: Proc?, t: Tree, x: Proc)
    requires Distinct(t) && Rep(a, t) && x in Nodes(t)
    ensures Around(a, t, x) && Rep(x, Sub(t, x))
    ensures x != t.n ==> x.parent == ParentOf(t, x)
  {
    if t.n != x {
      if x in Nodes(t.l) {
        Cut(t.n.left, t.l, x);
      } else {
        Cut(t.n.right, t.r, x);
      }
    }
  }

  lemma {:induction false} Plug(a: Proc?, t: Tree, x: Proc, u: Tree)
    requires Distinct(t) && x in Nodes(t) && Around(a, t, x)
    requires u.Node? && u.n == x && Rep(x, u)
    requires x != t.n ==> x.parent == ParentOf(t, x)
    ensures Rep(a, Replace(t, x, u))
  {
    if t.n != x {
      if x in Nodes(t.l) {
        Plug(t.n.left, t.l, x, u);
      } else {
        Plug(t.n.right, t.r, x, u);
      }
    }
  }

  /** `u` hangs directly below the root of `w`. */
  ghost predicate Below(w: Tree, u: Tree) {
    w.Node? && u.Node? && (w.l == u || w.r == u)
  }

  lemma {:induction false} RemoveBelowParent(t: Tree, x: Proc, pass: map<Proc, int>)
    requires Distinct(t) && x in Nodes(t) && x != t.n && Nodes(t) <= pass.Keys
    ensures var u := Sub(t, ParentOf(t, x));
            && Below(u, Sub(t, x))
            && RemoveTree(t, x, pass) == Replace(t, u.n, RemoveTree(u, x, pass))
  {
    if x in Nodes(t.l) {
      if t.l.n != x { RemoveBelowParent(t.l, x, pass); }
    } else {
      if t.r.n != x { RemoveBelowParent(t.r, x, pass); }
    }
  }

  /** The root of `w` still points at `u`, and at an intact tree on the other side. */
  ghost predicate Siblings(w: Tree, u: Tree)
    requires Distinct(w) && Below(w, u)
    reads Nodes(w) - Nodes(u)
  {
    if w.l == u then w.n.left == u.n && Rep(w.n.right, w.r) && (w.r.Node? ==> w.r.n.parent == w.n)
    else w.n.right == u.n && Rep(w.n.left, w.l) && (w.l.Node? ==> w.l.n.parent == w.n)
  }

  /** The end of skew_heap_remove: `rep` takes the place of `b` below `p`. */
  method ReplaceChild(p: Proc, b: Proc, rep: Proc?, ghost w: Tree, ghost u: Tree, ghost pass: map<Proc, int>)
    requires Distinct(w) && Below(w, u) && w.n == p && u.n == b && Nodes(w) <= pass.Keys
    requires Siblings(w, u)
    requires Rep(rep, MergeTree(u.l, u.r, pass)) && (rep != null ==> rep.parent == p)
    modifies p`left, p`right
    ensures Rep(p, RemoveTree(w, b, pass))
  {
    MergeTreeNodes(u.l, u.r, pass);
    if p.left == b {
      p.left := rep;
    } else {
      p.right := rep;
    }
  }

  /** What is known of the node above `b` before anything moves. */
  lemma AtParent(a: Proc, t: Tree, b: Proc, pass: map<Proc, int>)
    requires Rep(a, t) && Distinct(t) && b in Nodes(t) && b != a && Nodes(t) <= pass.Keys
    ensures b.parent != null && b.parent == ParentOf(t, b)
    ensures var p := b.parent;
            var w := Sub(t, p);
            var u := Sub(t, b);
            && Around(a, t, p) && Distinct(w) && p !in Nodes(u) && Nodes(u) <= Nodes(w)
            && Below(w, u) && Siblings(w, u)
            && RemoveTree(t, b, pass) == Replace(t, p, RemoveTree(w, b, pass))
            && (p != a ==> p.parent == ParentOf(t, p))
  {
    Cut(a, t, b);
    RemoveBelowParent(t, b, pass);
    Cut(a, t, ParentOf(t, b));
  }

  /** The start of skew_heap_remove: the two subtrees of `b` become one, and its parent is `p`. */
  method MergeChildren(b: Proc, p: Proc?, ghost u: Tree, ghost pass: map<Proc, int>) returns (rep: Proc?)
    requires u.Node? && u.n == b && Rep(b, u) && Distinct(u)
    requires Strides(Nodes(u), pass)
    modifies (Nodes(u) - {b})`left, (Nodes(u) - {b})`right, (Nodes(u) - {b})`parent
    ensures Rep(rep, MergeTree(u.l, u.r, pass))
    ensures rep != null ==> rep.parent == p
  {
    MergeTreeNodes(u.l, u.r, pass);
    rep := Merge(b.left, b.right, u.l, u.r, pass);
    if rep != null {
      SetParent(rep, p, MergeTree(u.l, u.r, pass));
    }
  }

  /** skew_heap_remove, for a node anywhere in the heap. */
  method Remove(a: Proc, b: Proc, ghost t: Tree, ghost pass: map<Proc, int>) returns (m: Proc?)
    requires Rep(a, t) && Distinct(t) && a.parent == null
    requires b in Nodes(t)
    requires Strides(Nodes(t), pass)
    modifies Nodes(t)`left, Nodes(t)`right, Nodes(t)`parent
    ensures Rep(m, RemoveTree(t, b, pass))
    ensures m != null ==> m.parent == null
  {
    Cut(a, t, b);
    ghost var u := Sub(t, b);
    var p := b.parent;
    if b != a {
      AtParent(a, t, b, pass);
    }
    var rep := MergeChildren(b, p, u, pass);
    if p != null {
      ReplaceChild(p, b, rep, Sub(t, p), u, pass);
      Plug(a, t, p, RemoveTree(Sub(t, p), b, pass));
      return a;
    } else {
      return rep;
    }
  }
}
