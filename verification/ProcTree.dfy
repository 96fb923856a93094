/**
 The family pointers of kern/process/proc.c: set_links, remove_links and the loop of do_exit that
 hands the children of a dying process to initproc.  A process is known by a number; `NIL` is NULL.
 */
module ProcTree {

  type Pid = int

  const NIL := -1

  /** The pointers of all process records. */
  datatype Links = Links(parent: map<Pid, Pid>, cptr: map<Pid, Pid>, yptr: map<Pid, Pid>, optr: map<Pid, Pid>)

  function Nth(ks: seq<Pid>, i: int): Pid {
    if 0 <= i < |ks| then ks[i] else NIL
  }

  ghost predicate Distinct(ks: seq<Pid>) {
    forall i, j | 0 <= i < j < |ks| :: ks[i] != ks[j]
  }

  /** The `i`-th child, youngest first: optr leads to the next older, yptr to the next younger. */
  ghost predicate ChildAt(l: Links, p: Pid, ks: seq<Pid>, i: nat)
    requires i < |ks|
  {
    var c := ks[i];
    && c != NIL && c in l.parent && l.parent[c] == p
    && c in l.optr && l.optr[c] == Nth(ks, i + 1)
    && c in l.yptr && l.yptr[c] == Nth(ks, i - 1)
  }

  /** The chain of the children of `p` spells `ks`, forwards and backwards. */
  ghost predicate Chain(l: Links, p: Pid, ks: seq<Pid>) {
    && p in l.cptr && l.cptr[p] == Nth(ks, 0) && Distinct(ks)
    && forall i: nat | i < |ks| :: ChildAt(l, p, ks, i)
  }

  /** The same while do_exit takes the children of `p` away: the yptr of the first is stale. */
  ghost predicate LooseChain(l: Links, p: Pid, ks: seq<Pid>) {
    && p in l.cptr && l.cptr[p] == Nth(ks, 0) && Distinct(ks)
    && forall i: nat | i < |ks| :: LooseAt(l, p, ks, i)
  }

  ghost predicate LooseAt(l: Links, p: Pid, ks: seq<Pid>, i: nat)
    requires i < |ks|
  {
    if i > 0 then ChildAt(l, p, ks, i)
    else ks[0] != NIL && ks[0] in l.parent && l.parent[ks[0]] == p && ks[0] in l.optr && l.optr[ks[0]] == Nth(ks, 1)
  }

  /** Every live process has a chain of children, and every one but the first of all is in that of
      its parent, once. */
  ghost predicate Family(l: Links, kids: map<Pid, seq<Pid>>, root: Pid, dying: Pid) {
    && root in kids
    && (forall p :: ChainOf(l, kids, dying, p))
    && (forall p :: Belongs(l, kids, root, p))
    && (forall p, i: nat :: Inside(kids, root, p, i))
  }

  ghost predicate ChainOf(l: Links, kids: map<Pid, seq<Pid>>, dying: Pid, p: Pid) {
    p in kids ==> p != NIL && if p == dying then LooseChain(l, p, kids[p]) else Chain(l, p, kids[p])
  }

  ghost predicate Belongs(l: Links, kids: map<Pid, seq<Pid>>, root: Pid, c: Pid) {
    c in kids && c != root ==> c in l.parent && l.parent[c] in kids && c in kids[l.parent[c]]
  }

  ghost predicate Inside(kids: map<Pid, seq<Pid>>, root: Pid, p: Pid, i: nat) {
    p in kids && i < |kids[p]| ==> kids[p][i] in kids && kids[p][i] != root
  }

  // ----- set_links ------------------------------------------------------------------------------

  /** set_links on the pointers, for a new process. */
  function Linked(l: Links, c: Pid, p: Pid): Links
    requires p in l.cptr
  {
    var o := l.cptr[p];
    Links(l.parent[c := p], l.cptr[c := NIL][p := c], if o != NIL
        then l.yptr[c := NIL][o := c] else l.yptr[c := NIL], l.optr[c := o])
  }

  lemma LinkedChain(l: Links, c: Pid, p: Pid, ks: seq<Pid>)
    requires Chain(l, p, ks) && c !in ks && c != NIL && c != p
    ensures Chain(Linked(l, c, p), p, [c] + ks)
  {
    var l', ks' := Linked(l, c, p), [c] + ks;
    forall i: nat | i < |ks'| ensures ChildAt(l', p, ks', i) {
      if i > 0 {
        assert ChildAt(l, p, ks, i - 1);
      }
    }
  }

  lemma LinkedOther(l: Links, c: Pid, p: Pid, q: Pid, ks: seq<Pid>, pks: seq<Pid>)
    requires Chain(l, p, pks) && Chain(l, q, ks) && q != p && q != c && c !in ks && c != NIL
    ensures Chain(Linked(l, c, p), q, ks)
  {
    var l' := Linked(l, c, p);
    if pks != [] {
      assert ChildAt(l, p, pks, 0);
    }
    forall i: nat | i < |ks| ensures ChildAt(l', q, ks, i) {
      assert ChildAt(l, q, ks, i);
    }
  }

  lemma LinkedFamily(l: Links, kids: map<Pid, seq<Pid>>, root: Pid, c: Pid, p: Pid)
    requires Family(l, kids, root, NIL) && p in kids && c !in kids && c != NIL
    ensures p in l.cptr && Family(Linked(l, c, p), kids[c := []][p := [c] + kids[p]], root, NIL)
  {
    assert ChainOf(l, kids, NIL, p);
    var l', kids' := Linked(l, c, p), kids[c := []][p := [c] + kids[p]];
    forall q ensures ChainOf(l', kids', NIL, q) {
      if q in kids {
        NotInside(kids, root, c, q);
      }
      NotInside(kids, root, c, p);
      assert ChainOf(l, kids, NIL, q) && ChainOf(l, kids, NIL, p);
      if q == p {
        LinkedChain(l, c, p, kids[p]);
      } else if q in kids {
        LinkedOther(l, c, p, q, kids[q], kids[p]);
      }
    }
    forall q ensures Belongs(l', kids', root, q) {
      assert Belongs(l, kids, root, q);
    }
    forall q, i: nat ensures Inside(kids', root, q, i) {
      assert q != p ==> Inside(kids, root, q, i);
      assert q == p && i > 0 ==> Inside(kids, root, q, i - 1);
    }
  }

  /** Nobody outside is a child. */
  lemma NotInside(kids: map<Pid, seq<Pid>>, root: Pid, c: Pid, q: Pid)
    requires c !in kids && q in kids && forall p, i: nat :: Inside(kids, root, p, i)
    ensures c !in kids[q]
  {
    forall i: nat | i < |kids[q]| ensures kids[q][i] != c {
      assert Inside(kids, root, q, i);
    }
  }

  // ----- remove_links ---------------------------------------------------------------------------

  /** remove_links on the pointers. */
  function Unlinked(l: Links, c: Pid): Links
    requires c in l.parent && c in l.optr && c in l.yptr
  {
    var o, y := l.optr[c], l.yptr[c];
    Links(l.parent, if y == NIL then l.cptr[l.parent[c] := o] else l.cptr,
          if o != NIL then l.yptr[o := y] else l.yptr, if y != NIL then l.optr[y := o] else l.optr)
  }

  lemma UnlinkedChain(l: Links, p: Pid, ks: seq<Pid>, i: nat)
    requires Chain(l, p, ks) && i < |ks|
    ensures ks[i] in l.parent && ks[i] in l.optr && ks[i] in l.yptr
    ensures Chain(Unlinked(l, ks[i]), p, ks[..i] + ks[i + 1..])
  {
    assert ChildAt(l, p, ks, i);
    var l', ks' := Unlinked(l, ks[i]), ks[..i] + ks[i + 1..];
    assert i > 0 ==> ChildAt(l, p, ks, i - 1);
    assert i + 1 < |ks| ==> ChildAt(l, p, ks, i + 1);
    forall j: nat | j < |ks'| ensures ChildAt(l', p, ks', j) {
      assert ChildAt(l, p, ks, if j < i then j else j + 1);
    }
  }

  lemma UnlinkedOther(l: Links, p: Pid, pks: seq<Pid>, i: nat, q: Pid, ks: seq<Pid>)
    requires Chain(l, p, pks) && i < |pks| && Chain(l, q, ks) && q != p
    ensures pks[i] in l.parent && pks[i] in l.optr && pks[i] in l.yptr
    ensures Chain(Unlinked(l, pks[i]), q, ks)
  {
    assert ChildAt(l, p, pks, i);
    assert i > 0 ==> ChildAt(l, p, pks, i - 1);
    assert i + 1 < |pks| ==> ChildAt(l, p, pks, i + 1);
    var l' := Unlinked(l, pks[i]);
    forall j: nat | j < |ks| ensures ChildAt(l', q, ks, j) {
      assert ChildAt(l, q, ks, j);
    }
  }

  /** The chains without the child at place `i` of `p`. */
  function KidsWithout(kids: map<Pid, seq<Pid>>, p: Pid, i: nat): map<Pid, seq<Pid>>
    requires p in kids && i < |kids[p]|
  {
    (kids - {kids[p][i]})[p := kids[p][..i] + kids[p][i + 1..]]
  }

  lemma StillBelongs(l: Links, kids: map<Pid, seq<Pid>>, root: Pid, p: Pid, i: nat, q: Pid)
    requires Family(l, kids, root, NIL) && p in kids && i < |kids[p]| && kids[p][i] in kids && kids[kids[p][i]] == []
    ensures Belongs(l, KidsWithout(kids, p, i), root, q)
  {
    var c, kids' := kids[p][i], KidsWithout(kids, p, i);
    assert Belongs(l, kids, root, q) && ChainOf(l, kids, NIL, p);
    if q in kids' && q != root && l.parent[q] == p {
      var j: nat :| j < |kids[p]| && kids[p][j] == q;
      assert kids'[p][if j < i then j else j - 1] == q;
    }
  }

  lemma StillInside(l: Links, kids: map<Pid, seq<Pid>>, root: Pid, p: Pid, i: nat, q: Pid, j: nat)
    requires Family(l, kids, root, NIL) && p in kids && i < |kids[p]| && kids[p][i] in kids
    ensures Inside(KidsWithout(kids, p, i), root, q, j)
  {
    var kids' := KidsWithout(kids, p, i);
    assert ChainOf(l, kids, NIL, p) && ChainOf(l, kids, NIL, q);
    assert ChildAt(l, p, kids[p], i);
    if q == p && j < |kids'[p]| {
      var m := if j < i then j else j + 1;
      assert kids'[p][j] == kids[p][m] && Inside(kids, root, p, m);
    } else if q != p && q in kids' && j < |kids'[q]| {
      assert ChildAt(l, q, kids[q], j) && Inside(kids, root, q, j);
    }
  }

  lemma UnlinkedFamily(l: Links, kids: map<Pid, seq<Pid>>, root: Pid, p: Pid, i: nat)
    requires Family(l, kids, root, NIL) && p in kids && i < |kids[p]| && kids[p][i] in kids && kids[kids[p][i]] == []
    ensures var c := kids[p][i];
            && c in l.parent && c in l.optr && c in l.yptr
            && Family(Unlinked(l, c), KidsWithout(kids, p, i), root, NIL)
  {
    var c := kids[p][i];
    assert ChainOf(l, kids, NIL, p);
    assert ChildAt(l, p, kids[p], i) && Inside(kids, root, p, i);
    var l', kids' := Unlinked(l, c), KidsWithout(kids, p, i);
    forall q ensures ChainOf(l', kids', NIL, q) {
      assert ChainOf(l, kids, NIL, q);
      if q == p {
        UnlinkedChain(l, p, kids[p], i);
      } else if q in kids' {
        UnlinkedOther(l, p, kids[p], i, q, kids[q]);
      }
    }
    forall q ensures Belongs(l', kids', root, q) {
      StillBelongs(l, kids, root, p, i, q);
    }
    forall q, j: nat ensures Inside(kids', root, q, j) {
      StillInside(l, kids, root, p, i, q, j);
    }
  }

  // ----- do_exit --------------------------------------------------------------------------------

  /** One turn of the loop of do_exit: the first child of `cur` becomes the youngest of `init`. */
  function Moved(l: Links, cur: Pid, init: Pid): Links
    requires cur in l.cptr && l.cptr[cur] in l.optr && init in l.cptr
  {
    var c := l.cptr[cur];
    var cptr := l.cptr[cur := l.optr[c]];
    var o := cptr[init];
    Links(l.parent[c := init], cptr[init := c], if o != NIL
        then l.yptr[c := NIL][o := c] else l.yptr[c := NIL], l.optr[c := o])
  }

  lemma MovedChains(l: Links, cur: Pid, init: Pid, ks: seq<Pid>, ms: seq<Pid>)
    requires LooseChain(l, cur, ks) && ks != [] && Chain(l, init, ms) && cur != init
    ensures l.cptr[cur] in l.optr
    ensures LooseChain(Moved(l, cur, init), cur, ks[1..]) && Chain(Moved(l, cur, init), init, [ks[0]] + ms)
  {
    assert LooseAt(l, cur, ks, 0);
    var l', c := Moved(l, cur, init), ks[0];
    var ms' := [c] + ms;
    forall i: nat | i < |ms| ensures ms[i] != c {
      assert ChildAt(l, init, ms, i);
    }
    forall i: nat | i < |ms'| ensures ChildAt(l', init, ms', i) {
      if i > 0 {
        assert ChildAt(l, init, ms, i - 1);
      }
    }
    forall i: nat | i < |ks[1..]| ensures LooseAt(l', cur, ks[1..], i) {
      assert LooseAt(l, cur, ks, i + 1);
      assert ms != [] ==> ChildAt(l, init, ms, 0);
    }
  }

  lemma MovedOther(l: Links, cur: Pid, init: Pid, cs: seq<Pid>, ms: seq<Pid>, q: Pid, ks: seq<Pid>)
    requires LooseChain(l, cur, cs) && cs != [] && Chain(l, init, ms) && cur != init
    requires Chain(l, q, ks) && q != cur && q != init
    ensures l.cptr[cur] in l.optr && Chain(Moved(l, cur, init), q, ks)
  {
    assert LooseAt(l, cur, cs, 0);
    assert ms != [] ==> ChildAt(l, init, ms, 0);
    var l' := Moved(l, cur, init);
    forall i: nat | i < |ks| ensures ChildAt(l', q, ks, i) {
      assert ChildAt(l, q, ks, i);
    }
  }

  lemma MovedFamily(l: Links, kids: map<Pid, seq<Pid>>, root: Pid, cur: Pid, init: Pid)
    requires Family(l, kids, root, cur) && cur in kids && init in kids && cur != init && kids[cur] != []
    ensures cur in l.cptr && init in l.cptr && l.cptr[cur] in l.optr
    ensures Family(Moved(l, cur, init), kids[cur := kids[cur][1..]][init := [kids[cur][0]] + kids[init]], root, cur)
  {
    var c := kids[cur][0];
    assert ChainOf(l, kids, cur, cur) && ChainOf(l, kids, cur, init);
    assert LooseAt(l, cur, kids[cur], 0);
    var l', kids' := Moved(l, cur, init), kids[cur := kids[cur][1..]][init := [c] + kids[init]];
    MovedChains(l, cur, init, kids[cur], kids[init]);
    forall q ensures ChainOf(l', kids', cur, q) {
      assert ChainOf(l, kids, cur, q);
      if q in kids && q != cur && q != init {
        MovedOther(l, cur, init, kids[cur], kids[init], q, kids[q]);
      }
    }
    forall q ensures Belongs(l', kids', root, q) {
      assert Belongs(l, kids, root, q);
      assert q in kids[cur] ==> q == c || q in kids[cur][1..];
    }
    forall q, i: nat ensures Inside(kids', root, q, i) {
      assert q != init && q != cur ==> Inside(kids, root, q, i);
      assert q == cur ==> Inside(kids, root, cur, i + 1);
      assert q == init ==> if i == 0 then Inside(kids, root, cur, 0) else Inside(kids, root, init, i - 1);
    }
  }

  // ----- the process table ----------------------------------------------------------------------

  class Table {
    var links: Links
    var nrProcess: int
    const root: Pid                        // idleproc
    const init: Pid                        // initproc
    ghost var kids: map<Pid, seq<Pid>>     // the live processes, each with its children

    ghost predicate Valid()
      reads this
    {
      root != init && Family(links, kids, root, NIL) && nrProcess == |kids.Keys|
    }

    /** idleproc alone, as proc_init starts. */
    constructor (idle: Pid, initproc: Pid)
      requires idle != NIL && initproc != NIL && idle != initproc
      ensures Valid() && root == idle && init == initproc && kids == map[idle := []]
    {
      root, init := idle, initproc;
      links := Links(map[idle := NIL], map[idle := NIL], map[idle := NIL], map[idle := NIL]);
      nrProcess := 1;
      kids := map[idle := []];
      new;
      assert kids.Keys == {idle};
    }

    /** set_links, for the new process `c` of do_fork. */
    method SetLinks(c: Pid, p: Pid)
      requires Valid() && p in kids && c !in kids && c != NIL
      modifies this
      ensures Valid() && kids == old(kids)[c := []][p := [c] + old(kids)[p]]
    {
      LinkedFamily(links, kids, root, c, p);
      assert ChainOf(links, kids, NIL, p);
      assert kids[c := []][p := [c] + kids[p]].Keys == kids.Keys + {c};
      links := links.(parent := links.parent[c := p], cptr := links.cptr[c := NIL]);
      links := links.(yptr := links.yptr[c := NIL]);
      links := links.(optr := links.optr[c := links.cptr[p]]);
      if links.optr[c] != NIL {
        links := links.(yptr := links.yptr[links.optr[c] := c]);
      }
      links := links.(cptr := links.cptr[p := c]);
      nrProcess := nrProcess + 1;
      kids := kids[c := []][p := [c] + kids[p]];
    }

    /** remove_links, for a child without children of its own, as do_wait does with a zombie. */
    method RemoveLinks(c: Pid, ghost p: Pid, ghost i: nat)
      requires Valid() && p in kids && i < |kids[p]| && kids[p][i] == c && c in kids && kids[c] == []
      modifies this
      ensures Valid() && kids == KidsWithout(old(kids), p, i)
    {
      UnlinkedFamily(links, kids, root, p, i);
      ghost var kids' := KidsWithout(kids, p, i);
      assert c != p by {
        assert ChainOf(links, kids, NIL, p);
        assert ChildAt(links, p, kids[p], i);
      }
      assert kids'.Keys == kids.Keys - {c};
      if links.optr[c] != NIL {
        links := links.(yptr := links.yptr[links.optr[c] := links.yptr[c]]);
      }
      if links.yptr[c] != NIL {
        links := links.(optr := links.optr[links.yptr[c] := links.optr[c]]);
      } else {
        links := links.(cptr := links.cptr[links.parent[c] := links.optr[c]]);
      }
      nrProcess := nrProcess - 1;
      kids := kids';
    }

    /** One turn of the loop of do_exit. */
    method MoveFirst(cur: Pid)
      requires Family(links, kids, root, cur) && cur in kids && init in kids && cur != init && kids[cur] != []
      modifies `links, `kids
      ensures Family(links, kids, root, cur) && kids.Keys == old(kids.Keys)
      ensures kids == old(kids)[cur := old(kids)[cur][1..]][init := [old(kids)[cur][0]] + old(kids)[init]]
    {
      MovedFamily(links, kids, root, cur, init);
      assert ChainOf(links, kids, cur, cur) && ChainOf(links, kids, cur, init);
      assert LooseAt(links, cur, kids[cur], 0);
      ghost var l := Moved(links, cur, init);
      var proc := links.cptr[cur];
      links := links.(cptr := links.cptr[cur := links.optr[proc]]);
      links := links.(yptr := links.yptr[proc := NIL]);
      links := links.(optr := links.optr[proc := links.cptr[init]]);
      if links.optr[proc] != NIL {
        links := links.(yptr := links.yptr[links.cptr[init] := proc]);
      }
      links := links.(parent := links.parent[proc := init], cptr := links.cptr[init := proc]);
      assert links == l;
      kids := kids[cur := kids[cur][1..]][init := [proc] + kids[init]];
    }

    /** The loop of do_exit: all children of `cur` become children of initproc. */
    method Reparent(cur: Pid)
      requires Valid() && cur in kids && init in kids && cur != init
      modifies this
      ensures Valid() && nrProcess == old(nrProcess)
      ensures kids == Handed(old(kids), cur, init, |old(kids)[cur]|)
    {
      ghost var n := 0;
      StartMoving(links, kids, root, cur);
      HandedNone(kids, cur, init);
      FirstOrNil(links, kids, root, cur);
      while links.cptr[cur] != NIL
        invariant n <= |old(kids)[cur]| && kids.Keys == old(kids.Keys) && nrProcess == old(nrProcess)
        invariant Family(links, kids, root, cur) && kids == Handed(old(kids), cur, init, n)
        invariant cur in links.cptr && (links.cptr[cur] == NIL <==> kids[cur] == [])
        decreases |old(kids)[cur]| - n
      {
        HandedNext(old(kids), cur, init, n);
        MoveFirst(cur);
        FirstOrNil(links, kids, root, cur);
        n := n + 1;
      }
      StopMoving(links, kids, root, cur);
      assert |kids.Keys| == |old(kids.Keys)|;
    }
  }

  /** The first `n` children of `cur` have become the youngest of `init`, in turn. */
  ghost function Handed(kids: map<Pid, seq<Pid>>, cur: Pid, init: Pid, n: nat): map<Pid, seq<Pid>>
    requires cur in kids && init in kids && n <= |kids[cur]|
  {
    kids[cur := kids[cur][n..]][init := Reversed(kids[cur][..n]) + kids[init]]
  }

  lemma HandedNone(kids: map<Pid, seq<Pid>>, cur: Pid, init: Pid)
    requires cur in kids && init in kids && cur != init
    ensures Handed(kids, cur, init, 0) == kids
  {
    assert kids[cur][0..] == kids[cur] && Reversed(kids[cur][..0]) + kids[init] == kids[init];
  }

  lemma HandedNext(kids: map<Pid, seq<Pid>>, cur: Pid, init: Pid, n: nat)
    requires cur in kids && init in kids && cur != init && n <= |kids[cur]|
    ensures Handed(kids, cur, init, n).Keys == kids.Keys
    ensures n < |kids[cur]| ==>
              var h := Handed(kids, cur, init, n);
              h[cur] != [] && Handed(kids, cur, init, n + 1) == h[cur := h[cur][1..]][init := [h[cur][0]] + h[init]]
  {
    if n < |kids[cur]| {
      ReversedNext(kids[cur], n);
      var r := Reversed(kids[cur][..n]);
      assert [kids[cur][n]] + r + kids[init] == [kids[cur][n]] + (r + kids[init]);
    }
  }

  function Reversed(ks: seq<Pid>): seq<Pid> {
    if ks == [] then [] else [ks[|ks| - 1]] + Reversed(ks[..|ks| - 1])
  }

  lemma ReversedNext(ks: seq<Pid>, n: nat)
    requires n < |ks|
    ensures Reversed(ks[..n + 1]) == [ks[n]] + Reversed(ks[..n])
  {
    assert ks[..n + 1][..n] == ks[..n];
  }

  lemma StartMoving(l: Links, kids: map<Pid, seq<Pid>>, root: Pid, cur: Pid)
    requires Family(l, kids, root, NIL) && cur in kids
    ensures Family(l, kids, root, cur)
  {
    forall p ensures ChainOf(l, kids, cur, p) {
      assert ChainOf(l, kids, NIL, p);
      if p == cur {
        forall i: nat | i < |kids[cur]| ensures LooseAt(l, cur, kids[cur], i) {
          assert ChildAt(l, cur, kids[cur], i);
        }
      }
    }
  }

  lemma FirstOrNil(l: Links, kids: map<Pid, seq<Pid>>, root: Pid, cur: Pid)
    requires Family(l, kids, root, cur) && cur in kids
    ensures cur in l.cptr && (l.cptr[cur] == NIL <==> kids[cur] == [])
  {
    assert ChainOf(l, kids, cur, cur);
    assert kids[cur] != [] ==> LooseAt(l, cur, kids[cur], 0);
  }

  lemma StopMoving(l: Links, kids: map<Pid, seq<Pid>>, root: Pid, cur: Pid)
    requires Family(l, kids, root, cur) && cur in kids && kids[cur] == []
    ensures Family(l, kids, root, NIL)
  {
    forall p ensures ChainOf(l, kids, NIL, p) {
      assert ChainOf(l, kids, cur, p);
    }
  }
}
