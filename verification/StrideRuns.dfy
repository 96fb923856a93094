/**
 Whole runs of the stride scheduler, over the set of runnable processes and their
 unbounded passes.  Every turn of kern/schedule/sched.c:78-100 charges a process that no
 other is behind (see StrideQueue.RunQueue.Turn); processes also come and go.
 */
module StrideRuns {
  import opened SkewHeap

  const BIG_STRIDE := 0x4000_0000

  /** BIG_STRIDE / priority, and BIG_STRIDE itself for priority 0. */
  function Step(priority: nat): (d: nat)
    ensures d <= BIG_STRIDE
    ensures priority != 0 ==> d * priority <= BIG_STRIDE < (d + 1) * priority
    ensures d == 0 <==> priority > BIG_STRIDE
  {
    if priority != 0 then BIG_STRIDE / priority else BIG_STRIDE
  }

  /** No two passes are more than BIG_STRIDE apart. */
  ghost predicate Spread<T>(ps: set<T>, pass: map<T, int>)
    requires ps <= pass.Keys
  {
    forall x <- ps, y <- ps :: pass[x] - pass[y] <= BIG_STRIDE
  }

  /** `x` is a process of `ps` that no other is behind. */
  ghost predicate Least<T>(x: T, ps: set<T>, pass: map<T, int>)
    requires ps <= pass.Keys
  {
    x in ps && forall y <- ps :: pass[x] <= pass[y]
  }

  datatype Event<T> =
    | Pick(who: T, charge: nat)
    | Arrive(who: T, at: int)
    | Leave(who: T)

  ghost predicate Next<T>(s: map<T, int>, e: Event<T>, s': map<T, int>) {
    match e
    case Pick(x, d) => Least(x, s.Keys, s) && d <= BIG_STRIDE && s' == s[x := s[x] + d]
    case Arrive(x, v) =>
      x !in s && (forall y <- s.Keys :: -BIG_STRIDE <= v - s[y] <= BIG_STRIDE) && s' == s[x := v]
    case Leave(x) => x in s && s' == s - {x}
  }

  ghost predicate Run<T>(s: seq<map<T, int>>, es: seq<Event<T>>) {
    |s| == |es| + 1 && forall i | 0 <= i < |es| :: Next(s[i], es[i], s[i + 1])
  }

  /** The spread is never lost, however long the run. */
  lemma {:induction false} SpreadForever<T>(s: seq<map<T, int>>, es: seq<Event<T>>, k: nat)
    requires Run(s, es) && k < |s| && Spread(s[0].Keys, s[0])
    ensures Spread(s[k].Keys, s[k])
  {
    if k > 0 {
      SpreadForever(s, es, k - 1);
      assert Next(s[k - 1], es[k - 1], s[k]);
    }
  }

  /** So the signed 32-bit difference of wrapped strides is the true order in every state of every run. */
  lemma ComparatorNeverLies<T>(s: seq<map<T, int>>, es: seq<Event<T>>, k: nat, x: T, y: T)
    requires Run(s, es) && k < |s| && Spread(s[0].Keys, s[0])
    requires x in s[k] && y in s[k]
    ensures Compare(s[k][x] % WORD, s[k][y] % WORD) == Sign(s[k][x] - s[k][y])
  {
    SpreadForever(s, es, k);
    CompareIsTrueOrder(s[k][x], s[k][y]);
  }

  /** A run in which the only process, of priority 1, takes `n` turns. */
  function AloneStates<T>(x: T, n: nat): seq<map<T, int>> {
    seq(n + 1, k => map[x := k * BIG_STRIDE])
  }

  function AloneTurns<T>(x: T, n: nat): seq<Event<T>> {
    seq(n, k => Pick(x, BIG_STRIDE))
  }

  /** Without the bound on arrivals it does lie.  do_fork starts a process at stride 0; beside a
      process that has had `n` turns alone it is compared rightly just when `n` is 0 or leaves 1 or 2
      modulo 4, and after the third turn the newcomer, who is behind, is taken for the later one. */
  lemma FreshProcessLooksLate<T>(x: T, y: T, n: nat)
    requires x != y
    ensures Run(AloneStates(x, n), AloneTurns(x, n)) && AloneStates(x, n)[n] == map[x := n * BIG_STRIDE]
    ensures Spread({x}, AloneStates(x, n)[0])
    ensures n >= 2 ==> forall s :: !Next(AloneStates(x, n)[n], Arrive(y, 0), s)
    ensures Compare(0, n * BIG_STRIDE % WORD) == Sign(0 - n * BIG_STRIDE) <==> n == 0 || n % 4 == 1 || n % 4 == 2
    ensures n == 3 ==> Compare(0, n * BIG_STRIDE % WORD) == 1 && Sign(0 - n * BIG_STRIDE) == -1
  {
    var s, es := AloneStates(x, n), AloneTurns(x, n);
    forall i | 0 <= i < |es| ensures Next(s[i], es[i], s[i + 1]) {
      assert s[i + 1] == s[i][x := s[i][x] + BIG_STRIDE];
    }
    assert x in s[n] && s[n][x] == n * BIG_STRIDE;
    assert n >= 2 ==> !(-BIG_STRIDE <= 0 - s[n][x]);
    CompareIsTrueOrder(0, n * BIG_STRIDE);
    assert 0 - n * BIG_STRIDE == ((0 - n) % 4) * BIG_STRIDE + ((0 - n) / 4) * WORD;
  }

  // ----- fairness -------------------------------------------------------------------

  ghost function Picks<T>(es: seq<Event<T>>, x: T): nat {
    if es == [] then 0
    else Picks(es[..|es| - 1], x) + if es[|es| - 1].Pick? && es[|es| - 1].who == x then 1 else 0
  }

  /** `x` is there at the start, never leaves, and every one of its turns costs `d`. */
  ghost predicate Stays<T>(s: seq<map<T, int>>, es: seq<Event<T>>, x: T, d: nat)
    requires |s| > 0
  {
    && x in s[0]
    && forall e <- es :: e.who == x ==> e.Pick? && e.charge == d
  }

  /** A process that stays has paid `d` for each of its turns. */
  ghost predicate Paid<T>(s: seq<map<T, int>>, x: T, picks: nat, d: nat)
    requires |s| > 0 && x in s[0]
  {
    x in s[|s| - 1] && s[|s| - 1][x] == s[0][x] + picks * d
  }

  lemma PaidMore<T>(s: seq<map<T, int>>, m: map<T, int>, x: T, picks: nat, d: nat)
    requires |s| > 0 && x in s[0] && Paid(s, x, picks, d)
    requires x in m && m[x] == s[|s| - 1][x] + d
    ensures Paid(s + [m], x, picks + 1, d)
  {
    assert (picks + 1) * d == picks * d + d;
  }

  lemma {:induction false} PassIsPicks<T>(s: seq<map<T, int>>, es: seq<Event<T>>, x: T, d: nat)
    requires Run(s, es) && Stays(s, es, x, d)
    ensures Paid(s, x, Picks(es, x), d)
  {
    if es != [] {
      var n := |es| - 1;
      PassIsPicks(s[..n + 1], es[..n], x, d);
      assert s == s[..n + 1] + [s[n + 1]];
      assert es[n] in es && Next(s[n], es[n], s[n + 1]);
      if es[n].Pick? && es[n].who == x {
        PaidMore(s[..n + 1], s[n + 1], x, Picks(es[..n], x), d);
      }
    }
  }

  /** Turns are handed out in proportion: two processes that stay get a and b turns with
      |a * Step(p) - b * Step(q)| within BIG_STRIDE, if they start level. */
  lemma Proportional<T>(s: seq<map<T, int>>, es: seq<Event<T>>, x: T, y: T, p: nat, q: nat)
    requires Run(s, es) && Spread(s[0].Keys, s[0])
    requires Stays(s, es, x, Step(p)) && Stays(s, es, y, Step(q)) && s[0][x] == s[0][y]
    ensures -BIG_STRIDE <= Picks(es, x) * Step(p) - Picks(es, y) * Step(q) <= BIG_STRIDE
  {
    PassIsPicks(s, es, x, Step(p));
    PassIsPicks(s, es, y, Step(q));
    SpreadForever(s, es, |es|);
  }

  // ----- no starvation --------------------------------------------------------------

  ghost function Total<T>(ps: set<T>, pass: map<T, int>): int
    requires ps <= pass.Keys
  {
    if ps == {} then 0
    else
      var x :| x in ps;
      pass[x] + Total(ps - {x}, pass)
  }

  lemma {:induction false} TotalOf<T>(ps: set<T>, pass: map<T, int>, x: T)
    requires ps <= pass.Keys && x in ps
    ensures Total(ps, pass) == pass[x] + Total(ps - {x}, pass)
    decreases ps
  {
    var y :| y in ps && Total(ps, pass) == pass[y] + Total(ps - {y}, pass);
    if x != y {
      TotalOf(ps - {y}, pass, x);
      TotalOf(ps - {x}, pass, y);
      assert ps - {y} - {x} == ps - {x} - {y};
    }
  }

  lemma {:induction false} TotalElsewhere<T>(ps: set<T>, pass: map<T, int>, x: T, v: int)
    requires ps <= pass.Keys && x !in ps
    ensures Total(ps, pass[x := v]) == Total(ps, pass)
    decreases ps
  {
    if ps != {} {
      var y :| y in ps && Total(ps, pass) == pass[y] + Total(ps - {y}, pass);
      TotalElsewhere(ps - {y}, pass, x, v);
      TotalOf(ps, pass[x := v], y);
    }
  }

  lemma {:induction false} TotalBetween<T>(ps: set<T>, pass: map<T, int>, lo: int, hi: int)
    requires ps <= pass.Keys && forall x <- ps :: lo <= pass[x] <= hi
    ensures |ps| * lo <= Total(ps, pass) <= |ps| * hi
    decreases ps
  {
    if ps != {} {
      var y :| y in ps && Total(ps, pass) == pass[y] + Total(ps - {y}, pass);
      TotalBetween(ps - {y}, pass, lo, hi);
      Distribute(|ps| - 1, lo, 0);
      Distribute(|ps| - 1, hi, 0);
    }
  }

  /** Turns only, each costing at least `d`, none of them for `q`. */
  ghost predicate PassesOver<T>(es: seq<Event<T>>, q: T, d: nat) {
    forall e <- es :: e.Pick? && e.who != q && d <= e.charge
  }

  lemma PickGrows<T>(s: map<T, int>, x: T, d: nat)
    requires x in s
    ensures Total(s.Keys, s[x := s[x] + d]) == Total(s.Keys, s) + d
  {
    TotalOf(s.Keys, s, x);
    TotalOf(s.Keys, s[x := s[x] + d], x);
    TotalElsewhere(s.Keys - {x}, s, x, s[x] + d);
  }

  lemma Distribute(n: nat, d: int, e: int)
    ensures n * (d + e) == n * d + n * e && (n + 1) * d == n * d + d
  {
  }

  lemma {:induction false} PoolGrows<T>(s: seq<map<T, int>>, es: seq<Event<T>>, q: T, d: nat)
    requires Run(s, es) && q in s[0] && PassesOver(es, q, d)
    ensures s[|es|].Keys == s[0].Keys && s[|es|][q] == s[0][q]
    ensures Total(s[0].Keys, s[0]) + |es| * d <= Total(s[0].Keys, s[|es|])
  {
    if es != [] {
      var n := |es| - 1;
      PoolGrows(s[..n + 1], es[..n], q, d);
      assert es[n] in es && Next(s[n], es[n], s[n + 1]);
      PickGrows(s[n], es[n].who, es[n].charge);
      Distribute(n, d, 0);
    }
  }

  /** A runnable process waits for at most 2 * BIG_STRIDE * pool / d turns. */
  lemma BoundedWait<T>(s: seq<map<T, int>>, es: seq<Event<T>>, q: T, d: nat)
    requires Run(s, es) && Spread(s[0].Keys, s[0]) && q in s[0] && PassesOver(es, q, d)
    ensures |es| * d <= |s[0].Keys| * (2 * BIG_STRIDE)
  {
    PoolGrows(s, es, q, d);
    SpreadForever(s, es, |es|);
    var ps, lo := s[0].Keys, s[0][q] - BIG_STRIDE;
    TotalBetween(ps, s[0], lo, lo + 2 * BIG_STRIDE);
    TotalBetween(ps, s[|es|], lo, lo + 2 * BIG_STRIDE);
    Distribute(|ps|, lo, 2 * BIG_STRIDE);
  }

  /** The bound needs priorities of at most BIG_STRIDE: above that a turn is free, and one
      process can have any number of turns in a row. */
  lemma FreeTurnsStarve<T>(pass: map<T, int>, p: T, priority: nat, n: nat)
    returns (s: seq<map<T, int>>, es: seq<Event<T>>)
    requires Least(p, pass.Keys, pass) && priority > BIG_STRIDE
    ensures Run(s, es) && s[0] == pass && |es| == n
    ensures forall e <- es :: e == Pick(p, Step(priority))
  {
    es := seq(n, _ => Pick(p, 0));
    s := seq(n + 1, _ => pass);
    assert pass[p := pass[p] + 0] == pass;
    forall i | 0 <= i < |es| ensures Next(s[i], es[i], s[i + 1]) {
    }
  }
}
