/** What the two philosopher protocols of kern/sync/check_sync.c have in common. */
module Philosophers {

  const N := 5

  function Left(i: nat): nat { (i + N - 1) % N }
  function Right(i: nat): nat { (i + 1) % N }

  datatype Phil = Thinking | Hungry | Eating

  /** The condition in phi_test_sema and phi_test_condvar. */
  predicate MayEat(st: seq<Phil>, i: nat)
    requires |st| == N && i < N
  {
    st[i] == Hungry && st[Left(i)] != Eating && st[Right(i)] != Eating
  }

  /** Two neighbours do not eat together. */
  ghost predicate Apart(st: seq<Phil>, i: nat)
    requires |st| == N && i < N
  {
    !(st[i] == Eating && st[Right(i)] == Eating)
  }

  /** A philosopher that may eat and starts to does not sit next to an eating one. */
  lemma EatingApart(st: seq<Phil>, j: nat, k: nat)
    requires |st| == N && j < N && k < N && Apart(st, k) && MayEat(st, j)
    ensures Apart(st[j := Eating], k)
  {
  }

  /** When `j` starts to eat, nobody becomes able to. */
  lemma EatingServes(st: seq<Phil>, j: nat, k: nat)
    requires |st| == N && j < N && k < N
    ensures MayEat(st[j := Eating], k) ==> MayEat(st, k) && k != j
  {
  }

  /** When `i` puts its forks down, only its neighbours can become able to eat. */
  lemma PuttingFrees(st: seq<Phil>, i: nat, k: nat)
    requires |st| == N && i < N && k < N
    ensures MayEat(st[i := Thinking], k) ==> MayEat(st, k) || k == Left(i) || k == Right(i)
    ensures Apart(st, k) ==> Apart(st[i := Thinking], k)
  {
  }

  /** After `i` has put its forks down and looked to its left, only its right neighbour may be
      left waiting. */
  lemma PutLeftServes(st: seq<Phil>, i: nat, k: nat)
    requires |st| == N && i < N && k < N && Apart(st, k) && !MayEat(st, k)
    ensures var st1 := st[i := Thinking];
            var st2 := if MayEat(st1, Left(i)) then st1[Left(i) := Eating] else st1;
            Apart(st2, k) && (MayEat(st2, k) ==> k == Right(i))
  {
    var st1 := st[i := Thinking];
    PuttingFrees(st, i, k);
    if MayEat(st1, Left(i)) {
      EatingApart(st1, Left(i), k);
      EatingServes(st1, Left(i), k);
    }
  }

  // ----- counting steps -----------------------------------------------------------------------

  /** The steps of `i` among the first `k`. */
  function Turns(who: seq<nat>, k: nat, i: nat): nat
    requires k <= |who|
  {
    if k == 0 then 0 else Turns(who, k - 1, i) + if who[k - 1] == i then 1 else 0
  }

  /** Every step is somebody's. */
  lemma {:induction false} TurnsAdd(who: seq<nat>, k: nat)
    requires k <= |who| && forall j | 0 <= j < k :: who[j] < N
    ensures Turns(who, k, 0) + Turns(who, k, 1) + Turns(who, k, 2) + Turns(who, k, 3) + Turns(who, k, 4) == k
  {
    if k > 0 {
      TurnsAdd(who, k - 1);
    }
  }

  lemma TurnsBound(who: seq<nat>, most: nat)
    requires forall j | 0 <= j < |who| :: who[j] < N
    requires forall i: nat | i < N :: Turns(who, |who|, i) <= most
    ensures |who| <= N * most
  {
    TurnsAdd(who, |who|);
  }
}
