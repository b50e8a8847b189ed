/** The balanced replica allocator (pkg/rm/allocate.go), and the proof that its greedy choice is
    optimal for every convex measure of load and independent of how ties are broken. */
module Allocator {
  import opened AnnotatedIds
  import opened Devices

  // ---------- load ----------

  /** The replicas among `ids` that belong to the GPU `gpu`. */
  ghost function Owned(ids: set<string>, gpu: string): set<string> {
    set id | id in ids && GetId(id) == gpu
  }

  /** A GPU's load while `free` are still free: its replicas in all minus its free replicas. */
  ghost function Load(all: set<string>, free: set<string>, gpu: string): int {
    |Owned(all, gpu)| - |Owned(free, gpu)|
  }

  /** The load is the number of the GPU's replicas that are not free, that is, handed out already. */
  lemma LoadIsHandedOut(all: set<string>, free: set<string>, gpu: string) returns (out: set<string>)
    requires free <= all
    ensures forall id :: id in out <==> id in all && id !in free && GetId(id) == gpu
    ensures Load(all, free, gpu) == |out|
  {
    out := Owned(all, gpu) - Owned(free, gpu);
    assert Owned(free, gpu) <= Owned(all, gpu);
  }

  /** Taking `taken` out of the free replicas raises a GPU's load by what was taken from it. */
  lemma LoadAfter(all: set<string>, free: set<string>, taken: set<string>, gpu: string)
    requires taken <= free
    ensures Load(all, free - taken, gpu) == Load(all, free, gpu) + |Owned(taken, gpu)|
  {
    assert Owned(free - taken, gpu) == Owned(free, gpu) - Owned(taken, gpu);
    assert Owned(taken, gpu) <= Owned(free, gpu);
  }

  lemma LoadAfterOne(all: set<string>, free: set<string>, id: string, gpu: string)
    requires id in free
    ensures Load(all, free - {id}, gpu) == Load(all, free, gpu) + (if GetId(id) == gpu then 1 else 0)
  {
    LoadAfter(all, free, {id}, gpu);
    assert Owned({id}, gpu) == if GetId(id) == gpu then {id} else {};
  }

  // ---------- the greedy rule and what it keeps ----------

  /** `id` is a free replica of a GPU whose load is least among the GPUs with a free replica. */
  ghost predicate LeastLoaded(all: set<string>, free: set<string>, id: string) {
    && id in free
    && forall c :: c in free ==> Load(all, free, GetId(id)) <= Load(all, free, GetId(c))
  }

  /** Every pick is least loaded given the picks before it. */
  ghost predicate Greedy(all: set<string>, free: set<string>, picks: seq<string>) {
    picks != [] ==>
      LeastLoaded(all, free, picks[0]) && Greedy(all, free - {picks[0]}, picks[1..])
  }

  /** A GPU that was picked ends at most one above any GPU that still has a free replica. */
  ghost predicate Balanced(all: set<string>, free: set<string>, taken: set<string>) {
    forall x, c :: x in taken && c in free - taken ==>
      Load(all, free - taken, GetId(x)) <= Load(all, free - taken, GetId(c)) + 1
  }

  lemma {:induction false} GreedySnoc(all: set<string>, free: set<string>, picks: seq<string>, id: string)
    requires Greedy(all, free, picks)
    requires LeastLoaded(all, free - Elements(picks), id)
    ensures Greedy(all, free, picks + [id])
  {
    if picks == [] {
      assert free - Elements(picks) == free;
      assert (picks + [id])[1..] == [];
    } else {
      assert (picks + [id])[1..] == picks[1..] + [id];
      assert picks == [picks[0]] + picks[1..];
      assert free - {picks[0]} - Elements(picks[1..]) == free - Elements(picks);
      GreedySnoc(all, free - {picks[0]}, picks[1..], id);
    }
  }

  lemma {:induction false} GreedyPrefix(all: set<string>, free: set<string>, picks: seq<string>, n: nat)
    requires Greedy(all, free, picks) && n <= |picks|
    ensures Greedy(all, free, picks[..n])
    ensures n < |picks| ==> LeastLoaded(all, free - Elements(picks[..n]), picks[n])
  {
    hide LeastLoaded;
    if n == 0 {
      assert free - Elements(picks[..0]) == free;
    } else {
      GreedyPrefix(all, free - {picks[0]}, picks[1..], n - 1);
      assert picks[..n] == [picks[0]] + picks[1..][..n - 1];
      assert free - Elements(picks[..n]) == free - {picks[0]} - Elements(picks[1..][..n - 1]);
    }
  }

  /** One more greedy pick keeps the balance. */
  lemma BalancedStep(all: set<string>, free: set<string>, taken: set<string>, id: string)
    requires taken <= free && Balanced(all, free, taken)
    requires LeastLoaded(all, free - taken, id)
    ensures Balanced(all, free, taken + {id})
  {
    var left := free - taken;
    assert free - (taken + {id}) == left - {id};
    forall x, c | x in taken + {id} && c in left - {id}
      ensures Load(all, left - {id}, GetId(x)) <= Load(all, left - {id}, GetId(c)) + 1
    {
      LoadAfterOne(all, left, id, GetId(x));
      LoadAfterOne(all, left, id, GetId(c));
    }
  }

  lemma NothingTaken(all: set<string>, free: set<string>)
    ensures NoDup<string>([]) && Elements<string>([]) == {} && Balanced(all, free, {})
  {}

  lemma LeastIsFree(all: set<string>, free: set<string>, id: string)
    requires LeastLoaded(all, free, id)
    ensures id in free
  {}

  lemma NoDupSnoc(s: seq<string>, x: string)
    requires NoDup(s) && x !in Elements(s)
    ensures NoDup(s + [x])
  {}

  /** Greedy picks are distinct free replicas and leave the loads balanced. */
  lemma {:induction false} GreedyBalanced(all: set<string>, free: set<string>, picks: seq<string>)
    requires Greedy(all, free, picks)
    ensures NoDup(picks) && Elements(picks) <= free
    ensures Balanced(all, free, Elements(picks))
  {
    hide *;
    if picks == [] {
      NothingTaken(all, free);
    } else {
      var n := |picks| - 1;
      GreedyPrefix(all, free, picks, n);
      GreedyBalanced(all, free, picks[..n]);
      BalancedStep(all, free, Elements(picks[..n]), picks[n]);
      LeastIsFree(all, free - Elements(picks[..n]), picks[n]);
      assert picks == picks[..n] + [picks[n]];
      ElementsSnoc(picks[..n], picks[n]);
      NoDupSnoc(picks[..n], picks[n]);
    }
  }

  // ---------- convex measures of load ----------

  ghost function Slope(f: int -> int, a: int): int { f(a + 1) - f(a) }

  ghost predicate Convex(f: int -> int) {
    forall a :: Slope(f, a) <= Slope(f, a + 1)
  }

  /** The loads of the GPUs in `gpus`, in that order. */
  ghost function Loads(all: set<string>, free: set<string>, gpus: seq<string>): (loads: seq<int>)
    ensures |loads| == |gpus|
  {
    seq(|gpus|, k requires 0 <= k < |gpus| => Load(all, free, gpus[k]))
  }

  ghost function Cost(f: int -> int, loads: seq<int>): int {
    if loads == [] then 0 else f(loads[0]) + Cost(f, loads[1..])
  }

  lemma {:induction false} SlopeMonotone(f: int -> int, a: int, b: int)
    requires Convex(f) && a <= b
    ensures Slope(f, a) <= Slope(f, b)
    decreases b - a
  {
    if a < b { SlopeMonotone(f, a, b - 1); assert Slope(f, b - 1) <= Slope(f, b - 1 + 1); }
  }

  /** The tangent bound: going from load `a` to load `b` costs at least the slope at `c` per unit,
      when it goes up from `c` or more, or down from `c + 1` or less. */
  lemma {:induction false} Tangent(f: int -> int, c: int, a: int, b: int)
    requires Convex(f)
    requires a < b ==> c <= a
    requires b < a ==> a <= c + 1
    ensures f(b) - f(a) >= (b - a) * Slope(f, c)
    decreases if a < b then b - a else a - b
  {
    if a < b {
      Tangent(f, c, a, b - 1);
      SlopeMonotone(f, c, b - 1);
      assert (b - a) * Slope(f, c) == (b - 1 - a) * Slope(f, c) + Slope(f, c);
    } else if b < a {
      Tangent(f, c, a, b + 1);
      SlopeMonotone(f, b, c);
      assert (b - a) * Slope(f, c) == (b + 1 - a) * Slope(f, c) - Slope(f, c);
    }
  }

  /** `gpus` lists, once each, at least the GPUs of the free replicas. */
  ghost predicate Covers(gpus: seq<string>, free: set<string>) {
    NoDup(gpus) && forall c :: c in free ==> GetId(c) in gpus
  }

  ghost function PickCount(taken: set<string>, gpus: seq<string>): nat {
    if gpus == [] then 0 else |Owned(taken, gpus[0])| + PickCount(taken, gpus[1..])
  }

  /** Counting picks GPU by GPU counts every pick once. */
  lemma {:induction false} PickCountAll(taken: set<string>, gpus: seq<string>)
    requires Covers(gpus, taken)
    ensures PickCount(taken, gpus) == |taken|
  {
    if gpus == [] {
      assert forall x :: x in taken ==> GetId(x) in gpus;
      assert taken == {};
    } else {
      var own, rest := Owned(taken, gpus[0]), taken - Owned(taken, gpus[0]);
      assert gpus == [gpus[0]] + gpus[1..];
      PickCountAll(rest, gpus[1..]);
      PickCountSame(taken, rest, gpus[1..]);
      assert taken == own + rest;
    }
  }

  lemma {:induction false} PickCountSame(a: set<string>, b: set<string>, gpus: seq<string>)
    requires forall k :: 0 <= k < |gpus| ==> Owned(a, gpus[k]) == Owned(b, gpus[k])
    ensures PickCount(a, gpus) == PickCount(b, gpus)
  {
    if gpus != [] { assert Owned(a, gpus[0]) == Owned(b, gpus[0]); PickCountSame(a, b, gpus[1..]); }
  }

  lemma {:induction false} LeastLoadedExists(all: set<string>, free: set<string>, among: set<string>)
    returns (c: string)
    requires among != {}
    ensures c in among
    ensures forall d :: d in among ==> Load(all, free, GetId(c)) <= Load(all, free, GetId(d))
    decreases among
  {
    var e :| e in among;
    if among == {e} {
      c := e;
    } else {
      c := LeastLoadedExists(all, free, among - {e});
      if Load(all, free, GetId(e)) < Load(all, free, GetId(c)) { c := e; }
    }
  }

  ghost function Sum(s: seq<int>): int {
    if s == [] then 0 else s[0] + Sum(s[1..])
  }

  /** Summing the tangent bound: moving from loads `a` to loads `b` costs at least the slope at `c`
      per unit of difference in the totals. */
  lemma {:induction false} CostBound(f: int -> int, c: int, a: seq<int>, b: seq<int>)
    requires Convex(f) && |a| == |b|
    requires forall k :: 0 <= k < |a| ==> (a[k] < b[k] ==> c <= a[k]) && (b[k] < a[k] ==> a[k] <= c + 1)
    ensures Cost(f, b) - Cost(f, a) >= (Sum(b) - Sum(a)) * Slope(f, c)
  {
    if a != [] {
      Tangent(f, c, a[0], b[0]);
      CostBound(f, c, a[1..], b[1..]);
      Distribute(b[0] - a[0], Sum(b[1..]) - Sum(a[1..]), Slope(f, c));
    }
  }

  lemma Distribute(a: int, b: int, k: int)
    ensures (a + b) * k == a * k + b * k
  {}

  /** The total load grows by one per pick. */
  lemma {:induction false} SumLoads(all: set<string>, free: set<string>, taken: set<string>, gpus: seq<string>)
    requires taken <= free
    ensures Sum(Loads(all, free - taken, gpus)) == Sum(Loads(all, free, gpus)) + PickCount(taken, gpus)
  {
    if gpus != [] {
      LoadAfter(all, free, taken, gpus[0]);
      SumLoads(all, free, taken, gpus[1..]);
      assert Loads(all, free - taken, gpus)[1..] == Loads(all, free - taken, gpus[1..]);
      assert Loads(all, free, gpus)[1..] == Loads(all, free, gpus[1..]);
    }
  }

  // ---------- optimality ----------

  /** Balanced choices are optimal: no choice of as many free replicas has a smaller cost. */
  lemma BalancedOptimal(f: int -> int, all: set<string>, free: set<string>,
                        x: set<string>, y: set<string>, gpus: seq<string>)
    requires Convex(f) && Covers(gpus, free)
    requires x <= free && y <= free && |x| == |y|
    requires Balanced(all, free, x)
    ensures Cost(f, Loads(all, free - x, gpus)) <= Cost(f, Loads(all, free - y, gpus))
  {
    if free - x == {} {
      assert x == free;
      SubsetSameSize(y, x);
    } else {
      var c := Threshold(all, free, x, y, gpus);
      SameTotal(all, free, x, y, gpus);
      CostBound(f, c, Loads(all, free - x, gpus), Loads(all, free - y, gpus));
    }
  }

  lemma SameTotal(all: set<string>, free: set<string>, x: set<string>, y: set<string>, gpus: seq<string>)
    requires x <= free && y <= free && |x| == |y| && Covers(gpus, free)
    ensures Sum(Loads(all, free - x, gpus)) == Sum(Loads(all, free - y, gpus))
  {
    SumLoads(all, free, x, gpus);
    SumLoads(all, free, y, gpus);
    PickCountAll(x, gpus);
    PickCountAll(y, gpus);
  }

  /** A load that separates the GPUs `x` loads more than `y` from those it loads less. */
  lemma Threshold(all: set<string>, free: set<string>, x: set<string>, y: set<string>, gpus: seq<string>)
    returns (c: int)
    requires x <= free && y <= free && free - x != {} && Balanced(all, free, x)
    ensures var mine, theirs := Loads(all, free - x, gpus), Loads(all, free - y, gpus);
            forall k :: 0 <= k < |gpus| ==>
              (mine[k] < theirs[k] ==> c <= mine[k]) && (theirs[k] < mine[k] ==> mine[k] <= c + 1)
  {
    var low := LeastLoadedExists(all, free - x, free - x);
    c := Load(all, free - x, GetId(low));
    forall k | 0 <= k < |gpus| {
      LoadBetween(all, free, x, y, low, gpus[k]);
    }
  }

  /** A GPU `y` loads more than `x` still has a free replica after `x`; one it loads less was picked. */
  lemma LoadBetween(all: set<string>, free: set<string>, x: set<string>, y: set<string>, low: string, g: string)
    requires x <= free && y <= free && Balanced(all, free, x)
    requires low in free - x
    requires forall d :: d in free - x ==> Load(all, free - x, GetId(low)) <= Load(all, free - x, GetId(d))
    ensures Load(all, free - x, g) < Load(all, free - y, g) ==>
              Load(all, free - x, GetId(low)) <= Load(all, free - x, g)
    ensures Load(all, free - y, g) < Load(all, free - x, g) ==>
              Load(all, free - x, g) <= Load(all, free - x, GetId(low)) + 1
  {
    LoadAfter(all, free, x, g);
    LoadAfter(all, free, y, g);
    if |Owned(x, g)| < |Owned(y, g)| {
      var extra := ExtraMember(Owned(y, g), Owned(x, g));
      assert extra in free - x;
    } else if |Owned(y, g)| < |Owned(x, g)| {
      var extra := ExtraMember(Owned(x, g), Owned(y, g));
      assert extra in x;
    }
  }

  lemma SubsetSameSize<T>(a: set<T>, b: set<T>)
    requires a <= b && |a| == |b|
    ensures a == b
  {
    assert |b - a| == |b| - |a|;
  }

  lemma SubsetSmaller<T>(a: set<T>, b: set<T>)
    ensures a <= b ==> |a| <= |b|
  {
    if a <= b { assert |b - a| == |b| - |a|; }
  }

  lemma ExtraMember<T>(big: set<T>, small: set<T>) returns (extra: T)
    requires |small| < |big|
    ensures extra in big && extra !in small
  {
    assert !(big <= small) by { SubsetSmaller(big, small); }
    extra :| extra in big && extra !in small;
  }

  ghost function Square(v: int): int { v * v }

  ghost function Above(t: int): int -> int { v => if v > t then v - t else 0 }

  lemma SquareConvex()
    ensures Convex(Square)
  {}

  lemma {:induction false} CostAbove(t: int, loads: seq<int>)
    ensures Cost(Above(t), loads) >= 0
    ensures Cost(Above(t), loads) == 0 <==> forall k :: 0 <= k < |loads| ==> loads[k] <= t
  {
    if loads != [] {
      CostAbove(t, loads[1..]);
      assert loads == [loads[0]] + loads[1..];
    }
  }

  /** Greedy picks minimise every convex cost of the final loads, in particular the sum of squares
      and the largest load, among all choices of as many candidates. */
  lemma GreedyOptimal(all: set<string>, free: set<string>, picks: seq<string>, other: set<string>,
                      gpus: seq<string>, f: int -> int, bound: int)
    requires Greedy(all, free, picks) && Covers(gpus, free)
    requires other <= free && |other| == |picks|
    ensures var mine := Loads(all, free - Elements(picks), gpus);
            var theirs := Loads(all, free - other, gpus);
            && (Convex(f) ==> Cost(f, mine) <= Cost(f, theirs))
            && Cost(Square, mine) <= Cost(Square, theirs)
            && ((forall k :: 0 <= k < |gpus| ==> theirs[k] <= bound) ==>
                 forall k :: 0 <= k < |gpus| ==> mine[k] <= bound)
  {
    var x := Elements(picks);
    GreedyBalanced(all, free, picks);
    NoDupCardinality(picks);
    if Convex(f) { BalancedOptimal(f, all, free, x, other, gpus); }
    SquareConvex();
    BalancedOptimal(Square, all, free, x, other, gpus);
    BalancedOptimal(Above(bound), all, free, x, other, gpus);
    CostAbove(bound, Loads(all, free - x, gpus));
    CostAbove(bound, Loads(all, free - other, gpus));
  }

  // ---------- determinism up to symmetry ----------

  /** How often `v` occurs is a second difference of threshold costs. */
  lemma {:induction false} CountFromCosts(loads: seq<int>, v: int)
    ensures multiset(loads)[v] ==
            Cost(Above(v - 1), loads) - 2 * Cost(Above(v), loads) + Cost(Above(v + 1), loads)
  {
    if loads != [] {
      CountFromCosts(loads[1..], v);
      assert loads == [loads[0]] + loads[1..];
    }
  }

  /** Two greedy runs of the same length, whatever ties each broke, end with the same loads up to
      a permutation of the GPUs. */
  lemma GreedyDeterministic(all: set<string>, free: set<string>, p: seq<string>, q: seq<string>, gpus: seq<string>)
    requires Greedy(all, free, p) && Greedy(all, free, q) && |p| == |q|
    requires Covers(gpus, free)
    ensures multiset(Loads(all, free - Elements(p), gpus)) == multiset(Loads(all, free - Elements(q), gpus))
  {
    var x, y := Elements(p), Elements(q);
    GreedyBalanced(all, free, p);
    GreedyBalanced(all, free, q);
    NoDupCardinality(p);
    NoDupCardinality(q);
    var a, b := Loads(all, free - x, gpus), Loads(all, free - y, gpus);
    forall v ensures multiset(a)[v] == multiset(b)[v] {
      forall t ensures Cost(Above(t), a) == Cost(Above(t), b) {
        BalancedOptimal(Above(t), all, free, x, y, gpus);
        BalancedOptimal(Above(t), all, free, y, x, gpus);
      }
      CountFromCosts(a, v);
      CountFromCosts(b, v);
    }
  }

  // ---------- the allocator itself ----------

  datatype Result<+T> = Success(value: T) | Failure

  /** Replica counters of one GPU. */
  datatype Counter = Counter(total: int, available: int)

  class ResourceManager {
    var devices: DeviceSet

    /** The candidates: available devices of this manager that are not already required. */
    ghost function Candidates(available: seq<string>, required: seq<string>): set<string>
      reads this
    {
      set id | id in devices && id in available && id !in required
    }

    static function Spread(c: Counter): int { c.total - c.available }

    static ghost predicate Counted(ids: seq<string>, replicas: map<string, Counter>) {
      forall c :: c in ids ==> GetId(c) in replicas
    }

    /** No more loaded than any of `ids`. */
    static ghost predicate NoMoreThan(id: string, ids: seq<string>, replicas: map<string, Counter>)
      requires GetId(id) in replicas && Counted(ids, replicas)
    {
      forall c :: c in ids ==> Spread(replicas[GetId(id)]) <= Spread(replicas[GetId(c)])
    }

    static ghost predicate ByLoad(sorted: seq<string>, replicas: map<string, Counter>)
      requires Counted(sorted, replicas)
    {
      forall i, j :: 0 <= i < j < |sorted| ==>
        Spread(replicas[GetId(sorted[i])]) <= Spread(replicas[GetId(sorted[j])])
    }

    /** Every sorted candidate is no more loaded than any of the rest. */
    static ghost predicate Below(sorted: seq<string>, rest: seq<string>, replicas: map<string, Counter>)
      requires Counted(sorted, replicas) && Counted(rest, replicas)
    {
      forall s :: s in sorted ==> NoMoreThan(s, rest, replicas)
    }

    /** Moving a least loaded candidate from the rest behind the sorted ones keeps them sorted. */
    static lemma ByLoadSnoc(sorted: seq<string>, rest: seq<string>, id: string, others: seq<string>,
                            replicas: map<string, Counter>)
      requires Counted(sorted, replicas) && Counted(rest, replicas)
      requires ByLoad(sorted, replicas) && Below(sorted, rest, replicas)
      requires id in rest && NoMoreThan(id, rest, replicas) && forall c :: c in others ==> c in rest
      ensures Counted(sorted + [id], replicas) && Counted(others, replicas)
      ensures ByLoad(sorted + [id], replicas) && Below(sorted + [id], others, replicas)
    {
      forall s | s in sorted ensures Spread(replicas[GetId(s)]) <= Spread(replicas[GetId(id)]) {
        assert NoMoreThan(s, rest, replicas);
      }
    }

    /** Taking out position `k`. */
    static lemma TakeOut(rest: seq<string>, k: nat)
      requires k < |rest|
      ensures var others := rest[..k] + rest[k + 1..];
        multiset(rest) == multiset(others) + multiset{rest[k]} && forall c :: c in others ==> c in rest
    {
      assert rest == rest[..k] + [rest[k]] + rest[k + 1..];
    }

    /** Sort the candidates by load. `sort.Slice` is not stable, so equal loads come in any order. */
    method SortByLoad(candidates: seq<string>, replicas: map<string, Counter>) returns (sorted: seq<string>)
      requires Counted(candidates, replicas)
      ensures multiset(sorted) == multiset(candidates)
      ensures Counted(sorted, replicas) && ByLoad(sorted, replicas)
    {
      sorted := [];
      var rest := candidates;
      while rest != []
        invariant multiset(sorted) + multiset(rest) == multiset(candidates)
        invariant Counted(sorted, replicas) && Counted(rest, replicas)
        invariant ByLoad(sorted, replicas) && Below(sorted, rest, replicas)
        decreases |rest|
      {
        hide *;
        var k := PickMinimum(rest, replicas);
        TakeOut(rest, k);
        ByLoadSnoc(sorted, rest, rest[k], rest[..k] + rest[k + 1..], replicas);
        sorted := sorted + [rest[k]];
        rest := rest[..k] + rest[k + 1..];
      }
    }

    /** Some position of a least loaded candidate. */
    static method PickMinimum(rest: seq<string>, replicas: map<string, Counter>) returns (k: nat)
      requires rest != [] && Counted(rest, replicas)
      ensures k < |rest| && NoMoreThan(rest[k], rest, replicas)
    {
      k := 0;
      for i := 1 to |rest|
        invariant k < i
        invariant forall j :: 0 <= j < i ==> Spread(replicas[GetId(rest[k])]) <= Spread(replicas[GetId(rest[j])])
      {
        if Spread(replicas[GetId(rest[i])]) < Spread(replicas[GetId(rest[k])]) { k := i; }
        else if Spread(replicas[GetId(rest[i])]) == Spread(replicas[GetId(rest[k])]) {
          if * { k := i; }
        }
      }
    }

    /** The counters hold, per GPU of a candidate, its replicas and those still free. */
    static ghost predicate CountersMatch(replicas: map<string, Counter>, all: set<string>, free: set<string>) {
      && (forall c :: c in free ==> GetId(c) in replicas)
      && forall g :: g in replicas ==> replicas[g] == Counter(|Owned(all, g)|, |Owned(free, g)|)
    }

    static lemma OwnedAdd(ids: set<string>, id: string)
      requires id !in ids
      ensures forall g :: |Owned(ids + {id}, g)| == |Owned(ids, g)| + if g == GetId(id) then 1 else 0
    {
      forall g ensures |Owned(ids + {id}, g)| == |Owned(ids, g)| + if g == GetId(id) then 1 else 0 {
        assert Owned(ids + {id}, g) == Owned(ids, g) + if g == GetId(id) then {id} else {};
      }
    }

    /** Count the free replicas per GPU. */
    static method CountAvailable(candidates: seq<string>) returns (replicas: map<string, Counter>)
      requires NoDup(candidates)
      ensures CountersMatch(replicas, {}, Elements(candidates))
    {
      replicas := map[];
      for k := 0 to |candidates|
        invariant CountersMatch(replicas, {}, Elements(candidates[..k]))
        invariant forall g :: g !in replicas ==> Owned(Elements(candidates[..k]), g) == {}
      {
        var id := GetId(candidates[k]);
        ghost var seen := Elements(candidates[..k]);
        assert candidates[..k + 1] == candidates[..k] + [candidates[k]];
        ElementsSnoc(candidates[..k], candidates[k]);
        OwnedAdd(seen, candidates[k]);
        if id !in replicas { replicas := replicas[id := Counter(0, 0)]; }
        replicas := replicas[id := replicas[id].(available := replicas[id].available + 1)];
      }
      assert candidates[..|candidates|] == candidates;
    }

    /** Count all replicas of the GPUs already listed. */
    method CountTotals(counted: map<string, Counter>, ghost free: set<string>) returns (replicas: map<string, Counter>)
      requires CountersMatch(counted, {}, free)
      ensures CountersMatch(replicas, devices.Keys, free)
    {
      replicas := counted;
      var todo, ids := devices.Keys, devices.Keys;
      ghost var done: set<string> := {};
      while todo != {}
        invariant done == ids - todo && todo <= ids
        invariant CountersMatch(replicas, done, free)
        decreases todo
      {
        var d :| d in todo;
        var id := GetId(d);
        OwnedAdd(done, d);
        todo, done := todo - {d}, done + {d};
        if id in replicas {
          replicas := replicas[id := replicas[id].(total := replicas[id].total + 1)];
        }
      }
      assert done == devices.Keys;
    }

    /** Handing out one replica keeps the counters exact. */
    static lemma CountersAfterTake(replicas: map<string, Counter>, all: set<string>, free: set<string>, first: string)
      requires CountersMatch(replicas, all, free) && first in free
      ensures GetId(first) in replicas
      ensures var id := GetId(first);
              CountersMatch(replicas[id := replicas[id].(available := replicas[id].available - 1)], all, free - {first})
    {
      OwnedAdd(free - {first}, first);
      assert free - {first} + {first} == free;
    }

    /** The head of the sorted candidates is a least loaded one. */
    static lemma SortedHead(replicas: map<string, Counter>, all: set<string>, sorted: seq<string>)
      requires sorted != [] && CountersMatch(replicas, all, Elements(sorted))
      requires Counted(sorted, replicas) && ByLoad(sorted, replicas)
      ensures LeastLoaded(all, Elements(sorted), sorted[0])
    {}

    /** The candidates in map-iteration order. */
    method ListCandidates(available: seq<string>, required: seq<string>) returns (candidates: seq<string>)
      requires Keyed(devices)
      ensures NoDup(candidates) && Elements(candidates) == Candidates(available, required)
      ensures |candidates| == |Candidates(available, required)|
      ensures forall id :: id in candidates <==> id in devices && id in available && id !in required
    {
      var avail := Subset(devices, available);
      var req := Subset(devices, required);
      var diff := Difference(avail, req);
      candidates := GetIds(diff);
      assert diff.Keys == Candidates(available, required);
      assert forall id :: id in candidates <==> id in Elements(candidates);
      NoDupCardinality(candidates);
    }

    /** One round of the loop: sort, hand out the head, decrement its GPU's counter. */
    method TakeOne(candidates: seq<string>, replicas: map<string, Counter>)
      returns (first: string, rest: seq<string>, counters: map<string, Counter>)
      requires candidates != [] && NoDup(candidates)
      requires CountersMatch(replicas, devices.Keys, Elements(candidates))
      ensures LeastLoaded(devices.Keys, Elements(candidates), first)
      ensures NoDup(rest) && |rest| == |candidates| - 1
      ensures Elements(rest) == Elements(candidates) - {first}
      ensures CountersMatch(counters, devices.Keys, Elements(rest))
    {
      var sorted := SortByLoad(candidates, replicas);
      SameElements(candidates, sorted);
      SortedHead(replicas, devices.Keys, sorted);
      CountersAfterTake(replicas, devices.Keys, Elements(sorted), sorted[0]);
      TailElements(sorted);
      first := sorted[0];
      var id := GetId(first);
      counters := replicas[id := replicas[id].(available := replicas[id].available - 1)];
      rest := sorted[1..];
    }

    /** Hand out `needed` candidates one by one. */
    method TakeMany(candidates: seq<string>, counted: map<string, Counter>, needed: int) returns (picks: seq<string>)
      requires NoDup(candidates) && needed <= |candidates|
      requires CountersMatch(counted, devices.Keys, Elements(candidates))
      ensures |picks| == if needed < 0 then 0 else needed
      ensures Greedy(devices.Keys, Elements(candidates), picks)
    {
      ghost var free := Elements(candidates);
      var rest, replicas := candidates, counted;
      picks := [];
      assert free - Elements(picks) == free;
      var i := 0;
      while i < needed
        invariant |picks| == i && (i <= needed || i == 0)
        invariant |rest| == |candidates| - i && NoDup(rest)
        invariant Greedy(devices.Keys, free, picks)
        invariant Elements(rest) == free - Elements(picks)
        invariant CountersMatch(replicas, devices.Keys, Elements(rest))
      {
        var first;
        first, rest, replicas := TakeOne(rest, replicas);
        GreedySnoc(devices.Keys, free, picks, first);
        ElementsSnoc(picks, first);
        picks := picks + [first];
        i := i + 1;
      }
    }

    /** The preferred allocation: `required`, then the missing number of candidates, each taken from
        a least loaded GPU. A candidate is a device that is available and not required already. */
    method DistributedAlloc(available: seq<string>, required: seq<string>, size: int)
      returns (r: Result<seq<string>>)
      requires Keyed(devices)
      ensures r.Failure? <==> |set id | id in devices && id in available && id !in required| < size - |required|
      ensures r.Success? ==>
                && required <= r.value
                && |r.value| == (if size < |required| then |required| else size)
                && Greedy(devices.Keys, Candidates(available, required), r.value[|required|..])
                && NoDup(r.value[|required|..])
                && forall id :: id in r.value[|required|..] ==> id in devices && id in available && id !in required
    {
      hide Greedy;
      var candidates := ListCandidates(available, required);
      var needed := size - |required|;
      if |candidates| < needed { return Failure; }
      var replicas := CountAvailable(candidates);
      replicas := CountTotals(replicas, Elements(candidates));
      var picks := TakeMany(candidates, replicas, needed);
      r := Success(required + picks);
      assert r.value[|required|..] == picks;
      GreedyBalanced(devices.Keys, Candidates(available, required), picks);
      assert forall id :: id in picks ==> id in Elements(picks);
    }

    static lemma TailElements(s: seq<string>)
      requires s != [] && NoDup(s)
      ensures Elements(s[1..]) == Elements(s) - {s[0]} && NoDup(s[1..])
    {}

    static lemma SameElements(a: seq<string>, b: seq<string>)
      requires NoDup(a) && multiset(a) == multiset(b)
      ensures NoDup(b) && Elements(a) == Elements(b) && |a| == |b|
    {
      assert |multiset(a)| == |a| && |multiset(b)| == |b|;
      forall x ensures x in a <==> x in b { assert x in multiset(a) <==> x in multiset(b); }
      forall i, j | 0 <= i < j < |b| ensures b[i] != b[j] {
        if b[i] == b[j] {
          assert b == b[..i] + [b[i]] + b[i + 1..j] + [b[j]] + b[j + 1..];
          assert multiset(b)[b[i]] >= 2;
          OnceInNoDup(a, b[i]);
        }
      }
    }

    static lemma {:induction false} OnceInNoDup(a: seq<string>, x: string)
      requires NoDup(a)
      ensures multiset(a)[x] <= 1
    {
      if a != [] {
        assert a == [a[0]] + a[1..];
        OnceInNoDup(a[1..], x);
      }
    }
  }
}
