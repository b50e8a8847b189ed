/** The memory-device list and the advice given when it is too long (pkg/plugin/server.go). */
module DeviceEntries {
  import opened Text

  const ENTRY_LIMIT := 60000
  const MIB := 1024 * 1024
  const TWO_TO_THE_64 := 0x1_0000_0000_0000_0000

  datatype Gpu = Gpu(id: string, totalMemory: nat)

  function Mebibytes(g: Gpu): nat { g.totalMemory / MIB }

  function EntryId(id: string, i: nat): string { id + "-memory-" + Digits(i) }

  /** The IDs listed for one GPU: one per `factor` mebibytes. */
  function EntriesOf(g: Gpu, factor: nat): (ids: seq<string>)
    requires factor > 0
  {
    seq(Mebibytes(g) / factor, i requires 0 <= i < Mebibytes(g) / factor => EntryId(g.id, i))
  }

  function Entries(gpus: seq<Gpu>, factor: nat): seq<string>
    requires factor > 0
  {
    if gpus == [] then [] else EntriesOf(gpus[0], factor) + Entries(gpus[1..], factor)
  }

  function Count(gpus: seq<Gpu>, factor: nat): nat
    requires factor > 0
  {
    if gpus == [] then 0 else Mebibytes(gpus[0]) / factor + Count(gpus[1..], factor)
  }

  function TotalMebibytes(gpus: seq<Gpu>): nat {
    if gpus == [] then 0 else Mebibytes(gpus[0]) + TotalMebibytes(gpus[1..])
  }

  lemma {:induction false} EntriesSnoc(gpus: seq<Gpu>, g: Gpu, factor: nat)
    requires factor > 0
    ensures Entries(gpus + [g], factor) == Entries(gpus, factor) + EntriesOf(g, factor)
  {
    if gpus == [] {
      assert gpus + [g] == [g] && Entries([g][1..], factor) == [];
    } else {
      assert (gpus + [g])[1..] == gpus[1..] + [g];
      EntriesSnoc(gpus[1..], g, factor);
    }
  }

  method ListMemoryDevices(gpus: seq<Gpu>, factor: nat) returns (res: seq<string>)
    requires factor > 0
    ensures res == Entries(gpus, factor)
  {
    res := [];
    for k := 0 to |gpus|
      invariant res == Entries(gpus[..k], factor)
    {
      ghost var before := res;
      var registered := gpus[k].totalMemory / MIB / factor;
      var i := 0;
      while i < registered
        invariant 0 <= i <= registered
        invariant res == before + EntriesOf(gpus[k], factor)[..i]
      {
        res := res + [EntryId(gpus[k].id, i)];
        i := i + 1;
      }
      EntriesSnoc(gpus[..k], gpus[k], factor);
      assert gpus[..k + 1] == gpus[..k] + [gpus[k]];
    }
    assert gpus[..|gpus|] == gpus;
  }

  /** The entries of a GPU, one by one: as many as its memory holds MiB, divided by the factor and rounded
      down, numbered from 0 behind its ID. */
  lemma EntryText(g: Gpu, factor: nat, i: nat)
    requires factor > 0
    ensures |EntriesOf(g, factor)| == g.totalMemory / 1048576 / factor
    ensures i < |EntriesOf(g, factor)| ==> EntriesOf(g, factor)[i] == g.id + "-memory-" + FormatInt(i)
  {}

  /** A list is too long for advice-free operation from 60001 entries on. */
  lemma AdviceFrom(count: nat, factor: nat)
    ensures Advice(count, factor).Some? <==> count > 60000
  {}

  lemma {:induction false} EntriesCount(gpus: seq<Gpu>, factor: nat)
    requires factor > 0
    ensures |Entries(gpus, factor)| == Count(gpus, factor)
  {
    if gpus != [] { EntriesCount(gpus[1..], factor); }
  }

  // ---------- distinct IDs ----------

  /** The number after the last dash tells entries apart, whatever the GPU IDs look like. */
  lemma EntryIdInjective(a: string, i: nat, b: string, j: nat)
    requires EntryId(a, i) == EntryId(b, j)
    ensures a == b && i == j
  {
    assert "-memory-" == "-memory" + "-";
    assert EntryId(a, i) == a + "-memory" + "-" + Digits(i);
    assert EntryId(b, j) == b + "-memory" + "-" + Digits(j);
    AfterLastSep(a + "-memory", Digits(i), b + "-memory", Digits(j), '-');
    DigitsInjective(i, j);
    assert a == (a + "-memory")[..|a|] && b == (b + "-memory")[..|b|];
  }

  lemma {:induction false} EntryOrigin(gpus: seq<Gpu>, factor: nat, id: string) returns (k: nat, i: nat)
    requires factor > 0 && id in Entries(gpus, factor)
    ensures k < |gpus| && id == EntryId(gpus[k].id, i)
  {
    if id in EntriesOf(gpus[0], factor) {
      k := 0;
      i :| 0 <= i < |EntriesOf(gpus[0], factor)| && EntriesOf(gpus[0], factor)[i] == id;
    } else {
      k, i := EntryOrigin(gpus[1..], factor, id);
      k := k + 1;
    }
  }

  /** GPUs with distinct IDs give a list of distinct entries. */
  lemma {:induction false} EntriesDistinct(gpus: seq<Gpu>, factor: nat)
    requires factor > 0
    requires forall j, k :: 0 <= j < k < |gpus| ==> gpus[j].id != gpus[k].id
    ensures forall p, q :: 0 <= p < q < |Entries(gpus, factor)| ==> Entries(gpus, factor)[p] != Entries(gpus, factor)[q]
  {
    if gpus != [] {
      EntriesDistinct(gpus[1..], factor);
      var own, rest := EntriesOf(gpus[0], factor), Entries(gpus[1..], factor);
      forall p, q | 0 <= p < q < |own + rest| ensures (own + rest)[p] != (own + rest)[q] {
        if (own + rest)[p] == (own + rest)[q] {
          if q < |own| {
            EntryIdInjective(gpus[0].id, p, gpus[0].id, q);
          } else if p < |own| {
            var k, i := EntryOrigin(gpus[1..], factor, rest[q - |own|]);
            EntryIdInjective(gpus[0].id, p, gpus[1..][k].id, i);
          }
        }
      }
    }
  }

  // ---------- the advice ----------

  /** The factor advised for a list that is too long, in 64-bit unsigned arithmetic. */
  function Advice(count: nat, factor: nat): Option<nat> {
    if count <= ENTRY_LIMIT then None
    else Some((factor * count + ENTRY_LIMIT - 1) % TWO_TO_THE_64 / ENTRY_LIMIT)
  }

  /** A node whose memory is far from overflowing the computation of the advice. */
  ghost predicate Realistic(gpus: seq<Gpu>) { TotalMebibytes(gpus) + ENTRY_LIMIT < TWO_TO_THE_64 }

  /** The mebibytes the list leaves over: what rounding down drops, GPU by GPU. */
  function Leftover(gpus: seq<Gpu>, factor: nat): nat
    requires factor > 0
  {
    if gpus == [] then 0 else Mebibytes(gpus[0]) % factor + Leftover(gpus[1..], factor)
  }

  /** One more GPU of `m` mebibytes beside `n` others. */
  lemma OneMoreGpu(factor: nat, m: nat, c: nat, n: nat)
    requires factor > 0
    ensures m + factor * c == factor * (m / factor + c) + m % factor
    ensures m % factor + n * (factor - 1) <= (n + 1) * (factor - 1)
  {
    assert m == factor * (m / factor) + m % factor;
    assert factor * (m / factor + c) == factor * (m / factor) + factor * c;
    assert (n + 1) * (factor - 1) == n * (factor - 1) + (factor - 1);
  }

  /** The list covers all the memory but the leftovers, which are less than one factor per GPU. */
  lemma {:induction false} CountCovers(gpus: seq<Gpu>, factor: nat)
    requires factor > 0
    ensures TotalMebibytes(gpus) == factor * Count(gpus, factor) + Leftover(gpus, factor)
    ensures Leftover(gpus, factor) <= |gpus| * (factor - 1)
  {
    hide Mebibytes;
    if gpus != [] {
      CountCovers(gpus[1..], factor);
      OneMoreGpu(factor, Mebibytes(gpus[0]), Count(gpus[1..], factor), |gpus| - 1);
    }
  }

  /** On a realistic node the advice is the quotient rounded up, and larger than the factor. */
  lemma AdviceExceeds(gpus: seq<Gpu>, factor: nat)
    requires factor > 0 && Realistic(gpus) && Count(gpus, factor) > ENTRY_LIMIT
    ensures var a := Advice(Count(gpus, factor), factor).value;
      a > factor && a * ENTRY_LIMIT >= factor * Count(gpus, factor) > (a - 1) * ENTRY_LIMIT
  {
    CountCovers(gpus, factor);
    RoundUp(factor, Count(gpus, factor));
  }

  lemma RoundUp(factor: nat, count: nat)
    requires factor > 0 && count > ENTRY_LIMIT && factor * count + ENTRY_LIMIT < TWO_TO_THE_64
    ensures var a := Advice(count, factor).value;
      a > factor && a * ENTRY_LIMIT >= factor * count > (a - 1) * ENTRY_LIMIT
  {}

  /** Listing again with the advised factor leaves fewer entries than the limit plus the number of
      GPUs, and at most the limit when the factor was 1. */
  lemma AdviceBound(gpus: seq<Gpu>, factor: nat)
    requires factor > 0 && Realistic(gpus) && Count(gpus, factor) > ENTRY_LIMIT
    ensures var a := Advice(Count(gpus, factor), factor).value;
      && a > 0 && Count(gpus, a) < ENTRY_LIMIT + |gpus|
      && (factor == 1 ==> Count(gpus, a) <= ENTRY_LIMIT)
  {
    AdviceExceeds(gpus, factor);
    var a := Advice(Count(gpus, factor), factor).value;
    CountCovers(gpus, factor);
    CountCovers(gpus, a);
    assert gpus != [];
    RoundingSlack(a, factor, Count(gpus, a), factor * Count(gpus, factor), TotalMebibytes(gpus), |gpus|);
  }

  lemma RoundingSlack(a: nat, factor: nat, c: nat, covered: nat, total: nat, n: nat)
    requires a > factor > 0 && n > 0
    requires a * ENTRY_LIMIT >= covered && total <= covered + n * (factor - 1) && a * c <= total
    ensures c < ENTRY_LIMIT + n && (factor == 1 ==> c <= ENTRY_LIMIT)
  {
    assert n * (factor - 1) < n * a by { Smaller(n, factor - 1, a); }
    assert a * (ENTRY_LIMIT + n) == a * ENTRY_LIMIT + n * a;
    Cancel(a, c, ENTRY_LIMIT + n);
    if factor == 1 {
      assert a * (ENTRY_LIMIT + 1) == a * ENTRY_LIMIT + a;
      Cancel(a, c, ENTRY_LIMIT + 1);
    }
  }

  lemma Smaller(k: nat, a: int, b: int)
    requires k > 0 && a < b
    ensures k * a < k * b
  {}

  lemma Cancel(k: nat, a: int, b: int)
    requires k > 0 && k * a < k * b
    ensures a < b
  {}

  lemma Monotone(k: nat, a: int, b: int)
    requires a <= b
    ensures k * a <= k * b
  {}

  /** What rounding the advised factor up adds: the memory it makes room for beyond the old list's. */
  function Slack(gpus: seq<Gpu>, factor: nat, advised: nat): int
    requires factor > 0
  {
    advised * ENTRY_LIMIT - factor * Count(gpus, factor)
  }

  /** The advised factor is enough whenever what the old list left over is less than it, which holds in
      particular on nodes of few GPUs. What decides in general is what the new list leaves over: by
      `CountCovers` that amount and the number of new entries determine each other, so the equivalence
      only says in terms of memory which node fails, and `AdviceJustEnough` shows that nothing in the
      totals of the old list alone could. */
  lemma AdviceEnoughIff(gpus: seq<Gpu>, factor: nat)
    requires factor > 0 && Realistic(gpus) && Count(gpus, factor) > ENTRY_LIMIT
    ensures var a := Advice(Count(gpus, factor), factor).value;
      && a > factor
      && (Count(gpus, a) <= ENTRY_LIMIT <==>
            Leftover(gpus, factor) < Leftover(gpus, a) + Slack(gpus, factor, a) + a)
      && (Leftover(gpus, factor) < a ==> Count(gpus, a) <= ENTRY_LIMIT)
      && (|gpus| * (factor - 1) < a ==> Count(gpus, a) <= ENTRY_LIMIT)
  {
    AdviceExceeds(gpus, factor);
    var a := Advice(Count(gpus, factor), factor).value;
    CountCovers(gpus, factor);
    CountCovers(gpus, a);
    FitsIff(a, Count(gpus, a));
  }

  /** At most the limit, as a statement about the memory the entries take. */
  lemma FitsIff(a: nat, c: nat)
    requires a > 0
    ensures c <= ENTRY_LIMIT <==> a * c < a * ENTRY_LIMIT + a
  {
    assert a * (ENTRY_LIMIT + 1) == a * ENTRY_LIMIT + a;
    if c <= ENTRY_LIMIT { Monotone(a, c, ENTRY_LIMIT); } else { Monotone(a, ENTRY_LIMIT + 1, c); }
  }

  // ---------- following the advice ----------

  /** The factor after `k` rounds of taking the advice, which stays once there is none. */
  ghost function Advised(gpus: seq<Gpu>, factor: nat, k: nat): (f: nat)
    requires factor > 0 && Realistic(gpus)
    ensures f >= factor
  {
    if k == 0 then factor
    else
      var before := Advised(gpus, factor, k - 1);
      match Advice(Count(gpus, before), before)
      case None => before
      case Some(a) => AdviceExceeds(gpus, before); a
  }

  /** While there is advice, every round raises the factor. */
  lemma {:induction false} AdvisedGrows(gpus: seq<Gpu>, factor: nat, k: nat)
    requires factor > 0 && Realistic(gpus)
    requires forall j: nat :: j < k ==> Count(gpus, Advised(gpus, factor, j)) > ENTRY_LIMIT
    ensures Advised(gpus, factor, k) >= factor + k
  {
    if k > 0 {
      AdvisedGrows(gpus, factor, k - 1);
      var before := Advised(gpus, factor, k - 1);
      assert Count(gpus, before) > ENTRY_LIMIT;
      AdviceExceeds(gpus, before);
    }
  }

  /** A round with advice still to come bounds the rounds so far by the memory. */
  lemma RoundsBounded(gpus: seq<Gpu>, factor: nat, k: nat)
    requires factor > 0 && Realistic(gpus)
    requires forall j: nat :: j <= k ==> Count(gpus, Advised(gpus, factor, j)) > ENTRY_LIMIT
    ensures (k + 1) * ENTRY_LIMIT <= TotalMebibytes(gpus)
  {
    AdvisedGrows(gpus, factor, k);
    var f := Advised(gpus, factor, k);
    CountCovers(gpus, f);
    Monotone(f, ENTRY_LIMIT, Count(gpus, f));
    Monotone(ENTRY_LIMIT, k + 1, f);
  }

  /** Taking the advice again and again comes to an end: after some number of rounds, at most one for
      every 60000 mebibytes of the node, there is no more advice, because the list fits. */
  lemma AdviceSettles(gpus: seq<Gpu>, factor: nat) returns (k: nat)
    requires factor > 0 && Realistic(gpus)
    ensures var f := Advised(gpus, factor, k); Advice(Count(gpus, f), f) == None && Count(gpus, f) <= ENTRY_LIMIT
    ensures forall j: nat :: j < k ==> Advice(Count(gpus, Advised(gpus, factor, j)), Advised(gpus, factor, j)).Some?
    ensures k * ENTRY_LIMIT <= TotalMebibytes(gpus)
  {
    k := 0;
    while Count(gpus, Advised(gpus, factor, k)) > ENTRY_LIMIT
      invariant forall j: nat :: j < k ==> Count(gpus, Advised(gpus, factor, j)) > ENTRY_LIMIT
      invariant k * ENTRY_LIMIT <= TotalMebibytes(gpus)
      decreases TotalMebibytes(gpus) - k * ENTRY_LIMIT
    {
      RoundsBounded(gpus, factor, k);
      k := k + 1;
    }
  }

  // ---------- one round is not always enough ----------

  function Gpus(mebibytes: seq<nat>): (gpus: seq<Gpu>)
    ensures |gpus| == |mebibytes|
    ensures forall k :: 0 <= k < |gpus| ==> Mebibytes(gpus[k]) == mebibytes[k]
  {
    seq(|mebibytes|, k requires 0 <= k < |mebibytes| => Gpu(Digits(k), mebibytes[k] * MIB))
  }

  function Quotients(mebibytes: seq<nat>, factor: nat): nat
    requires factor > 0
  {
    if mebibytes == [] then 0 else mebibytes[0] / factor + Quotients(mebibytes[1..], factor)
  }

  function Remainders(mebibytes: seq<nat>, factor: nat): nat
    requires factor > 0
  {
    if mebibytes == [] then 0 else mebibytes[0] % factor + Remainders(mebibytes[1..], factor)
  }

  lemma {:induction false} CountOf(gpus: seq<Gpu>, mebibytes: seq<nat>, factor: nat)
    requires factor > 0 && |gpus| == |mebibytes|
    requires forall k :: 0 <= k < |gpus| ==> Mebibytes(gpus[k]) == mebibytes[k]
    ensures Count(gpus, factor) == Quotients(mebibytes, factor)
    ensures Leftover(gpus, factor) == Remainders(mebibytes, factor)
  {
    if gpus != [] { CountOf(gpus[1..], mebibytes[1..], factor); }
  }

  /** `n` GPUs of one size and some others. */
  function Repeat(n: nat, m: nat, others: seq<nat>): seq<nat> {
    if n == 0 then others else [m] + Repeat(n - 1, m, others)
  }

  lemma {:induction false} EqualFirst(n: nat, m: nat, others: seq<nat>, factor: nat, q: nat, r: nat)
    requires factor > 0 && q == m / factor && r == m % factor
    ensures Quotients(Repeat(n, m, others), factor) == n * q + Quotients(others, factor)
    ensures Remainders(Repeat(n, m, others), factor) == n * r + Remainders(others, factor)
  {
    hide Quotients, Remainders;
    if n > 0 {
      EqualFirst(n - 1, m, others, factor, q, r);
      Next(n, q);
      Next(n, r);
      OneInFront(m, Repeat(n - 1, m, others), factor);
    }
  }

  lemma OneInFront(m: nat, others: seq<nat>, factor: nat)
    requires factor > 0
    ensures Quotients([m] + others, factor) == m / factor + Quotients(others, factor)
    ensures Remainders([m] + others, factor) == m % factor + Remainders(others, factor)
  {
    assert ([m] + others)[1..] == others;
  }

  lemma Next(n: nat, q: nat)
    requires n > 0
    ensures n * q == (n - 1) * q + q
  {}

  /** `n` GPUs of `m` mebibytes and one each of the other sizes. */
  function Node(n: nat, m: nat, others: seq<nat>): seq<Gpu> { Gpus(Repeat(n, m, others)) }

  lemma NodeCount(n: nat, m: nat, others: seq<nat>, factor: nat)
    requires factor > 0
    ensures Count(Node(n, m, others), factor) == n * (m / factor) + Quotients(others, factor)
    ensures Leftover(Node(n, m, others), factor) == n * (m % factor) + Remainders(others, factor)
  {
    hide Count, Leftover, Quotients, Remainders, Repeat;
    CountOf(Node(n, m, others), Repeat(n, m, others), factor);
    EqualFirst(n, m, others, factor, m / factor, m % factor);
  }

  lemma OneMore(m: nat, factor: nat)
    requires factor > 0
    ensures Quotients([m], factor) == m / factor && Remainders([m], factor) == m % factor
  {
    assert [m][1..] == [];
  }

  lemma TwoMore(m: nat, m': nat, factor: nat)
    requires factor > 0
    ensures Quotients([m, m'], factor) == m / factor + m' / factor
    ensures Remainders([m, m'], factor) == m % factor + m' % factor
  {
    assert [m, m'][1..] == [m'];
    OneMore(m', factor);
  }

  /** From a factor above 1 the advised factor may still be too small, on an ordinary node: seven GPUs of
      82489 MiB and one of 82588 MiB have 65994 entries at factor 10 and 60001 at the advised factor 11. */
  lemma AdviceTooSmall()
    ensures var gpus := Node(7, 82489, [82588]);
      && Count(gpus, 10) == 65994 && Leftover(gpus, 10) == 71
      && Advice(65994, 10) == Some(11)
      && Count(gpus, 11) == 60001 > ENTRY_LIMIT
  {
    hide Node, Count, Leftover, Quotients, Remainders;
    NodeCount(7, 82489, [82588], 10);
    NodeCount(7, 82489, [82588], 11);
    OneMore(82588, 10);
    OneMore(82588, 11);
  }

  /** Moving 10 MiB between two GPUs of that node changes neither the number of GPUs, nor the entries, nor
      what they leave over at factor 10, and makes the same advice enough: a condition that is exact has
      to look at what the new list leaves over. */
  lemma AdviceJustEnough()
    ensures var gpus := Node(6, 82489, [82479, 82598]);
      && Count(gpus, 10) == 65994 && Leftover(gpus, 10) == 71
      && Count(gpus, 11) == ENTRY_LIMIT
  {
    hide Node, Count, Leftover, Quotients, Remainders;
    NodeCount(6, 82489, [82479, 82598], 10);
    NodeCount(6, 82489, [82479, 82598], 11);
    TwoMore(82479, 82598, 10);
    TwoMore(82479, 82598, 11);
  }
}
