/**
 * A round robin: one stake on every combination of the stated sizes. The
 * expansion is the odometer's enumeration, size by size.
 */
module RoundRobins {
  import opened Prelude
  import opened Ids
  import opened Money
  import opened Legs
  import opened Wagers
  import opened Combinations
  import Radix

  const MAX_ROUND_ROBIN_LEGS := 10

  predicate Increasing(s: seq<int>) { forall i, j | 0 <= i < j < |s| :: s[i] < s[j] }

  lemma InFront(x: int, s: seq<int>)
    requires Increasing(s) && forall v | v in s :: x < v
    ensures Increasing([x] + s)
    ensures forall v :: v in [x] + s <==> v == x || v in s
  {
    assert forall i | 0 <= i < |s| :: s[i] in s;
  }

  lemma FirstIsLeast(s: seq<int>)
    requires Increasing(s) && s != []
    ensures Increasing(s[1..]) && (forall v | v in s[1..] :: s[0] < v)
    ensures forall v :: v in s <==> v == s[0] || v in s[1..]
  {
    assert s == [s[0]] + s[1..];
  }

  function Insert(x: int, s: seq<int>): (r: seq<int>)
    requires Increasing(s)
    ensures Increasing(r)
    ensures forall v :: v in r <==> v == x || v in s
  {
    if s == [] then [x]
    else
      FirstIsLeast(s);
      if x < s[0] then
        InFront(x, s);
        [x] + s
      else if x == s[0] then s
      else
        var rest := Insert(x, s[1..]);
        InFront(s[0], rest);
        [s[0]] + rest
  }

  /** Sorted and de-duplicated. */
  function SortedDistinct(s: seq<int>): (r: seq<int>)
    ensures Increasing(r)
    ensures forall v :: v in r <==> v in s
  {
    if s == [] then []
    else
      assert forall v :: v in s <==> v in s[..|s| - 1] || v == s[|s| - 1];
      Insert(s[|s| - 1], SortedDistinct(s[..|s| - 1]))
  }

  datatype RoundRobin = RoundRobin(id: string, userId: string, legs: seq<Leg>, sizes: seq<int>,
                                   stakePerCombination: Int64, placedAt: Time) {

    predicate Valid() {
      && ValidId(id) && ValidId(userId)
      && LegSetOk(legs) && 2 <= |legs| <= MAX_ROUND_ROBIN_LEGS
      && sizes != [] && Increasing(sizes) && (forall i | 0 <= i < |sizes| :: 2 <= sizes[i] <= |legs|)
      && stakePerCombination > 0
      && placedAt != ZERO_TIME
    }
  }

  datatype RoundRobinParams = RoundRobinParams(id: string, userId: string, legs: seq<Leg>, sizes: seq<int>,
                                               stakePerCombination: Int64, placedAt: Time)

  function NewRoundRobin(p: RoundRobinParams): (r: Option<RoundRobin>)
    ensures r.Some? <==>
            && ValidId(p.id) && ValidId(p.userId)
            && LegSetOk(p.legs) && 2 <= |p.legs| <= MAX_ROUND_ROBIN_LEGS
            && p.sizes != [] && (forall k | k in p.sizes :: 2 <= k <= |p.legs|)
            && p.stakePerCombination > 0 && p.placedAt != ZERO_TIME
    ensures r.Some? ==> r.value.Valid() && forall k :: k in r.value.sizes <==> k in p.sizes
    ensures r.Some? ==> r.value == RoundRobin(p.id, p.userId, p.legs, r.value.sizes, p.stakePerCombination, p.placedAt)
  {
    if !ValidId(p.id) || !ValidId(p.userId) then None
    else if !LegSetOk(p.legs) then None
    else if |p.legs| < 2 || |p.legs| > MAX_ROUND_ROBIN_LEGS then None
    else
      var sizes := SortedDistinct(p.sizes);
      assert p.sizes != [] ==> p.sizes[0] in sizes;
      assert sizes != [] ==> sizes[0] in p.sizes;
      if |sizes| == 0 then None
      else if exists k | k in sizes :: k < 2 || k > |p.legs| then None
      else if p.stakePerCombination <= 0 then None
      else
        assert forall i | 0 <= i < |sizes| :: sizes[i] in sizes;
        if p.placedAt == ZERO_TIME then None
      else Some(RoundRobin(p.id, p.userId, p.legs, sizes, p.stakePerCombination, p.placedAt))
  }

  /** The positions each ticket takes, sizes ascending and then dictionary order. */
  function Plan(n: nat, sizes: seq<int>): seq<seq<nat>>
    requires forall i | 0 <= i < |sizes| :: 2 <= sizes[i]
  {
    if sizes == [] then []
    else Plan(n, sizes[..|sizes| - 1]) + Lex(0, n, sizes[|sizes| - 1])
  }

  ghost predicate InPlan(c: seq<nat>, n: nat, sizes: seq<int>) {
    |c| in sizes && IsSubset(c, 0, n, |c|)
  }

  lemma {:induction false} PlanSound(n: nat, sizes: seq<int>, t: nat)
    requires forall i | 0 <= i < |sizes| :: 2 <= sizes[i]
    requires t < |Plan(n, sizes)|
    ensures InPlan(Plan(n, sizes)[t], n, sizes)
  {
    var init, k := sizes[..|sizes| - 1], sizes[|sizes| - 1];
    if t < |Plan(n, init)| {
      PlanSound(n, init, t);
    } else {
      LexSound(0, n, k, t - |Plan(n, init)|);
    }
  }

  /** Every choice of positions of a stated size is a ticket. */
  lemma {:induction false} PlanComplete(n: nat, sizes: seq<int>, c: seq<nat>) returns (t: nat)
    requires forall i | 0 <= i < |sizes| :: 2 <= sizes[i]
    requires InPlan(c, n, sizes)
    ensures t < |Plan(n, sizes)| && Plan(n, sizes)[t] == c
  {
    var init, k := sizes[..|sizes| - 1], sizes[|sizes| - 1];
    if |c| == k {
      t := LexComplete(0, n, k, c);
      t := t + |Plan(n, init)|;
    } else {
      t := PlanComplete(n, init, c);
    }
  }

  /** Smaller sizes come first, and within a size dictionary order. */
  lemma {:induction false} PlanSorted(n: nat, sizes: seq<int>, s: nat, t: nat)
    requires Increasing(sizes) && forall i | 0 <= i < |sizes| :: 2 <= sizes[i]
    requires s < t < |Plan(n, sizes)|
    ensures var a, b := Plan(n, sizes)[s], Plan(n, sizes)[t]; |a| < |b| || (|a| == |b| && Less(a, b))
  {
    hide Lex, Less, IsSubset;
    var init, k := sizes[..|sizes| - 1], sizes[|sizes| - 1];
    var m := |Plan(n, init)|;
    if t < m {
      PlanSorted(n, init, s, t);
    } else {
      EntrySize(n, k, t - m);
      if s < m {
        SmallerSize(n, init, k, s);
      } else {
        EntrySize(n, k, s - m);
        LexSorted(0, n, k, s - m, t - m);
      }
    }
  }

  lemma EntrySize(n: nat, k: nat, t: nat)
    requires t < |Lex(0, n, k)|
    ensures |Lex(0, n, k)[t]| == k
  {
    hide Lex;
    LexSound(0, n, k, t);
  }

  lemma SmallerSize(n: nat, sizes: seq<int>, k: int, s: nat)
    requires (forall i | 0 <= i < |sizes| :: 2 <= sizes[i] < k) && s < |Plan(n, sizes)|
    ensures |Plan(n, sizes)[s]| < k
  {
    hide Plan;
    PlanSound(n, sizes, s);
  }

  /** So no two tickets take the same positions. */
  lemma PlanDistinct(n: nat, sizes: seq<int>, s: nat, t: nat)
    requires Increasing(sizes) && forall i | 0 <= i < |sizes| :: 2 <= sizes[i]
    requires s < t < |Plan(n, sizes)|
    ensures Plan(n, sizes)[s] != Plan(n, sizes)[t]
  {
    PlanSorted(n, sizes, s, t);
    LessIrreflexive(Plan(n, sizes)[s]);
  }

  /** The first `m` entries of row `n` of Pascal's triangle, added up. */
  function Row(n: nat, m: nat): nat {
    if m == 0 then 0 else Row(n, m - 1) + Binomial(n, m - 1)
  }

  lemma {:induction false} RowPascal(n: nat, m: nat)
    ensures Row(n + 1, m + 1) == Row(n, m + 1) + Row(n, m)
  {
    if m > 0 {
      RowPascal(n, m - 1);
    }
  }

  lemma {:induction false} RowTotal(n: nat)
    ensures Row(n, n + 1) == Radix.Pow(2, n)
  {
    if n > 0 {
      RowTotal(n - 1);
      RowPascal(n - 1, n);
      BinomialAbove(n - 1, n);
    } else {
      assert Row(0, 1) == Row(0, 0) + Binomial(0, 0);
    }
  }

  lemma {:induction false} RowMonotone(n: nat, a: nat, b: nat)
    requires a <= b
    ensures Row(n, a) <= Row(n, b)
  {
    if a < b {
      RowMonotone(n, a, b - 1);
    }
  }

  lemma {:induction false} BinomialOne(n: nat)
    ensures Binomial(n, 1) == n
  {
    if n > 0 {
      BinomialOne(n - 1);
    }
  }

  /** Sizes from 2 up leave out the first two entries of the row. */
  lemma {:induction false} PlanWithinRow(n: nat, sizes: seq<int>, m: nat)
    requires Increasing(sizes) && m >= 2 && forall i | 0 <= i < |sizes| :: 2 <= sizes[i] < m
    ensures |Plan(n, sizes)| + 1 + n <= Row(n, m)
  {
    if sizes == [] {
      BinomialOne(n);
      assert Row(n, 2) == Row(n, 1) + Binomial(n, 1) && Row(n, 1) == Row(n, 0) + Binomial(n, 0);
      RowMonotone(n, 2, m);
    } else {
      var init, k := sizes[..|sizes| - 1], sizes[|sizes| - 1];
      PlanWithinRow(n, init, k);
      LexCount(0, n, k);
      RowMonotone(n, k + 1, m);
    }
  }

  function BinomialsOf(n: nat, sizes: seq<int>): (r: seq<int>)
    requires forall i | 0 <= i < |sizes| :: 0 <= sizes[i]
    ensures |r| == |sizes|
  {
    seq(|sizes|, i requires 0 <= i < |sizes| => Binomial(n, sizes[i]))
  }

  lemma {:induction false} PlanCount(n: nat, sizes: seq<int>)
    requires forall i | 0 <= i < |sizes| :: 2 <= sizes[i]
    ensures |Plan(n, sizes)| == Sum(BinomialsOf(n, sizes))
  {
    if sizes != [] {
      var init, k := sizes[..|sizes| - 1], sizes[|sizes| - 1];
      PlanCount(n, init);
      LexCount(0, n, k);
      assert BinomialsOf(n, sizes) == BinomialsOf(n, init) + [Binomial(n, k) as int];
      SumSnoc(BinomialsOf(n, init), Binomial(n, k));
    }
  }

  lemma {:induction false} SubsetsOfTen(n: nat)
    requires n <= 10
    ensures Radix.Pow(2, n) - n <= 1014
    decreases 10 - n
  {
    if n < 10 {
      SubsetsOfTen(n + 1);
      assert Radix.Pow(2, n + 1) == 2 * Radix.Pow(2, n);
      Radix.PowPositive(2, n);
    } else {
      assert Radix.Pow(2, 5) == 32;
      assert Radix.Pow(2, 10) == 32 * Radix.Pow(2, 5);
    }
  }

  lemma PlanNonEmpty(n: nat, sizes: seq<int>)
    requires sizes != [] && forall i | 0 <= i < |sizes| :: 2 <= sizes[i] <= n
    ensures |Plan(n, sizes)| > 0
  {
    hide Lex, Plan;
    var k := sizes[0];
    assert IsSubset(Run(0, k), 0, n, k);
    var t := PlanComplete(n, sizes, Run(0, k));
  }

  /** The tickets number the sum of C(n, k) over the sizes: at most 2^n - n - 1, and so at most 1013. */
  lemma TicketCount(rr: RoundRobin)
    requires rr.Valid()
    ensures |Plan(|rr.legs|, rr.sizes)| == Sum(BinomialsOf(|rr.legs|, rr.sizes))
    ensures 0 < |Plan(|rr.legs|, rr.sizes)| <= Radix.Pow(2, |rr.legs|) - |rr.legs| - 1 <= 1013
  {
    hide Plan, Row, Radix.Pow, Sum;
    var n := |rr.legs|;
    PlanCount(n, rr.sizes);
    PlanWithinRow(n, rr.sizes, n + 1);
    RowTotal(n);
    SubsetsOfTen(n);
    PlanNonEmpty(n, rr.sizes);
  }

  function Pick(legs: seq<Leg>, c: seq<nat>): (r: seq<Leg>)
    requires forall i | 0 <= i < |c| :: c[i] < |legs|
    ensures |r| == |c|
  {
    seq(|c|, i requires 0 <= i < |c| => legs[c[i]])
  }

  /** The leg set of every ticket, in order. */
  function Tickets(rr: RoundRobin): (r: seq<seq<Leg>>)
    requires rr.Valid()
    ensures |r| == |Plan(|rr.legs|, rr.sizes)|
  {
    var plan := Plan(|rr.legs|, rr.sizes);
    seq(|plan|, t requires 0 <= t < |plan| => PlanSound(|rr.legs|, rr.sizes, t); Pick(rr.legs, plan[t]))
  }

  /** Counts the generated index sets, size by size. */
  method CombinationCount(rr: RoundRobin) returns (total: nat)
    requires rr.Valid()
    ensures total == |Tickets(rr)|
  {
    hide Lex;
    total := 0;
    for i := 0 to |rr.sizes|
      invariant total == |Plan(|rr.legs|, rr.sizes[..i])|
    {
      var combos := CombinationIndexes(|rr.legs|, rr.sizes[i]);
      assert rr.sizes[..i + 1][..i] == rr.sizes[..i];
      total := total + |combos|;
    }
    assert rr.sizes[..|rr.sizes|] == rr.sizes;
  }

  /** For any positions of a stated size, in increasing order, some ticket backs exactly those legs, in that order. */
  lemma EveryCombinationIsATicket(rr: RoundRobin, c: seq<nat>) returns (t: nat)
    requires rr.Valid() && InPlan(c, |rr.legs|, rr.sizes)
    ensures t < |Tickets(rr)| && |Tickets(rr)[t]| == |c|
    ensures forall i | 0 <= i < |c| :: Tickets(rr)[t][i] == rr.legs[c[i]]
  {
    t := PlanComplete(|rr.legs|, rr.sizes, c);
    hide Plan, Lex;
  }

  ghost predicate Draws(combo: seq<Leg>, legs: seq<Leg>, c: seq<nat>) {
    (forall i | 0 <= i < |c| :: c[i] < |legs|) && combo == Pick(legs, c)
  }

  ghost predicate DrawsAll(out: seq<seq<Leg>>, legs: seq<Leg>, plan: seq<seq<nat>>) {
    |out| == |plan| && forall t | 0 <= t < |out| :: Draws(out[t], legs, plan[t])
  }

  method PickLegs(legs: seq<Leg>, idx: seq<nat>) returns (combo: seq<Leg>)
    requires forall i | 0 <= i < |idx| :: idx[i] < |legs|
    ensures Draws(combo, legs, idx)
  {
    combo := [];
    for i := 0 to |idx|
      invariant |combo| == i && forall j | 0 <= j < i :: combo[j] == legs[idx[j]]
    {
      combo := combo + [legs[idx[i]]];
    }
  }

  /** Appends the tickets of one size. */
  method ExpandSize(legs: seq<Leg>, k: int, prior: seq<seq<Leg>>, ghost done: seq<seq<nat>>)
    returns (out: seq<seq<Leg>>)
    requires 1 <= k <= |legs| && DrawsAll(prior, legs, done)
    ensures DrawsAll(out, legs, done + Lex(0, |legs|, k))
  {
    hide Lex;
    var combos := CombinationIndexes(|legs|, k);
    out := prior;
    for j := 0 to |combos|
      invariant DrawsAll(out, legs, done + combos[..j])
    {
      LexSound(0, |legs|, k, j);
      var combo := PickLegs(legs, combos[j]);
      out := out + [combo];
      assert done + combos[..j + 1] == (done + combos[..j]) + [combos[j]];
    }
    assert combos[..|combos|] == combos;
  }

  /** Builds every ticket's leg set, size by size. */
  method ExpandCombinations(rr: RoundRobin) returns (out: seq<seq<Leg>>)
    requires rr.Valid()
    ensures out == Tickets(rr)
  {
    out := [];
    for i := 0 to |rr.sizes|
      invariant DrawsAll(out, rr.legs, Plan(|rr.legs|, rr.sizes[..i]))
    {
      assert rr.sizes[..i + 1][..i] == rr.sizes[..i];
      out := ExpandSize(rr.legs, rr.sizes[i], out, Plan(|rr.legs|, rr.sizes[..i]));
    }
    assert rr.sizes[..|rr.sizes|] == rr.sizes;
    assert forall t | 0 <= t < |out| :: out[t] == Tickets(rr)[t];
  }

  ghost function SelectionsOf(legs: seq<Leg>): set<string> {
    set i | 0 <= i < |legs| :: legs[i].selectionId
  }

  lemma LastOnTop(a: seq<nat>, n: nat)
    requires a != [] && IsSubset(a, 0, n, |a|)
    ensures IsSubset(a[..|a| - 1], 0, n, |a| - 1)
    ensures forall v | v in a :: v <= a[|a| - 1]
    ensures forall v :: v in a[..|a| - 1] <==> v in a && v != a[|a| - 1]
  {
    assert a == a[..|a| - 1] + [a[|a| - 1]];
  }

  ghost predicate Within(a: seq<nat>, b: seq<nat>) { forall x | x in a :: x in b }

  lemma SameTop(a: seq<nat>, b: seq<nat>, n: nat)
    requires a != [] && b != [] && IsSubset(a, 0, n, |a|) && IsSubset(b, 0, n, |b|)
    requires Within(a, b) && Within(b, a)
    ensures a[|a| - 1] == b[|b| - 1] && Within(a[..|a| - 1], b[..|b| - 1])
  {
    LastOnTop(a, n);
    LastOnTop(b, n);
    assert a[|a| - 1] in a && b[|b| - 1] in b;
    var a', b' := a[..|a| - 1], b[..|b| - 1];
    forall v | v in a' ensures v in b' {
      assert v in a && v in b;
    }
  }

  /** Two increasing lists with the same members are the same list. */
  lemma {:induction false} SameMembers(a: seq<nat>, b: seq<nat>, n: nat)
    requires IsSubset(a, 0, n, |a|) && IsSubset(b, 0, n, |b|)
    requires Within(a, b) && Within(b, a)
    ensures a == b
  {
    assert (a != [] ==> a[0] in a) && (b != [] ==> b[0] in b);
    if a != [] && b != [] {
      LastOnTop(a, n);
      LastOnTop(b, n);
      SameTop(a, b, n);
      SameTop(b, a, n);
      SameMembers(a[..|a| - 1], b[..|b| - 1], n);
      assert a == a[..|a| - 1] + [a[|a| - 1]] && b == b[..|b| - 1] + [b[|b| - 1]];
    }
  }

  /** No two tickets back the same set of selections. */
  lemma TicketsDistinct(rr: RoundRobin, s: nat, t: nat)
    requires rr.Valid() && s < t < |Tickets(rr)|
    ensures SelectionsOf(Tickets(rr)[s]) != SelectionsOf(Tickets(rr)[t])
  {
    var n := |rr.legs|;
    var a, b := Plan(n, rr.sizes)[s], Plan(n, rr.sizes)[t];
    PlanSound(n, rr.sizes, s);
    PlanSound(n, rr.sizes, t);
    PlanDistinct(n, rr.sizes, s, t);
    if SelectionsOf(Pick(rr.legs, a)) == SelectionsOf(Pick(rr.legs, b)) {
      SharedSelections(rr.legs, a, b);
      SharedSelections(rr.legs, b, a);
      SameMembers(a, b, n);
    }
  }

  lemma SharedSelections(legs: seq<Leg>, a: seq<nat>, b: seq<nat>)
    requires LegSetOk(legs) && IsSubset(a, 0, |legs|, |a|) && IsSubset(b, 0, |legs|, |b|)
    requires SelectionsOf(Pick(legs, a)) <= SelectionsOf(Pick(legs, b))
    ensures Within(a, b)
  {
    forall x | x in a ensures x in b {
      var i :| 0 <= i < |a| && a[i] == x;
      assert Pick(legs, a)[i].selectionId in SelectionsOf(Pick(legs, a));
      var j :| 0 <= j < |b| && Pick(legs, b)[j].selectionId == legs[x].selectionId;
      assert b[j] == x;
    }
  }

  /** Every ticket passes the leg rules of the wager constructor. */
  lemma TicketLegsOk(rr: RoundRobin, t: nat)
    requires rr.Valid() && t < |Tickets(rr)|
    ensures LegSetOk(Tickets(rr)[t]) && LegCountOk(RoundRobinTicket, |Tickets(rr)[t]|)
  {
    PlanSound(|rr.legs|, rr.sizes, t);
    var c := Plan(|rr.legs|, rr.sizes)[t];
    assert forall i, j | 0 <= i < j < |c| :: c[i] < c[j];
  }

  /**
   * Teased legs are not refused when the round robin is built, and no ticket can
   * carry one: the tickets all pass the teaser rule exactly when no leg is teased.
   */
  lemma TeasedLegsSinkTickets(rr: RoundRobin)
    requires rr.Valid()
    ensures (forall t | 0 <= t < |Tickets(rr)| :: TeaserOk(RoundRobinTicket, 0.0, Tickets(rr)[t]))
            <==> forall i | 0 <= i < |rr.legs| :: rr.legs[i].teasedLine.None?
  {
    var n := |rr.legs|;
    if forall t | 0 <= t < |Tickets(rr)| :: TeaserOk(RoundRobinTicket, 0.0, Tickets(rr)[t]) {
      forall i | 0 <= i < n ensures rr.legs[i].teasedLine.None? {
        var k := rr.sizes[0];
        var start := if i + k <= n then i else n - k;
        assert IsSubset(Run(start, k), 0, n, k) && Run(start, k)[i - start] == i;
        var t := PlanComplete(n, rr.sizes, Run(start, k));
        assert Tickets(rr)[t][i - start] == rr.legs[i];
        assert TeaserOk(RoundRobinTicket, 0.0, Tickets(rr)[t]);
      }
    }
    if forall i | 0 <= i < n :: rr.legs[i].teasedLine.None? {
      forall t | 0 <= t < |Tickets(rr)| ensures TeaserOk(RoundRobinTicket, 0.0, Tickets(rr)[t]) {
        PlanSound(n, rr.sizes, t);
      }
    }
  }

  /** The wager a ticket becomes. */
  function TicketTerms(rr: RoundRobin, t: nat, id: string, accepted: real, rounding: Rounding): WagerParams
    requires rr.Valid() && t < |Tickets(rr)|
  {
    WagerParams(id, rr.userId, RoundRobinTicket, Tickets(rr)[t], rr.stakePerCombination, accepted, rounding,
                0.0, rr.id, rr.placedAt)
  }

  /** With no teased leg, only the identifier, the price, the rounding rule and the amounts can refuse a ticket. */
  lemma TicketAccepted(rr: RoundRobin, t: nat, id: string, accepted: real, rounding: Rounding)
    requires rr.Valid() && t < |Tickets(rr)|
    requires forall i | 0 <= i < |rr.legs| :: rr.legs[i].teasedLine.None?
    ensures Accepts(TicketTerms(rr, t, id, accepted, rounding)) <==>
            && ValidId(id) && MIN_DECIMAL_ODDS < accepted <= MAX_WAGER_DECIMAL && !rounding.RoundingUnknown?
            && rr.stakePerCombination <= MAX_SAFE
            && Safe(RoundReal(Product(rr.stakePerCombination, accepted), rounding))
  {
    TicketLegsOk(rr, t);
    TeasedLegsSinkTickets(rr);
    var p := TicketTerms(rr, t, id, accepted, rounding);
    assert TeaserOk(p.kind, p.teaserPoints, p.legs);
  }

  lemma {:induction false} SumOfEqual(s: seq<int>, x: int)
    requires forall i | 0 <= i < |s| :: s[i] == x
    ensures Sum(s) == x * |s|
  {
    if s != [] {
      SumOfEqual(s[..|s| - 1], x);
      assert x * |s| == x * (|s| - 1) + x;
    }
  }

  ghost function TicketStakes(rr: RoundRobin): (r: seq<int>)
    requires rr.Valid()
    ensures |r| == |Tickets(rr)|
  {
    seq(|Tickets(rr)|, t requires 0 <= t < |Tickets(rr)| => TicketTerms(rr, t, "", 0.0, RoundingUnknown).stake)
  }

  /** The total is the tickets' stakes added up, exactly, and it fails only when an amount leaves the safe range. */
  method TotalStake(rr: RoundRobin) returns (r: Option<Int64>)
    requires rr.Valid()
    ensures r == if Safe(rr.stakePerCombination) && Safe(Sum(TicketStakes(rr))) then Some(Sum(TicketStakes(rr))) else None
    ensures Sum(TicketStakes(rr)) == rr.stakePerCombination * Sum(BinomialsOf(|rr.legs|, rr.sizes))
  {
    var count := CombinationCount(rr);
    SumOfEqual(TicketStakes(rr), rr.stakePerCombination);
    TicketCount(rr);
    r := MulInt(rr.stakePerCombination, count);
  }

  /** What placing a ticket gives. */
  function PlacedTicket(rr: RoundRobin, t: nat, id: string, accepted: real, rounding: Rounding): Option<Wager>
    requires rr.Valid() && t < |Tickets(rr)| && forall i | 0 <= i < |rr.legs| :: rr.legs[i].Constructed()
  {
    TicketLegsBuilt(rr, t);
    NewWager(TicketTerms(rr, t, id, accepted, rounding))
  }

  /**
   * From the parameters to the tickets: what an accepted round robin costs in all, and
   * that every ticket placed from it is its owner's, names it, backs the ticket's legs
   * at the stake asked for, and was placed with it.
   */
  lemma TicketsBelong(p: RoundRobinParams, rr: RoundRobin, t: nat, id: string, accepted: real, rounding: Rounding)
    requires NewRoundRobin(p) == Some(rr) && t < |Tickets(rr)|
    requires forall i | 0 <= i < |p.legs| :: p.legs[i].Constructed()
    ensures Sum(TicketStakes(rr)) == p.stakePerCombination * Sum(BinomialsOf(|p.legs|, rr.sizes))
    ensures var r := PlacedTicket(rr, t, id, accepted, rounding);
            r.Some? ==>
              && var w := r.value;
                 && w.id == id && w.userId == p.userId && w.roundRobinId == p.id && w.kind.RoundRobinTicket?
                 && w.stake == p.stakePerCombination && w.placedAt == p.placedAt && w.legs == Tickets(rr)[t]
                 && w.accepted == accepted && w.rounding == rounding
  {
    StakesAddUp(rr);
    hide NewRoundRobin, Tickets, Accepts, RoundRobin.Valid, Wager.Inv;
    var r := PlacedTicket(rr, t, id, accepted, rounding);
    if r.Some? {
      TicketLegsBuilt(rr, t);
      assert r.value.Terms() == TicketTerms(rr, t, id, accepted, rounding);
    }
  }

  lemma StakesAddUp(rr: RoundRobin)
    requires rr.Valid()
    ensures Sum(TicketStakes(rr)) == rr.stakePerCombination * Sum(BinomialsOf(|rr.legs|, rr.sizes))
  {
    SumOfEqual(TicketStakes(rr), rr.stakePerCombination);
    TicketCount(rr);
    hide Plan, Tickets, BinomialsOf, Sum;
  }

  lemma TicketLegsBuilt(rr: RoundRobin, t: nat)
    requires rr.Valid() && t < |Tickets(rr)| && forall i | 0 <= i < |rr.legs| :: rr.legs[i].Constructed()
    ensures forall i | 0 <= i < |Tickets(rr)[t]| :: Tickets(rr)[t][i].Constructed()
  {
    PlanSound(|rr.legs|, rr.sizes, t);
    hide Plan, Leg.Constructed;
  }
}
