/** Channels of different rates, read so that all of them always reach the same point in time. */
module SyncAlignment {
  import opened Divisibility

  // ---------- rates ----------

  datatype Ratio = Ratio(num: nat, den: nat) {
    predicate Valid() { num > 0 && den > 0 }
  }

  predicate Less(a: Ratio, b: Ratio) {
    a.num * b.den < b.num * a.den
  }

  function Over(a: Ratio, b: Ratio): Ratio {
    Ratio(a.num * b.den, a.den * b.num)
  }

  lemma OverIsValid(a: Ratio, b: Ratio)
    requires a.Valid() && b.Valid()
    ensures Over(a, b).Valid()
  {
    assert a.num * b.den > 0 && a.den * b.num > 0;
  }

  predicate IsInteger(r: Ratio)
    requires r.Valid()
  {
    r.num % r.den == 0
  }

  function IntVal(r: Ratio): nat
    requires r.Valid()
  {
    r.num / r.den
  }

  lemma LessOrEqualTransitive(a: Ratio, b: Ratio, c: Ratio)
    requires a.Valid() && b.Valid() && c.Valid()
    requires !Less(b, a) && !Less(c, b)
    ensures !Less(c, a)
  {
    var x, y := a.num * b.den, b.num * a.den;
    var u, v := b.num * c.den, c.num * b.den;
    assert x <= y && u <= v;
    TimesKeepsOrder(x, y, c.den);
    TimesKeepsOrder(u, v, a.den);
    assert x * c.den == (a.num * c.den) * b.den;
    assert y * c.den == u * a.den;
    assert v * a.den == (c.num * a.den) * b.den;
    CancelOrder(a.num * c.den, c.num * a.den, b.den);
  }

  lemma TimesKeepsOrder(x: int, y: int, k: nat)
    requires x <= y
    ensures x * k <= y * k
  {
    assert (y - x) * k >= 0;
  }

  lemma CancelOrder(x: int, y: int, k: nat)
    requires k > 0 && x * k <= y * k
    ensures x <= y
  {
    assert x * k - y * k == k * (x - y);
    MulAtLeast(k, x - y);
  }

  // ---------- the channels' values ----------

  /** A channel as one call sees it: its rate and buffer, what its server has acquired, and what was delivered of it. */
  datatype Chan = Chan(rate: Ratio, buf: nat, timed: bool, overrun: bool, acquired: nat, total: int) {
    predicate Valid() { rate.Valid() && buf > 0 }
  }

  predicate AllValid(cs: seq<Chan>) {
    forall i :: 0 <= i < |cs| ==> cs[i].Valid()
  }

  function MaxOf(a: Ratio, b: Ratio): Ratio {
    if Less(a, b) then b else a
  }

  /** The largest rate, the first of equal ones. */
  function MaxRate(cs: seq<Chan>): (m: Ratio)
    requires |cs| > 0 && AllValid(cs)
    ensures m.Valid()
  {
    var last := cs[|cs| - 1].rate;
    if |cs| == 1 then last else MaxOf(MaxRate(cs[..|cs| - 1]), last)
  }

  lemma {:induction false} MaxRateIsLargest(cs: seq<Chan>, i: nat)
    requires i < |cs| && AllValid(cs)
    ensures !Less(MaxRate(cs), cs[i].rate)
    ensures cs[i].rate.num * MaxRate(cs).den <= MaxRate(cs).num * cs[i].rate.den
    ensures exists j :: 0 <= j < |cs| && cs[j].rate == MaxRate(cs)
  {
    hide Less;
    NotLessIs(MaxRate(cs), cs[i].rate);
    if |cs| > 1 {
      var front, last := cs[..|cs| - 1], cs[|cs| - 1].rate;
      NotLessItself(last);
      NotLessItself(MaxRate(front));
      NotBothLess(MaxRate(front), last);
      MaxRateIsLargest(front, if i < |front| then i else 0);
      if i < |front| {
        LessOrEqualTransitive(cs[i].rate, MaxRate(front), MaxRate(cs));
      }
    } else {
      NotLessItself(cs[0].rate);
    }
  }

  lemma NotLessIs(a: Ratio, b: Ratio)
    ensures !Less(a, b) <==> b.num * a.den <= a.num * b.den
  {
  }

  lemma NotLessItself(a: Ratio)
    ensures !Less(a, a)
  {
  }

  lemma NotBothLess(a: Ratio, b: Ratio)
    ensures !(Less(a, b) && Less(b, a))
  {
  }

  /** How many samples at the largest rate go with one at this rate. */
  function Divider(max: Ratio, rate: Ratio): nat
    requires max.Valid() && rate.Valid()
  {
    OverIsValid(max, rate);
    IntVal(Over(max, rate))
  }

  predicate Divides(max: Ratio, rate: Ratio)
    requires max.Valid() && rate.Valid()
  {
    OverIsValid(max, rate);
    IsInteger(Over(max, rate))
  }

  /** All rates divide the largest. */
  predicate CanAlign(cs: seq<Chan>, max: Ratio)
    requires AllValid(cs) && max.Valid()
  {
    forall i :: 0 <= i < |cs| ==> Divides(max, cs[i].rate)
  }

  predicate AllDivide(cs: seq<Chan>, max: Ratio)
    requires AllValid(cs) && max.Valid()
  {
    forall i :: 0 <= i < |cs| ==> Divides(max, cs[i].rate) && Divider(max, cs[i].rate) > 0
  }

  lemma DividerIsPositive(max: Ratio, rate: Ratio)
    requires max.Valid() && rate.Valid() && Divides(max, rate)
    ensures Divider(max, rate) > 0 && max.num * rate.den == Divider(max, rate) * (max.den * rate.num)
  {
    OverIsValid(max, rate);
    var r := Over(max, rate);
    assert r.num == r.den * (r.num / r.den);
    if r.num / r.den == 0 {
      assert false;
    }
  }

  /** A rate divides another when a whole number of times it is the other, and that number is its divider. */
  lemma DividesIff(max: Ratio, rate: Ratio, n: nat)
    requires max.Valid() && rate.Valid()
    ensures max.num * rate.den == n * (max.den * rate.num) <==> Divides(max, rate) && n == Divider(max, rate)
  {
    OverIsValid(max, rate);
    var whole := max.den * rate.num;
    if max.num * rate.den == n * whole {
      DivModUnique(max.num * rate.den, whole, n, 0);
    } else if Divides(max, rate) && n == Divider(max, rate) {
      DividerIsPositive(max, rate);
      assert false;
    }
  }

  lemma CanAlignMeansAllDivide(cs: seq<Chan>, max: Ratio)
    requires AllValid(cs) && max.Valid()
    ensures CanAlign(cs, max) <==> AllDivide(cs, max)
  {
    hide Divides, Divider;
    if CanAlign(cs, max) {
      forall i | 0 <= i < |cs|
        ensures Divider(max, cs[i].rate) > 0
      {
        DividerIsPositive(max, cs[i].rate);
      }
    }
  }

  function Dividers(cs: seq<Chan>, max: Ratio): (ds: seq<nat>)
    requires AllValid(cs) && max.Valid() && AllDivide(cs, max)
    ensures |ds| == |cs| && AllPositive(ds)
    ensures forall i :: 0 <= i < |cs| ==> ds[i] == Divider(max, cs[i].rate)
  {
    seq(|cs|, i requires 0 <= i < |cs| => Divider(max, cs[i].rate))
  }

  lemma NoDividers(max: Ratio)
    requires max.Valid()
    ensures LcmOf(Dividers([], max)) == 1
  {
  }

  lemma DividersGrow(cs: seq<Chan>, max: Ratio, i: nat)
    requires i < |cs| && AllValid(cs) && max.Valid() && AllDivide(cs[..i], max) && Divides(max, cs[i].rate)
    ensures Divider(max, cs[i].rate) > 0 && AllDivide(cs[..i + 1], max)
    ensures LcmOf(Dividers(cs[..i + 1], max)) == Lcm(LcmOf(Dividers(cs[..i], max)), Divider(max, cs[i].rate))
  {
    hide Divides, Divider, Lcm;
    DividerIsPositive(max, cs[i].rate);
    assert cs[..i + 1][..i] == cs[..i];
    assert Dividers(cs[..i + 1], max)[..i] == Dividers(cs[..i], max);
  }

  ghost predicate Ready(cs: seq<Chan>, max: Ratio, lcm: nat) {
    AllValid(cs) && max.Valid() && AllDivide(cs, max) && lcm == LcmOf(Dividers(cs, max)) > 0
  }

  // ---------- one call ----------

  /** What a channel allows: what its server has, and no more than its buffer holds beyond what was delivered. */
  function Limit(c: Chan, max: Ratio, previous: int): int
    requires c.Valid() && max.Valid()
  {
    var d := Divider(max, c.rate);
    var have, room := c.acquired * d, previous + (c.buf - 1) * d;
    if have < room then have else room
  }

  predicate AllTimed(cs: seq<Chan>) {
    forall i :: 0 <= i < |cs| ==> cs[i].timed
  }

  /** `least` is the least limit. */
  predicate IsLeastLimit(cs: seq<Chan>, max: Ratio, previous: int, least: int)
    requires AllValid(cs) && max.Valid()
  {
    && (forall i :: 0 <= i < |cs| ==> least <= Limit(cs[i], max, previous))
    && (exists i :: 0 <= i < |cs| && least == Limit(cs[i], max, previous))
  }

  function LeastLimit(cs: seq<Chan>, max: Ratio, previous: int): (least: int)
    requires AllValid(cs) && max.Valid() && |cs| > 0
  {
    var last := Limit(cs[|cs| - 1], max, previous);
    if |cs| == 1 then last
    else
      var before := LeastLimit(cs[..|cs| - 1], max, previous);
      if last < before then last else before
  }

  lemma {:induction false} LeastLimitIsLeast(cs: seq<Chan>, max: Ratio, previous: int)
    requires AllValid(cs) && max.Valid() && |cs| > 0
    ensures IsLeastLimit(cs, max, previous, LeastLimit(cs, max, previous))
  {
    hide Limit;
    if |cs| > 1 {
      LeastLimitIsLeast(cs[..|cs| - 1], max, previous);
    }
  }

  function Acquired(cs: seq<Chan>, max: Ratio, previous: int): int
    requires AllValid(cs) && max.Valid()
  {
    if cs == [] || !AllTimed(cs) then 0 else LeastLimit(cs, max, previous)
  }

  /** The point, counted in samples at the largest rate, that the call brings all channels to. */
  function Goal(cs: seq<Chan>, max: Ratio, lcm: nat, previous: int): int
    requires AllValid(cs) && max.Valid() && lcm > 0
  {
    Truncated(Acquired(cs, max, previous), lcm) * lcm
  }

  function Request(c: Chan, max: Ratio, goal: int): int
    requires c.Valid() && max.Valid() && Divider(max, c.rate) > 0
  {
    Truncated(goal, Divider(max, c.rate)) - c.total
  }

  predicate Asked(c: Chan) {
    c.timed && !c.overrun
  }

  /** The channel after the call: what it was asked for has been delivered. */
  function Delivered(c: Chan, max: Ratio, goal: int): Chan
    requires c.Valid() && max.Valid() && Divider(max, c.rate) > 0
  {
    if Asked(c) then c.(total := c.total + Request(c, max, goal)) else c
  }

  function AllDelivered(cs: seq<Chan>, max: Ratio, goal: int): (ds: seq<Chan>)
    requires AllValid(cs) && max.Valid() && AllDivide(cs, max)
    ensures |ds| == |cs|
  {
    seq(|cs|, i requires 0 <= i < |cs| => Delivered(cs[i], max, goal))
  }

  // ---------- the loops ----------

  class Channel {
    const rate: Ratio
    const buf: nat
    var timed: bool
    var overrun: bool
    var acquired: nat
    var total: int

    constructor (rate: Ratio, buf: nat)
      ensures this.rate == rate && this.buf == buf && total == 0 && acquired == 0 && !timed && !overrun
    {
      this.rate, this.buf := rate, buf;
      timed, overrun, acquired, total := false, false, 0, 0;
    }

    function Value(): Chan
      reads this
    {
      Chan(rate, buf, timed, overrun, acquired, total)
    }

    /** The samples asked for are taken out of the buffer. */
    method GetData(samples: int)
      modifies this`total
      ensures Value() == old(Value()).(total := old(total) + samples)
    {
      total := total + samples;
    }
  }

  ghost function Values(nodes: seq<Channel>): (cs: seq<Chan>)
    reads nodes
    ensures |cs| == |nodes|
  {
    seq(|nodes|, i requires 0 <= i < |nodes| reads nodes => nodes[i].Value())
  }

  predicate Distinct(nodes: seq<Channel>) {
    forall i, j :: 0 <= i < j < |nodes| ==> nodes[i] != nodes[j]
  }

  /** A channel that has timing and has lost nothing is asked for what it lacks. */
  method DeliverTo(node: Channel, max: Ratio, goal: int)
    requires node.Value().Valid() && max.Valid() && Divider(max, node.rate) > 0
    modifies node
    ensures node.Value() == Delivered(old(node.Value()), max, goal)
  {
    hide Divider, Truncated;
    if node.timed && !node.overrun {
      node.GetData(Request(node.Value(), max, goal));
    }
  }

  lemma RoundedZero(b: nat)
    requires b > 0
    ensures Truncated(0, b) * b == 0
  {
  }

  class Gather {
    const nodes: seq<Channel>
    var maxRate: Ratio
    var lcm: nat
    var previous: int

    ghost predicate Valid()
      reads this, nodes
    {
      Distinct(nodes) && AllValid(Values(nodes))
    }

    /** The state that `Start` leaves when all rates divide the largest. */
    ghost predicate Started()
      reads this, nodes
    {
      && Valid() && lcm > 0
      && (nodes != [] ==> maxRate.Valid() && Ready(Values(nodes), maxRate, lcm))
    }

    constructor (nodes: seq<Channel>)
      ensures this.nodes == nodes && previous == 0
    {
      this.nodes := nodes;
      maxRate, lcm, previous := Ratio(0, 0), 1, 0;
    }

    /** The largest rate of all channels; no rate at all when there is no channel. */
    method FindMaxRate()
      requires Valid()
      modifies this
      ensures previous == old(previous)
      ensures maxRate == if nodes == [] then Ratio(0, 0) else MaxRate(Values(nodes))
    {
      hide Less;
      maxRate := Ratio(0, 0);
      ghost var cs := Values(nodes);
      var i := 0;
      while i < |nodes|
        invariant 0 <= i <= |nodes| && Valid() && previous == old(previous)
        invariant maxRate == if i == 0 then Ratio(0, 0) else MaxRate(cs[..i])
      {
        assert cs[..i + 1][..i] == cs[..i] && cs[i] == nodes[i].Value();
        if !maxRate.Valid() || Less(maxRate, nodes[i].rate) {
          maxRate := nodes[i].rate;
        }
        i := i + 1;
      }
      assert cs[..|nodes|] == cs;
    }

    /** Fails when some rate does not divide the largest. */
    method Start() returns (ok: bool)
      requires Valid()
      modifies this
      ensures Valid() && previous == old(previous)
      ensures nodes != [] ==> maxRate == MaxRate(Values(nodes)) && (ok <==> CanAlign(Values(nodes), maxRate))
      ensures ok ==> Started()
      ensures nodes == [] ==> ok && lcm == 1
    {
      hide Less, Divides, Divider, LcmOf;
      FindMaxRate();
      lcm := 1;
      if nodes == [] {
        return true;
      }
      ok := FoldDividers();
    }

    /** The second loop: the least common multiple of the dividers, up to the first rate that has none. */
    method FoldDividers() returns (ok: bool)
      requires Valid() && maxRate.Valid() && lcm == 1
      modifies this`lcm
      ensures ok <==> CanAlign(Values(nodes), maxRate)
      ensures ok ==> Ready(Values(nodes), maxRate, lcm)
    {
      hide Divides, Divider, Lcm, LcmOf;
      ghost var cs := Values(nodes);
      NoDividers(maxRate);
      CanAlignMeansAllDivide(cs, maxRate);
      var i := 0;
      while i < |nodes|
        invariant 0 <= i <= |nodes|
        invariant AllDivide(cs[..i], maxRate) && lcm == LcmOf(Dividers(cs[..i], maxRate))
      {
        assert cs[i] == nodes[i].Value();
        if !Divides(maxRate, nodes[i].rate) {
          return false;
        }
        DividersGrow(cs, maxRate, i);
        lcm := Lcm(lcm, Divider(maxRate, nodes[i].rate));
        i := i + 1;
      }
      assert cs[..|nodes|] == cs;
      ok := true;
    }

    /** How far all channels can be read. */
    method GetSamplesAcquired() returns (samples: int)
      requires Valid() && (nodes != [] ==> maxRate.Valid())
      ensures nodes == [] ==> samples == 0
      ensures nodes != [] ==> samples == Acquired(Values(nodes), maxRate, previous)
    {
      hide Limit;
      ghost var cs := Values(nodes);
      samples := 0;
      var i := 0;
      while i < |nodes|
        invariant 0 <= i <= |nodes| && AllTimed(cs[..i])
        invariant samples == if i == 0 then 0 else LeastLimit(cs[..i], maxRate, previous)
      {
        assert cs[..i + 1][..i] == cs[..i] && cs[i] == nodes[i].Value();
        if !nodes[i].timed {
          return 0;
        }
        var count := Limit(nodes[i].Value(), maxRate, previous);
        if i == 0 || count < samples {
          samples := count;
        }
        i := i + 1;
      }
      assert cs[..|nodes|] == cs;
    }

    method DeliverAll(goal: int)
      requires Started()
      modifies nodes
      ensures nodes != [] ==> Values(nodes) == AllDelivered(old(Values(nodes)), maxRate, goal)
    {
      hide Divider, Divides, LcmOf, Delivered;
      ghost var cs := Values(nodes);
      var i := 0;
      while i < |nodes|
        invariant 0 <= i <= |nodes|
        invariant forall k :: 0 <= k < i ==> nodes[k].Value() == Delivered(cs[k], maxRate, goal)
        invariant forall k :: i <= k < |nodes| ==> nodes[k].Value() == cs[k]
      {
        DeliverTo(nodes[i], maxRate, goal);
        i := i + 1;
      }
      assert nodes != [] ==> Values(nodes) == AllDelivered(cs, maxRate, goal);
    }

    /** One call: every channel that has data is asked for what brings it to the common point. */
    method GetData() returns (goal: int)
      requires Started()
      modifies this`previous, nodes
      ensures Started()
      ensures previous == goal && (nodes == [] ==> goal == 0)
      ensures nodes != [] ==> goal == Goal(old(Values(nodes)), maxRate, lcm, old(previous))
      ensures nodes != [] ==> Values(nodes) == AllDelivered(old(Values(nodes)), maxRate, goal)
    {
      hide Limit, Divider, Divides, Truncated, LcmOf, Delivered, Acquired;
      var samples := GetSamplesAcquired();
      RoundedZero(lcm);
      goal := Truncated(samples, lcm) * lcm;
      ghost var cs := Values(nodes);
      DeliverAll(goal);
      if nodes != [] {
        StillReady(cs, maxRate, lcm, goal);
      }
      previous := goal;
    }
  }

  // ---------- every call keeps the channels aligned ----------

  /** Every channel has delivered up to the same point. */
  predicate Aligned(cs: seq<Chan>, max: Ratio, previous: int)
    requires AllValid(cs) && max.Valid()
  {
    previous >= 0 && forall i :: 0 <= i < |cs| ==> cs[i].total * Divider(max, cs[i].rate) == previous
  }

  ghost predicate InStep(cs: seq<Chan>, max: Ratio, lcm: nat, previous: int) {
    Ready(cs, max, lcm) && Aligned(cs, max, previous) && Multiple(previous, lcm)
  }

  /** The requests of the call are not negative and leave one place of each buffer. */
  predicate Legal(cs: seq<Chan>, max: Ratio, goal: int)
    requires AllValid(cs) && max.Valid() && AllDivide(cs, max)
  {
    forall i :: 0 <= i < |cs| && Asked(cs[i]) ==> 0 <= Request(cs[i], max, goal) < cs[i].buf
  }

  predicate NotBehind(c: Chan, max: Ratio, previous: int)
    requires c.Valid() && max.Valid()
  {
    Asked(c) && c.acquired * Divider(max, c.rate) >= previous
  }

  /** There is nothing to deliver, or every channel can be brought to the goal. */
  predicate Suits(cs: seq<Chan>, max: Ratio, lcm: nat, previous: int)
    requires AllValid(cs) && max.Valid() && lcm > 0
  {
    Goal(cs, max, lcm, previous) == previous || forall i :: 0 <= i < |cs| ==> NotBehind(cs[i], max, previous)
  }

  predicate NoneBehind(cs: seq<Chan>, max: Ratio, previous: int)
    requires AllValid(cs) && max.Valid()
  {
    forall i :: 0 <= i < |cs| ==> cs[i].acquired * Divider(max, cs[i].rate) >= previous
  }

  predicate NoneOverrun(cs: seq<Chan>) {
    forall i :: 0 <= i < |cs| ==> !cs[i].overrun
  }

  /** The channel's server has the samples up to point `m`, and its buffer, one place kept free, has the room for
      them. */
  predicate CanReach(c: Chan, max: Ratio, previous: int, m: int)
    requires c.Valid() && max.Valid()
  {
    m <= c.acquired * Divider(max, c.rate) && m <= previous + (c.buf - 1) * Divider(max, c.rate)
  }

  lemma CanReachIff(c: Chan, max: Ratio, previous: int, m: int)
    requires c.Valid() && max.Valid()
    ensures CanReach(c, max, previous, m) <==> m <= Limit(c, max, previous)
  {
    hide Divider;
  }

  /** Some channel lacks the samples, or the room, for one more common step. */
  predicate NoStepLeft(cs: seq<Chan>, max: Ratio, lcm: nat, previous: int)
    requires AllValid(cs) && max.Valid()
  {
    exists i :: 0 <= i < |cs| && !CanReach(cs[i], max, previous, previous + lcm)
  }

  /** What must be read off the channels before a call: if one has no timing, nothing may have been delivered yet; if
      all have it, none may be behind, and none may have lost samples unless there is no step to make. */
  predicate Fits(cs: seq<Chan>, max: Ratio, lcm: nat, previous: int)
    requires AllValid(cs) && max.Valid()
  {
    || cs == []
    || (!AllTimed(cs) && previous == 0)
    || (AllTimed(cs) && NoneBehind(cs, max, previous) && (NoneOverrun(cs) || NoStepLeft(cs, max, lcm, previous)))
  }

  lemma LimitIsNat(c: Chan, max: Ratio, previous: int)
    requires c.Valid() && max.Valid() && previous >= 0
    ensures Limit(c, max, previous) >= 0
    ensures Limit(c, max, previous) <= c.acquired * Divider(max, c.rate)
    ensures Limit(c, max, previous) <= previous + (c.buf - 1) * Divider(max, c.rate)
    ensures c.acquired * Divider(max, c.rate) >= previous ==> Limit(c, max, previous) >= previous
  {
    var d := Divider(max, c.rate);
    assert c.acquired * d >= 0 && (c.buf - 1) * d >= 0;
  }

  lemma AcquiredIsNat(cs: seq<Chan>, max: Ratio, previous: int)
    requires AllValid(cs) && max.Valid() && previous >= 0
    ensures Acquired(cs, max, previous) >= 0
    ensures cs != [] && AllTimed(cs) ==> IsLeastLimit(cs, max, previous, Acquired(cs, max, previous))
  {
    hide Limit;
    if cs != [] {
      LeastLimitIsLeast(cs, max, previous);
      forall i | 0 <= i < |cs|
        ensures Limit(cs[i], max, previous) >= 0
      {
        LimitIsNat(cs[i], max, previous);
      }
    }
  }

  lemma LargestMultiple(a: nat, b: nat, m: int)
    requires b > 0 && 0 <= m <= a && Multiple(m, b)
    ensures m <= a / b * b
  {
    var q, n := a / b, m / b;
    assert a < b * q + b && m == b * n;
    assert b * q - b * n == b * (q - n);
    MulAtLeast(b, q - n);
  }

  /** Rounded down to a multiple. */
  lemma RoundedDown(a: nat, b: nat)
    requires b > 0
    ensures var g := Truncated(a, b) * b; 0 <= g <= a && Multiple(g, b)
    ensures forall m: int :: 0 <= m <= a && Multiple(m, b) ==> m <= Truncated(a, b) * b
  {
    hide Multiple;
    var q := a / b;
    assert q * b == b * q && q * b >= 0;
    MultipleIs(q * b, b, q);
    forall m: int | 0 <= m <= a && Multiple(m, b)
      ensures m <= q * b
    {
      LargestMultiple(a, b, m);
    }
  }

  lemma GoalIsRounded(cs: seq<Chan>, max: Ratio, lcm: nat, previous: int)
    requires AllValid(cs) && max.Valid() && previous >= 0 && lcm > 0
    ensures var g := Goal(cs, max, lcm, previous); 0 <= g <= Acquired(cs, max, previous) && Multiple(g, lcm)
    ensures forall m: int :: 0 <= m <= Acquired(cs, max, previous) && Multiple(m, lcm) ==>
              m <= Goal(cs, max, lcm, previous)
  {
    hide Acquired, Truncated, Multiple;
    AcquiredIsNat(cs, max, previous);
    RoundedDown(Acquired(cs, max, previous), lcm);
  }

  lemma MultipleOfDivider(cs: seq<Chan>, max: Ratio, lcm: nat, m: nat, i: nat)
    requires Ready(cs, max, lcm) && i < |cs| && Multiple(m, lcm)
    ensures Multiple(m, Divider(max, cs[i].rate))
  {
    hide Multiple, Divider, LcmOf;
    LcmOfIsMultiple(Dividers(cs, max), i);
    MultipleTransitive(m, lcm, Divider(max, cs[i].rate));
  }

  /** What a channel is asked for, in samples at the largest rate, is the distance to the goal. */
  lemma RequestIsDistance(c: Chan, max: Ratio, previous: int, goal: nat)
    requires c.Valid() && max.Valid() && Divider(max, c.rate) > 0
    requires c.total * Divider(max, c.rate) == previous && Multiple(goal, Divider(max, c.rate))
    ensures Request(c, max, goal) * Divider(max, c.rate) == goal - previous
    ensures goal == previous <==> Request(c, max, goal) == 0
    ensures goal >= previous <==> Request(c, max, goal) >= 0
    ensures goal <= previous + (c.buf - 1) * Divider(max, c.rate) <==> Request(c, max, goal) < c.buf
  {
    hide Divider;
    var d, q := Divider(max, c.rate), Request(c, max, goal);
    assert goal == d * (goal / d);
    assert q * d == (goal / d) * d - c.total * d;
    MulAtLeast(d, q);
    MulAtLeast(d, q - (c.buf - 1));
    assert d * (q - (c.buf - 1)) == q * d - (c.buf - 1) * d;
  }

  lemma DeliveredTotal(c: Chan, max: Ratio, previous: int, goal: nat)
    requires c.Valid() && max.Valid() && Divider(max, c.rate) > 0
    requires c.total * Divider(max, c.rate) == previous && Multiple(goal, Divider(max, c.rate))
    ensures Delivered(c, max, goal).total * Divider(max, c.rate) == goal <==> Asked(c) || goal == previous
  {
    hide Divider, Request;
    RequestIsDistance(c, max, previous, goal);
    var d, q := Divider(max, c.rate), Request(c, max, goal);
    assert (c.total + q) * d == c.total * d + q * d;
  }

  lemma StillReady(cs: seq<Chan>, max: Ratio, lcm: nat, goal: int)
    requires Ready(cs, max, lcm)
    ensures Ready(AllDelivered(cs, max, goal), max, lcm)
  {
    hide Divider, Divides, Truncated, LcmOf;
    var ds := AllDelivered(cs, max, goal);
    assert AllValid(ds) && AllDivide(ds, max);
    assert Dividers(ds, max) == Dividers(cs, max);
  }

  /** The goal does not fall back, and no buffer is asked for more than it can hold, when no channel is behind. */
  lemma GoalInReach(cs: seq<Chan>, max: Ratio, lcm: nat, previous: int)
    requires InStep(cs, max, lcm, previous) && Suits(cs, max, lcm, previous) && cs != []
    ensures var goal := Goal(cs, max, lcm, previous);
            goal == previous
            || (&& goal > previous
                && forall i :: 0 <= i < |cs| ==> goal <= previous + (cs[i].buf - 1) * Divider(max, cs[i].rate))
  {
    hide Divider, Goal, Limit, LcmOf, Multiple;
    var goal := Goal(cs, max, lcm, previous);
    GoalIsRounded(cs, max, lcm, previous);
    AcquiredIsNat(cs, max, previous);
    if goal != previous {
      forall i | 0 <= i < |cs|
        ensures previous <= Limit(cs[i], max, previous) <= previous + (cs[i].buf - 1) * Divider(max, cs[i].rate)
      {
        assert NotBehind(cs[i], max, previous);
        LimitIsNat(cs[i], max, previous);
      }
      assert AllTimed(cs);
    }
  }

  /** And when it does move on, every channel was asked and none was behind. */
  lemma MovedOnSuits(cs: seq<Chan>, max: Ratio, lcm: nat, previous: int)
    requires InStep(cs, max, lcm, previous)
    requires Goal(cs, max, lcm, previous) >= previous && forall i :: 0 <= i < |cs| ==> Asked(cs[i])
    ensures Suits(cs, max, lcm, previous)
  {
    hide Divider, Goal, Limit, LcmOf, Multiple;
    GoalIsRounded(cs, max, lcm, previous);
    AcquiredIsNat(cs, max, previous);
    forall i | 0 <= i < |cs|
      ensures NotBehind(cs[i], max, previous)
    {
      LimitIsNat(cs[i], max, previous);
    }
  }

  lemma SuitableCall(cs: seq<Chan>, max: Ratio, lcm: nat, previous: int)
    requires InStep(cs, max, lcm, previous)
    ensures var goal := Goal(cs, max, lcm, previous);
            Legal(cs, max, goal) && InStep(AllDelivered(cs, max, goal), max, lcm, goal) <==>
              Suits(cs, max, lcm, previous)
  {
    hide Divider, Goal, LcmOf, Request, Delivered, Multiple, Divides, Suits;
    var goal := Goal(cs, max, lcm, previous);
    var ds := AllDelivered(cs, max, goal);
    GoalIsRounded(cs, max, lcm, previous);
    StillReady(cs, max, lcm, goal);
    forall i: nat | i < |cs|
      ensures Request(cs[i], max, goal) >= 0 <==> goal >= previous
      ensures Request(cs[i], max, goal) < cs[i].buf <==> goal <= previous + (cs[i].buf - 1) * Divider(max, cs[i].rate)
      ensures ds[i].total * Divider(max, ds[i].rate) == goal <==> Asked(cs[i]) || goal == previous
    {
      EachChannel(cs, max, lcm, previous, goal, i);
    }
    if cs != [] && Suits(cs, max, lcm, previous) {
      GoalInReach(cs, max, lcm, previous);
      SuitsMeansAsked(cs, max, lcm, previous);
    } else if cs != [] && Legal(cs, max, goal) && Aligned(ds, max, goal) {
      if goal == previous {
        NothingNewSuits(cs, max, lcm, previous);
      } else {
        assert Asked(cs[0]) && Request(cs[0], max, goal) >= 0;
        MovedOnSuits(cs, max, lcm, previous);
      }
    } else if cs == [] {
      NoChannelsSuit(cs, max, lcm, previous);
    }
  }

  lemma EachChannel(cs: seq<Chan>, max: Ratio, lcm: nat, previous: int, goal: nat, i: nat)
    requires InStep(cs, max, lcm, previous) && i < |cs| && Multiple(goal, lcm)
    ensures Request(cs[i], max, goal) >= 0 <==> goal >= previous
    ensures Request(cs[i], max, goal) < cs[i].buf <==> goal <= previous + (cs[i].buf - 1) * Divider(max, cs[i].rate)
    ensures var d := AllDelivered(cs, max, goal)[i];
            d.total * Divider(max, d.rate) == goal <==> Asked(cs[i]) || goal == previous
  {
    hide Divider, LcmOf, Request, Multiple, Divides;
    MultipleOfDivider(cs, max, lcm, goal, i);
    RequestIsDistance(cs[i], max, previous, goal);
    DeliveredTotal(cs[i], max, previous, goal);
  }

  lemma SuitsMeansAsked(cs: seq<Chan>, max: Ratio, lcm: nat, previous: int)
    requires AllValid(cs) && max.Valid() && lcm > 0 && Suits(cs, max, lcm, previous)
    ensures Goal(cs, max, lcm, previous) == previous || forall i :: 0 <= i < |cs| ==> Asked(cs[i])
  {
    hide Goal;
    if Goal(cs, max, lcm, previous) != previous {
      forall i | 0 <= i < |cs|
        ensures Asked(cs[i])
      {
        assert NotBehind(cs[i], max, previous);
      }
    }
  }

  lemma NothingNewSuits(cs: seq<Chan>, max: Ratio, lcm: nat, previous: int)
    requires AllValid(cs) && max.Valid() && lcm > 0 && Goal(cs, max, lcm, previous) == previous
    ensures Suits(cs, max, lcm, previous)
  {
  }

  lemma NoChannelsSuit(cs: seq<Chan>, max: Ratio, lcm: nat, previous: int)
    requires max.Valid() && lcm > 0 && cs == []
    ensures Suits(cs, max, lcm, previous)
  {
  }

  /** How the goal lies to what was delivered, when all channels have timing. */
  lemma GoalAgainstPrevious(cs: seq<Chan>, max: Ratio, lcm: nat, previous: int)
    requires InStep(cs, max, lcm, previous) && cs != [] && AllTimed(cs)
    ensures Goal(cs, max, lcm, previous) >= previous <==> NoneBehind(cs, max, previous)
    ensures NoneBehind(cs, max, previous) ==>
              (Goal(cs, max, lcm, previous) == previous <==> NoStepLeft(cs, max, lcm, previous))
  {
    hide Divider, Goal, Limit, LcmOf, Multiple, Acquired, CanReach;
    GoalIsRounded(cs, max, lcm, previous);
    AcquiredIsNat(cs, max, previous);
    NextMultiple(previous, lcm);
    forall i | 0 <= i < |cs|
      ensures Limit(cs[i], max, previous) <= cs[i].acquired * Divider(max, cs[i].rate)
      ensures cs[i].acquired * Divider(max, cs[i].rate) >= previous ==> Limit(cs[i], max, previous) >= previous
    {
      LimitIsNat(cs[i], max, previous);
    }
    forall i | 0 <= i < |cs|
      ensures CanReach(cs[i], max, previous, previous + lcm) <==> previous + lcm <= Limit(cs[i], max, previous)
    {
      CanReachIff(cs[i], max, previous, previous + lcm);
    }
  }

  lemma NextMultiple(m: nat, b: nat)
    requires b > 0 && Multiple(m, b)
    ensures Multiple(m + b, b)
    ensures forall k: int :: Multiple(k, b) && m < k ==> k >= m + b
  {
    MultipleIs(m + b, b, m / b + 1);
    forall k: int | Multiple(k, b) && m < k
      ensures k >= m + b
    {
      MultipleMinus(k, m, b);
      MulAtLeast(b, (k - m) / b);
    }
  }

  lemma FitsIffSuits(cs: seq<Chan>, max: Ratio, lcm: nat, previous: int)
    requires InStep(cs, max, lcm, previous)
    ensures Fits(cs, max, lcm, previous) <==> Suits(cs, max, lcm, previous)
  {
    hide Divider, Limit, LcmOf, Multiple, NoStepLeft, LeastLimit;
    if cs != [] && AllTimed(cs) {
      GoalAgainstPrevious(cs, max, lcm, previous);
      NotBehindParts(cs, max, previous);
    } else if cs != [] {
      UntimedGoal(cs, max, lcm, previous);
    }
  }

  lemma NotBehindParts(cs: seq<Chan>, max: Ratio, previous: int)
    requires AllValid(cs) && max.Valid() && AllTimed(cs)
    ensures (forall i :: 0 <= i < |cs| ==> NotBehind(cs[i], max, previous)) <==>
            NoneBehind(cs, max, previous) && NoneOverrun(cs)
  {
    hide Divider;
    if forall i :: 0 <= i < |cs| ==> NotBehind(cs[i], max, previous) {
      forall i | 0 <= i < |cs|
        ensures cs[i].acquired * Divider(max, cs[i].rate) >= previous && !cs[i].overrun
      {
        assert NotBehind(cs[i], max, previous);
      }
    }
  }

  lemma UntimedGoal(cs: seq<Chan>, max: Ratio, lcm: nat, previous: int)
    requires AllValid(cs) && max.Valid() && lcm > 0 && !AllTimed(cs)
    ensures Goal(cs, max, lcm, previous) == 0
    ensures exists i :: 0 <= i < |cs| && !NotBehind(cs[i], max, previous)
  {
    var i :| 0 <= i < |cs| && !cs[i].timed;
    assert !NotBehind(cs[i], max, previous);
  }

  /** From aligned channels, a call asks for legal amounts and leaves the channels aligned exactly when it fits them. */
  lemma CallKeepsAlignmentIff(cs: seq<Chan>, max: Ratio, lcm: nat, previous: int)
    requires InStep(cs, max, lcm, previous)
    ensures var goal := Goal(cs, max, lcm, previous);
            Legal(cs, max, goal) && InStep(AllDelivered(cs, max, goal), max, lcm, goal) <==>
              Fits(cs, max, lcm, previous)
  {
    hide Goal, Legal, Fits, Suits, AllDelivered;
    SuitableCall(cs, max, lcm, previous);
    FitsIffSuits(cs, max, lcm, previous);
  }

  predicate SomeAsked(cs: seq<Chan>) {
    exists i :: 0 <= i < |cs| && Asked(cs[i])
  }

  predicate AsksBackwards(cs: seq<Chan>, max: Ratio, goal: int)
    requires AllValid(cs) && max.Valid() && AllDivide(cs, max)
  {
    exists i :: 0 <= i < |cs| && Asked(cs[i]) && Request(cs[i], max, goal) < 0
  }

  /** A channel is asked for a negative number of samples exactly when one is asked at all and, with something delivered
      before, a channel has no timing, or a channel is behind what was delivered. */
  lemma AsksBackwardsIff(cs: seq<Chan>, max: Ratio, lcm: nat, previous: int)
    requires InStep(cs, max, lcm, previous)
    ensures AsksBackwards(cs, max, Goal(cs, max, lcm, previous)) <==>
            SomeAsked(cs) && (if AllTimed(cs) then !NoneBehind(cs, max, previous) else previous > 0)
  {
    hide Divider, Goal, LcmOf, Request, Multiple, Divides, NoneBehind, NoStepLeft;
    var goal := Goal(cs, max, lcm, previous);
    GoalIsRounded(cs, max, lcm, previous);
    if AllTimed(cs) {
      if cs != [] {
        GoalAgainstPrevious(cs, max, lcm, previous);
      }
    } else {
      UntimedGoal(cs, max, lcm, previous);
    }
    forall i: nat | i < |cs|
      ensures Request(cs[i], max, goal) >= 0 <==> goal >= previous
    {
      EachChannel(cs, max, lcm, previous, goal, i);
    }
  }

  /** Point `m` is a whole number of samples of every channel, and every channel can be read up to it. */
  predicate Feasible(cs: seq<Chan>, max: Ratio, previous: int, m: int)
    requires AllValid(cs) && max.Valid() && AllDivide(cs, max)
  {
    forall i :: 0 <= i < |cs| ==> Multiple(m, Divider(max, cs[i].rate)) && CanReach(cs[i], max, previous, m)
  }

  /** When all channels have timing, the goal is a point that all can be read up to, and there is no further one. */
  lemma GoalIsFurthest(cs: seq<Chan>, max: Ratio, lcm: nat, previous: int, m: nat)
    requires InStep(cs, max, lcm, previous) && cs != [] && AllTimed(cs)
    ensures Feasible(cs, max, previous, Goal(cs, max, lcm, previous))
    ensures Feasible(cs, max, previous, m) ==> m <= Goal(cs, max, lcm, previous)
  {
    hide Divider, Goal, Limit, LcmOf, Multiple, Divides, CanReach;
    var goal := Goal(cs, max, lcm, previous);
    GoalIsRounded(cs, max, lcm, previous);
    AcquiredIsNat(cs, max, previous);
    forall i: nat | i < |cs|
      ensures Multiple(goal, Divider(max, cs[i].rate)) && CanReach(cs[i], max, previous, goal)
      ensures CanReach(cs[i], max, previous, m) <==> m <= Limit(cs[i], max, previous)
    {
      MultipleOfDivider(cs, max, lcm, goal, i);
      CanReachIff(cs[i], max, previous, goal);
      CanReachIff(cs[i], max, previous, m);
    }
    CommonIffMultipleOfLcm(Dividers(cs, max), m);
  }

  /** Without timing of all channels, or without channels, the goal is the beginning. */
  lemma NoTimingNoGoal(cs: seq<Chan>, max: Ratio, lcm: nat, previous: int)
    requires AllValid(cs) && max.Valid() && lcm > 0 && (cs == [] || exists i :: 0 <= i < |cs| && !cs[i].timed)
    ensures Goal(cs, max, lcm, previous) == 0
  {
  }

  /** What a call does to a channel: brought to the goal, in whole samples, exactly if it has timing and no overrun. */
  lemma DeliveredIs(cs: seq<Chan>, max: Ratio, lcm: nat, previous: int, i: nat)
    requires InStep(cs, max, lcm, previous) && i < |cs|
    ensures var goal := Goal(cs, max, lcm, previous);
            var c, d := cs[i], AllDelivered(cs, max, goal)[i];
            && (c.timed && !c.overrun ==> d.total * Divider(max, c.rate) == goal)
            && (!c.timed || c.overrun ==> d.total == c.total)
            && d == c.(total := d.total)
  {
    hide Divider, Goal, LcmOf, Request, Multiple, Divides;
    GoalIsRounded(cs, max, lcm, previous);
    EachChannel(cs, max, lcm, previous, Goal(cs, max, lcm, previous), i);
  }

  /** Aligned channels have delivered the same time: counts are to each other as the rates are. */
  lemma AlignedIsSameTime(cs: seq<Chan>, max: Ratio, lcm: nat, previous: int, i: nat, j: nat)
    requires InStep(cs, max, lcm, previous) && i < |cs| && j < |cs|
    ensures cs[i].total * (cs[i].rate.den * cs[j].rate.num) == cs[j].total * (cs[j].rate.den * cs[i].rate.num)
  {
    hide Divider, LcmOf, Multiple, Divides;
    var a, b := cs[i].rate, cs[j].rate;
    var d, e := Divider(max, a), Divider(max, b);
    DividerIsPositive(max, a);
    DividerIsPositive(max, b);
    SameTime(cs[i].total, cs[j].total, d, e, a, b, max);
  }

  lemma Regroup(m: int, t: int, x: int, y: int, d: int, z: int)
    requires m * x == d * z
    ensures (t * (x * y)) * m == (t * d) * (z * y)
  {
    assert (t * (x * y)) * m == (t * y) * (m * x);
    assert (t * y) * (d * z) == (t * d) * (z * y);
  }

  lemma SameTime(t: int, u: int, d: nat, e: nat, a: Ratio, b: Ratio, max: Ratio)
    requires a.Valid() && b.Valid() && max.Valid() && t * d == u * e
    requires max.num * a.den == d * (max.den * a.num) && max.num * b.den == e * (max.den * b.num)
    ensures t * (a.den * b.num) == u * (b.den * a.num)
  {
    Regroup(max.num, t, a.den, b.num, d, max.den * a.num);
    Regroup(max.num, u, b.den, a.num, e, max.den * b.num);
    assert (max.den * a.num) * b.num == (max.den * b.num) * a.num;
    CancelOrder(t * (a.den * b.num), u * (b.den * a.num), max.num);
    CancelOrder(u * (b.den * a.num), t * (a.den * b.num), max.num);
  }

  // ---------- whole runs ----------

  /** What a channel's server shows at a call. */
  datatype Reading = Reading(timed: bool, overrun: bool, acquired: nat)

  function Read(cs: seq<Chan>, readings: seq<Reading>): (ds: seq<Chan>)
    requires |readings| == |cs|
    ensures |ds| == |cs|
  {
    seq(|cs|, i requires 0 <= i < |cs| =>
      cs[i].(timed := readings[i].timed, overrun := readings[i].overrun, acquired := readings[i].acquired))
  }

  lemma ReadKeepsStep(cs: seq<Chan>, max: Ratio, lcm: nat, previous: int, readings: seq<Reading>)
    requires |readings| == |cs| && InStep(cs, max, lcm, previous)
    ensures InStep(Read(cs, readings), max, lcm, previous)
  {
    hide Divider, Divides, LcmOf, Multiple;
    var ds := Read(cs, readings);
    assert AllValid(ds) && AllDivide(ds, max);
    assert Dividers(ds, max) == Dividers(cs, max);
  }

  predicate Shaped(cs: seq<Chan>, calls: seq<seq<Reading>>) {
    forall k :: 0 <= k < |calls| ==> |calls[k]| == |cs|
  }

  /** Every call of the run asks for legal amounts and leaves the channels aligned. */
  ghost predicate StaysAligned(cs: seq<Chan>, max: Ratio, lcm: nat, previous: int, calls: seq<seq<Reading>>)
    requires Ready(cs, max, lcm) && Shaped(cs, calls)
    decreases |calls|
  {
    calls == [] ||
    var now := Read(cs, calls[0]);
    && Ready(now, max, lcm)
    && var goal := Goal(now, max, lcm, previous);
    && Legal(now, max, goal)
    && InStep(AllDelivered(now, max, goal), max, lcm, goal)
    && StaysAligned(AllDelivered(now, max, goal), max, lcm, goal, calls[1..])
  }

  /** Every call of the run fits its channels. */
  ghost predicate AllFit(cs: seq<Chan>, max: Ratio, lcm: nat, previous: int, calls: seq<seq<Reading>>)
    requires Ready(cs, max, lcm) && Shaped(cs, calls)
    decreases |calls|
  {
    calls == [] ||
    var now := Read(cs, calls[0]);
    && Ready(now, max, lcm)
    && Fits(now, max, lcm, previous)
    && (StillReady(now, max, lcm, Goal(now, max, lcm, previous));
        AllFit(AllDelivered(now, max, Goal(now, max, lcm, previous)), max, lcm, Goal(now, max, lcm, previous),
          calls[1..]))
  }

  lemma {:induction false} RunStaysAlignedIff(cs: seq<Chan>, max: Ratio, lcm: nat, previous: int,
                                              calls: seq<seq<Reading>>)
    requires InStep(cs, max, lcm, previous) && Shaped(cs, calls)
    ensures StaysAligned(cs, max, lcm, previous, calls) <==> AllFit(cs, max, lcm, previous, calls)
    decreases |calls|
  {
    hide Ready, InStep, Legal, Fits, Goal;
    if calls != [] {
      var now := Read(cs, calls[0]);
      StepIsReady(cs, max, lcm, previous);
      ReadKeepsStep(cs, max, lcm, previous, calls[0]);
      StepIsReady(now, max, lcm, previous);
      var goal := Goal(now, max, lcm, previous);
      CallKeepsAlignmentIff(now, max, lcm, previous);
      StillReady(now, max, lcm, goal);
      if InStep(AllDelivered(now, max, goal), max, lcm, goal) {
        RunStaysAlignedIff(AllDelivered(now, max, goal), max, lcm, goal, calls[1..]);
      }
    }
  }

  lemma StepIsReady(cs: seq<Chan>, max: Ratio, lcm: nat, previous: int)
    requires InStep(cs, max, lcm, previous)
    ensures Ready(cs, max, lcm)
  {
  }

  /** After the start, with nothing delivered yet, the channels are aligned. */
  lemma StartIsInStep(cs: seq<Chan>, max: Ratio, lcm: nat)
    requires Ready(cs, max, lcm) && forall i :: 0 <= i < |cs| ==> cs[i].total == 0
    ensures InStep(cs, max, lcm, 0)
  {
    hide Divider, Divides, LcmOf;
  }

  /** A channel that loses its timing makes the others be asked for a negative number of samples. */
  lemma LostTimingAsksBackwards()
    ensures var rate := Ratio(1, 1);
            var a, b := Chan(rate, 10, true, false, 7, 5), Chan(rate, 10, false, false, 7, 5);
            && InStep([a, b], rate, 1, 5) && !Fits([a, b], rate, 1, 5)
            && Request(a, rate, Goal([a, b], rate, 1, 5)) == -5
  {
    var rate := Ratio(1, 1);
    var a, b := Chan(rate, 10, true, false, 7, 5), Chan(rate, 10, false, false, 7, 5);
    assert Dividers([a, b], rate) == [1, 1];
    LcmOnes();
    assert !AllTimed([a, b]) by { assert ![a, b][1].timed; }
    assert !NotBehind([a, b][1], rate, 5);
  }

  lemma LcmOnes()
    ensures LcmOf([1, 1]) == 1
  {
    assert [1, 1][..1] == [1] && [1][..0] == [];
    assert CommonMultiple(1, 1, 1);
    assert Lcm(1, 1) == 1;
  }
}
