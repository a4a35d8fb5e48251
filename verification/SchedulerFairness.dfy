/** How soon and how often an entry is sampled, over every run of the scheduler. */
module SchedulerFairness {
  import opened SamplingItems
  import opened SchedulerProtocol

  /** The step selects an entry for a sample. */
  predicate TakesSample(s: State, l: Label) {
    l.Act? && s.pc.Deciding? && Decide(s.shared, s.clock, s.gone).Sample?
  }

  /** The step selects the entry with this serial number. */
  predicate Samples(s: State, l: Label, serial: nat) {
    && TakesSample(s, l)
    && Decide(s.shared, s.clock, s.gone).entry.serial == serial
  }

  // ---------- one step ----------

  /** Every entry known before the step is where it was, or was sampled and moved its own deadline. */
  lemma EntryStep(s: State, l: Label, t: State, f: Entry)
    returns (e: Entry)
    requires Inv(s) && Steps(s, l, t)
    requires f in t.shared.items && f.serial < s.shared.nextSerial
    ensures e in s.shared.items && e.serial == f.serial && e.item == f.item
    ensures Samples(s, l, f.serial) ==>
              e == Decide(s.shared, s.clock, s.gone).entry &&
                f.nextDue == AdvanceDeadline(e.nextDue, s.clock, l.intervalMs)
    ensures !Samples(s, l, f.serial) ==> f == e
  {
    hide Increasing;
    e := f;
    if l.Act? {
      var i := FirstDue(s.shared.items);
      match Decide(s.shared, s.clock, s.gone) {
        case Sample(d) =>
          var j :| 0 <= j < |s.shared.items| && t.shared.items[j] == f;
          e := s.shared.items[j];
          SerialsDiffer(s.shared.items, i, j, s.shared.nextSerial);
        case Forget(_) =>
          e := NotRemoved(s.shared.items, i, f);
        case _ =>
      }
    }
  }

  lemma SerialsDiffer(items: seq<Entry>, i: nat, j: nat, bound: nat)
    requires Increasing(items, bound) && i < |items| && j < |items|
    ensures items[i].serial == items[j].serial <==> i == j
  {
  }

  lemma NotRemoved(items: seq<Entry>, i: nat, f: Entry) returns (e: Entry)
    requires i < |items| && f in RemoveAt(items, i)
    ensures e == f && e in items
  {
    e := f;
    var j :| 0 <= j < |items| - 1 && RemoveAt(items, i)[j] == f;
    assert f == items[if j < i then j else j + 1];
  }

  lemma SerialsGrow(s: State, l: Label, t: State)
    requires Steps(s, l, t)
    ensures s.shared.nextSerial <= t.shared.nextSerial && s.clock <= t.clock
  {
  }

  lemma KnownSerial(s: State, e: Entry)
    requires Inv(s) && e in s.shared.items
    ensures e.serial < s.shared.nextSerial
  {
    var j :| 0 <= j < |s.shared.items| && s.shared.items[j] == e;
  }

  /** A new entry is due at once. */
  lemma NewEntryStep(s: State, l: Label, t: State, f: Entry)
    requires Inv(s) && Steps(s, l, t)
    requires f in t.shared.items && f.serial >= s.shared.nextSerial
    ensures f.nextDue == s.clock
  {
    InvStep(s, l);
    KnownSerial(t, f);
    if f in s.shared.items {
      KnownSerial(s, f);
    }
  }

  // ---------- bounded bypass ----------

  /** Who the loop prefers to `e`: an earlier deadline, or the same one and registered before. */
  predicate Precedes(f: Entry, e: Entry) {
    f.nextDue < e.nextDue || (f.nextDue == e.nextDue && f.serial < e.serial)
  }

  ghost function Rivals(s: State, e: Entry): set<nat> {
    set f | f in s.shared.items && Precedes(f, e) :: f.serial
  }

  /** The entry a sample is taken of precedes every other entry. */
  lemma SampledPrecedes(s: State, e: Entry)
    requires Inv(s) && Decide(s.shared, s.clock, s.gone).Sample? && e in s.shared.items
    ensures var d := Decide(s.shared, s.clock, s.gone).entry;
            d in s.shared.items && (d == e || Precedes(d, e))
  {
    var items := s.shared.items;
    var i := FirstDue(items);
    var j :| 0 <= j < |items| && items[j] == e;
    assert items[i] in items;
    if j < i {
    } else if i < j {
      assert items[i].serial < items[j].serial;
    }
  }

  /** While `e` is due and stays, no step gains it a rival, and the one sampled stops being one. */
  lemma RivalStep(s: State, l: Label, t: State, e: Entry)
    requires Inv(s) && Steps(s, l, t)
    requires e in s.shared.items && e in t.shared.items && e.nextDue <= s.clock
    ensures Rivals(t, e) <= Rivals(s, e)
    ensures forall q :: Samples(s, l, q) ==> q in Rivals(s, e) && q !in Rivals(t, e)
  {
    KnownSerial(s, e);
    forall f | f in t.shared.items && Precedes(f, e)
      ensures f in s.shared.items && !Samples(s, l, f.serial)
    {
      if f.serial >= s.shared.nextSerial {
        NewEntryStep(s, l, t, f);
        assert false;
      }
      var g := EntryStep(s, l, t, f);
    }
    forall q | Samples(s, l, q)
      ensures q in Rivals(s, e) && q !in Rivals(t, e)
    {
      var d := Decide(s.shared, s.clock, s.gone).entry;
      SampledPrecedes(s, e);
      if d == e {
        var g := EntryStep(s, l, t, e);
        assert false;
      }
    }
  }

  ghost predicate Stays(r: Run, i: nat, j: nat, e: Entry)
    requires Valid(r) && i <= j < |r.states|
  {
    forall k :: i <= k <= j ==> e in r.states[k].shared.items
  }

  /** How many samples the loop takes in the steps from `i` up to `j`. */
  ghost function SampleCount(r: Run, i: nat, j: nat): nat
    requires Valid(r) && i <= j < |r.states|
  {
    if i == j then 0
    else SampleCount(r, i, j - 1) + if TakesSample(r.states[j - 1], r.labels[j - 1]) then 1 else 0
  }

  lemma {:induction false} RivalsShrink(s: set<nat>, t: set<nat>)
    requires s <= t
    ensures |s| <= |t| && (|s| == |t| ==> s == t)
  {
    if s != {} {
      var q :| q in s;
      RivalsShrink(s - {q}, t - {q});
    }
  }

  lemma {:induction false} ClockGrows(r: Run, i: nat, j: nat)
    requires Valid(r) && i <= j < |r.states|
    ensures r.states[i].clock <= r.states[j].clock && r.states[i].shared.nextSerial <= r.states[j].shared.nextSerial
  {
    if i < j {
      ClockGrows(r, i, j - 1);
      StepOf(r, j - 1);
      SerialsGrow(r.states[j - 1], r.labels[j - 1], r.states[j]);
    }
  }

  lemma RunRivalStep(r: Run, i: nat, m: nat, e: Entry)
    requires Valid(r) && Inv(r.states[0]) && i <= m < |r.labels|
    requires Stays(r, i, m + 1, e) && e.nextDue <= r.states[i].clock
    ensures Rivals(r.states[m + 1], e) <= Rivals(r.states[m], e)
    ensures forall q: nat :: Samples(r.states[m], r.labels[m], q) ==>
              q in Rivals(r.states[m], e) && q !in Rivals(r.states[m + 1], e)
  {
    InvHolds(r, m);
    StepOf(r, m);
    ClockGrows(r, i, m);
    RivalStep(r.states[m], r.labels[m], r.states[m + 1], e);
  }

  lemma {:induction false} RivalsOnlyLeave(r: Run, i: nat, j: nat, e: Entry)
    requires Valid(r) && Inv(r.states[0]) && i <= j < |r.states|
    requires Stays(r, i, j, e) && e.nextDue <= r.states[i].clock
    ensures Rivals(r.states[j], e) <= Rivals(r.states[i], e)
  {
    hide Inv, Rivals, Samples;
    if i < j {
      RivalsOnlyLeave(r, i, j - 1, e);
      RunRivalStep(r, i, j - 1, e);
    }
  }

  /** Whoever is sampled while `e` is due was a rival before, and is none afterwards. */
  lemma SampledLeaves(r: Run, i: nat, k: nat, j: nat, e: Entry, q: nat)
    requires Valid(r) && Inv(r.states[0]) && i <= k < j < |r.states|
    requires Stays(r, i, j, e) && e.nextDue <= r.states[i].clock && Samples(r.states[k], r.labels[k], q)
    ensures q in Rivals(r.states[i], e) && q !in Rivals(r.states[j], e)
  {
    hide Inv, Rivals, Samples;
    ClockGrows(r, i, k);
    ClockGrows(r, i, k + 1);
    RivalsOnlyLeave(r, i, k, e);
    RunRivalStep(r, i, k, e);
    RivalsOnlyLeave(r, k + 1, j, e);
  }

  lemma {:induction false} BypassBudget(r: Run, i: nat, j: nat, e: Entry)
    requires Valid(r) && Inv(r.states[0]) && i <= j < |r.states|
    requires Stays(r, i, j, e) && e.nextDue <= r.states[i].clock
    ensures SampleCount(r, i, j) + |Rivals(r.states[j], e)| <= |Rivals(r.states[i], e)|
  {
    if i < j {
      var m := j - 1;
      BypassBudget(r, i, m, e);
      RunRivalStep(r, i, m, e);
      RivalsShrink(Rivals(r.states[j], e), Rivals(r.states[m], e));
      if TakesSample(r.states[m], r.labels[m]) {
        assert Samples(r.states[m], r.labels[m],
               Decide(r.states[m].shared, r.states[m].clock, r.states[m].gone).entry.serial);
      }
    }
  }

  /** A rival is another entry, registered no later than now. */
  lemma RivalIsOther(s: State, e: Entry, q: nat)
    requires Inv(s) && e in s.shared.items && q in Rivals(s, e)
    ensures q < s.shared.nextSerial && q != e.serial
  {
    var f :| f in s.shared.items && Precedes(f, e) && f.serial == q;
    KnownSerial(s, f);
    var x :| 0 <= x < |s.shared.items| && s.shared.items[x] == f;
    var y :| 0 <= y < |s.shared.items| && s.shared.items[y] == e;
  }

  lemma SampledOnce(r: Run, i: nat, k: nat, m: nat, e: Entry, q: nat)
    requires Valid(r) && Inv(r.states[0]) && i <= k < m < |r.labels|
    requires Stays(r, i, m + 1, e) && e.nextDue <= r.states[i].clock
    requires Samples(r.states[k], r.labels[k], q)
    ensures !Samples(r.states[m], r.labels[m], q)
  {
    ClockGrows(r, i, k);
    ClockGrows(r, i, m);
    SampledLeaves(r, k, k, m, e, q);
    RunRivalStep(r, i, m, e);
  }

  /** Once due, an entry that stays registered is passed over at most once by each entry that precedes it,
      never by one registered later, and so by fewer samples than there are entries. */
  lemma BoundedBypass(r: Run, i: nat, j: nat, e: Entry)
    requires FromInit(r) && i <= j < |r.states|
    requires Stays(r, i, j, e) && e.nextDue <= r.states[i].clock
    ensures SampleCount(r, i, j) < |r.states[i].shared.items|
    ensures forall k: nat, q: nat :: i <= k < j && Samples(r.states[k], r.labels[k], q) ==>
                                       q < r.states[i].shared.nextSerial && q != e.serial
    ensures forall k: nat, m: nat, q: nat :: i <= k < m < j && Samples(r.states[k], r.labels[k], q) ==>
                                               !Samples(r.states[m], r.labels[m], q)
  {
    InvHolds(r, i);
    BypassBudget(r, i, j, e);
    RivalsAreFewer(r.states[i], e);
    forall k: nat, q: nat | i <= k < j && Samples(r.states[k], r.labels[k], q)
      ensures q < r.states[i].shared.nextSerial && q != e.serial
    {
      SampledLeaves(r, i, k, j, e, q);
      RivalIsOther(r.states[i], e, q);
    }
    forall k: nat, m: nat, q: nat | i <= k < m < j && Samples(r.states[k], r.labels[k], q)
      ensures !Samples(r.states[m], r.labels[m], q)
    {
      SampledOnce(r, i, k, m, e, q);
    }
  }

  lemma RivalsAreFewer(s: State, e: Entry)
    requires e in s.shared.items && Inv(s)
    ensures |Rivals(s, e)| < |s.shared.items|
  {
    var all := set f | f in s.shared.items :: f.serial;
    SerialsCount(s.shared.items);
    assert e.serial in all;
    forall q | q in Rivals(s, e)
      ensures q in all && q != e.serial
    {
      var f :| f in s.shared.items && Precedes(f, e) && f.serial == q;
      var x :| 0 <= x < |s.shared.items| && s.shared.items[x] == f;
      var y :| 0 <= y < |s.shared.items| && s.shared.items[y] == e;
    }
    RivalsShrink(Rivals(s, e), all);
  }

  lemma {:induction false} SerialsCount(items: seq<Entry>)
    ensures |set f | f in items :: f.serial| <= |items|
  {
    var all := set f | f in items :: f.serial;
    if items != [] {
      var before, last := items[..|items| - 1], items[|items| - 1];
      SerialsCount(before);
      var some := set f | f in before :: f.serial;
      assert all <= some + {last.serial} by {
        forall f | f in items
          ensures f.serial in some + {last.serial}
        {
          assert f in before || f == last;
        }
      }
      RivalsShrink(all, some + {last.serial});
    }
  }

  // ---------- rate ----------

  /** The intervals used by the samples of one entry in the steps from `i` up to `j`, added up. */
  ghost function Allowance(r: Run, i: nat, j: nat, serial: nat): int
    requires Valid(r) && i <= j < |r.states|
  {
    if i == j then 0
    else
      Allowance(r, i, j - 1, serial)
      + if Samples(r.states[j - 1], r.labels[j - 1], serial) then Clamped(r.labels[j - 1].intervalMs) else 0
  }

  /** Every sample of the entry in these steps was taken less than one interval after its deadline. */
  ghost predicate NeverOverrun(r: Run, i: nat, j: nat, serial: nat)
    requires Valid(r) && i <= j < |r.states|
  {
    forall k :: i <= k < j && Samples(r.states[k], r.labels[k], serial) ==>
                  r.states[k].clock < Decide(r.states[k].shared, r.states[k].clock, r.states[k].gone).entry.nextDue
                                      + Clamped(r.labels[k].intervalMs)
  }

  /** A deadline never runs ahead of the clock by catching up, and without overruns it does not drift. */
  lemma {:induction false} DeadlinesKeepTheRate(r: Run, i: nat, j: nat, f: Entry) returns (e: Entry)
    requires Valid(r) && Inv(r.states[0]) && i <= j < |r.states|
    requires f in r.states[j].shared.items && f.serial < r.states[i].shared.nextSerial
    ensures e in r.states[i].shared.items && e.serial == f.serial
    ensures f.nextDue >= e.nextDue + Allowance(r, i, j, f.serial)
    ensures NeverOverrun(r, i, j, f.serial) ==> f.nextDue == e.nextDue + Allowance(r, i, j, f.serial)
  {
    e := f;
    if i < j {
      var m := j - 1;
      InvHolds(r, m);
      StepOf(r, m);
      ClockGrows(r, i, m);
      var g := EntryStep(r.states[m], r.labels[m], r.states[j], f);
      e := DeadlinesKeepTheRate(r, i, m, g);
    }
  }

  lemma SampledEntry(s: State, l: Label, serial: nat) returns (e: Entry)
    requires Inv(s) && Samples(s, l, serial)
    ensures e in s.shared.items && e.serial == serial && e.nextDue <= s.clock
  {
    e := s.shared.items[FirstDue(s.shared.items)];
  }

  lemma SampledMovesPastNow(s: State, l: Label, t: State, f: Entry)
    requires Inv(s) && Steps(s, l, t)
    requires f in t.shared.items && Samples(s, l, f.serial)
    ensures f.nextDue > s.clock
  {
    var sampled := SampledEntry(s, l, f.serial);
    KnownSerial(s, sampled);
    var e := EntryStep(s, l, t, f);
  }

  /** Two samples of one entry are further apart than all the intervals of the samples between them. */
  lemma NoCatchUpBurst(r: Run, a: nat, b: nat, serial: nat)
    requires FromInit(r) && a < b < |r.labels|
    requires Samples(r.states[a], r.labels[a], serial) && Samples(r.states[b], r.labels[b], serial)
    ensures r.states[b].clock > r.states[a].clock + Allowance(r, a + 1, b, serial)
  {
    hide Inv, Steps;
    InvHolds(r, a);
    InvHolds(r, b);
    var sampled := SampledEntry(r.states[a], r.labels[a], serial);
    KnownSerial(r.states[a], sampled);
    ClockGrows(r, a, a + 1);
    var last := SampledEntry(r.states[b], r.labels[b], serial);
    var first := DeadlinesKeepTheRate(r, a + 1, b, last);
    StepOf(r, a);
    SampledMovesPastNow(r.states[a], r.labels[a], r.states[a + 1], first);
  }
}
