/** Revalidation passes: when they run, and whom they call how often. */
module SchedulerRevalidation {
  import opened SamplingItems
  import opened SchedulerProtocol
  import opened SchedulerFairness
  import opened SchedulerSafety

  /** The step starts a revalidation pass. */
  predicate StartsPass(s: State, l: Label) {
    l.Act? && s.pc.Deciding? && Decide(s.shared, s.clock, s.gone).StartPass?
  }

  /** The thread is inside the pass over `snapshot`. */
  predicate InPass(s: State, snapshot: seq<nat>) {
    match s.pc
    case Passing(snap, turn) => snap == snapshot && turn <= |snapshot|
    case Calling(_, _, _, _, ToPass(snap, turn)) => snap == snapshot && turn <= |snapshot|
    case Releasing(_, ToPass(snap, turn)) => snap == snapshot && turn <= |snapshot|
    case Relocking(ToPass(snap, turn)) => snap == snapshot && turn <= |snapshot|
    case _ => false
  }

  /** How many turns of it have been taken. */
  function TurnsDone(s: State, snapshot: seq<nat>): nat
    requires InPass(s, snapshot)
  {
    match s.pc
    case Passing(_, turn) => turn
    case Calling(_, _, _, _, ToPass(_, turn)) => turn
    case Releasing(_, ToPass(_, turn)) => turn
    case Relocking(ToPass(_, turn)) => turn
  }

  predicate Finished(s: State, snapshot: seq<nat>) {
    s.pc == Passing(snapshot, |snapshot|)
  }

  lemma PassStep(s: State, l: Label, t: State, snapshot: seq<nat>)
    requires Steps(s, l, t) && InPass(s, snapshot)
    ensures InPass(t, snapshot) || Finished(s, snapshot) || !t.shared.running
    ensures InPass(t, snapshot) ==>
              TurnsDone(t, snapshot) == TurnsDone(s, snapshot) + if l.Turn? then 1 else 0
    ensures InPass(t, snapshot) && l.Turn? ==> TurnsDone(s, snapshot) < |snapshot| && s.shared.running
  {
  }

  // ---------- revalidation comes before sampling ----------

  lemma PendingStep(s: State, l: Label, t: State)
    requires Steps(s, l, t) && s.shared.revalidatePending
    ensures t.shared.revalidatePending || StartsPass(s, l)
    ensures !TakesSample(s, l)
  {
  }

  lemma {:induction false} PassBeforeSample(r: Run, i: nat, j: nat) returns (p: nat)
    requires Valid(r) && i <= j < |r.labels|
    requires r.states[i].shared.revalidatePending && TakesSample(r.states[j], r.labels[j])
    ensures i <= p < j && StartsPass(r.states[p], r.labels[p])
    decreases j - i
  {
    StepOf(r, i);
    PendingStep(r.states[i], r.labels[i], r.states[i + 1]);
    if StartsPass(r.states[i], r.labels[i]) {
      p := i;
    } else {
      p := PassBeforeSample(r, i + 1, j);
    }
  }

  /** The thread is inside the pass over `snapshot` in all states from `i` up to `j`. */
  ghost predicate StaysInPass(r: Run, i: nat, j: nat, snapshot: seq<nat>)
    requires i <= j < |r.states|
  {
    forall k :: i <= k <= j ==> InPass(r.states[k], snapshot)
  }

  /** A whole pass: it begins right after step `p`, is not left, and has taken all its turns in state `m`. */
  ghost predicate WholePass(r: Run, p: nat, m: nat, snapshot: seq<nat>)
    requires p < m < |r.states|
  {
    r.states[p + 1].pc == Passing(snapshot, 0) && StaysInPass(r, p + 1, m, snapshot) && Finished(r.states[m], snapshot)
  }

  lemma PassBegins(s: State, l: Label, t: State)
    requires Steps(s, l, t) && StartsPass(s, l)
    ensures t.pc == Passing(ItemsOf(s.shared.items), 0)
  {
  }

  /** Once started, a pass is being run, has run to its end, or the scheduler was stopped. */
  lemma {:induction false} PassRunsOn(r: Run, p: nat, k: nat, snapshot: seq<nat>) returns (m: nat)
    requires Valid(r) && p < k < |r.states|
    requires StartsPass(r.states[p], r.labels[p]) && snapshot == ItemsOf(r.states[p].shared.items)
    ensures p < m <= k
    ensures WholePass(r, p, m, snapshot) || StaysInPass(r, p + 1, k, snapshot) || !r.states[k].shared.running
  {
    hide StartsPass, InPass, Finished, Steps;
    StepOf(r, p);
    PassBegins(r.states[p], r.labels[p], r.states[p + 1]);
    m := k;
    if k - 1 > p {
      m := PassRunsOn(r, p, k - 1, snapshot);
      StepOf(r, k - 1);
      if !r.states[k - 1].shared.running {
        StopsForGood(r.states[k - 1], r.labels[k - 1], r.states[k]);
      }
      if !WholePass(r, p, m, snapshot) && StaysInPass(r, p + 1, k - 1, snapshot) {
        PassStep(r.states[k - 1], r.labels[k - 1], r.states[k], snapshot);
        m := k - 1;
      }
    } else {
      PassingIsInPass(r.states[k], snapshot);
    }
  }

  lemma PassingIsInPass(s: State, snapshot: seq<nat>)
    requires s.pc == Passing(snapshot, 0)
    ensures InPass(s, snapshot)
  {
  }

  lemma StopsForGood(s: State, l: Label, t: State)
    requires Steps(s, l, t) && !s.shared.running
    ensures !t.shared.running
  {
  }

  lemma SampleIsOutside(s: State, l: Label, snapshot: seq<nat>)
    requires TakesSample(s, l)
    ensures s.shared.running && !InPass(s, snapshot)
  {
  }

  /** Between a reconnect and the next sample a whole pass runs, over all items registered when it started. */
  lemma RevalidationPrecedesSampling(r: Run, i: nat, j: nat) returns (p: nat, m: nat)
    requires FromInit(r) && i < j < |r.labels|
    requires r.labels[i] == Reconnect && TakesSample(r.states[j], r.labels[j])
    ensures i < p < m <= j
    ensures StartsPass(r.states[p], r.labels[p]) && WholePass(r, p, m, ItemsOf(r.states[p].shared.items))
  {
    hide StartsPass, TakesSample, InPass;
    StepOf(r, i);
    p := PassBeforeSample(r, i + 1, j);
    m := PassRunsOn(r, p, j, ItemsOf(r.states[p].shared.items));
    SampleIsOutside(r.states[j], r.labels[j], ItemsOf(r.states[p].shared.items));
  }

  // ---------- whom a pass calls ----------

  /** The turns taken in the steps from `i` up to `j`: the item, and whether it could be called then. */
  ghost function TurnsTaken(r: Run, i: nat, j: nat): seq<(nat, bool)>
    requires Valid(r) && i <= j < |r.states|
  {
    if i == j then []
    else
      var s, l := r.states[j - 1], r.labels[j - 1];
      TurnsTaken(r, i, j - 1)
      + if l.Turn? && s.pc.Passing? && s.pc.turn < |s.pc.snapshot| && s.shared.running
        then [(s.pc.snapshot[s.pc.turn], Eligible(s.shared, s.pc.snapshot[s.pc.turn], s.gone))]
        else []
  }

  /** The items that `onConnectionRestored` is called on in the steps from `i` up to `j`, in order. */
  ghost function Restored(r: Run, i: nat, j: nat): seq<nat>
    requires Valid(r) && i <= j < |r.states|
  {
    if i == j then []
    else
      var s, t := r.states[j - 1], r.states[j];
      Restored(r, i, j - 1)
      + if !s.pc.Calling? && t.pc.Calling? && t.pc.call == ConnectionRestored then [t.pc.item] else []
  }

  ghost function Chosen(turns: seq<(nat, bool)>): seq<nat> {
    if turns == [] then []
    else
      var last := turns[|turns| - 1];
      Chosen(turns[..|turns| - 1]) + if last.1 then [last.0] else []
  }

  lemma ChosenAppend(turns: seq<(nat, bool)>, turn: (nat, bool))
    ensures Chosen(turns + [turn]) == Chosen(turns) + if turn.1 then [turn.0] else []
  {
    assert (turns + [turn])[..|turns|] == turns;
  }

  lemma RestoredStep(s: State, l: Label, t: State, snapshot: seq<nat>)
    requires Steps(s, l, t) && InPass(s, snapshot) && InPass(t, snapshot)
    ensures !s.pc.Calling? && t.pc.Calling? <==>
            l.Turn? && Eligible(s.shared, snapshot[TurnsDone(s, snapshot)], s.gone)
    ensures !s.pc.Calling? && t.pc.Calling? ==>
              t.pc.call == ConnectionRestored && t.pc.item == snapshot[TurnsDone(s, snapshot)]
  {
  }

  lemma OneStepOfPass(r: Run, i: nat, m: nat, snapshot: seq<nat>)
    requires Valid(r) && i <= m < |r.labels|
    requires InPass(r.states[m], snapshot) && InPass(r.states[m + 1], snapshot)
    ensures r.labels[m].Turn? ==>
              && TurnsDone(r.states[m], snapshot) < |snapshot|
              && var item := snapshot[TurnsDone(r.states[m], snapshot)];
                 var turn := (item, Eligible(r.states[m].shared, item, r.states[m].gone));
              && TurnsTaken(r, i, m + 1) == TurnsTaken(r, i, m) + [turn]
              && Restored(r, i, m + 1) == Restored(r, i, m) + if turn.1 then [item] else []
    ensures !r.labels[m].Turn? ==>
              TurnsTaken(r, i, m + 1) == TurnsTaken(r, i, m) && Restored(r, i, m + 1) == Restored(r, i, m)
  {
    hide Eligible;
    StepOf(r, m);
    PassStep(r.states[m], r.labels[m], r.states[m + 1], snapshot);
    RestoredStep(r.states[m], r.labels[m], r.states[m + 1], snapshot);
  }

  /** A pass takes one turn per position of its snapshot, in order, and calls exactly the items that are
      registered with a live owner at their turn, whatever registers or unregisters meanwhile. */
  lemma {:induction false} PassTakesTurnsInOrder(r: Run, i: nat, j: nat, snapshot: seq<nat>)
    requires Valid(r) && i <= j < |r.states|
    requires r.states[i].pc == Passing(snapshot, 0) && StaysInPass(r, i, j, snapshot)
    ensures |TurnsTaken(r, i, j)| == TurnsDone(r.states[j], snapshot)
    ensures forall k :: 0 <= k < |TurnsTaken(r, i, j)| ==> TurnsTaken(r, i, j)[k].0 == snapshot[k]
    ensures Restored(r, i, j) == Chosen(TurnsTaken(r, i, j))
  {
    hide Eligible, Chosen, TurnsTaken, Restored, Steps;
    if i < j {
      var m := j - 1;
      PassTakesTurnsInOrder(r, i, m, snapshot);
      StepOf(r, m);
      PassStep(r.states[m], r.labels[m], r.states[j], snapshot);
      OneStepOfPass(r, i, m, snapshot);
      if r.labels[m].Turn? {
        var item := snapshot[TurnsDone(r.states[m], snapshot)];
        ChosenAppend(TurnsTaken(r, i, m), (item, Eligible(r.states[m].shared, item, r.states[m].gone)));
      }
    } else {
      NothingTaken(r, i);
    }
  }

  lemma NothingTaken(r: Run, i: nat)
    requires Valid(r) && i < |r.states|
    ensures TurnsTaken(r, i, i) == [] && Restored(r, i, i) == [] && Chosen([]) == []
  {
  }

  ghost predicate Distinct(items: seq<nat>) {
    forall k, m :: 0 <= k < m < |items| ==> items[k] != items[m]
  }

  lemma {:induction false} ChosenCount(turns: seq<(nat, bool)>, x: nat)
    requires forall k :: 0 <= k < |turns| ==> turns[k].0 != x
    ensures x !in Chosen(turns)
  {
    if turns != [] {
      ChosenCount(turns[..|turns| - 1], x);
    }
  }

  lemma {:induction false} DistinctChosenOnce(turns: seq<(nat, bool)>, k: nat)
    requires k < |turns|
    requires forall a, b :: 0 <= a < b < |turns| ==> turns[a].0 != turns[b].0
    ensures multiset(Chosen(turns))[turns[k].0] == if turns[k].1 then 1 else 0
  {
    var n := |turns| - 1;
    var before, last := turns[..n], turns[n];
    assert multiset(Chosen(turns)) == multiset(Chosen(before)) + multiset(if last.1 then [last.0] else []);
    if k == n {
      ChosenCount(before, last.0);
    } else {
      DistinctChosenOnce(before, k);
    }
  }

  /** In a whole pass over distinct items each is called once if it can be called at its turn, and else not. */
  lemma FinishedPassCallsOnce(r: Run, p: nat, m: nat, snapshot: seq<nat>, k: nat)
    requires Valid(r) && p < m < |r.states| && WholePass(r, p, m, snapshot)
    requires k < |snapshot| && Distinct(snapshot)
    ensures |TurnsTaken(r, p + 1, m)| == |snapshot| && TurnsTaken(r, p + 1, m)[k].0 == snapshot[k]
    ensures multiset(Restored(r, p + 1, m))[snapshot[k]] == if TurnsTaken(r, p + 1, m)[k].1 then 1 else 0
  {
    PassTakesTurnsInOrder(r, p + 1, m, snapshot);
    DistinctChosenOnce(TurnsTaken(r, p + 1, m), k);
  }

  /** Between a reconnect and the next sample, each item registered at the start of a pass, none of them twice, is
      restored exactly once if it is still registered with a live owner at its turn, and not at all otherwise. */
  lemma EachRestoredBeforeSampling(r: Run, i: nat, j: nat) returns (p: nat, m: nat)
    requires FromInit(r) && i < j < |r.labels|
    requires r.labels[i] == Reconnect && TakesSample(r.states[j], r.labels[j])
    ensures i < p < m <= j && StartsPass(r.states[p], r.labels[p])
    ensures var snapshot := ItemsOf(r.states[p].shared.items);
            var turns := TurnsTaken(r, p + 1, m);
            && |turns| == |snapshot| && (forall k :: 0 <= k < |snapshot| ==> turns[k].0 == snapshot[k])
            && (Distinct(snapshot) ==>
                  forall k :: 0 <= k < |snapshot| ==>
                                multiset(Restored(r, p + 1, m))[snapshot[k]] == if turns[k].1 then 1 else 0)
  {
    hide StartsPass, TakesSample, InPass, TurnsTaken, Restored;
    p, m := RevalidationPrecedesSampling(r, i, j);
    var snapshot := ItemsOf(r.states[p].shared.items);
    PassTakesTurnsInOrder(r, p + 1, m, snapshot);
    FinishedMeansAll(r.states[m], snapshot);
    if Distinct(snapshot) {
      forall k: nat | k < |snapshot|
        ensures multiset(Restored(r, p + 1, m))[snapshot[k]] == if TurnsTaken(r, p + 1, m)[k].1 then 1 else 0
      {
        FinishedPassCallsOnce(r, p, m, snapshot, k);
      }
    }
  }

  lemma FinishedMeansAll(s: State, snapshot: seq<nat>)
    requires Finished(s, snapshot)
    ensures InPass(s, snapshot) && TurnsDone(s, snapshot) == |snapshot|
  {
  }

  lemma {:induction false} AllChosen(turns: seq<(nat, bool)>, items: seq<nat>)
    requires |turns| == |items| && forall k :: 0 <= k < |turns| ==> turns[k] == (items[k], true)
    ensures Chosen(turns) == items
  {
    if turns != [] {
      var n := |turns| - 1;
      AllChosen(turns[..n], items[..n]);
      assert items == items[..n] + [items[n]];
    }
  }

  lemma {:induction false} DistinctIsOnce(items: seq<nat>)
    ensures Distinct(items) <==> forall x :: x in items ==> multiset(items)[x] == 1
  {
    if items != [] {
      var n := |items| - 1;
      var before, last := items[..n], items[n];
      assert items == before + [last];
      DistinctIsOnce(before);
      assert multiset(items) == multiset(before) + multiset{last};
      if Distinct(items) {
        assert last !in before;
      } else if Distinct(before) {
        var k :| 0 <= k < n && items[k] == last;
        assert before[k] in multiset(before);
        assert multiset(items)[last] >= 2;
      } else {
        var x :| x in before && multiset(before)[x] != 1;
        assert x in multiset(before);
        assert multiset(items)[x] >= 2;
      }
    }
  }

  ghost predicate CallableTwice(turns: seq<(nat, bool)>, x: nat) {
    exists a, b :: 0 <= a < b < |turns| && turns[a] == turns[b] == (x, true)
  }

  function Calls(turns: seq<(nat, bool)>, x: nat): nat {
    if turns == [] then 0
    else Calls(turns[..|turns| - 1], x) + if turns[|turns| - 1] == (x, true) then 1 else 0
  }

  lemma {:induction false} ChosenCalls(turns: seq<(nat, bool)>, x: nat)
    ensures multiset(Chosen(turns))[x] == Calls(turns, x)
  {
    if turns != [] {
      var before, last := turns[..|turns| - 1], turns[|turns| - 1];
      ChosenCalls(before, x);
      assert multiset(Chosen(turns)) == multiset(Chosen(before)) + multiset(if last.1 then [last.0] else []);
    }
  }

  lemma {:induction false} CalledAtAll(turns: seq<(nat, bool)>, x: nat)
    ensures Calls(turns, x) > 0 <==> (x, true) in turns
  {
    if turns != [] {
      var n := |turns| - 1;
      CalledAtAll(turns[..n], x);
      assert turns == turns[..n] + [turns[n]];
    }
  }

  lemma CallableTwiceGrows(before: seq<(nat, bool)>, last: (nat, bool), x: nat)
    ensures CallableTwice(before + [last], x) <==> CallableTwice(before, x) || (last == (x, true) && last in before)
  {
    var turns := before + [last];
    if CallableTwice(before, x) {
      var a, b :| 0 <= a < b < |before| && before[a] == before[b] == (x, true);
      assert turns[a] == turns[b] == (x, true);
    }
    if last == (x, true) && last in before {
      var a :| 0 <= a < |before| && before[a] == last;
      assert turns[a] == turns[|before|] == (x, true);
    }
    if CallableTwice(turns, x) {
      var a, b :| 0 <= a < b < |turns| && turns[a] == turns[b] == (x, true);
      assert before[a] == (x, true);
      assert b < |before| ==> before[b] == (x, true);
    }
  }

  lemma {:induction false} CalledTwice(turns: seq<(nat, bool)>, x: nat)
    ensures Calls(turns, x) > 1 <==> CallableTwice(turns, x)
  {
    if turns != [] {
      var n := |turns| - 1;
      assert turns == turns[..n] + [turns[n]];
      CalledTwice(turns[..n], x);
      CalledAtAll(turns[..n], x);
      CallableTwiceGrows(turns[..n], turns[n], x);
    }
  }

  /** In any whole pass an item is called more than once if and only if two of its turns can call it. */
  lemma CalledTwiceIff(r: Run, p: nat, m: nat, snapshot: seq<nat>, x: nat)
    requires Valid(r) && p < m < |r.states| && WholePass(r, p, m, snapshot)
    ensures x in Restored(r, p + 1, m) <==> (x, true) in TurnsTaken(r, p + 1, m)
    ensures multiset(Restored(r, p + 1, m))[x] > 1 <==> CallableTwice(TurnsTaken(r, p + 1, m), x)
  {
    PassTakesTurnsInOrder(r, p + 1, m, snapshot);
    ChosenCalls(TurnsTaken(r, p + 1, m), x);
    CalledAtAll(TurnsTaken(r, p + 1, m), x);
    CalledTwice(TurnsTaken(r, p + 1, m), x);
  }

  ghost predicate AllCallable(turns: seq<(nat, bool)>) {
    forall k :: 0 <= k < |turns| ==> turns[k].1
  }

  /** When every turn can call, each item is called exactly once if and only if no item is registered twice. */
  lemma OncePerItemNeedsDistinct(r: Run, p: nat, m: nat, snapshot: seq<nat>)
    requires Valid(r) && p < m < |r.states| && WholePass(r, p, m, snapshot)
    requires AllCallable(TurnsTaken(r, p + 1, m))
    ensures Restored(r, p + 1, m) == snapshot
    ensures (forall x :: x in snapshot ==> multiset(Restored(r, p + 1, m))[x] == 1) <==> Distinct(snapshot)
  {
    PassTakesTurnsInOrder(r, p + 1, m, snapshot);
    AllChosen(TurnsTaken(r, p + 1, m), snapshot);
    DistinctIsOnce(snapshot);
  }
}
