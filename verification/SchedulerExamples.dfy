/** Two runs: an item registered twice, and a reconnect that finds the scheduler thread waiting for an item. */
module SchedulerExamples {
  import opened SamplingItems
  import opened SchedulerProtocol
  import opened SchedulerRevalidation

  /** The states of a run of `labels` from `s`, as far as they are enabled. */
  ghost function States(s: State, labels: seq<Label>): (states: seq<State>)
    ensures |states| == |labels| + 1 && states[0] == s
    decreases |labels|
  {
    if labels == [] then [s]
    else [s] + States(if Enabled(s, labels[0]) then Next(s, labels[0]) else s, labels[1..])
  }

  ghost predicate AllEnabled(s: State, labels: seq<Label>)
    decreases |labels|
  {
    labels == [] || (Enabled(s, labels[0]) && AllEnabled(Next(s, labels[0]), labels[1..]))
  }

  ghost function RunOf(s: State, labels: seq<Label>): Run {
    Run(States(s, labels), labels)
  }

  lemma {:induction false} StatesStep(s: State, labels: seq<Label>, k: nat)
    requires AllEnabled(s, labels) && k < |labels|
    ensures Steps(States(s, labels)[k], labels[k], States(s, labels)[k + 1])
    decreases |labels|
  {
    hide Enabled, Next;
    if k > 0 {
      StatesStep(Next(s, labels[0]), labels[1..], k - 1);
    }
  }

  lemma RunOfIsValid(s: State, labels: seq<Label>)
    requires AllEnabled(s, labels)
    ensures Valid(RunOf(s, labels))
  {
    hide Enabled, Next, Steps;
    forall k: nat | k < |labels|
      ensures Steps(States(s, labels)[k], labels[k], States(s, labels)[k + 1])
    {
      StatesStep(s, labels, k);
    }
  }

  lemma {:induction false} StatesJoin(s: State, a: seq<Label>, b: seq<Label>)
    requires AllEnabled(s, a)
    ensures var t := States(s, a)[|a|];
            && States(s, a + b) == States(s, a)[..|a|] + States(t, b)
            && (AllEnabled(s, a + b) <==> AllEnabled(t, b))
    decreases |a|
  {
    hide Enabled, Next;
    if a == [] {
      assert a + b == b;
    } else {
      assert (a + b)[1..] == a[1..] + b;
      StatesJoin(Next(s, a[0]), a[1..], b);
    }
  }

  // ---------- an item registered twice ----------

  const TURN: seq<Label> := [SchedulerProtocol.Turn, Return, Release, Relock]

  function BeginsPass(x: nat): seq<Label> {
    [Register(x, NoOwner), Register(x, NoOwner), Reconnect, Test(true), Lock, Act(0)]
  }

  function TwoEntries(x: nat, clock: int): Shared {
    Shared([Entry(x, NoOwner, clock, 0), Entry(x, NoOwner, clock, 1)], true, false, 2)
  }

  /** In the pass over the item's two entries; no thread has got round to notifying. */
  function At(x: nat, clock: int, pc: Pc, locked: bool): State {
    State(TwoEntries(x, clock), clock, pc, locked, {}, {}, false, 3)
  }

  function Between(x: nat, clock: int, turn: nat): State {
    At(x, clock, Passing([x, x], turn), true)
  }

  lemma PassHasBegun(x: nat, clock: int)
    ensures AllEnabled(Init(clock), BeginsPass(x)) && States(Init(clock), BeginsPass(x))[6] == Between(x, clock, 0)
  {
    var s0 := Init(clock);
    var s1 := Next(s0, Register(x, NoOwner));
    var s2 := Next(s1, Register(x, NoOwner));
    var s3 := Next(s2, Reconnect);
    var s4 := Next(s3, Test(true));
    var s5 := Next(s4, Lock);
    assert s5 == s3.(pc := Deciding, locked := true);
    assert s5.shared == TwoEntries(x, clock).(revalidatePending := true);
    assert ItemsOf(s5.shared.items) == [x, x];
    assert Next(s5, Act(0)) == Between(x, clock, 0);
    OneMore(s5, Act(0), []);
    OneMore(s4, Lock, [Act(0)]);
    OneMore(s3, Test(true), [Lock, Act(0)]);
    OneMore(s2, Reconnect, [Test(true), Lock, Act(0)]);
    OneMore(s1, Register(x, NoOwner), [Reconnect, Test(true), Lock, Act(0)]);
    OneMore(s0, Register(x, NoOwner), [Register(x, NoOwner), Reconnect, Test(true), Lock, Act(0)]);
  }

  lemma OneMore(s: State, l: Label, rest: seq<Label>)
    requires Enabled(s, l) && AllEnabled(Next(s, l), rest)
    ensures AllEnabled(s, [l] + rest) && States(s, [l] + rest) == [s] + States(Next(s, l), rest)
  {
    hide Enabled, Next;
    assert ([l] + rest)[1..] == rest;
  }

  /** The states of one turn, which calls the item. */
  function TurnStates(x: nat, clock: int, turn: nat): (states: seq<State>)
    ensures |states| == 5
  {
    [Between(x, clock, turn),
     At(x, clock, Calling(ConnectionRestored, x, 0, NoOwner, ToPass([x, x], turn + 1)), false),
     At(x, clock, Releasing(NoOwner, ToPass([x, x], turn + 1)), false),
     At(x, clock, Relocking(ToPass([x, x], turn + 1)), false),
     Between(x, clock, turn + 1)]
  }

  lemma TurnCalls(x: nat, clock: int, turn: nat)
    requires turn < 2
    ensures AllEnabled(Between(x, clock, turn), TURN)
    ensures Eligible(TwoEntries(x, clock), x, {})
    ensures States(Between(x, clock, turn), TURN) == TurnStates(x, clock, turn)
  {
    var s0 := Between(x, clock, turn);
    var s1 := Next(s0, SchedulerProtocol.Turn);
    assert s1 == At(x, clock, Calling(ConnectionRestored, x, 0, NoOwner, ToPass([x, x], turn + 1)), false);
    var s2 := Next(s1, Return);
    var s3 := Next(s2, Release);
    assert s3 == At(x, clock, Relocking(ToPass([x, x], turn + 1)), false);
    OneMore(s3, Relock, []);
    OneMore(s2, Release, [Relock]);
    OneMore(s1, Return, [Release, Relock]);
    OneMore(s0, SchedulerProtocol.Turn, [Return, Release, Relock]);
  }

  function BothTurns(x: nat): seq<Label> {
    BeginsPass(x) + (TURN + TURN)
  }

  /** The run takes turn `turn` of the pass from state `m` on. */
  ghost predicate TurnAt(r: Run, x: nat, clock: int, m: nat, turn: nat) {
    && |r.states| == |r.labels| + 1 && m + 4 <= |r.labels|
    && r.states[m..m + 5] == TurnStates(x, clock, turn) && r.labels[m..m + 4] == TURN
  }

  lemma BothTurnsRun(x: nat, clock: int)
    ensures AllEnabled(Init(clock), BothTurns(x)) && |BothTurns(x)| == 14
    ensures TurnAt(RunOf(Init(clock), BothTurns(x)), x, clock, 6, 0)
    ensures TurnAt(RunOf(Init(clock), BothTurns(x)), x, clock, 10, 1)
  {
    hide States, AllEnabled, Between, TurnStates;
    PassHasBegun(x, clock);
    TurnCalls(x, clock, 0);
    TurnCalls(x, clock, 1);
    LastOfTurn(x, clock, 0);
    StatesJoin(Init(clock), BeginsPass(x), TURN + TURN);
    StatesJoin(Between(x, clock, 0), TURN, TURN);
    var states := States(Init(clock), BothTurns(x));
    var first, second := TurnStates(x, clock, 0), TurnStates(x, clock, 1);
    assert states == States(Init(clock), BeginsPass(x))[..6] + (first[..4] + second);
    assert second[0] == first[4];
    assert first == first[..4] + [first[4]];
    assert states[6..11] == first;
    assert states[10..15] == second;
    assert BothTurns(x)[6..10] == TURN && BothTurns(x)[10..14] == TURN;
  }

  lemma LastOfTurn(x: nat, clock: int, turn: nat)
    ensures TurnStates(x, clock, turn)[4] == Between(x, clock, turn + 1)
    ensures forall t :: TurnStates(x, clock, t)[0] == Between(x, clock, t)
  {
  }

  lemma AtTurn(r: Run, x: nat, clock: int, m: nat, turn: nat, k: nat)
    requires TurnAt(r, x, clock, m, turn) && k <= 4 && turn < 2
    ensures m + 4 <= |r.labels| == |r.states| - 1
    ensures r.states[m + k] == TurnStates(x, clock, turn)[k] && InPass(r.states[m + k], [x, x])
    ensures k < 4 ==> r.labels[m + k] == TURN[k]
    ensures k == 0 ==> r.states[m].shared == TwoEntries(x, clock) && r.states[m].gone == {}
    ensures k == 0 ==> TurnsDone(r.states[m], [x, x]) == turn
  {
    assert r.states[m + k] == r.states[m..m + 5][k];
    assert k < 4 ==> r.labels[m + k] == r.labels[m..m + 4][k];
  }

  /** Such a turn takes the item, and it can be called. */
  lemma TurnTakesItem(r: Run, x: nat, clock: int, m: nat, turn: nat)
    requires Valid(r) && 6 <= m && turn < 2 && TurnAt(r, x, clock, m, turn)
    ensures StaysInPass(r, m, m + 4, [x, x])
    ensures TurnsTaken(r, 6, m + 4) == TurnsTaken(r, 6, m) + [(x, true)]
  {
    hide Valid, TurnsTaken, Restored, Eligible, TurnAt, TurnStates, InPass, TurnsDone;
    TurnCalls(x, clock, turn);
    AtTurn(r, x, clock, m, turn, 0);
    AtTurn(r, x, clock, m, turn, 1);
    AtTurn(r, x, clock, m, turn, 2);
    AtTurn(r, x, clock, m, turn, 3);
    AtTurn(r, x, clock, m, turn, 4);
    OneStepOfPass(r, 6, m, [x, x]);
    OneStepOfPass(r, 6, m + 1, [x, x]);
    OneStepOfPass(r, 6, m + 2, [x, x]);
    OneStepOfPass(r, 6, m + 3, [x, x]);
  }

  lemma PassJoins(r: Run, i: nat, j: nat, k: nat, snapshot: seq<nat>)
    requires i <= j <= k < |r.states| && StaysInPass(r, i, j, snapshot) && StaysInPass(r, j, k, snapshot)
    ensures StaysInPass(r, i, k, snapshot)
  {
  }

  /** The promise of one call per item fails: after one reconnect, an item registered twice is restored twice. */
  lemma TwiceRegisteredIsRestoredTwice(x: nat, clock: int) returns (r: Run)
    ensures FromInit(r) && |r.states| == 15 && r.labels[2] == Reconnect
    ensures WholePass(r, 5, 14, [x, x]) && AllCallable(TurnsTaken(r, 6, 14)) && !Distinct([x, x])
    ensures Restored(r, 6, 14) == [x, x]
  {
    hide States, AllEnabled, InPass, TurnsTaken, Restored, TurnAt, Valid, WholePass;
    r := RunOf(Init(clock), BothTurns(x));
    BothTurnsRun(x, clock);
    RunOfIsValid(Init(clock), BothTurns(x));
    TurnTakesItem(r, x, clock, 6, 0);
    TurnTakesItem(r, x, clock, 10, 1);
    PassJoins(r, 6, 10, 14, [x, x]);
    WholeHere(r, x, clock);
    NothingTaken(r, 6);
    assert TurnsTaken(r, 6, 14) == [(x, true), (x, true)];
    OncePerItemNeedsDistinct(r, 5, 14, [x, x]);
    var twice := [x, x];
    assert twice[0] == twice[1];
  }

  lemma WholeHere(r: Run, x: nat, clock: int)
    requires TurnAt(r, x, clock, 6, 0) && TurnAt(r, x, clock, 10, 1) && StaysInPass(r, 6, 14, [x, x])
    ensures WholePass(r, 5, 14, [x, x])
  {
    hide InPass, StaysInPass, TurnAt;
    AtTurn(r, x, clock, 6, 0, 0);
    AtTurn(r, x, clock, 10, 1, 4);
  }

  // ---------- a reconnect while the list is empty ----------

  function Empty(clock: int, pc: Pc, pending: bool, notified: bool, owed: nat): State {
    State(Shared([], true, pending, 0), clock, pc, false, {}, {}, notified, owed)
  }

  lemma IdleSoon(clock: int)
    ensures AllEnabled(Init(clock), [Test(true), Lock, Act(0)])
    ensures States(Init(clock), [Test(true), Lock, Act(0)])[3] == Empty(clock, Idle, false, false, 0)
  {
    var s0 := Init(clock);
    var s1 := Next(s0, Test(true));
    var s2 := Next(s1, Lock);
    assert Next(s2, Act(0)) == Empty(clock, Idle, false, false, 0);
    OneMore(s2, Act(0), []);
    OneMore(s1, Lock, [Act(0)]);
    OneMore(s0, Test(true), [Lock, Act(0)]);
  }

  lemma IdleStill(clock: int)
    ensures AllEnabled(Empty(clock, Idle, false, false, 0), [Reconnect, Notify, Wake])
    ensures States(Empty(clock, Idle, false, false, 0), [Reconnect, Notify, Wake])[3] ==
            Empty(clock, Idle, true, false, 0)
  {
    var s3 := Empty(clock, Idle, false, false, 0);
    var s4 := Next(s3, Reconnect);
    var s5 := Next(s4, Notify);
    assert s5 == Empty(clock, Idle, true, true, 0);
    OneMore(s5, Wake, []);
    OneMore(s4, Notify, [Wake]);
    OneMore(s3, Reconnect, [Notify, Wake]);
  }

  /** A thread that waits for an item goes on waiting after a reconnect: the pass waits with it until an item comes. */
  lemma IdleKeepsPassWaiting(clock: int) returns (r: Run)
    ensures FromInit(r) && |r.states| == 7 && r.labels[3] == Reconnect
    ensures r.states[6].pc == Idle && r.states[6].shared.revalidatePending
    ensures !r.states[6].notified && r.states[6].owed == 0
  {
    hide States, AllEnabled, Valid;
    var a, b := [Test(true), Lock, Act(0)], [Reconnect, Notify, Wake];
    IdleSoon(clock);
    IdleStill(clock);
    StatesJoin(Init(clock), a, b);
    r := RunOf(Init(clock), a + b);
    RunOfIsValid(Init(clock), a + b);
  }
}
