/** The scheduler thread among the other threads: every step any of them can take, and runs of such steps. */
module SchedulerProtocol {
  import opened SamplingItems

  const DISCONNECTED_POLL_INTERVAL := 1000 * MILLISECOND

  datatype Call = ProcessSample | ConnectionRestored

  /** Where a call leads back to: the loop, or the next turn of a revalidation pass. */
  datatype Resume = ToLoop | ToPass(snapshot: seq<nat>, turn: nat)

  datatype Pc =
    | Top                                                // about to test `running` and the connection
    | PollEntering                                       // disconnected, about to lock the mutex
    | Polling(until: int)                                // blocked in the disconnected poll
    | Locking                                            // connected, about to lock the mutex
    | Deciding                                           // holds the mutex
    | Idle                                               // blocked until there is an item
    | Sleeping(until: int)                               // blocked on a deadline
    | Passing(snapshot: seq<nat>, turn: nat)             // between two turns of a pass, holds the mutex
    | Calling(call: Call, item: nat, serial: nat, owner: Owner, resume: Resume)  // runs the item's code
    | Releasing(owner: Owner, resume: Resume)            // about to let go of the owner
    | Relocking(resume: Resume)                          // about to lock the mutex again
    | Exited

  datatype State = State(
    shared: Shared,
    clock: int,
    pc: Pc,
    locked: bool,       // the scheduler thread holds the mutex
    held: set<nat>,     // owners that someone other than the scheduler thread references
    gone: set<nat>,     // owners that nobody references any more: being destroyed, or destroyed
    notified: bool,     // a notification reached the blocked scheduler thread
    owed: nat)          // threads that changed the shared state and have yet to notify

  datatype Label =
    | Test(connected: bool)
    | EnterPoll
    | Lock
    | Act(intervalMs: int)
    | Turn
    | Return
    | Release
    | Relock
    | Wake
    | Register(item: nat, owner: Owner)
    | Unregister(item: nat)
    | Reconnect
    | Stop
    | Notify
    | Tick(time: nat)
    | Grab(id: nat)
    | Drop(id: nat)

  predicate Blocked(pc: Pc) {
    pc.Polling? || pc.Idle? || pc.Sleeping?
  }

  /** The owner the scheduler thread itself references. */
  function LoopOwner(pc: Pc): Owner {
    match pc
    case Calling(_, _, _, owner, _) => owner
    case Releasing(owner, _) => owner
    case _ => NoOwner
  }

  function Init(clock: int): State {
    State(Shared([], true, false, 0), clock, Top, false, {}, {}, false, 0)
  }

  /** The steps of the scheduler thread need their place in the code; the others need a free mutex where they lock
      it. */
  predicate Enabled(s: State, l: Label) {
    match l
    case Test(_) => s.pc.Top?
    case EnterPoll => s.pc.PollEntering? && !s.locked
    case Lock => s.pc.Locking? && !s.locked
    case Act(_) => s.pc.Deciding?
    case Turn => s.pc.Passing?
    case Return => s.pc.Calling?
    case Release => s.pc.Releasing?
    case Relock => s.pc.Relocking? && !s.locked
    case Wake => Blocked(s.pc) && !s.locked
    case Register(_, _) => !s.locked
    case Unregister(_) => !s.locked
    case Reconnect => !s.locked
    case Stop => !s.locked
    case Notify => s.owed > 0
    case Tick(_) => true
    case Grab(id) => id !in s.gone
    case Drop(id) => id in s.held
  }

  function Acted(s: State, intervalMs: int): State
    requires s.pc.Deciding?
  {
    var t := s.(shared := Decided(s.shared, s.clock, s.gone, intervalMs), locked := false, notified := false);
    match Decide(s.shared, s.clock, s.gone)
    case Exit => t.(pc := Exited)
    case StartPass(snapshot) => t.(pc := Passing(snapshot, 0), locked := true)
    case AwaitItem => t.(pc := Idle)
    case SleepUntil(time) => t.(pc := Sleeping(time))
    case Forget(_) => t.(pc := Top)
    case Sample(e) => t.(pc := Calling(ProcessSample, e.item, e.serial, e.owner, ToLoop))
  }

  /** One turn of a pass: stop, skip, or call. */
  function Turned(s: State): State
    requires s.pc.Passing?
  {
    var Passing(snapshot, turn) := s.pc;
    if turn >= |snapshot| || !s.shared.running then s.(pc := Top, locked := false)
    else
      var item := snapshot[turn];
      if Eligible(s.shared, item, s.gone) then
        var e := s.shared.items[Find(s.shared.items, item)];
        s.(pc := Calling(ConnectionRestored, item, e.serial, e.owner, ToPass(snapshot, turn + 1)), locked := false)
      else s.(pc := Passing(snapshot, turn + 1))
  }

  function Released(s: State): State
    requires s.pc.Releasing?
  {
    var dies := s.pc.owner.Owned? && s.pc.owner.id !in s.held;
    s.(gone := if dies then s.gone + {s.pc.owner.id} else s.gone, pc := Relocking(s.pc.resume))
  }

  function Woken(s: State): State
    requires Blocked(s.pc)
  {
    var t := s.(notified := false);
    match s.pc
    case Polling(until) =>
      if !s.shared.running || s.shared.revalidatePending || s.clock >= until then t.(pc := Top) else t
    case Idle =>
      if !s.shared.running || s.shared.items != [] then t.(pc := Top) else t
    case _ => t.(pc := Top)
  }

  function Next(s: State, l: Label): State
    requires Enabled(s, l)
  {
    match l
    case Test(connected) =>
      s.(pc := if !s.shared.running then Exited else if connected then Locking else PollEntering)
    case EnterPoll =>
      if !s.shared.running || s.shared.revalidatePending then s.(pc := Top)
      else s.(pc := Polling(s.clock + DISCONNECTED_POLL_INTERVAL), notified := false)
    case Lock => s.(pc := Deciding, locked := true)
    case Act(intervalMs) => Acted(s, intervalMs)
    case Turn => Turned(s)
    case Return => s.(pc := Releasing(s.pc.owner, s.pc.resume))
    case Release => Released(s)
    case Relock =>
      match s.pc.resume {
        case ToLoop => s.(pc := Top)
        case ToPass(snapshot, turn) => s.(pc := Passing(snapshot, turn), locked := true)
      }
    case Wake => Woken(s)
    case Register(item, owner) => s.(shared := Registered(s.shared, item, owner, s.clock), owed := s.owed + 1)
    case Unregister(item) => s.(shared := Unregistered(s.shared, item), owed := s.owed + 1)
    case Reconnect => s.(shared := s.shared.(revalidatePending := true), owed := s.owed + 1)
    case Stop => s.(shared := s.shared.(running := false), owed := s.owed + 1)
    case Notify => s.(owed := s.owed - 1, notified := s.notified || Blocked(s.pc))
    case Tick(time) => s.(clock := s.clock + time)
    case Grab(id) => s.(held := s.held + {id})
    case Drop(id) =>
      s.(held := s.held - {id}, gone := if LoopOwner(s.pc) == Owned(id) then s.gone else s.gone + {id})
  }

  // ---------- runs ----------

  datatype Run = Run(states: seq<State>, labels: seq<Label>)

  predicate Steps(s: State, l: Label, t: State) {
    Enabled(s, l) && t == Next(s, l)
  }

  ghost predicate Valid(r: Run) {
    && |r.states| == |r.labels| + 1
    && forall k {:trigger r.labels[k]} :: 0 <= k < |r.labels| ==> Steps(r.states[k], r.labels[k], r.states[k + 1])
  }

  ghost predicate FromInit(r: Run) {
    Valid(r) && r.states[0] == Init(r.states[0].clock)
  }

  lemma StepOf(r: Run, k: nat)
    requires Valid(r) && k < |r.labels|
    ensures Steps(r.states[k], r.labels[k], r.states[k + 1])
  {
    var _ := r.labels[k];
  }

  // ---------- the invariant ----------

  /** A blocked thread has nothing to wait for, or somebody is about to wake it. */
  ghost predicate WakeIsComing(s: State) {
    s.notified || s.owed > 0
  }

  ghost predicate SleepsRightly(s: State) {
    match s.pc
    case Polling(_) => WakeIsComing(s) || (s.shared.running && !s.shared.revalidatePending)
    case Idle => WakeIsComing(s) || (s.shared.running && s.shared.items == [])
    case Sleeping(until) =>
      WakeIsComing(s) || (&& s.shared.running
                          && !s.shared.revalidatePending
                          && forall e :: e in s.shared.items ==> until <= e.nextDue)
    case _ => true
  }

  ghost predicate Inv(s: State) {
    && Increasing(s.shared.items, s.shared.nextSerial)
    && (s.locked <==> s.pc.Deciding? || s.pc.Passing?)
    && s.held !! s.gone
    && Alive(LoopOwner(s.pc), s.gone)
    && SleepsRightly(s)
  }

  lemma ActKeepsInv(s: State, intervalMs: int)
    requires Inv(s) && s.pc.Deciding?
    ensures Inv(Acted(s, intervalMs))
  {
    IncreasingDecided(s.shared, s.clock, s.gone, intervalMs);
    match Decide(s.shared, s.clock, s.gone)
    case SleepUntil(time) =>
      forall e | e in s.shared.items
        ensures time <= e.nextDue
      {
        var i :| 0 <= i < |s.shared.items| && s.shared.items[i] == e;
      }
    case _ =>
  }

  lemma InvStep(s: State, l: Label)
    requires Inv(s) && Enabled(s, l)
    ensures Inv(Next(s, l))
  {
    hide Acted, Decided, Increasing, Without;
    match l
    case Act(intervalMs) => ActKeepsInv(s, intervalMs);
    case Unregister(item) => IncreasingWithout(s.shared.items, item, s.shared.nextSerial);
    case Register(item, owner) =>
      IncreasingAppend(s.shared.items, Entry(item, owner, s.clock, s.shared.nextSerial), s.shared.nextSerial + 1);
    case _ =>
  }

  lemma {:induction false} InvHolds(r: Run, k: nat)
    requires Valid(r) && k < |r.states| && Inv(r.states[0])
    ensures Inv(r.states[k])
  {
    if k > 0 {
      InvHolds(r, k - 1);
      StepOf(r, k - 1);
      InvStep(r.states[k - 1], r.labels[k - 1]);
    }
  }
}
