/** Which calls the scheduler makes and when it sleeps, over every run. */
module SchedulerSafety {
  import opened SamplingItems
  import opened SchedulerProtocol
  import opened SchedulerFairness

  /** The step starts a call into an item. */
  predicate StartsCall(s: State, l: Label, call: Call, item: nat) {
    && Enabled(s, l) && !s.pc.Calling?
    && Next(s, l).pc.Calling? && Next(s, l).pc.call == call && Next(s, l).pc.item == item
  }

  // ---------- no missed wake-up ----------

  /** A blocked scheduler thread misses nothing: unless a notification is on its way, it is running, it sleeps past no
      deadline, and it waits without one only while there is no item to sample. In the poll and in the wait for a
      deadline no revalidation is pending either; in the wait for an item one may be, which then has nobody to call. */
  lemma NoMissedWakeUp(r: Run, k: nat)
    requires FromInit(r) && k < |r.states|
    requires Blocked(r.states[k].pc) && !r.states[k].notified && r.states[k].owed == 0
    ensures var s := r.states[k];
            && s.shared.running
            && (s.pc.Polling? || s.pc.Sleeping? ==> !s.shared.revalidatePending)
            && (s.pc.Idle? ==> s.shared.items == [])
            && (s.pc.Sleeping? ==> forall e :: e in s.shared.items ==> s.pc.until <= e.nextDue)
  {
    InvHolds(r, k);
  }

  // ---------- call safety ----------

  /** While item code runs or its owner is let go of, the owner is alive and the mutex is free, so an item that
      unregisters from within finds the mutex free. */
  lemma CallsAreSafe(r: Run, k: nat, item: nat)
    requires FromInit(r) && k < |r.states|
    requires r.states[k].pc.Calling? || r.states[k].pc.Releasing? || r.states[k].pc.Relocking?
    ensures Alive(LoopOwner(r.states[k].pc), r.states[k].gone)
    ensures Enabled(r.states[k], Unregister(item))
  {
    InvHolds(r, k);
  }

  /** A call is selected only for an item that is registered with a live owner, and a sample only when it is due
      and no revalidation is pending. */
  lemma CallStep(s: State, l: Label, call: Call, item: nat) returns (e: Entry)
    requires Inv(s) && StartsCall(s, l, call, item)
    ensures e in s.shared.items && e.item == item && Alive(e.owner, s.gone) && s.shared.running
    ensures Next(s, l).pc.owner == e.owner
    ensures call == ProcessSample <==> TakesSample(s, l)
    ensures call == ProcessSample ==> !s.shared.revalidatePending && e.nextDue <= s.clock
  {
    match l
    case Act(_) => e := s.shared.items[FirstDue(s.shared.items)];
    case Turn => e := s.shared.items[Find(s.shared.items, item)];
    case _ => assert false;
  }

  ghost predicate NotReregistered(r: Run, i: nat, j: nat, item: nat)
    requires Valid(r) && i <= j <= |r.labels|
  {
    forall k :: i <= k < j ==> !(r.labels[k].Register? && r.labels[k].item == item)
  }

  ghost predicate Absent(s: State, item: nat) {
    forall e :: e in s.shared.items ==> e.item != item
  }

  lemma AbsentStep(s: State, l: Label, t: State, item: nat)
    requires Inv(s) && Steps(s, l, t)
    requires (Absent(s, item) && !(l.Register? && l.item == item)) || l == Unregister(item)
    ensures Absent(t, item)
  {
    forall f | f in t.shared.items
      ensures f.item != item
    {
      if f.serial < s.shared.nextSerial {
        var e := EntryStep(s, l, t, f);
      } else {
        InvStep(s, l);
        KnownSerial(t, f);
        if f in s.shared.items {
          KnownSerial(s, f);
        }
      }
    }
  }

  lemma {:induction false} StaysAbsent(r: Run, i: nat, j: nat, item: nat)
    requires Valid(r) && Inv(r.states[0]) && i < j <= |r.labels|
    requires r.labels[i] == Unregister(item) && NotReregistered(r, i + 1, j, item)
    ensures Absent(r.states[j], item)
  {
    var m := j - 1;
    InvHolds(r, m);
    StepOf(r, m);
    if i < m {
      StaysAbsent(r, i, m, item);
    }
    AbsentStep(r.states[m], r.labels[m], r.states[j], item);
  }

  /** No call starts into an item between its unregistration and its next registration. */
  lemma NoCallAfterUnregister(r: Run, i: nat, j: nat, item: nat, call: Call)
    requires FromInit(r) && i < j < |r.labels|
    requires r.labels[i] == Unregister(item) && NotReregistered(r, i + 1, j, item)
    ensures !StartsCall(r.states[j], r.labels[j], call, item)
  {
    StaysAbsent(r, i, j, item);
    InvHolds(r, j);
    if StartsCall(r.states[j], r.labels[j], call, item) {
      var e := CallStep(r.states[j], r.labels[j], call, item);
      assert false;
    }
  }
}
