/** That the scheduler does what it is for: a due item is sampled, only the dead are forgotten, and nothing is put
    off. */
module SchedulerProgress {
  import opened SamplingItems
  import opened SchedulerProtocol
  import opened SchedulerFairness

  // ---------- one decision, said on the list ----------

  /** Place `k` has the least deadline, and is the first that has it. */
  predicate IsNext(items: seq<Entry>, k: nat) {
    && k < |items|
    && (forall j :: 0 <= j < |items| ==> items[k].nextDue <= items[j].nextDue)
    && (forall j :: 0 <= j < k ==> items[k].nextDue < items[j].nextDue)
  }

  /** The owner is being destroyed or gone. */
  predicate Dead(e: Entry, gone: set<nat>) {
    e.owner != NoOwner && e.owner.id in gone
  }

  /** The thread holds the mutex, and neither a stop nor a revalidation comes first. */
  predicate MaySample(s: State) {
    s.pc == Deciding && s.shared.running && !s.shared.revalidatePending
  }

  lemma NextIsFirstDue(items: seq<Entry>, k: nat)
    requires IsNext(items, k)
    ensures FirstDue(items) == k
  {
    var f := FirstDue(items);
    assert items[f].nextDue <= items[k].nextDue && items[k].nextDue <= items[f].nextDue;
  }

  /** The next entry, when due, is sampled if its owner is alive: its item is called with the mutex free, its deadline
      moves on past now by the rule of the intervals, and nothing else changes. */
  lemma DueIsSampled(s: State, intervalMs: int, k: nat)
    requires MaySample(s) && IsNext(s.shared.items, k)
    requires s.shared.items[k].nextDue <= s.clock && !Dead(s.shared.items[k], s.gone)
    ensures var e := s.shared.items[k];
            var next := Next(s, Act(intervalMs));
            && Samples(s, Act(intervalMs), e.serial)
            && next.pc == Calling(ProcessSample, e.item, e.serial, e.owner, ToLoop) && !next.locked
            && next.shared.items == s.shared.items[k := e.(nextDue := AdvanceDeadline(e.nextDue, s.clock, intervalMs))]
            && next.shared.running && !next.shared.revalidatePending && next.shared.nextSerial == s.shared.nextSerial
  {
    NextIsFirstDue(s.shared.items, k);
  }

  /** When its owner is gone it is forgotten, it alone. */
  lemma DeadIsForgotten(s: State, intervalMs: int, k: nat)
    requires MaySample(s) && IsNext(s.shared.items, k)
    requires s.shared.items[k].nextDue <= s.clock && Dead(s.shared.items[k], s.gone)
    ensures var next := Next(s, Act(intervalMs));
            && next.pc == Top && !next.locked
            && next.shared == s.shared.(items := s.shared.items[..k] + s.shared.items[k + 1..])
  {
    NextIsFirstDue(s.shared.items, k);
  }

  /** When it is not due yet the thread sleeps until it is, and when there is none until there is one. */
  lemma NothingDueWaits(s: State, intervalMs: int, k: nat)
    requires MaySample(s)
    ensures s.shared.items == [] ==> Next(s, Act(intervalMs)).pc == Idle
    ensures IsNext(s.shared.items, k) && s.shared.items[k].nextDue > s.clock ==>
              Next(s, Act(intervalMs)).pc == Sleeping(s.shared.items[k].nextDue)
    ensures s.shared.items == [] || (IsNext(s.shared.items, k) && s.shared.items[k].nextDue > s.clock) ==>
              Next(s, Act(intervalMs)).shared == s.shared && !Next(s, Act(intervalMs)).locked
  {
    if IsNext(s.shared.items, k) {
      NextIsFirstDue(s.shared.items, k);
    }
  }

  /** A stop comes before everything, and a revalidation before every sample. */
  lemma WhatComesFirst(s: State, intervalMs: int)
    requires s.pc == Deciding
    ensures !s.shared.running ==> Next(s, Act(intervalMs)).pc == Exited && Next(s, Act(intervalMs)).shared == s.shared
    ensures s.shared.running && s.shared.revalidatePending ==>
              var next := Next(s, Act(intervalMs));
              && next.pc == Passing(ItemsOf(s.shared.items), 0) && next.locked
              && next.shared == s.shared.(revalidatePending := false)
  {
  }

  // ---------- how an entry leaves the list ----------

  /** The call of `processSample` on the entry with this number begins. */
  predicate SampleBegins(s: State, t: State, serial: nat) {
    !s.pc.Calling? && t.pc.Calling? && t.pc.call == ProcessSample && t.pc.serial == serial
  }

  lemma SomeIsNext(items: seq<Entry>) returns (k: nat)
    requires items != []
    ensures IsNext(items, k)
  {
    k := FirstDue(items);
  }

  lemma SampleIsSeen(s: State, l: Label, t: State, serial: nat)
    requires Steps(s, l, t)
    ensures Samples(s, l, serial) <==> SampleBegins(s, t, serial)
  {
  }

  lemma InWithout(items: seq<Entry>, item: nat, e: Entry)
    requires e in items && e.item != item
    ensures e in Without(items, item)
  {
  }

  lemma InRemoveAt(items: seq<Entry>, i: nat, e: Entry)
    requires i < |items| && e in items && e != items[i]
    ensures e in RemoveAt(items, i)
  {
    var j :| 0 <= j < |items| && items[j] == e;
    assert RemoveAt(items, i)[if j < i then j else j - 1] == e;
  }

  lemma InUpdate(items: seq<Entry>, i: nat, x: Entry, e: Entry)
    requires i < |items| && e in items && e != items[i]
    ensures e in items[i := x]
  {
    var j :| 0 <= j < |items| && items[j] == e;
    assert items[i := x][j] == e;
  }

  lemma ActKeepsEntry(s: State, intervalMs: int, e: Entry)
    requires s.pc == Deciding && e in s.shared.items
    requires !Dead(e, s.gone) && !Samples(s, Act(intervalMs), e.serial)
    ensures e in Next(s, Act(intervalMs)).shared.items
  {
    if MaySample(s) {
      var k := SomeIsNext(s.shared.items);
      var d := s.shared.items[k];
      if d.nextDue > s.clock {
        NothingDueWaits(s, intervalMs, k);
      } else if Dead(d, s.gone) {
        DeadIsForgotten(s, intervalMs, k);
        InRemoveAt(s.shared.items, k, e);
      } else {
        DueIsSampled(s, intervalMs, k);
        InUpdate(s.shared.items, k, d.(nextDue := AdvanceDeadline(d.nextDue, s.clock, intervalMs)), e);
      }
    } else {
      WhatComesFirst(s, intervalMs);
    }
  }

  /** An entry stays as it is through every step, unless its item is unregistered, its owner is gone, or it is
      sampled. */
  lemma EntryStays(s: State, l: Label, t: State, e: Entry)
    requires Steps(s, l, t) && e in s.shared.items
    requires l != Unregister(e.item) && !Dead(e, s.gone) && !SampleBegins(s, t, e.serial)
    ensures e in t.shared.items
  {
    SampleIsSeen(s, l, t, e.serial);
    match l
    case Act(intervalMs) => ActKeepsEntry(s, intervalMs, e);
    case Unregister(item) => InWithout(s.shared.items, item, e);
    case _ =>
  }

  /** And when it is sampled it stays with its deadline moved on. */
  lemma SampledStays(s: State, l: Label, t: State, e: Entry)
    requires Inv(s) && Steps(s, l, t) && e in s.shared.items && SampleBegins(s, t, e.serial)
    ensures e.(nextDue := AdvanceDeadline(e.nextDue, s.clock, l.intervalMs)) in t.shared.items
  {
    SampleIsSeen(s, l, t, e.serial);
    var k := SomeIsNext(s.shared.items);
    NextIsFirstDue(s.shared.items, k);
    var j :| 0 <= j < |s.shared.items| && s.shared.items[j] == e;
    SerialsDiffer(s.shared.items, k, j, s.shared.nextSerial);
    assert t.shared.items[k] == e.(nextDue := AdvanceDeadline(e.nextDue, s.clock, l.intervalMs));
  }

  // ---------- a due entry is sampled ----------

  /** From state `i` up to state `j` nobody takes the entry away: its item is not unregistered, its owner lives, and the
      scheduler is not stopped. */
  ghost predicate LeftAlone(r: Run, i: nat, j: nat, e: Entry)
    requires Valid(r) && i <= j < |r.states|
  {
    forall k :: i <= k < j ==> Undisturbed(r.states[k], r.labels[k], e)
  }

  predicate Undisturbed(s: State, l: Label, e: Entry) {
    l != Unregister(e.item) && !Dead(e, s.gone) && s.shared.running
  }

  ghost predicate NotSampled(r: Run, i: nat, j: nat, e: Entry)
    requires Valid(r) && i <= j < |r.states|
  {
    forall k :: i <= k < j ==> !SampledIn(r, k, e)
  }

  /** Step `k` of the run begins a sample of the entry. */
  ghost predicate SampledIn(r: Run, k: nat, e: Entry)
    requires Valid(r) && k < |r.labels|
  {
    SampleBegins(r.states[k], r.states[k + 1], e.serial)
  }

  /** The decisions that the thread takes from state `i` up to state `j`. */
  ghost function Decisions(r: Run, i: nat, j: nat): nat
    requires Valid(r) && i <= j < |r.states|
  {
    if i == j then 0 else Decisions(r, i, j - 1) + if r.labels[j - 1].Act? then 1 else 0
  }

  /** Those that begin a revalidation pass. */
  ghost function Passes(r: Run, i: nat, j: nat): nat
    requires Valid(r) && i <= j < |r.states|
  {
    if i == j then 0
    else Passes(r, i, j - 1) + if r.labels[j - 1].Act? && r.states[j - 1].shared.revalidatePending then 1 else 0
  }

  lemma {:induction false} UnsampledStays(r: Run, i: nat, j: nat, e: Entry)
    requires Valid(r) && i <= j < |r.states| && e in r.states[i].shared.items
    requires LeftAlone(r, i, j, e) && NotSampled(r, i, j, e)
    ensures Stays(r, i, j, e)
  {
    hide Steps, SampleBegins, Dead;
    if i < j {
      UnsampledStays(r, i, j - 1, e);
      StepOf(r, j - 1);
      assert !SampledIn(r, j - 1, e);
      assert Undisturbed(r.states[j - 1], r.labels[j - 1], e);
      EntryStays(r.states[j - 1], r.labels[j - 1], r.states[j], e);
    }
  }

  /** A decision that is not the pass takes one entry out of the way of a due one. */
  lemma DecisionTakesRival(s: State, intervalMs: int, e: Entry)
    requires Inv(s) && s.pc == Deciding && e in s.shared.items && e.nextDue <= s.clock
    requires s.shared.running && !s.shared.revalidatePending && !Dead(e, s.gone)
    requires !Samples(s, Act(intervalMs), e.serial)
    ensures exists q :: q in Rivals(s, e) && q !in Rivals(Next(s, Act(intervalMs)), e)
  {
    var items := s.shared.items;
    var k := SomeIsNext(items);
    var d := items[k];
    var j :| 0 <= j < |items| && items[j] == e;
    SerialsDiffer(items, k, j, s.shared.nextSerial);
    if Dead(d, s.gone) {
      DeadIsForgotten(s, intervalMs, k);
    } else {
      DueIsSampled(s, intervalMs, k);
    }
    assert d in items && Precedes(d, e) by {
      if k > j {
        assert items[k].nextDue < items[j].nextDue;
      }
    }
    GoneFromRivals(s, Next(s, Act(intervalMs)), e, k);
  }

  /** What is removed from the list, or put off past now, precedes a due entry no longer. */
  lemma GoneFromRivals(s: State, t: State, e: Entry, k: nat)
    requires Inv(s) && e.nextDue <= s.clock && k < |s.shared.items|
    requires var items := s.shared.items;
             || t.shared.items == items[..k] + items[k + 1..]
             || exists due :: due > s.clock && t.shared.items == items[k := items[k].(nextDue := due)]
    ensures s.shared.items[k].serial !in Rivals(t, e)
  {
    var items := s.shared.items;
    forall m: nat | m < |t.shared.items| && t.shared.items[m].serial == items[k].serial
      ensures !Precedes(t.shared.items[m], e)
    {
      if t.shared.items == items[..k] + items[k + 1..] {
        OthersDiffer(items, k, m, s.shared.nextSerial);
      } else {
        SerialsDiffer(items, k, m, s.shared.nextSerial);
      }
    }
  }

  lemma OthersDiffer(items: seq<Entry>, k: nat, m: nat, bound: nat)
    requires Increasing(items, bound) && k < |items| && m < |items| - 1
    ensures (items[..k] + items[k + 1..])[m].serial != items[k].serial
  {
    SerialsDiffer(items, k, if m < k then m else m + 1, bound);
  }

  lemma ProperlyFewer(s: set<nat>, t: set<nat>, q: nat)
    requires s <= t && q in t && q !in s
    ensures |s| < |t|
  {
    RivalsShrink(s, t - {q});
  }

  lemma {:induction false} WaitIsShort(r: Run, i: nat, j: nat, e: Entry)
    requires Valid(r) && Inv(r.states[0]) && i <= j < |r.states|
    requires e in r.states[i].shared.items && e.nextDue <= r.states[i].clock
    requires LeftAlone(r, i, j, e) && NotSampled(r, i, j, e)
    ensures Decisions(r, i, j) + |Rivals(r.states[j], e)| <= |Rivals(r.states[i], e)| + Passes(r, i, j)
  {
    hide Steps, SampleBegins, Dead, Samples, Rivals, Inv;
    if i < j {
      var m := j - 1;
      WaitIsShort(r, i, m, e);
      UnsampledStays(r, i, j, e);
      RunRivalStep(r, i, m, e);
      RivalsShrink(Rivals(r.states[j], e), Rivals(r.states[m], e));
      if r.labels[m].Act? && !r.states[m].shared.revalidatePending {
        StepOf(r, m);
        InvHolds(r, m);
        ClockGrows(r, i, m);
        SampleIsSeen(r.states[m], r.labels[m], r.states[j], e.serial);
        assert Undisturbed(r.states[m], r.labels[m], e) && !SampledIn(r, m, e);
        ActDecides(r.states[m], r.labels[m], r.states[j]);
        DecisionTakesRival(r.states[m], r.labels[m].intervalMs, e);
        var q :| q in Rivals(r.states[m], e) && q !in Rivals(r.states[j], e);
        ProperlyFewer(Rivals(r.states[j], e), Rivals(r.states[m], e), q);
      }
    }
  }

  lemma ActDecides(s: State, l: Label, t: State)
    requires Steps(s, l, t) && l.Act?
    ensures s.pc == Deciding && t == Next(s, Act(l.intervalMs))
  {
  }

  /** A due entry that nobody takes away is sampled: at the latest by the decision after as many as there were entries
      ahead of it, revalidation passes not counted. */
  lemma DueIsSampledSoon(r: Run, i: nat, j: nat, e: Entry)
    requires FromInit(r) && i <= j < |r.states|
    requires e in r.states[i].shared.items && e.nextDue <= r.states[i].clock && LeftAlone(r, i, j, e)
    requires Decisions(r, i, j) > |Rivals(r.states[i], e)| + Passes(r, i, j)
    ensures exists k :: i <= k < j && SampledIn(r, k, e)
  {
    hide SampledIn, LeftAlone, Decisions, Passes, Rivals;
    if NotSampled(r, i, j, e) {
      WaitIsShort(r, i, j, e);
    }
  }

  /** The same counted on the list alone: as many decisions as it had entries are enough. */
  lemma DueIsSampledWithinList(r: Run, i: nat, j: nat, e: Entry)
    requires FromInit(r) && i <= j < |r.states|
    requires e in r.states[i].shared.items && e.nextDue <= r.states[i].clock && LeftAlone(r, i, j, e)
    requires Decisions(r, i, j) >= |r.states[i].shared.items| + Passes(r, i, j)
    ensures exists k :: i <= k < j && SampledIn(r, k, e)
  {
    InvHolds(r, i);
    RivalsAreFewer(r.states[i], e);
    DueIsSampledSoon(r, i, j, e);
  }

  // ---------- the thread comes round to the next decision ----------

  /** Once the item returns, the owner is let go of and the mutex is free, the thread is back at the loop's head or at
      the next turn of its pass. */
  lemma CallComesBack(s: State)
    requires s.pc.Calling? && !s.locked
    ensures var t := Next(s, Return);
            var u := Next(t, Release);
            var v := Next(u, Relock);
            && t.pc == Releasing(s.pc.owner, s.pc.resume) && u.pc == Relocking(s.pc.resume)
            && (s.pc.resume == ToLoop ==> v.pc == Top && !v.locked)
            && (s.pc.resume.ToPass? ==> v.pc == Passing(s.pc.resume.snapshot, s.pc.resume.turn) && v.locked)
            && v.shared == s.shared && v.clock == s.clock
  {
  }

  /** Somebody holds a reference to the owner: the scheduler thread or another. */
  predicate Referenced(s: State, id: nat) {
    id in s.held || LoopOwner(s.pc) == Owned(id)
  }

  /** A step, whoever takes it, destroys an owner exactly when it takes away the last reference to it; what is destroyed
      stays so. Others take and give up their references by steps of their own alone. */
  lemma DestroyedIff(s: State, l: Label, id: nat)
    requires Inv(s) && Enabled(s, l)
    ensures id in Next(s, l).gone <==> id in s.gone || (Referenced(s, id) && !Referenced(Next(s, l), id))
    ensures id in Next(s, l).held <==> (id in s.held && l != Drop(id)) || l == Grab(id)
  {
    hide Inv, Acted, Turned, Woken, Registered, Unregistered;
    assert Alive(LoopOwner(s.pc), s.gone) by { InvMeansAlive(s); }
    match l
    case Act(intervalMs) => ActDestroysNothing(s, intervalMs);
    case Turn => TurnDestroysNothing(s);
    case Wake => WakeDestroysNothing(s);
    case _ =>
  }

  lemma InvMeansAlive(s: State)
    requires Inv(s)
    ensures Alive(LoopOwner(s.pc), s.gone) && s.held !! s.gone
  {
  }

  lemma ActDestroysNothing(s: State, intervalMs: int)
    requires s.pc.Deciding?
    ensures Acted(s, intervalMs).gone == s.gone && Acted(s, intervalMs).held == s.held && LoopOwner(s.pc) == NoOwner
  {
    hide Decided, Decide;
  }

  lemma TurnDestroysNothing(s: State)
    requires s.pc.Passing?
    ensures Turned(s).gone == s.gone && Turned(s).held == s.held && LoopOwner(s.pc) == NoOwner
  {
    hide Eligible;
  }

  lemma WakeDestroysNothing(s: State)
    requires Blocked(s.pc)
    ensures Woken(s).gone == s.gone && Woken(s).held == s.held && LoopOwner(s.pc) == NoOwner
  {
  }

  /** A connected, running thread gets from the loop's head to a decision as soon as the mutex is free. */
  lemma HeadLeadsToDecision(s: State)
    requires s.pc == Top && !s.locked && s.shared.running
    ensures Enabled(s, Test(true)) && Enabled(Next(s, Test(true)), Lock)
    ensures Next(Next(s, Test(true)), Lock) == s.(pc := Deciding, locked := true)
  {
  }

  /** A blocked thread that is woken, by a notification or for no reason, goes back to the loop's head once what it
      waits for has come, and from the sleep before a deadline in any case. */
  lemma WakingLeadsToHead(s: State)
    requires Blocked(s.pc) && !s.locked
    ensures Enabled(s, Wake)
    ensures s.pc.Sleeping? ==> Next(s, Wake).pc == Top
    ensures s.pc == Idle ==> (Next(s, Wake).pc == Top <==> !s.shared.running || s.shared.items != [])
    ensures s.pc.Polling? ==>
              (Next(s, Wake).pc == Top <==> !s.shared.running || s.shared.revalidatePending || s.clock >= s.pc.until)
    ensures Next(s, Wake).pc == Top || Next(s, Wake).pc == s.pc
    ensures Next(s, Wake).shared == s.shared
  {
  }

  /** While disconnected the thread polls for a second at a time, unless it was stopped or told to revalidate. */
  lemma DisconnectedPolls(s: State)
    requires s.pc == Top && !s.locked && s.shared.running
    ensures var t := Next(s, Test(false));
            && t.pc == PollEntering && Enabled(t, EnterPoll)
            && Next(t, EnterPoll).pc == if s.shared.revalidatePending then Top else Polling(s.clock + 1_000_000_000)
  {
  }

  predicate FirstOf(items: seq<Entry>, item: nat, i: nat) {
    i < |items| && items[i].item == item && forall j :: 0 <= j < i ==> items[j].item != item
  }

  /** A turn of a pass calls the item exactly if it has an entry whose owner, at the first of them, is alive. */
  lemma TurnCallsIff(s: State, snapshot: seq<nat>, turn: nat)
    requires s.pc == Passing(snapshot, turn) && turn < |snapshot| && s.shared.running
    ensures var items, t := s.shared.items, Next(s, Turn);
            && (t.pc.Calling? <==> exists i: nat :: FirstOf(items, snapshot[turn], i) && !Dead(items[i], s.gone))
            && (t.pc.Calling? ==> t.pc.call == ConnectionRestored && t.pc.item == snapshot[turn] && !t.locked)
            && (t.pc.Calling? ==> t.pc.resume == ToPass(snapshot, turn + 1))
            && (!t.pc.Calling? ==> t.pc == Passing(snapshot, turn + 1) && t.locked == s.locked)
            && t.shared == s.shared
  {
    var items, f := s.shared.items, Find(s.shared.items, snapshot[turn]);
    FoundIsFirst(items, snapshot[turn]);
    var t := Next(s, Turn);
    if f < |items| {
      assert FirstOf(items, snapshot[turn], f);
      assert Eligible(s.shared, snapshot[turn], s.gone) <==> !Dead(items[f], s.gone);
    }
    assert t.pc.Calling? <==> Eligible(s.shared, snapshot[turn], s.gone);
    assert Eligible(s.shared, snapshot[turn], s.gone) ==> FirstOf(items, snapshot[turn], f) && !Dead(items[f], s.gone);
  }

  lemma FoundIsFirst(items: seq<Entry>, item: nat)
    ensures forall i: nat :: FirstOf(items, item, i) <==> i == Find(items, item) < |items|
  {
    forall i: nat
      ensures FirstOf(items, item, i) <==> i == Find(items, item) < |items|
    {
      var f := Find(items, item);
      if FirstOf(items, item, i) {
        assert items[i].item == item;
      }
    }
  }

  /** A pass that is stopped, or has taken all its turns, goes back to the loop's head. */
  lemma PassEnds(s: State, snapshot: seq<nat>, turn: nat)
    requires s.pc == Passing(snapshot, turn) && (turn >= |snapshot| || !s.shared.running)
    ensures Next(s, Turn) == s.(pc := Top, locked := false)
  {
  }

  // ---------- what the other threads leave ----------

  /** A registration adds one entry behind all others, due at once, with a number that no entry has; the scheduler
      thread stays where it is, and somebody is about to wake it. */
  lemma RegisteredIsDue(s: State, item: nat, owner: Owner)
    requires Inv(s) && Enabled(s, Register(item, owner))
    ensures var t := Next(s, Register(item, owner));
            && |t.shared.items| == |s.shared.items| + 1 && t.shared.items[..|s.shared.items|] == s.shared.items
            && var e := t.shared.items[|s.shared.items|];
               && e.item == item && e.owner == owner && e.nextDue == s.clock
               && (forall f :: f in s.shared.items ==> f.serial != e.serial)
               && t.pc == s.pc && WakeIsComing(t)
  {
  }

  /** An unregistration takes the item's entries off, all of them and no others; the scheduler thread stays where it is,
      and somebody is about to wake it. */
  lemma UnregisteredIsOff(s: State, item: nat, e: Entry)
    requires Inv(s) && Enabled(s, Unregister(item))
    ensures var t := Next(s, Unregister(item));
            (e in t.shared.items <==> e in s.shared.items && e.item != item) && t.pc == s.pc && WakeIsComing(t)
  {
  }

  /** A pass works through the items of the list as it was, from the first to the last. */
  lemma SnapshotIsList(s: State, intervalMs: int)
    requires s.pc.Deciding? && s.shared.running && s.shared.revalidatePending
    ensures var t := Acted(s, intervalMs);
            && t.pc.Passing? && t.pc.turn == 0 && |t.pc.snapshot| == |s.shared.items|
            && forall k :: 0 <= k < |s.shared.items| ==> t.pc.snapshot[k] == s.shared.items[k].item
  {
  }
}
