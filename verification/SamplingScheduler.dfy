/** The scheduler object: its operations on the state the mutex guards. */
module SamplingScheduler {
  import opened SamplingItems

  class Scheduler {
    var items: seq<Entry>
    var running: bool
    var revalidatePending: bool
    var nextSerial: nat

    function View(): Shared
      reads this
    {
      Shared(items, running, revalidatePending, nextSerial)
    }

    constructor ()
      ensures View() == Shared([], false, false, 0)
    {
      items, running, revalidatePending, nextSerial := [], false, false, 0;
    }

    method RegisterItem(item: nat, owner: Owner, now: int)
      modifies this
      ensures View() == Registered(old(View()), item, owner, now)
    {
      items := items + [Entry(item, owner, now, nextSerial)];
      nextSerial := nextSerial + 1;
    }

    method UnregisterItem(item: nat)
      modifies this
      ensures View() == Unregistered(old(View()), item)
    {
      var kept: seq<Entry> := [];
      var i := 0;
      while i < |items|
        invariant 0 <= i <= |items|
        invariant View() == old(View())
        invariant kept == Without(items[..i], item)
      {
        assert items[..i + 1][..i] == items[..i];
        if items[i].item != item {
          kept := kept + [items[i]];
        }
        i := i + 1;
      }
      assert items[..|items|] == items;
      items := kept;
    }

    method OnReconnected()
      modifies this
      ensures View() == old(View()).(revalidatePending := true)
    {
      revalidatePending := true;
    }

    method MinElement() returns (next: nat)
      requires items != []
      ensures next == FirstDue(items)
    {
      next := 0;
      var i := 1;
      while i < |items|
        invariant 1 <= i <= |items|
        invariant next == FirstDue(items[..i])
      {
        assert items[..i + 1][..i] == items[..i];
        if items[i].nextDue < items[next].nextDue {
          next := i;
        }
        i := i + 1;
      }
      assert items[..|items|] == items;
    }

    /** The snapshot a revalidation pass works through. */
    method Snapshot() returns (pending: seq<nat>)
      ensures pending == ItemsOf(items)
    {
      pending := [];
      var i := 0;
      while i < |items|
        invariant 0 <= i <= |items|
        invariant pending == ItemsOf(items)[..i]
      {
        pending := pending + [items[i].item];
        i := i + 1;
      }
    }

    /** One critical section of the loop, from taking the mutex to letting go of it. */
    method LockedSection(now: int, gone: set<nat>, samplingIntervalMs: int) returns (decision: Decision)
      modifies this
      ensures decision == Decide(old(View()), now, gone)
      ensures View() == Decided(old(View()), now, gone, samplingIntervalMs)
    {
      if !running {
        return Exit;
      }
      if revalidatePending {
        revalidatePending := false;
        var pending := Snapshot();
        return StartPass(pending);
      }
      if items == [] {
        return AwaitItem;
      }
      var next := MinElement();
      var entry := items[next];
      if entry.nextDue > now {
        return SleepUntil(entry.nextDue);
      }
      if !Alive(entry.owner, gone) {
        items := items[..next] + items[next + 1..];
        return Forget(entry);
      }
      items := items[next := entry.(nextDue := AdvanceDeadline(entry.nextDue, now, samplingIntervalMs))];
      decision := Sample(entry);
    }

    /** Whether the item whose turn it is in a revalidation pass is called. */
    method RevalidationTurn(item: nat, gone: set<nat>) returns (call: bool)
      ensures call == Eligible(View(), item, gone)
    {
      var i := 0;
      while i < |items| && items[i].item != item
        invariant 0 <= i <= |items|
        invariant Find(items, item) == i + Find(items[i..], item)
      {
        i := i + 1;
      }
      call := i < |items| && Alive(items[i].owner, gone);
    }
  }
}
