/** The scheduler's list of sampled items and the decision it takes under the mutex. */
module SamplingItems {

  /** Points in time are nanoseconds of the steady clock. */
  const MILLISECOND := 1_000_000

  /** The weak reference to the object that keeps an item alive. */
  datatype Owner = NoOwner | Owned(id: nat)

  /** `serial` numbers the registrations; nothing decides on it, it only tells entries apart. */
  datatype Entry = Entry(item: nat, owner: Owner, nextDue: int, serial: nat)

  function Clamped(intervalMs: int): int {
    (if intervalMs < 1 then 1 else intervalMs) * MILLISECOND
  }

  /** The interval in nanoseconds; below one millisecond it is one millisecond. */
  lemma ClampedIs(intervalMs: int)
    ensures intervalMs >= 1 ==> Clamped(intervalMs) == intervalMs * 1_000_000
    ensures intervalMs < 1 ==> Clamped(intervalMs) == 1_000_000
  {
  }

  /** The next deadline of an item that was due at `due`: one interval on, or one interval from now if that is past. */
  function AdvanceDeadline(due: int, now: int, intervalMs: int): (next: int)
    ensures due <= now ==> now < next <= now + Clamped(intervalMs)
    ensures next >= due + Clamped(intervalMs)
    ensures now < due + Clamped(intervalMs) ==> next == due + Clamped(intervalMs)
    ensures now >= due + Clamped(intervalMs) ==> next == now + Clamped(intervalMs)
  {
    var shifted := due + Clamped(intervalMs);
    if shifted > now then shifted else now + Clamped(intervalMs)
  }

  /** What the mutex guards. */
  datatype Shared = Shared(items: seq<Entry>, running: bool, revalidatePending: bool, nextSerial: nat)

  /** Serial numbers grow along the list and stay below `bound`. */
  ghost predicate Increasing(items: seq<Entry>, bound: nat) {
    && (forall i, j :: 0 <= i < j < |items| ==> items[i].serial < items[j].serial)
    && (forall i :: 0 <= i < |items| ==> items[i].serial < bound)
  }

  function Registered(s: Shared, item: nat, owner: Owner, now: int): Shared {
    s.(items := s.items + [Entry(item, owner, now, s.nextSerial)], nextSerial := s.nextSerial + 1)
  }

  function Without(items: seq<Entry>, item: nat): (rest: seq<Entry>)
    ensures forall e :: e in rest <==> e in items && e.item != item
  {
    if items == [] then []
    else
      var last := items[|items| - 1];
      Without(items[..|items| - 1], item) + if last.item == item then [] else [last]
  }

  function Unregistered(s: Shared, item: nat): Shared {
    s.(items := Without(s.items, item))
  }

  /** The position of the earliest deadline, the first one on a tie. */
  function FirstDue(items: seq<Entry>): (f: nat)
    requires items != []
    ensures f < |items|
    ensures forall j :: 0 <= j < |items| ==> items[f].nextDue <= items[j].nextDue
    ensures forall j :: 0 <= j < f ==> items[f].nextDue < items[j].nextDue
  {
    if |items| == 1 then 0
    else
      var f := FirstDue(items[..|items| - 1]);
      if items[|items| - 1].nextDue < items[f].nextDue then |items| - 1 else f
  }

  function ItemsOf(items: seq<Entry>): seq<nat> {
    seq(|items|, i requires 0 <= i < |items| => items[i].item)
  }

  /** The owner can still be referenced: there is none, or it is not being destroyed. */
  predicate Alive(owner: Owner, gone: set<nat>) {
    owner.Owned? ==> owner.id !in gone
  }

  datatype Decision =
    | Exit
    | StartPass(snapshot: seq<nat>)
    | AwaitItem
    | SleepUntil(time: int)
    | Forget(entry: Entry)
    | Sample(entry: Entry)

  /** What the loop does once it holds the mutex. */
  function Decide(s: Shared, now: int, gone: set<nat>): Decision {
    if !s.running then Exit
    else if s.revalidatePending then StartPass(ItemsOf(s.items))
    else if s.items == [] then AwaitItem
    else
      var e := s.items[FirstDue(s.items)];
      if e.nextDue > now then SleepUntil(e.nextDue)
      else if !Alive(e.owner, gone) then Forget(e)
      else Sample(e)
  }

  function RemoveAt(items: seq<Entry>, i: nat): seq<Entry>
    requires i < |items|
  {
    items[..i] + items[i + 1..]
  }

  /** How that changes what the mutex guards. */
  function Decided(s: Shared, now: int, gone: set<nat>, intervalMs: int): Shared {
    match Decide(s, now, gone)
    case StartPass(_) => s.(revalidatePending := false)
    case Forget(_) => s.(items := RemoveAt(s.items, FirstDue(s.items)))
    case Sample(e) =>
      s.(items := s.items[FirstDue(s.items) := e.(nextDue := AdvanceDeadline(e.nextDue, now, intervalMs))])
    case _ => s
  }

  lemma IncreasingAppend(items: seq<Entry>, e: Entry, bound: nat)
    requires Increasing(items, e.serial) && e.serial < bound
    ensures Increasing(items + [e], bound)
  {
  }

  lemma {:induction false} IncreasingWithout(items: seq<Entry>, item: nat, bound: nat)
    requires Increasing(items, bound)
    ensures Increasing(Without(items, item), bound)
  {
    if items != [] {
      var before, last := items[..|items| - 1], items[|items| - 1];
      IncreasingWithout(before, item, last.serial);
      if last.item == item {
        assert Without(items, item) == Without(before, item);
      } else {
        IncreasingAppend(Without(before, item), last, bound);
      }
    }
  }

  lemma IncreasingRemoveAt(items: seq<Entry>, f: nat, bound: nat)
    requires Increasing(items, bound) && f < |items|
    ensures Increasing(RemoveAt(items, f), bound)
  {
    var rest := RemoveAt(items, f);
    forall i, j | 0 <= i < j < |rest|
      ensures rest[i].serial < rest[j].serial
    {
      assert rest[i] == items[if i < f then i else i + 1];
      assert rest[j] == items[if j < f then j else j + 1];
    }
  }

  lemma IncreasingUpdate(items: seq<Entry>, f: nat, nextDue: int, bound: nat)
    requires Increasing(items, bound) && f < |items|
    ensures Increasing(items[f := items[f].(nextDue := nextDue)], bound)
  {
  }

  lemma IncreasingDecided(s: Shared, now: int, gone: set<nat>, intervalMs: int)
    requires Increasing(s.items, s.nextSerial)
    ensures var t := Decided(s, now, gone, intervalMs); Increasing(t.items, t.nextSerial)
  {
    match Decide(s, now, gone)
    case Forget(_) => IncreasingRemoveAt(s.items, FirstDue(s.items), s.nextSerial);
    case Sample(e) =>
      IncreasingUpdate(s.items, FirstDue(s.items), AdvanceDeadline(e.nextDue, now, intervalMs), s.nextSerial);
    case _ =>
  }

  /** The first entry of `item`, as `find_if` finds it. */
  function Find(items: seq<Entry>, item: nat): (i: nat)
    ensures i <= |items|
    ensures i < |items| ==> items[i].item == item
    ensures forall j :: 0 <= j < i ==> items[j].item != item
  {
    if items == [] then 0
    else if items[0].item == item then 0
    else 1 + Find(items[1..], item)
  }

  /** Whether a revalidation pass calls `item` when its turn comes. */
  predicate Eligible(s: Shared, item: nat, gone: set<nat>) {
    var i := Find(s.items, item);
    i < |s.items| && Alive(s.items[i].owner, gone)
  }
}
