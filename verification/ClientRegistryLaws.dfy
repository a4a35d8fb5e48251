/** What a run leaves of one client, told by the steps of the run: its context, its place in the registry, and the
    background calls made for it. */
module ClientRegistryLaws {
  import opened ClientRegistry

  predicate Some(ls: seq<Label>, p: Label -> bool) {
    exists k :: 0 <= k < |ls| && p(ls[k])
  }

  function CountOf(ls: seq<Label>, p: Label -> bool): nat
    decreases |ls|
  {
    if ls == [] then 0 else (if p(ls[0]) then 1 else 0) + CountOf(ls[1..], p)
  }

  lemma SomeFirst(ls: seq<Label>, p: Label -> bool)
    requires ls != []
    ensures Some(ls, p) <==> p(ls[0]) || Some(ls[1..], p)
  {
    if k :| 0 <= k < |ls| && p(ls[k]) {
      assert k > 0 ==> ls[1..][k - 1] == ls[k];
    }
    if k :| 0 <= k < |ls[1..]| && p(ls[1..][k]) {
      assert ls[k + 1] == ls[1..][k];
    }
  }

  function Activates(id: Id): Label -> bool {
    (l: Label) => l.Activate? && l.id == id
  }

  function MakesContext(id: Id): Label -> bool {
    (l: Label) => l.Activate? && l.id == id && l.makesContext
  }

  function LooksUp(id: Id): Label -> bool {
    (l: Label) => l.Activate? && l.id == id && l.hasPeer
  }

  function Closes(id: Id): Label -> bool {
    (l: Label) => l == Close(id)
  }

  function Leaves(id: Id): Label -> bool {
    (l: Label) => l == Close(id) || l == StopClear
  }

  function Begins(id: Id): Label -> bool {
    (l: Label) => l == InfoBegins(id)
  }

  function Ends(id: Id): Label -> bool {
    (l: Label) => l == InfoEnds(id)
  }

  // ---------- what one step does to one client ----------

  lemma WithContextFor(s: State, who: Id, makes: bool, id: Id)
    ensures var t := WithContext(s, who, makes);
            && (id in t.contexts <==> id in s.contexts || (makes && id == who))
            && (id in s.contexts ==> t.contexts[id] == s.contexts[id])
            && t.closed == s.closed && t.registered == s.registered && t.running == s.running
            && t.scheduled == s.scheduled && t.checked == s.checked
  {
  }

  lemma WithoutContextFor(s: State, who: Id, id: Id)
    ensures var t := WithoutContext(s, who);
            && (id in t.contexts <==> id in s.contexts && id != who)
            && (id in t.contexts ==> t.contexts[id] == s.contexts[id])
            && t.closed == s.closed && t.registered == s.registered && t.running == s.running
            && t.scheduled == s.scheduled && t.checked == s.checked
  {
  }

  lemma DisconnectedFor(s: State, who: Id, id: Id)
    ensures var t := Disconnected(s, who);
            && (id in t.registered <==> id in s.registered && id != who)
            && t.closed == s.closed && t.contexts == s.contexts && t.running == s.running
            && t.scheduled == s.scheduled && t.checked == s.checked
  {
  }

  lemma InfoFor(s: State, who: Id, id: Id)
    ensures var t := InfoBody(s, who);
            && (id in t.registered <==> id in s.registered)
            && t.closed == s.closed && t.contexts == s.contexts && t.running == s.running
            && t.scheduled == s.scheduled && t.checked == s.checked
  {
  }

  lemma ClearedFor(s: State)
    ensures var t := Cleared(s);
            && t.registered == map[]
            && t.closed == s.closed && t.contexts == s.contexts && t.running == s.running
            && t.scheduled == s.scheduled && t.checked == s.checked
  {
    hide Numbers;
  }

  lemma ConnectedFor(m: map<Id, nat>, who: Id, id: Id)
    ensures id in Connected(m, who) <==> id in m || id == who
  {
  }

  /** One step as one client sees it. */
  predicate Seen(s: State, l: Label, t: State, id: Id) {
    && (id in t.contexts <==> (id in s.contexts || MakesContext(id)(l)) && !Closes(id)(l))
    && (id in s.contexts && id in t.contexts ==> t.contexts[id] == s.contexts[id])
    && (id in t.closed <==> id in s.closed || Closes(id)(l))
    && (id in t.registered <==> (id in s.registered && !Leaves(id)(l)) || Activates(id)(l))
    && t.scheduled[id] + One(Begins(id)(l)) == s.scheduled[id] + One(LooksUp(id)(l))
    && t.checked[id] + One(Ends(id)(l)) == s.checked[id] + One(s.running && Begins(id)(l))
    && (t.running <==> s.running && l != StopFlag)
  }

  lemma ActivateSeen(s: State, l: Label, id: Id)
    requires l.Activate?
    ensures Seen(s, l, Step(s, l), id)
  {
    hide WithContext, Connected;
    WithContextFor(s, l.id, l.makesContext, id);
    ConnectedFor(s.registered, l.id, id);
  }

  lemma InfoSeen(s: State, l: Label, id: Id)
    requires Enabled(s, l) && l.InfoEnds?
    ensures Seen(s, l, Step(s, l), id)
  {
    hide InfoBody;
    InfoFor(s, l.id, id);
  }

  lemma CloseSeen(s: State, l: Label, id: Id)
    requires l.Close?
    ensures Seen(s, l, Step(s, l), id)
  {
    hide WithoutContext, Disconnected;
    DisconnectedFor(s, l.id, id);
    WithoutContextFor(Disconnected(s, l.id), l.id, id);
  }

  lemma ClearSeen(s: State, l: Label, id: Id)
    requires l.StopClear?
    ensures Seen(s, l, Step(s, l), id)
  {
    hide Cleared;
    ClearedFor(s);
  }

  lemma BeginsSeen(s: State, l: Label, id: Id)
    requires Enabled(s, l) && l.InfoBegins?
    ensures Seen(s, l, Step(s, l), id)
  {
  }

  lemma OtherSeen(s: State, l: Label, id: Id)
    requires l.StopFlag? || l.DeviceRemoved?
    ensures Seen(s, l, Step(s, l), id)
  {
  }

  lemma StepFor(s: State, l: Label, id: Id)
    requires Enabled(s, l)
    ensures Seen(s, l, Step(s, l), id)
  {
    hide Step, Seen, Enabled;
    match l
    case Activate(_, _, _) => ActivateSeen(s, l, id);
    case InfoEnds(_) => InfoSeen(s, l, id);
    case Close(_) => CloseSeen(s, l, id);
    case StopClear => ClearSeen(s, l, id);
    case InfoBegins(_) => BeginsSeen(s, l, id);
    case _ => OtherSeen(s, l, id);
  }

  function One(b: bool): nat {
    if b then 1 else 0
  }

  // ---------- contexts ----------

  /** A client of a closed session is not activated again. */
  lemma {:induction false} ClosedIsOver(s: State, ls: seq<Label>, id: Id)
    requires Follows(s, ls) && id in s.closed
    ensures !Some(ls, Activates(id)) && !Some(ls, MakesContext(id))
    decreases |ls|
  {
    hide Step, Some;
    if ls == [] {
      NoneInNothing(Activates(id));
      NoneInNothing(MakesContext(id));
    } else {
      StepFor(s, ls[0], id);
      ClosedIsOver(Step(s, ls[0]), ls[1..], id);
      SomeFirst(ls, Activates(id));
      SomeFirst(ls, MakesContext(id));
    }
  }

  lemma NoneInNothing(p: Label -> bool)
    ensures !Some([], p)
  {
  }

  /** At the end of a run a session has a context if and only if it had one or an activation made one, and it was not
      closed. */
  lemma {:induction false} ContextIff(s: State, ls: seq<Label>, id: Id)
    requires Follows(s, ls) && ContextInv(s)
    ensures id in Run(s, ls).contexts <==> (id in s.contexts || Some(ls, MakesContext(id))) && !Some(ls, Closes(id))
    decreases |ls|
  {
    hide Step, Some, Enabled, ContextInv;
    if ls == [] {
      NoneInNothing(MakesContext(id));
      NoneInNothing(Closes(id));
    } else {
      ContextStep(s, ls[0]);
      StepFor(s, ls[0], id);
      ContextIff(Step(s, ls[0]), ls[1..], id);
      SomeFirst(ls, MakesContext(id));
      SomeFirst(ls, Closes(id));
      if Closes(id)(ls[0]) {
        ClosedIsOver(Step(s, ls[0]), ls[1..], id);
      }
    }
  }

  /** A session keeps the context it was given for as long as it has one. */
  lemma {:induction false} ContextIsKept(s: State, ls: seq<Label>, id: Id)
    requires Follows(s, ls) && ContextInv(s) && id in s.contexts && !Some(ls, Closes(id))
    ensures id in Run(s, ls).contexts && Run(s, ls).contexts[id] == s.contexts[id]
    decreases |ls|
  {
    hide Step, Some, Enabled, ContextInv;
    if ls != [] {
      SomeFirst(ls, Closes(id));
      ContextStep(s, ls[0]);
      StepFor(s, ls[0], id);
      ContextIsKept(Step(s, ls[0]), ls[1..], id);
    }
  }

  // ---------- the registry ----------

  /** The client is activated at step `k`, and from then on neither closed nor cleared away. */
  predicate EntersAt(ls: seq<Label>, id: Id, k: nat) {
    k < |ls| && Activates(id)(ls[k]) && !Some(ls[k + 1..], Leaves(id))
  }

  predicate Enters(ls: seq<Label>, id: Id) {
    exists k: nat :: k < |ls| && EntersAt(ls, id, k)
  }

  lemma EntersFirst(ls: seq<Label>, id: Id)
    requires ls != []
    ensures Enters(ls, id) <==> EntersAt(ls, id, 0) || Enters(ls[1..], id)
  {
    hide Some;
    if k: nat :| k < |ls| && EntersAt(ls, id, k) {
      if k > 0 {
        assert ls[1..][k - 1] == ls[k] && ls[1..][k..] == ls[k + 1..];
        assert EntersAt(ls[1..], id, k - 1);
      }
    }
    if k: nat :| k < |ls[1..]| && EntersAt(ls[1..], id, k) {
      assert ls[1..][k] == ls[k + 1] && ls[1..][k + 1..] == ls[k + 2..];
      var next := k + 1;
      assert EntersAt(ls, id, next);
    }
  }

  /** At the end of a run a client is registered if and only if its session was activated, or was registered at first,
      and since then was not closed and the registry not cleared. */
  lemma {:induction false} RegisteredIff(s: State, ls: seq<Label>, id: Id)
    requires Follows(s, ls)
    ensures id in Run(s, ls).registered <==> (id in s.registered && !Some(ls, Leaves(id))) || Enters(ls, id)
    decreases |ls|
  {
    hide Step, Enabled, Some, EntersAt;
    if ls == [] {
      NoneInNothing(Leaves(id));
    } else {
      StepFor(s, ls[0], id);
      RegisteredIff(Step(s, ls[0]), ls[1..], id);
      SomeFirst(ls, Leaves(id));
      EntersFirst(ls, id);
      EntersAtFirst(ls, id);
    }
  }

  lemma EntersAtFirst(ls: seq<Label>, id: Id)
    requires ls != []
    ensures EntersAt(ls, id, 0) <==> Activates(id)(ls[0]) && !Some(ls[1..], Leaves(id))
  {
  }

  // ---------- background calls ----------

  /** The background calls for a client that began before the server was told to stop. */
  function BegunInTime(ls: seq<Label>, id: Id): nat
    decreases |ls|
  {
    if ls == [] || ls[0] == StopFlag then 0 else (if Begins(id)(ls[0]) then 1 else 0) + BegunInTime(ls[1..], id)
  }

  /** Every activation with a known peer makes one background call, which begins once; and every call that began before
      the server was told to stop, and no other, goes on to its end, once. */
  lemma {:induction false} CallsAreCounted(s: State, ls: seq<Label>, id: Id)
    requires Follows(s, ls)
    ensures Run(s, ls).scheduled[id] + CountOf(ls, Begins(id)) == s.scheduled[id] + CountOf(ls, LooksUp(id))
    ensures Run(s, ls).checked[id] + CountOf(ls, Ends(id)) ==
            s.checked[id] + if s.running then BegunInTime(ls, id) else 0
    decreases |ls|
  {
    hide Step, Enabled;
    if ls != [] {
      StepFor(s, ls[0], id);
      CallsAreCounted(Step(s, ls[0]), ls[1..], id);
    }
  }

  // ---------- the device's list ----------

  /** The end of a background call lists its client under a number nobody had, if the client is registered and the
      device is there; without the device the client is left without a number, and a client that has gone changes
      nothing. */
  lemma InfoLists(s: State, id: Id)
    requires RegistryInv(s) && Enabled(s, InfoEnds(id))
    ensures var t := Step(s, InfoEnds(id));
            && (id !in s.registered ==> t.registered == s.registered && t.listed == s.listed)
            && (id in s.registered && !s.present ==> t.registered == s.registered[id := 0] && t.listed == s.listed)
            && (id in s.registered && s.present ==>
                  exists n: nat :: n > 0 && n !in s.listed && n !in s.registered.Values
                    && t.registered == s.registered[id := n] && t.listed == s.listed + {n})
  {
    hide Distinct, Numbers, NonZero;
    if s.next in s.registered.Values {
      var a :| a in s.registered && s.registered[a] == s.next;
      RegisteredNumber(s.registered, a);
      assert false;
    }
  }

  /** The end of a stop empties the registry, and what stays listed then are the numbers that were overwritten. */
  lemma ClearLeaves(s: State)
    requires RegistryInv(s)
    ensures var t := Step(s, StopClear);
            && t.registered == map[]
            && t.listed == (if s.present then s.overwritten else s.listed)
  {
    hide Distinct, Numbers, NonZero;
  }
}
