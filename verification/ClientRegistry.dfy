/** The clients of a server: the registry kept by its handlers, the device's list of clients, and the session contexts,
    while sessions come and go, addresses are looked up in the background, and the server is stopped. */
module ClientRegistry {

  type Id = string

  /** `scheduled` and `checked` hold the background calls that have not begun and that have seen the server running.
      The last three fields are history: how often each session was activated, the numbers that were overwritten in the
      registry, and the sessions that were closed. */
  datatype State = State(
    running: bool, stopped: bool, present: bool,
    registered: map<Id, nat>, listed: set<nat>, next: nat,
    scheduled: multiset<Id>, checked: multiset<Id>,
    contexts: map<Id, nat>, live: set<nat>, nextContext: nat,
    activated: multiset<Id>, overwritten: set<nat>, closed: set<Id>)

  const START := State(true, false, true, map[], {}, 1, multiset{}, multiset{}, map[], {}, 1, multiset{}, {}, {})

  datatype Label =
    | Activate(id: Id, hasPeer: bool, makesContext: bool)
    | InfoBegins(id: Id)
    | InfoEnds(id: Id)
    | Close(id: Id)
    | StopFlag
    | StopClear
    | DeviceRemoved

  function NonZero(m: map<Id, nat>): set<Id> {
    set id | id in m && m[id] != 0
  }

  function Numbers(m: map<Id, nat>): set<nat> {
    set id | id in NonZero(m) :: m[id]
  }

  predicate Enabled(s: State, l: Label) {
    match l
    case Activate(id, _, _) => id !in s.closed
    case InfoBegins(id) => id in s.scheduled
    case InfoEnds(id) => id in s.checked
    case Close(id) => id !in s.closed
    case StopClear => !s.running
    case _ => true
  }

  /** The handler of a new client: a client that is known already stays as it is. */
  function Connected(m: map<Id, nat>, id: Id): map<Id, nat> {
    if id in m then m else m[id := 0]
  }

  /** A context is made on the first activation, if the application makes one. */
  function WithContext(s: State, id: Id, makes: bool): State {
    if makes && id !in s.contexts
    then s.(contexts := s.contexts[id := s.nextContext], live := s.live + {s.nextContext},
      nextContext := s.nextContext + 1)
    else s
  }

  /** The address of a client is known: it is listed in the device under a new number. */
  function InfoBody(s: State, id: Id): State {
    if id !in s.registered then s
    else if !s.present then s.(registered := s.registered[id := 0])
    else s.(registered := s.registered[id := s.next], listed := s.listed + {s.next}, next := s.next + 1,
            overwritten := s.overwritten + (if s.registered[id] != 0 then {s.registered[id]} else {}))
  }

  function Disconnected(s: State, id: Id): State {
    if id !in s.registered then s
    else s.(registered := s.registered - {id}, listed := if s.present then s.listed - {s.registered[id]} else s.listed)
  }

  function WithoutContext(s: State, id: Id): State {
    if id in s.contexts then s.(contexts := s.contexts - {id}, live := s.live - {s.contexts[id]}) else s
  }

  function Cleared(s: State): State {
    s.(registered := map[], listed := if s.present then s.listed - Numbers(s.registered) else s.listed)
  }

  function Step(s: State, l: Label): State {
    match l
    case Activate(id, hasPeer, makes) =>
      WithContext(s, id, makes).(registered := Connected(s.registered, id), activated := s.activated + multiset{id},
                                 scheduled := if hasPeer then s.scheduled + multiset{id} else s.scheduled)
    case InfoBegins(id) =>
      s.(scheduled := s.scheduled - multiset{id}, checked := if s.running then s.checked + multiset{id} else s.checked)
    case InfoEnds(id) => InfoBody(s, id).(checked := s.checked - multiset{id})
    case Close(id) => WithoutContext(Disconnected(s, id), id).(closed := s.closed + {id})
    case StopFlag => s.(running := false)
    case StopClear => Cleared(s).(stopped := true)
    case DeviceRemoved => s.(present := false)
  }

  // ---------- what every step keeps ----------

  predicate Distinct(m: map<Id, nat>) {
    forall a, b :: a in NonZero(m) && b in NonZero(m) && m[a] == m[b] ==> a == b
  }

  predicate Below(ns: set<nat>, bound: nat) {
    forall n :: n in ns ==> 0 < n < bound
  }

  /** The registry and the device agree: while the device is there, its clients are the registry's numbers, each of one
      client, and those that were overwritten. */
  predicate Agree(present: bool, registered: map<Id, nat>, listed: set<nat>, next: nat, overwritten: set<nat>) {
    && next > 0 && Distinct(registered) && Below(Numbers(registered), next)
    && Below(overwritten, next) && Numbers(registered) !! overwritten
    && (present ==> listed == Numbers(registered) + overwritten)
  }

  predicate RegistryInv(s: State) {
    Agree(s.present, s.registered, s.listed, s.next, s.overwritten)
  }

  predicate OwnContext(contexts: map<Id, nat>, next: nat, closed: set<Id>, id: Id) {
    id in contexts && contexts[id] < next && id !in closed
  }

  /** The contexts are those of the open sessions, one each. */
  predicate ContextsMatch(contexts: map<Id, nat>, live: set<nat>, next: nat, closed: set<Id>) {
    && (forall id :: id in contexts ==> OwnContext(contexts, next, closed, id))
    && (forall a, b :: a in contexts && b in contexts && contexts[a] == contexts[b] ==> a == b)
    && live == contexts.Values
  }

  predicate ContextInv(s: State) {
    ContextsMatch(s.contexts, s.live, s.nextContext, s.closed)
  }

  lemma NumbersOfUpdate(m: map<Id, nat>, id: Id, n: nat)
    requires Distinct(m) && n !in Numbers(m)
    ensures id in m && m[id] != 0 ==> Numbers(m[id := n]) == Numbers(m) - {m[id]} + (if n != 0 then {n} else {})
    ensures !(id in m && m[id] != 0) ==> Numbers(m[id := n]) == Numbers(m) + (if n != 0 then {n} else {})
    ensures Distinct(m[id := n])
  {
    var m' := m[id := n];
    forall k | k in Numbers(m')
      ensures k == n || (k in Numbers(m) && !(id in m && m[id] == k))
    {
      var a :| a in NonZero(m') && m'[a] == k;
      if a != id {
        assert a in NonZero(m);
      }
    }
    forall k | k in Numbers(m) && !(id in m && m[id] == k)
      ensures k in Numbers(m')
    {
      var a :| a in NonZero(m) && m[a] == k;
      assert a in NonZero(m') && m'[a] == k;
    }
    if n != 0 {
      assert id in NonZero(m') && m'[id] == n;
    }
    forall a, b | a in NonZero(m') && b in NonZero(m') && m'[a] == m'[b]
      ensures a == b
    {
      if a != id {
        assert a in NonZero(m) && m[a] in Numbers(m);
      }
      if b != id {
        assert b in NonZero(m) && m[b] in Numbers(m);
      }
    }
  }

  lemma NumbersOfRemoval(m: map<Id, nat>, id: Id)
    requires Distinct(m) && id in m
    ensures Numbers(m - {id}) == Numbers(m) - {m[id]} && Distinct(m - {id})
  {
    var m' := m - {id};
    forall k | k in Numbers(m')
      ensures k in Numbers(m) && k != m[id]
    {
      var a :| a in NonZero(m') && m'[a] == k;
      assert a in NonZero(m) && m[a] == k;
      assert k == m[id] ==> id in NonZero(m);
    }
    forall k | k in Numbers(m) && k != m[id]
      ensures k in Numbers(m')
    {
      var a :| a in NonZero(m) && m[a] == k;
      assert a in NonZero(m') && m'[a] == k;
    }
    forall a, b | a in NonZero(m') && b in NonZero(m') && m'[a] == m'[b]
      ensures a == b
    {
      assert a in NonZero(m) && b in NonZero(m);
    }
  }

  lemma ZeroIsNoNumber(m: map<Id, nat>)
    ensures 0 !in Numbers(m)
  {
  }

  lemma ConnectedAgrees(s: State, id: Id)
    requires RegistryInv(s)
    ensures Agree(s.present, Connected(s.registered, id), s.listed, s.next, s.overwritten)
  {
    hide Distinct, Numbers, NonZero;
    ZeroIsNoNumber(s.registered);
    NumbersOfUpdate(s.registered, id, 0);
  }

  lemma InfoAgrees(s: State, id: Id)
    requires RegistryInv(s)
    ensures RegistryInv(InfoBody(s, id))
  {
    hide Distinct, Numbers, NonZero;
    ZeroIsNoNumber(s.registered);
    if id in s.registered {
      NumbersOfUpdate(s.registered, id, if s.present then s.next else 0);
      RegisteredNumber(s.registered, id);
    }
  }

  lemma DisconnectedAgrees(s: State, id: Id)
    requires RegistryInv(s)
    ensures RegistryInv(Disconnected(s, id))
  {
    hide Distinct, Numbers, NonZero;
    if id in s.registered {
      NumbersOfRemoval(s.registered, id);
      RegisteredNumber(s.registered, id);
    }
  }

  lemma ClearedAgrees(s: State)
    requires RegistryInv(s)
    ensures RegistryInv(Cleared(s))
  {
    hide Distinct, Numbers, NonZero;
    NothingRegistered();
  }

  lemma RegistryStep(s: State, l: Label)
    requires RegistryInv(s)
    ensures RegistryInv(Step(s, l))
  {
    hide Agree, InfoBody, Disconnected, Cleared, Connected;
    match l
    case Activate(id, _, _) => ConnectedAgrees(s, id);
    case InfoEnds(id) => InfoAgrees(s, id);
    case Close(id) => DisconnectedAgrees(s, id);
    case StopClear => ClearedAgrees(s);
    case DeviceRemoved => Removed(s);
    case _ =>
  }

  lemma Removed(s: State)
    requires RegistryInv(s)
    ensures RegistryInv(s.(present := false))
  {
  }

  lemma RegisteredNumber(m: map<Id, nat>, id: Id)
    requires id in m
    ensures m[id] != 0 ==> m[id] in Numbers(m)
  {
    if m[id] != 0 {
      assert id in NonZero(m);
    }
  }

  lemma NothingRegistered()
    ensures Numbers(map[]) == {} && Distinct(map[])
  {
  }

  lemma ContextMade(contexts: map<Id, nat>, live: set<nat>, next: nat, closed: set<Id>, id: Id)
    requires ContextsMatch(contexts, live, next, closed) && id !in contexts && id !in closed
    ensures ContextsMatch(contexts[id := next], live + {next}, next + 1, closed)
  {
    var contexts' := contexts[id := next];
    assert forall a :: a in contexts ==> contexts'[a] == contexts[a] && OwnContext(contexts, next, closed, a);
    assert contexts'[id] == next;
    assert contexts'.Values == contexts.Values + {next};
  }

  lemma ContextDropped(contexts: map<Id, nat>, live: set<nat>, next: nat, closed: set<Id>, id: Id)
    requires ContextsMatch(contexts, live, next, closed)
    ensures id in contexts ==> ContextsMatch(contexts - {id}, live - {contexts[id]}, next, closed + {id})
    ensures id !in contexts ==> ContextsMatch(contexts, live, next, closed + {id})
  {
    assert forall a :: a in contexts ==> OwnContext(contexts, next, closed, a);
    if id in contexts {
      var rest := contexts - {id};
      assert forall a :: a in rest ==> rest[a] == contexts[a];
      assert rest.Values == contexts.Values - {contexts[id]};
    }
  }

  lemma ContextStep(s: State, l: Label)
    requires ContextInv(s) && Enabled(s, l)
    ensures ContextInv(Step(s, l))
  {
    hide ContextsMatch, Agree, InfoBody, Cleared, Connected;
    match l
    case Activate(id, _, makes) =>
      if makes && id !in s.contexts {
        ContextMade(s.contexts, s.live, s.nextContext, s.closed, id);
      }
    case InfoEnds(id) => InfoKeepsContexts(s, id);
    case Close(id) =>
      ContextDropped(s.contexts, s.live, s.nextContext, s.closed, id);
    case StopClear => ClearKeepsContexts(s);
    case _ =>
  }

  lemma InfoKeepsContexts(s: State, id: Id)
    ensures var t := InfoBody(s, id);
            && t.contexts == s.contexts && t.live == s.live && t.nextContext == s.nextContext && t.closed == s.closed
            && t.activated == s.activated && t.next >= s.next && t.listed <= s.listed + {s.next}
  {
  }

  lemma ClearKeepsContexts(s: State)
    ensures var t := Cleared(s);
            && t.contexts == s.contexts && t.live == s.live && t.nextContext == s.nextContext && t.closed == s.closed
            && t.activated == s.activated && t.next == s.next && t.listed <= s.listed && t.overwritten == s.overwritten
  {
    hide Numbers;
  }

  lemma DisconnectedOnly(s: State, id: Id)
    ensures var t := Disconnected(s, id);
            t.activated == s.activated && t.next == s.next && t.listed <= s.listed && t.overwritten == s.overwritten
  {
  }

  lemma WithContextOnly(s: State, id: Id, makes: bool)
    ensures var t := WithContext(s, id, makes);
            t == s.(contexts := t.contexts, live := t.live, nextContext := t.nextContext)
  {
  }

  lemma WithoutContextOnly(s: State, id: Id)
    ensures var t := WithoutContext(s, id);
            t.activated == s.activated && t.next == s.next && t.listed == s.listed && t.overwritten == s.overwritten
  {
  }

  // ---------- whole runs ----------

  function Run(s: State, ls: seq<Label>): State
    decreases |ls|
  {
    if ls == [] then s else Run(Step(s, ls[0]), ls[1..])
  }

  predicate Follows(s: State, ls: seq<Label>)
    decreases |ls|
  {
    ls == [] || (Enabled(s, ls[0]) && Follows(Step(s, ls[0]), ls[1..]))
  }

  lemma {:induction false} RunKeepsRegistry(s: State, ls: seq<Label>)
    requires RegistryInv(s) && ContextInv(s) && Follows(s, ls)
    ensures RegistryInv(Run(s, ls)) && ContextInv(Run(s, ls))
    decreases |ls|
  {
    hide RegistryInv, ContextInv, Step, Enabled, Agree, ContextsMatch;
    if ls != [] {
      RegistryStep(s, ls[0]);
      ContextStep(s, ls[0]);
      RunKeepsRegistry(Step(s, ls[0]), ls[1..]);
    }
  }

  lemma StartHolds()
    ensures RegistryInv(START) && ContextInv(START) && AccountInv(START) && StopInv(START)
  {
    NothingRegistered();
  }

  // ---------- the device's list is the registry ----------

  /** The step gives a client that has a number a second one: the first stays listed for good. */
  predicate Overwrites(s: State, l: Label) {
    l.InfoEnds? && s.present && l.id in NonZero(s.registered)
  }

  predicate NoneOverwrites(s: State, ls: seq<Label>)
    decreases |ls|
  {
    ls == [] || (!Overwrites(s, ls[0]) && NoneOverwrites(Step(s, ls[0]), ls[1..]))
  }

  lemma OverwrittenStep(s: State, l: Label)
    ensures s.overwritten <= Step(s, l).overwritten
    ensures s.overwritten == {} ==> (Step(s, l).overwritten == {} <==> !Overwrites(s, l))
  {
    hide InfoBody, Disconnected, Cleared, WithContext, WithoutContext, Connected;
    match l
    case Activate(id, _, makes) => WithContextOnly(s, id, makes);
    case InfoEnds(id) => InfoOverwrites(s, id);
    case Close(id) =>
      DisconnectedOnly(s, id);
      WithoutContextOnly(Disconnected(s, id), id);
    case StopClear => ClearKeepsContexts(s);
    case _ =>
  }

  lemma InfoOverwrites(s: State, id: Id)
    ensures InfoBody(s, id).overwritten ==
            s.overwritten + (if s.present && id in NonZero(s.registered) then {s.registered[id]} else {})
  {
  }

  lemma {:induction false} OverwrittenIff(s: State, ls: seq<Label>)
    ensures Run(s, ls).overwritten == {} <==> s.overwritten == {} && NoneOverwrites(s, ls)
    decreases |ls|
  {
    hide Step, Overwrites;
    if ls != [] {
      OverwrittenStep(s, ls[0]);
      OverwrittenIff(Step(s, ls[0]), ls[1..]);
    }
  }

  /** In every run, while the device is there, it lists exactly the numbers of the registry if and only if no client was
      ever given a second number. */
  lemma ListedIsRegisteredIff(ls: seq<Label>)
    requires Follows(START, ls) && Run(START, ls).present
    ensures Run(START, ls).listed == Numbers(Run(START, ls).registered) <==> NoneOverwrites(START, ls)
  {
    hide Step, Overwrites, Numbers, NonZero, Distinct;
    StartHolds();
    RunKeepsRegistry(START, ls);
    OverwrittenIff(START, ls);
  }

  /** A number that is not listed any more is never listed again. */
  lemma {:induction false} NeverListedAgain(s: State, ls: seq<Label>, n: nat)
    requires n < s.next && n !in s.listed
    ensures n !in Run(s, ls).listed
    decreases |ls|
  {
    hide Step;
    if ls != [] {
      UnlistedStep(s, ls[0], n);
      NeverListedAgain(Step(s, ls[0]), ls[1..], n);
    }
  }

  lemma UnlistedStep(s: State, l: Label, n: nat)
    requires n < s.next && n !in s.listed
    ensures n < Step(s, l).next && n !in Step(s, l).listed
  {
    hide InfoBody, Disconnected, Cleared, WithContext, WithoutContext, Connected;
    match l
    case Activate(id, _, makes) => WithContextOnly(s, id, makes);
    case InfoEnds(id) => InfoKeepsContexts(s, id);
    case Close(id) =>
      DisconnectedOnly(s, id);
      WithoutContextOnly(Disconnected(s, id), id);
    case StopClear => ClearKeepsContexts(s);
    case _ =>
  }

  // ---------- sessions that are activated once ----------

  function Count(b: bool): nat {
    if b then 1 else 0
  }

  /** Every background call and every number goes back to an activation of its own. */
  predicate Accounted(scheduled: multiset<Id>, checked: multiset<Id>, registered: map<Id, nat>, contexts: map<Id, nat>,
                      activated: multiset<Id>, id: Id) {
    && scheduled[id] + checked[id] + Count(id in NonZero(registered)) <= activated[id]
    && (id in registered || id in contexts ==> activated[id] > 0)
  }

  ghost predicate AccountInv(s: State) {
    forall id :: Accounted(s.scheduled, s.checked, s.registered, s.contexts, s.activated, id)
  }

  ghost predicate OnceEach(s: State) {
    forall id :: s.activated[id] <= 1
  }

  lemma InfoAccounts(s: State, id: Id, other: Id)
    requires AccountInv(s) && id in s.checked
    ensures var t := Step(s, InfoEnds(id));
            Accounted(t.scheduled, t.checked, t.registered, t.contexts, t.activated, other)
  {
    assert Accounted(s.scheduled, s.checked, s.registered, s.contexts, s.activated, other);
  }

  lemma CloseAccounts(s: State, id: Id, other: Id)
    requires AccountInv(s)
    ensures var t := Step(s, Close(id));
            Accounted(t.scheduled, t.checked, t.registered, t.contexts, t.activated, other)
  {
    assert Accounted(s.scheduled, s.checked, s.registered, s.contexts, s.activated, other);
  }

  lemma ActivateAccounts(s: State, id: Id, hasPeer: bool, makes: bool, other: Id)
    requires AccountInv(s)
    ensures var t := Step(s, Activate(id, hasPeer, makes));
            Accounted(t.scheduled, t.checked, t.registered, t.contexts, t.activated, other)
  {
    assert Accounted(s.scheduled, s.checked, s.registered, s.contexts, s.activated, other);
  }

  lemma OtherAccounts(s: State, l: Label, other: Id)
    requires AccountInv(s) && Enabled(s, l) && !l.InfoEnds? && !l.Close? && !l.Activate?
    ensures var t := Step(s, l);
            Accounted(t.scheduled, t.checked, t.registered, t.contexts, t.activated, other)
  {
    assert Accounted(s.scheduled, s.checked, s.registered, s.contexts, s.activated, other);
  }

  lemma AccountStep(s: State, l: Label)
    requires AccountInv(s) && Enabled(s, l)
    ensures AccountInv(Step(s, l))
  {
    hide Accounted, Step;
    var t := Step(s, l);
    forall other
      ensures Accounted(t.scheduled, t.checked, t.registered, t.contexts, t.activated, other)
    {
      match l
      case Activate(id, hasPeer, makes) => ActivateAccounts(s, id, hasPeer, makes, other);
      case InfoEnds(id) => InfoAccounts(s, id, other);
      case Close(id) => CloseAccounts(s, id, other);
      case _ => OtherAccounts(s, l, other);
    }
  }

  /** After the stop no client has a number, and no background call that has passed its check finds its client. */
  ghost predicate StopInv(s: State) {
    s.stopped ==> !s.running && forall id :: Silent(s.registered, s.checked, id)
  }

  predicate Silent(registered: map<Id, nat>, checked: multiset<Id>, id: Id) {
    id in registered ==> registered[id] == 0 && checked[id] == 0
  }

  lemma SilentStep(s: State, l: Label, other: Id)
    requires StopInv(s) && AccountInv(s) && Enabled(s, l) && OnceEach(Step(s, l)) && Step(s, l).stopped
    ensures Silent(Step(s, l).registered, Step(s, l).checked, other)
  {
    assert Accounted(s.scheduled, s.checked, s.registered, s.contexts, s.activated, other);
    assert s.stopped ==> Silent(s.registered, s.checked, other);
    assert Step(s, l).activated[other] <= 1;
  }

  lemma StopStep(s: State, l: Label)
    requires StopInv(s) && AccountInv(s) && Enabled(s, l) && OnceEach(Step(s, l))
    ensures StopInv(Step(s, l))
  {
    hide Silent, Accounted, OnceEach;
    var t := Step(s, l);
    if t.stopped {
      forall other
        ensures Silent(t.registered, t.checked, other)
      {
        SilentStep(s, l, other);
      }
    }
  }

  lemma OnceMeansNoOverwrite(s: State, l: Label)
    requires AccountInv(s) && Enabled(s, l) && OnceEach(Step(s, l))
    ensures !Overwrites(s, l) && OnceEach(s)
  {
    forall id
      ensures s.activated[id] <= 1
    {
      assert Step(s, l).activated[id] <= 1;
    }
    if l.InfoEnds? {
      assert Accounted(s.scheduled, s.checked, s.registered, s.contexts, s.activated, l.id);
    }
  }

  lemma {:induction false} OnceWasOnce(s: State, ls: seq<Label>)
    requires OnceEach(Run(s, ls))
    ensures OnceEach(s)
    decreases |ls|
  {
    hide Step;
    if ls != [] {
      OnceWasOnce(Step(s, ls[0]), ls[1..]);
      ActivatedGrows(s, ls[0]);
      forall id
        ensures s.activated[id] <= 1
      {
        assert Step(s, ls[0]).activated[id] <= 1;
      }
    }
  }

  lemma ActivatedGrows(s: State, l: Label)
    ensures forall id :: s.activated[id] <= Step(s, l).activated[id]
  {
    hide InfoBody, Disconnected, Cleared, WithContext, WithoutContext, Connected;
    match l
    case InfoEnds(id) => InfoKeepsContexts(s, id);
    case Close(id) =>
      DisconnectedOnly(s, id);
      WithoutContextOnly(Disconnected(s, id), id);
    case StopClear => ClearKeepsContexts(s);
    case _ =>
  }

  lemma {:induction false} OnceRun(s: State, ls: seq<Label>)
    requires StopInv(s) && AccountInv(s) && Follows(s, ls) && OnceEach(Run(s, ls))
    ensures NoneOverwrites(s, ls) && StopInv(Run(s, ls)) && AccountInv(Run(s, ls))
    decreases |ls|
  {
    hide Step, Enabled, OnceEach, AccountInv, StopInv, Overwrites;
    if ls != [] {
      OnceWasOnce(Step(s, ls[0]), ls[1..]);
      OnceMeansNoOverwrite(s, ls[0]);
      StopStep(s, ls[0]);
      AccountStep(s, ls[0]);
      OnceRun(Step(s, ls[0]), ls[1..]);
    }
  }

  /** When every session is activated once, the device lists exactly the registry's numbers, and nobody at all once the
      server has been stopped, however late the background calls come. */
  lemma NobodyListedAfterStop(ls: seq<Label>)
    requires Follows(START, ls) && OnceEach(Run(START, ls)) && Run(START, ls).present
    ensures Run(START, ls).listed == Numbers(Run(START, ls).registered)
    ensures Run(START, ls).stopped ==> Run(START, ls).listed == {}
  {
    hide Step, Enabled, OnceEach, AccountInv, Numbers;
    StartHolds();
    OnceRun(START, ls);
    ListedIsRegisteredIff(ls);
    if Run(START, ls).stopped {
      NoNumbers(Run(START, ls));
    }
  }

  lemma NoNumbers(s: State)
    requires StopInv(s) && s.stopped
    ensures Numbers(s.registered) == {}
  {
    forall id | id in s.registered
      ensures s.registered[id] == 0
    {
      assert Silent(s.registered, s.checked, id);
    }
  }

  /** Once every session that was activated is closed, no context is left. */
  lemma AllClosedLeavesNoContext(ls: seq<Label>)
    requires Follows(START, ls)
    requires forall id :: id in Run(START, ls).activated ==> id in Run(START, ls).closed
    ensures Run(START, ls).live == {}
  {
    hide Step, Enabled, Accounted, Agree;
    StartHolds();
    RunKeepsRegistry(START, ls);
    RunAccounts(START, ls);
    var s := Run(START, ls);
    forall id | id in s.contexts
      ensures false
    {
      assert OwnContext(s.contexts, s.nextContext, s.closed, id);
      ContextWasActivated(s, id);
    }
  }

  lemma ContextWasActivated(s: State, id: Id)
    requires AccountInv(s) && id in s.contexts
    ensures id in s.activated
  {
    assert Accounted(s.scheduled, s.checked, s.registered, s.contexts, s.activated, id);
  }

  lemma {:induction false} RunAccounts(s: State, ls: seq<Label>)
    requires AccountInv(s) && Follows(s, ls)
    ensures AccountInv(Run(s, ls))
    decreases |ls|
  {
    hide Step, Enabled, AccountInv;
    if ls != [] {
      AccountStep(s, ls[0]);
      RunAccounts(Step(s, ls[0]), ls[1..]);
    }
  }

  // ---------- sessions that are activated twice ----------

  /** A session that is activated again gets a second number, and the first one outlives it. */
  lemma SecondActivationLeaks(a: Id)
    ensures var once := [Activate(a, true, true), InfoBegins(a), InfoEnds(a)];
            var s := Run(Run(START, once), once + [Close(a)]);
            Follows(START, once) && Follows(Run(START, once), once + [Close(a)]) && s.registered == map[] &&
              s.listed == {1}
  {
    hide Step, Enabled;
    var once := [Activate(a, true, true), InfoBegins(a), InfoEnds(a)];
    FirstActivation(a);
    RunOfThree(START, Activate(a, true, true), InfoBegins(a), InfoEnds(a), []);
    assert once + [] == once;
    var s3 := Step(Step(Step(START, Activate(a, true, true)), InfoBegins(a)), InfoEnds(a));
    assert Run(START, once) == s3 && Follows(START, once);
    SecondActivation(s3, a);
    RunOfThree(s3, Activate(a, true, true), InfoBegins(a), InfoEnds(a), [Close(a)]);
    RunOfOne(Step(Step(Step(s3, Activate(a, true, true)), InfoBegins(a)), InfoEnds(a)), Close(a));
  }

  /** An activation, with its address known, of an open session. */
  lemma Activation(s: State, a: Id)
    requires s.running && s.present && a !in s.closed
    ensures var t := Step(s, Activate(a, true, true));
            var u := Step(t, InfoBegins(a));
            var v := Step(u, InfoEnds(a));
            && Enabled(s, Activate(a, true, true)) && Enabled(t, InfoBegins(a)) && Enabled(u, InfoEnds(a))
            && v.registered == s.registered[a := s.next] && v.listed == s.listed + {s.next} && v.next == s.next + 1
            && v.running && v.present && v.closed == s.closed
  {
    hide Step;
    ActivateAlone(s, a);
    var t := Step(s, Activate(a, true, true));
    BeginsAlone(t, a);
    EndsAlone(Step(t, InfoBegins(a)), a);
    assert Connected(s.registered, a)[a := s.next] == s.registered[a := s.next];
  }

  lemma ActivateAlone(s: State, a: Id)
    ensures var t := Step(s, Activate(a, true, true));
            && t.registered == Connected(s.registered, a) && a in t.scheduled && t.listed == s.listed
            && t.next == s.next
            && t.running == s.running && t.present == s.present && t.closed == s.closed
  {
    hide Connected;
  }

  lemma BeginsAlone(t: State, a: Id)
    requires t.running
    ensures var u := Step(t, InfoBegins(a));
            && u.registered == t.registered && a in u.checked && u.listed == t.listed && u.next == t.next
            && u.running && u.present == t.present && u.closed == t.closed
  {
  }

  lemma EndsAlone(u: State, a: Id)
    requires a in u.registered && u.present
    ensures var v := Step(u, InfoEnds(a));
            && v.registered == u.registered[a := u.next] && v.listed == u.listed + {u.next} && v.next == u.next + 1
            && v.running == u.running && v.present && v.closed == u.closed
  {
  }

  lemma FirstActivation(a: Id)
    ensures var v := Step(Step(Step(START, Activate(a, true, true)), InfoBegins(a)), InfoEnds(a));
            && v.registered == map[a := 1] && v.listed == {1} && v.next == 2 && v.running && v.present && v.closed == {}
    ensures Enabled(START, Activate(a, true, true)) && Enabled(Step(START, Activate(a, true, true)), InfoBegins(a))
    ensures Enabled(Step(Step(START, Activate(a, true, true)), InfoBegins(a)), InfoEnds(a))
  {
    hide Step, Enabled;
    Activation(START, a);
  }

  lemma SecondActivation(s: State, a: Id)
    requires s.registered == map[a := 1] && s.listed == {1} && s.next == 2 && s.running && s.present && s.closed == {}
    ensures var t := Step(s, Activate(a, true, true));
            var u := Step(t, InfoBegins(a));
            var v := Step(u, InfoEnds(a));
            && Enabled(s, Activate(a, true, true)) && Enabled(t, InfoBegins(a)) && Enabled(u, InfoEnds(a))
            && Enabled(v, Close(a)) && Step(v, Close(a)).registered == map[] && Step(v, Close(a)).listed == {1}
  {
    hide Step;
    Activation(s, a);
    var v := Step(Step(Step(s, Activate(a, true, true)), InfoBegins(a)), InfoEnds(a));
    ClosesListed(v, a);
  }

  lemma ClosesListed(v: State, a: Id)
    requires v.registered == map[a := 2] && v.listed == {1, 2} && v.present && v.closed == {}
    ensures Enabled(v, Close(a)) && Step(v, Close(a)).registered == map[] && Step(v, Close(a)).listed == {1}
  {
  }

  lemma RunOfOne(s: State, a: Label)
    ensures Run(s, [a]) == Step(s, a) && (Follows(s, [a]) <==> Enabled(s, a))
  {
    hide Step, Enabled;
    assert [a][1..] == [];
  }

  lemma RunOfThree(s: State, a: Label, b: Label, c: Label, rest: seq<Label>)
    ensures var t := Step(Step(Step(s, a), b), c);
            && Run(s, [a, b, c] + rest) == Run(t, rest)
            && (Follows(s, [a, b, c] + rest) <==>
                  Enabled(s, a) && Enabled(Step(s, a), b) && Enabled(Step(Step(s, a), b), c) && Follows(t, rest))
  {
    hide Step, Enabled;
    RunOfFirst(s, a, [b, c] + rest);
    RunOfFirst(Step(s, a), b, [c] + rest);
    RunOfFirst(Step(Step(s, a), b), c, rest);
    assert [a] + ([b, c] + rest) == [a, b, c] + rest;
    assert [b] + ([c] + rest) == [b, c] + rest;
  }

  lemma RunOfFirst(s: State, a: Label, rest: seq<Label>)
    ensures Run(s, [a] + rest) == Run(Step(s, a), rest)
    ensures Follows(s, [a] + rest) <==> Enabled(s, a) && Follows(Step(s, a), rest)
  {
    hide Step, Enabled;
    assert ([a] + rest)[1..] == rest;
  }

  // ---------- the handlers ----------

  lemma NumbersSplit(m: map<Id, nat>, id: Id)
    requires Distinct(m) && id in m
    ensures m[id] != 0 ==> Numbers(m) == Numbers(m - {id}) + {m[id]} && m[id] !in Numbers(m - {id})
    ensures m[id] == 0 ==> Numbers(m) == Numbers(m - {id})
    ensures Distinct(m - {id})
  {
    hide Distinct, Numbers, NonZero;
    NumbersOfRemoval(m, id);
    RegisteredNumber(m, id);
    ZeroIsNoNumber(m);
  }

  /** The list of connected clients in the device's information. */
  class DeviceInfo {
    var listed: set<nat>
    var next: nat

    constructor ()
      ensures listed == {} && next == 1
    {
      listed, next := {}, 1;
    }

    method AddConnectedClient() returns (number: nat)
      modifies this
      ensures number == old(next) && next == old(next) + 1 && listed == old(listed) + {number}
    {
      number := next;
      listed, next := listed + {number}, next + 1;
    }

    /** Only a client that is listed may be removed. */
    method RemoveConnectedClient(number: nat)
      requires number in listed
      modifies this`listed
      ensures listed == old(listed) - {number}
    {
      listed := listed - {number};
    }
  }

  class TmsServer {
    const device: DeviceInfo
    var running: bool
    var present: bool
    var registered: map<Id, nat>
    var scheduled: multiset<Id>
    var checked: multiset<Id>
    var contexts: map<Id, nat>
    var live: set<nat>
    var nextContext: nat
    ghost var stopped: bool
    ghost var activated: multiset<Id>
    ghost var overwritten: set<nat>
    ghost var closed: set<Id>

    ghost function View(): State
      reads this, device
    {
      State(running, stopped, present, registered, device.listed, device.next, scheduled, checked,
            contexts, live, nextContext, activated, overwritten, closed)
    }

    constructor ()
      ensures View() == START && fresh(device)
    {
      device := new DeviceInfo();
      running, present, registered := true, true, map[];
      scheduled, checked, contexts, live, nextContext := multiset{}, multiset{}, map[], {}, 1;
      stopped, activated, overwritten, closed := false, multiset{}, {}, {};
    }

    /** A context for a session that has none. */
    method CreateSession(id: Id, makesContext: bool)
      modifies this`contexts, this`live, this`nextContext
      ensures View() == WithContext(old(View()), id, makesContext)
    {
      if makesContext && id !in contexts {
        contexts, live, nextContext := contexts[id := nextContext], live + {nextContext}, nextContext + 1;
      }
    }

    /** The handler of a new client. */
    method ClientConnected(id: Id)
      modifies this`registered, this`activated
      ensures View() ==
              old(View()).(registered := Connected(old(registered), id), activated := old(activated) + multiset{id})
    {
      activated := activated + multiset{id};
      if id !in registered {
        registered := registered[id := 0];
      }
    }

    method ActivateSession(id: Id, hasPeer: bool, makesContext: bool)
      modifies this
      ensures View() == Step(old(View()), Activate(id, hasPeer, makesContext))
    {
      hide Connected, WithContext;
      WithContextOnly(View(), id, makesContext);
      CreateSession(id, makesContext);
      ClientConnected(id);
      ScheduleClientInfo(id, hasPeer);
    }

    /** The look-up of the peer's address, if there is a peer to ask about. */
    method ScheduleClientInfo(id: Id, hasPeer: bool)
      modifies this`scheduled
      ensures View() == old(View()).(scheduled := if hasPeer then old(scheduled) + multiset{id} else old(scheduled))
    {
      if hasPeer {
        scheduled := scheduled + multiset{id};
      }
    }

    /** A background call reads the flag before it takes the lock. */
    method InfoCallBegins(id: Id) returns (goesOn: bool)
      requires Enabled(View(), InfoBegins(id))
      modifies this
      ensures View() == Step(old(View()), InfoBegins(id)) && goesOn == old(running)
    {
      scheduled := scheduled - multiset{id};
      goesOn := running;
      if goesOn {
        checked := checked + multiset{id};
      }
    }

    method ClientInfo(id: Id)
      modifies this`registered, this`overwritten, device
      ensures View() == InfoBody(old(View()), id)
    {
      if id !in registered {
        return;
      }
      var number := 0;
      if present {
        number := device.AddConnectedClient();
        overwritten := overwritten + (if registered[id] != 0 then {registered[id]} else {});
      }
      registered := registered[id := number];
    }

    method InfoCallEnds(id: Id)
      requires Enabled(View(), InfoEnds(id))
      modifies this, device
      ensures View() == Step(old(View()), InfoEnds(id))
    {
      hide InfoBody;
      ClientInfo(id);
      checked := checked - multiset{id};
    }

    method ClientDisconnected(id: Id)
      requires RegistryInv(View())
      modifies this`registered, device
      ensures View() == Disconnected(old(View()), id)
    {
      hide Distinct, Numbers, NonZero;
      if id in registered {
        RegisteredNumber(registered, id);
        ZeroIsNoNumber(registered);
        if present && registered[id] != 0 {
          device.RemoveConnectedClient(registered[id]);
        }
        registered := registered - {id};
      }
    }

    method CloseSession(id: Id)
      requires RegistryInv(View())
      modifies this, device
      ensures View() == Step(old(View()), Close(id))
    {
      hide Disconnected, Agree;
      ClientDisconnectedKeeps(View(), id);
      ClientDisconnected(id);
      if id in contexts {
        contexts, live := contexts - {id}, live - {contexts[id]};
      }
      closed := closed + {id};
    }

    method Stop()
      modifies this`running
      ensures View() == Step(old(View()), StopFlag)
    {
      running := false;
    }

    /** Takes every number of the registry off the list. */
    method RemoveAll()
      requires RegistryInv(View()) && present
      modifies device
      ensures device.listed == old(device.listed) - Numbers(registered) && device.next == old(device.next)
    {
      hide Distinct, Numbers, NonZero;
      var rest := registered;
      ghost var removed: set<nat> := {};
      while rest != map[]
        invariant Distinct(rest) && removed + Numbers(rest) == Numbers(registered) && removed !! Numbers(rest)
        invariant device.listed == old(device.listed) - removed && device.next == old(device.next)
        decreases |rest|
      {
        var id :| id in rest;
        NumbersSplit(rest, id);
        if rest[id] != 0 {
          device.RemoveConnectedClient(rest[id]);
          removed := removed + {rest[id]};
        }
        rest := rest - {id};
      }
      NothingRegistered();
    }

    method ClearAll()
      requires RegistryInv(View())
      modifies this`registered, this`stopped, device
      ensures View() == Step(old(View()), StopClear)
    {
      hide Distinct, Numbers, NonZero;
      if present {
        RemoveAll();
      }
      registered := map[];
      stopped := true;
    }
  }

  lemma ClientDisconnectedKeeps(s: State, id: Id)
    ensures var t := Disconnected(s, id);
            t == s.(registered := t.registered, listed := t.listed)
  {
  }
}
