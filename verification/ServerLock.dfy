/** Control over the configuration: a lease that one token holds for a time, and a password. */
module ServerLock {
  import opened NodeIds

  type Token = NodeId

  const SECOND: int := 1_000_000_000

  /** The lock's fields; times are readings of a monotone clock, in nanoseconds. */
  datatype State = State(password: string, holder: Token, validTo: int)

  predicate Active(s: State, t: int) {
    t < s.validTo
  }

  predicate Has(s: State, token: Token, t: int) {
    token == s.holder && Active(s, t)
  }

  /** The clock is read twice, the second time only when the first did not decide. */
  predicate Access(s: State, token: Token, t1: int, t2: int) {
    Has(s, token, t1) || !Active(s, t2)
  }

  /** The operations with the readings of the clock that they take. */
  datatype Op =
    | Lock(token: Token, seconds: int, t1: int, t2: int, t3: int)
    | Refuse(token: Token, t1: int, t2: int, t3: int)
    | PasswordLock(password: string, token: Token, t1: int, t2: int)
    | PasswordUnlock(password: string, token: Token, t1: int, t2: int)
  {
    /** The last reading. */
    function End(): int {
      match this
      case Lock(_, _, _, _, t3) => t3
      case Refuse(_, _, _, t3) => t3
      case PasswordLock(_, _, _, t2) => t2
      case PasswordUnlock(_, _, _, t2) => t2
    }

    /** The readings are in order, none before `now`. */
    predicate After(now: int) {
      match this
      case Lock(_, _, t1, t2, t3) => now <= t1 <= t2 <= t3
      case Refuse(_, t1, t2, t3) => now <= t1 <= t2 <= t3
      case PasswordLock(_, _, t1, t2) => now <= t1 <= t2
      case PasswordUnlock(_, _, t1, t2) => now <= t1 <= t2
    }
  }

  function Locked(s: State, token: Token, seconds: int, t1: int, t2: int, t3: int): (State, bool) {
    if Access(s, token, t1, t2) then (s.(holder := token, validTo := t3 + seconds * SECOND), true) else (s, false)
  }

  function Step(s: State, op: Op): (State, bool) {
    match op
    case Lock(token, seconds, t1, t2, t3) => Locked(s, token, seconds, t1, t2, t3)
    case Refuse(token, t1, t2, t3) =>
      if token == s.holder then (Locked(s, token, -1, t1, t2, t3).0, true) else (s, true)
    case PasswordLock(password, token, t1, t2) =>
      if Access(s, token, t1, t2) && s.password == "" then (s.(password := password), true) else (s, false)
    case PasswordUnlock(password, token, t1, t2) =>
      if Access(s, token, t1, t2) && (s.password == "" || s.password == password) then (s.(password := ""), true)
      else (s, false)
  }

  // ---------- the object ----------

  class OpcUaServerLock {
    var password: string
    var holder: Token
    var validTo: int

    ghost function View(): State
      reads this
    {
      State(password, holder, validTo)
    }

    /** Nobody has the lease at first. */
    constructor (t1: int, t2: int, t3: int)
      requires 0 <= t1 <= t2 <= t3
      ensures View() == State("", NULL_ID, t3 - SECOND)
    {
      password, holder, validTo := "", NULL_ID, 0;
      new;
      RefuseConfigurationControlLock(NULL_ID, t1, t2, t3);
    }

    method HasConfigurationControlLock(token: Token, t: int) returns (has: bool)
      ensures has <==> Has(View(), token, t)
    {
      has := token == holder && t < validTo;
    }

    method HasAccess(token: Token, t1: int, t2: int) returns (access: bool)
      ensures access <==> Access(View(), token, t1, t2)
    {
      access := HasConfigurationControlLock(token, t1);
      if !access {
        access := !(t2 < validTo);
      }
    }

    method LockConfigurationControl(token: Token, seconds: int, t1: int, t2: int, t3: int) returns (ok: bool)
      modifies this
      ensures (View(), ok) == Step(old(View()), Lock(token, seconds, t1, t2, t3))
    {
      ok := HasAccess(token, t1, t2);
      if ok {
        holder, validTo := token, t3 + seconds * SECOND;
      }
    }

    method RefuseConfigurationControlLock(token: Token, t1: int, t2: int, t3: int)
      modifies this
      ensures View() == Step(old(View()), Refuse(token, t1, t2, t3)).0
    {
      if token == holder {
        var _ := LockConfigurationControl(token, -1, t1, t2, t3);
      }
    }

    method LockPassword(pw: string, token: Token, t1: int, t2: int) returns (ok: bool)
      modifies this`password
      ensures (View(), ok) == Step(old(View()), PasswordLock(pw, token, t1, t2))
    {
      var can := HasAccess(token, t1, t2);
      if !can || password != "" {
        return false;
      }
      password := pw;
      ok := true;
    }

    method UnlockPassword(pw: string, token: Token, t1: int, t2: int) returns (ok: bool)
      modifies this`password
      ensures (View(), ok) == Step(old(View()), PasswordUnlock(pw, token, t1, t2))
    {
      var can := HasAccess(token, t1, t2);
      if !can || (password != "" && password != pw) {
        return false;
      }
      password := "";
      ok := true;
    }

    method CanControlAcq(token: Token, t1: int, t2: int) returns (can: bool)
      ensures can <==> password == "" && Access(View(), token, t1, t2)
    {
      can := false;
      if password == "" {
        can := HasAccess(token, t1, t2);
      }
    }
  }

  // ---------- whole runs ----------

  /** The operations take place one after the other, from `now` on. */
  predicate InOrder(now: int, ops: seq<Op>)
    decreases |ops|
  {
    ops == [] || (ops[0].After(now) && InOrder(ops[0].End(), ops[1..]))
  }

  function Run(s: State, ops: seq<Op>): State
    decreases |ops|
  {
    if ops == [] then s else Run(Step(s, ops[0]).0, ops[1..])
  }

  /** The last moment of the run. */
  function EndOf(now: int, ops: seq<Op>): int
    decreases |ops|
  {
    if ops == [] then now else EndOf(ops[0].End(), ops[1..])
  }

  predicate NoneBy(ops: seq<Op>, token: Token) {
    forall k :: 0 <= k < |ops| ==> ops[k].token != token
  }

  lemma {:induction false} TimePasses(now: int, ops: seq<Op>)
    requires InOrder(now, ops)
    ensures now <= EndOf(now, ops)
    decreases |ops|
  {
    if ops != [] {
      TimePasses(ops[0].End(), ops[1..]);
    }
  }

  /** While a lease runs, others' operations change nothing at all: not the holder, not the expiry, not the password. */
  lemma {:induction false} LeaseIsExclusive(s: State, now: int, ops: seq<Op>)
    requires InOrder(now, ops) && NoneBy(ops, s.holder) && EndOf(now, ops) < s.validTo
    ensures Run(s, ops) == s
    ensures forall k :: 0 <= k < |ops| ==> ops[k].Refuse? || !Step(s, ops[k]).1
    decreases |ops|
  {
    if ops != [] {
      TimePasses(ops[0].End(), ops[1..]);
      assert ops[0].token != s.holder;
      LeaseIsExclusive(s, ops[0].End(), ops[1..]);
      forall k | 0 <= k < |ops|
        ensures ops[k].Refuse? || !Step(s, ops[k]).1
      {
        if k > 0 {
          assert ops[1..][k - 1] == ops[k];
        }
      }
    }
  }

  /** The lease that an operation grants: its holder and its end. */
  predicate Grants(s: State, op: Op) {
    op.Lock? && Step(s, op).1
  }

  /** Two grants to different tokens do not overlap: if the first holder does nothing in between, the second grant comes
      no earlier than the end of the first. */
  lemma GrantsDoNotOverlap(s: State, now: int, first: Op, between: seq<Op>, second: Op)
    requires InOrder(now, [first] + between + [second])
    requires Grants(s, first) && Grants(Run(Step(s, first).0, between), second)
    requires first.token != second.token && NoneBy(between, first.token)
    ensures first.t3 + first.seconds * SECOND <= second.t2
  {
    var all, rest := [first] + between + [second], between + [second];
    assert all[1..] == rest;
    var after := Step(s, first).0;
    if second.t2 < after.validTo {
      OrderSplits(first.t3, between, second);
      LeaseIsExclusive(after, first.t3, between);
    }
  }

  /** When a second lock is granted, after a first one that others left alone while it ran: to the first holder
      always, as a renewal or a new lease, and to anybody else exactly from the end of the first, so many seconds
      after its last reading; whoever is granted it has it for the seconds asked for. */
  lemma GrantedAgainIff(s: State, now: int, first: Op, between: seq<Op>, second: Op, t: int)
    requires InOrder(now, [first] + between + [second])
    requires Grants(s, first) && NoneBy(between, first.token) && second.Lock?
    requires EndOf(first.t3, between) < first.t3 + first.seconds * 1_000_000_000
    ensures var later := Run(Step(s, first).0, between);
            && (Grants(later, second) <==>
                second.token == first.token || second.t2 >= first.t3 + first.seconds * 1_000_000_000)
            && (Grants(later, second) ==>
                (Has(Step(later, second).0, second.token, t) <==> t < second.t3 + second.seconds * 1_000_000_000))
  {
    var all, rest := [first] + between + [second], between + [second];
    assert all[1..] == rest;
    OrderSplits(first.t3, between, second);
    LeaseIsExclusive(Step(s, first).0, first.t3, between);
  }

  /** A lease that its holder gives up is over at once: the next lock, whoever asks for it, is granted. */
  lemma RefusedIsFree(s: State, now: int, refuse: Op, next: Op)
    requires InOrder(now, [refuse, next])
    requires refuse.Refuse? && refuse.token == s.holder && next.Lock?
    ensures Grants(Step(s, refuse).0, next)
  {
    assert [refuse, next][1..] == [next] && [next][0] == next;
  }

  lemma {:induction false} OrderSplits(now: int, ops: seq<Op>, last: Op)
    requires InOrder(now, ops + [last])
    ensures InOrder(now, ops) && last.After(EndOf(now, ops))
    decreases |ops|
  {
    if ops == [] {
      assert (ops + [last])[1..] == [];
    } else {
      assert (ops + [last])[1..] == ops[1..] + [last];
      OrderSplits(ops[0].End(), ops[1..], last);
    }
  }

  /** Whoever ends or takes over a lease before its time is its holder. */
  lemma {:induction false} OnlyTheHolderEndsIt(s: State, now: int, ops: seq<Op>)
    requires InOrder(now, ops) && EndOf(now, ops) < s.validTo
    requires Run(s, ops) != s
    ensures exists k :: 0 <= k < |ops| && ops[k].token == s.holder
  {
    if NoneBy(ops, s.holder) {
      LeaseIsExclusive(s, now, ops);
      assert false;
    }
  }

  /** A session's close gives up the lease of the session's own id only: one taken under another token runs on. */
  lemma CloseEndsLeaseIff(s: State, session: Token, t1: int, t2: int, t3: int)
    requires t1 <= t2 <= t3 < s.validTo
    ensures Active(Step(s, Refuse(session, t1, t2, t3)).0, t3) <==> session != s.holder
  {
  }

  /** A lease taken under a token of its own goes on after its session has closed. */
  lemma LeaseOutlivesSession(session: Token, token: Token)
    requires session != token
    ensures var taken := Step(State("", NULL_ID, 0), Lock(token, 60, 1, 2, 3)).0;
            Has(Step(taken, Refuse(session, 4, 5, 6)).0, token, 6)
  {
  }

  // ---------- the password ----------

  /** The operation unlocks: it names the password and comes from a token with access. */
  predicate Unlocks(s: State, op: Op) {
    op.PasswordUnlock? && op.password == s.password && Access(s, op.token, op.t1, op.t2)
  }

  ghost predicate Unlocked(s: State, ops: seq<Op>)
    decreases |ops|
  {
    ops != [] && (Unlocks(s, ops[0]) || Unlocked(Step(s, ops[0]).0, ops[1..]))
  }

  lemma StepKeepsPassword(s: State, op: Op)
    requires s.password != ""
    ensures Step(s, op).0.password == if Unlocks(s, op) then "" else s.password
  {
  }

  /** A password stands until somebody with access unlocks with that very password. */
  lemma {:induction false} PasswordStands(s: State, ops: seq<Op>)
    requires s.password != "" && Run(s, ops).password != s.password
    ensures Unlocked(s, ops)
    decreases |ops|
  {
    if ops != [] && !Unlocks(s, ops[0]) {
      StepKeepsPassword(s, ops[0]);
      PasswordStands(Step(s, ops[0]).0, ops[1..]);
    }
  }

  /** A lock with an empty password is accepted and locks nothing. */
  lemma EmptyPasswordLocksNothing(token: Token)
    ensures Step(State("", NULL_ID, 0), PasswordLock("", token, 1, 2)) == (State("", NULL_ID, 0), true)
  {
  }

  /** Locking and unlocking with the same password, by a token that has access both times, restores the state; a lock
      that is accepted locks unless the password is empty. */
  lemma LockThenUnlock(s: State, pw: string, token: Token, t1: int, t2: int, t3: int, t4: int)
    requires Step(s, PasswordLock(pw, token, t1, t2)).1 && Access(s, token, t3, t4)
    ensures var locked := Step(s, PasswordLock(pw, token, t1, t2)).0;
            && (locked.password != "" <==> pw != "")
            && Step(locked, PasswordUnlock(pw, token, t3, t4)) == (s, true)
  {
  }

  /** While a lease runs and no password is set, its holder can set one and nobody else can; once one is set nobody
      can set another, and only the password set takes it off. */
  lemma PasswordUnderLease(s: State, pw: string, token: Token, other: string, who: Token, t1: int, t2: int, t3: int,
                           t4: int)
    requires s.password == "" && pw != "" && t1 <= t2 <= t3 <= t4 < s.validTo
    ensures var (locked, ok) := Step(s, PasswordLock(pw, token, t1, t2));
            && (ok <==> token == s.holder)
            && (ok ==> !Step(locked, PasswordLock(other, who, t3, t4)).1)
            && (ok ==> (Step(locked, PasswordUnlock(other, who, t3, t4)).1 <==> other == pw && who == token))
  {
  }

  /** Where no password is set, any word unlocks, and nothing changes. */
  lemma UnlockedStaysUnlocked(s: State, word: string, token: Token, t1: int, t2: int)
    requires s.password == "" && t1 <= t2
    ensures Step(s, PasswordUnlock(word, token, t1, t2)) == (s, token == s.holder || s.validTo <= t2)
  {
  }
}
