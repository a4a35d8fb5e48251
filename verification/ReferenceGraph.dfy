/** The server as the browser sees it, and the two first-insert-wins indices kept for a node. */
module ReferenceGraph {
  import opened NodeIds
  import opened Paths

  datatype Reference = Reference(
    target: NodeId,
    referenceType: NodeId,
    browseName: string,
    isForward: bool,
    typeDefinition: NodeId,
    nodeClass: nat)

  /** What the server answers for one node of a browse request. */
  datatype Answer =
    | Good(refs: seq<Reference>)
    | AccessDenied
    | NodeIdUnknown
    | OtherStatus(code: nat)

  /** A static, finite address space; a node outside it is unknown. */
  type Server = map<NodeId, Answer>

  function AnswerOf(server: Server, n: NodeId): Answer {
    if n in server then server[n] else NodeIdUnknown
  }

  function Links(server: Server, n: NodeId): seq<Reference> {
    match AnswerOf(server, n)
    case Good(refs) => refs
    case _ => []
  }

  /** The targets of the forward references among `refs`. */
  ghost function ForwardOf(refs: seq<Reference>): set<NodeId> {
    set r | r in refs && r.isForward :: r.target
  }

  lemma ForwardOfAppend(refs: seq<Reference>, ref: Reference)
    ensures ForwardOf(refs + [ref]) == ForwardOf(refs) + (if ref.isForward then {ref.target} else {})
  {
    forall t
      ensures t in ForwardOf(refs + [ref]) <==> t in ForwardOf(refs) || (ref.isForward && t == ref.target)
    {
      if r :| r in refs && r.isForward && r.target == t {
        assert r in refs + [ref];
      }
      assert (refs + [ref])[|refs|] == ref;
    }
  }

  ghost function Targets(server: Server, n: NodeId): set<NodeId> {
    ForwardOf(Links(server, n))
  }

  ghost function Forward(server: Server): Graph {
    n => Targets(server, n)
  }

  /** Every node some forward reference points to; finite because the server is. */
  ghost function AllTargets(server: Server): (all: set<NodeId>)
    ensures forall n :: Targets(server, n) <= all
  {
    var all := set n, t | n in server && t in Targets(server, n) :: t;
    assert forall n {:trigger Targets(server, n)} :: n !in server ==> Targets(server, n) == {};
    all
  }

  // ---------- first-insert-wins maps in insertion order ----------

  type Ordered<K> = seq<(K, Reference)>

  predicate HasKey<K(==)>(index: Ordered<K>, key: K) {
    exists i | 0 <= i < |index| :: index[i].0 == key
  }

  function Insert<K(==)>(index: Ordered<K>, key: K, ref: Reference): Ordered<K> {
    if HasKey(index, key) then index else index + [(key, ref)]
  }

  datatype CachedReferences = CachedReferences(
    byNodeId: Ordered<NodeId>,
    byBrowseName: Ordered<string>)

  const NO_REFERENCES := CachedReferences([], [])

  function Add(entry: CachedReferences, ref: Reference): CachedReferences {
    CachedReferences(Insert(entry.byNodeId, ref.target, ref), Insert(entry.byBrowseName, ref.browseName, ref))
  }

  function IndexOf(refs: seq<Reference>): CachedReferences {
    if refs == [] then NO_REFERENCES else Add(IndexOf(refs[..|refs| - 1]), refs[|refs| - 1])
  }

  /** The entry a browse of an uncached node leaves behind. */
  function Entry(server: Server, n: NodeId): CachedReferences {
    IndexOf(Links(server, n))
  }

  // ---------- what the indices mean ----------

  ghost predicate IsFirst<K(!new)>(refs: seq<Reference>, keyOf: Reference -> K, i: nat) {
    i < |refs| && forall j :: 0 <= j < i ==> keyOf(refs[j]) != keyOf(refs[i])
  }

  /** `index` lists exactly the first reference of every key, in the order of `refs`; `at` tells where. */
  ghost predicate FirstWinsAt<K(!new)>(index: Ordered<K>, refs: seq<Reference>, keyOf: Reference -> K, at: seq<nat>) {
    && |at| == |index|
    && (forall k :: 0 <= k < |at| ==> IsFirst(refs, keyOf, at[k]) && index[k] == (keyOf(refs[at[k]]), refs[at[k]]))
    && (forall k, l :: 0 <= k < l < |at| ==> at[k] < at[l])
    && (forall i: nat :: IsFirst(refs, keyOf, i) ==> i in at)
  }

  ghost predicate FirstWins<K(!new)>(index: Ordered<K>, refs: seq<Reference>, keyOf: Reference -> K) {
    exists at: seq<nat> :: FirstWinsAt(index, refs, keyOf, at)
  }

  lemma FirstOfPrefix<K(!new)>(refs: seq<Reference>, keyOf: Reference -> K, n: nat)
    requires |refs| == n + 1
    ensures forall i: nat :: IsFirst(refs[..n], keyOf, i) <==> i < n && IsFirst(refs, keyOf, i)
  {
    var before := refs[..n];
    forall i: nat
      ensures IsFirst(before, keyOf, i) <==> i < n && IsFirst(refs, keyOf, i)
    {
      if i < n {
        assert before[i] == refs[i];
        assert forall j :: 0 <= j < i ==> before[j] == refs[j];
      }
    }
  }

  lemma KeyTaken<K(!new)>(index: Ordered<K>, refs: seq<Reference>, keyOf: Reference -> K, at: seq<nat>, j: nat)
    requires FirstWinsAt(index, refs, keyOf, at) && j < |refs|
    ensures HasKey(index, keyOf(refs[j]))
  {
    FirstOccurrence(refs, keyOf, j);
    var f: nat :| f <= j && IsFirst(refs, keyOf, f) && keyOf(refs[f]) == keyOf(refs[j]);
    var k :| 0 <= k < |at| && at[k] == f;
    assert index[k].0 == keyOf(refs[f]);
  }

  lemma InsertTaken<K(!new)>(index: Ordered<K>, refs: seq<Reference>, keyOf: Reference -> K, at: seq<nat>, n: nat)
    requires |refs| == n + 1 && FirstWinsAt(index, refs[..n], keyOf, at)
    requires HasKey(index, keyOf(refs[n]))
    ensures FirstWinsAt(index, refs, keyOf, at)
  {
    FirstOfPrefix(refs, keyOf, n);
    var k :| 0 <= k < |index| && index[k].0 == keyOf(refs[n]);
    assert refs[..n][at[k]] == refs[at[k]];
    assert !IsFirst(refs, keyOf, n);
    assert forall i: nat :: IsFirst(refs, keyOf, i) ==> i < |refs|;
  }

  lemma InsertNew<K(!new)>(index: Ordered<K>, refs: seq<Reference>, keyOf: Reference -> K, at: seq<nat>, n: nat)
    requires |refs| == n + 1 && FirstWinsAt(index, refs[..n], keyOf, at)
    requires !HasKey(index, keyOf(refs[n]))
    ensures FirstWinsAt(index + [(keyOf(refs[n]), refs[n])], refs, keyOf, at + [n])
  {
    var before := refs[..n];
    FirstOfPrefix(refs, keyOf, n);
    forall j | 0 <= j < n
      ensures keyOf(refs[j]) != keyOf(refs[n])
    {
      KeyTaken(index, before, keyOf, at, j);
      assert before[j] == refs[j];
    }
    assert IsFirst(refs, keyOf, n);
    var at' := at + [n];
    forall i: nat | IsFirst(refs, keyOf, i)
      ensures i in at'
    {
      if i < n {
        assert IsFirst(before, keyOf, i);
        assert i in at;
      } else {
        assert at'[|at|] == n;
      }
    }
  }

  lemma InsertKeepsFirstWins<K(!new)>(index: Ordered<K>, refs: seq<Reference>, keyOf: Reference -> K)
    requires |refs| > 0
    requires FirstWins(index, refs[..|refs| - 1], keyOf)
    ensures FirstWins(Insert(index, keyOf(refs[|refs| - 1]), refs[|refs| - 1]), refs, keyOf)
  {
    var n := |refs| - 1;
    var at: seq<nat> :| FirstWinsAt(index, refs[..n], keyOf, at);
    if HasKey(index, keyOf(refs[n])) {
      InsertTaken(index, refs, keyOf, at, n);
    } else {
      InsertNew(index, refs, keyOf, at, n);
    }
  }

  lemma {:induction false} FirstOccurrence<K(!new)>(refs: seq<Reference>, keyOf: Reference -> K, j: nat)
    requires j < |refs|
    ensures exists f: nat :: f <= j && IsFirst(refs, keyOf, f) && keyOf(refs[f]) == keyOf(refs[j])
  {
    if i :| 0 <= i < j && keyOf(refs[i]) == keyOf(refs[j]) {
      FirstOccurrence(refs, keyOf, i);
    } else {
      assert IsFirst(refs, keyOf, j);
    }
  }

  ghost const KEY_TARGET: Reference -> NodeId := (r: Reference) => r.target
  ghost const KEY_NAME: Reference -> string := (r: Reference) => r.browseName

  /** Both indices list the first reference of each key and nothing else, in the server's order. */
  lemma {:induction false} IndexIsFirstWins(refs: seq<Reference>)
    ensures FirstWins(IndexOf(refs).byNodeId, refs, KEY_TARGET)
    ensures FirstWins(IndexOf(refs).byBrowseName, refs, KEY_NAME)
  {
    if refs == [] {
      assert FirstWinsAt(IndexOf(refs).byNodeId, refs, KEY_TARGET, []);
      assert FirstWinsAt(IndexOf(refs).byBrowseName, refs, KEY_NAME, []);
    } else {
      var before := refs[..|refs| - 1];
      IndexIsFirstWins(before);
      InsertKeepsFirstWins(IndexOf(before).byNodeId, refs, KEY_TARGET);
      InsertKeepsFirstWins(IndexOf(before).byBrowseName, refs, KEY_NAME);
    }
  }
}
