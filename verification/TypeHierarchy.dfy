/** The subtype relation as the cached entries show it, and the upward walk that tests it on the server. */
module TypeHierarchy {
  import opened NodeIds
  import opened Paths
  import opened ReferenceGraph
  import opened BrowserSpec

  /** The entry of `n` that a browse returns: the cached one, or the one it fetches. */
  ghost function EffectiveEntry(server: Server, cache: Cache, n: NodeId): CachedReferences {
    if n in cache then cache[n] else Entry(server, n)
  }

  /** The test of `isSubtypeOf`, read off the relation. */
  ghost predicate SubtypeOrSame(g: Graph, t: NodeId, base: NodeId) {
    t == base || (!t.IsNull() && Below(g, base, t))
  }

  /** `cache` keeps every entry of `before`; what it adds is the server's. */
  ghost predicate Extends(server: Server, before: Cache, cache: Cache) {
    && (forall n :: n in before ==> n in cache && cache[n] == before[n])
    && (forall n :: n in cache && n !in before ==> cache[n] == Entry(server, n))
  }

  // ---------- the upward walk ----------

  /** The object type's supertypes, as an inverse browse along HasSubtype lists them. */
  type Supertypes = map<NodeId, seq<NodeId>>

  const MAX_TYPE_HIERARCHY_DEPTH := 32

  function Parent(up: Supertypes, n: NodeId): NodeId {
    if n in up && up[n] != [] then up[n][0] else NULL_ID
  }

  /** The `k`-th step of the walk; null once the walk has ended. */
  function Ancestor(up: Supertypes, n: NodeId, k: nat): NodeId {
    if k == 0 then n
    else
      var a := Ancestor(up, n, k - 1);
      if a.IsNull() then a else Parent(up, a)
  }

  /** The walk goes from a type to the first of the supertypes listed for it, and ends at a type for which none are. */
  lemma AncestorStep(up: Supertypes, n: NodeId, k: nat)
    requires !Ancestor(up, n, k).IsNull()
    ensures var a := Ancestor(up, n, k);
            && (a in up && up[a] != [] ==> Ancestor(up, n, k + 1) == up[a][0])
            && (a !in up || up[a] == [] ==> Ancestor(up, n, k + 1).IsNull())
  {
    var _ := Ancestor(up, n, k + 1);
  }

  method IsSubtypeOfAny(up: Supertypes, typeId: NodeId, baseTypeIds: seq<NodeId>) returns (result: bool)
    ensures result <==> exists k: nat :: k < MAX_TYPE_HIERARCHY_DEPTH
                                       && !Ancestor(up, typeId, k).IsNull() && Ancestor(up, typeId, k) in baseTypeIds
  {
    var currentTypeId := typeId;
    var depth := 0;
    while depth < MAX_TYPE_HIERARCHY_DEPTH && !currentTypeId.IsNull()
      invariant 0 <= depth <= MAX_TYPE_HIERARCHY_DEPTH
      invariant currentTypeId == Ancestor(up, typeId, depth)
      invariant forall k: nat :: k < depth ==>
                  !Ancestor(up, typeId, k).IsNull() && Ancestor(up, typeId, k) !in baseTypeIds
    {
      if currentTypeId in baseTypeIds {
        return true;
      }
      currentTypeId := Parent(up, currentTypeId);
      depth := depth + 1;
    }
    if currentTypeId.IsNull() {
      forall k: nat | k >= depth
        ensures Ancestor(up, typeId, k).IsNull()
      {
        NullStaysNull(up, typeId, depth, k);
      }
    }
    result := false;
  }

  lemma {:induction false} NullStaysNull(up: Supertypes, n: NodeId, d: nat, k: nat)
    requires d <= k && Ancestor(up, n, d).IsNull()
    ensures Ancestor(up, n, k).IsNull()
  {
    if d < k {
      NullStaysNull(up, n, d, k - 1);
    }
  }

  /** The inverse browse is the inverse of the relation, and no type has two supertypes. */
  ghost predicate SingleInheritance(up: Supertypes, g: Graph) {
    && (forall a, b :: a in g(b) <==> a in up && b in up[a])
    && (forall a :: a in up ==> |up[a]| <= 1 && !a.IsNull())
    && (forall a, b :: a in up && b in up[a] ==> !b.IsNull())
  }

  lemma {:induction false} AncestorIsAbove(up: Supertypes, g: Graph, t: NodeId, k: nat)
    requires SingleInheritance(up, g) && k > 0 && !Ancestor(up, t, k).IsNull()
    ensures Below(g, Ancestor(up, t, k), t)
  {
    var a, b := Ancestor(up, t, k - 1), Ancestor(up, t, k);
    assert a in g(b);
    StepBelow(g, b, a);
    if k > 1 {
      AncestorIsAbove(up, g, t, k - 1);
      BelowTransitive(g, b, a, t);
    }
  }

  /** Walking a downward path backwards is walking up. */
  lemma {:induction false} PathIsAncestry(up: Supertypes, g: Graph, p: seq<NodeId>, k: nat)
    requires SingleInheritance(up, g) && IsPath(g, {}, p) && k < |p|
    requires !p[|p| - 1].IsNull()
    ensures Ancestor(up, p[|p| - 1], k) == p[|p| - 1 - k] && !p[|p| - 1 - k].IsNull()
  {
    if k > 0 {
      PathIsAncestry(up, g, p, k - 1);
      var j := |p| - 1 - k;
      assert p[j + 1] in g(p[j]);
      assert p[j] in up[p[j + 1]];
    }
  }

  lemma BelowIsAncestry(up: Supertypes, g: Graph, t: NodeId, base: NodeId)
    requires SingleInheritance(up, g) && !t.IsNull() && !base.IsNull()
    ensures SubtypeOrSame(g, t, base) <==> exists k: nat :: Ancestor(up, t, k) == base
  {
    if k: nat :| Ancestor(up, t, k) == base {
      if k > 0 {
        AncestorIsAbove(up, g, t, k);
      }
    }
    if Below(g, base, t) {
      var p :| IsPath(g, {}, p) && |p| > 1 && p[0] == base && p[|p| - 1] == t;
      PathIsAncestry(up, g, p, |p| - 1);
      assert Ancestor(up, t, |p| - 1) == base;
    }
    assert Ancestor(up, t, 0) == t;
  }

  ghost predicate FewAncestors(up: Supertypes, t: NodeId) {
    Ancestor(up, t, MAX_TYPE_HIERARCHY_DEPTH).IsNull()
  }

  /** What the walk answers, by the postcondition of IsSubtypeOfAny. */
  ghost predicate WalkFinds(up: Supertypes, t: NodeId, bases: seq<NodeId>) {
    exists k: nat :: k < MAX_TYPE_HIERARCHY_DEPTH && !Ancestor(up, t, k).IsNull() && Ancestor(up, t, k) in bases
  }

  ghost predicate SubtypeOfSome(g: Graph, t: NodeId, bases: seq<NodeId>) {
    exists b :: b in bases && SubtypeOrSame(g, t, b)
  }

  /** A base lies above `t`, but none of them within the depth limit. */
  ghost predicate OnlyBeyondLimit(up: Supertypes, t: NodeId, bases: seq<NodeId>) {
    && (forall k: nat :: k < MAX_TYPE_HIERARCHY_DEPTH ==> Ancestor(up, t, k) !in bases)
    && exists k: nat :: k >= MAX_TYPE_HIERARCHY_DEPTH && Ancestor(up, t, k) in bases
  }

  /** The walk and the cached test disagree exactly when a base lies above `t` only beyond the depth limit. */
  lemma WalkAgreesWithCache(up: Supertypes, g: Graph, t: NodeId, bases: seq<NodeId>)
    requires SingleInheritance(up, g) && !t.IsNull()
    requires forall b :: b in bases ==> !b.IsNull()
    ensures (WalkFinds(up, t, bases) <==> SubtypeOfSome(g, t, bases)) <==> !OnlyBeyondLimit(up, t, bases)
    ensures FewAncestors(up, t) ==> !OnlyBeyondLimit(up, t, bases)
  {
    forall b | b in bases
      ensures SubtypeOrSame(g, t, b) <==> exists k: nat :: Ancestor(up, t, k) == b
    {
      BelowIsAncestry(up, g, t, b);
    }
    assert SubtypeOfSome(g, t, bases) <==> exists k: nat :: Ancestor(up, t, k) in bases by {
      if k: nat :| Ancestor(up, t, k) in bases {
        assert SubtypeOrSame(g, t, Ancestor(up, t, k));
      }
    }
    if FewAncestors(up, t) {
      forall k: nat | k >= MAX_TYPE_HIERARCHY_DEPTH
        ensures Ancestor(up, t, k) !in bases
      {
        NullStaysNull(up, t, MAX_TYPE_HIERARCHY_DEPTH, k);
      }
    }
  }
}
