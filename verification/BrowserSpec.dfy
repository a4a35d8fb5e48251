/** What a crawl of the server may leave in the cache, and what that means for the cache as a whole. */
module BrowserSpec {
  import opened NodeIds
  import opened Paths
  import opened ReferenceGraph

  type Cache = map<NodeId, CachedReferences>

  datatype Outcome =
    | Done
    | ServiceFailure          // the browse call itself failed
    | BadStatus(node: NodeId) // the server answered for this node with a status the crawl does not tolerate

  ghost predicate Tolerated(server: Server, n: NodeId) {
    !AnswerOf(server, n).OtherStatus?
  }

  ghost function Elems(s: seq<NodeId>): set<NodeId> {
    set n | n in s
  }

  lemma ElemsAppend(s: seq<NodeId>, t: seq<NodeId>)
    ensures Elems(s + t) == Elems(s) + Elems(t)
  {
  }

  lemma PrefixGrows(s: seq<NodeId>, k: nat)
    requires k < |s|
    ensures Elems(s[..k + 1]) == Elems(s[..k]) + {s[k]}
  {
    assert s[..k + 1] == s[..k] + [s[k]];
    ElemsAppend(s[..k], [s[k]]);
  }

  /** The forward targets of `refs` outside `known`, in order and with repetitions: what one answer queues. */
  ghost function Missing(refs: seq<Reference>, known: set<NodeId>): seq<NodeId> {
    if refs == [] then []
    else
      var last := refs[|refs| - 1];
      Missing(refs[..|refs| - 1], known) + if last.isForward && last.target !in known then [last.target] else []
  }

  lemma {:induction false} MissingIsForward(refs: seq<Reference>, known: set<NodeId>)
    ensures Elems(Missing(refs, known)) == ForwardOf(refs) - known
  {
    if refs == [] {
    } else {
      var before, last := refs[..|refs| - 1], refs[|refs| - 1];
      assert refs == before + [last];
      MissingIsForward(before, known);
      ForwardOfAppend(before, last);
      ElemsAppend(Missing(before, known), if last.isForward && last.target !in known then [last.target] else []);
      assert Elems([last.target]) == {last.target};
    }
  }

  /** The entry of `n` once the nodes of `visited` have been browsed, starting from cache `before`. */
  ghost function Refreshed(server: Server, before: Cache, visited: set<NodeId>, n: NodeId): CachedReferences {
    if n in visited && AnswerOf(server, n).Good? then Entry(server, n)
    else if n in before then before[n]
    else NO_REFERENCES
  }

  /** The entry of `n` after a whole crawl: what was cached and not asked for again stays, all else is fetched. */
  ghost function Final(server: Server, before: Cache, nodes: set<NodeId>, n: NodeId): CachedReferences {
    if n in before && !(n in nodes && AnswerOf(server, n).Good?) then before[n] else Entry(server, n)
  }

  /** How far one level over `nodes` has come: `visited` are answered, `queued` is what it hands on. */
  ghost predicate Level(server: Server, before: Cache, nodes: set<NodeId>, visited: set<NodeId>, cache: Cache,
                        queued: set<NodeId>) {
    && before.Keys <= cache.Keys <= before.Keys + nodes
    && visited <= nodes * cache.Keys
    && (forall n :: n in visited ==> Tolerated(server, n) && Targets(server, n) <= cache.Keys + queued)
    && (forall n :: n in cache ==> cache[n] == Refreshed(server, before, visited, n))
    && (forall t :: t in queued ==> t !in before && exists a :: a in visited && t in Targets(server, a))
  }

  /** `cache` is what a crawl of `nodes` that returned normally makes of `before`. */
  ghost predicate Crawled(server: Server, before: Cache, nodes: set<NodeId>, cache: Cache) {
    && before.Keys + nodes <= cache.Keys
    && (forall n :: n in cache ==> n in before || Reaches(Forward(server), before.Keys, nodes, n))
    && (forall n :: n in cache && (n in nodes || n !in before) ==>
                      Tolerated(server, n) && Targets(server, n) <= cache.Keys)
    && (forall n :: n in cache ==> cache[n] == Final(server, before, nodes, n))
  }

  /** What holds of the cache however the crawl ended. */
  ghost predicate Bounded(server: Server, before: Cache, nodes: set<NodeId>, cache: Cache) {
    && before.Keys <= cache.Keys
    && (forall n :: n in cache ==> n in before || Reaches(Forward(server), before.Keys, nodes, n))
    && (forall n :: n in before ==> cache[n] == before[n] || (n in nodes && cache[n] == Entry(server, n)))
    && (forall n :: n in cache && n !in before ==> cache[n] == NO_REFERENCES || cache[n] == Entry(server, n))
  }

  // ---------- one answer of a level ----------

  /** An entry that is not Good leaves its node as it is. */
  lemma LevelSkips(server: Server, before: Cache, nodes: set<NodeId>, visited: set<NodeId>, cache: Cache,
                   queued: set<NodeId>, n: NodeId)
    requires Level(server, before, nodes, visited, cache, queued)
    requires n in cache && n in nodes
    requires AnswerOf(server, n).AccessDenied? || AnswerOf(server, n).NodeIdUnknown?
    ensures Level(server, before, nodes, visited + {n}, cache, queued)
  {
    forall m | m in cache
      ensures cache[m] == Refreshed(server, before, visited + {n}, m)
    {
      assert cache[m] == Refreshed(server, before, visited, m);
    }
  }

  lemma LevelFills(server: Server, before: Cache, nodes: set<NodeId>, visited: set<NodeId>, cache: Cache,
                   queued: set<NodeId>, n: NodeId)
    requires Level(server, before, nodes, visited, cache, queued)
    requires n in cache && n in nodes && AnswerOf(server, n).Good?
    ensures Level(server, before, nodes, visited + {n}, cache[n := Entry(server, n)],
            queued + (Targets(server, n) - cache.Keys))
  {
    var cache' := cache[n := Entry(server, n)];
    assert cache'.Keys == cache.Keys;
    forall m | m in cache'
      ensures cache'[m] == Refreshed(server, before, visited + {n}, m)
    {
      assert cache[m] == Refreshed(server, before, visited, m);
    }
  }

  lemma LevelMarks(server: Server, before: Cache, nodes: set<NodeId>, visited: set<NodeId>, cache: Cache,
                   queued: set<NodeId>, n: NodeId)
    requires Level(server, before, nodes, visited, cache, queued)
    requires n in nodes && n !in cache
    ensures Level(server, before, nodes, visited, cache[n := NO_REFERENCES], queued)
  {
    var cache' := cache[n := NO_REFERENCES];
    forall m | m in cache'
      ensures cache'[m] == Refreshed(server, before, visited, m)
    {
      if m in cache {
        assert cache[m] == Refreshed(server, before, visited, m);
      }
    }
  }

  // ---------- levels compose into crawls ----------

  lemma LevelIsBounded(server: Server, before: Cache, nodes: set<NodeId>, visited: set<NodeId>, cache: Cache,
                       queued: set<NodeId>)
    requires Level(server, before, nodes, visited, cache, queued)
    ensures Bounded(server, before, nodes, cache)
  {
    forall n | n in cache && n !in before
      ensures Reaches(Forward(server), before.Keys, nodes, n)
    {
      StartReaches(Forward(server), before.Keys, nodes, n);
    }
  }

  /** Nodes the next level reaches are nodes this level reaches. */
  lemma NextLevelReaches(server: Server, before: Cache, nodes: set<NodeId>, middle: Cache, queued: set<NodeId>,
                         n: NodeId)
    requires Level(server, before, nodes, nodes, middle, queued)
    requires Reaches(Forward(server), middle.Keys, queued, n)
    ensures Reaches(Forward(server), before.Keys, nodes, n)
  {
    PrependStep(Forward(server), before.Keys, middle.Keys, nodes, queued, n);
  }

  lemma LevelReaches(server: Server, before: Cache, nodes: set<NodeId>, cache: Cache)
    requires Level(server, before, nodes, nodes, cache, {})
    ensures forall n :: n in cache ==> n in before || Reaches(Forward(server), before.Keys, nodes, n)
  {
    LevelIsBounded(server, before, nodes, nodes, cache, {});
  }

  lemma LevelValues(server: Server, before: Cache, nodes: set<NodeId>, cache: Cache, queued: set<NodeId>)
    requires Level(server, before, nodes, nodes, cache, queued)
    ensures forall n :: n in cache ==> cache[n] == Final(server, before, nodes, n)
  {
    forall n | n in cache
      ensures cache[n] == Final(server, before, nodes, n)
    {
      assert cache[n] == Refreshed(server, before, nodes, n);
    }
  }

  lemma LevelCloses(server: Server, before: Cache, nodes: set<NodeId>, cache: Cache)
    requires Level(server, before, nodes, nodes, cache, {})
    ensures forall n :: n in cache && (n in nodes || n !in before) ==>
              Tolerated(server, n) && Targets(server, n) <= cache.Keys
  {
  }

  lemma LastLevelIsCrawl(server: Server, before: Cache, nodes: set<NodeId>, cache: Cache)
    requires Level(server, before, nodes, nodes, cache, {})
    ensures Crawled(server, before, nodes, cache)
  {
    LevelReaches(server, before, nodes, cache);
    LevelValues(server, before, nodes, cache, {});
    LevelCloses(server, before, nodes, cache);
  }

  lemma LevelThenReaches(server: Server, before: Cache, nodes: set<NodeId>, middle: Cache, queued: set<NodeId>,
                         cache: Cache)
    requires Level(server, before, nodes, nodes, middle, queued)
    requires forall n :: n in cache ==> n in middle || Reaches(Forward(server), middle.Keys, queued, n)
    ensures forall n :: n in cache ==> n in before || Reaches(Forward(server), before.Keys, nodes, n)
  {
    forall n | n in cache && n !in before
      ensures Reaches(Forward(server), before.Keys, nodes, n)
    {
      if n in middle {
        StartReaches(Forward(server), before.Keys, nodes, n);
      } else {
        NextLevelReaches(server, before, nodes, middle, queued, n);
      }
    }
  }

  lemma LevelThenKeeps(server: Server, before: Cache, nodes: set<NodeId>, middle: Cache, queued: set<NodeId>,
                       cache: Cache)
    requires Level(server, before, nodes, nodes, middle, queued)
    requires Bounded(server, middle, queued, cache)
    ensures forall n :: n in before ==> cache[n] == before[n] || (n in nodes && cache[n] == Entry(server, n))
    ensures forall n :: n in cache && n !in before ==> cache[n] == NO_REFERENCES || cache[n] == Entry(server, n)
  {
    forall n | n in before
      ensures cache[n] == before[n] || (n in nodes && cache[n] == Entry(server, n))
    {
      assert n in middle && n !in queued;
      assert middle[n] == Refreshed(server, before, nodes, n);
    }
    forall n | n in cache && n !in before
      ensures cache[n] == NO_REFERENCES || cache[n] == Entry(server, n)
    {
      if n in middle {
        assert middle[n] == Refreshed(server, before, nodes, n);
      }
    }
  }

  lemma LevelThenBounded(server: Server, before: Cache, nodes: set<NodeId>, middle: Cache, queued: set<NodeId>,
                         cache: Cache)
    requires Level(server, before, nodes, nodes, middle, queued)
    requires Bounded(server, middle, queued, cache)
    ensures Bounded(server, before, nodes, cache)
  {
    LevelThenReaches(server, before, nodes, middle, queued, cache);
    LevelThenKeeps(server, before, nodes, middle, queued, cache);
  }

  lemma LevelThenValues(server: Server, before: Cache, nodes: set<NodeId>, middle: Cache, queued: set<NodeId>,
                        cache: Cache)
    requires Level(server, before, nodes, nodes, middle, queued)
    requires Crawled(server, middle, queued, cache)
    ensures forall n :: n in cache ==> cache[n] == Final(server, before, nodes, n)
  {
    LevelValues(server, before, nodes, middle, queued);
    forall n | n in cache
      ensures cache[n] == Final(server, before, nodes, n)
    {
      assert cache[n] == Final(server, middle, queued, n);
    }
  }

  lemma LevelThenCloses(server: Server, before: Cache, nodes: set<NodeId>, middle: Cache, queued: set<NodeId>,
                        cache: Cache)
    requires Level(server, before, nodes, nodes, middle, queued)
    requires Crawled(server, middle, queued, cache)
    ensures forall n :: n in cache && (n in nodes || n !in before) ==>
              Tolerated(server, n) && Targets(server, n) <= cache.Keys
  {
    forall n | n in cache && (n in nodes || n !in before)
      ensures Tolerated(server, n) && Targets(server, n) <= cache.Keys
    {
      if n in nodes {
        assert Targets(server, n) <= middle.Keys + queued;
      }
    }
  }

  lemma LevelThenCrawl(server: Server, before: Cache, nodes: set<NodeId>, middle: Cache, queued: set<NodeId>,
                       cache: Cache)
    requires Level(server, before, nodes, nodes, middle, queued)
    requires Crawled(server, middle, queued, cache)
    ensures Crawled(server, before, nodes, cache)
  {
    LevelThenReaches(server, before, nodes, middle, queued, cache);
    LevelThenValues(server, before, nodes, middle, queued, cache);
    LevelThenCloses(server, before, nodes, middle, queued, cache);
  }

  // ---------- what a finished crawl means ----------

  /** The cached keys are exactly the old ones and the nodes reached without entering an old one. */
  lemma CrawlKeys(server: Server, before: Cache, nodes: set<NodeId>, cache: Cache, n: NodeId)
    requires Crawled(server, before, nodes, cache)
    ensures n in cache <==> n in before || Reaches(Forward(server), before.Keys, nodes, n)
  {
    if Reaches(Forward(server), before.Keys, nodes, n) {
      ReachesStaysInside(Forward(server), before.Keys, nodes, n, cache.Keys);
    }
  }

  /** A crawl has one possible result, so neither the batch size nor the order of a request can matter. */
  lemma CrawlUnique(server: Server, before: Cache, nodes: set<NodeId>, one: Cache, other: Cache)
    requires Crawled(server, before, nodes, one) && Crawled(server, before, nodes, other)
    ensures one == other
  {
    forall n
      ensures n in one <==> n in other
    {
      CrawlKeys(server, before, nodes, one, n);
      CrawlKeys(server, before, nodes, other, n);
    }
    forall n | n in one
      ensures one[n] == other[n]
    {
      assert one[n] == Final(server, before, nodes, n);
    }
  }

  /** The entry of a node after a crawl, by what the server answers: a good answer fills a node that was asked for or is
      new; a new node that may not be read or is unknown gets an empty entry; what was cached stays otherwise; and no
      node that was asked for or is new has any other status. */
  lemma EntryAfterCrawl(server: Server, before: Cache, nodes: set<NodeId>, cache: Cache, n: NodeId)
    requires Crawled(server, before, nodes, cache) && (n in nodes || n in cache)
    ensures n in cache
    ensures n in before && n !in nodes ==> cache[n] == before[n]
    ensures n in nodes || n !in before ==>
              match AnswerOf(server, n)
              case Good(refs) => cache[n] == IndexOf(refs)
              case AccessDenied => cache[n] == (if n in before then before[n] else NO_REFERENCES)
              case NodeIdUnknown => cache[n] == (if n in before then before[n] else NO_REFERENCES)
              case OtherStatus(_) => false
  {
    hide Reaches, IndexOf, Targets;
    assert cache[n] == Final(server, before, nodes, n);
    NothingIndexed();
  }

  lemma NothingIndexed()
    ensures IndexOf([]) == NO_REFERENCES
  {
  }

  /** Every entry is the server's, and no cached node refers forward to an uncached one. */
  ghost predicate Coherent(server: Server, cache: Cache) {
    forall n :: n in cache ==> cache[n] == Entry(server, n) && Targets(server, n) <= cache.Keys
  }

  lemma CrawlKeepsEntries(server: Server, before: Cache, nodes: set<NodeId>, cache: Cache)
    requires Coherent(server, before) && Crawled(server, before, nodes, cache)
    ensures Coherent(server, cache)
  {
    forall n | n in cache
      ensures cache[n] == Entry(server, n) && Targets(server, n) <= cache.Keys
    {
      assert cache[n] == Final(server, before, nodes, n);
      if n in before {
        assert before[n] == Entry(server, n) && Targets(server, n) <= before.Keys;
      }
    }
  }

  lemma ReachesIgnoring(g: Graph, avoid: set<NodeId>, from: set<NodeId>, n: NodeId)
    requires Reaches(g, avoid, from, n)
    ensures Reaches(g, {}, from, n)
  {
    var p :| IsPath(g, avoid, p) && p[0] in from && p[|p| - 1] == n;
    assert IsPath(g, {}, p);
  }

  /** From a coherent cache a crawl adds precisely what is forward-reachable, and stays coherent. */
  lemma CrawlKeepsCoherent(server: Server, before: Cache, nodes: set<NodeId>, cache: Cache)
    requires Coherent(server, before) && Crawled(server, before, nodes, cache)
    ensures Coherent(server, cache)
    ensures forall n :: n in cache <==> n in before || Reaches(Forward(server), {}, nodes, n)
  {
    CrawlKeepsEntries(server, before, nodes, cache);
    forall n
      ensures n in cache <==> n in before || Reaches(Forward(server), {}, nodes, n)
    {
      if Reaches(Forward(server), {}, nodes, n) {
        CoherentIsClosed(server, cache, nodes, n);
      } else if n in cache && n !in before {
        ReachesIgnoring(Forward(server), before.Keys, nodes, n);
      }
    }
  }

  lemma CoherentIsClosed(server: Server, cache: Cache, nodes: set<NodeId>, n: NodeId)
    requires Coherent(server, cache) && nodes <= cache.Keys
    requires Reaches(Forward(server), {}, nodes, n)
    ensures n in cache
  {
    ReachesStaysInside(Forward(server), {}, nodes, n, cache.Keys);
  }

  lemma NothingNewIsCached(server: Server, before: Cache, node: NodeId, holed: Cache, cache: Cache, n: NodeId)
    requires Coherent(server, before) && node in before && holed.Keys <= before.Keys
    requires Crawled(server, holed, {node}, cache) && n in cache
    ensures n in before
  {
    hide Reaches;
    if n !in holed {
      ReachesIgnoring(Forward(server), holed.Keys, {node}, n);
      CoherentIsClosed(server, before, {node}, n);
    }
  }

  /** Browsing an invalidated node puts back all that was dropped, whether its children were dropped or not. */
  lemma InvalidateThenBrowseRestores(server: Server, before: Cache, node: NodeId, dropped: set<NodeId>, cache: Cache)
    requires Coherent(server, before) && node in before
    requires node in dropped && dropped <= {node} + Targets(server, node)
    requires Crawled(server, before - dropped, {node}, cache)
    ensures cache == before
  {
    hide Reaches, Targets, Entry, Forward;
    var holed := before - dropped;
    assert Targets(server, node) <= cache.Keys;
    forall n | n in cache
      ensures n in before
    {
      NothingNewIsCached(server, before, node, holed, cache, n);
    }
    forall n | n in cache
      ensures cache[n] == before[n]
    {
      assert cache[n] == Final(server, holed, {node}, n);
      assert before[n] == Entry(server, n);
    }
  }
}
