/** The state of the page manager as one value, the invariant of that state, and what each kind of step does to it. */
module PageState {
  import opened PageLists
  import opened PagePools
  import opened PageTrie
  import opened PrefixView
  import opened PageHistory
  import opened PageRuns
  import opened Wrappers

  /** Which trie node a page is mapped to, and which pages the nodes hold. */
  ghost predicate MapInv(t: Trie, pageToTrieNode: map<int, nat>, maxPages: nat) {
    && (forall p :: p in pageToTrieNode ==>
          && 0 <= p < maxPages && pageToTrieNode[p] in t.nodes && pageToTrieNode[p] != t.root
          && t.nodes[pageToTrieNode[p]].pageId == p)
    && (forall n :: n in t.nodes && n != t.root ==> 0 <= t.nodes[n].pageId < maxPages)
  }

  /** The node's page is mapped to that node and to no other, carries the node's timestamp, and was last recorded for
      the node's path. */
  ghost predicate NodeExact(t: Trie, pageToTrieNode: map<int, nat>, stamps: seq<int>, log: seq<Event>, hash: PageHash,
      n: nat)
    requires n in t.nodes && n in t.path
  {
    var p := t.nodes[n].pageId;
    && p in pageToTrieNode && pageToTrieNode[p] == n
    && 0 <= p < |stamps| && stamps[p] == t.nodes[n].timestamp
    && LastRecorded(log, p).Some? && Edges(hash, LastRecorded(log, p).value) == t.path[n]
  }

  ghost predicate AllExact(t: Trie, pageToTrieNode: map<int, nat>, stamps: seq<int>, log: seq<Event>, hash: PageHash)
  {
    && t.nodes.Keys <= t.path.Keys
    && forall n {:trigger NodeExact(t, pageToTrieNode, stamps, log, hash, n)} ::
         n in t.nodes && n != t.root ==> NodeExact(t, pageToTrieNode, stamps, log, hash, n)
  }

  datatype State = State(
    hash: PageHash,
    maxPages: nat,
    freePages: seq<int>, freeSet: set<int>,
    triePages: seq<int>, trieSet: set<int>,
    stamps: seq<int>,
    refCount: seq<int>,
    trie: Trie, next: nat,
    mapping: map<int, nat>,
    log: seq<Event>
  )

  /** Holds between any two calls, whatever the callers record. */
  ghost predicate ValidState(s: State) {
    && |s.stamps| == s.maxPages
    && TreeInv(s.trie) && (forall n :: n in s.trie.nodes ==> n < s.next)
    && MapInv(s.trie, s.mapping, s.maxPages)
    && PoolInv(s.maxPages, s.refCount, s.freePages, s.freeSet, s.triePages, s.trieSet, s.mapping.Keys)
  }

  /** Holds as well, as long as all recordings obey their contract. */
  ghost predicate ExactState(s: State) {
    AllExact(s.trie, s.mapping, s.stamps, s.log, s.hash)
  }

  /** The accounts between any two calls: every page is free, idle but cached, or in use, and only one of these; the
      cached ones are those with a trie node, so no entry of the trie pool is ever stale. */
  lemma Accounts(s: State)
    requires ValidState(s)
    ensures |s.freePages| + |s.triePages| + |InUse(s.refCount)| == s.maxPages
    ensures s.freeSet !! s.trieSet !! InUse(s.refCount)
    ensures forall p :: 0 <= p < s.maxPages ==>
              && (p in s.freePages <==> s.refCount[p] == 0 && p !in s.mapping)
              && (p in s.triePages <==> s.refCount[p] == 0 && p in s.mapping)
  {
    Partition(s.maxPages, s.refCount, s.freePages, s.freeSet, s.triePages, s.trieSet, s.mapping.Keys);
  }

  /** One page of a list is released, after the ones before it; start holds the counts before the first one. */
  lemma EmptiedIn(s: State, start: seq<int>, pages: seq<int>, i: nat)
    requires ValidState(s) && |start| == s.maxPages && forall p :: 0 <= p < |start| ==> start[p] >= 0
    requires i < |pages| && forall j :: 0 <= j < |pages| ==> 0 <= pages[j] < |start|
    requires s.refCount == ReleasedAll(start, pages[..i])
    ensures |s.refCount| == s.maxPages
    ensures var p := pages[i];
      && Emptied(start, pages[..i + 1], s.mapping.Keys, false) == Emptied(start, pages[..i], s.mapping.Keys, false)
          + (if Released(s.refCount[p]) == 0 && p !in s.mapping && p !in s.freeSet then [p] else [])
      && Emptied(start, pages[..i + 1], s.mapping.Keys, true) == Emptied(start, pages[..i], s.mapping.Keys, true)
          + (if Released(s.refCount[p]) == 0 && p in s.mapping && p !in s.trieSet then [p] else [])
  {
    hide Emptied, ReleasedAll;
    EmptiedStep(s.maxPages, start, pages, i, s.refCount, s.freePages, s.freeSet, s.triePages, s.trieSet,
                s.mapping.Keys);
  }

  /** What the callers can see of the trie: the page cached under each prefix. */
  ghost function ViewIn(s: State): View
    requires ValidState(s)
  {
    ViewOf(s.trie)
  }

  /** The prefix at which each cached page has its node. */
  ghost function PlacesIn(s: State): Places
    requires ValidState(s)
  {
    map p | p in s.mapping :: s.trie.path[s.mapping[p]]
  }

  lemma EmptyState(s: State)
    requires s.trie == EMPTY_TRIE && s.next == 1 && s.mapping == map[] && |s.stamps| == s.maxPages
    requires s.refCount == Zeros(s.maxPages) && s.freePages == AllPages(s.maxPages)
    requires s.triePages == [] && s.trieSet == {} && forall p :: p in s.freeSet <==> 0 <= p < s.maxPages
    ensures ValidState(s) && ExactState(s) && ViewIn(s) == map[] && PlacesIn(s) == map[]
  {
    EmptyTrieInv();
    EmptyPools(s.maxPages, s.freeSet, s.refCount, s.mapping.Keys);
  }

  /** Pruning a node keeps the two maps in step when the pages of the pruned nodes leave the reverse map. */
  lemma PruneMap(t: Trie, pageToTrieNode: map<int, nat>, maxPages: nat, n: nat)
    requires TreeInv(t) && n in t.nodes && n != t.root && MapInv(t, pageToTrieNode, maxPages)
    ensures TreeInv(Prune(t, n))
    ensures MapInv(Prune(t, n), pageToTrieNode - PagesOf(t, Subtree(t, n)), maxPages)
  {
    PruneInv(t, n);
    var u := Prune(t, n);
    var sub := Subtree(t, n);
    var gone := PagesOf(t, sub);
    var rest := pageToTrieNode - gone;
    forall p | p in rest ensures rest[p] in u.nodes && u.nodes[rest[p]].pageId == p {
      var m := rest[p];
      assert m in sub ==> p in gone;
    }
  }

  /** Pruning forgets a page and what lies below it; all other nodes stay exact. */
  lemma PruneExact(t: Trie, pageToTrieNode: map<int, nat>, stamps: seq<int>, log: seq<Event>, hash: PageHash, n: nat)
    requires TreeInv(t) && n in t.nodes && n != t.root && t.nodes[n].pageId >= 0
    requires AllExact(t, pageToTrieNode, stamps, log, hash)
    ensures TreeInv(Prune(t, n))
    ensures AllExact(Prune(t, n), pageToTrieNode - PagesOf(t, Subtree(t, n)), stamps,
        log + [HandedOut(t.nodes[n].pageId)], hash)
  {
    PruneInv(t, n);
    var u := Prune(t, n);
    var gone := PagesOf(t, Subtree(t, n));
    var rest := pageToTrieNode - gone;
    var log' := log + [HandedOut(t.nodes[n].pageId)];
    assert log'[..|log|] == log;
    assert t.path[n] <= t.path[n];
    forall k | k in Subtree(t, n) ensures t.nodes[k].pageId in pageToTrieNode
        && pageToTrieNode[t.nodes[k].pageId] == k {
      assert NodeExact(t, pageToTrieNode, stamps, log, hash, k);
    }
    forall m | m in u.nodes && m != u.root ensures NodeExact(u, rest, stamps, log', hash, m) {
      assert NodeExact(t, pageToTrieNode, stamps, log, hash, m);
      var p := t.nodes[m].pageId;
      assert u.nodes[m].pageId == p && u.nodes[m].timestamp == t.nodes[m].timestamp;
      assert p !in gone && p != t.nodes[n].pageId;
    }
  }

  /** The nodes in ids are deleted, and those of their pages that were idle moved to the free pool. The vector of the
      trie pool, which this does not mention, still lists them. */
  ghost predicate Eviction(t: Trie, ids: set<nat>, nodes: map<nat, CacheTrieNode>, mapping: map<int, nat>,
      trieSet: set<int>, freeSet: set<int>, nodes': map<nat, CacheTrieNode>, mapping': map<int, nat>,
          trieSet': set<int>, freeSet': set<int>)
  {
    var gone := PagesOf(t, ids);
    && nodes' == nodes - ids
    && mapping' == mapping - gone
    && trieSet' == trieSet - gone
    && freeSet' == freeSet + trieSet * gone
  }

  lemma EvictionSteps(t: Trie, a: set<nat>, b: set<nat>, nodes: map<nat, CacheTrieNode>, mapping: map<int, nat>,
      trieSet: set<int>, freeSet: set<int>, nodes': map<nat, CacheTrieNode>, mapping': map<int, nat>,
          trieSet': set<int>, freeSet': set<int>, nodes'': map<nat, CacheTrieNode>, mapping'': map<int, nat>,
              trieSet'': set<int>, freeSet'': set<int>)
    requires Eviction(t, a, nodes, mapping, trieSet, freeSet, nodes', mapping', trieSet', freeSet')
    requires Eviction(t, b, nodes', mapping', trieSet', freeSet', nodes'', mapping'', trieSet'', freeSet'')
    ensures Eviction(t, a + b, nodes, mapping, trieSet, freeSet, nodes'', mapping'', trieSet'', freeSet'')
  {
    assert PagesOf(t, a + b) == PagesOf(t, a) + PagesOf(t, b);
  }

  /** Recording page p at node c: the trie u differs from t only in that node, or in having it. */
  ghost predicate Rewritten(t: Trie, u: Trie, c: nat, p: int, ts: int) {
    && TreeInv(t) && TreeInv(u) && u.root == t.root && c in u.nodes && c != u.root
    && u.nodes[c].pageId == p && u.nodes[c].timestamp == ts
    && u.nodes.Keys == t.nodes.Keys + {c}
    && (forall m :: m in t.nodes ==> u.path[m] == t.path[m])
    && (forall m :: m in t.nodes && m != c ==>
        u.nodes[m].pageId == t.nodes[m].pageId && u.nodes[m].timestamp == t.nodes[m].timestamp)
  }

  /** The reverse map after page p was recorded at node c, whose former page loses its place. */
  ghost function Remapped(t: Trie, pageToTrieNode: map<int, nat>, c: nat, p: int): map<int, nat> {
    (if c in t.nodes && t.nodes[c].pageId != p then pageToTrieNode - {t.nodes[c].pageId} else pageToTrieNode)[p := c]
  }

  lemma RewriteMap(t: Trie, u: Trie, pageToTrieNode: map<int, nat>, maxPages: nat, c: nat, p: int, ts: int)
    requires Rewritten(t, u, c, p, ts) && MapInv(t, pageToTrieNode, maxPages) && 0 <= p < maxPages
    ensures MapInv(u, Remapped(t, pageToTrieNode, c, p), maxPages)
  {
  }

  lemma RewriteExact(t: Trie, u: Trie, pageToTrieNode: map<int, nat>, stamps: seq<int>, log: seq<Event>, hash: PageHash,
                     c: nat, p: int, ts: int, keys: seq<PageKey>)
    requires Rewritten(t, u, c, p, ts) && 0 <= p < |stamps| && Edges(hash, keys) == u.path[c]
    requires AllExact(t, pageToTrieNode, stamps, log, hash)
    requires p in pageToTrieNode && pageToTrieNode[p] in t.nodes ==> u.path[pageToTrieNode[p]] == u.path[c]
    ensures AllExact(u, Remapped(t, pageToTrieNode, c, p), stamps[p := ts], log + [Recorded(p, keys)], hash)
  {
    var map' := Remapped(t, pageToTrieNode, c, p);
    var log' := log + [Recorded(p, keys)];
    assert log'[..|log|] == log;
    forall m | m in u.nodes && m != u.root ensures NodeExact(u, map', stamps[p := ts], log', hash, m) {
      if m != c {
        assert NodeExact(t, pageToTrieNode, stamps, log, hash, m);
        var r := t.nodes[m].pageId;
        assert u.path[m] != u.path[c];
        assert r != p;
        if c in t.nodes {
          assert NodeExact(t, pageToTrieNode, stamps, log, hash, c);
        }
      }
    }
  }

  /** Page page leaves the trie pool, and its node leaves the trie with everything below it: what becomes of the node
      heap, the reverse map and the two pools. */
  ghost predicate Detached(s: State, page: int, nodes: map<nat, CacheTrieNode>, mapping: map<int, nat>,
                           triePages: seq<int>, trieSet: set<int>, freePages: seq<int>, freeSet: set<int>)
    requires ValidState(s)
  {
    && page in s.trieSet && page in s.mapping
    && var n := s.mapping[page]; var gone := PagesOf(s.trie, Subtree(s.trie, n));
    && nodes == Prune(s.trie, n).nodes && mapping == s.mapping - gone
    && trieSet == s.trieSet - gone && Lists(triePages, trieSet)
    && freeSet == s.freeSet + (s.trieSet - {page}) * gone && Lists(freePages, freeSet)
  }

  /** Position i of the trie pool holds a page whose node has no children. */
  ghost predicate LeafAt(s: State, i: int) {
    && 0 <= i < |s.triePages| && s.triePages[i] in s.mapping && s.mapping[s.triePages[i]] in s.trie.nodes
    && s.trie.nodes[s.mapping[s.triePages[i]]].children == map[]
  }

  /** The last such position, or -1 when there is none. */
  ghost predicate IsLastLeaf(s: State, i: int) {
    && (i == -1 || LeafAt(s, i))
    && forall j {:trigger LeafAt(s, j)} :: i < j ==> !LeafAt(s, j)
  }

  /** Which cached page is handed out: the last leaf of the trie pool, and then nothing else is evicted; without a leaf,
      the last page, and the vector loses the pages that were evicted below it. */
  ghost predicate EvictionChoice(s: State, page: int, triePages: seq<int>, trieSet: set<int>, freePages: seq<int>) {
    && (forall i :: 0 <= i && IsLastLeaf(s, i) ==>
          page == s.triePages[i] && triePages == SwapRemove(s.triePages, i) && freePages == s.freePages)
    && (IsLastLeaf(s, -1) && s.triePages != [] ==>
          page == s.triePages[|s.triePages| - 1] && triePages == Keep(s.triePages[..|s.triePages| - 1], trieSet))
  }

  /** The page's node is the only one at or below it that holds the page. */
  ghost predicate OnlyHere(s: State, page: int)
    requires ValidState(s)
  {
    page in s.mapping && var n := s.mapping[page]; page !in PagesOf(s.trie, Subtree(s.trie, n) - {n})
  }

  /** The program keeps an iterator to the map entry of the page it takes while it evicts everything below the page's
      node, and erases the entry through it. When a node below holds the same page, the entry is gone by then and the
      program's behaviour is undefined. This can only happen when no free page and no leaf is left. */
  ghost predicate EvictionDefined(s: State)
    requires ValidState(s)
  {
    s.freePages == [] && s.triePages != [] && IsLastLeaf(s, -1) ==> OnlyHere(s, s.triePages[|s.triePages| - 1])
  }

  /** The entry outlives the eviction of everything below its node if and only if no node below holds the page. */
  lemma IteratorKept(s: State, page: int, nodes: map<nat, CacheTrieNode>, mapping: map<int, nat>, trieSet: set<int>,
      freeSet: set<int>)
    requires ValidState(s) && page in s.mapping && s.mapping[page] in s.trie.nodes
    requires Eviction(s.trie, Subtree(s.trie, s.mapping[page]) - {s.mapping[page]},
                      s.trie.nodes, s.mapping, s.trieSet - {page}, s.freeSet, nodes, mapping, trieSet, freeSet)
    ensures page in mapping <==> OnlyHere(s, page)
  {
  }

  /** As long as all recordings obey their contract, eviction is defined. */
  lemma ExactDefined(s: State)
    requires ValidState(s) && ExactState(s)
    ensures EvictionDefined(s)
    ensures forall page :: page in s.mapping ==> OnlyHere(s, page)
  {
    forall page | page in s.mapping ensures OnlyHere(s, page) {
      var n := s.mapping[page];
      assert n in s.trie.nodes;
      RootPath(s.trie, n);
      forall m | m in Subtree(s.trie, n) - {n} && m in s.trie.nodes ensures s.trie.nodes[m].pageId != page {
        RootPath(s.trie, m);
        assert NodeExact(s.trie, s.mapping, s.stamps, s.log, s.hash, m);
      }
    }
    if s.triePages != [] {
      var page := s.triePages[|s.triePages| - 1];
      assert page in s.trieSet;
    }
  }

  /** A page recorded twice along one path, and then once more at the first of the two prefixes: the eviction is not
      defined. */
  lemma OverlapUndefined(s: State, p: Path, q: Path)
    requires ValidState(s) && s.maxPages == 1 && s.refCount == [0] && p != [] && |q| == |p| + 1 && q[..|p|] == p
    requires ViewIn(s) == map[p := 0, q := 0] && PlacesIn(s) == map[0 := p]
    ensures s.freePages == [] && s.triePages == [0] && !EvictionDefined(s) && !ExactState(s)
  {
    Accounts(s);
    assert 0 in PlacesIn(s) && 0 in s.triePages && 0 !in s.freePages;
    assert forall x :: x in s.freeSet ==> x == 0;
    assert s.freeSet == {};
    ListsSize(s.freePages, s.freeSet);
    OnlyZero(s.triePages, s.trieSet);
    assert q in ViewIn(s) && p in ViewIn(s);
    var n, m := s.mapping[0], s.trie.at[q];
    assert s.trie.path[n] == p && s.trie.path[m] == q && s.trie.nodes[m].pageId == 0;
    assert p <= q && m in Subtree(s.trie, n) && m != n;
    assert 0 in PagesOf(s.trie, Subtree(s.trie, n) - {n});
    NodeAt(s.trie, q);
    assert s.trie.nodes[n].children != map[];
    assert IsLastLeaf(s, -1);
    if ExactState(s) {
      ExactDefined(s);
    }
  }

  lemma OnlyZero(v: seq<int>, pages: set<int>)
    requires Lists(v, pages) && 0 in v && forall p :: p in pages ==> p == 0
    ensures v == [0]
  {
    var i :| 0 <= i < |v| && v[i] == 0;
    assert v[i] in pages;
    assert forall p :: p in pages <==> p == 0;
    assert pages == {0};
    ListsSize(v, pages);
  }

  lemma ChoiceMade(s: State, i: int, page: int, triePages: seq<int>, trieSet: set<int>, freePages: seq<int>)
    requires IsLastLeaf(s, i)
    requires i >= 0 ==> page == s.triePages[i] && triePages == SwapRemove(s.triePages, i) && freePages == s.freePages
    requires i < 0 && s.triePages != [] ==>
               page == s.triePages[|s.triePages| - 1] && triePages == Keep(s.triePages[..|s.triePages| - 1], trieSet)
    ensures EvictionChoice(s, page, triePages, trieSet, freePages)
  {
    assert forall j :: IsLastLeaf(s, j) ==> j == i;
  }

  /** What is known about a page of the trie pool. */
  lemma CachedPage(s: State, page: int)
    requires ValidState(s) && page in s.trieSet
    ensures 0 <= page < s.maxPages == |s.refCount| && s.refCount[page] == 0
    ensures page in s.mapping && s.mapping[page] in s.trie.nodes && s.mapping[page] != s.trie.root
    ensures s.trie.nodes[s.mapping[page]].pageId == page && s.mapping[page] in s.trie.path
    ensures page in PagesOf(s.trie, Subtree(s.trie, s.mapping[page]))
    ensures s.freeSet !! s.trieSet && Lists(s.freePages, s.freeSet) && Lists(s.triePages, s.trieSet)
  {
    var n := s.mapping[page];
    assert s.trie.path[n] <= s.trie.path[n];
    assert n in Subtree(s.trie, n);
    PoolsApart(s.maxPages, s.refCount, s.freePages, s.freeSet, s.triePages, s.trieSet, s.mapping.Keys);
  }

  lemma DetachLeaf(s: State, i: nat)
    requires ValidState(s) && LeafAt(s, i)
    ensures var page := s.triePages[i];
      && page in s.trieSet && s.mapping[page] in s.trie.nodes
      && s.trie.nodes[s.mapping[page]].parent >= 0 && s.trie.nodes[s.mapping[page]].parent in s.trie.nodes
      && Detached(s, page, Unlink(s.trie.nodes, s.mapping[page]), s.mapping - {page},
                  SwapRemove(s.triePages, i), s.trieSet - {page}, s.freePages, s.freeSet)
  {
    var page := s.triePages[i];
    assert page in s.trieSet;
    var n := s.mapping[page];
    CachedPage(s, page);
    LeafSubtree(s.trie, n);
    assert PagesOf(s.trie, {n}) == {page};
    SwapRemoveLists(s.triePages, s.trieSet, i);
    UnlinkPrunes(s.trie, n);
    assert Subtree(s.trie, n) - {n} == {} && s.trie.nodes - {} == s.trie.nodes;
    assert s.freeSet + (s.trieSet - {page}) * {page} == s.freeSet;
  }

  lemma DetachLast(s: State, page: int, nodes: map<nat, CacheTrieNode>, mapping: map<int, nat>,
                   trieSet: set<int>, freePages: seq<int>, freeSet: set<int>)
    requires ValidState(s) && s.triePages != [] && page == s.triePages[|s.triePages| - 1] && page in s.trieSet
        && page in s.mapping
    requires s.mapping[page] in s.trie.nodes
    requires Eviction(s.trie, Subtree(s.trie, s.mapping[page]) - {s.mapping[page]},
                      s.trie.nodes, s.mapping, s.trieSet - {page}, s.freeSet, nodes, mapping, trieSet, freeSet)
    requires Lists(freePages, freeSet)
    ensures var n := s.mapping[page];
      && n in nodes && nodes[n].parent >= 0 && nodes[n].parent in nodes
      && Detached(s, page, Unlink(nodes, n), mapping - {page}, Keep(s.triePages[..|s.triePages| - 1], trieSet), trieSet,
          freePages, freeSet)
  {
    var n := s.mapping[page];
    var t := s.trie;
    CachedPage(s, page);
    UnlinkPrunes(t, n);
    assert t.path[n] <= t.path[n];
    assert Subtree(t, n) == (Subtree(t, n) - {n}) + {n};
    assert PagesOf(t, Subtree(t, n)) == PagesOf(t, Subtree(t, n) - {n}) + {page};
    ListsPop(s.triePages, s.trieSet);
    KeepLists(s.triePages[..|s.triePages| - 1], s.trieSet - {page}, trieSet);
  }

  /** The pages of a subtree are those cached at the prefixes that go through its root. */
  lemma GoneFromView(s: State, n: nat)
    requires ValidState(s) && n in s.trie.nodes && n != s.trie.root
    ensures n in s.trie.path
    ensures PagesOf(s.trie, Subtree(s.trie, n)) == set q | q in ViewIn(s) && s.trie.path[n] <= q :: ViewIn(s)[q]
  {
    var t, v := s.trie, ViewIn(s);
    RootPath(t, n);
    forall m | m in Subtree(t, n) ensures t.path[m] in v && v[t.path[m]] == t.nodes[m].pageId {
      RootPath(t, m);
    }
    forall q | q in v && t.path[n] <= q ensures t.at[q] in Subtree(t, n) && v[q] >= 0 {
      RootPath(t, t.at[q]);
    }
  }

  /** Handing out a detached page completes the step. */
  lemma DetachedThenTaken(s: State, s': State, page: int)
    requires ValidState(s)
    requires Detached(s, page, s'.trie.nodes, s'.mapping, s'.triePages, s'.trieSet, s'.freePages, s'.freeSet)
    requires 0 <= page < |s.refCount| && s'.refCount == s.refCount[page := 1] && s'.log == s.log + [HandedOut(page)]
    requires s.mapping[page] in s.trie.nodes && s.mapping[page] != s.trie.root
    requires s'.trie.at == Prune(s.trie, s.mapping[page]).at
    requires s'.hash == s.hash && s'.maxPages == s.maxPages && s'.stamps == s.stamps && s'.next == s.next
    requires s'.trie.root == s.trie.root && s'.trie.path == s.trie.path
    ensures s.refCount[page] == 0 && s.mapping[page] in s.trie.path
    ensures ValidState(s') && (ExactState(s) ==> ExactState(s'))
    ensures ViewIn(s') == EvictView(ViewIn(s), s.trie.path[s.mapping[page]])
    ensures PlacesIn(s') == EvictPlaces(PlacesIn(s), ViewIn(s), s.trie.path[s.mapping[page]])
  {
    var n := s.mapping[page];
    var gone := PagesOf(s.trie, Subtree(s.trie, n));
    CachedPage(s, page);
    PruneInv(s.trie, n);
    PruneView(s.trie, n);
    PruneMap(s.trie, s.mapping, s.maxPages, n);
    TakeCached(s.maxPages, s.refCount, s.freePages, s.freeSet, s.triePages, s.trieSet, s.mapping.Keys, page, gone,
               s'.freePages, s'.triePages);
    assert s'.trie == Prune(s.trie, n) && s'.mapping.Keys == s.mapping.Keys - gone;
    GoneFromView(s, n);
    if ExactState(s) {
      PruneExact(s.trie, s.mapping, s.stamps, s.log, s.hash, n);
    }
  }

  /** Handing out the last free page: it has no node, so nothing cached is lost. */
  lemma TakenFree(s: State)
    requires ValidState(s) && s.freePages != []
    ensures var page := s.freePages[|s.freePages| - 1];
      && 0 <= page < |s.refCount| && s.refCount[page] == 0
      && var s' := State(s.hash, s.maxPages, s.freePages[..|s.freePages| - 1], s.freeSet - {page}, s.triePages,
          s.trieSet,
                         s.stamps, s.refCount[page := 1], s.trie, s.next, s.mapping, s.log + [HandedOut(page)]);
         && ValidState(s') && (ExactState(s) ==>
             ExactState(s')) && ViewIn(s') == ViewIn(s) && PlacesIn(s') == PlacesIn(s)
  {
    TakeFree(s.maxPages, s.refCount, s.freePages, s.freeSet, s.triePages, s.trieSet, s.mapping.Keys);
    var page := s.freePages[|s.freePages| - 1];
    var log' := s.log + [HandedOut(page)];
    assert log'[..|s.log|] == s.log;
    if ExactState(s) {
      forall n | n in s.trie.nodes && n != s.trie.root ensures NodeExact(s.trie, s.mapping, s.stamps, log', s.hash, n) {
        assert NodeExact(s.trie, s.mapping, s.stamps, s.log, s.hash, n);
      }
    }
  }

  /** Only the counts and the pools differ. */
  ghost predicate SameTrie(s: State, s': State) {
    && s'.hash == s.hash && s'.maxPages == s.maxPages && s'.stamps == s.stamps && s'.next == s.next
    && s'.trie == s.trie && s'.mapping == s.mapping && s'.log == s.log
  }

  /** Dropping a reference leaves the trie alone. */
  lemma ReleasedOnce(s: State, s': State, p: int)
    requires ValidState(s) && SameTrie(s, s') && 0 <= p < |s.refCount|
    requires s'.refCount == s.refCount[p := Released(s.refCount[p])]
    requires var idle := Released(s.refCount[p]) == 0;
      && (if idle && p !in s.mapping && p !in s.freeSet
          then s'.freePages == s.freePages + [p] && s'.freeSet == s.freeSet + {p}
          else s'.freePages == s.freePages && s'.freeSet == s.freeSet)
      && (if idle && p in s.mapping && p !in s.trieSet
          then s'.triePages == s.triePages + [p] && s'.trieSet == s.trieSet + {p}
          else s'.triePages == s.triePages && s'.trieSet == s.trieSet)
    ensures ValidState(s') && (ExactState(s) ==>
        ExactState(s')) && ViewIn(s') == ViewIn(s) && PlacesIn(s') == PlacesIn(s)
  {
    Release(s.maxPages, s.refCount, s.freePages, s.freeSet, s.triePages, s.trieSet, s.mapping.Keys, p);
  }

  /** Gaining references leaves the trie alone. */
  lemma PickedMany(s: State, pages: seq<int>)
    requires ValidState(s) && forall i :: 0 <= i < |pages| ==> 0 <= pages[i] < s.maxPages
    ensures |s.refCount| == s.maxPages && s.freeSet !! s.trieSet
    ensures Keep(s.freePages, s.freeSet) == s.freePages && Keep(s.triePages, s.trieSet) == s.triePages
    ensures var freeSet := s.freeSet - Listed(pages); var trieSet := s.trieSet - Listed(pages);
      var s' := State(s.hash, s.maxPages, Keep(s.freePages, freeSet), freeSet, Keep(s.triePages, trieSet), trieSet,
                      s.stamps, PickedAll(s.refCount, pages), s.trie, s.next, s.mapping, s.log);
      ValidState(s') && (ExactState(s) ==> ExactState(s')) && ViewIn(s') == ViewIn(s) && PlacesIn(s') == PlacesIn(s)
  {
    Pick(s.maxPages, s.refCount, s.freePages, s.freeSet, s.triePages, s.trieSet, s.mapping.Keys, pages);
    KeepAll(s.freePages, s.freeSet);
    KeepAll(s.triePages, s.trieSet);
    PoolsApart(s.maxPages, s.refCount, s.freePages, s.freeSet, s.triePages, s.trieSet, s.mapping.Keys);
  }

  lemma KeepAll(v: seq<int>, s: set<int>)
    requires Lists(v, s)
    ensures Keep(v, s) == v
  {
    KeepAllOf(v, s);
  }

  lemma {:induction false} KeepAllOf(v: seq<int>, s: set<int>)
    requires forall i :: 0 <= i < |v| ==> v[i] in s
    ensures Keep(v, s) == v
  {
    if v != [] {
      KeepAllOf(v[..|v| - 1], s);
    }
  }

  /** A page that was idle in the trie pool moves to the free pool when its node is given to another page. */
  lemma Unmapped(s: State, p: int, free: seq<int>, freeSet: set<int>, trie: seq<int>, trieSet: set<int>)
    requires ValidState(s)
    requires trieSet == s.trieSet - {p} && freeSet == (if p in s.trieSet then s.freeSet + {p} else s.freeSet)
    requires free == (if p in s.trieSet then s.freePages + [p] else s.freePages)
    requires p !in s.trieSet ==> trie == s.triePages
    requires p in s.trieSet ==> exists j ::
        0 <= j < |s.triePages| && s.triePages[j] == p && trie == SwapRemove(s.triePages, j)
    ensures PoolInv(s.maxPages, s.refCount, free, freeSet, trie, trieSet, s.mapping.Keys - {p})
  {
    if p in s.trieSet {
      var j :| 0 <= j < |s.triePages| && s.triePages[j] == p && trie == SwapRemove(s.triePages, j);
      SwapRemoveLists(s.triePages, s.trieSet, j);
    }
    Unmap(s.maxPages, s.refCount, s.freePages, s.freeSet, s.triePages, s.trieSet, s.mapping.Keys, p, free, trie);
  }

  /** The contract of a recording, page by page: p is not in the trie, or already at the prefix q. */
  ghost predicate MayRecord(s: State, p: int, q: Path) {
    p in s.mapping ==> s.mapping[p] in s.trie.path && s.trie.path[s.mapping[p]] == q
  }

  /** What recording page p at the end of the prefix q does to the state, pools aside. */
  ghost predicate RecordedAt(s: State, s': State, q: Path, p: int) {
    && ValidState(s) && ValidState(s')
    && s'.hash == s.hash && s'.maxPages == s.maxPages && s'.refCount == s.refCount && s'.trie.root == s.trie.root
    && ViewIn(s') == ViewIn(s)[q := p] && PlacesIn(s') == Replaced(PlacesIn(s), ViewIn(s), q, p)
    && (forall n :: n in s.trie.nodes ==> n in s'.trie.nodes && s'.trie.path[n] == s.trie.path[n])
    && (forall r :: r in s'.mapping && r != p ==> r in s.mapping && s'.mapping[r] == s.mapping[r])
    && (ExactState(s) && MayRecord(s, p, q) ==> ExactState(s'))
  }

  /** Rewriting node c, which is where the prefix q leads, for page p enters the page under q. */
  lemma PlacesRecorded(s: State, s': State, c: nat, p: int, ts: int, q: Path)
    requires ValidState(s) && ValidState(s') && Rewritten(s.trie, s'.trie, c, p, ts) && c in s'.trie.path
        && s'.trie.path[c] == q
    requires s'.mapping == Remapped(s.trie, s.mapping, c, p)
    requires if c in s.trie.nodes then q in ViewIn(s) && ViewIn(s)[q] == s.trie.nodes[c].pageId else q !in ViewIn(s)
    ensures PlacesIn(s') == Replaced(PlacesIn(s), ViewIn(s), q, p)
  {
    hide PoolInv, ViewIn;
    assert forall r :: r in s.mapping ==> s.mapping[r] in s.trie.nodes;
  }

  lemma NodeInView(s: State, n: nat)
    requires ValidState(s) && n in s.trie.nodes && n != s.trie.root
    ensures n in s.trie.path && s.trie.path[n] in ViewIn(s) && ViewIn(s)[s.trie.path[n]] == s.trie.nodes[n].pageId
  {
    RootPath(s.trie, n);
  }

  lemma RecordedNew(s: State, s': State, cur: nat, h: nat, extra: string, p: int, ts: int, keys: seq<PageKey>)
    requires ValidState(s) && cur in s.trie.nodes && cur in s.trie.path && h !in s.trie.nodes[cur].children
        && 0 <= p < |s.stamps|
    requires s'.trie == AddChild(s.trie, cur, h, s.next, extra, p, ts) && s'.mapping == s.mapping[p := s.next]
    requires s'.stamps == s.stamps[p := ts] && s'.log == s.log + [Recorded(p, keys)] && s'.next == s.next + 1
    requires s'.hash == s.hash && s'.maxPages == s.maxPages && s'.refCount == s.refCount
    requires PoolInv(s'.maxPages, s'.refCount, s'.freePages, s'.freeSet, s'.triePages, s'.trieSet, s.mapping.Keys + {p})
    requires Edges(s.hash, keys) == s.trie.path[cur] + [Edge(h, extra)]
    ensures RecordedAt(s, s', Edges(s.hash, keys), p)
  {
    var c := s.next;
    var q := Edges(s.hash, keys);
    AddChildView(s.trie, cur, h, c, extra, p, ts);
    AddChildInv(s.trie, cur, h, c, extra, p, ts);
    assert s'.trie.path[c] == q;
    assert Rewritten(s.trie, s'.trie, c, p, ts);
    RewriteMap(s.trie, s'.trie, s.mapping, s.maxPages, c, p, ts);
    assert s'.mapping == Remapped(s.trie, s.mapping, c, p);
    assert s'.mapping.Keys == s.mapping.Keys + {p};
    PlacesRecorded(s, s', c, p, ts, q);
    if ExactState(s) && MayRecord(s, p, q) {
      RewriteExact(s.trie, s'.trie, s.mapping, s.stamps, s.log, s.hash, c, p, ts, keys);
    }
  }

  lemma RecordedOld(s: State, s': State, c: nat, p: int, ts: int, keys: seq<PageKey>)
    requires ValidState(s) && c in s.trie.nodes && c in s.trie.path && c != s.trie.root && 0 <= p < |s.stamps|
    requires s'.trie == Relabel(s.trie, c, p, ts) && s'.mapping == Remapped(s.trie, s.mapping, c, p)
    requires s'.stamps == s.stamps[p := ts] && s'.log == s.log + [Recorded(p, keys)] && s'.next == s.next
    requires s'.hash == s.hash && s'.maxPages == s.maxPages && s'.refCount == s.refCount
    requires PoolInv(s'.maxPages, s'.refCount, s'.freePages, s'.freeSet, s'.triePages, s'.trieSet, s'.mapping.Keys)
    requires Edges(s.hash, keys) == s.trie.path[c]
    ensures RecordedAt(s, s', Edges(s.hash, keys), p)
  {
    RelabelView(s.trie, c, p, ts);
    assert Rewritten(s.trie, s'.trie, c, p, ts);
    RewriteMap(s.trie, s'.trie, s.mapping, s.maxPages, c, p, ts);
    NodeInView(s, c);
    PlacesRecorded(s, s', c, p, ts, s.trie.path[c]);
    if ExactState(s) && MayRecord(s, p, s.trie.path[c]) {
      RewriteExact(s.trie, s'.trie, s.mapping, s.stamps, s.log, s.hash, c, p, ts, keys);
    }
  }

  /** What a caller owes to a recording: the written pages are distinct, and each is new to the trie or already at its
      prefix. */
  ghost predicate CanRecord(s: State, q: Path, pages: seq<int>)
    requires ValidState(s)
  {
    var k := RecordDepth(ViewIn(s), q);
    && k <= |pages|
    && (forall i, j :: 0 <= i < j < k ==> pages[i] != pages[j])
    && (forall i :: 0 <= i < k ==> MayRecord(s, pages[i], q[..i + 1]))
  }

  /** What queries depend on. */
  ghost function SeenIn(s: State): Model
    requires ValidState(s)
  {
    Model(ViewIn(s), s.log)
  }

  /** In an exact state a page is cached under one prefix at most, and that is where it is entered. */
  lemma ExactView(s: State, q: Path)
    requires ValidState(s) && ExactState(s) && q in ViewIn(s)
    ensures ViewIn(s)[q] in s.mapping && s.mapping[ViewIn(s)[q]] in s.trie.path
        && s.trie.path[s.mapping[ViewIn(s)[q]]] == q
    ensures var last := LastRecorded(s.log, ViewIn(s)[q]); last.Some? && Edges(s.hash, last.value) == q
  {
    var n := s.trie.at[q];
    RootPath(s.trie, n);
    assert NodeExact(s.trie, s.mapping, s.stamps, s.log, s.hash, n);
  }

  /** All that was ever recorded is from this set of pages. */
  ghost predicate LogOver(pool: iset<PageKey>, log: seq<Event>) {
    forall i :: 0 <= i < |log| && log[i].Recorded? ==> Over(pool, log[i].prefix)
  }

  /** If the hash tells the recorded and the queried pages apart, a query in an exact state answers for the tokens that
      were asked for. */
  lemma ExactAnswers(s: State, pool: iset<PageKey>, keys: seq<PageKey>)
    requires ValidState(s) && ExactState(s) && LogOver(pool, s.log) && Over(pool, keys) && TellsApart(s.hash, pool)
    ensures AnswersFor(s.hash, SeenIn(s), keys)
  {
    var m := SeenIn(s);
    hide ValidState, ExactState, ViewIn;
    forall q | q in m.view ensures TrueAt(s.hash, pool, m.log, m.view[q], q) {
      ExactView(s, q);
      LastRecordedMeans(s.log, m.view[q], LastRecorded(s.log, m.view[q]).value);
    }
    TrueAnswers(s.hash, pool, m, keys);
  }

  /** The contract of a recording, as the view shows it. */
  lemma CanWrite(s: State, q: Path, pages: seq<int>)
    requires ValidState(s) && ExactState(s) && CanRecord(s, q, pages)
    ensures RecordDepth(ViewIn(s), q) <= |pages| && RecordDepth(ViewIn(s), q) <= |q|
    ensures MayWrite(ViewIn(s), q, pages, RecordDepth(ViewIn(s), q))
  {
    var v, k := ViewIn(s), RecordDepth(ViewIn(s), q);
    hide ValidState, ExactState, ViewIn;
    forall i, p | 0 <= i < k && p in v && v[p] == pages[i] ensures p == q[..i + 1] {
      ExactView(s, p);
      assert MayRecord(s, pages[i], q[..i + 1]);
    }
  }

  /** Handing a page out, as the view shows it. */
  lemma HandsOut(s: State, m: Model, page: int)
    requires ValidState(s) && ExactState(s) && m.log == s.log + [HandedOut(page)]
    requires if page in s.mapping then s.mapping[page] in s.trie.path
        && m.view == EvictView(ViewIn(s), s.trie.path[s.mapping[page]])
             else m.view == ViewIn(s)
    ensures HandingOut(SeenIn(s), m, page)
  {
    var v := ViewIn(s);
    hide ExactState;
    forall q | q in v && v[q] == page ensures page in s.mapping && s.trie.path[s.mapping[page]] == q {
      ExactView(s, q);
    }
    if page in s.mapping {
      NodeInView(s, s.mapping[page]);
    }
  }

  /** A recording that started in state s0 has written the first i pages. */
  ghost predicate Progress(s0: State, s: State, q: Path, pages: seq<int>, i: nat) {
    && ValidState(s0) && ValidState(s) && i <= |pages| && i <= RecordDepth(ViewIn(s0), q)
    && ViewIn(s) == RecordView(ViewIn(s0), q, pages, i)
    && PlacesIn(s) == RecordPlaces(PlacesIn(s0), ViewIn(s0), q, pages, i)
    && s.hash == s0.hash && s.maxPages == s0.maxPages && s.refCount == s0.refCount
    && (ExactState(s0) && CanRecord(s0, q, pages) ==>
          ExactState(s) && forall j :: i <= j < RecordDepth(ViewIn(s0), q) ==> MayRecord(s, pages[j], q[..j + 1]))
  }

  lemma ProgressStart(s: State, q: Path, pages: seq<int>)
    requires ValidState(s)
    ensures Progress(s, s, q, pages, 0)
  {
  }

  lemma ProgressFacts(s0: State, s: State, q: Path, pages: seq<int>, i: nat)
    requires Progress(s0, s, q, pages, i)
    ensures ValidState(s0) && ValidState(s) && i <= |pages| && i <= RecordDepth(ViewIn(s0), q) <= |q|
    ensures ViewIn(s) == RecordView(ViewIn(s0), q, pages, i)
    ensures PlacesIn(s) == RecordPlaces(PlacesIn(s0), ViewIn(s0), q, pages, i)
    ensures ExactState(s0) && CanRecord(s0, q, pages) ==> ExactState(s)
  {
  }

  lemma RecordedFacts(s: State, s': State, q: Path, p: int)
    requires RecordedAt(s, s', q, p)
    ensures ValidState(s') && s'.hash == s.hash && s'.maxPages == s.maxPages && s'.refCount == s.refCount
  {
  }

  lemma ProgressStep(s0: State, s: State, s': State, q: Path, pages: seq<int>, i: nat)
    requires Progress(s0, s, q, pages, i) && i < |q| && i < |pages|
    requires !Collides(ViewIn(s), q[..i + 1]) && RecordedAt(s, s', q[..i + 1], pages[i])
    ensures Progress(s0, s', q, pages, i + 1)
  {
    hide PoolInv, ExactState, ViewIn, PlacesIn, Collides, Replaced;
    RecordViewAt(ViewIn(s0), q, pages, i);
    ReplacedSame(PlacesIn(s), ViewIn(s0), ViewIn(s), q[..i + 1], pages[i]);
    RecordKeepsCollisions(ViewIn(s0), q, pages, i, q[..i + 1]);
    var k := RecordDepth(ViewIn(s0), q);
    assert i < k;
    if ExactState(s0) && CanRecord(s0, q, pages) {
      assert MayRecord(s, pages[i], q[..i + 1]);
      forall j | i < j < k ensures MayRecord(s', pages[j], q[..j + 1]) {
        assert MayRecord(s, pages[j], q[..j + 1]);
      }
    }
  }

  /** A recording stops at the first prefix that collides with what is cached. */
  lemma ProgressStops(s0: State, s: State, q: Path, pages: seq<int>, i: nat)
    requires Progress(s0, s, q, pages, i) && i < |q| && Collides(ViewIn(s), q[..i + 1])
    ensures RecordDepth(ViewIn(s0), q) == i
  {
    RecordKeepsCollisions(ViewIn(s0), q, pages, i, q[..i + 1]);
  }

  /** Finding the child of a node by hash, and the meaning of what is found. */
  lemma FindChild(s: State, cur: nat, h: nat, extra: string)
    requires ValidState(s) && cur in s.trie.nodes && cur in s.trie.path
    ensures var q := s.trie.path[cur] + [Edge(h, extra)];
      && (Collides(ViewIn(s), q) <==>
            h in s.trie.nodes[cur].children && s.trie.nodes[cur].children[h] in s.trie.nodes
            && s.trie.nodes[s.trie.nodes[cur].children[h]].extraKey != extra)
      && (q in ViewIn(s) <==>
            h in s.trie.nodes[cur].children && s.trie.nodes[cur].children[h] in s.trie.nodes
            && s.trie.nodes[s.trie.nodes[cur].children[h]].extraKey == extra)
      && (h in s.trie.nodes[cur].children ==>
            var c := s.trie.nodes[cur].children[h];
            && c in s.trie.nodes && c in s.trie.path && c != s.trie.root && 0 <= s.trie.nodes[c].pageId < s.maxPages
            && s.trie.path[c] == s.trie.path[cur] + [Edge(h, s.trie.nodes[c].extraKey)]
            && (s.trie.nodes[c].extraKey == extra ==> ViewIn(s)[q] == s.trie.nodes[c].pageId))
      && |s.stamps| == s.maxPages
  {
    Lookup(s.trie, cur, h, extra);
    if h in s.trie.nodes[cur].children {
      assert ChildOk(s.trie, cur, h);
    }
  }

  /** In an exact state the page of a node is current, and was last recorded for the node's path. */
  lemma ExactPage(s: State, n: nat)
    requires ValidState(s) && ExactState(s) && n in s.trie.nodes && n in s.trie.path && n != s.trie.root
    ensures var p := s.trie.nodes[n].pageId;
      && 0 <= p < |s.stamps| && s.stamps[p] == s.trie.nodes[n].timestamp
      && LastRecorded(s.log, p).Some? && Edges(s.hash, LastRecorded(s.log, p).value) == s.trie.path[n]
  {
    assert NodeExact(s.trie, s.mapping, s.stamps, s.log, s.hash, n);
  }

  lemma RootNode(s: State)
    requires ValidState(s)
    ensures s.trie.root in s.trie.nodes && s.trie.root in s.trie.path && s.trie.path[s.trie.root] == []
    ensures s.maxPages == |s.stamps|
  {
  }

  /** A query along q has found the first pages and stands at node cur. */
  ghost predicate Searching(s: State, q: Path, found: seq<int>, cur: nat) {
    && ValidState(s) && |found| <= |q|
    && cur in s.trie.nodes && cur in s.trie.path && s.trie.path[cur] == q[..|found|]
    && (forall j :: 0 <= j < |found| ==> 0 <= found[j] < s.maxPages)
    && (forall i :: 1 <= i <= |found| ==> q[..i] in ViewIn(s) && ViewIn(s)[q[..i]] == found[i - 1])
    && (ExactState(s) ==> forall j :: 0 <= j < |found| ==> RecordedFor(s, found[j], q[..j + 1]))
  }

  /** The page was last recorded for the prefix q, and was not handed out since. */
  ghost predicate RecordedFor(s: State, p: int, q: Path) {
    LastRecorded(s.log, p).Some? && Edges(s.hash, LastRecorded(s.log, p).value) == q
  }

  lemma SearchStart(s: State, q: Path)
    requires ValidState(s)
    ensures Searching(s, q, [], s.trie.root)
  {
  }

  lemma SearchStep(s: State, q: Path, found: seq<int>, cur: nat)
    requires Searching(s, q, found, cur) && |found| < |q|
    ensures cur in s.trie.nodes && |s.stamps| == s.maxPages
    ensures var e := q[|found|]; var children := s.trie.nodes[cur].children;
      && (e.hash !in children ==> q[..|found| + 1] !in ViewIn(s))
      && (e.hash in children ==>
            && children[e.hash] in s.trie.nodes
            && var child := s.trie.nodes[children[e.hash]];
               && 0 <= child.pageId < s.maxPages
               && (child.extraKey != e.extra ==> q[..|found| + 1] !in ViewIn(s))
               && (child.extraKey == e.extra ==> Searching(s, q, found + [child.pageId], children[e.hash]))
               && (ExactState(s) ==> s.stamps[child.pageId] == child.timestamp))
  {
    var e := q[|found|];
    assert q[..|found| + 1] == q[..|found|] + [e];
    FindChild(s, cur, e.hash, e.extra);
    if e.hash in s.trie.nodes[cur].children && ExactState(s) {
      ExactPage(s, s.trie.nodes[cur].children[e.hash]);
    }
  }

  lemma SearchEnd(s: State, q: Path, found: seq<int>, cur: nat)
    requires Searching(s, q, found, cur) && (|found| < |q| ==> q[..|found| + 1] !in ViewIn(s))
    ensures found == QueryPages(ViewIn(s), q)
    ensures ExactState(s) ==> forall j :: 0 <= j < |found| ==> RecordedFor(s, found[j], q[..j + 1])
  {
    QueryAnswer(ViewIn(s), q, found);
  }

  lemma SearchPages(s: State, q: Path, found: seq<int>, cur: nat)
    requires Searching(s, q, found, cur)
    ensures forall j :: 0 <= j < |found| ==> 0 <= found[j] < s.maxPages
  {
  }
}
