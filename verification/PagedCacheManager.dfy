/** The paged cache manager. Every public method runs under one mutex, so each call is one atomic step; the invariant
    that all calls keep therefore holds in every run. */
module PagedCache {
  import opened Wrappers
  import opened PageLists
  import opened PagePools
  import opened PageTrie
  import opened PrefixView
  import opened PageHistory
  import opened PageCutting
  import opened PageRuns
  import opened PageState

  class PagedCacheManager {
    const pageLen: nat
    const hash: PageHash
    var maxPages: nat
    var freePages: seq<int>
    var triePages: seq<int>
    var freePagesSet: set<int>
    var triePagesSet: set<int>
    var pageTimestamp: seq<int>
    var currentTimestamp: int
    var pageRefCount: seq<int>
    var nodes: map<nat, CacheTrieNode>   // the heap: the trie nodes that are alive
    var trieRoot: nat
    var nextNode: nat                    // no node with this id or a larger one was ever made
    var pageToTrieNode: map<int, nat>
    ghost var path: map<nat, Path>       // the path of every node
    ghost var at: map<Path, nat>         // the live node at every path
    ghost var log: seq<Event>            // the history of the manager

    ghost function Tree(): Trie
      reads this
    {
      Trie(nodes, trieRoot, path, at)
    }

    /** The fields as one value. */
    ghost function S(): State
      reads this
    {
      State(hash, maxPages, freePages, freePagesSet, triePages, triePagesSet, pageTimestamp, pageRefCount,
            Tree(), nextNode, pageToTrieNode, log)
    }

    /** Holds between any two calls, whatever the callers record. */
    ghost predicate Valid()
      reads this
    {
      pageLen > 0 && ValidState(S())
    }

    /** Holds as well, as long as all recordings obey CanRecord. */
    ghost predicate Exact()
      reads this
    {
      ExactState(S())
    }

    /** The page cached under each prefix. */
    ghost function View(): View
      requires Valid()
      reads this
    {
      ViewIn(S())
    }

    /** What the answers of queries depend on; see PageRuns for what the calls do to it. */
    ghost function Seen(): Model
      requires Valid()
      reads this
    {
      SeenIn(S())
    }

    /** The prefix under which each cached page is entered. */
    ghost function Entries(): Places
      requires Valid()
      reads this
    {
      PlacesIn(S())
    }

    function FreePageCount(): int
      reads this
    {
      |freePages| + |triePages|
    }

    constructor (pageLen: nat, hash: PageHash, maxPages: nat)
      requires pageLen > 0
      ensures Valid() && Exact() && View() == map[] && Entries() == map[] && log == [Reset] && this.pageLen == pageLen
          && this.hash == hash
      ensures this.maxPages == maxPages && freePages == AllPages(maxPages) && triePages == []
      ensures pageRefCount == pageTimestamp == Zeros(maxPages) && currentTimestamp == 0
    {
      this.pageLen := pageLen;
      this.hash := hash;
      this.currentTimestamp := 0;
      this.trieRoot := 0;
      this.nextNode := 0;
      this.nodes, this.pageToTrieNode := map[], map[];
      this.log := [];
      new;
      SetMaxPages(maxPages);
    }

    /** Forgets everything and makes all pages free. The nodes of an older trie are leaked, so they leave the modelled
        heap. */
    method SetMaxPages(maxPages: nat)
      requires pageLen > 0
      modifies this
      ensures Valid() && Exact() && View() == map[] && Entries() == map[] && log == old(log) + [Reset]
      ensures this.maxPages == maxPages && freePages == AllPages(maxPages) && triePages == []
      ensures pageRefCount == pageTimestamp == Zeros(maxPages) && currentTimestamp == 0
    {
      var pages, pageSet := [], {};
      for i := 0 to maxPages
        invariant pages == AllPages(i) && forall p :: p in pageSet <==> 0 <= p < i
      {
        pages := pages + [i];
        pageSet := pageSet + {i};
      }
      this.maxPages := maxPages;
      freePages, triePages, freePagesSet, triePagesSet := pages, [], pageSet, {};
      pageTimestamp, pageRefCount, currentTimestamp := Zeros(maxPages), Zeros(maxPages), 0;
      nodes, trieRoot, nextNode, pageToTrieNode := map[0 := EMPTY_NODE], 0, 1, map[];
      path, at, log := map[0 := []], map[[] := 0], log + [Reset];
      hide ValidState, ExactState, ViewIn, PlacesIn;
      EmptyState(S());
    }

    /** The nodes in ids were deleted by this method; see Eviction. */
    twostate predicate Evicted(t: Trie, ids: set<nat>)
      reads this
    {
      && Lists(freePages, freePagesSet)
      && Eviction(t, ids, old(nodes), old(pageToTrieNode), old(triePagesSet), old(freePagesSet),
                  nodes, pageToTrieNode, triePagesSet, freePagesSet)
    }

    method EvictChildren(node: nat, ghost t: Trie)
      requires TreeInv(t) && node in t.nodes
      requires forall m :: m in Subtree(t, node) ==> m in nodes && nodes[m] == t.nodes[m]
      requires Lists(freePages, freePagesSet) && freePagesSet !! triePagesSet
      modifies this`nodes, this`pageToTrieNode, this`triePagesSet, this`freePages, this`freePagesSet
      ensures Evicted(t, Subtree(t, node) - {node}) && freePagesSet !! triePagesSet
      decreases Subtree(t, node), 0
    {
      assert t.path[node] <= t.path[node];
      var todo := nodes[node].children.Keys;
      ghost var below: set<nat> := {};
      while todo != {}
        invariant todo <= t.nodes[node].children.Keys
        invariant BelowInv(t, node, todo, below)
        invariant forall m :: m in Subtree(t, node) && m !in below ==> m in nodes && nodes[m] == t.nodes[m]
        invariant Evicted(t, below) && freePagesSet !! triePagesSet
      {
        hide Lists;
        var h :| h in todo;
        var child := nodes[node].children[h];
        BelowStep(t, node, todo, below, h);
        ghost var sub := Subtree(t, child);
        label before:
        EvictTrieSubtree(child, t);
        EvictionSteps(t, below, sub, old(nodes), old(pageToTrieNode), old(triePagesSet), old(freePagesSet),
                      old@before(nodes), old@before(pageToTrieNode), old@before(triePagesSet), old@before(freePagesSet),
                      nodes, pageToTrieNode, triePagesSet, freePagesSet);
        todo := todo - {h};
        below := below + sub;
      }
      BelowDone(t, node, below);
    }

    /** Deletes a node and everything below it. The trie t is the one the whole eviction started from. */
    method EvictTrieSubtree(node: nat, ghost t: Trie)
      requires TreeInv(t) && node in t.nodes
      requires forall m :: m in Subtree(t, node) ==> m in nodes && nodes[m] == t.nodes[m]
      requires Lists(freePages, freePagesSet) && freePagesSet !! triePagesSet
      modifies this`nodes, this`pageToTrieNode, this`triePagesSet, this`freePages, this`freePagesSet
      ensures Evicted(t, Subtree(t, node)) && freePagesSet !! triePagesSet
      decreases Subtree(t, node), 1
    {
      assert t.path[node] <= t.path[node];
      EvictChildren(node, t);
      var pid := nodes[node].pageId;
      if pid >= 0 {
        pageToTrieNode := pageToTrieNode - {pid};
        if pid in triePagesSet {
          triePagesSet := triePagesSet - {pid};
          ListsPush(freePages, freePagesSet, pid);
          freePagesSet := freePagesSet + {pid};
          freePages := freePages + [pid];
        }
      }
      nodes := nodes - {node};
    }

    /** Unlinks a node without live children and deletes it. */
    method RemoveTrieLeaf(node: nat, pageIndex: int)
      requires node in nodes && nodes[node].parent >= 0 && nodes[node].parent in nodes
      modifies this`nodes, this`pageToTrieNode
      ensures pageToTrieNode == old(pageToTrieNode) - {pageIndex}
      ensures nodes == Unlink(old(nodes), node)
    {
      var parent := nodes[node].parent;
      nodes := nodes[parent := nodes[parent].(children := nodes[parent].children - {nodes[node].edgeHash})];
      pageToTrieNode := pageToTrieNode - {pageIndex};
      nodes := nodes - {node};
    }

    /** The scan for a leaf, from the back. A page of the trie pool always has a node, so no stale entry is met. */
    method LastLeaf() returns (i: int)
      requires Valid()
      ensures IsLastLeaf(S(), i) && i >= -1 && (i >= 0 ==> LeafAt(S(), i))
    {
      i := |triePages| - 1;
      while i >= 0
        invariant -1 <= i < |triePages|
        invariant forall j :: i < j ==> !LeafAt(S(), j)
      {
        var candidate := triePages[i];
        if nodes[pageToTrieNode[candidate]].children == map[] {
          return;
        }
        i := i - 1;
      }
    }

    /** Takes the leaf at position i of the trie pool. */
    method DetachLeaf(i: nat) returns (page: int)
      requires Valid() && LeafAt(S(), i)
      modifies this`nodes, this`pageToTrieNode, this`triePages, this`triePagesSet
      ensures page == old(triePages)[i] && triePages == SwapRemove(old(triePages), i)
      ensures Detached(old(S()), page, nodes, pageToTrieNode, triePages, triePagesSet, freePages, freePagesSet)
    {
      page := triePages[i];
      var node := pageToTrieNode[page];
      PageState.DetachLeaf(S(), i);
      hide ValidState, Detached;
      triePages := SwapRemove(triePages, i);
      triePagesSet := triePagesSet - {page};
      RemoveTrieLeaf(node, page);
    }

    /** Takes the last page of the trie pool and evicts everything cached below it. */
    method DetachLast() returns (page: int)
      requires Valid() && triePages != [] && OnlyHere(S(), triePages[|triePages| - 1])
      modifies this`nodes, this`pageToTrieNode, this`triePages, this`triePagesSet, this`freePages, this`freePagesSet
      ensures page == old(triePages)[|old(triePages)| - 1]
      ensures triePages == Keep(old(triePages)[..|old(triePages)| - 1], triePagesSet)
      ensures Detached(old(S()), page, nodes, pageToTrieNode, triePages, triePagesSet, freePages, freePagesSet)
    {
      page := triePages[|triePages| - 1];
      var node := pageToTrieNode[page];
      CachedPage(S(), page);
      assert TreeInv(Tree()) && forall m :: m in Subtree(Tree(), node) ==> m in nodes;
      hide ValidState, Detached, OnlyHere, TreeInv, Lists, Subtree, PagesOf, Eviction;
      triePages := triePages[..|triePages| - 1];
      triePagesSet := triePagesSet - {page};
      EvictChildren(node, old(Tree()));
      // The program erases the entry of the page through an iterator that it got before: the entry must still be there.
      IteratorKept(old(S()), page, nodes, pageToTrieNode, triePagesSet, freePagesSet);
      assert page in pageToTrieNode;
      PageState.DetachLast(old(S()), page, nodes, pageToTrieNode, triePagesSet, freePages, freePagesSet);
      RemoveTrieLeaf(node, page);
      triePages := Compact(triePages, triePagesSet);
    }

    /** Gives a detached page its first reference; s is the state before it was detached. */
    method HandOut(page: int, ghost s: State)
      requires ValidState(s)
      requires Detached(s, page, nodes, pageToTrieNode, triePages, triePagesSet, freePages, freePagesSet)
      requires hash == s.hash && maxPages == s.maxPages && pageTimestamp == s.stamps && pageRefCount == s.refCount
      requires nextNode == s.next && trieRoot == s.trie.root && path == s.trie.path && log == s.log && pageLen > 0
      modifies this`at, this`log, this`pageRefCount
      ensures Valid() && (ExactState(s) ==> Exact())
      ensures 0 <= page < |s.refCount| && s.refCount[page] == 0 && s.mapping[page] in path
      ensures pageRefCount == s.refCount[page := 1] && log == s.log + [HandedOut(page)]
      ensures View() == EvictView(ViewIn(s), path[s.mapping[page]])
      ensures Entries() == EvictPlaces(PlacesIn(s), ViewIn(s), path[s.mapping[page]])
    {
      CachedPage(s, page);
      assert TreeInv(s.trie);
      hide ValidState, Detached, ExactState, ViewIn, PlacesIn, EvictPlaces, Prune, TreeInv, EvictView;
      at := Prune(s.trie, s.mapping[page]).at;
      pageRefCount := pageRefCount[page := 1];
      log := log + [HandedOut(page)];
      DetachedThenTaken(s, S(), page);
    }

    /** Takes the last leaf of the trie pool, or else the last page with all that is cached below it. */
    method DetachCached() returns (page: int)
      requires Valid() && freePages == [] && triePages != [] && EvictionDefined(S())
      modifies this`nodes, this`pageToTrieNode, this`triePages, this`triePagesSet, this`freePages, this`freePagesSet
      ensures page in old(triePagesSet)
      ensures Detached(old(S()), page, nodes, pageToTrieNode, triePages, triePagesSet, freePages, freePagesSet)
      ensures EvictionChoice(old(S()), page, triePages, triePagesSet, freePages)
    {
      var i := LastLeaf();
      hide ValidState, ExactState, ViewIn, PlacesIn, EvictionChoice, Keep, SwapRemove, IsLastLeaf, LeafAt, TreeInv,
          Lists;
      if i >= 0 {
        page := DetachLeaf(i);
      } else {
        page := DetachLast();
      }
      ChoiceMade(old(S()), i, page, triePages, triePagesSet, freePages);
    }

    /** Hands out a cached page: the last leaf of the trie pool, or else the last page with all that is cached below it.
        */
    method EvictCached() returns (page: int)
      requires Valid() && freePages == [] && triePages != [] && EvictionDefined(S())
      modifies this`nodes, this`at, this`log, this`pageToTrieNode, this`triePages, this`triePagesSet,
               this`freePages, this`freePagesSet, this`pageRefCount
      ensures Valid() && (old(Exact()) ==> Exact())
      ensures page in old(triePagesSet) && page in old(pageToTrieNode) && old(pageToTrieNode)[page] in path
      ensures 0 <= page < |old(pageRefCount)| && old(pageRefCount)[page] == 0
      ensures pageRefCount == old(pageRefCount)[page := 1] && log == old(log) + [HandedOut(page)]
      ensures View() == EvictView(old(View()), path[old(pageToTrieNode)[page]])
      ensures Entries() == EvictPlaces(old(Entries()), old(View()), path[old(pageToTrieNode)[page]])
      ensures EvictionChoice(old(S()), page, triePages, triePagesSet, freePages)
      ensures old(Exact()) ==> HandingOut(old(Seen()), Seen(), page)
    {
      hide ValidState, ExactState, ViewIn, PlacesIn, EvictionChoice, Detached, EvictView, HandingOut;
      page := DetachCached();
      CachedPage(old(S()), page);
      HandOut(page, old(S()));
      if old(Exact()) {
        HandsOut(old(S()), Seen(), page);
      }
    }

    /** Hands out the last page of the free pool. */
    method TakeFreePage()
      requires Valid() && freePages != []
      modifies this`log, this`freePages, this`freePagesSet, this`pageRefCount
      ensures Valid() && (old(Exact()) ==> Exact()) && View() == old(View()) && Entries() == old(Entries())
      ensures var page := old(freePages)[|old(freePages)| - 1];
        && 0 <= page < |old(pageRefCount)| && pageRefCount == old(pageRefCount)[page := 1]
            && log == old(log) + [HandedOut(page)]
      ensures freePages == old(freePages)[..|old(freePages)| - 1]
      ensures old(Exact()) ==> HandingOut(old(Seen()), Seen(), old(freePages)[|old(freePages)| - 1])
    {
      var pageIndex := freePages[|freePages| - 1];
      TakenFree(S());
      TakeFree(maxPages, pageRefCount, freePages, freePagesSet, triePages, triePagesSet, pageToTrieNode.Keys);
      hide ValidState, ExactState, ViewIn, PlacesIn, HandingOut;
      freePages := freePages[..|freePages| - 1];
      freePagesSet := freePagesSet - {pageIndex};
      pageRefCount := pageRefCount[pageIndex := 1];
      log := log + [HandedOut(pageIndex)];
      if old(Exact()) {
        HandsOut(old(S()), Seen(), pageIndex);
      }
    }

    /** Returns the page that would be handed out next and, when pick is set, hands it out. Where the program reports
        that no page can be used, the answer is None. In a state that is not exact, the eviction may be undefined. */
    method GetUnusedPageIndex(pick: bool) returns (r: Option<int>)
      requires Valid() && (pick ==> EvictionDefined(S()))
      modifies this`nodes, this`at, this`log, this`pageToTrieNode, this`triePages, this`triePagesSet,
               this`freePages, this`freePagesSet, this`pageRefCount
      ensures Valid() && (old(Exact()) ==> Exact())
      ensures r.None? <==> old(FreePageCount()) == 0
      ensures r.None? || !pick ==> S() == old(S())
      ensures r.Some? ==> 0 <= r.value < |old(pageRefCount)| && old(pageRefCount)[r.value] == 0
      ensures r.Some? && old(freePages) != [] ==> r.value == old(freePages)[|old(freePages)| - 1]
      ensures r.Some? && pick ==>
          pageRefCount == old(pageRefCount)[r.value := 1] && log == old(log) + [HandedOut(r.value)]
      ensures r.Some? && pick && old(freePages) != [] ==>
                View() == old(View()) && Entries() == old(Entries()) && triePages == old(triePages)
                    && freePages == old(freePages)[..|old(freePages)| - 1]
      ensures r.Some? && old(freePages) == [] ==>
                r.value in old(pageToTrieNode) && old(pageToTrieNode)[r.value] in path
      ensures r.Some? && old(freePages) == [] && !pick ==> r.value == old(triePages)[|old(triePages)| - 1]
      ensures r.Some? && old(freePages) == [] && pick ==>
                && View() == EvictView(old(View()), path[old(pageToTrieNode)[r.value]])
                && Entries() == EvictPlaces(old(Entries()), old(View()), path[old(pageToTrieNode)[r.value]])
      ensures r.Some? && pick && old(Exact()) ==> HandingOut(old(Seen()), Seen(), r.value)
      ensures r.Some? && old(freePages) == [] && pick ==>
          EvictionChoice(old(S()), r.value, triePages, triePagesSet, freePages)
    {
      if freePages == [] && triePages != [] {
        // The loop that would move a stale last entry to the free pool stops at once: the entry has a node.
        CachedPage(S(), triePages[|triePages| - 1]);
        assert triePages[|triePages| - 1] in pageToTrieNode;
      }
      if freePages == [] && triePages == [] {
        return None;
      }
      if freePages != [] {
        var pageIndex := freePages[|freePages| - 1];
        TakeFree(maxPages, pageRefCount, freePages, freePagesSet, triePages, triePagesSet, pageToTrieNode.Keys);
        if pick {
          TakeFreePage();
        }
        return Some(pageIndex);
      }
      if !pick {
        return Some(triePages[|triePages| - 1]);
      }
      hide ValidState, ExactState, ViewIn, PlacesIn, EvictionChoice, EvictView, HandingOut;
      var evicted := EvictCached();
      return Some(evicted);
    }

    /** Drops one reference to a page; the last one puts the page into the pool that fits it. */
    method ReleasePageIndex(pageIndex: int)
      requires Valid() && 0 <= pageIndex < maxPages
      modifies this`pageRefCount, this`freePages, this`freePagesSet, this`triePages, this`triePagesSet
      ensures Valid() && (old(Exact()) ==> Exact()) && View() == old(View()) && Entries() == old(Entries())
      ensures pageIndex < |old(pageRefCount)|
          && pageRefCount == old(pageRefCount)[pageIndex := Released(old(pageRefCount)[pageIndex])]
      ensures freePages == if Released(old(pageRefCount)[pageIndex]) == 0 && pageIndex !in pageToTrieNode
          && pageIndex !in old(freePagesSet)
                           then old(freePages) + [pageIndex] else old(freePages)
      ensures triePages == if Released(old(pageRefCount)[pageIndex]) == 0 && pageIndex in pageToTrieNode
          && pageIndex !in old(triePagesSet)
                           then old(triePages) + [pageIndex] else old(triePages)
    {
      assert |pageRefCount| == maxPages;
      hide ValidState, ExactState, ViewIn, PlacesIn;
      pageRefCount := pageRefCount[pageIndex := pageRefCount[pageIndex] - 1];
      if pageRefCount[pageIndex] <= 0 {
        pageRefCount := pageRefCount[pageIndex := 0];
        if pageIndex in pageToTrieNode {
          if pageIndex !in triePagesSet {
            triePages := triePages + [pageIndex];
            triePagesSet := triePagesSet + {pageIndex};
          }
        } else {
          if pageIndex !in freePagesSet {
            freePages := freePages + [pageIndex];
            freePagesSet := freePagesSet + {pageIndex};
          }
        }
      }
      ReleasedOnce(old(S()), S(), pageIndex);
    }

    /** Drops one reference for every entry of the list. The pages that lose their last one go to the ends of their
        pools,
        in the order in which they lose it. */
    method ReleasePageIndices(pageIndices: seq<int>)
      requires Valid() && forall i :: 0 <= i < |pageIndices| ==> 0 <= pageIndices[i] < maxPages
      modifies this`pageRefCount, this`freePages, this`freePagesSet, this`triePages, this`triePagesSet
      ensures Valid() && (old(Exact()) ==> Exact()) && View() == old(View()) && Entries() == old(Entries())
      ensures |old(pageRefCount)| == maxPages && pageRefCount == ReleasedAll(old(pageRefCount), pageIndices)
      ensures freePages == old(freePages) + Emptied(old(pageRefCount), pageIndices, pageToTrieNode.Keys, false)
      ensures triePages == old(triePages) + Emptied(old(pageRefCount), pageIndices, pageToTrieNode.Keys, true)
    {
      CountsIn(S());
      hide ValidState, ExactState, ViewIn, PlacesIn, ReleasedSo;
      ghost var s := S();
      SoFarStart(s, pageIndices);
      for i := 0 to |pageIndices|
        invariant Valid() && (old(Exact()) ==> Exact()) && View() == old(View()) && Entries() == old(Entries())
        invariant ReleasedSo(s, pageRefCount, freePages, triePages, pageIndices[..i])
      {
        SoFarStep(s, S(), pageIndices, i);
        ReleasePageIndex(pageIndices[i]);
      }
      assert pageIndices[..|pageIndices|] == pageIndices;
      SoFarIs(s, pageRefCount, freePages, triePages, pageIndices);
    }

    /** Counts the references and takes the listed pages out of the two sets; the answers say which vector is out of
        date. */
    method PickEach(pageIds: seq<int>) returns (needRebuildFree: bool, needRebuildTrie: bool)
      requires forall i :: 0 <= i < |pageIds| ==> 0 <= pageIds[i] < |pageRefCount|
      requires freePagesSet !! triePagesSet
      modifies this`pageRefCount, this`freePagesSet, this`triePagesSet
      ensures pageRefCount == PickedAll(old(pageRefCount), pageIds)
      ensures freePagesSet == old(freePagesSet) - Listed(pageIds) && triePagesSet == old(triePagesSet) - Listed(pageIds)
      ensures !needRebuildFree ==> freePagesSet == old(freePagesSet)
      ensures !needRebuildTrie ==> triePagesSet == old(triePagesSet)
    {
      assert Listed([]) == {} && pageIds[..0] == [];
      hide Listed;
      needRebuildFree, needRebuildTrie := false, false;
      for i := 0 to |pageIds|
        invariant pageRefCount == PickedAll(old(pageRefCount), pageIds[..i])
        invariant freePagesSet == old(freePagesSet) - Listed(pageIds[..i])
        invariant triePagesSet == old(triePagesSet) - Listed(pageIds[..i])
        invariant !needRebuildFree ==> freePagesSet == old(freePagesSet)
        invariant !needRebuildTrie ==> triePagesSet == old(triePagesSet)
      {
        ListedStep(pageIds, i);
        var pageIndex := pageIds[i];
        pageRefCount := pageRefCount[pageIndex := pageRefCount[pageIndex] + 1];
        if pageIndex in freePagesSet {
          freePagesSet := freePagesSet - {pageIndex};
          needRebuildFree := true;
        } else if pageIndex in triePagesSet {
          triePagesSet := triePagesSet - {pageIndex};
          needRebuildTrie := true;
        }
      }
      assert pageIds[..|pageIds|] == pageIds;
    }

    /** Adds one reference for every entry of the list; the listed pages leave the pools. */
    method Pick(pageIds: seq<int>)
      requires Valid() && forall i :: 0 <= i < |pageIds| ==> 0 <= pageIds[i] < maxPages
      modifies this`pageRefCount, this`freePages, this`freePagesSet, this`triePages, this`triePagesSet
      ensures Valid() && (old(Exact()) ==> Exact()) && View() == old(View()) && Entries() == old(Entries())
      ensures |old(pageRefCount)| == maxPages && pageRefCount == PickedAll(old(pageRefCount), pageIds)
      ensures freePages == Keep(old(freePages), old(freePagesSet) - Listed(pageIds))
      ensures triePages == Keep(old(triePages), old(triePagesSet) - Listed(pageIds))
    {
      hide ValidState, ExactState, ViewIn, PlacesIn, Keep, Listed;
      PickedMany(S(), pageIds);
      var needRebuildFree, needRebuildTrie := PickEach(pageIds);
      freePages := RebuildIf(needRebuildFree, freePages, freePagesSet);
      triePages := RebuildIf(needRebuildTrie, triePages, triePagesSet);
    }

    /** Takes page oldPid off its node; if the page was idle it moves to the free pool. */
    method UnmapPage(oldPid: int)
      requires Valid()
      modifies this`pageToTrieNode, this`triePages, this`triePagesSet, this`freePages, this`freePagesSet
      ensures pageToTrieNode == old(pageToTrieNode) - {oldPid}
      ensures PoolInv(maxPages, pageRefCount, freePages, freePagesSet, triePages, triePagesSet,
          old(pageToTrieNode).Keys - {oldPid})
    {
      assert oldPid in triePagesSet ==> oldPid in triePages;
      hide ValidState, PoolInv;
      pageToTrieNode := pageToTrieNode - {oldPid};
      if oldPid in triePagesSet {
        triePagesSet := triePagesSet - {oldPid};
        triePages := RemovePage(triePages, oldPid);
        freePages := freePages + [oldPid];
        freePagesSet := freePagesSet + {oldPid};
      } else {
        assert triePagesSet - {oldPid} == triePagesSet;
      }
      Unmapped(old(S()), oldPid, freePages, freePagesSet, triePages, triePagesSet);
    }

    /** If the node holds a page other than pid, that page loses its place. */
    method VacateNode(child: nat, pid: int)
      requires Valid() && child in nodes && nodes[child].pageId != -1
      modifies this`pageToTrieNode, this`triePages, this`triePagesSet, this`freePages, this`freePagesSet
      ensures pageToTrieNode == if nodes[child].pageId != pid then old(pageToTrieNode) - {nodes[child].pageId}
          else old(pageToTrieNode)
      ensures PoolInv(maxPages, pageRefCount, freePages, freePagesSet, triePages, triePagesSet, pageToTrieNode.Keys)
    {
      assert PoolInv(maxPages, pageRefCount, freePages, freePagesSet, triePages, triePagesSet, pageToTrieNode.Keys);
      hide ValidState, PoolInv;
      if nodes[child].pageId != -1 && nodes[child].pageId != pid {
        UnmapPage(nodes[child].pageId);
        assert pageToTrieNode.Keys == old(pageToTrieNode).Keys - {nodes[child].pageId};
      }
    }

    /** A free page that is about to enter the trie moves to the trie pool. */
    method MapPage(pid: int)
      requires PoolInv(maxPages, pageRefCount, freePages, freePagesSet, triePages, triePagesSet, pageToTrieNode.Keys)
      requires 0 <= pid < maxPages
      modifies this`triePages, this`triePagesSet, this`freePages, this`freePagesSet
      ensures PoolInv(maxPages, pageRefCount, freePages, freePagesSet, triePages, triePagesSet,
          pageToTrieNode.Keys + {pid})
    {
      if pid !in pageToTrieNode {
        if pid in freePagesSet {
          assert pid in freePages && pageRefCount[pid] == 0;
          hide PoolInv;
          freePagesSet := freePagesSet - {pid};
          freePages := RemovePage(freePages, pid);
          if pageRefCount[pid] <= 0 {
            triePages := triePages + [pid];
            triePagesSet := triePagesSet + {pid};
          }
          ghost var j :| 0 <= j < |old(freePages)| && old(freePages)[j] == pid
              && freePages == SwapRemove(old(freePages), j);
          MapSwapped(maxPages, pageRefCount, old(freePages), old(freePagesSet), old(triePages), old(triePagesSet),
                     pageToTrieNode.Keys, pid, j);
        }
      } else {
        assert pageToTrieNode.Keys + {pid} == pageToTrieNode.Keys;
      }
    }

    /** Makes an empty node and links it in under node cur. */
    method LinkChild(cur: nat, h: nat, extra: string) returns (child: nat)
      requires cur in nodes && cur in path && cur != nextNode
      modifies this`nextNode, this`nodes, this`path, this`at
      ensures child == old(nextNode) && nextNode == child + 1 && child in nodes
          && nodes[child] == CacheTrieNode(-1, 0, extra, map[], cur, h)
      ensures nodes == Linked(old(nodes), cur, h, child, extra)
      ensures path == old(path)[child := old(path)[cur] + [Edge(h, extra)]] && at == old(at)[path[child] := child]
    {
      child := nextNode;
      nextNode := nextNode + 1;
      nodes := nodes[child := CacheTrieNode(-1, 0, extra, map[], cur, h)];
      nodes := nodes[cur := nodes[cur].(children := nodes[cur].children[h := child])];
      path := path[child := path[cur] + [Edge(h, extra)]];
      at := at[path[child] := child];
    }

    /** Gives a node its page and both their timestamp. */
    method LabelNode(node: nat, pid: int, ts: int, ghost keys: seq<PageKey>)
      requires node in nodes && 0 <= pid < |pageTimestamp|
      modifies this`nodes, this`pageTimestamp, this`pageToTrieNode, this`log
      ensures nodes == old(nodes)[node := old(nodes)[node].(pageId := pid, timestamp := ts)]
      ensures pageTimestamp == old(pageTimestamp)[pid := ts] && pageToTrieNode == old(pageToTrieNode)[pid := node]
      ensures log == old(log) + [Recorded(pid, keys)]
    {
      nodes := nodes[node := nodes[node].(pageId := pid, timestamp := ts)];
      pageTimestamp := pageTimestamp[pid := ts];
      pageToTrieNode := pageToTrieNode[pid := node];
      log := log + [Recorded(pid, keys)];
    }

    /** Links in a new node for page pid under node cur. */
    method RecordNew(cur: nat, h: nat, extra: string, pid: int, ts: int, ghost keys: seq<PageKey>) returns (child: nat)
      requires Valid() && cur in nodes && cur in path && h !in nodes[cur].children && 0 <= pid < |pageTimestamp|
      requires Edges(hash, keys) == path[cur] + [Edge(h, extra)]
      modifies this`nodes, this`nextNode, this`path, this`at, this`log, this`pageToTrieNode, this`pageTimestamp,
               this`triePages, this`triePagesSet, this`freePages, this`freePagesSet
      ensures pageTimestamp == old(pageTimestamp)[pid := ts]
      ensures RecordedAt(old(S()), S(), Edges(hash, keys), pid) && log == old(log) + [Recorded(pid, keys)]
      ensures child in nodes && child in path && path[child] == Edges(hash, keys)
      ensures pid in pageToTrieNode && pageToTrieNode[pid] == child
    {
      assert PoolInv(maxPages, pageRefCount, freePages, freePagesSet, triePages, triePagesSet, pageToTrieNode.Keys);
      assert |pageTimestamp| == maxPages && cur != nextNode;
      hide ValidState, PoolInv, RecordedAt, Linked, Edges;
      child := LinkChild(cur, h, extra);
      MapPage(pid);
      LabelNode(child, pid, ts, keys);
      RecordedNew(old(S()), S(), cur, h, extra, pid, ts, keys);
    }

    /** Gives the existing node child to page pid. */
    method RecordOld(child: nat, pid: int, ts: int, ghost keys: seq<PageKey>)
      requires Valid() && child in nodes && child in path && child != trieRoot && 0 <= pid < |pageTimestamp|
      requires Edges(hash, keys) == path[child]
      modifies this`nodes, this`log, this`pageToTrieNode, this`pageTimestamp,
               this`triePages, this`triePagesSet, this`freePages, this`freePagesSet
      ensures pageTimestamp == old(pageTimestamp)[pid := ts]
      ensures RecordedAt(old(S()), S(), Edges(hash, keys), pid) && log == old(log) + [Recorded(pid, keys)]
      ensures child in nodes && child in path && path[child] == Edges(hash, keys)
      ensures pid in pageToTrieNode && pageToTrieNode[pid] == child
    {
      assert PoolInv(maxPages, pageRefCount, freePages, freePagesSet, triePages, triePagesSet, pageToTrieNode.Keys);
      assert |pageTimestamp| == maxPages && nodes[child].pageId != -1;
      hide ValidState, PoolInv, RecordedAt, Edges;
      VacateNode(child, pid);
      MapPage(pid);
      assert (pageToTrieNode[pid := child]).Keys == pageToTrieNode.Keys + {pid};
      LabelNode(child, pid, ts, keys);
      RecordedOld(old(S()), S(), child, pid, ts, keys);
    }

    /** Records which page holds which page of tokens, along one path of the trie. A hash collision with another extra
        key ends the recording early. */
    method Record(tokens: seq<int>, pages: seq<int>, extraKeys: Option<seq<string>>)
      requires Valid()
      requires forall i :: 0 <= i < |RecordKeys(tokens, pageLen, extraKeys, pages)| ==> 0 <= pages[i] < maxPages
      modifies this`nodes, this`nextNode, this`path, this`at, this`log, this`pageToTrieNode, this`pageTimestamp,
          this`currentTimestamp,
               this`triePages, this`triePagesSet, this`freePages, this`freePagesSet
      ensures Valid() && currentTimestamp == old(currentTimestamp) + 1
      ensures var keys := RecordKeys(tokens, pageLen, extraKeys, pages);
              var q := Edges(hash, keys);
              var k := RecordDepth(old(View()), q);
              && View() == RecordView(old(View()), q, pages, k)
              && Entries() == RecordPlaces(old(Entries()), old(View()), q, pages, k)
              && log == old(log) + RecordedEvents(keys, pages, k)
              && pageTimestamp == Stamped(old(pageTimestamp), pages, k, currentTimestamp)
              && (old(Exact()) && CanRecord(old(S()), q, pages) ==>
                  Exact() && Recording(hash, old(Seen()), Seen(), keys, pages))
    {
      hide ValidState, ExactState, ViewIn, PlacesIn, CanRecord, Progress, RecordView, RecordPlaces, RecordDepth,
          Stamped;
      ghost var s0 := S();
      StampedNone(s0.stamps, pages, currentTimestamp + 1);
      if Exact() && CanRecord(s0, Edges(hash, RecordKeys(tokens, pageLen, extraKeys, pages)), pages) {
        CanWrite(s0, Edges(hash, RecordKeys(tokens, pageLen, extraKeys, pages)), pages);
      }
      currentTimestamp := currentTimestamp + 1;
      var ts := currentTimestamp;
      var keys := RecordKeys(tokens, pageLen, extraKeys, pages);
      ghost var q := Edges(hash, keys);
      RootNode(s0);
      ProgressStart(s0, q, pages);
      var cur := trieRoot;
      for i := 0 to |keys|
        invariant Valid() && currentTimestamp == ts && Progress(s0, S(), q, pages, i)
        invariant cur in nodes && cur in path && path[cur] == q[..i]
        invariant log == s0.log + RecordedEvents(keys, pages, i)
        invariant pageTimestamp == Stamped(s0.stamps, pages, i, ts)
      {
        StampedStep(s0.stamps, pages, i, ts);
        var child := RecordPage(cur, keys, pages, i, ts, s0, q);
        if child.None? {
          ProgressFacts(s0, S(), q, pages, i);
          return;
        }
        cur := child.value;
      }
      ProgressFacts(s0, S(), q, pages, |keys|);
    }

    /** One turn of a recording that started in state s0: page i is recorded at the child that its key selects, unless
        that child belongs to another extra key. */
    method RecordPage(cur: nat, keys: seq<PageKey>, pages: seq<int>, i: nat, ts: int, ghost s0: State, ghost q: Path)
      returns (next: Option<nat>)
      requires Valid() && i < |keys| && i < |pages| && 0 <= pages[i] < maxPages && q == Edges(hash, keys)
      requires Progress(s0, S(), q, pages, i) && cur in nodes && cur in path && path[cur] == q[..i]
      modifies this`nodes, this`nextNode, this`path, this`at, this`log, this`pageToTrieNode, this`pageTimestamp,
               this`triePages, this`triePagesSet, this`freePages, this`freePagesSet
      ensures Valid()
      ensures next.None? ==> S() == old(S()) && ValidState(s0) && RecordDepth(ViewIn(s0), q) == i
      ensures next.Some? ==>
                && Progress(s0, S(), q, pages, i + 1) && next.value in nodes && next.value in path
                    && path[next.value] == q[..i + 1]
                && log == old(log) + [Recorded(pages[i], keys[..i + 1])]
                    && pageTimestamp == old(pageTimestamp)[pages[i] := ts]
    {
      hide ValidState, ExactState, ViewIn, PlacesIn, RecordedAt, CanRecord, Progress, RecordView, RecordPlaces,
          RecordDepth;
      var h := hash(keys[i].tokens, keys[i].extra);
      var extra := keys[i].extra;
      EdgesPrefix(hash, keys, i);
      FindChild(S(), cur, h, extra);
      ghost var s := S();
      var child: nat;
      if h !in nodes[cur].children {
        child := RecordNew(cur, h, extra, pages[i], ts, keys[..i + 1]);
      } else {
        child := nodes[cur].children[h];
        if nodes[child].extraKey != extra {
          ProgressStops(s0, s, q, pages, i);
          ProgressFacts(s0, s, q, pages, i);
          return None;
        }
        RecordOld(child, pages[i], ts, keys[..i + 1]);
      }
      RecordedFacts(s, S(), q[..i + 1], pages[i]);
      ProgressStep(s0, s, S(), q, pages, i);
      return Some(child);
    }

    /** The cached pages along the path of the tokens, as far as they are cached. */
    method Query(tokens: seq<int>, extraKeys: Option<seq<string>>) returns (cachedPageIds: seq<int>)
      requires Valid()
      ensures forall i :: 0 <= i < |cachedPageIds| ==> 0 <= cachedPageIds[i] < maxPages
      ensures Exact() ==> cachedPageIds == QueryPages(View(), Edges(hash, PageKeys(tokens, pageLen, extraKeys)))
      ensures Exact() ==> forall i :: 0 <= i < |cachedPageIds| ==>
                RecordedFor(S(), cachedPageIds[i], Edges(hash, PageKeys(tokens, pageLen, extraKeys))[..i + 1])
    {
      hide ValidState, ExactState, ViewIn, PlacesIn, Searching, RecordedFor;
      var keys := PageKeys(tokens, pageLen, extraKeys);
      ghost var q := Edges(hash, keys);
      ghost var s := S();
      SearchStart(s, q);
      cachedPageIds := [];
      var cur := trieRoot;
      var i := 0;
      while i < |keys|
        invariant i <= |keys| && |cachedPageIds| == i && Searching(s, q, cachedPageIds, cur)
      {
        var h := hash(keys[i].tokens, keys[i].extra);
        var extra := keys[i].extra;
        assert q[i] == Edge(h, extra);
        SearchStep(s, q, cachedPageIds, cur);
        if h !in nodes[cur].children {
          break;
        }
        var child := nodes[cur].children[h];
        if nodes[child].extraKey != extra {
          break;
        }
        if nodes[child].pageId == -1 {
          break;
        }
        if pageTimestamp[nodes[child].pageId] != nodes[child].timestamp {
          break;
        }
        cachedPageIds := cachedPageIds + [nodes[child].pageId];
        cur := child;
        i := i + 1;
      }
      SearchPages(s, q, cachedPageIds, cur);
      if Exact() {
        SearchEnd(s, q, cachedPageIds, cur);
      }
    }
  }

  lemma CountsIn(s: State)
    requires ValidState(s)
    ensures |s.refCount| == s.maxPages && forall p :: 0 <= p < s.maxPages ==> s.refCount[p] >= 0
  {
  }

  /** Counts and pools after the listed pages were released in state s. */
  ghost predicate ReleasedSo(s: State, refCount: seq<int>, freePages: seq<int>, triePages: seq<int>, pages: seq<int>) {
    && (forall i :: 0 <= i < |pages| ==> 0 <= pages[i] < |s.refCount|)
    && refCount == ReleasedAll(s.refCount, pages)
    && freePages == s.freePages + Emptied(s.refCount, pages, s.mapping.Keys, false)
    && triePages == s.triePages + Emptied(s.refCount, pages, s.mapping.Keys, true)
  }

  lemma SoFarStart(s: State, pages: seq<int>)
    ensures ReleasedSo(s, s.refCount, s.freePages, s.triePages, pages[..0])
  {
    assert s.freePages + [] == s.freePages && s.triePages + [] == s.triePages;
  }

  lemma SoFarIs(s: State, refCount: seq<int>, freePages: seq<int>, triePages: seq<int>, pages: seq<int>)
    requires ReleasedSo(s, refCount, freePages, triePages, pages)
    ensures forall i :: 0 <= i < |pages| ==> 0 <= pages[i] < |s.refCount|
    ensures refCount == ReleasedAll(s.refCount, pages)
    ensures freePages == s.freePages + Emptied(s.refCount, pages, s.mapping.Keys, false)
    ensures triePages == s.triePages + Emptied(s.refCount, pages, s.mapping.Keys, true)
  {
  }

  lemma SoFarStep(s: State, t: State, pages: seq<int>, i: nat)
    requires i < |pages| && forall j :: 0 <= j < |pages| ==> 0 <= pages[j] < |s.refCount|
    requires ValidState(t) && t.maxPages == |s.refCount| && t.mapping == s.mapping
    requires forall p :: 0 <= p < |s.refCount| ==> s.refCount[p] >= 0
    requires ReleasedSo(s, t.refCount, t.freePages, t.triePages, pages[..i])
    ensures |t.refCount| == |s.refCount|
    ensures var p := pages[i];
      ReleasedSo(s, t.refCount[p := Released(t.refCount[p])],
                 if Released(t.refCount[p]) == 0 && p !in t.mapping && p !in t.freeSet then t.freePages + [p]
                 else t.freePages,
                 if Released(t.refCount[p]) == 0 && p in t.mapping && p !in t.trieSet then t.triePages + [p]
                 else t.triePages, pages[..i + 1])
  {
    EmptiedIn(t, s.refCount, pages, i);
    assert pages[..i + 1][..i] == pages[..i];
    hide Emptied, ValidState, Released;
    var p, mapped := pages[i], s.mapping.Keys;
    var last := Released(t.refCount[p]) == 0;
    Grown(t.freePages, s.freePages, Emptied(s.refCount, pages[..i], mapped, false),
          last && p !in t.mapping && p !in t.freeSet, p);
    Grown(t.triePages, s.triePages, Emptied(s.refCount, pages[..i], mapped, true),
          last && p in t.mapping && p !in t.trieSet, p);
    assert ReleasedAll(s.refCount, pages[..i + 1]) == t.refCount[p := Released(t.refCount[p])];
    hide ReleasedAll;
  }

  lemma Grown(pool: seq<int>, start: seq<int>, added: seq<int>, more: bool, p: int)
    requires pool == start + added
    ensures (if more then pool + [p] else pool) == start + (added + if more then [p] else [])
  {
  }
}
