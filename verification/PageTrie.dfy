/** The prefix trie of the paged cache, with its node heap made explicit: nodes have ids, children are reached by hash,
    and a node that was deleted has left the heap. */
module PageTrie {

  /** An edge of the trie: the hash that selects the child, and the extra key the child was created with. */
  datatype Edge = Edge(hash: nat, extra: string)
  type Path = seq<Edge>

  datatype CacheTrieNode = CacheTrieNode(
    pageId: int,
    timestamp: int,
    extraKey: string,
    children: map<nat, nat>,
    parent: int,               // -1 for the root
    edgeHash: nat
  )

  const EMPTY_NODE := CacheTrieNode(-1, 0, "", map[], -1, 0)

  /** A heap of nodes with, for the proof, the path of every node and the node at every path. */
  datatype Trie = Trie(nodes: map<nat, CacheTrieNode>, root: nat, path: map<nat, Path>, at: map<Path, nat>)

  ghost predicate ChildOk(t: Trie, n: nat, h: nat)
    requires n in t.nodes && h in t.nodes[n].children && t.nodes.Keys <= t.path.Keys
  {
    var c := t.nodes[n].children[h];
    && c in t.nodes
    && t.path[c] == t.path[n] + [Edge(h, t.nodes[c].extraKey)]
    && t.nodes[c].parent == n && t.nodes[c].edgeHash == h
  }

  ghost predicate ParentOk(t: Trie, c: nat)
    requires c in t.nodes
  {
    var m := t.nodes[c].parent;
    && 0 <= m && m in t.nodes
    && t.nodes[c].edgeHash in t.nodes[m].children
    && t.nodes[m].children[t.nodes[c].edgeHash] == c
    && t.nodes[c].pageId >= 0
  }

  /** The heap is one finite tree: parent and edgeHash agree with children, and a path names one node. */
  ghost predicate TreeInv(t: Trie) {
    && t.root in t.nodes && t.nodes.Keys <= t.path.Keys
    && t.path[t.root] == []
    && t.nodes[t.root].pageId == -1 && t.nodes[t.root].parent == -1
    && (forall n :: n in t.nodes ==> t.path[n] in t.at && t.at[t.path[n]] == n)
    && (forall q :: q in t.at ==> t.at[q] in t.nodes && t.path[t.at[q]] == q)
    && (forall n, h {:trigger ChildOk(t, n, h)} :: n in t.nodes && h in t.nodes[n].children ==> ChildOk(t, n, h))
    && (forall c {:trigger ParentOk(t, c)} :: c in t.nodes && c != t.root ==> ParentOk(t, c))
  }

  /** The ids of node n and of everything below it. */
  ghost function Subtree(t: Trie, n: nat): set<nat>
    requires TreeInv(t) && n in t.nodes
  {
    set m | m in t.nodes && t.path[n] <= t.path[m]
  }

  /** The pages held by a set of nodes. */
  ghost function PagesOf(t: Trie, ids: set<nat>): set<int> {
    set m | m in ids && m in t.nodes && t.nodes[m].pageId >= 0 :: t.nodes[m].pageId
  }

  const EMPTY_TRIE := Trie(map[0 := EMPTY_NODE], 0, map[0 := []], map[[] := 0])

  lemma EmptyTrieInv()
    ensures TreeInv(EMPTY_TRIE)
  {
  }

  lemma RootPath(t: Trie, n: nat)
    requires TreeInv(t) && n in t.nodes
    ensures n == t.root <==> t.path[n] == []
  {
  }

  /** Removing the last edge of a path leads to the parent. */
  lemma ParentPath(t: Trie, c: nat)
    requires TreeInv(t) && c in t.nodes && c != t.root
    ensures t.nodes[c].parent >= 0 && t.nodes[c].parent in t.nodes
    ensures t.path[c] == t.path[t.nodes[c].parent] + [Edge(t.nodes[c].edgeHash, t.nodes[c].extraKey)]
  {
    assert ParentOk(t, c);
    assert ChildOk(t, t.nodes[c].parent, t.nodes[c].edgeHash);
  }

  /** The node at a path is the child that the last edge selects, and carries that edge's extra key. */
  lemma NodeAt(t: Trie, q: Path)
    requires TreeInv(t) && q in t.at && q != []
    ensures q[..|q| - 1] in t.at && t.at[q[..|q| - 1]] in t.nodes
    ensures t.at[q] != t.root && t.nodes[t.at[q]].extraKey == q[|q| - 1].extra
    ensures q[|q| - 1].hash in t.nodes[t.at[q[..|q| - 1]]].children
    ensures t.nodes[t.at[q[..|q| - 1]]].children[q[|q| - 1].hash] == t.at[q]
  {
    var c := t.at[q];
    ParentPath(t, c);
    assert t.path[t.nodes[c].parent] == q[..|q| - 1];
    assert ParentOk(t, c);
  }

  /** Every prefix of a path in the trie is in the trie. */
  lemma {:induction false} PrefixClosed(t: Trie, q: Path, k: nat)
    requires TreeInv(t) && q in t.at && k <= |q|
    ensures q[..k] in t.at
    decreases |q| - k
  {
    if k == |q| {
      assert q[..k] == q;
    } else {
      PrefixClosed(t, q, k + 1);
      var c := t.at[q[..k + 1]];
      ParentPath(t, c);
      assert t.path[t.nodes[c].parent] == q[..k + 1][..k] == q[..k];
    }
  }

  /** A path that strictly extends the path of n goes through exactly one child of n. */
  lemma ChildBelow(t: Trie, n: nat, m: nat) returns (h: nat)
    requires TreeInv(t) && n in t.nodes && m in t.nodes
    requires t.path[n] <= t.path[m] && m != n
    ensures h in t.nodes[n].children && t.nodes[n].children[h] in t.nodes
    ensures t.path[t.nodes[n].children[h]] <= t.path[m]
    ensures |t.path[n]| < |t.path[m]| && h == t.path[m][|t.path[n]|].hash
  {
    var k := |t.path[n]|;
    assert t.path[m] != t.path[n];
    var q := t.path[m][..k + 1];
    PrefixClosed(t, t.path[m], k + 1);
    var c := t.at[q];
    ParentPath(t, c);
    assert t.path[t.nodes[c].parent] == q[..k] == t.path[n];
    assert t.nodes[c].parent == n;
    h := t.nodes[c].edgeHash;
    assert ParentOk(t, c);
  }

  /** The subtree of n is n and the subtrees of its children, without overlap. */
  lemma SubtreeSplit(t: Trie, n: nat, m: nat)
    requires TreeInv(t) && n in t.nodes
    ensures m in Subtree(t, n) <==>
            m == n || exists h ::
                h in t.nodes[n].children && ChildOk(t, n, h) && m in Subtree(t, t.nodes[n].children[h])
  {
    if m in Subtree(t, n) && m != n {
      var h := ChildBelow(t, n, m);
      assert ChildOk(t, n, h);
    }
    forall h | h in t.nodes[n].children && ChildOk(t, n, h) && m in Subtree(t, t.nodes[n].children[h])
      ensures m in Subtree(t, n)
    {
      assert t.path[n] <= t.path[t.nodes[n].children[h]] <= t.path[m];
    }
  }

  lemma SiblingsApart(t: Trie, n: nat, g: nat, h: nat)
    requires TreeInv(t) && n in t.nodes && g in t.nodes[n].children && h in t.nodes[n].children
    ensures ChildOk(t, n, g) && ChildOk(t, n, h)
    ensures g != h ==> Subtree(t, t.nodes[n].children[g]) !! Subtree(t, t.nodes[n].children[h])
    ensures n !in Subtree(t, t.nodes[n].children[g])
  {
    var a, b := t.nodes[n].children[g], t.nodes[n].children[h];
    assert ChildOk(t, n, g) && ChildOk(t, n, h);
    var k := |t.path[n]|;
    assert forall m :: m in Subtree(t, a) ==> t.path[m][k].hash == g;
    assert forall m :: m in Subtree(t, b) ==> t.path[m][k].hash == h;
  }

  /** The heap after a new child c, still without a page, was linked in under node n. */
  function Linked(nodes: map<nat, CacheTrieNode>, n: nat, h: nat, c: nat, extra: string): map<nat, CacheTrieNode>
    requires n in nodes
  {
    var parent := nodes[n];
    nodes[c := CacheTrieNode(-1, 0, extra, map[], n, h)][n := parent.(children := parent.children[h := c])]
  }

  /** The trie after a new child c of n has been linked in under hash h. */
  ghost function AddChild(t: Trie, n: nat, h: nat, c: nat, extra: string, page: int, ts: int): Trie
    requires n in t.nodes && n in t.path
  {
    var q := t.path[n] + [Edge(h, extra)];
    Trie(Linked(t.nodes, n, h, c, extra)[c := CacheTrieNode(page, ts, extra, map[], n, h)],
         t.root, t.path[c := q], t.at[q := c])
  }

  lemma AddChildInv(t: Trie, n: nat, h: nat, c: nat, extra: string, page: int, ts: int)
    requires TreeInv(t) && n in t.nodes && h !in t.nodes[n].children && c !in t.nodes && page >= 0
    ensures t.path[n] + [Edge(h, extra)] !in t.at
    ensures TreeInv(AddChild(t, n, h, c, extra, page, ts))
  {
    var q := t.path[n] + [Edge(h, extra)];
    assert q[..|q| - 1] == t.path[n];
    if q in t.at {
      NodeAt(t, q);
      assert false;
    }
    var u := AddChild(t, n, h, c, extra, page, ts);
    assert c != n && c != t.root && c !in t.at.Values;
    forall m, g | m in u.nodes && g in u.nodes[m].children ensures ChildOk(u, m, g) {
      AddedChild(t, n, h, c, extra, page, ts, m, g);
    }
    forall m | m in u.nodes && m != u.root ensures ParentOk(u, m) {
      AddedParent(t, n, h, c, extra, page, ts, m);
    }
  }

  lemma AddedChild(t: Trie, n: nat, h: nat, c: nat, extra: string, page: int, ts: int, m: nat, g: nat)
    requires TreeInv(t) && n in t.nodes && h !in t.nodes[n].children && c !in t.nodes && page >= 0
    requires var u := AddChild(t, n, h, c, extra, page, ts);
        m in u.nodes && g in u.nodes[m].children && u.nodes.Keys <= u.path.Keys
    ensures ChildOk(AddChild(t, n, h, c, extra, page, ts), m, g)
  {
    if m != c && !(m == n && g == h) {
      assert ChildOk(t, m, g);
    }
  }

  lemma AddedParent(t: Trie, n: nat, h: nat, c: nat, extra: string, page: int, ts: int, m: nat)
    requires TreeInv(t) && n in t.nodes && h !in t.nodes[n].children && c !in t.nodes && page >= 0
    requires m in AddChild(t, n, h, c, extra, page, ts).nodes && m != t.root
    ensures ParentOk(AddChild(t, n, h, c, extra, page, ts), m)
  {
    if m != c {
      assert ParentOk(t, m);
    }
  }

  /** The trie after node n was given a page and a timestamp. */
  ghost function Relabel(t: Trie, n: nat, page: int, ts: int): Trie
    requires n in t.nodes
  {
    t.(nodes := t.nodes[n := t.nodes[n].(pageId := page, timestamp := ts)])
  }

  lemma RelabelInv(t: Trie, n: nat, page: int, ts: int)
    requires TreeInv(t) && n in t.nodes && n != t.root && page >= 0
    ensures TreeInv(Relabel(t, n, page, ts))
  {
    var u := Relabel(t, n, page, ts);
    forall m, g | m in u.nodes && g in u.nodes[m].children ensures ChildOk(u, m, g) {
      assert ChildOk(t, m, g);
    }
    forall m | m in u.nodes && m != u.root ensures ParentOk(u, m) {
      assert ParentOk(t, m);
    }
  }

  /** The trie without node n and everything below it. */
  ghost function Prune(t: Trie, n: nat): Trie
    requires TreeInv(t) && n in t.nodes && n != t.root
  {
    ParentPath(t, n);
    var m := t.nodes[n].parent;
    var parent := t.nodes[m];
    Trie(t.nodes[m := parent.(children := parent.children - {t.nodes[n].edgeHash})] - Subtree(t, n),
         t.root, t.path, map q | q in t.at && !(t.path[n] <= q) :: t.at[q])
  }

  /** The heap after node n was unlinked from its parent and deleted. */
  function Unlink(nodes: map<nat, CacheTrieNode>, n: nat): map<nat, CacheTrieNode>
    requires n in nodes && nodes[n].parent >= 0 && nodes[n].parent in nodes
  {
    var m := nodes[n].parent;
    nodes[m := nodes[m].(children := nodes[m].children - {nodes[n].edgeHash})] - {n}
  }

  /** Deleting everything below n and then unlinking n prunes n. */
  lemma UnlinkPrunes(t: Trie, n: nat)
    requires TreeInv(t) && n in t.nodes && n != t.root
    ensures var rest := t.nodes - (Subtree(t, n) - {n});
            && n in rest && t.nodes[n].parent >= 0 && t.nodes[n].parent in rest && t.nodes[n].parent != n
            && Unlink(rest, n) == Prune(t, n).nodes
  {
    ParentPath(t, n);
    assert t.path[n] <= t.path[n];
  }

  lemma PruneInv(t: Trie, n: nat)
    requires TreeInv(t) && n in t.nodes && n != t.root
    ensures TreeInv(Prune(t, n))
    ensures Prune(t, n).nodes.Keys == t.nodes.Keys - Subtree(t, n)
  {
    var u := Prune(t, n);
    ParentPath(t, n);
    var m := t.nodes[n].parent;
    assert m !in Subtree(t, n) && t.root !in Subtree(t, n);
    assert ParentOk(t, n);
    forall k | k in u.nodes ensures u.path[k] in u.at && u.at[u.path[k]] == k {
      assert !(t.path[n] <= t.path[k]);
    }
    forall k, g | k in u.nodes && g in u.nodes[k].children ensures ChildOk(u, k, g) {
      assert ChildOk(t, k, g);
      var c := t.nodes[k].children[g];
      assert t.path[k] == t.path[c][..|t.path[c]| - 1];
      assert k !in Subtree(t, n);
      assert c == n || t.path[c] != t.path[n];
      assert |t.path[n]| <= |t.path[k]| ==> t.path[c][..|t.path[n]|] == t.path[k][..|t.path[n]|];
    }
    forall c | c in u.nodes && c != u.root ensures ParentOk(u, c) {
      assert ParentOk(t, c);
      ParentPath(t, c);
      var k := t.nodes[c].parent;
      assert t.path[k] <= t.path[c];
    }
  }

  /** A node without children is its whole subtree. */
  lemma LeafSubtree(t: Trie, n: nat)
    requires TreeInv(t) && n in t.nodes && t.nodes[n].children == map[]
    ensures Subtree(t, n) == {n}
  {
    forall m | m in Subtree(t, n) ensures m == n {
      if m != n {
        var h := ChildBelow(t, n, m);
        assert false;
      }
    }
  }

  /** Half-way through the children of n: below holds the subtrees of the children that are done. */
  ghost predicate BelowInv(t: Trie, n: nat, todo: set<nat>, below: set<nat>)
    requires TreeInv(t) && n in t.nodes
  {
    && below <= Subtree(t, n) - {n}
    && forall h {:trigger ChildOk(t, n, h)} :: h in t.nodes[n].children ==>
         && ChildOk(t, n, h)
         && var sub := Subtree(t, t.nodes[n].children[h]);
            if h in todo then sub !! below else sub <= below
  }

  lemma BelowStep(t: Trie, n: nat, todo: set<nat>, below: set<nat>, h: nat)
    requires TreeInv(t) && n in t.nodes && h in t.nodes[n].children && h in todo && BelowInv(t, n, todo, below)
    ensures ChildOk(t, n, h) && Subtree(t, t.nodes[n].children[h]) < Subtree(t, n)
        && n !in Subtree(t, t.nodes[n].children[h])
    ensures Subtree(t, t.nodes[n].children[h]) !! below
    ensures BelowInv(t, n, todo - {h}, below + Subtree(t, t.nodes[n].children[h]))
  {
    var c := t.nodes[n].children[h];
    SiblingsApart(t, n, h, h);
    assert t.path[n] <= t.path[n];
    assert forall m :: m in Subtree(t, c) ==> t.path[n] <= t.path[m];
    forall g | g in t.nodes[n].children && g != h
      ensures ChildOk(t, n, g) && Subtree(t, c) !! Subtree(t, t.nodes[n].children[g])
    {
      SiblingsApart(t, n, g, h);
    }
  }

  lemma BelowDone(t: Trie, n: nat, below: set<nat>)
    requires TreeInv(t) && n in t.nodes && BelowInv(t, n, {}, below)
    ensures below == Subtree(t, n) - {n}
  {
    forall m | m in Subtree(t, n) - {n} ensures m in below {
      SubtreeSplit(t, n, m);
    }
  }
}
