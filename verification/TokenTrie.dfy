/** The byte trie of the tokenizer and the dictionary it stands for. */
module TokenTrie {
  import opened Wrappers

  datatype Token = Token(id: int, score: real)

  /** A node on the heap of the trie; children are found by byte. */
  datatype TrieNode = TrieNode(tokenId: int, score: real, next: map<char, nat>)

  /** The id of a node that ends no token. */
  const NONE := -999999

  type Heap = map<nat, TrieNode>

  type Dict = map<string, Token>

  /** The node that is reached by following s from the root. */
  function Walk(heap: Heap, root: nat, s: string): Option<nat> {
    if s == "" then Some(root)
    else
      var before := Walk(heap, root, s[..|s| - 1]);
      if before.Some? && before.value in heap && s[|s| - 1] in heap[before.value].next
      then Some(heap[before.value].next[s[|s| - 1]]) else None
  }

  /** Going on from a node by one byte. */
  lemma WalkStep(heap: Heap, root: nat, s: string, c: char)
    ensures Walk(heap, root, s + [c])
         == var before := Walk(heap, root, s);
            if before.Some? && before.value in heap
                && c in heap[before.value].next then Some(heap[before.value].next[c]) else None
  {
    assert (s + [c])[..|s|] == s;
  }

  lemma {:induction false} WalkPrefix(heap: Heap, root: nat, s: string, n: nat)
    requires n <= |s| && Walk(heap, root, s).Some?
    ensures Walk(heap, root, s[..n]).Some?
    decreases |s|
  {
    if n == |s| {
      assert s[..n] == s;
    } else {
      WalkPrefix(heap, root, s[..|s| - 1], n);
      assert s[..|s| - 1][..n] == s[..n];
    }
  }

  function TokenAt(heap: Heap, root: nat, s: string): Option<Token> {
    var n := Walk(heap, root, s);
    if n.Some? && n.value in heap
        && heap[n.value].tokenId != NONE then Some(Token(heap[n.value].tokenId, heap[n.value].score)) else None
  }

  /** The nodes form a tree: path gives the one string that leads to each node. */
  ghost predicate TreeInv(heap: Heap, root: nat, path: map<nat, string>) {
    && path.Keys == heap.Keys && root in heap && path[root] == ""
    && forall n, c :: n in heap && c in heap[n].next ==>
        heap[n].next[c] in heap && path[heap[n].next[c]] == path[n] + [c]
  }

  /** The tokens that the trie holds are those of the dictionary. */
  ghost predicate Holds(heap: Heap, root: nat, dict: Dict) {
    forall s: string :: TokenAt(heap, root, s) == if s in dict then Some(dict[s]) else None
  }

  /** Every node lies on the way to some token. */
  ghost predicate NoDeadEnds(heap: Heap, root: nat, dict: Dict) {
    forall s: string :: s != "" && Walk(heap, root, s).Some? ==> exists t :: t in dict && s <= t
  }

  lemma {:induction false} WalkPath(heap: Heap, root: nat, path: map<nat, string>, s: string)
    requires TreeInv(heap, root, path)
    ensures var n := Walk(heap, root, s); n.Some? ==> n.value in heap && path[n.value] == s
    decreases |s|
  {
    if s != "" {
      WalkPath(heap, root, path, s[..|s| - 1]);
      assert s == s[..|s| - 1] + [s[|s| - 1]];
    }
  }

  /** Adds an empty child. */
  function Grow(heap: Heap, n: nat, c: char, child: nat): Heap
    requires n in heap
  {
    heap[n := heap[n].(next := heap[n].next[c := child])][child := TrieNode(NONE, 0.0, map[])]
  }

  lemma GrowInv(heap: Heap, root: nat, path: map<nat, string>, n: nat, c: char, child: nat)
    requires TreeInv(heap, root, path) && n in heap && c !in heap[n].next && child !in heap
    ensures TreeInv(Grow(heap, n, c, child), root, path[child := path[n] + [c]])
  {
  }

  lemma {:induction false} GrowWalk(heap: Heap, root: nat, path: map<nat, string>, n: nat, c: char, child: nat,
      s: string)
    requires TreeInv(heap, root, path) && n in heap && c !in heap[n].next && child !in heap
    ensures var w, w' := Walk(heap, root, s), Walk(Grow(heap, n, c, child), root, s);
      if w.Some? then w' == w && w.value in heap else w' == None || (w' == Some(child) && s == path[n] + [c])
    decreases |s|
  {
    hide TreeInv;
    WalkPath(heap, root, path, s);
    if s != "" {
      var init, last := s[..|s| - 1], s[|s| - 1];
      GrowWalk(heap, root, path, n, c, child, init);
      WalkPath(heap, root, path, init);
      assert s == init + [last];
      hide Walk;
      WalkStep(heap, root, init, last);
      WalkStep(Grow(heap, n, c, child), root, init, last);
    }
  }

  /** An empty child changes no token. */
  lemma GrowTokens(heap: Heap, root: nat, path: map<nat, string>, n: nat, c: char, child: nat, dict: Dict)
    requires TreeInv(heap, root, path) && n in heap && c !in heap[n].next && child !in heap && Holds(heap, root, dict)
    ensures Holds(Grow(heap, n, c, child), root, dict)
  {
    forall s: string ensures TokenAt(Grow(heap, n, c, child), root, s) == TokenAt(heap, root, s) {
      GrowWalk(heap, root, path, n, c, child, s);
    }
  }

  function SetToken(heap: Heap, n: nat, token: Token): Heap
    requires n in heap
  {
    heap[n := heap[n].(tokenId := token.id, score := token.score)]
  }

  lemma {:induction false} SetTokenWalk(heap: Heap, root: nat, n: nat, token: Token, s: string)
    requires n in heap
    ensures Walk(SetToken(heap, n, token), root, s) == Walk(heap, root, s)
    decreases |s|
  {
    if s != "" {
      SetTokenWalk(heap, root, n, token, s[..|s| - 1]);
    }
  }

  /** Marking the node of t makes t a token, and changes no other. */
  lemma SetTokenHolds(heap: Heap, root: nat, path: map<nat, string>, n: nat, t: string, token: Token, dict: Dict)
    requires TreeInv(heap, root, path) && Walk(heap, root, t) == Some(n) && n in heap && token.id != NONE
        && Holds(heap, root, dict)
    ensures TreeInv(SetToken(heap, n, token), root, path) && Holds(SetToken(heap, n, token), root, dict[t := token])
  {
    forall s: string
      ensures TokenAt(SetToken(heap, n, token), root, s) == if s == t then Some(token) else TokenAt(heap, root, s)
    {
      SetTokenWalk(heap, root, n, token, s);
      WalkPath(heap, root, path, s);
      WalkPath(heap, root, path, t);
    }
  }

  lemma EmptyHolds(root: nat)
    ensures Holds(map[root := TrieNode(NONE, 0.0, map[])], root, map[])
    ensures NoDeadEnds(map[root := TrieNode(NONE, 0.0, map[])], root, map[])
  {
    var heap: Heap := map[root := TrieNode(NONE, 0.0, map[])];
    forall s: string ensures s != "" ==> Walk(heap, root, s) == None {
      if s != "" && s[..|s| - 1] != "" {
        WalkEmpty(root, s[..|s| - 1]);
      }
    }
  }

  lemma {:induction false} WalkEmpty(root: nat, s: string)
    requires s != ""
    ensures Walk(map[root := TrieNode(NONE, 0.0, map[])], root, s) == None
    decreases |s|
  {
    if s[..|s| - 1] != "" {
      WalkEmpty(root, s[..|s| - 1]);
    }
  }

  /** The children of the nodes on the way to t, while t is being inserted: there is nothing else that is new. */
  ghost predicate OnTheWay(heap: Heap, root: nat, dict: Dict, t: string) {
    forall s: string :: s != "" && Walk(heap, root, s).Some? ==> s <= t || exists k :: k in dict && s <= k
  }

  lemma GrowOnTheWay(heap: Heap, root: nat, path: map<nat, string>, n: nat, c: char, child: nat, dict: Dict, t: string)
    requires TreeInv(heap, root, path) && n in heap && c !in heap[n].next && child !in heap
    requires OnTheWay(heap, root, dict, t) && path[n] + [c] <= t
    ensures OnTheWay(Grow(heap, n, c, child), root, dict, t)
  {
    forall s: string | s != "" && Walk(Grow(heap, n, c, child), root, s).Some? ensures s <= t || exists k ::
        k in dict && s <= k {
      GrowWalk(heap, root, path, n, c, child, s);
    }
  }

  lemma InsertedNoDeadEnds(heap: Heap, root: nat, n: nat, token: Token, dict: Dict, t: string)
    requires n in heap && OnTheWay(heap, root, dict, t)
    ensures NoDeadEnds(SetToken(heap, n, token), root, dict[t := token])
  {
    var dict' := dict[t := token];
    forall s: string | s != "" && Walk(SetToken(heap, n, token), root, s).Some? ensures exists k ::
        k in dict' && s <= k {
      SetTokenWalk(heap, root, n, token, s);
      if s <= t {
        assert t in dict';
      } else {
        var k :| k in dict && s <= k;
        assert k in dict';
      }
    }
  }

  /** A trie on its own heap of nodes. */
  class Trie {
    var heap: Heap
    const root: nat
    ghost var path: map<nat, string>
    ghost var dict: Dict
    /** Where the next node is allocated. */
    var top: nat

    ghost predicate Valid()
      reads this
    {
      && TreeInv(heap, root, path) && Holds(heap, root, dict) && NoDeadEnds(heap, root, dict)
      && forall n :: n in heap ==> n < top
    }

    constructor ()
      ensures Valid() && dict == map[]
    {
      root, top := 0, 1;
      heap := map[0 := TrieNode(NONE, 0.0, map[])];
      path := map[0 := ""];
      dict := map[];
      EmptyHolds(0);
    }

    /** Adds a token, or replaces the id and score that its string had. */
    method Insert(s: string, tokenId: int, score: real)
      requires Valid() && tokenId != NONE
      modifies this
      ensures Valid() && dict == old(dict)[s := Token(tokenId, score)]
    {
      hide TreeInv, Holds, NoDeadEnds, OnTheWay, Walk;
      InsertStart(heap, root, path, dict, s);
      var now := root;
      var i := 0;
      while i < |s|
        invariant 0 <= i <= |s| && dict == old(dict)
        invariant TreeInv(heap, root, path) && Holds(heap, root, dict) && OnTheWay(heap, root, dict, s)
        invariant forall n :: n in heap ==> n < top
        invariant now in heap && now in path && path[now] == s[..i] && Walk(heap, root, s[..i]) == Some(now)
      {
        assert s[..i + 1] == s[..i] + [s[i]];
        if s[i] !in heap[now].next {
          var child := top;
          top := top + 1;
          InsertGrow(heap, root, path, now, s, i, child, dict);
          heap, path := Grow(heap, now, s[i], child), path[child := s[..i + 1]];
        }
        InsertWalk(heap, root, path, now, s, i);
        now := heap[now].next[s[i]];
        i := i + 1;
      }
      assert s[..|s|] == s;
      SetTokenHolds(heap, root, path, now, s, Token(tokenId, score), dict);
      InsertedNoDeadEnds(heap, root, now, Token(tokenId, score), dict, s);
      heap := SetToken(heap, now, Token(tokenId, score));
      dict := dict[s := Token(tokenId, score)];
    }
  }

  lemma InsertStart(heap: Heap, root: nat, path: map<nat, string>, dict: Dict, s: string)
    requires TreeInv(heap, root, path) && NoDeadEnds(heap, root, dict)
    ensures root in heap && root in path && path[root] == "" && Walk(heap, root, "") == Some(root) && s[..0] == ""
    ensures OnTheWay(heap, root, dict, s)
  {
  }

  lemma InsertGrow(heap: Heap, root: nat, path: map<nat, string>, now: nat, s: string, i: nat, child: nat, dict: Dict)
    requires i < |s| && TreeInv(heap, root, path) && Holds(heap, root, dict) && OnTheWay(heap, root, dict, s)
    requires now in heap && now in path && path[now] == s[..i] && Walk(heap, root, s[..i]) == Some(now)
    requires s[i] !in heap[now].next && child !in heap
    ensures var heap', path' := Grow(heap, now, s[i], child), path[child := s[..i + 1]];
      && TreeInv(heap', root, path') && Holds(heap', root, dict) && OnTheWay(heap', root, dict, s)
      && now in heap' && now in path' && path'[now] == s[..i] && Walk(heap', root, s[..i]) == Some(now)
          && s[i] in heap'[now].next
  {
    assert path[now] + [s[i]] == s[..i + 1];
    GrowInv(heap, root, path, now, s[i], child);
    GrowTokens(heap, root, path, now, s[i], child, dict);
    GrowOnTheWay(heap, root, path, now, s[i], child, dict, s);
    GrowWalk(heap, root, path, now, s[i], child, s[..i]);
  }

  lemma InsertWalk(heap: Heap, root: nat, path: map<nat, string>, now: nat, s: string, i: nat)
    requires i < |s| && TreeInv(heap, root, path) && now in heap && now in path && path[now] == s[..i]
    requires Walk(heap, root, s[..i]) == Some(now) && s[i] in heap[now].next
    ensures var n := heap[now].next[s[i]];
      n in heap && n in path && path[n] == s[..i + 1] && Walk(heap, root, s[..i + 1]) == Some(n)
  {
    assert s[..i + 1] == s[..i] + [s[i]];
    WalkStep(heap, root, s[..i], s[i]);
  }
}
