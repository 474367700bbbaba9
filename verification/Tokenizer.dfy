/** The tokenizer: its vocabulary, and the score-driven byte pair encoding with a work queue. */
module Tokenizers {
  import opened Wrappers
  import opened TokenTrie
  import opened PairMerging
  import opened ScoreMerge
  import opened TextScan
  import opened TokenIds

  lemma {:induction false} BestExists(q: multiset<SymbolPair>) returns (top: SymbolPair)
    requires q != multiset{}
    ensures top in q && forall e :: e in q ==> !Less(top, e)
    decreases |q|
  {
    top :| top in q;
    var rest := q - multiset{top};
    if rest != multiset{} {
      var best := BestExists(rest);
      if Less(top, best) {
        top := best;
      }
    }
  }

  /** A priority queue; which of several equally good entries comes out first is left open. */
  class WorkQueue {
    var entries: multiset<SymbolPair>

    constructor ()
      ensures entries == multiset{}
    {
      entries := multiset{};
    }

    method Push(e: SymbolPair)
      modifies this
      ensures entries == old(entries) + multiset{e}
    {
      entries := entries + multiset{e};
    }

    method Pop() returns (top: SymbolPair)
      requires entries != multiset{}
      modifies this
      ensures top in old(entries) && (forall e :: e in old(entries) ==> !Less(top, e))
      ensures entries == old(entries) - multiset{top}
    {
      ghost var best := BestExists(entries);
      top :| top in entries && forall e :: e in entries ==> !Less(top, e);
      entries := entries - multiset{top};
    }
  }

  /** A string that starts a token leads to a node, and only such a string does. */
  lemma WalkIff(heap: Heap, root: nat, dict: Dict, t: string)
    requires Holds(heap, root, dict) && NoDeadEnds(heap, root, dict) && t != ""
    ensures Walk(heap, root, t).Some? <==> StartsToken(dict, t)
  {
    if StartsToken(dict, t) {
      var k :| k in dict && t <= k;
      assert TokenAt(heap, root, k) == Some(dict[k]);
      WalkPrefix(heap, root, k, |t|);
      assert k[..|t|] == t;
    }
  }

  /** A token leads to its node. */
  lemma TokenWalk(heap: Heap, root: nat, dict: Dict, t: string)
    requires Holds(heap, root, dict)
    ensures t in dict <==>
        Walk(heap, root, t).Some? && Walk(heap, root, t).value in heap
            && heap[Walk(heap, root, t).value].tokenId != NONE
    ensures t in dict ==>
        heap[Walk(heap, root, t).value].tokenId == dict[t].id && heap[Walk(heap, root, t).value].score == dict[t].score
  {
    assert TokenAt(heap, root, t) == if t in dict then Some(dict[t]) else None;
  }

  /** One byte further along a stretch of the input. */
  lemma WalkNext(heap: Heap, root: nat, path: map<nat, string>, s: string, i: nat, j: nat, now: nat)
    requires TreeInv(heap, root, path) && i <= j < |s| && Walk(heap, root, s[i..j]) == Some(now)
    ensures now in heap
    ensures Walk(heap, root, s[i..j + 1]) == if s[j] in heap[now].next then Some(heap[now].next[s[j]]) else None
  {
    WalkPath(heap, root, path, s[i..j]);
    WalkStep(heap, root, s[i..j], s[j]);
    assert s[i..j] + [s[j]] == s[i..j + 1];
  }

  /** Where the walk stops, no longer stretch leads anywhere. */
  lemma WalkStops(heap: Heap, root: nat, s: string, i: nat, j: nat, m: nat)
    requires i <= j <= m <= |s| && Walk(heap, root, s[i..j]).None?
    ensures Walk(heap, root, s[i..m]).None?
  {
    assert s[i..m][..j - i] == s[i..j];
    if Walk(heap, root, s[i..m]).Some? {
      WalkPrefix(heap, root, s[i..m], j - i);
    }
  }

  /** Marks that stand for a token id in the text itself are not modelled. */
  ghost predicate NoFixToken(s: string) {
    forall i: nat :: !FixTokenAt(s, i)
  }

  predicate FixTokenAt(s: string, i: nat) {
    i + 15 < |s| && s[i..i + 15] == "<FLM_FIX_TOKEN_"
  }

  /** Two symbols, if they are there and can be joined, lie next to each other, and the left one knows its node. */
  ghost predicate MayTry(s: string, heap: Heap, root: nat, symbols: seq<Symbol>, l: int, r: int)
    requires l < |symbols| && r < |symbols|
  {
    0 <= l && 0 <= r && symbols[l].len != 0 && symbols[r].len != 0 ==>
      && symbols[l].pos + symbols[l].len == symbols[r].pos && symbols[r].pos + symbols[r].len <= |s|
      && symbols[l].node.Some? && symbols[l].node == Walk(heap, root, s[symbols[l].pos..symbols[r].pos])
  }

  class Tokenizer {
    const root: Trie
    const specialRoot: Trie
    var tokenToStringDict: map<int, string>
    var tokenToScoreDict: map<int, real>
    var stringToTokenDict: map<string, int>
    var specialTokens: seq<string>

    ghost predicate Valid()
      reads this, root, specialRoot
    {
      root != specialRoot && root.Valid() && specialRoot.Valid()
    }

    /** The dictionaries agree with each other. */
    ghost predicate Agreeing()
      reads this, root, specialRoot
    {
      Consistent(root.dict, specialRoot.dict, stringToTokenDict, tokenToStringDict)
    }

    constructor ()
      ensures Valid() && Agreeing() && fresh(root) && fresh(specialRoot) && root.dict == map[]
          && specialRoot.dict == map[]
      ensures tokenToStringDict == map[] && tokenToScoreDict == map[] && stringToTokenDict == map[]
          && specialTokens == []
    {
      root := new Trie();
      specialRoot := new Trie();
      tokenToStringDict, tokenToScoreDict, stringToTokenDict, specialTokens := map[], map[], map[], [];
    }

    /** Adds a token to the vocabulary. With a new id the dictionaries stay in agreement. */
    method Insert(s: string, tokenId: int, score: real)
      requires Valid() && tokenId != NONE
      modifies this, root
      ensures Valid() && root.dict == old(root.dict)[s := Token(tokenId, score)]
          && specialRoot.dict == old(specialRoot.dict)
      ensures old(Agreeing()) && tokenId !in old(tokenToStringDict) ==> Agreeing()
      ensures tokenToStringDict == old(tokenToStringDict)[tokenId := s]
          && tokenToScoreDict == old(tokenToScoreDict)[tokenId := score]
      ensures stringToTokenDict == old(stringToTokenDict)[s := tokenId] && specialTokens == old(specialTokens)
    {
      hide Holds, TreeInv, NoDeadEnds, Consistent;
      if Agreeing() && tokenId !in tokenToStringDict {
        StillConsistent(root.dict, specialRoot.dict, stringToTokenDict, tokenToStringDict, s, tokenId, score);
      }
      root.Insert(s, tokenId, score);
      tokenToStringDict := tokenToStringDict[tokenId := s];
      tokenToScoreDict := tokenToScoreDict[tokenId := score];
      stringToTokenDict := stringToTokenDict[s := tokenId];
    }

    /** Follows the trie from a node over a stretch of the input, as far as it goes. */
    method Follow(node: nat, s: string, ghost start: nat, pos: nat, end: nat) returns (now: Option<nat>)
      requires Valid() && start <= pos <= end <= |s| && Walk(root.heap, root.root, s[start..pos]) == Some(node)
      ensures now == Walk(root.heap, root.root, s[start..end]) && (now.Some? ==> now.value in root.heap)
    {
      hide Walk, Holds, TreeInv, NoDeadEnds;
      now := Some(node);
      var i := pos;
      while i < end
        invariant pos <= i <= end && now.Some? && now == Walk(root.heap, root.root, s[start..i])
      {
        WalkNext(root.heap, root.root, root.path, s, start, i, now.value);
        if s[i] in root.heap[now.value].next {
          now := Some(root.heap[now.value].next[s[i]]);
        } else {
          WalkStops(root.heap, root.root, s, start, i + 1, end);
          return None;
        }
        i := i + 1;
      }
      WalkPath(root.heap, root.root, root.path, s[start..end]);
    }

    /** Queues two symbols if their strings together make a token. */
    method TryMergePairs(s: string, symbols: seq<Symbol>, l: int, r: int, q: WorkQueue)
      requires Valid() && -1 <= l < |symbols| && -1 <= r < |symbols| && MayTry(s, root.heap, root.root, symbols, l, r)
      modifies q
      ensures q.entries == Pushed(old(q.entries), PairEntry(s, root.dict, symbols, l, r))
    {
      hide Walk, Holds, TreeInv, NoDeadEnds;
      if l == -1 || r == -1 || symbols[l].len == 0 || symbols[r].len == 0 {
        return;
      }
      var end := symbols[r].pos + symbols[r].len;
      var now := Follow(symbols[l].node.value, s, symbols[l].pos, symbols[r].pos, end);
      TokenWalk(root.heap, root.root, root.dict, s[symbols[l].pos..end]);
      if now.None? || root.heap[now.value].tokenId == NONE {
        return;
      }
      q.Push(SymbolPair(root.heap[now.value].score, l, r, symbols[l].len + symbols[r].len));
    }

    /** How far the special tokens can be followed from i. */
    method FollowSpecial(s: string, i: nat) returns (now: nat, next: nat)
      requires Valid() && i < |s|
      ensures next == FarEnd(specialRoot.dict, s, i, i) && i <= next <= |s|
      ensures now in specialRoot.heap && Walk(specialRoot.heap, specialRoot.root, s[i..next]) == Some(now)
    {
      hide Walk, Holds, TreeInv, NoDeadEnds, StartsToken;
      now, next := specialRoot.root, i;
      assert s[i..i] == "";
      WalkStart(specialRoot.heap, specialRoot.root, specialRoot.path);
      while next < |s|
        invariant i <= next <= |s| && now in specialRoot.heap
            && Walk(specialRoot.heap, specialRoot.root, s[i..next]) == Some(now)
        invariant FarEnd(specialRoot.dict, s, i, next) == FarEnd(specialRoot.dict, s, i, i)
      {
        WalkNext(specialRoot.heap, specialRoot.root, specialRoot.path, s, i, next, now);
        WalkIff(specialRoot.heap, specialRoot.root, specialRoot.dict, s[i..next + 1]);
        if s[next] !in specialRoot.heap[now].next {
          break;
        }
        WalkPath(specialRoot.heap, specialRoot.root, specialRoot.path, s[i..next + 1]);
        now := specialRoot.heap[now].next[s[next]];
        next := next + 1;
      }
    }

    /** The shortest token from i. */
    method FindShortest(s: string, i: nat) returns (now: nat, end: nat)
      requires Valid() && i < |s|
      ensures ShortestEnd(root.dict, s, i, i + 1) == if end > i then Some(end) else None
      ensures end > i ==> end <= |s| && Walk(root.heap, root.root, s[i..end]) == Some(now)
    {
      hide Walk, Holds, TreeInv, NoDeadEnds, ShortestEnd;
      now, end := root.root, i;
      assert s[i..i] == "";
      WalkStart(root.heap, root.root, root.path);
      var j := i;
      while j < |s|
        invariant i <= j <= |s| && end == i && Walk(root.heap, root.root, s[i..j]) == Some(now)
        invariant forall m :: i < m <= j ==> s[i..m] !in root.dict
      {
        WalkNext(root.heap, root.root, root.path, s, i, j, now);
        TokenWalk(root.heap, root.root, root.dict, s[i..j + 1]);
        if s[j] in root.heap[now].next {
          WalkPath(root.heap, root.root, root.path, s[i..j + 1]);
          now := root.heap[now].next[s[j]];
          if root.heap[now].tokenId != NONE {
            end := j + 1;
            return;
          }
        } else {
          forall m | j < m <= |s| ensures s[i..m] !in root.dict {
            WalkStops(root.heap, root.root, s, i, j + 1, m);
            TokenWalk(root.heap, root.root, root.dict, s[i..m]);
          }
          return;
        }
        j := j + 1;
      }
    }

    /** The symbol at i, and where the next one starts. */
    method ScanSymbol(s: string, i: nat, count: nat) returns (symbol: Symbol, next: nat)
      requires Valid() && i < |s|
      ensures SymbolOk(s, root.heap, root.root, root.dict, symbol, next)
      ensures symbol.pos == i && symbol.prev == count - 1 && symbol.next == count + 1
      ensures next <= |s| && i < next
      ensures Scan(root.dict, specialRoot.dict, s, i)
          == [ItemOf(s, symbol, next)] + Scan(root.dict, specialRoot.dict, s, next)
    {
      hide Walk, Holds, TreeInv, NoDeadEnds, ShortestEnd, FarEnd;
      var special, far := FollowSpecial(s, i);
      TokenWalk(specialRoot.heap, specialRoot.root, specialRoot.dict, s[i..far]);
      if specialRoot.heap[special].tokenId != NONE && far > i {
        symbol := Symbol(None, i, 0, count - 1, count + 1, specialRoot.heap[special].tokenId);
        return symbol, far;
      }
      var now, end := FindShortest(s, i);
      if end > i {
        symbol := Symbol(Some(now), i, end - i, count - 1, count + 1, NONE);
        return symbol, end;
      }
      symbol := Symbol(None, i, 0, count - 1, count + 1, NONE);
      next := i + 1;
    }

    /** Cuts the input into symbols that are linked from left to right. */
    method ScanSymbols(s: string) returns (symbols: seq<Symbol>)
      requires Valid() && s != "" && NoFixToken(s)
      ensures Laid(s, root.heap, root.root, root.dict, symbols, Iota(|symbols|), |s|)
      ensures Items(s, root.heap, root.root, root.dict, symbols, Iota(|symbols|), |s|)
          == Scan(root.dict, specialRoot.dict, s, 0)
    {
      hide Scan, SymbolOk, ItemOf;
      symbols := [];
      var i := 0;
      while i < |s|
        invariant 0 <= i <= |s| && Scanned(s, root.heap, root.root, root.dict, symbols, i)
        invariant ScannedItems(s, root.heap, root.root, root.dict, symbols, i) + Scan(root.dict, specialRoot.dict, s, i)
               == Scan(root.dict, specialRoot.dict, s, 0)
      {
        var symbol, next := ScanSymbol(s, i, |symbols|);
        PushSymbol(s, root.heap, root.root, root.dict, symbols, i, symbol, next);
        symbols := symbols + [symbol];
        i := next;
      }
      ScanDone(root.dict, specialRoot.dict, s);
      ClosedLaid(s, root.heap, root.root, root.dict, symbols);
      symbols := Closed(symbols);
    }

    /** Queues every pair of neighbours that can be joined. */
    method QueueAll(s: string, symbols: seq<Symbol>) returns (workQueue: WorkQueue)
      requires Valid() && Laid(s, root.heap, root.root, root.dict, symbols, Iota(|symbols|), |s|)
      ensures fresh(workQueue) && AllSound(s, root.dict, symbols, workQueue.entries)
      ensures Covered(s, root.dict, symbols, Iota(|symbols|), workQueue.entries)
    {
      hide Laid, PairEntry, Sound, Covered, MayTry, AllSound;
      workQueue := new WorkQueue();
      SoundNone(s, root.dict, symbols);
      var i := 1;
      CoverNone(s, root.dict, symbols, workQueue.entries);
      while i < |symbols|
        invariant 1 <= i && (i <= |symbols| || (i == 1 && symbols == []))
        invariant AllSound(s, root.dict, symbols, workQueue.entries)
            && Covered(s, root.dict, symbols, Iota(i), workQueue.entries)
      {
        PairOk(s, root.heap, root.root, root.dict, symbols, Iota(|symbols|), i - 1);
        PushedSound(s, root.dict, symbols, workQueue.entries, i - 1, i);
        CoverMore(s, root.dict, symbols, i, workQueue.entries);
        TryMergePairs(s, symbols, i - 1, i, workQueue);
        i := i + 1;
      }
      CoverNone(s, root.dict, symbols, workQueue.entries);
    }

    /** Joins symbol r to its left neighbour l. */
    method JoinSymbols(s: string, symbols: seq<Symbol>, l: nat, r: nat, ghost order: seq<nat>, ghost k: nat)
      returns (joined: seq<Symbol>, node: Option<nat>)
      requires Valid() && Laid(s, root.heap, root.root, root.dict, symbols, order, |s|)
      requires k + 1 < |order| && order[k] == l && order[k + 1] == r && PairEntry(s, root.dict, symbols, l, r).Some?
      ensures node.Some? && node == Walk(root.heap, root.root, s[symbols[l].pos..symbols[r].pos + symbols[r].len])
      ensures joined == Join(symbols, l, r, node)
    {
      hide Walk, Holds, TreeInv, NoDeadEnds, Laid, Join;
      PairOk(s, root.heap, root.root, root.dict, symbols, order, k);
      TokenWalk(root.heap, root.root, root.dict, s[symbols[l].pos..symbols[r].pos + symbols[r].len]);
      node := Follow(symbols[l].node.value, s, symbols[l].pos, symbols[r].pos, symbols[r].pos + symbols[r].len);
      JoinUpdates(s, root.heap, root.root, root.dict, symbols, order, k, node);
      joined := Updates(symbols, l, r, node);
    }

    /** Joins pairs until the queue is empty; the symbols that remain are those of plain byte pair encoding. */
    method MergeSymbols(s: string, initial: seq<Symbol>) returns (symbols: seq<Symbol>, ghost order: seq<nat>)
      requires Valid() && Laid(s, root.heap, root.root, root.dict, initial, Iota(|initial|), |s|)
      ensures Laid(s, root.heap, root.root, root.dict, symbols, order, |s|)
      ensures Items(s, root.heap, root.root, root.dict, symbols, order, |s|)
           == Merged(CostsOf(root.dict), Items(s, root.heap, root.root, root.dict, initial, Iota(|initial|), |s|))
    {
      hide Laid, Walk, Holds, TreeInv, NoDeadEnds, AllSound, Sound, Covered, PairEntry, Items, Merged, Join, Without,
          Ready, UpToDate, CostsOf, AfterJoin;
      ghost var start := Items(s, root.heap, root.root, root.dict, initial, Iota(|initial|), |s|);
      symbols, order := initial, Iota(|initial|);
      var workQueue := QueueAll(s, symbols);
      ReadyStart(s, root.heap, root.root, root.dict, symbols, order, workQueue.entries);
      while workQueue.entries != multiset{}
        invariant Ready(s, root.heap, root.root, root.dict, symbols, order, workQueue.entries, start)
        decreases |order|, |workQueue.entries|
      {
        ghost var q := workQueue.entries;
        var top := workQueue.Pop();
        ReadySound(s, root.heap, root.root, root.dict, symbols, order, q, start, top);
        if !UpToDate(symbols, top) {
          StaleStep(s, root.heap, root.root, root.dict, symbols, order, q, start, top);
          continue;
        }
        ghost var k := TopAdjacent(s, root.heap, root.root, root.dict, symbols, order, q, start, top);
        var joined, node := JoinSymbols(s, symbols, top.l, top.r, order, k);
        JoinReady(s, root.heap, root.root, root.dict, symbols, order, k, node, top, q, start);
        JoinPairsOk(s, root.heap, root.root, root.dict, symbols, order, k, node);
        symbols := joined;
        order := Without(order, k + 1);
        TryMergePairs(s, symbols, symbols[top.l].prev, top.l, workQueue);
        TryMergePairs(s, symbols, top.l, symbols[top.l].next, workQueue);
        AfterJoinIs(s, root.dict, symbols, top.l, q - multiset{top});
      }
      ReadyDone(s, root.heap, root.root, root.dict, symbols, order, start);
    }

    /** Reads the ids off the symbols. */
    method CollectIds(s: string, symbols: seq<Symbol>, ghost order: seq<nat>) returns (v: seq<int>)
      requires Valid() && Laid(s, root.heap, root.root, root.dict, symbols, order, |s|)
      ensures v == AllIds(root.dict, stringToTokenDict, Items(s, root.heap, root.root, root.dict, symbols, order, |s|))
    {
      hide Laid, Walk, Holds, TreeInv, NoDeadEnds, Items, Ids, AllIds, ItemOf, SymbolOk, Passed;
      ghost var items := Items(s, root.heap, root.root, root.dict, symbols, order, |s|);
      v := [];
      var i := 0;
      ghost var k := 0;
      PassedStart(s, root.heap, root.root, root.dict, stringToTokenDict, symbols, order);
      while i < |symbols|
        invariant 0 <= i <= |symbols| && 0 <= k <= |items| == |order| && Passed(symbols, order, i, k)
        invariant v == AllIds(root.dict, stringToTokenDict, items[..k])
      {
        SymbolIds(s, root.heap, root.root, root.dict, stringToTokenDict, symbols, order, i, k);
        if symbols[i].len > 0 {
          v := v + [root.heap[symbols[i].node.value].tokenId];
        } else if symbols[i].node.None? {
          if symbols[i].fixId != NONE {
            v := v + [symbols[i].fixId];
          } else {
            var now := ByteName(s[symbols[i].pos]);
            if now in stringToTokenDict {
              v := v + [stringToTokenDict[now]];
            }
          }
        }
        k := if k < |order| && order[k] == i then k + 1 else k;
        i := i + 1;
      }
      PassedAll(s, root.heap, root.root, root.dict, symbols, order, k);
      assert items[..k] == items;
    }

    /** Encodes a normalised text: the ids are those of plain byte pair encoding on the scanned text. */
    method BytePairEncode(s: string) returns (v: seq<int>)
      requires Valid() && s != "" && NoFixToken(s)
      ensures v == AllIds(root.dict, stringToTokenDict, Encoded(root.dict, specialRoot.dict, s))
      ensures Agreeing() && OfBytes(s) ==>
          && |ShownAll(tokenToStringDict, v)| <= |s|
          && (ShownAll(tokenToStringDict, v) == s <==>
                forall item :: item in Encoded(root.dict, specialRoot.dict, s) ==> Restored(stringToTokenDict, item))
    {
      hide *;
      var initial := ScanSymbols(s);
      var symbols, order := MergeSymbols(s, initial);
      v := CollectIds(s, symbols, order);
      EncodedIs(root.dict, specialRoot.dict, s);
      if Agreeing() && OfBytes(s) {
        AgreeingIs();
        TextReturns(root.dict, specialRoot.dict, stringToTokenDict, tokenToStringDict, s);
      }
    }

    /** Puts the strings of the ids one behind the other, with the names of bytes read. An unknown id gets an empty
        string, which stays in the dictionary. */
    method DecodeTokens(tokens: seq<int>) returns (ret: string)
      modifies this`tokenToStringDict
      ensures ret == ShownAll(old(tokenToStringDict), tokens)
      ensures forall id :: StringOf(tokenToStringDict, id) == StringOf(old(tokenToStringDict), id)
      ensures old(tokenToStringDict).Keys <= tokenToStringDict.Keys
    {
      hide Shown;
      ret := "";
      for i := 0 to |tokens|
        invariant ret == ShownAll(old(tokenToStringDict), tokens[..i])
        invariant forall id :: StringOf(tokenToStringDict, id) == StringOf(old(tokenToStringDict), id)
        invariant old(tokenToStringDict).Keys <= tokenToStringDict.Keys
      {
        if tokens[i] !in tokenToStringDict {
          tokenToStringDict := tokenToStringDict[tokens[i] := ""];
        }
        ShownStep(old(tokenToStringDict), tokens, i);
        var s := ShowToken(tokenToStringDict[tokens[i]]);
        ret := ret + s;
      }
      assert tokens[..|tokens|] == tokens;
    }

    /** The text that one token is shown as. */
    method ShowToken(token: string) returns (s: string)
      ensures s == Shown(token)
    {
      s := token;
      if |s| == 6 && s[..3] == "<0x" && s[|s| - 1] == '>' {
        var c := 0;
        for i := 3 to 5
          invariant c == if i == 3 then 0 else if i == 4 then DigitValue(s[3])
                         else DigitValue(s[3]) * 16 + DigitValue(s[4])
        {
          c := c * 16;
          if '0' <= s[i] <= '9' {
            c := c + (s[i] as int - '0' as int);
          } else {
            c := c + (s[i] as int - 'A' as int + 10);
          }
        }
        s := [(c % 256) as char];
      }
      if s == "<n>" {
        s := "\n";
      } else if s == "<|tab|>" {
        s := "\t";
      }
    }

    lemma AgreeingIs()
      requires Agreeing()
      ensures Consistent(root.dict, specialRoot.dict, stringToTokenDict, tokenToStringDict)
    {
    }
  }

  lemma ShownStep(tokenToString: map<int, string>, tokens: seq<int>, i: nat)
    requires i < |tokens|
    ensures ShownAll(tokenToString, tokens[..i + 1])
         == ShownAll(tokenToString, tokens[..i]) + Shown(StringOf(tokenToString, tokens[i]))
  {
    assert tokens[..i + 1][..i] == tokens[..i];
  }

  lemma EncodedIs(dict: Dict, special: Dict, s: string)
    ensures Encoded(dict, special, s) == Merged(CostsOf(dict), Scan(dict, special, s, 0))
  {
  }

  /** The first k symbols of the list are those before symbol i. */
  ghost predicate Passed(symbols: seq<Symbol>, order: seq<nat>, i: nat, k: nat) {
    && k <= |order| && i <= |symbols|
    && (forall j :: 0 <= j < k ==> order[j] < i)
    && (forall j :: k <= j < |order| ==> order[j] >= i)
  }

  lemma PassedStart(s: string, heap: Heap, root: nat, dict: Dict, stringToToken: map<string, int>, symbols: seq<Symbol>,
      order: seq<nat>)
    requires Laid(s, heap, root, dict, symbols, order, |s|)
    ensures Passed(symbols, order, 0, 0) && |Items(s, heap, root, dict, symbols, order, |s|)| == |order|
    ensures AllIds(dict, stringToToken, Items(s, heap, root, dict, symbols, order, |s|)[..0]) == []
  {
  }

  lemma PassedAll(s: string, heap: Heap, root: nat, dict: Dict, symbols: seq<Symbol>, order: seq<nat>, k: nat)
    requires Laid(s, heap, root, dict, symbols, order, |s|) && Passed(symbols, order, |symbols|, k)
    ensures k == |order|
  {
    if |order| > 0 {
      assert order[|order| - 1] < |symbols|;
    }
  }

  lemma PassedStep(symbols: seq<Symbol>, order: seq<nat>, i: nat, k: nat)
    requires Passed(symbols, order, i, k) && Chain(symbols, order) && i < |symbols|
    ensures Passed(symbols, order, i + 1, if k < |order| && order[k] == i then k + 1 else k)
    ensures !(k < |order| && order[k] == i) ==> i !in order
  {
    assert forall j :: k < j < |order| ==> order[k] < order[j];
  }

  /** What symbol i adds to the ids. */
  lemma SymbolIds(s: string, heap: Heap, root: nat, dict: Dict, stringToToken: map<string, int>, symbols: seq<Symbol>,
      order: seq<nat>, i: nat, k: nat)
    requires Laid(s, heap, root, dict, symbols, order, |s|) && Holds(heap, root, dict)
    requires Passed(symbols, order, i, k) && i < |symbols|
    ensures |Items(s, heap, root, dict, symbols, order, |s|)| == |order|
    ensures Passed(symbols, order, i + 1, if k < |order| && order[k] == i then k + 1 else k)
    ensures symbols[i].len > 0 ==> symbols[i].node.Some? && symbols[i].node.value in heap
    ensures symbols[i].pos < |s|
    ensures var items := Items(s, heap, root, dict, symbols, order, |s|);
      AllIds(dict, stringToToken, items[..if k < |order| && order[k] == i then k + 1 else k])
      == AllIds(dict, stringToToken, items[..k]) + IdsOf(s, heap, stringToToken, symbols[i])
  {
    hide AllIds, Walk, Items, Ids, IdsOf, ItemOf;
    PassedStep(symbols, order, i, k);
    PassedStart(s, heap, root, dict, stringToToken, symbols, order);
    if k < |order| && order[k] == i {
      ItemAt(s, heap, root, dict, symbols, order, |s|, k);
      AllIdsStep(dict, stringToToken, Items(s, heap, root, dict, symbols, order, |s|), k);
      ItemIds(s, heap, root, dict, stringToToken, symbols[i], EndOf(symbols, order, |s|, k));
    } else {
      assert symbols[i].len == 0 && symbols[i].node.Some?;
      GoneIds(s, heap, stringToToken, symbols[i]);
      var before := AllIds(dict, stringToToken, Items(s, heap, root, dict, symbols, order, |s|)[..k]);
      assert before + [] == before;
    }
  }

  /** The ids that the loop appends for a symbol. */
  function IdsOf(s: string, heap: Heap, stringToToken: map<string, int>, symbol: Symbol): seq<int>
    requires symbol.pos < |s| && (symbol.len > 0 ==> symbol.node.Some? && symbol.node.value in heap)
  {
    if symbol.len > 0 then [heap[symbol.node.value].tokenId]
    else if symbol.node.Some? then []
    else if symbol.fixId != NONE then [symbol.fixId]
    else if ByteName(s[symbol.pos]) in stringToToken then [stringToToken[ByteName(s[symbol.pos])]]
    else []
  }

  lemma GoneIds(s: string, heap: Heap, stringToToken: map<string, int>, symbol: Symbol)
    requires symbol.pos < |s| && symbol.len == 0 && symbol.node.Some?
    ensures IdsOf(s, heap, stringToToken, symbol) == []
  {
  }

  lemma ItemIds(s: string, heap: Heap, root: nat, dict: Dict, stringToToken: map<string, int>, symbol: Symbol, end: nat)
    requires SymbolOk(s, heap, root, dict, symbol, end) && Holds(heap, root, dict)
    ensures symbol.pos < |s| && (symbol.len > 0 ==> symbol.node.Some? && symbol.node.value in heap)
    ensures IdsOf(s, heap, stringToToken, symbol) == Ids(dict, stringToToken, ItemOf(s, symbol, end))
  {
    TokenWalk(heap, root, dict, s[symbol.pos..end]);
  }

  /** What the ids stand for: strings that spell the text, of which no two neighbours can be joined; the pieces are
      tokens, and what is not a piece is a special token or a single byte that starts no token. */
  lemma EncodingMeaning(dict: Dict, special: Dict, s: string)
    ensures var items := Merged(CostsOf(dict), Scan(dict, special, s, 0));
      && Spell(items) == s
      && Stuck(CostsOf(dict), items)
      && Barriers(items) == Barriers(Scan(dict, special, s, 0))
      && forall item :: item in items && item.Piece? ==> item.text in dict
  {
    ScanSpells(dict, special, s, 0);
    var start := Scan(dict, special, s, 0);
    MergedMeaning(CostsOf(dict), start);
    assert s[0..] == s;
  }

  lemma ReadyStart(s: string, heap: Heap, root: nat, dict: Dict, symbols: seq<Symbol>, order: seq<nat>,
      q: multiset<SymbolPair>)
    requires Laid(s, heap, root, dict, symbols, order, |s|) && AllSound(s, dict, symbols, q)
        && Covered(s, dict, symbols, order, q)
    ensures Ready(s, heap, root, dict, symbols, order, q, Items(s, heap, root, dict, symbols, order, |s|))
  {
  }

  lemma ReadySound(s: string, heap: Heap, root: nat, dict: Dict, symbols: seq<Symbol>, order: seq<nat>,
      q: multiset<SymbolPair>, start: seq<Item>, top: SymbolPair)
    requires Ready(s, heap, root, dict, symbols, order, q, start) && top in q
    ensures Sound(s, dict, symbols, top) && 0 <= top.l < top.r < |symbols|
  {
  }

  lemma TopAdjacent(s: string, heap: Heap, root: nat, dict: Dict, symbols: seq<Symbol>, order: seq<nat>,
      q: multiset<SymbolPair>, start: seq<Item>, top: SymbolPair) returns (k: nat)
    requires Ready(s, heap, root, dict, symbols, order, q, start) && top in q && Sound(s, dict, symbols, top)
    requires 0 <= top.l < top.r < |symbols| && UpToDate(symbols, top)
    ensures Laid(s, heap, root, dict, symbols, order, |s|)
    ensures k + 1 < |order| && order[k] == top.l && order[k + 1] == top.r
        && PairEntry(s, dict, symbols, top.l, top.r) == Some(top)
  {
    k := UpToDateAdjacent(s, heap, root, dict, symbols, order, top);
  }

  /** What TryMergePairs needs to know about the joined symbol and its neighbours. */
  lemma JoinPairsOk(s: string, heap: Heap, root: nat, dict: Dict, symbols: seq<Symbol>, order: seq<nat>, k: nat,
      node: Option<nat>)
    requires Laid(s, heap, root, dict, symbols, order, |s|) && k + 1 < |order|
    requires PairEntry(s, dict, symbols, order[k], order[k + 1]).Some?
    requires node.Some?
    requires node == Walk(heap, root, s[symbols[order[k]].pos..symbols[order[k + 1]].pos + symbols[order[k + 1]].len])
    ensures order[k] < |symbols| && order[k + 1] < |symbols|
    ensures var symbols', l := Join(symbols, order[k], order[k + 1], node), order[k];
      && |symbols'| == |symbols| && -1 <= symbols'[l].prev < |symbols'| && -1 <= symbols'[l].next < |symbols'|
      && MayTry(s, heap, root, symbols', symbols'[l].prev, l) && MayTry(s, heap, root, symbols', l, symbols'[l].next)
    ensures |Without(order, k + 1)| < |order|
  {
    JoinSides(s, heap, root, dict, symbols, order, k, node);
    JoinLaid(s, heap, root, dict, symbols, order, k, node);
    var symbols', order' := Join(symbols, order[k], order[k + 1], node), Without(order, k + 1);
    assert |symbols'| == |symbols| && |order'| == |order| - 1;
    WithoutAt(order, k + 1, k);
    hide Join, Without, Laid, PairEntry, Items, MergeAt, Walk;
    if k > 0 {
      WithoutAt(order, k + 1, k - 1);
      PairOk(s, heap, root, dict, symbols', order', k - 1);
    }
    if k + 2 < |order| {
      WithoutAt(order, k + 1, k + 1);
      PairOk(s, heap, root, dict, symbols', order', k);
    }
  }

  lemma AfterJoinIs(s: string, dict: Dict, symbols: seq<Symbol>, l: nat, q: multiset<SymbolPair>)
    requires l < |symbols|
    ensures AfterJoin(s, dict, symbols, l, q)
         == Pushed(Pushed(q, PairEntry(s, dict, symbols, symbols[l].prev, l)),
             PairEntry(s, dict, symbols, l, symbols[l].next))
  {
  }

  lemma ReadyDone(s: string, heap: Heap, root: nat, dict: Dict, symbols: seq<Symbol>, order: seq<nat>, start: seq<Item>)
    requires Ready(s, heap, root, dict, symbols, order, multiset{}, start)
    ensures Laid(s, heap, root, dict, symbols, order, |s|)
    ensures Items(s, heap, root, dict, symbols, order, |s|) == Merged(CostsOf(dict), start)
  {
    EmptyIsStuck(s, heap, root, dict, symbols, order);
    MergedStuck(CostsOf(dict), Items(s, heap, root, dict, symbols, order, |s|));
  }

  /** The assignments to the two symbols and to the one behind them. */
  function Updates(symbols: seq<Symbol>, l: nat, r: nat, node: Option<nat>): seq<Symbol>
    requires l < r < |symbols| && symbols[r].next < |symbols|
  {
    var longer := symbols[l := symbols[l].(node := node, len := symbols[l].len + symbols[r].len)];
    var emptied := longer[r := longer[r].(len := 0)];
    var linked := emptied[l := emptied[l].(next := emptied[r].next)];
    if linked[r].next >= 0 then linked[linked[r].next := linked[linked[r].next].(prev := l)] else linked
  }

  lemma JoinUpdates(s: string, heap: Heap, root: nat, dict: Dict, symbols: seq<Symbol>, order: seq<nat>, k: nat,
      node: Option<nat>)
    requires Laid(s, heap, root, dict, symbols, order, |s|) && k + 1 < |order|
    ensures order[k] < order[k + 1] < |symbols| && symbols[order[k + 1]].next < |symbols|
    ensures Updates(symbols, order[k], order[k + 1], node) == Join(symbols, order[k], order[k + 1], node)
  {
    NextOf(symbols, order, k + 1);
    if k + 2 < |order| {
      NextOf(symbols, order, k + 2);
    }
    UpdatesJoin(symbols, order[k], order[k + 1], node);
  }

  lemma UpdatesJoin(symbols: seq<Symbol>, l: nat, r: nat, node: Option<nat>)
    requires l < r < |symbols| && symbols[r].next < |symbols| && (symbols[r].next < 0 || r < symbols[r].next)
    ensures Updates(symbols, l, r, node) == Join(symbols, l, r, node)
  {
    var u := Updates(symbols, l, r, node);
    forall i | 0 <= i < |symbols| ensures u[i] == Joined(symbols, l, r, node, i) {
    }
  }

  lemma SoundNone(s: string, dict: Dict, symbols: seq<Symbol>)
    ensures AllSound(s, dict, symbols, multiset{})
  {
  }

  lemma CoverNone(s: string, dict: Dict, symbols: seq<Symbol>, q: multiset<SymbolPair>)
    ensures Covered(s, dict, symbols, Iota(1), q) && Covered(s, dict, symbols, Iota(0), q)
  {
  }

  lemma CoverMore(s: string, dict: Dict, symbols: seq<Symbol>, n: nat, q: multiset<SymbolPair>)
    requires n >= 1 && Covered(s, dict, symbols, Iota(n), q)
    ensures Covered(s, dict, symbols, Iota(n + 1), Pushed(q, PairEntry(s, dict, symbols, n - 1, n)))
  {
    hide PairEntry;
    var q' := Pushed(q, PairEntry(s, dict, symbols, n - 1, n));
    var order := Iota(n + 1);
    forall k | 0 <= k < |order| - 1
      ensures var e := PairEntry(s, dict, symbols, order[k], order[k + 1]); e.Some? ==> e.value in q'
    {
      if k < n - 1 {
        assert Iota(n)[k] == k && Iota(n)[k + 1] == k + 1;
      }
    }
  }

  /** What TryMergePairs needs to know of two neighbours. */
  lemma PairOk(s: string, heap: Heap, root: nat, dict: Dict, symbols: seq<Symbol>, order: seq<nat>, k: nat)
    requires Laid(s, heap, root, dict, symbols, order, |s|) && k + 1 < |order|
    ensures order[k] < |symbols| && order[k + 1] < |symbols| && MayTry(s, heap, root, symbols, order[k], order[k + 1])
  {
    ItemAt(s, heap, root, dict, symbols, order, |s|, k);
    ItemAt(s, heap, root, dict, symbols, order, |s|, k + 1);
  }

  lemma ScanDone(dict: Dict, special: Dict, s: string)
    ensures Scan(dict, special, s, |s|) == []
  {
  }

  lemma WalkStart(heap: Heap, root: nat, path: map<nat, string>)
    requires TreeInv(heap, root, path)
    ensures root in heap && Walk(heap, root, "") == Some(root)
  {
  }
}
