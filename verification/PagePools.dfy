/** The accounting of pages: every page is free, idle but cached, or in use. */
module PagePools {
  import opened PageLists

  /** mapped is the set of pages that the reverse map sends to a trie node. */
  ghost predicate PoolInv(maxPages: nat, refCount: seq<int>, freePages: seq<int>, freeSet: set<int>,
                          triePages: seq<int>, trieSet: set<int>, mapped: set<int>)
  {
    && |refCount| == maxPages
    && (forall p :: 0 <= p < maxPages ==> refCount[p] >= 0)
    && Lists(freePages, freeSet) && Lists(triePages, trieSet)
    && (forall p :: p in freeSet ==> 0 <= p < maxPages && refCount[p] == 0 && p !in mapped)
    && (forall p :: p in trieSet ==> 0 <= p < maxPages && refCount[p] == 0 && p in mapped)
    && (forall p :: 0 <= p < maxPages && refCount[p] == 0 ==> p in freeSet || p in trieSet)
  }

  ghost function InUse(refCount: seq<int>): set<int> {
    set p | 0 <= p < |refCount| && refCount[p] > 0
  }

  /** Each page is in exactly one of the free pool, the trie pool and the pages in use. */
  lemma Partition(maxPages: nat, refCount: seq<int>, freePages: seq<int>, freeSet: set<int>,
                  triePages: seq<int>, trieSet: set<int>, mapped: set<int>)
    requires PoolInv(maxPages, refCount, freePages, freeSet, triePages, trieSet, mapped)
    ensures freeSet !! trieSet !! InUse(refCount)
    ensures freeSet + trieSet + InUse(refCount) == UpTo(maxPages)
    ensures |freePages| + |triePages| + |InUse(refCount)| == maxPages
  {
    ListsSize(freePages, freeSet);
    ListsSize(triePages, trieSet);
    assert freeSet + trieSet + InUse(refCount) == UpTo(maxPages);
    assert |freeSet + trieSet| == |freeSet| + |trieSet|;
    UpToSize(maxPages);
  }

  lemma PoolsApart(maxPages: nat, refCount: seq<int>, freePages: seq<int>, freeSet: set<int>,
                   triePages: seq<int>, trieSet: set<int>, mapped: set<int>)
    requires PoolInv(maxPages, refCount, freePages, freeSet, triePages, trieSet, mapped)
    ensures freeSet !! trieSet
  {
    forall p: int | p in freeSet ensures p !in trieSet {
    }
  }

  /** The pages of a manager with n pages. */
  ghost function UpTo(n: nat): (s: set<int>)
    ensures forall p :: p in s <==> 0 <= p < n
  {
    if n == 0 then {} else UpTo(n - 1) + {n - 1}
  }

  lemma {:induction false} UpToSize(n: nat)
    ensures |UpTo(n)| == n
  {
    if n > 0 {
      UpToSize(n - 1);
    }
  }

  /** All pages of a manager with n pages, in order. */
  function AllPages(n: nat): (v: seq<int>)
    ensures |v| == n && forall p :: 0 <= p < n ==> v[p] == p
  {
    if n == 0 then [] else AllPages(n - 1) + [n - 1]
  }

  function Zeros(n: nat): (v: seq<int>)
    ensures |v| == n && forall p :: 0 <= p < n ==> v[p] == 0
  {
    if n == 0 then [] else Zeros(n - 1) + [0]
  }

  /** Before anything was handed out or recorded, all pages are free. */
  lemma EmptyPools(n: nat, s: set<int>, counts: seq<int>, mapped: set<int>)
    requires counts == Zeros(n) && mapped == {} && forall p :: p in s <==> 0 <= p < n
    ensures PoolInv(n, counts, AllPages(n), s, [], {}, mapped)
  {
    assert forall p :: p in s ==> AllPages(n)[p] == p;
  }

  /** Dropping one reference never takes a count below zero. */
  function Released(count: int): int {
    if count - 1 <= 0 then 0 else count - 1
  }

  /** The counts after each listed page lost one reference, in order. */
  function ReleasedAll(refCount: seq<int>, pages: seq<int>): (r: seq<int>)
    requires forall i :: 0 <= i < |pages| ==> 0 <= pages[i] < |refCount|
    ensures |r| == |refCount|
  {
    if pages == [] then refCount
    else
      var before := ReleasedAll(refCount, pages[..|pages| - 1]);
      before[pages[|pages| - 1] := Released(before[pages[|pages| - 1]])]
  }

  /** The counts after each listed page gained one reference. */
  function PickedAll(refCount: seq<int>, pages: seq<int>): (r: seq<int>)
    requires forall i :: 0 <= i < |pages| ==> 0 <= pages[i] < |refCount|
    ensures |r| == |refCount|
  {
    if pages == [] then refCount
    else
      var before := PickedAll(refCount, pages[..|pages| - 1]);
      before[pages[|pages| - 1] := before[pages[|pages| - 1]] + 1]
  }

  lemma {:induction false} PickedCount(refCount: seq<int>, pages: seq<int>, p: nat)
    requires forall i :: 0 <= i < |pages| ==> 0 <= pages[i] < |refCount|
    requires p < |refCount|
    ensures PickedAll(refCount, pages)[p] == refCount[p] + multiset(pages)[p]
  {
    if pages != [] {
      PickedCount(refCount, pages[..|pages| - 1], p);
      assert pages == pages[..|pages| - 1] + [pages[|pages| - 1]];
    }
  }

  lemma {:induction false} ReleasedCount(refCount: seq<int>, pages: seq<int>, p: nat)
    requires forall i :: 0 <= i < |pages| ==> 0 <= pages[i] < |refCount|
    requires p < |refCount| && refCount[p] >= 0
    ensures ReleasedAll(refCount, pages)[p] ==
            if refCount[p] >= multiset(pages)[p] then refCount[p] - multiset(pages)[p] else 0
  {
    if pages != [] {
      ReleasedCount(refCount, pages[..|pages| - 1], p);
      assert pages == pages[..|pages| - 1] + [pages[|pages| - 1]];
    }
  }

  /** The pages that lose their last reference when the listed pages are released, in the order in which they lose it,
      as
      far as they are in the trie, or as far as they are not. */
  function Emptied(refCount: seq<int>, pages: seq<int>, mapped: set<int>, inTrie: bool): seq<int>
    requires forall i :: 0 <= i < |pages| ==> 0 <= pages[i] < |refCount|
  {
    if pages == [] then []
    else
      var p := pages[|pages| - 1];
      Emptied(refCount, pages[..|pages| - 1], mapped, inTrie)
      + if multiset(pages)[p] == refCount[p] && (p in mapped <==> inTrie) then [p] else []
  }

  /** One page of a list is released: it joins the pool that fits it exactly when it loses its last reference. */
  lemma EmptiedStep(n: nat, start: seq<int>, pages: seq<int>, i: nat, refCount: seq<int>, fp: seq<int>, fs: set<int>,
      tp: seq<int>, ts: set<int>, mapped: set<int>)
    requires forall j :: 0 <= j < |pages| ==> 0 <= pages[j] < |start|
    requires forall p :: 0 <= p < |start| ==> start[p] >= 0
    requires i < |pages| && refCount == ReleasedAll(start, pages[..i])
    requires PoolInv(n, refCount, fp, fs, tp, ts, mapped) && |start| == n
    ensures var p := pages[i];
      && Emptied(start, pages[..i + 1], mapped, false) == Emptied(start, pages[..i], mapped, false)
          + (if Released(refCount[p]) == 0 && p !in mapped && p !in fs then [p] else [])
      && Emptied(start, pages[..i + 1], mapped, true) == Emptied(start, pages[..i], mapped, true)
          + (if Released(refCount[p]) == 0 && p in mapped && p !in ts then [p] else [])
  {
    var p, more := pages[i], pages[..i + 1];
    assert more[..i] == pages[..i] && more == pages[..i] + [p];
    assert multiset(more)[p] == multiset(pages[..i])[p] + 1;
    ReleasedCount(start, pages[..i], p);
    hide ReleasedAll, Lists;
    assert refCount[p] == 0 ==> p in fs || p in ts;
  }

  /** Every holder that picked pages and releases them leaves the counts as they were. */
  lemma PickThenRelease(refCount: seq<int>, pages: seq<int>)
    requires forall i :: 0 <= i < |pages| ==> 0 <= pages[i] < |refCount|
    requires forall p :: 0 <= p < |refCount| ==> refCount[p] >= 0
    ensures ReleasedAll(PickedAll(refCount, pages), pages) == refCount
  {
    var r := ReleasedAll(PickedAll(refCount, pages), pages);
    forall p | 0 <= p < |refCount| ensures r[p] == refCount[p] {
      PickedCount(refCount, pages, p);
      ReleasedCount(PickedAll(refCount, pages), pages, p);
    }
  }

  /** Handing out the last free page. */
  lemma TakeFree(n: nat, refCount: seq<int>, fp: seq<int>, fs: set<int>, tp: seq<int>, ts: set<int>, mapped: set<int>)
    requires PoolInv(n, refCount, fp, fs, tp, ts, mapped) && fp != []
    ensures 0 <= fp[|fp| - 1] < n && refCount[fp[|fp| - 1]] == 0 && fp[|fp| - 1] !in mapped
    ensures PoolInv(n, refCount[fp[|fp| - 1] := 1], fp[..|fp| - 1], fs - {fp[|fp| - 1]}, tp, ts, mapped)
  {
    ListsPop(fp, fs);
  }

  /** Handing out page p of the trie pool after evicting the pages in gone: the idle ones among them become free. */
  lemma TakeCached(n: nat, refCount: seq<int>, fp: seq<int>, fs: set<int>, tp: seq<int>, ts: set<int>, mapped: set<int>,
                   p: int, gone: set<int>, fp': seq<int>, tp': seq<int>)
    requires PoolInv(n, refCount, fp, fs, tp, ts, mapped) && p in ts && p in gone
    requires Lists(fp', fs + (ts - {p}) * gone) && Lists(tp', ts - gone)
    ensures 0 <= p < n && refCount[p] == 0
    ensures PoolInv(n, refCount[p := 1], fp', fs + (ts - {p}) * gone, tp', ts - gone, mapped - gone)
  {
  }

  /** A page of the trie pool that lost its node becomes free; a page in use stays in use. */
  lemma Unmap(n: nat, refCount: seq<int>, fp: seq<int>, fs: set<int>, tp: seq<int>, ts: set<int>, mapped: set<int>,
              p: int, fp': seq<int>, tp': seq<int>)
    requires PoolInv(n, refCount, fp, fs, tp, ts, mapped)
    requires if p in ts then fp' == fp + [p] && Lists(tp', ts - {p}) else fp' == fp && tp' == tp
    ensures PoolInv(n, refCount, fp', if p in ts then fs + {p} else fs, tp', ts - {p}, mapped - {p})
  {
    if p in ts {
      ListsPush(fp, fs, p);
    } else {
      assert ts - {p} == ts;
    }
  }

  /** A free page that gets a node moves to the trie pool. */
  lemma Map(n: nat, refCount: seq<int>, fp: seq<int>, fs: set<int>, tp: seq<int>, ts: set<int>, mapped: set<int>,
            p: int, fp': seq<int>, tp': seq<int>)
    requires PoolInv(n, refCount, fp, fs, tp, ts, mapped) && 0 <= p < n
    requires if p in fs then tp' == tp + [p] && Lists(fp', fs - {p}) else fp' == fp && tp' == tp
    ensures PoolInv(n, refCount, fp', fs - {p}, tp', if p in fs then ts + {p} else ts, mapped + {p})
  {
    if p in fs {
      ListsPush(tp, ts, p);
    } else {
      assert fs - {p} == fs;
    }
  }

  lemma MapSwapped(n: nat, refCount: seq<int>, fp: seq<int>, fs: set<int>, tp: seq<int>, ts: set<int>, mapped: set<int>,
                   p: int, j: nat)
    requires PoolInv(n, refCount, fp, fs, tp, ts, mapped) && j < |fp| && fp[j] == p
    ensures p in fs && refCount[p] == 0
    ensures PoolInv(n, refCount, SwapRemove(fp, j), fs - {p}, tp + [p], ts + {p}, mapped + {p})
  {
    SwapRemoveLists(fp, fs, j);
    Map(n, refCount, fp, fs, tp, ts, mapped, p, SwapRemove(fp, j), tp + [p]);
  }

  /** Dropping one reference; the last one returns the page to the pool that fits it. */
  lemma Release(n: nat, refCount: seq<int>, fp: seq<int>, fs: set<int>, tp: seq<int>, ts: set<int>, mapped: set<int>,
      p: int)
    requires PoolInv(n, refCount, fp, fs, tp, ts, mapped) && 0 <= p < n
    ensures var toTrie := refCount[p] == 1 && p in mapped; var toFree := refCount[p] == 1 && p !in mapped;
            PoolInv(n, refCount[p := Released(refCount[p])],
                    if toFree then fp + [p] else fp, if toFree then fs + {p} else fs,
                    if toTrie then tp + [p] else tp, if toTrie then ts + {p} else ts, mapped)
  {
    if refCount[p] == 1 {
      if p in mapped {
        ListsPush(tp, ts, p);
      } else {
        ListsPush(fp, fs, p);
      }
    }
  }

  /** The pools after the listed pages gained references: they have left both pools. */
  lemma Pick(n: nat, refCount: seq<int>, fp: seq<int>, fs: set<int>, tp: seq<int>, ts: set<int>, mapped: set<int>,
      pages: seq<int>)
    requires PoolInv(n, refCount, fp, fs, tp, ts, mapped)
    requires forall i :: 0 <= i < |pages| ==> 0 <= pages[i] < n
    ensures var picked := Listed(pages);
            PoolInv(n, PickedAll(refCount, pages), Keep(fp, fs - picked), fs - picked, Keep(tp, ts - picked),
                ts - picked, mapped)
  {
    var picked := Listed(pages);
    KeepLists(fp, fs, fs - picked);
    KeepLists(tp, ts, ts - picked);
    forall p | 0 <= p < n ensures PickedAll(refCount, pages)[p] == refCount[p] + multiset(pages)[p] {
      PickedCount(refCount, pages, p);
    }
    assert forall p :: p in multiset(pages) <==> p in pages;
  }
}
