/** The page manager keeps each of its two idle pools twice: as a vector, which gives the order in which pages are
    handed out, and as a hash set, which answers membership. This module relates the two forms and gives the two
    in-place edits the manager makes. */
module PageLists {

  /** The vector lists exactly the members of the set, each one once. */
  ghost predicate Lists(v: seq<int>, s: set<int>) {
    && (forall i :: 0 <= i < |v| ==> v[i] in s)
    && (forall p :: p in s ==> p in v)
    && (forall i, j :: 0 <= i < j < |v| ==> v[i] != v[j])
  }

  /** The pages that v lists. */
  ghost function Listed(v: seq<int>): set<int> {
    set p | p in v
  }

  lemma ListedStep(v: seq<int>, i: nat)
    requires i < |v|
    ensures v[..i + 1][..i] == v[..i] && Listed(v[..i + 1]) == Listed(v[..i]) + {v[i]} && Listed(v[..0]) == {}
  {
    assert v[..i + 1] == v[..i] + [v[i]];
  }

  lemma {:induction false} ListsSize(v: seq<int>, s: set<int>)
    requires Lists(v, s)
    ensures |v| == |s|
  {
    if v == [] {
      forall p ensures p !in s {
        assert p !in v;
      }
    } else {
      var rest := v[..|v| - 1];
      var last := v[|v| - 1];
      forall p | p in s - {last} ensures p in rest {
        var i :| 0 <= i < |v| && v[i] == p;
        assert rest[i] == p;
      }
      ListsSize(rest, s - {last});
      assert s == (s - {last}) + {last};
    }
  }

  lemma ListsPush(v: seq<int>, s: set<int>, p: int)
    requires Lists(v, s) && p !in s
    ensures Lists(v + [p], s + {p})
  {
    forall q | q in s + {p} ensures q in v + [p] {
      if q == p {
        assert (v + [p])[|v|] == p;
      }
    }
  }

  lemma ListsPop(v: seq<int>, s: set<int>)
    requires Lists(v, s) && v != []
    ensures v[|v| - 1] in s && Lists(v[..|v| - 1], s - {v[|v| - 1]})
  {
    var rest := v[..|v| - 1];
    forall q | q in s - {v[|v| - 1]} ensures q in rest {
      var i :| 0 <= i < |v| && v[i] == q;
      assert rest[i] == q;
    }
  }

  /** The subsequence of v whose pages are in s. */
  function Keep(v: seq<int>, s: set<int>): seq<int> {
    if v == [] then []
    else Keep(v[..|v| - 1], s) + if v[|v| - 1] in s then [v[|v| - 1]] else []
  }

  lemma {:induction false} KeepMembers(v: seq<int>, s: set<int>)
    ensures forall p :: p in Keep(v, s) <==> p in v && p in s
  {
    if v != [] {
      KeepMembers(v[..|v| - 1], s);
      assert v == v[..|v| - 1] + [v[|v| - 1]];
    }
  }

  /** Dropping the entries that left the set gives a vector for the smaller set. */
  lemma {:induction false} KeepLists(v: seq<int>, s: set<int>, t: set<int>)
    requires Lists(v, s) && t <= s
    ensures Lists(Keep(v, t), t)
  {
    KeepMembers(v, t);
    KeepDistinct(v, t);
  }

  lemma {:induction false} KeepDistinct(v: seq<int>, t: set<int>)
    requires forall i, j :: 0 <= i < j < |v| ==> v[i] != v[j]
    ensures forall i, j :: 0 <= i < j < |Keep(v, t)| ==> Keep(v, t)[i] != Keep(v, t)[j]
  {
    if v != [] {
      var rest := v[..|v| - 1];
      KeepDistinct(rest, t);
      KeepMembers(rest, t);
      forall i | 0 <= i < |Keep(rest, t)| ensures Keep(rest, t)[i] != v[|v| - 1] {
        assert Keep(rest, t)[i] in Keep(rest, t);
      }
    }
  }

  /** The rebuild loop of the manager: shift the surviving entries down, then cut the tail. */
  method Compact(v: seq<int>, s: set<int>) returns (r: seq<int>)
    ensures r == Keep(v, s)
  {
    r := v;
    var w := 0;
    for i := 0 to |v|
      invariant 0 <= w <= i && |r| == |v|
      invariant r[i..] == v[i..]
      invariant r[..w] == Keep(v[..i], s)
    {
      assert v[..i + 1][..i] == v[..i];
      assert r[i] == r[i..][0] == v[i];
      if r[i] in s {
        r := r[w := r[i]];
        w := w + 1;
      }
    }
    assert v[..|v|] == v;
    r := r[..w];
  }

  method RebuildIf(outOfDate: bool, v: seq<int>, s: set<int>) returns (r: seq<int>)
    requires !outOfDate ==> Keep(v, s) == v
    ensures r == Keep(v, s)
  {
    r := v;
    if outOfDate {
      r := Compact(v, s);
    }
  }

  /** v with its last entry moved over position j. */
  function SwapRemove(v: seq<int>, j: nat): seq<int>
    requires j < |v|
  {
    v[j := v[|v| - 1]][..|v| - 1]
  }

  lemma SwapRemoveLists(v: seq<int>, s: set<int>, j: nat)
    requires Lists(v, s) && j < |v|
    ensures Lists(SwapRemove(v, j), s - {v[j]})
  {
    var r := SwapRemove(v, j);
    forall p | p in s - {v[j]} ensures p in r {
      var i :| 0 <= i < |v| && v[i] == p;
      if i == |v| - 1 {
        assert r[j] == p;
      } else {
        assert r[i] == p;
      }
    }
  }

  /** The search-from-the-back loop that takes one page out of a vector. */
  method RemovePage(v: seq<int>, p: int) returns (r: seq<int>)
    ensures p !in v ==> r == v
    ensures p in v ==> exists j :: 0 <= j < |v| && v[j] == p && p !in v[j + 1..] && r == SwapRemove(v, j)
  {
    r := v;
    var j := |v| - 1;
    while j >= 0
      invariant -1 <= j < |v|
      invariant r == v
      invariant p !in v[j + 1..]
    {
      if r[j] == p {
        r := r[j := r[|r| - 1]];
        r := r[..|r| - 1];
        assert r == SwapRemove(v, j);
        return;
      }
      assert v[j..] == [v[j]] + v[j + 1..];
      j := j - 1;
    }
    assert v[0..] == v;
  }
}
