/** What the trie means to its users: which page is cached under which prefix. The view forgets node ids, timestamps and
    the reverse map. */
module PrefixView {
  import opened PageTrie

  type View = map<Path, int>

  ghost function ViewOf(t: Trie): View
    requires TreeInv(t)
  {
    map q | q in t.at && q != [] :: t.nodes[t.at[q]].pageId
  }

  /** The prefix that differs from q at most in its last extra key. */
  function Sibling(q: Path, extra: string): Path
    requires q != []
  {
    q[..|q| - 1] + [Edge(q[|q| - 1].hash, extra)]
  }

  /** Another prefix with the same parent and the same last hash, but another extra key, is present. */
  ghost predicate Collides(v: View, q: Path)
    requires q != []
  {
    exists e :: e != q[|q| - 1].extra && Sibling(q, e) in v
  }

  /** How many edges of q a recording writes: it stops at the first collision. */
  ghost function RecordDepth(v: View, q: Path): (d: nat)
    ensures d <= |q|
    ensures forall i :: 1 <= i <= d ==> !Collides(v, q[..i])
    ensures d < |q| ==> Collides(v, q[..d + 1])
  {
    if q == [] then 0
    else
      var last := |q| - 1;
      assert forall i :: 0 <= i <= last ==> q[..last][..i] == q[..i];
      assert q[..|q|] == q;
      var d := RecordDepth(v, q[..last]);
      if d == last && !Collides(v, q) then |q| else d
  }

  /** The view after the first k edges of q were given the first k pages. */
  ghost function RecordView(v: View, q: Path, pages: seq<int>, k: nat): View
    requires k <= |q| && k <= |pages|
  {
    if k == 0 then v else RecordView(v, q, pages, k - 1)[q[..k] := pages[k - 1]]
  }

  /** The length of the longest prefix of q all of whose non-empty prefixes are cached. */
  ghost function QueryDepth(v: View, q: Path): (d: nat)
    ensures d <= |q|
    ensures forall i :: 1 <= i <= d ==> q[..i] in v
    ensures d < |q| ==> q[..d + 1] !in v
  {
    if q == [] then 0
    else
      var last := |q| - 1;
      assert forall i :: 0 <= i <= last ==> q[..last][..i] == q[..i];
      assert q[..|q|] == q;
      var d := QueryDepth(v, q[..last]);
      if d == last && q in v then |q| else d
  }

  ghost function QueryPages(v: View, q: Path): seq<int> {
    seq(QueryDepth(v, q), i requires 0 <= i < QueryDepth(v, q) => v[q[..i + 1]])
  }

  /** The view after the prefix p, and with it everything below p, was evicted. */
  ghost function EvictView(v: View, p: Path): View {
    map q | q in v && !(p <= q) :: v[q]
  }

  /** The prefix under which a page is entered in the reverse map; a page can be cached under more, but is entered under
      one at most. */
  type Places = map<int, Path>

  /** Page p takes the prefix q over: the page that was cached there loses its entry. */
  ghost function Replaced(places: Places, v: View, q: Path, p: int): Places {
    (if q in v && v[q] != p then places - {v[q]} else places)[p := q]
  }

  lemma ReplacedSame(places: Places, v: View, w: View, q: Path, p: int)
    requires (q in v <==> q in w) && (q in v && q in w ==> v[q] == w[q])
    ensures Replaced(places, v, q, p) == Replaced(places, w, q, p)
  {
  }

  /** The entries after the first k edges of q were given the first k pages. */
  ghost function RecordPlaces(places: Places, v: View, q: Path, pages: seq<int>, k: nat): Places
    requires k <= |q| && k <= |pages|
  {
    if k == 0 then places else Replaced(RecordPlaces(places, v, q, pages, k - 1), v, q[..k], pages[k - 1])
  }

  /** The entries after the prefix p, and with it everything below p, was evicted. */
  ghost function EvictPlaces(places: Places, v: View, p: Path): Places {
    places - set q | q in v && p <= q :: v[q]
  }

  lemma DepthIs(v: View, q: Path, d: nat)
    requires d <= |q| && (forall i :: 1 <= i <= d ==> q[..i] in v)
    requires d < |q| ==> q[..d + 1] !in v
    ensures QueryDepth(v, q) == d
  {
  }

  /** A recording changes exactly the prefixes it writes. */
  lemma {:induction false} RecordViewAt(v: View, q: Path, pages: seq<int>, k: nat)
    requires k <= |q| && k <= |pages|
    ensures forall i :: 1 <= i <= k ==>
        q[..i] in RecordView(v, q, pages, k) && RecordView(v, q, pages, k)[q[..i]] == pages[i - 1]
    ensures forall p :: p in RecordView(v, q, pages, k) <==> p in v || (1 <= |p| <= k && p == q[..|p|])
    ensures forall p :: p in v && !(1 <= |p| <= k && p == q[..|p|]) ==> RecordView(v, q, pages, k)[p] == v[p]
  {
    if k > 0 {
      RecordViewAt(v, q, pages, k - 1);
    }
  }

  /** A recording of the first k edges creates no collision deeper than k. */
  lemma RecordKeepsCollisions(v: View, q: Path, pages: seq<int>, k: nat, p: Path)
    requires k <= |q| && k <= |pages| && k < |p|
    ensures Collides(RecordView(v, q, pages, k), p) <==> Collides(v, p)
  {
    RecordViewAt(v, q, pages, k);
    var w := RecordView(v, q, pages, k);
    forall e ensures Sibling(p, e) in w <==> Sibling(p, e) in v {
    }
  }

  /** Recording a prefix and querying it, or any extension of it, returns the recorded pages first. */
  lemma RecordThenQuery(v: View, q: Path, pages: seq<int>, longer: Path)
    requires |q| <= |pages| && q <= longer
    ensures pages[..RecordDepth(v, q)] <= QueryPages(RecordView(v, q, pages, RecordDepth(v, q)), longer)
  {
    var k := RecordDepth(v, q);
    var w := RecordView(v, q, pages, k);
    RecordViewAt(v, q, pages, k);
    forall i | 1 <= i <= k ensures longer[..i] in w && w[longer[..i]] == pages[i - 1] {
      assert longer[..i] == q[..i];
    }
    QueryAtLeast(w, longer, pages, k);
  }

  lemma QueryAtLeast(w: View, q: Path, pages: seq<int>, k: nat)
    requires k <= |q| && k <= |pages|
    requires forall i :: 1 <= i <= k ==> q[..i] in w && w[q[..i]] == pages[i - 1]
    ensures pages[..k] <= QueryPages(w, q)
  {
    var d := QueryDepth(w, q);
    assert d < |q| ==> q[..d + 1] !in w;
    var r := QueryPages(w, q);
    forall i | 0 <= i < k ensures r[i] == pages[i] {
      assert q[..i + 1] in w;
    }
  }

  /** Collecting pages until the first prefix that is not cached is a query. */
  lemma QueryAnswer(v: View, q: Path, found: seq<int>)
    requires |found| <= |q| && forall i :: 1 <= i <= |found| ==> q[..i] in v && v[q[..i]] == found[i - 1]
    requires |found| < |q| ==> q[..|found| + 1] !in v
    ensures found == QueryPages(v, q)
  {
    DepthIs(v, q, |found|);
  }

  /** A query answers from the prefixes of its own path only. */
  lemma QueryFrame(v: View, w: View, q: Path)
    requires forall i :: 1 <= i <= |q| ==> (q[..i] in v <==> q[..i] in w)
    requires forall i :: 1 <= i <= |q| && q[..i] in v ==> v[q[..i]] == w[q[..i]]
    ensures QueryPages(v, q) == QueryPages(w, q)
  {
    DepthIs(w, q, QueryDepth(v, q));
  }

  /** A later recording of another path leaves a cached prefix findable; only shared prefixes may be re-paged. */
  lemma RecordKeepsQuery(v: View, q: Path, other: Path, pages: seq<int>, k: nat)
    requires k <= |other| && k <= |pages|
    requires forall i :: 1 <= i <= k && other[..i] <= q && other[..i] in v ==> v[other[..i]] == pages[i - 1]
    ensures QueryPages(v, q) <= QueryPages(RecordView(v, other, pages, k), q)
  {
    var w := RecordView(v, other, pages, k);
    RecordViewAt(v, other, pages, k);
    forall i | 1 <= i <= QueryDepth(v, q) ensures q[..i] in w && w[q[..i]] == v[q[..i]] {
      if i <= k && q[..i] == other[..i] {
        assert other[..i] <= q;
      }
    }
    assert QueryDepth(w, q) >= QueryDepth(v, q);
  }

  /** Evicting p cuts a query exactly at p, and leaves every query that does not pass through p alone. */
  lemma EvictThenQuery(v: View, p: Path, q: Path)
    requires p != []
    ensures QueryPages(EvictView(v, p), q) ==
            if p <= q && |p| <= QueryDepth(v, q) then QueryPages(v, q)[..|p| - 1] else QueryPages(v, q)
  {
    var w := EvictView(v, p);
    if p <= q && |p| <= QueryDepth(v, q) {
      assert p == q[..|p|];
      forall i | 1 <= i <= |p| - 1 ensures q[..i] in w {
      }
      DepthIs(w, q, |p| - 1);
    } else {
      var d := QueryDepth(v, q);
      forall i | 1 <= i <= d ensures q[..i] in w {
        assert q[..i] <= q;
      }
      DepthIs(w, q, d);
    }
  }

  /** Looking a hash up in the children of a node finds the node at the extended path, unless the extra keys differ. */
  lemma Lookup(t: Trie, n: nat, h: nat, extra: string)
    requires TreeInv(t) && n in t.nodes
    ensures h in t.nodes[n].children ==> ChildOk(t, n, h)
    ensures var q := t.path[n] + [Edge(h, extra)];
      && (Collides(ViewOf(t), q) <==> h in t.nodes[n].children && t.nodes[t.nodes[n].children[h]].extraKey != extra)
      && (q in t.at <==> h in t.nodes[n].children && t.nodes[t.nodes[n].children[h]].extraKey == extra)
      && (q in t.at ==> t.at[q] == t.nodes[n].children[h])
  {
    var q := t.path[n] + [Edge(h, extra)];
    assert q[..|q| - 1] == t.path[n];
    if h in t.nodes[n].children {
      assert ChildOk(t, n, h);
      var c := t.nodes[n].children[h];
      assert t.path[c] == Sibling(q, t.nodes[c].extraKey);
      assert t.path[c] in t.at;
    }
    if q in t.at {
      NodeAt(t, q);
    }
    if Collides(ViewOf(t), q) {
      var e :| e != extra && Sibling(q, e) in ViewOf(t);
      var s := Sibling(q, e);
      assert s[..|s| - 1] == t.path[n];
      NodeAt(t, s);
    }
  }

  /** A new child, or a child given another page, changes the view at its own path only. */
  lemma RelabelView(t: Trie, n: nat, page: int, ts: int)
    requires TreeInv(t) && n in t.nodes && n != t.root && page >= 0
    ensures TreeInv(Relabel(t, n, page, ts)) && ViewOf(Relabel(t, n, page, ts)) == ViewOf(t)[t.path[n] := page]
  {
    RelabelInv(t, n, page, ts);
    RootPath(t, n);
    var v, w := ViewOf(Relabel(t, n, page, ts)), ViewOf(t)[t.path[n] := page];
    assert forall q :: q in t.at && t.at[q] == n ==> q == t.path[n];
    assert v.Keys == w.Keys;
  }

  lemma AddChildView(t: Trie, n: nat, h: nat, c: nat, extra: string, page: int, ts: int)
    requires TreeInv(t) && n in t.nodes && h !in t.nodes[n].children && c !in t.nodes && page >= 0
    ensures TreeInv(AddChild(t, n, h, c, extra, page, ts))
    ensures ViewOf(AddChild(t, n, h, c, extra, page, ts)) == ViewOf(t)[t.path[n] + [Edge(h, extra)] := page]
  {
    AddChildInv(t, n, h, c, extra, page, ts);
  }

  /** Pruning a node evicts its path. */
  lemma PruneView(t: Trie, n: nat)
    requires TreeInv(t) && n in t.nodes && n != t.root
    ensures TreeInv(Prune(t, n)) && ViewOf(Prune(t, n)) == EvictView(ViewOf(t), t.path[n])
  {
    PruneInv(t, n);
    var u := Prune(t, n);
    forall q | q in u.at ensures u.nodes[u.at[q]].pageId == t.nodes[t.at[q]].pageId {
      assert u.at[q] in u.nodes;
    }
  }
}
