/** Two runs of the paged cache manager that go wrong, call by call. */
module PagedRuns {
  import opened Wrappers
  import opened PagePools
  import opened PageTrie
  import opened PrefixView
  import opened PageHistory
  import opened PageHashing
  import opened PageCutting
  import opened PageRuns
  import opened PageState
  import opened PagedCache

  lemma OnePage(tokens: seq<int>, pageLen: nat, pages: seq<int>)
    requires pageLen > 0 && |tokens| == pageLen && |pages| == 1
    ensures RecordKeys(tokens, pageLen, None, pages) == [PageKey(tokens, "")] == PageKeys(tokens, pageLen, None)
  {
    assert |tokens| / pageLen == 1;
    assert KeyAt(tokens, pageLen, None, 0).tokens == tokens[0..pageLen] == tokens;
  }

  lemma TwoPages(x: int, y: int, pages: seq<int>)
    requires |pages| == 2
    ensures RecordKeys([x, y], 1, None, pages) == [PageKey([x], ""), PageKey([y], "")]
  {
    assert KeyAt([x, y], 1, None, 0).tokens == [x] && KeyAt([x, y], 1, None, 1).tokens == [y];
  }

  lemma NoCollision(v: View, q: Path)
    requires forall p :: p in v ==> p <= q
    ensures RecordDepth(v, q) == |q|
  {
    forall i | 1 <= i <= |q| ensures !Collides(v, q[..i]) {
      forall e | e != q[..i][i - 1].extra ensures Sibling(q[..i], e) !in v {
        var p := Sibling(q[..i], e);
        assert p[i - 1].extra == e && |p| == i;
      }
    }
  }

  /** What recording page 0 along one prefix of one page does to a view and to the entries. */
  lemma RecordOne(hash: PageHash, k: PageKey, v: View, places: Places)
    requires var q := Edges(hash, [k]); (q in v ==> v[q] == 0) && forall p :: p in v ==>
        p == q || (|p| > 1 && p[..1] == q)
    ensures var q := Edges(hash, [k]);
      && |q| == 1 && RecordDepth(v, q) == 1 && RecordView(v, q, [0], 1) == v[q := 0]
      && RecordPlaces(places, v, q, [0], 1) == places[0 := q] && RecordedEvents([k], [0], 1) == [Recorded(0, [k])]
  {
    var q := Edges(hash, [k]);
    assert q[..1] == q && [k][..1] == [k];
    assert !Collides(v, q) by {
      forall e | e != q[0].extra ensures Sibling(q, e) !in v {
        assert |Sibling(q, e)| == 1 && Sibling(q, e)[0].extra == e;
      }
    }
    assert RecordView(v, q, [0], 0) == v && RecordPlaces(places, v, q, [0], 0) == places
        && RecordedEvents([k], [0], 0) == [];
  }

  /** What recording page 0 twice along a path of two pages does to an empty manager. */
  lemma RecordTwo(hash: PageHash, k: PageKey, l: PageKey)
    ensures var p, q := Edges(hash, [k]), Edges(hash, [k, l]);
      && |q| == 2 && q[..1] == p && |p| == 1 && RecordDepth(map[], q) == 2
      && RecordView(map[], q, [0, 0], 2) == map[p := 0, q := 0]
      && RecordPlaces(map[], map[], q, [0, 0], 2) == map[0 := q]
  {
    var p, q := Edges(hash, [k]), Edges(hash, [k, l]);
    NoCollision(map[], q);
    assert q[..1] == p && q[..2] == q;
    assert RecordView(map[], q, [0, 0], 0) == map[] && RecordPlaces(map[], map[], q, [0, 0], 0) == map[];
    assert RecordView(map[], q, [0, 0], 1) == map[p := 0] && RecordPlaces(map[], map[], q, [0, 0], 1) == map[0 := p];
  }

  /** A manager whose only page was handed out. */
  method OneInUse(pageLen: nat, hash: PageHash) returns (m: PagedCacheManager)
    requires pageLen > 0
    ensures fresh(m) && m.Valid() && m.Exact() && m.View() == map[] && m.Entries() == map[]
        && m.log == [Reset, HandedOut(0)]
    ensures m.pageLen == pageLen && m.hash == hash && m.maxPages == 1 && m.pageRefCount == [1]
  {
    hide ValidState, ExactState, ViewIn, PlacesIn;
    m := new PagedCacheManager(pageLen, hash, 1);
    var page := m.GetUnusedPageIndex(true);
    assert page == Some(AllPages(1)[0]) && m.pageRefCount == Zeros(1)[0 := 1] && Zeros(1)[0] == 0;
  }

  lemma FirstWrite(s: State, q: Path)
    requires ValidState(s) && ViewIn(s) == map[] && PlacesIn(s) == map[] && |q| == 1
    ensures CanRecord(s, q, [0])
  {
    NoCollision(map[], q);
    assert 0 !in PlacesIn(s);
  }

  /** Recording one page of tokens and querying another one with the same hash: the answer is the page of the other
      tokens. */
  method ClashingCalls(a: seq<int>, b: seq<int>) returns (m: PagedCacheManager, found: seq<int>)
    requires |a| == |b| > 0 && a != b && HashTokenPage(a) == HashTokenPage(b)
    ensures m.Valid() && m.Exact() && found == [0]
    ensures LastRecorded(m.log, 0) == Some([PageKey(a, "")]) && PageKeys(b, |b|, None) == [PageKey(b, "")]
  {
    hide ValidState, ExactState, ViewIn, PlacesIn, HashTokenPage, RecordView, RecordPlaces, RecordDepth, RecordedEvents,
        CanRecord,
      QueryPages, Recording, RecordKeys, PageKeys, LastRecorded, HandingOut, PrefixHash;
    ghost var q := Edges(PrefixHash, [PageKey(a, "")]);
    OnePage(a, |a|, [0]);
    OnePage(b, |b|, [0]);
    SameEdge(PageKey(a, ""), PageKey(b, ""));
    assert q == Edges(PrefixHash, [PageKey(b, "")]);
    RecordOne(PrefixHash, PageKey(a, ""), map[], map[]);
    assert q[..1] == q;
    QueryAnswer(map[q := 0], q, [0]);
    LastOf([Reset, HandedOut(0)], Recorded(0, [PageKey(a, "")]), 0);
    m := OneInUse(|a|, PrefixHash);
    FirstWrite(m.S(), q);
    m.Record(a, [0], None);
    found := m.Query(b, None);
  }

  /** A page is recorded for two prefixes of one path and once more for the shorter one, and released: the page is then
      the only one, and handing it out is undefined. */
  method OverlappingCalls(hash: PageHash, x: int, y: int) returns (m: PagedCacheManager)
    ensures m.Valid() && !m.Exact() && m.freePages == [] && m.triePages == [0] && !EvictionDefined(m.S())
  {
    hide ValidState, ExactState, ViewIn, PlacesIn, RecordView, RecordPlaces, RecordDepth, RecordedEvents, CanRecord,
      Recording, RecordKeys, PageKeys, EvictionDefined, HandingOut, Edges, Released;
    ghost var k, l := PageKey([x], ""), PageKey([y], "");
    ghost var p, q := Edges(hash, [k]), Edges(hash, [k, l]);
    TwoPages(x, y, [0, 0]);
    OnePage([x], 1, [0]);
    RecordTwo(hash, k, l);
    RecordOne(hash, k, map[p := 0, q := 0], map[0 := q]);
    m := OneInUse(1, hash);
    m.Record([x, y], [0, 0], None);
    m.Record([x], [0], None);
    LastRelease();
    m.ReleasePageIndex(0);
    SameViews(p, q);
    OverlapUndefined(m.S(), p, q);
  }

  lemma LastRelease()
    ensures [1][0 := Released([1][0])] == [0]
  {
  }

  lemma SameViews(p: Path, q: Path)
    ensures map[p := 0, q := 0][p := 0] == map[p := 0, q := 0] && map[0 := q][0 := p] == map[0 := p]
  {
  }

  lemma RecordedPool(pool: iset<PageKey>, log: seq<Event>, keys: seq<PageKey>, pages: seq<int>, k: nat)
    requires LogOver(pool, log) && Over(pool, keys) && k <= |keys| && k <= |pages|
    ensures LogOver(pool, log + RecordedEvents(keys, pages, k))
  {
    if k > 0 {
      RecordedPool(pool, log, keys, pages, k - 1);
      var before := log + RecordedEvents(keys, pages, k - 1);
      var e := Recorded(pages[k - 1], keys[..k]);
      assert log + RecordedEvents(keys, pages, k) == before + [e] && Over(pool, e.prefix);
    } else {
      assert log + [] == log;
    }
  }

  /** The extra keys and tokens of the first n pages of two calls are the same. */
  ghost predicate Agree(a: seq<int>, ea: Option<seq<string>>, b: seq<int>, eb: Option<seq<string>>, pageLen: nat,
      n: nat)
    requires pageLen > 0 && n <= |PageKeys(a, pageLen, ea)| && n <= |PageKeys(b, pageLen, eb)|
  {
    && n * pageLen <= |a| && n * pageLen <= |b| && a[..n * pageLen] == b[..n * pageLen]
    && Extras(ea, n) == Extras(eb, n)
  }

  lemma AgreeingPages(hash: PageHash, m: Model, m': Model, a: seq<int>, pages: seq<int>, ea: Option<seq<string>>,
      b: seq<int>, eb: Option<seq<string>>, pageLen: nat, n: nat)
    requires pageLen > 0 && Recording(hash, m, m', RecordKeys(a, pageLen, ea, pages), pages)
    requires AnswersFor(hash, m', PageKeys(b, pageLen, eb)) && n <= |PageKeys(b, pageLen, eb)|
    requires n <= RecordDepth(m.view, Edges(hash, RecordKeys(a, pageLen, ea, pages)))
    ensures pages[..n] <= QueryPages(m'.view, Edges(hash, PageKeys(b, pageLen, eb))) <==>
            Agree(a, ea, b, eb, pageLen, n)
  {
    var keys, asked := RecordKeys(a, pageLen, ea, pages), PageKeys(b, pageLen, eb);
    RecordedAnswers(hash, m, m', keys, pages, asked, n);
    SamePages(a, ea, b, eb, pageLen, n);
    assert keys[..n] == PageKeys(a, pageLen, ea)[..n];
  }

  /** A recording and a query after it. Where the hash tells all pages apart, each page of the answer was last recorded
      for the tokens and extra keys of the query, and the answer starts with the first n recorded pages if and only if
      the tokens and extra keys of n pages are those of the recording. */
  method RecordThenQuery(m: PagedCacheManager, a: seq<int>, pages: seq<int>, ea: Option<seq<string>>, b: seq<int>,
      eb: Option<seq<string>>, ghost pool: iset<PageKey>) returns (found: seq<int>)
    requires m.Valid() && m.Exact() && TellsApart(m.hash, pool) && LogOver(pool, m.log)
    requires var keys := RecordKeys(a, m.pageLen, ea, pages);
      Over(pool, keys) && CanRecord(m.S(), Edges(m.hash, keys), pages)
          && forall i :: 0 <= i < |keys| ==> 0 <= pages[i] < m.maxPages
    requires Over(pool, PageKeys(b, m.pageLen, eb))
    modifies m
    ensures m.Valid() && m.Exact()
    ensures forall i :: 0 <= i < |found| ==>
      var last := LastRecorded(m.log, found[i]);
      last.Some? && |last.value| == i + 1 && Cut(last.value, b, m.pageLen, eb)
    ensures forall n: nat ::
      n <= old(RecordDepth(m.View(), Edges(m.hash, RecordKeys(a, m.pageLen, ea, pages))))
          && n <= |PageKeys(b, m.pageLen, eb)| ==>
        (pages[..n] <= found <==> Agree(a, ea, b, eb, m.pageLen, n))
  {
    hide ValidState, ExactState, ViewIn, PlacesIn, CanRecord, RecordView, RecordPlaces, RecordDepth, RecordedEvents,
        Recording, QueryPages, AnswersFor, Agree, Cut, PageKeys, RecordKeys, LastRecorded, TellsApart, Stamped;
    ghost var keys, asked := RecordKeys(a, m.pageLen, ea, pages), PageKeys(b, m.pageLen, eb);
    ghost var before := m.Seen();
    ghost var k := RecordDepth(m.View(), Edges(m.hash, keys));
    m.Record(a, pages, ea);
    found := m.Query(b, eb);
    RecordedPool(pool, before.log, keys, pages, k);
    ExactAnswers(m.S(), pool, asked);
    forall i | 0 <= i < |found|
      ensures var last := LastRecorded(m.log, found[i]);
        last.Some? && |last.value| == i + 1 && Cut(last.value, b, m.pageLen, eb)
    {
      AnswersTokens(m.hash, pool, m.Seen(), b, m.pageLen, eb, i);
    }
    forall n: nat | n <= k && n <= |asked| ensures pages[..n] <= found <==> Agree(a, ea, b, eb, m.pageLen, n) {
      AgreeingPages(m.hash, before, m.Seen(), a, pages, ea, b, eb, m.pageLen, n);
    }
  }
}
