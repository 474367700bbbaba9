/** Runs of a page manager whose callers obey the recording contract, seen through what a query depends on: which page
    is cached under which prefix, and the history. When queries answer for the tokens that were asked for. */
module PageRuns {
  import opened Wrappers
  import opened PageTrie
  import opened PrefixView
  import opened PageHistory
  import opened PageHashing

  datatype Model = Model(view: View, log: seq<Event>)

  /** All pages of the recording or the query are from this set. */
  ghost predicate Over(pool: iset<PageKey>, keys: seq<PageKey>) {
    forall i :: 0 <= i < |keys| ==> keys[i] in pool
  }

  /** What a caller owes to a recording, in terms of the view: the written pages are distinct, and each is cached
      nowhere, or only at its own prefix. */
  ghost predicate MayWrite(v: View, q: Path, pages: seq<int>, k: nat)
    requires k <= |q| && k <= |pages|
  {
    && (forall i, j :: 0 <= i < j < k ==> pages[i] != pages[j])
    && (forall i, p :: 0 <= i < k && p in v && v[p] == pages[i] ==> p == q[..i + 1])
  }

  /** A recording that obeys its contract. */
  ghost predicate Recording(hash: PageHash, m: Model, m': Model, keys: seq<PageKey>, pages: seq<int>) {
    var q := Edges(hash, keys);
    var k := RecordDepth(m.view, q);
    && k <= |pages| && MayWrite(m.view, q, pages, k)
    && m' == Model(RecordView(m.view, q, pages, k), m.log + RecordedEvents(keys, pages, k))
  }

  /** A page is handed out: one that is not cached, or a cached one, whose prefix is evicted. */
  ghost predicate HandingOut(m: Model, m': Model, page: int) {
    && m'.log == m.log + [HandedOut(page)]
    && if page in m.view.Values
       then exists p :: p in m.view && m.view[p] == page && m'.view == EvictView(m.view, p)
                        && forall r :: r in m.view && m.view[r] == page ==> r == p
       else m'.view == m.view
  }

  /** One call: of a query or of a change of references alone nothing is seen here. */
  ghost predicate Step(hash: PageHash, pool: iset<PageKey>, m: Model, m': Model) {
    || m' == m
    || m' == Model(map[], m.log + [Reset])
    || (exists keys, pages :: Over(pool, keys) && Recording(hash, m, m', keys, pages))
    || (exists page :: HandingOut(m, m', page))
  }

  ghost predicate IsRun(hash: PageHash, pool: iset<PageKey>, run: seq<Model>) {
    && run != [] && run[0] == Model(map[], [Reset])
    && forall i :: 0 <= i < |run| - 1 ==> Step(hash, pool, run[i], run[i + 1])
  }

  /** The page was last recorded for a prefix with these edges. */
  ghost predicate TrueAt(hash: PageHash, pool: iset<PageKey>, log: seq<Event>, page: int, q: Path) {
    var last := LastRecorded(log, page);
    last.Some? && Edges(hash, last.value) == q && Over(pool, last.value)
  }

  ghost predicate Truthful(hash: PageHash, pool: iset<PageKey>, m: Model) {
    forall q :: q in m.view ==> TrueAt(hash, pool, m.log, m.view[q], q)
  }

  lemma LastOf(log: seq<Event>, e: Event, page: int)
    ensures LastRecorded(log + [e], page) ==
            match e
            case Recorded(p, prefix) => if p == page then Some(prefix) else LastRecorded(log, page)
            case HandedOut(p) => if p == page then None else LastRecorded(log, page)
            case Reset => None
  {
    assert (log + [e])[..|log|] == log;
  }

  /** One page of a recording. */
  lemma WriteTruthful(hash: PageHash, pool: iset<PageKey>, m: Model, keys: seq<PageKey>, page: int)
    requires Truthful(hash, pool, m) && Over(pool, keys)
    requires forall p :: p in m.view && m.view[p] == page ==> p == Edges(hash, keys)
    ensures Truthful(hash, pool, Model(m.view[Edges(hash, keys) := page], m.log + [Recorded(page, keys)]))
  {
    hide Edges;
    var m' := Model(m.view[Edges(hash, keys) := page], m.log + [Recorded(page, keys)]);
    forall q | q in m'.view ensures TrueAt(hash, pool, m'.log, m'.view[q], q) {
      LastOf(m.log, Recorded(page, keys), m'.view[q]);
    }
  }

  lemma {:induction false} RecordTruthful(hash: PageHash, pool: iset<PageKey>, m: Model, keys: seq<PageKey>,
      pages: seq<int>, k: nat)
    requires Truthful(hash, pool, m) && Over(pool, keys) && k <= |keys| && k <= |pages|
    requires MayWrite(m.view, Edges(hash, keys), pages, k)
    ensures Truthful(hash, pool,
        Model(RecordView(m.view, Edges(hash, keys), pages, k), m.log + RecordedEvents(keys, pages, k)))
  {
    var q := Edges(hash, keys);
    if k == 0 {
      assert m.log + [] == m.log;
    } else {
      RecordTruthful(hash, pool, m, keys, pages, k - 1);
      var mid := Model(RecordView(m.view, q, pages, k - 1), m.log + RecordedEvents(keys, pages, k - 1));
      RecordViewAt(m.view, q, pages, k - 1);
      EdgesPrefix(hash, keys, k - 1);
      hide Edges, Truthful;
      WriteTruthful(hash, pool, mid, keys[..k], pages[k - 1]);
      assert mid.log + [Recorded(pages[k - 1], keys[..k])] == m.log + RecordedEvents(keys, pages, k);
    }
  }

  lemma HandOutTruthful(hash: PageHash, pool: iset<PageKey>, m: Model, m': Model, page: int)
    requires Truthful(hash, pool, m) && HandingOut(m, m', page)
    ensures Truthful(hash, pool, m')
  {
    forall q | q in m'.view ensures TrueAt(hash, pool, m'.log, m'.view[q], q) {
      LastOf(m.log, HandedOut(page), m'.view[q]);
      assert q in m.view && m'.view[q] == m.view[q] && m.view[q] in m.view.Values;
    }
  }

  lemma StepTruthful(hash: PageHash, pool: iset<PageKey>, m: Model, m': Model)
    requires Truthful(hash, pool, m) && Step(hash, pool, m, m')
    ensures Truthful(hash, pool, m')
  {
    if keys, pages :| Over(pool, keys) && Recording(hash, m, m', keys, pages) {
      RecordTruthful(hash, pool, m, keys, pages, RecordDepth(m.view, Edges(hash, keys)));
    } else if page :| HandingOut(m, m', page) {
      HandOutTruthful(hash, pool, m, m', page);
    }
  }

  lemma {:induction false} RunTruthful(hash: PageHash, pool: iset<PageKey>, run: seq<Model>)
    requires IsRun(hash, pool, run)
    ensures Truthful(hash, pool, run[|run| - 1])
  {
    if |run| > 1 {
      var init := run[..|run| - 1];
      assert IsRun(hash, pool, init);
      RunTruthful(hash, pool, init);
      StepTruthful(hash, pool, run[|run| - 2], run[|run| - 1]);
    }
  }

  /** Page i of the answer was last recorded for exactly the first i + 1 of the queried pages, and not handed out since.
      */
  ghost predicate AnswersFor(hash: PageHash, m: Model, keys: seq<PageKey>) {
    var found := QueryPages(m.view, Edges(hash, keys));
    forall i :: 0 <= i < |found| ==> LastRecorded(m.log, found[i]) == Some(keys[..i + 1])
  }

  /** No two pages of the set take the same edge. */
  ghost predicate TellsApart(hash: PageHash, pool: iset<PageKey>) {
    forall a, b :: a in pool && b in pool && EdgeOf(hash, a) == EdgeOf(hash, b) ==> a == b
  }

  lemma SameKeys(hash: PageHash, pool: iset<PageKey>, a: seq<PageKey>, b: seq<PageKey>)
    requires TellsApart(hash, pool) && Over(pool, a) && Over(pool, b) && Edges(hash, a) == Edges(hash, b)
    ensures a == b
  {
    assert |a| == |Edges(hash, a)| == |b|;
    forall i | 0 <= i < |a| ensures a[i] == b[i] {
      assert Edges(hash, a)[i] == Edges(hash, b)[i];
    }
  }

  /** Where the hash tells the pages apart, what a true view answers is meant for the tokens that were asked for. */
  lemma TrueAnswers(hash: PageHash, pool: iset<PageKey>, m: Model, keys: seq<PageKey>)
    requires Truthful(hash, pool, m) && TellsApart(hash, pool) && Over(pool, keys)
    ensures AnswersFor(hash, m, keys)
  {
    var q := Edges(hash, keys);
    var found := QueryPages(m.view, q);
    forall i | 0 <= i < |found| ensures LastRecorded(m.log, found[i]) == Some(keys[..i + 1]) {
      EdgesPrefix(hash, keys, i);
      assert q[..i + 1] in m.view;
      assert TrueAt(hash, pool, m.log, m.view[q[..i + 1]], q[..i + 1]);
      SameKeys(hash, pool, LastRecorded(m.log, found[i]).value, keys[..i + 1]);
    }
  }

  ghost predicate AllAnswer(hash: PageHash, pool: iset<PageKey>) {
    forall run, keys {:trigger IsRun(hash, pool, run), AnswersFor(hash, run[|run| - 1], keys)} ::
      IsRun(hash, pool, run) && Over(pool, keys) ==> AnswersFor(hash, run[|run| - 1], keys)
  }

  /** Recording one page and querying another one with the same edge gives the page of the first. */
  lemma ClashAnswers(hash: PageHash, pool: iset<PageKey>, a: PageKey, b: PageKey) returns (run: seq<Model>)
    requires a in pool && b in pool && a != b && EdgeOf(hash, a) == EdgeOf(hash, b)
    ensures IsRun(hash, pool, run) && Over(pool, [b]) && !AnswersFor(hash, run[|run| - 1], [b])
  {
    var q := Edges(hash, [a]);
    assert q == [EdgeOf(hash, a)] == Edges(hash, [b]);
    var start, end := Model(map[], [Reset]), Model(map[q := 0], [Reset, Recorded(0, [a])]);
    RecordDepthOne(q);
    assert q[..1] == q && [a][..1] == [a];
    assert RecordView(map[], q, [0], 0) == map[] && RecordedEvents([a], [0], 0) == [];
    assert RecordView(map[], q, [0], 1) == map[q := 0];
    assert RecordedEvents([a], [0], 1) == [Recorded(0, [a])];
    assert Recording(hash, start, end, [a], [0]);
    run := [start, end];
    assert Over(pool, [a]) && Step(hash, pool, run[0], run[1]);
    QueryAnswer(end.view, q, [0]);
    LastOf([Reset], Recorded(0, [a]), 0);
    assert end.log == [Reset] + [Recorded(0, [a])];
    assert [b][..1] == [b] && QueryPages(end.view, Edges(hash, [b]))[0] == 0;
  }

  lemma RecordDepthOne(q: Path)
    requires |q| == 1
    ensures RecordDepth(map[], q) == 1
  {
  }

  /** Over a set of pages, all queries of all runs answer for the tokens and keys that were asked for if and only if no
      two pages of the set take the same edge. */
  lemma AllAnswerIff(hash: PageHash, pool: iset<PageKey>)
    ensures AllAnswer(hash, pool) <==> TellsApart(hash, pool)
  {
    if TellsApart(hash, pool) {
      forall run, keys | IsRun(hash, pool, run) && Over(pool, keys) ensures AnswersFor(hash, run[|run| - 1], keys) {
        RunTruthful(hash, pool, run);
        TrueAnswers(hash, pool, run[|run| - 1], keys);
      }
    } else {
      var a, b :| a in pool && b in pool && EdgeOf(hash, a) == EdgeOf(hash, b) && a != b;
      var run := ClashAnswers(hash, pool, a, b);
    }
  }

  /** With the program's own hash: if and only if the token hash is injective on the pages with the same extra key. */
  lemma TokensAnswerIff(pool: iset<PageKey>)
    ensures AllAnswer(PrefixHash, pool) <==>
            forall a, b ::
              a in pool && b in pool && a.extra == b.extra && HashTokenPage(a.tokens) == HashTokenPage(b.tokens) ==>
                a.tokens == b.tokens
  {
    AllAnswerIff(PrefixHash, pool);
    hide EdgeOf, HashTokenPage, PrefixHash;
    forall a, b | a in pool && b in pool
      ensures EdgeOf(PrefixHash, a) == EdgeOf(PrefixHash, b) <==>
          a.extra == b.extra && HashTokenPage(a.tokens) == HashTokenPage(b.tokens)
    {
      SameEdge(a, b);
    }
  }

  /** The pages of so many tokens, all of them below the base of the hash. */
  ghost function SmallPages(pageLen: nat): iset<PageKey> {
    iset k: PageKey | |k.tokens| == pageLen && forall i :: 0 <= i < |k.tokens| ==> 0 <= k.tokens[i] < BASE
  }

  /** Managers with at most two tokens to a page answer for the tokens that were asked for, if all tokens are below the
      base. */
  lemma ShortPagesAnswer(pageLen: nat)
    requires pageLen <= 2
    ensures AllAnswer(PrefixHash, SmallPages(pageLen))
  {
    var pool := SmallPages(pageLen);
    forall a, b | a in pool && b in pool && a.extra == b.extra && HashTokenPage(a.tokens) == HashTokenPage(b.tokens)
      ensures a.tokens == b.tokens
    {
      ShortPages(a.tokens, b.tokens);
    }
    TokensAnswerIff(pool);
  }

  /** With two tokens to a page and no bound on them, some run has a query that answers for other tokens. */
  lemma ClashingRun()
    ensures !AllAnswer(PrefixHash, iset k: PageKey | |k.tokens| == 2)
  {
    var pool := iset k: PageKey | |k.tokens| == 2;
    PagesClash();
    var a, b := PageKey([1, 0], ""), PageKey([0, BASE], "");
    assert a in pool && b in pool;
    TokensAnswerIff(pool);
  }
}
