/** How a text of tokens is cut into the pages that a recording or a query looks at. */
module PageCutting {
  import opened Wrappers
  import opened PageTrie
  import opened PrefixView
  import opened PageHistory
  import opened PageRuns

  /** The pages that a recording or a query looks at: whole pages of tokens, as many as there are extra keys for. */
  function PageKeys(tokens: seq<int>, pageLen: nat, extraKeys: Option<seq<string>>): (keys: seq<PageKey>)
    requires pageLen > 0
    ensures |keys| == if extraKeys.Some?
        && |extraKeys.value| < |tokens| / pageLen then |extraKeys.value| else |tokens| / pageLen
  {
    var whole := |tokens| / pageLen;
    var n := if extraKeys.Some? && |extraKeys.value| < whole then |extraKeys.value| else whole;
    seq(n, i requires 0 <= i < n => KeyAt(tokens, pageLen, extraKeys, i))
  }

  /** A recording is also limited by the number of pages that come with it. */
  function RecordKeys(tokens: seq<int>, pageLen: nat, extraKeys: Option<seq<string>>,
      pages: seq<int>): (keys: seq<PageKey>)
    requires pageLen > 0
    ensures |keys| == if |pages| < |PageKeys(tokens, pageLen, extraKeys)| then |pages|
                      else |PageKeys(tokens, pageLen, extraKeys)|
  {
    var keys := PageKeys(tokens, pageLen, extraKeys);
    if |pages| < |keys| then keys[..|pages|] else keys
  }

  function KeyAt(tokens: seq<int>, pageLen: nat, extraKeys: Option<seq<string>>, i: nat): PageKey
    requires pageLen > 0 && i < |tokens| / pageLen
    requires extraKeys.Some? ==> i < |extraKeys.value|
  {
    PageBounds(|tokens|, pageLen, i);
    PageKey(tokens[i * pageLen..i * pageLen + pageLen], if extraKeys.None? then "" else extraKeys.value[i])
  }

  lemma PageBounds(n: nat, pageLen: nat, i: nat)
    requires pageLen > 0 && i < n / pageLen
    ensures 0 <= i * pageLen && i * pageLen + pageLen <= n
  {
    assert (i + 1) * pageLen <= (n / pageLen) * pageLen;
    assert (i + 1) * pageLen == i * pageLen + pageLen;
  }

  /** The tokens of all pages, one page behind the other. */
  function TokensOf(keys: seq<PageKey>): seq<int> {
    if keys == [] then [] else TokensOf(keys[..|keys| - 1]) + keys[|keys| - 1].tokens
  }

  /** These are pages of pageLen tokens each, which put one behind the other are a beginning of the text, and their
      extra keys are the first ones given, or empty where none are given. */
  ghost predicate Cut(keys: seq<PageKey>, tokens: seq<int>, pageLen: nat, extraKeys: Option<seq<string>>) {
    && TokensOf(keys) <= tokens
    && (extraKeys.Some? ==> |keys| <= |extraKeys.value|)
    && forall i :: 0 <= i < |keys| ==>
      |keys[i].tokens| == pageLen && keys[i].extra == if extraKeys.None? then "" else extraKeys.value[i]
  }

  lemma {:induction false} TokensLength(keys: seq<PageKey>, pageLen: nat)
    requires forall i :: 0 <= i < |keys| ==> |keys[i].tokens| == pageLen
    ensures |TokensOf(keys)| == |keys| * pageLen
  {
    if keys != [] {
      var last := |keys| - 1;
      TokensLength(keys[..last], pageLen);
      assert last * pageLen + pageLen == |keys| * pageLen;
    }
  }

  lemma TextGrows(tokens: seq<int>, m: nat, n: nat)
    requires m <= n <= |tokens|
    ensures tokens[..m] + tokens[m..n] == tokens[..n] <= tokens
  {
  }

  lemma TokensGrow(keys: seq<PageKey>)
    requires keys != []
    ensures TokensOf(keys) == TokensOf(keys[..|keys| - 1]) + keys[|keys| - 1].tokens
  {
  }

  /** Every number of pages of a text is a cut of it. */
  lemma {:induction false} PagesCut(tokens: seq<int>, pageLen: nat, extraKeys: Option<seq<string>>, n: nat)
    requires pageLen > 0 && n <= |PageKeys(tokens, pageLen, extraKeys)|
    ensures Cut(PageKeys(tokens, pageLen, extraKeys)[..n], tokens, pageLen, extraKeys)
    ensures n * pageLen <= |tokens|
        && TokensOf(PageKeys(tokens, pageLen, extraKeys)[..n]) == tokens[..n * pageLen]
  {
    var keys := PageKeys(tokens, pageLen, extraKeys);
    if n > 0 {
      PagesCut(tokens, pageLen, extraKeys, n - 1);
      PageBounds(|tokens|, pageLen, n - 1);
      PageEnds(pageLen, n);
      assert keys[n - 1] == KeyAt(tokens, pageLen, extraKeys, n - 1);
      hide TokensOf, PageKeys;
      assert keys[..n][..n - 1] == keys[..n - 1];
      TokensGrow(keys[..n]);
      TextGrows(tokens, (n - 1) * pageLen, n * pageLen);
    }
  }

  lemma PageEnds(pageLen: nat, n: nat)
    requires n > 0
    ensures (n - 1) * pageLen + pageLen == n * pageLen
  {
  }

  /** There is one cut only into so many pages. */
  lemma {:induction false} CutUnique(a: seq<PageKey>, b: seq<PageKey>, tokens: seq<int>, pageLen: nat,
      extraKeys: Option<seq<string>>)
    requires Cut(a, tokens, pageLen, extraKeys) && Cut(b, tokens, pageLen, extraKeys) && |a| == |b|
    ensures a == b
  {
    if a != [] {
      var last := |a| - 1;
      TokensGrow(a);
      TokensGrow(b);
      TokensLength(a, pageLen);
      TokensLength(b, pageLen);
      hide TokensOf;
      CutUnique(a[..last], b[..last], tokens, pageLen, extraKeys);
      SameEnds(TokensOf(a[..last]), a[last].tokens, TokensOf(b[..last]), b[last].tokens, tokens);
      assert a[last] == b[last];
      assert a == a[..last] + [a[last]] && b == b[..last] + [b[last]];
    }
  }

  lemma SameEnds(s: seq<int>, a: seq<int>, t: seq<int>, b: seq<int>, tokens: seq<int>)
    requires s == t && |a| == |b| && s + a <= tokens && t + b <= tokens
    ensures a == b
  {
    assert a == (s + a)[|s|..] == tokens[|s|..][..|a|];
    assert b == (t + b)[|s|..] == tokens[|s|..][..|a|];
  }

  /** The first n extra keys, all of them empty where none are given. */
  function Extras(extraKeys: Option<seq<string>>, n: nat): seq<string>
    requires extraKeys.Some? ==> n <= |extraKeys.value|
  {
    if extraKeys.None? then seq(n, i => "") else extraKeys.value[..n]
  }

  /** Two texts have the same first n pages if and only if their first n pages of tokens and their first n extra keys
      are the same. */
  lemma SamePages(a: seq<int>, ea: Option<seq<string>>, b: seq<int>, eb: Option<seq<string>>, pageLen: nat, n: nat)
    requires pageLen > 0 && n <= |PageKeys(a, pageLen, ea)| && n <= |PageKeys(b, pageLen, eb)|
    ensures n * pageLen <= |a| && n * pageLen <= |b|
    ensures PageKeys(a, pageLen, ea)[..n] == PageKeys(b, pageLen, eb)[..n] <==>
            a[..n * pageLen] == b[..n * pageLen] && Extras(ea, n) == Extras(eb, n)
  {
    hide PageKeys, TokensOf;
    var k, l := PageKeys(a, pageLen, ea)[..n], PageKeys(b, pageLen, eb)[..n];
    PagesCut(a, pageLen, ea, n);
    PagesCut(b, pageLen, eb, n);
    CutExtras(k, a, pageLen, ea);
    CutExtras(l, b, pageLen, eb);
    if a[..n * pageLen] == b[..n * pageLen] && Extras(ea, n) == Extras(eb, n) {
      ExtrasAt(ea, n);
      ExtrasAt(eb, n);
      assert TokensOf(l) <= a;
      CutUnique(k, l, a, pageLen, ea);
    }
  }

  lemma ExtrasAt(extraKeys: Option<seq<string>>, n: nat)
    requires extraKeys.Some? ==> n <= |extraKeys.value|
    ensures |Extras(extraKeys, n)| == n
    ensures forall i :: 0 <= i < n ==> Extras(extraKeys, n)[i] == if extraKeys.None? then "" else extraKeys.value[i]
  {
  }

  lemma CutExtras(keys: seq<PageKey>, tokens: seq<int>, pageLen: nat, extraKeys: Option<seq<string>>)
    requires Cut(keys, tokens, pageLen, extraKeys)
    ensures Extras(extraKeys, |keys|) == seq(|keys|, i requires 0 <= i < |keys| => keys[i].extra)
  {
  }

  /** Where the hash tells the pages apart, each page of an answer was last recorded for pages whose tokens and extra
      keys are the first ones of the query. */
  lemma AnswersTokens(hash: PageHash, pool: iset<PageKey>, m: Model, tokens: seq<int>, pageLen: nat,
      extraKeys: Option<seq<string>>, i: nat)
    requires pageLen > 0 && AnswersFor(hash, m, PageKeys(tokens, pageLen, extraKeys))
    requires i < |QueryPages(m.view, Edges(hash, PageKeys(tokens, pageLen, extraKeys)))|
    ensures
      var last := LastRecorded(m.log, QueryPages(m.view, Edges(hash, PageKeys(tokens, pageLen, extraKeys)))[i]);
      && last.Some? && |last.value| == i + 1 && Cut(last.value, tokens, pageLen, extraKeys)
      && (i + 1) * pageLen <= |tokens| && TokensOf(last.value) == tokens[..(i + 1) * pageLen]
  {
    PagesCut(tokens, pageLen, extraKeys, i + 1);
  }

  lemma {:induction false} RecordedLast(log: seq<Event>, keys: seq<PageKey>, pages: seq<int>, k: nat, n: nat)
    requires 0 < n <= k <= |keys| && k <= |pages| && forall i, j :: 0 <= i < j < k ==> pages[i] != pages[j]
    ensures LastRecorded(log + RecordedEvents(keys, pages, k), pages[n - 1]) == Some(keys[..n])
  {
    var before := log + RecordedEvents(keys, pages, k - 1);
    assert log + RecordedEvents(keys, pages, k) == before + [Recorded(pages[k - 1], keys[..k])];
    LastOf(before, Recorded(pages[k - 1], keys[..k]), pages[n - 1]);
    if n < k {
      RecordedLast(log, keys, pages, k - 1, n);
    }
  }

  /** A query after a recording: if it answers for the pages asked, it starts with the first n recorded pages if and
      only if it asks for the same n pages of tokens. */
  lemma RecordedAnswers(hash: PageHash, m: Model, m': Model, keys: seq<PageKey>, pages: seq<int>,
      asked: seq<PageKey>, n: nat)
    requires Recording(hash, m, m', keys, pages) && AnswersFor(hash, m', asked)
    requires n <= RecordDepth(m.view, Edges(hash, keys)) && n <= |asked|
    ensures pages[..n] <= QueryPages(m'.view, Edges(hash, asked)) <==> keys[..n] == asked[..n]
  {
    var q, k := Edges(hash, keys), RecordDepth(m.view, Edges(hash, keys));
    var found := QueryPages(m'.view, Edges(hash, asked));
    hide RecordedEvents, RecordView, LastRecorded, QueryPages, RecordDepth;
    if keys[..n] == asked[..n] {
      forall i | 1 <= i <= n
        ensures Edges(hash, asked)[..i] in m'.view && m'.view[Edges(hash, asked)[..i]] == pages[i - 1]
      {
        assert Edges(hash, asked)[..i] == q[..i] by {
          assert forall j :: 0 <= j < i ==> keys[j] == keys[..n][j] && asked[j] == asked[..n][j];
        }
        RecordViewAt(m.view, q, pages, k);
      }
      QueryAtLeast(m'.view, Edges(hash, asked), pages, n);
    }
    if pages[..n] <= found && n > 0 {
      RecordedLast(m.log, keys, pages, k, n);
      assert found[n - 1] == pages[..n][n - 1] == pages[n - 1];
      assert asked[..n - 1 + 1] == asked[..n];
    }
  }
}
