/** Matching weight names: '*' stands for any string, in the name that is asked for and in the names that are listed. */
module WeightNames {

  /** The pattern stands for the word. */
  ghost predicate Instance(p: string, w: string)
    decreases |p|
  {
    if p == "" then w == ""
    else
      var init, last := p[..|p| - 1], p[|p| - 1];
      if last == '*' then exists k :: 0 <= k <= |w| && Instance(init, w[..k])
      else w != "" && w[|w| - 1] == last && Instance(init, w[..|w| - 1])
  }

  /** Some word is an instance of both. */
  ghost predicate Common(p: string, q: string) {
    exists w :: Instance(p, w) && Instance(q, w)
  }

  /** Every pattern has an instance: the one in which every star is empty. */
  function Shortest(p: string): string {
    if p == "" then ""
    else Shortest(p[..|p| - 1]) + if p[|p| - 1] == '*' then "" else [p[|p| - 1]]
  }

  /** An instance, followed by the shortest instance of what comes next. */
  lemma {:induction false} Extend(p: string, i: nat, j: nat, w: string)
    requires i <= j <= |p| && Instance(p[..i], w)
    ensures Instance(p[..j], w + Shortest(p[i..j]))
    decreases j - i
  {
    if i == j {
      assert w + Shortest(p[i..j]) == w;
    } else {
      Extend(p, i, j - 1, w);
      var v := w + Shortest(p[i..j - 1]);
      assert p[..j][..j - 1] == p[..j - 1] && p[i..j][..j - i - 1] == p[i..j - 1];
      if p[j - 1] == '*' {
        assert v[..|v|] == v;
        assert w + Shortest(p[i..j]) == v;
      } else {
        assert w + Shortest(p[i..j]) == v + [p[j - 1]];
        assert (v + [p[j - 1]])[..|v|] == v;
      }
    }
  }

  /** A beginning of an instance is an instance of a beginning. */
  lemma {:induction false} Beginning(p: string, w: string, k: nat) returns (j: nat)
    requires Instance(p, w) && k <= |w|
    ensures j <= |p| && Instance(p[..j], w[..k])
    decreases |p|
  {
    if k == |w| {
      j := |p|;
      assert p[..j] == p && w[..k] == w;
    } else {
      var init, last := p[..|p| - 1], p[|p| - 1];
      if last == '*' {
        var m :| 0 <= m <= |w| && Instance(init, w[..m]);
        if k <= m {
          j := Beginning(init, w[..m], k);
          assert w[..m][..k] == w[..k] && init[..j] == p[..j];
        } else {
          j := |p|;
          assert w[..k][..m] == w[..m] && p[..j] == p;
        }
      } else {
        j := Beginning(init, w[..|w| - 1], k);
        assert w[..|w| - 1][..k] == w[..k] && init[..j] == p[..j];
      }
    }
  }

  /** What the table says of the first i characters of one name and the first j of the other. */
  ghost predicate Reach(p: string, q: string, i: nat, j: nat)
    requires i <= |p| && j <= |q|
    decreases i + j, 0
  {
    || (i == 0 && j == 0)
    || (i > 0 && p[i - 1] == '*' && InRow(p, q, i - 1, j))
    || (j > 0 && q[j - 1] == '*' && InColumn(p, q, i, j - 1))
    || (i > 0 && j > 0 && p[i - 1] == q[j - 1] && Reach(p, q, i - 1, j - 1))
  }

  ghost predicate InRow(p: string, q: string, i: nat, j: nat)
    requires i <= |p| && j <= |q|
    decreases i + j, 1
  {
    Reach(p, q, i, j) || (j > 0 && InRow(p, q, i, j - 1))
  }

  ghost predicate InColumn(p: string, q: string, i: nat, j: nat)
    requires i <= |p| && j <= |q|
    decreases i + j, 1
  {
    Reach(p, q, i, j) || (i > 0 && InColumn(p, q, i - 1, j))
  }

  lemma {:induction false} RowEntry(p: string, q: string, i: nat, j: nat) returns (l: nat)
    requires i <= |p| && j <= |q| && InRow(p, q, i, j)
    ensures l <= j && Reach(p, q, i, l)
  {
    l := j;
    if !Reach(p, q, i, j) {
      l := RowEntry(p, q, i, j - 1);
    }
  }

  lemma {:induction false} ColumnEntry(p: string, q: string, i: nat, j: nat) returns (l: nat)
    requires i <= |p| && j <= |q| && InColumn(p, q, i, j)
    ensures l <= i && Reach(p, q, l, j)
  {
    l := i;
    if !Reach(p, q, i, j) {
      l := ColumnEntry(p, q, i - 1, j);
    }
  }

  lemma {:induction false} InRowOf(p: string, q: string, i: nat, l: nat, j: nat)
    requires i <= |p| && l <= j <= |q| && Reach(p, q, i, l)
    ensures InRow(p, q, i, j)
  {
    if l < j {
      InRowOf(p, q, i, l, j - 1);
    }
  }

  lemma {:induction false} InColumnOf(p: string, q: string, l: nat, i: nat, j: nat)
    requires l <= i <= |p| && j <= |q| && Reach(p, q, l, j)
    ensures InColumn(p, q, i, j)
  {
    if l < i {
      InColumnOf(p, q, l, i - 1, j);
    }
  }

  lemma StarInstance(p: string, i: nat, w: string, k: nat)
    requires 0 < i <= |p| && p[i - 1] == '*' && k <= |w| && Instance(p[..i - 1], w[..k])
    ensures Instance(p[..i], w)
  {
    assert p[..i][..i - 1] == p[..i - 1];
  }

  lemma {:induction false} ReachCommon(p: string, q: string, i: nat, j: nat)
    requires i <= |p| && j <= |q| && Reach(p, q, i, j)
    ensures Common(p[..i], q[..j])
    decreases i + j
  {
    if i == 0 && j == 0 {
      assert Instance(p[..0], "") && Instance(q[..0], "");
    } else if i > 0 && p[i - 1] == '*' && InRow(p, q, i - 1, j) {
      var l := RowEntry(p, q, i - 1, j);
      ReachCommon(p, q, i - 1, l);
      var w :| Instance(p[..i - 1], w) && Instance(q[..l], w);
      Extend(q, l, j, w);
      var v := w + Shortest(q[l..j]);
      assert v[..|w|] == w;
      StarInstance(p, i, v, |w|);
    } else if j > 0 && q[j - 1] == '*' && InColumn(p, q, i, j - 1) {
      var l := ColumnEntry(p, q, i, j - 1);
      ReachCommon(p, q, l, j - 1);
      var w :| Instance(p[..l], w) && Instance(q[..j - 1], w);
      Extend(p, l, i, w);
      var v := w + Shortest(p[l..i]);
      assert v[..|w|] == w;
      StarInstance(q, j, v, |w|);
    } else {
      ReachCommon(p, q, i - 1, j - 1);
      var w :| Instance(p[..i - 1], w) && Instance(q[..j - 1], w);
      JoinLast(p, q, i, j, w);
    }
  }

  /** Two prefixes with an instance in common still have one when both go on with the same character. */
  lemma JoinLast(p: string, q: string, i: nat, j: nat, w: string)
    requires 0 < i <= |p| && 0 < j <= |q| && p[i - 1] == q[j - 1] && Instance(p[..i - 1], w) && Instance(q[..j - 1], w)
    ensures Common(p[..i], q[..j])
  {
    if p[i - 1] == '*' {
      assert w[..|w|] == w;
      StarInstance(p, i, w, |w|);
      StarInstance(q, j, w, |w|);
    } else {
      var v := w + [p[i - 1]];
      assert v[..|v| - 1] == w && p[..i][..i - 1] == p[..i - 1] && q[..j][..j - 1] == q[..j - 1];
      assert Instance(p[..i], v) && Instance(q[..j], v);
    }
  }

  lemma {:induction false} CommonReach(p: string, q: string, i: nat, j: nat, w: string)
    requires i <= |p| && j <= |q| && Instance(p[..i], w) && Instance(q[..j], w)
    ensures Reach(p, q, i, j)
    decreases i + j
  {
    assert i > 0 ==> p[..i][..i - 1] == p[..i - 1];
    assert j > 0 ==> q[..j][..j - 1] == q[..j - 1];
    if i > 0 && p[i - 1] == '*' {
      var k :| 0 <= k <= |w| && Instance(p[..i][..i - 1], w[..k]);
      var l := Beginning(q[..j], w, k);
      assert q[..j][..l] == q[..l];
      CommonReach(p, q, i - 1, l, w[..k]);
      InRowOf(p, q, i - 1, l, j);
    } else if j > 0 && q[j - 1] == '*' {
      var k :| 0 <= k <= |w| && Instance(q[..j][..j - 1], w[..k]);
      var l := Beginning(p[..i], w, k);
      assert p[..i][..l] == p[..l];
      CommonReach(p, q, l, j - 1, w[..k]);
      InColumnOf(p, q, l, i, j - 1);
    } else if i > 0 && j > 0 {
      CommonReach(p, q, i - 1, j - 1, w[..|w| - 1]);
    }
  }

  /** The table ends in true exactly when the two names have an instance in common. */
  lemma ReachMeaning(p: string, q: string)
    ensures Reach(p, q, |p|, |q|) <==> Common(p, q)
  {
    assert p[..|p|] == p && q[..|q|] == q;
    if Reach(p, q, |p|, |q|) {
      ReachCommon(p, q, |p|, |q|);
    }
    if Common(p, q) {
      var w :| Instance(p, w) && Instance(q, w);
      CommonReach(p, q, |p|, |q|, w);
    }
  }

  // --- the table, filled from each entry to the later ones ---

  /** Entry (a, b) was visited before (i, j). */
  predicate Before(a: int, b: int, i: int, j: int) {
    a < i || (a == i && b < j)
  }

  ghost predicate RowVisited(p: string, q: string, a: nat, b: nat, i: nat, j: nat)
    requires a <= |p| && b <= |q|
  {
    exists l :: 0 <= l <= b && Before(a, l, i, j) && Reach(p, q, a, l)
  }

  ghost predicate ColumnVisited(p: string, q: string, a: nat, b: nat, i: nat, j: nat)
    requires a <= |p| && b <= |q|
  {
    exists l :: 0 <= l <= a && Before(l, b, i, j) && Reach(p, q, l, b)
  }

  /** Entry (a, b) is reached from an entry visited before (i, j). */
  ghost predicate Via(p: string, q: string, a: nat, b: nat, i: nat, j: nat)
    requires a <= |p| && b <= |q|
  {
    || (a == 0 && b == 0)
    || (a > 0 && p[a - 1] == '*' && RowVisited(p, q, a - 1, b, i, j))
    || (b > 0 && q[b - 1] == '*' && ColumnVisited(p, q, a, b - 1, i, j))
    || (a > 0 && b > 0 && p[a - 1] == q[b - 1] && Before(a - 1, b - 1, i, j) && Reach(p, q, a - 1, b - 1))
  }

  /** When an entry is visited, everything that leads to it was visited before. */
  lemma Complete(p: string, q: string, a: nat, b: nat, i: nat, j: nat)
    requires a <= |p| && b <= |q| && (Before(a, b, i, j) || (a == i && b == j))
    ensures Via(p, q, a, b, i, j) <==> Reach(p, q, a, b)
  {
    hide Reach;
    if a > 0 {
      WholeRow(p, q, a - 1, b, i, j);
    }
    if b > 0 {
      WholeColumn(p, q, a, b - 1, i, j);
    }
    ReachIs(p, q, a, b);
  }

  lemma ReachIs(p: string, q: string, i: nat, j: nat)
    requires i <= |p| && j <= |q|
    ensures Reach(p, q, i, j) <==>
              || (i == 0 && j == 0)
              || (i > 0 && p[i - 1] == '*' && InRow(p, q, i - 1, j))
              || (j > 0 && q[j - 1] == '*' && InColumn(p, q, i, j - 1))
              || (i > 0 && j > 0 && p[i - 1] == q[j - 1] && Reach(p, q, i - 1, j - 1))
  {
  }

  lemma WholeRow(p: string, q: string, a: nat, b: nat, i: nat, j: nat)
    requires a <= |p| && b <= |q| && a < i
    ensures RowVisited(p, q, a, b, i, j) <==> InRow(p, q, a, b)
  {
    if InRow(p, q, a, b) {
      var l := RowEntry(p, q, a, b);
      assert Before(a, l, i, j);
    }
    if RowVisited(p, q, a, b, i, j) {
      var l :| 0 <= l <= b && Before(a, l, i, j) && Reach(p, q, a, l);
      InRowOf(p, q, a, l, b);
    }
  }

  lemma WholeColumn(p: string, q: string, a: nat, b: nat, i: nat, j: nat)
    requires a <= |p| && b <= |q| && (a < i || (a == i && b < j))
    ensures ColumnVisited(p, q, a, b, i, j) <==> InColumn(p, q, a, b)
  {
    if InColumn(p, q, a, b) {
      var l := ColumnEntry(p, q, a, b);
      assert Before(l, b, i, j);
    }
    if ColumnVisited(p, q, a, b, i, j) {
      var l :| 0 <= l <= a && Before(l, b, i, j) && Reach(p, q, l, b);
      InColumnOf(p, q, l, a, b);
    }
  }

  lemma VisitStar(p: string, q: string, i: nat, j: nat)
    requires i <= |p| && j <= |q|
    ensures forall a, b :: 0 <= a <= |p| && 0 <= b <= |q| ==>
              (Via(p, q, a, b, i, j + 1) <==>
                 || Via(p, q, a, b, i, j)
                 || (Reach(p, q, i, j) && Leads(p, q, i, j, a, b)))
  {
    forall a, b | 0 <= a <= |p| && 0 <= b <= |q|
      ensures Via(p, q, a, b, i, j + 1) <==> Via(p, q, a, b, i, j) || (Reach(p, q, i, j) && Leads(p, q, i, j, a, b))
    {
      VisitOne(p, q, i, j, a, b);
    }
  }

  /** Entry (i, j) leads to entry (a, b). */
  predicate Leads(p: string, q: string, i: nat, j: nat, a: nat, b: nat)
    requires i <= |p| && j <= |q| && a <= |p| && b <= |q|
  {
    || (a == i + 1 && p[i] == '*' && j <= b)
    || (b == j + 1 && q[j] == '*' && i <= a)
    || (a == i + 1 && b == j + 1 && p[i] == q[j])
  }

  lemma VisitOne(p: string, q: string, i: nat, j: nat, a: nat, b: nat)
    requires i <= |p| && j <= |q| && a <= |p| && b <= |q|
    ensures Via(p, q, a, b, i, j + 1) <==> Via(p, q, a, b, i, j) || (Reach(p, q, i, j) && Leads(p, q, i, j, a, b))
  {
    hide Reach;
    if a > 0 {
      VisitRow(p, q, i, j, a - 1, b);
    }
    if b > 0 {
      VisitColumn(p, q, i, j, a, b - 1);
    }
  }

  lemma VisitRow(p: string, q: string, i: nat, j: nat, a: nat, b: nat)
    requires i <= |p| && j <= |q| && a <= |p| && b <= |q|
    ensures RowVisited(p, q, a, b, i, j + 1) <==>
        RowVisited(p, q, a, b, i, j) || (a == i && j <= b && Reach(p, q, i, j))
  {
    hide Reach;
    if RowVisited(p, q, a, b, i, j + 1) {
      var l :| 0 <= l <= b && Before(a, l, i, j + 1) && Reach(p, q, a, l);
      assert Before(a, l, i, j) || (a == i && l == j);
    }
  }

  lemma VisitColumn(p: string, q: string, i: nat, j: nat, a: nat, b: nat)
    requires i <= |p| && j <= |q| && a <= |p| && b <= |q|
    ensures ColumnVisited(p, q, a, b, i, j + 1) <==>
        ColumnVisited(p, q, a, b, i, j) || (b == j && i <= a && Reach(p, q, i, j))
  {
    hide Reach;
    if ColumnVisited(p, q, a, b, i, j + 1) {
      var l :| 0 <= l <= a && Before(l, b, i, j + 1) && Reach(p, q, l, b);
      assert Before(l, b, i, j) || (b == j && l == i);
    }
  }

  /** After the last entry of a row comes the first of the next. */
  lemma NextRow(p: string, q: string, i: nat, j: nat, next: nat)
    requires i <= |p| && j == |q| + 1 && next == i + 1
    ensures forall a, b :: 0 <= a <= |p| && 0 <= b <= |q| ==> (Via(p, q, a, b, i, j) <==> Via(p, q, a, b, next, 0))
  {
    forall a, b | 0 <= a <= |p| && 0 <= b <= |q| ensures Via(p, q, a, b, i, j) <==> Via(p, q, a, b, next, 0) {
      if a > 0 {
        SameRow(p, q, i, a - 1, b);
      }
      if b > 0 {
        SameColumn(p, q, i, a, b - 1);
      }
    }
  }

  lemma SameRow(p: string, q: string, i: nat, a: nat, b: nat)
    requires a <= |p| && b <= |q|
    ensures RowVisited(p, q, a, b, i, |q| + 1) <==> RowVisited(p, q, a, b, i + 1, 0)
  {
    hide Reach;
    if RowVisited(p, q, a, b, i, |q| + 1) {
      var l :| 0 <= l <= b && Before(a, l, i, |q| + 1) && Reach(p, q, a, l);
      assert Before(a, l, i + 1, 0);
    }
    if RowVisited(p, q, a, b, i + 1, 0) {
      var l :| 0 <= l <= b && Before(a, l, i + 1, 0) && Reach(p, q, a, l);
      assert Before(a, l, i, |q| + 1);
    }
  }

  lemma SameColumn(p: string, q: string, i: nat, a: nat, b: nat)
    requires a <= |p| && b <= |q|
    ensures ColumnVisited(p, q, a, b, i, |q| + 1) <==> ColumnVisited(p, q, a, b, i + 1, 0)
  {
    hide Reach;
    if ColumnVisited(p, q, a, b, i, |q| + 1) {
      var l :| 0 <= l <= a && Before(l, b, i, |q| + 1) && Reach(p, q, l, b);
      assert Before(l, b, i + 1, 0);
    }
    if ColumnVisited(p, q, a, b, i + 1, 0) {
      var l :| 0 <= l <= a && Before(l, b, i + 1, 0) && Reach(p, q, l, b);
      assert Before(l, b, i, |q| + 1);
    }
  }

  /** Fills the table for two names; the answer is whether they have an instance in common. */
  method Matches(key: string, linearName: string) returns (matches: bool)
    ensures matches <==> Common(key, linearName)
  {
    var n, m := |key|, |linearName|;
    var f := new bool[n + 1, m + 1]((a, b) => a == 0 && b == 0);
    var i := 0;
    while i <= n
      invariant 0 <= i <= n + 1
      invariant forall a, b :: 0 <= a <= n && 0 <= b <= m ==> (f[a, b] <==> Via(key, linearName, a, b, i, 0))
    {
      var j := 0;
      while j <= m
        invariant 0 <= j <= m + 1
        invariant forall a, b :: 0 <= a <= n && 0 <= b <= m ==> (f[a, b] <==> Via(key, linearName, a, b, i, j))
      {
        Complete(key, linearName, i, j, i, j);
        VisitStar(key, linearName, i, j);
        if f[i, j] {
          Visit(key, linearName, f, i, j);
        }
        j := j + 1;
      }
      NextRow(key, linearName, i, j, i + 1);
      i := i + 1;
    }
    Complete(key, linearName, n, m, n + 1, 0);
    ReachMeaning(key, linearName);
    matches := f[n, m];
  }

  /** Marks every entry that entry (i, j) leads to. */
  method Visit(key: string, linearName: string, f: array2<bool>, i: nat, j: nat)
    requires f.Length0 == |key| + 1 && f.Length1 == |linearName| + 1 && i <= |key| && j <= |linearName|
    modifies f
    ensures forall a, b :: 0 <= a <= |key| && 0 <= b <= |linearName| ==>
              (f[a, b] <==> old(f[a, b]) || Leads(key, linearName, i, j, a, b))
  {
    var n, m := |key|, |linearName|;
    if i + 1 <= n && key[i] == '*' {
      var l := j;
      while l <= m
        invariant j <= l <= m + 1
        invariant forall a, b :: 0 <= a <= n && 0 <= b <= m ==> (f[a, b] <==>
            old(f[a, b]) || (a == i + 1 && j <= b < l))
      {
        f[i + 1, l] := true;
        l := l + 1;
      }
    }
    label rows:
    if j + 1 <= m && linearName[j] == '*' {
      var l := i;
      while l <= n
        invariant i <= l <= n + 1
        invariant forall a, b :: 0 <= a <= n && 0 <= b <= m ==> (f[a, b] <==>
            old@rows(f[a, b]) || (b == j + 1 && i <= a < l))
      {
        f[l, j + 1] := true;
        l := l + 1;
      }
    }
    if i + 1 <= n && j + 1 <= m && key[i] == linearName[j] {
      f[i + 1, j + 1] := true;
    }
  }

  datatype WeightType = LINEAR | EMBEDDING | NONE

  class WeightMap {
    var embeddingNames: set<string>
    var linearNames: seq<string>

    /** A weight is linear exactly when it is not an embedding and its name has an instance in common with a linear
        name. */
    method GetWeightType(key: string) returns (t: WeightType)
      ensures t == EMBEDDING <==> key in embeddingNames
      ensures t == LINEAR <==> key !in embeddingNames && exists i ::
          0 <= i < |linearNames| && Common(key, linearNames[i])
    {
      if key in embeddingNames {
        return EMBEDDING;
      }
      var i := 0;
      while i < |linearNames|
        invariant 0 <= i <= |linearNames|
        invariant forall j :: 0 <= j < i ==> !Common(key, linearNames[j])
      {
        var matches := Matches(key, linearNames[i]);
        if matches {
          return LINEAR;
        }
        i := i + 1;
      }
      t := NONE;
    }
  }
}
