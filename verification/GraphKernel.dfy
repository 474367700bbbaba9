/** What the ops mean for plain numbers: the parameters of the semantics filled in for one kind of weight. */
module GraphKernel {
  import opened Arithmetic
  import opened GraphSemantics

  /** A row of a weight has its own share of the bytes and of the metadata. */
  lemma RowFields(d: Data, o: nat, columns: nat)
    requires HasRows(d) && o < d.dims[0] && |d.bytes| == d.dims[0] * columns
    requires |d.configs| == |d.zeros| == |d.scales| == |d.mins| == d.dims[0]
    ensures 0 <= o * columns && o * columns + columns <= |d.bytes|
    ensures RowAt(d, o) == Row(d.dataType, d.dims[1], d.group, d.groupCnt, d.perChannelAxis,
        d.bytes[o * columns..o * columns + columns], [d.configs[o]], [d.zeros[o]], [d.scales[o]], [d.mins[o]])
  {
    SlotFits(o, d.dims[0], columns);
    EvenShare(d.bytes, d.dims[0], columns, o);
    OneEach(d.configs, o);
    OneEach(d.zeros, o);
    OneEach(d.scales, o);
    OneEach(d.mins, o);
  }

  lemma EvenShare<T>(s: seq<T>, rows: nat, u: nat, o: nat)
    requires o < rows && |s| == rows * u
    ensures 0 <= o * u && o * u + u <= |s| && Part(s, rows, o) == s[o * u..o * u + u]
  {
    SlotFits(o, rows, u);
    ExactDiv(u, rows);
  }

  lemma OneEach<T>(s: seq<T>, o: nat)
    requires o < |s|
    ensures Part(s, |s|, o) == [s[o]]
  {
    EvenShare(s, |s|, 1, o);
  }

  /** The product of the first n numbers of two lists. */
  function Dot(a: seq<int>, x: seq<real>, n: nat): real
    requires n <= |a| && n <= |x|
  {
    if n == 0 then 0.0 else Dot(a, x, n - 1) + a[n - 1] as real * x[n - 1]
  }

  /** Plain numbers: every byte of a row is a factor, and the byte of a bias is added. */
  ghost predicate Plain(k: Kernel) {
    && (forall r: Row, x: seq<real> {:trigger k.dot(r, x)} :: |r.bytes| == |x| ==> k.dot(r, x) == Dot(r.bytes, x, |x|))
    && (forall t: int, b: seq<int> {:trigger k.bias(t, b)} :: |b| == 1 ==> k.bias(t, b) == b[0] as real)
  }

  /** Linear is the product of a matrix with a weight, row by row, with the bias added: entry o of a row is the product
      of the row with row o of the weight, plus entry o of the bias. */
  lemma LinearIsProduct(k: Kernel, x: seq<seq<real>>, w: Data, b: Data, i: nat, o: nat, columns: nat)
    requires Plain(k) && HasRows(w) && i < |x| && |x[i]| == columns && o < w.dims[0]
    requires |w.bytes| == w.dims[0] * columns && b.dims == [w.dims[0]] && |b.bytes| == w.dims[0]
    ensures var with, without := LinearValue(k, Matrix(x), Weight(w), Weight(b)),
                                 LinearValue(k, Matrix(x), Weight(w), Nothing);
      && 0 <= o * columns && o * columns + columns <= |w.bytes|
      && var product := Dot(w.bytes[o * columns..o * columns + columns], x[i], columns);
      && |Rows(with)| == |Rows(without)| == |x| && |Rows(with)[i]| == |Rows(without)[i]| == w.dims[0]
      && Rows(with)[i][o] == product + b.bytes[o] as real
      && Rows(without)[i][o] == product
  {
    EvenShare(w.bytes, w.dims[0], columns, o);
    OneEach(b.bytes, o);
    assert RowAt(w, o).bytes == w.bytes[o * columns..o * columns + columns];
  }
}
