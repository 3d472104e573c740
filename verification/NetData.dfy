/** The values that the convolution examples put in their buffers. */
module NetData {

  import opened Grid

  const PERIOD := 1637

  /** The first n cells hold their own index, modulo the period; the others are as before. */
  ghost predicate Filled(now: seq<real>, was: seq<real>, n: nat) {
    && |now| == |was|
    && forall x :: 0 <= x < |now| ==> now[x] == if x < n then (x % PERIOD) as real else was[x]
  }

  lemma OneMore(now: seq<real>, was: seq<real>, n: nat)
    requires Filled(now, was, n) && n < |now|
    ensures Filled(now[n := (n % PERIOD) as real], was, n + 1)
  {}

  lemma NextRow(row: nat, width: nat)
    ensures Cell(row, width, width) == Cell(row + 1, width, 0)
  {}

  /** The four-dimensional index expression walks through the cells in order. */
  lemma IndexIsNested(d1: nat, d2: nat, d3: nat, n: nat, c: nat, h: nat, w: nat)
    ensures n * d1 * d2 * d3 + c * d2 * d3 + h * d3 + w == Cell(Cell(Cell(n, d1, c), d2, h), d3, w)
  {
    assert Cell(Cell(n, d1, c), d2, h) == n * d1 * d2 + c * d2 + h;
    assert (n * d1 * d2 + c * d2 + h) * d3 == n * d1 * d2 * d3 + c * d2 * d3 + h * d3;
  }

  /** What the loops fill: one axis, or the product of four, or nothing. */
  function Reach(dim: nat, dims: seq<nat>): nat
    requires (dim == 1 ==> |dims| >= 1) && (dim == 4 ==> |dims| >= 4)
  {
    if dim == 1 then dims[0]
    else if dim == 4 then dims[0] * dims[1] * dims[2] * dims[3]
    else 0
  }

  /** init_net_data: however the axes are split, every cell gets its own index. */
  method InitNetData(data: array<real>, dim: nat, dims: seq<nat>)
    requires (dim == 1 ==> |dims| >= 1) && (dim == 4 ==> |dims| >= 4)
    requires Reach(dim, dims) <= data.Length
    modifies data
    ensures Filled(data[..], old(data[..]), Reach(dim, dims))
    ensures dim == 1 ==> forall x :: 0 <= x < dims[0] ==> data[x] == (x % 1637) as real
    ensures dim == 4 ==> forall x :: 0 <= x < dims[0] * dims[1] * dims[2] * dims[3] ==> data[x] == (x % 1637) as real
    ensures dim != 1 && dim != 4 ==> data[..] == old(data[..])
  {
    ghost var was := data[..];
    if dim == 1 {
      for i := 0 to dims[0]
        invariant Filled(data[..], was, i)
      {
        OneMore(data[..], was, i);
        data[i] := (i % PERIOD) as real;
      }
    } else if dim == 4 {
      var d1, d2, d3 := dims[1], dims[2], dims[3];
      for n := 0 to dims[0]
        invariant Filled(data[..], was, Cell(Cell(Cell(n, d1, 0), d2, 0), d3, 0))
      {
        for c := 0 to d1
          invariant Filled(data[..], was, Cell(Cell(Cell(n, d1, c), d2, 0), d3, 0))
        {
          for h := 0 to d2
            invariant Filled(data[..], was, Cell(Cell(Cell(n, d1, c), d2, h), d3, 0))
          {
            InBounds(n, dims[0], d1, c);
            InBounds(Cell(n, d1, c), dims[0] * d1, d2, h);
            FillLine(data, dims, n, c, h, was);
            NextRow(Cell(Cell(n, d1, c), d2, h), d3);
          }
          NextRow(Cell(n, d1, c), d2);
        }
        NextRow(n, d1);
      }
    }
  }

  /** The innermost loop. */
  method FillLine(data: array<real>, dims: seq<nat>, n: nat, c: nat, h: nat, ghost was: seq<real>)
    requires |dims| >= 4 && dims[0] * dims[1] * dims[2] * dims[3] <= data.Length
    requires Cell(Cell(n, dims[1], c), dims[2], h) < dims[0] * dims[1] * dims[2]
    requires Filled(data[..], was, Cell(Cell(Cell(n, dims[1], c), dims[2], h), dims[3], 0))
    modifies data
    ensures Filled(data[..], was, Cell(Cell(Cell(n, dims[1], c), dims[2], h), dims[3], dims[3]))
  {
    var d1, d2, d3 := dims[1], dims[2], dims[3];
    ghost var row := Cell(Cell(n, d1, c), d2, h);
    for w := 0 to d3
      invariant Filled(data[..], was, Cell(row, d3, w))
    {
      InBounds(row, dims[0] * d1 * d2, d3, w);
      IndexIsNested(d1, d2, d3, n, c, h, w);
      var indx := n * d1 * d2 * d3 + c * d2 * d3 + h * d3 + w;
      OneMore(data[..], was, indx);
      data[indx] := (indx % PERIOD) as real;
      assert Cell(row, d3, w + 1) == indx + 1;
    }
  }

  /** Cell 1636 holds 1636, and cell 1637 starts again at zero. */
  method PeriodExample() returns (last: real, next: real)
    ensures last == 1636.0 && next == 0.0
  {
    var data := new real[2000](_ => 1.0);
    InitNetData(data, 4, [2, 10, 10, 10]);
    last, next := data[1636], data[1637];
  }
}
