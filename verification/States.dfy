/** The recurrent states: rows of a hidden half followed by a context half, in a flat buffer. */
module States {

  import Grid

  function Start(row: nat, features: nat): nat { row * (features + features) }

  function Hidden(row: nat, features: nat, c: nat): nat { Start(row, features) + c }

  function Context(row: nat, features: nat, c: nat): nat { Start(row, features) + features + c }

  /** The cells in numbers: the hidden half comes first in its row. */
  lemma HalvesAre(row: nat, features: nat, c: nat)
    ensures Hidden(row, features, c) == row * (features + features) + c
    ensures Context(row, features, c) == row * (features + features) + features + c
  {}

  lemma Next(row: nat, features: nat)
    ensures Start(row + 1, features) == Start(row, features) + features + features
  {}

  lemma Ordered(row: nat, rows: nat, features: nat)
    requires row < rows
    ensures Start(row, features) + features + features <= Start(rows, features)
  {
    Grid.RowEnd(row, rows, features + features);
  }

  lemma ContextsDiffer(features: nat, row: nat, c: nat, row': nat, c': nat)
    requires c < features && c' < features && Context(row, features, c) == Context(row', features, c')
    ensures row == row' && c == c'
  {
    Grid.Injective(features + features, row, features + c, row', features + c');
  }

  lemma HalvesDiffer(features: nat, row: nat, c: nat, row': nat, c': nat)
    requires c < features && c' < features
    ensures Hidden(row, features, c) != Context(row', features, c')
  {
    if Hidden(row, features, c) == Context(row', features, c') {
      Grid.Injective(features + features, row, c, row', features + c');
    }
  }

  /** Every cell belongs to one of the halves. */
  lemma Cover(rows: nat, features: nat, x: nat) returns (row: nat, c: nat)
    requires x < Start(rows, features)
    ensures row < rows && c < features && (x == Hidden(row, features, c) || x == Context(row, features, c))
  {
    row, c := Grid.Cover(rows, features + features, x);
    if c >= features { c := c - features; }
  }
}
