/**
 * `random_sampled` of wsiclass/datasets/sampled.py: the true cells of a
 * mask in `np.where` order, then either all of them or `number` draws with
 * replacement.  The random generator is replaced by the sequence of indices
 * it would have produced.
 */
module Sampling {
  import opened Grids

  /** A mask cell: `x` indexes the first axis, `y` the second. */
  datatype Coord = Coord(x: int, y: int)

  predicate IsTrueCell(m: Grid<bool>, c: Coord) {
    0 <= c.x < |m| && 0 <= c.y < |m[c.x]| && m[c.x][c.y]
  }

  /** Row-major order: first axis, then second. */
  predicate Before(a: Coord, b: Coord) {
    a.x < b.x || (a.x == b.x && a.y < b.y)
  }

  predicate RowMajor(cs: seq<Coord>) {
    forall i, j :: 0 <= i < j < |cs| ==> Before(cs[i], cs[j])
  }

  predicate NoDuplicates(cs: seq<Coord>) {
    forall i, j :: 0 <= i < j < |cs| ==> cs[i] != cs[j]
  }

  lemma RowMajorHasNoDuplicates(cs: seq<Coord>)
    requires RowMajor(cs)
    ensures NoDuplicates(cs)
  {
  }

  lemma {:induction false} RowMajorConcat(a: seq<Coord>, b: seq<Coord>)
    requires RowMajor(a) && RowMajor(b)
    requires forall i, j :: 0 <= i < |a| && 0 <= j < |b| ==> Before(a[i], b[j])
    ensures RowMajor(a + b)
  {
    var ab := a + b;
    forall i, j | 0 <= i < j < |ab|
      ensures Before(ab[i], ab[j])
    {
      if j < |a| {
        assert ab[i] == a[i] && ab[j] == a[j];
      } else if i >= |a| {
        assert ab[i] == b[i - |a|] && ab[j] == b[j - |a|];
      } else {
        assert ab[i] == a[i] && ab[j] == b[j - |a|];
      }
    }
  }

  /** The true cells of one row `x`, by increasing `y`. */
  function RowCells(row: seq<bool>, x: int): (cs: seq<Coord>)
    decreases |row|
    ensures forall c :: c in cs <==> c.x == x && 0 <= c.y < |row| && row[c.y]
    ensures RowMajor(cs)
  {
    if |row| == 0 then []
    else
      var init := RowCells(row[..|row| - 1], x);
      var last := if row[|row| - 1] then [Coord(x, |row| - 1)] else [];
      assert forall i :: 0 <= i < |init| ==> init[i] in init;
      RowMajorConcat(init, last);
      init + last
  }

  /** `np.where(mask)` zipped into coordinates: every true cell, once, in
      row-major order. */
  function Where(m: Grid<bool>): (cs: seq<Coord>)
    decreases |m|
    ensures forall c :: c in cs <==> IsTrueCell(m, c)
    ensures RowMajor(cs)
  {
    if |m| == 0 then []
    else
      var init := Where(m[..|m| - 1]);
      var last := RowCells(m[|m| - 1], |m| - 1);
      assert forall i :: 0 <= i < |init| ==> init[i] in init;
      assert forall j :: 0 <= j < |last| ==> last[j] in last;
      RowMajorConcat(init, last);
      init + last
  }

  /** The number of true cells, counted row by row. */
  function CountTrue(m: Grid<bool>): nat
    decreases |m|
  {
    if |m| == 0 then 0 else CountTrue(m[..|m| - 1]) + CountRow(m[|m| - 1])
  }

  function CountRow(row: seq<bool>): nat
    decreases |row|
  {
    if |row| == 0 then 0 else CountRow(row[..|row| - 1]) + (if row[|row| - 1] then 1 else 0)
  }

  /** `vertices.shape[0]` is the number of true cells. */
  lemma {:induction false} WhereLengthIsCount(m: Grid<bool>)
    decreases |m|
    ensures |Where(m)| == CountTrue(m)
  {
    if |m| > 0 {
      WhereLengthIsCount(m[..|m| - 1]);
      RowCellsLengthIsCount(m[|m| - 1], |m| - 1);
    }
  }

  lemma {:induction false} RowCellsLengthIsCount(row: seq<bool>, x: int)
    decreases |row|
    ensures |RowCells(row, x)| == CountRow(row)
  {
    if |row| > 0 {
      RowCellsLengthIsCount(row[..|row| - 1], x);
    }
  }

  /** What the random generator must deliver: on the drawing branch
      (`T >= number`), `number` indices each in `[0, T)`. */
  predicate ValidDraws(total: nat, number: nat, draws: seq<nat>) {
    total >= number ==> |draws| == number && forall i :: 0 <= i < |draws| ==> draws[i] < total
  }

  function Min(a: nat, b: nat): nat {
    if a < b then a else b
  }

  /** `random_sampled(mask, number)` with `draws` standing for
      `np.random.randint(T, size=number)`.  The test is a strict `<`, so when
      exactly `number` cells are true the result is still drawn. */
  function RandomSampled(m: Grid<bool>, number: nat, draws: seq<nat>): (r: seq<Coord>)
    requires ValidDraws(|Where(m)|, number, draws)
    ensures |r| == Min(|Where(m)|, number)
    ensures forall i :: 0 <= i < |r| ==> IsTrueCell(m, r[i])
    ensures |Where(m)| < number ==> r == Where(m)
    ensures |Where(m)| >= number ==> forall i :: 0 <= i < |r| ==> r[i] == Where(m)[draws[i]]
  {
    var vertices := Where(m);
    if |vertices| < number then vertices
    else seq(number, i requires 0 <= i < number => vertices[draws[i]])
  }

  /** Too few true cells: every one of them, in row-major order, each once. */
  lemma ShortMaskGivesAllCellsOnce(m: Grid<bool>, number: nat, draws: seq<nat>)
    requires ValidDraws(|Where(m)|, number, draws)
    requires CountTrue(m) < number
    ensures RowMajor(RandomSampled(m, number, draws))
    ensures NoDuplicates(RandomSampled(m, number, draws))
    ensures forall c :: c in RandomSampled(m, number, draws) <==> IsTrueCell(m, c)
  {
    WhereLengthIsCount(m);
    RowMajorHasNoDuplicates(Where(m));
  }

  /** An all-false mask gives no samples for any positive `number`. */
  lemma EmptyMaskGivesNoSamples(m: Grid<bool>, rows: nat, cols: nat, number: nat, draws: seq<nat>)
    requires HasShape(m, rows, cols) && AllFalse(m, rows, cols)
    requires number >= 1
    ensures ValidDraws(|Where(m)|, number, draws)
    ensures RandomSampled(m, number, draws) == []
  {
    if |Where(m)| > 0 {
      assert Where(m)[0] in Where(m);
    }
  }

  /** With exactly `number` true cells the code still draws, so a sample can
      repeat a cell even though enough distinct cells exist. */
  lemma ExactCountCanRepeat()
    ensures var m := [[true, true]];
      |Where(m)| == 2 && ValidDraws(2, 2, [0, 0]) &&
      RandomSampled(m, 2, [0, 0]) == [Coord(0, 0), Coord(0, 0)]
  {
    var m := [[true, true]];
    assert m[..0] == [];
    assert m[0][..1] == [true];
    assert m[0][..1][..0] == [];
    assert RowCells([true], 0) == [Coord(0, 0)];
    assert RowCells([true, true], 0) == [Coord(0, 0), Coord(0, 1)];
    assert Where(m) == Where([]) + RowCells([true, true], 0);
  }
}
