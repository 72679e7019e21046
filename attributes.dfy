/** The `setattr` loops of the update operations: a dict of column assignments carried out on
    a row one after another, in the dict's insertion order. */
module Attributes {

  /** The row after the assignments of `fs` were made in order by `assign`. */
  function SetAttrs<R, F>(row: R, fs: seq<F>, assign: (R, F) -> R): R
    decreases |fs|
  {
    if fs == [] then row else assign(SetAttrs(row, fs[..|fs| - 1], assign), fs[|fs| - 1])
  }

  /** One assignment more at the end is one more step of the loop. */
  lemma SetAttrsSnoc<R, F>(row: R, fs: seq<F>, f: F, assign: (R, F) -> R)
    ensures SetAttrs(row, fs + [f], assign) == assign(SetAttrs(row, fs, assign), f)
  {
    assert (fs + [f])[..|fs|] == fs;
  }

  /** Two batches of assignments in a row are the concatenated batch. */
  lemma {:induction false} SetAttrsConcat<R, F>(row: R, a: seq<F>, b: seq<F>, assign: (R, F) -> R)
    ensures SetAttrs(row, a + b, assign) == SetAttrs(SetAttrs(row, a, assign), b, assign)
    decreases |b|
  {
    if b == [] {
      assert a + b == a;
    } else {
      var init := b[..|b| - 1];
      assert a + b == (a + init) + [b[|b| - 1]];
      assert b == init + [b[|b| - 1]];
      SetAttrsSnoc(row, a + init, b[|b| - 1], assign);
      SetAttrsSnoc(SetAttrs(row, a, assign), init, b[|b| - 1], assign);
      SetAttrsConcat(row, a, init, assign);
    }
  }

  /** A batch of at most one assignment. */
  lemma SetAttrsAtMostOne<R, F>(row: R, fs: seq<F>, assign: (R, F) -> R)
    requires |fs| <= 1
    ensures SetAttrs(row, fs, assign) == if fs == [] then row else assign(row, fs[0])
  {
    if fs != [] {
      SetAttrsSnoc(row, [], fs[0], assign);
      assert [] + [fs[0]] == fs;
    }
  }

  /** Three optional assignments, made in order: the row the update loop leaves. */
  lemma SetAttrsThree<R, F>(row: R, a: seq<F>, b: seq<F>, c: seq<F>, assign: (R, F) -> R)
    requires |a| <= 1 && |b| <= 1 && |c| <= 1
    ensures SetAttrs(row, a + b + c, assign)
         == var ra := if a == [] then row else assign(row, a[0]);
            var rb := if b == [] then ra else assign(ra, b[0]);
            if c == [] then rb else assign(rb, c[0])
  {
    SetAttrsConcat(row, a + b, c, assign);
    SetAttrsConcat(row, a, b, assign);
    SetAttrsAtMostOne(row, a, assign);
    SetAttrsAtMostOne(SetAttrs(row, a, assign), b, assign);
    SetAttrsAtMostOne(SetAttrs(row, a + b, assign), c, assign);
  }

  /** The `for key, value in data.items(): setattr(row, key, value)` loop itself. */
  method AssignAll<R, F>(row: R, fs: seq<F>, assign: (R, F) -> R) returns (r: R)
    ensures r == SetAttrs(row, fs, assign)
  {
    r := row;
    for i := 0 to |fs|
      invariant r == SetAttrs(row, fs[..i], assign)
    {
      assert fs[..i + 1] == fs[..i] + [fs[i]];
      SetAttrsSnoc(row, fs[..i], fs[i], assign);
      r := assign(r, fs[i]);
    }
    assert fs[..|fs|] == fs;
  }
}
