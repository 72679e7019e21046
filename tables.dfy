/** Tables keyed by an integer primary key, and the order in which a query without
    ORDER BY hands back their rows. */
module Tables {

  /** Every key of `m` is a primary key already handed out: positive and below `next`, the
      (positive) key the next insert receives. */
  ghost predicate KeysBelow<V>(m: map<int, V>, next: int)
  {
    1 <= next && forall id :: id in m ==> 1 <= id < next
  }

  /** The ids of a table in the order a `select ... .all()` returns its rows. That order is not
      specified, so the rows are taken one at a time in any order: each key exactly once. */
  method Enumerate<V>(m: map<int, V>) returns (ids: seq<int>)
    ensures |ids| == |m|
    ensures forall i :: 0 <= i < |ids| ==> ids[i] in m
    ensures forall id :: id in m ==> id in ids
    ensures forall i, j :: 0 <= i < j < |ids| ==> ids[i] != ids[j]
  {
    ids := [];
    var rest := m.Keys;
    while rest != {}
      invariant rest <= m.Keys
      invariant |ids| + |rest| == |m|
      invariant forall i :: 0 <= i < |ids| ==> ids[i] in m && ids[i] !in rest
      invariant forall id :: id in m && id !in rest ==> id in ids
      invariant forall i, j :: 0 <= i < j < |ids| ==> ids[i] != ids[j]
      decreases |rest|
    {
      EmptyOrInhabited(rest);
      var k :| k in rest;
      ids := ids + [k];
      rest := rest - {k};
    }
  }


  /** A set is empty or has an element (set extensionality, spelled out for the solver). */
  lemma EmptyOrInhabited(s: set<int>)
    ensures s == {} || exists k :: k in s
  {
    if forall k :: k !in s {
      assert s == {};
    }
  }

  /** The rows of `m` that satisfy `keep`: the `select ... where` of a read. */
  function Where<V>(m: map<int, V>, keep: V -> bool): map<int, V>
  {
    map id | id in m && keep(m[id]) :: m[id]
  }
}
