/** Keys of a map in ascending order, as sort.Slice leaves them. */
module SortedIds {
  import opened Schedule

  predicate IsLeast(ids: set<u64>, m: u64) {
    m in ids && forall x :: x in ids ==> m <= x
  }

  lemma {:induction false} LeastId(ids: set<u64>) returns (m: u64)
    requires |ids| > 0
    ensures IsLeast(ids, m)
    decreases |ids|
  {
    m :| m in ids;
    var c, rest := m, ids - {m};
    if |rest| > 0 {
      var n := LeastId(rest);
      m := if n < c then n else c;
      assert m in ids;
    }
    forall x | x in ids ensures m <= x {
      assert x == c || x in rest;
    }
  }

  predicate Ascending(ids: seq<u64>) {
    forall i, j :: 0 <= i < j < |ids| ==> ids[i] < ids[j]
  }

  method Sort(keys: set<u64>) returns (ids: seq<u64>)
    ensures Ascending(ids) && |ids| == |keys| && forall x :: x in ids <==> x in keys
  {
    ids := [];
    var rest := keys;
    while rest != {}
      invariant Ascending(ids) && rest <= keys && |ids| + |rest| == |keys|
      invariant forall x :: x in keys <==> x in ids || x in rest
      invariant forall x, y :: x in ids && y in rest ==> x < y
    {
      ghost var m := LeastId(rest);
      var id: u64 :| id in rest && IsLeast(rest, id);
      assert IsLeast(rest, id);
      forall y | y in rest - {id} ensures id < y {
        assert y in rest;
      }
      assert id !in ids && forall i :: 0 <= i < |ids| ==> ids[i] in ids;
      ids, rest := ids + [id], rest - {id};
    }
  }
}
