/** Counting the entries of a map that satisfy a predicate. */
module Counting {
  ghost function Where<V>(m: map<nat, V>, p: V -> bool): set<nat> {
    set id | id in m && p(m[id])
  }

  ghost function Count<V>(m: map<nat, V>, p: V -> bool): nat { |Where(m, p)| }

  function One(b: bool): nat { if b then 1 else 0 }

  /** Setting one entry changes the count by that entry alone. */
  lemma CountUpdate<V>(m: map<nat, V>, id: nat, v: V, p: V -> bool)
    ensures Count(m[id := v], p) == Count(m, p) + One(p(v)) - One(id in m && p(m[id]))
  {
    var before, after := Where(m, p), Where(m[id := v], p);
    assert after - {id} == before - {id};
    assert id in after <==> p(v);
    if id in after { assert after == (after - {id}) + {id}; }
    if id in before { assert before == (before - {id}) + {id}; }
  }

  lemma CountNone<V>(m: map<nat, V>, p: V -> bool)
    requires forall id :: id in m ==> !p(m[id])
    ensures Count(m, p) == 0
  {
    assert Where(m, p) == {};
  }

  /** A stronger predicate counts no more. */
  lemma CountMonotone<V>(m: map<nat, V>, p: V -> bool, q: V -> bool)
    requires forall id :: id in m && p(m[id]) ==> q(m[id])
    ensures Count(m, p) <= Count(m, q)
  {
    SubsetSize(Where(m, p), Where(m, q));
  }

  lemma {:induction false} SubsetSize(a: set<nat>, b: set<nat>)
    requires a <= b
    ensures |a| <= |b|
  {
    if a != {} {
      var x :| x in a;
      SubsetSize(a - {x}, b - {x});
    }
  }
}
