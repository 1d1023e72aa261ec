/** Python dictionaries built from sequences of pairs. */
module Dict {

  /** The keys of a sequence of pairs. */
  function Keys<K, V>(ps: seq<(K, V)>): set<K> {
    set i | 0 <= i < |ps| :: ps[i].0
  }

  predicate Distinct<T(==)>(xs: seq<T>) {
    forall i, j :: 0 <= i < j < |xs| ==> xs[i] != xs[j]
  }

  predicate UniqueKeys<K(==), V>(ps: seq<(K, V)>) {
    forall i, j :: 0 <= i < j < |ps| ==> ps[i].0 != ps[j].0
  }

  /**
   * `dict(ps)`, or `{k: v for k, v in ps}`: the pairs are stored in order,
   * so a later pair overrides an earlier one with the same key.
   */
  function LastWins<K, V>(ps: seq<(K, V)>): (m: map<K, V>)
    ensures m.Keys == Keys(ps)
    decreases |ps|
  {
    if ps == [] then map[]
    else
      var front := ps[..|ps| - 1];
      assert Keys(ps) == Keys(front) + {ps[|ps| - 1].0} by {
        forall k | k in Keys(ps) ensures k in Keys(front) + {ps[|ps| - 1].0} {
          var i :| 0 <= i < |ps| && ps[i].0 == k;
          if i < |front| { assert front[i].0 == k; }
        }
        forall k | k in Keys(front) ensures k in Keys(ps) {
          var i :| 0 <= i < |front| && front[i].0 == k;
          assert ps[i].0 == k;
        }
      }
      LastWins(front)[ps[|ps| - 1].0 := ps[|ps| - 1].1]
  }

  lemma LastWinsSnoc<K, V>(ps: seq<(K, V)>, p: (K, V))
    ensures LastWins(ps + [p]) == LastWins(ps)[p.0 := p.1]
  {
    assert (ps + [p])[..|ps|] == ps;
  }

  /** The value stored under a key is that of the last pair with the key. */
  lemma {:induction false} LastWinsValue<K, V>(ps: seq<(K, V)>, j: int)
    requires 0 <= j < |ps|
    requires forall k :: j < k < |ps| ==> ps[k].0 != ps[j].0
    ensures ps[j].0 in LastWins(ps) && LastWins(ps)[ps[j].0] == ps[j].1
    decreases |ps|
  {
    if j < |ps| - 1 {
      var front := ps[..|ps| - 1];
      LastWinsValue(front, j);
    }
  }

  /** Every stored key and value comes from one pair. */
  lemma {:induction false} LastWinsEntry<K, V>(ps: seq<(K, V)>, k: K)
    requires k in LastWins(ps)
    ensures exists j :: 0 <= j < |ps| && ps[j].0 == k && ps[j].1 == LastWins(ps)[k]
    decreases |ps|
  {
    var last := ps[|ps| - 1];
    if last.0 != k {
      var front := ps[..|ps| - 1];
      LastWinsEntry(front, k);
      var j :| 0 <= j < |front| && front[j].0 == k && front[j].1 == LastWins(front)[k];
      assert ps[j] == front[j];
    } else {
      assert ps[|ps| - 1].0 == k;
    }
  }

  lemma UnionUpdate<K, V>(a: map<K, V>, b: map<K, V>, k: K, v: V)
    ensures (a + b)[k := v] == a + b[k := v]
  {
  }

  /** Building from a concatenation is the right-biased union of the two dictionaries. */
  lemma {:induction false} LastWinsConcat<K, V>(ps: seq<(K, V)>, qs: seq<(K, V)>)
    ensures LastWins(ps + qs) == LastWins(ps) + LastWins(qs)
    decreases |qs|
  {
    if qs == [] {
      assert ps + qs == ps;
    } else {
      var front := qs[..|qs| - 1];
      var q := qs[|qs| - 1];
      LastWinsConcat(ps, front);
      assert ps + qs == (ps + front) + [q];
      LastWinsSnoc(ps + front, q);
      assert qs == front + [q];
      LastWinsSnoc(front, q);
      UnionUpdate(LastWins(ps), LastWins(front), q.0, q.1);
    }
  }
}
