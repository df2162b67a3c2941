/** Kotlin's `List<Pair<K, V>>.toMap()`: pairs are entered left to right, so
    for a repeated key the last pair wins. */
module Maps {

  function ToMap<K, V>(ps: seq<(K, V)>): map<K, V>
    decreases |ps|
  {
    if |ps| == 0 then map[] else ToMap(ps[..|ps| - 1])[ps[|ps| - 1].0 := ps[|ps| - 1].1]
  }

  /** The keys of `toMap` are exactly the first components of the pairs. */
  lemma {:induction false} ToMapKeys<K, V>(ps: seq<(K, V)>)
    ensures forall k | k in ToMap(ps) :: exists p | p in ps :: p.0 == k
    ensures forall p | p in ps :: p.0 in ToMap(ps)
    decreases |ps|
  {
    if |ps| > 0 {
      ToMapKeys(ps[..|ps| - 1]);
      assert forall p | p in ps[..|ps| - 1] :: p in ps;
      assert forall p | p in ps :: p in ps[..|ps| - 1] || p == ps[|ps| - 1];
    }
  }

  /** When equal keys always carry equal values, `toMap` returns each pair's value for its key. */
  lemma {:induction false} ToMapFunctional<K, V>(ps: seq<(K, V)>)
    requires forall p, q | p in ps && q in ps && p.0 == q.0 :: p.1 == q.1
    ensures forall p | p in ps :: p.0 in ToMap(ps) && ToMap(ps)[p.0] == p.1
    decreases |ps|
  {
    if |ps| > 0 {
      var init := ps[..|ps| - 1];
      assert forall p | p in init :: p in ps;
      ToMapFunctional(init);
      forall p | p in ps
        ensures p.0 in ToMap(ps) && ToMap(ps)[p.0] == p.1
      {
        if p != ps[|ps| - 1] {
          assert p in init;
        }
      }
    }
  }

  /** Every entry of `toMap` is one of the pairs. */
  lemma {:induction false} ToMapPairs<K, V>(ps: seq<(K, V)>)
    ensures forall k | k in ToMap(ps) :: (k, ToMap(ps)[k]) in ps
    decreases |ps|
  {
    if |ps| > 0 {
      var init := ps[..|ps| - 1];
      ToMapPairs(init);
      assert forall p | p in init :: p in ps;
    }
  }
}
