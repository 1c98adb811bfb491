/** The "first label per key" walk, stated for any labelling and any key:
    elements are visited in order, each is labelled, and its label is kept
    only when no earlier element's label has the same key. */
module FirstKeys {
  import opened Collections

  /** No element of `prev` has a label with the key of `g`'s label. */
  predicate NewKeyOf<T(==), L, K(==)>(prev: seq<T>, g: T, labelOf: T -> L, key: L -> K) {
    forall p :: p in prev ==> key(labelOf(p)) != key(labelOf(g))
  }

  /** The label of every element whose key no earlier element has, in the
      order they occur. */
  function KeepFirst<T(==), L, K(==)>(gs: seq<T>, labelOf: T -> L, key: L -> K): (r: seq<L>)
    ensures |r| <= |gs|
    decreases |gs|
  {
    if gs == [] then []
    else
      var init, g := gs[..|gs| - 1], gs[|gs| - 1];
      KeepFirst(init, labelOf, key) + (if NewKeyOf(init, g, labelOf, key) then [labelOf(g)] else [])
  }

  /** One step of the walk, for a sequence written as `prev + [g]`. */
  lemma KeepFirstSnoc<T, L, K>(prev: seq<T>, g: T, labelOf: T -> L, key: L -> K)
    ensures KeepFirst(prev + [g], labelOf, key) ==
      KeepFirst(prev, labelOf, key) + (if NewKeyOf(prev, g, labelOf, key) then [labelOf(g)] else [])
  {
    assert (prev + [g])[..|prev|] == prev;
  }

  /** Every kept label is the label of one of the elements. */
  lemma {:induction false} KeepFirstSound<T, L, K>(gs: seq<T>, labelOf: T -> L, key: L -> K)
    ensures forall c :: c in KeepFirst(gs, labelOf, key) ==> exists p :: p in gs && c == labelOf(p)
    decreases |gs|
  {
    if gs != [] {
      var init := gs[..|gs| - 1];
      assert gs == init + [gs[|gs| - 1]];
      KeepFirstSound(init, labelOf, key);
    }
  }

  /** No two elements of `r` have the same key. */
  predicate DistinctKeys<L, K(==)>(r: seq<L>, key: L -> K) {
    forall i, j :: 0 <= i < j < |r| ==> key(r[i]) != key(r[j])
  }

  /** No two kept labels share a key. */
  lemma {:induction false} KeepFirstDistinctKeys<T, L, K>(gs: seq<T>, labelOf: T -> L, key: L -> K)
    ensures DistinctKeys(KeepFirst(gs, labelOf, key), key)
    decreases |gs|
  {
    if gs != [] {
      var init, g := gs[..|gs| - 1], gs[|gs| - 1];
      KeepFirstDistinctKeys(init, labelOf, key);
      KeepFirstSound(init, labelOf, key);
      var k := KeepFirst(init, labelOf, key);
      if NewKeyOf(init, g, labelOf, key) {
        var r := k + [labelOf(g)];
        assert KeepFirst(gs, labelOf, key) == r;
        forall i, j | 0 <= i < j < |r| ensures key(r[i]) != key(r[j]) {
          if j == |k| {
            assert r[i] in k && r[j] == labelOf(g);
            var p :| p in init && r[i] == labelOf(p);
            assert key(labelOf(p)) != key(labelOf(g));
            assert key(r[i]) != key(r[j]);
          } else {
            assert r[i] == k[i] && r[j] == k[j];
          }
        }
      }
    }
  }

  /** The key of every element is the key of some kept label. */
  lemma {:induction false} KeepFirstCover<T, L, K>(gs: seq<T>, labelOf: T -> L, key: L -> K)
    ensures forall g :: g in gs ==> exists c :: c in KeepFirst(gs, labelOf, key) && key(c) == key(labelOf(g))
    decreases |gs|
  {
    if gs != [] {
      var init, last := gs[..|gs| - 1], gs[|gs| - 1];
      var k := KeepFirst(init, labelOf, key);
      assert gs == init + [last];
      KeepFirstCover(init, labelOf, key);
      forall g | g in gs ensures exists c :: c in KeepFirst(gs, labelOf, key) && key(c) == key(labelOf(g)) {
        if g in init {
          var c :| c in k && key(c) == key(labelOf(g));
          assert c in KeepFirst(gs, labelOf, key);
        } else if NewKeyOf(init, last, labelOf, key) {
          assert labelOf(last) in KeepFirst(gs, labelOf, key);
        } else {
          var p :| p in init && key(labelOf(p)) == key(labelOf(last));
          var c :| c in k && key(c) == key(labelOf(p));
          assert c in KeepFirst(gs, labelOf, key);
        }
      }
    }
  }

  /** The position of the element a kept label `c` comes from: the first
      one with that key. */
  lemma {:induction false} FirstSeenAt<T, L, K>(gs: seq<T>, labelOf: T -> L, key: L -> K, c: L) returns (j: nat)
    requires c in KeepFirst(gs, labelOf, key)
    ensures j < |gs| && c == labelOf(gs[j]) && NewKeyOf(gs[..j], gs[j], labelOf, key)
    decreases |gs|
  {
    var n := |gs| - 1;
    var init, last := gs[..n], gs[n];
    if c in KeepFirst(init, labelOf, key) {
      j := FirstSeenAt(init, labelOf, key, c);
      PrefixOfPrefix(gs, n, j);
    } else {
      j := n;
    }
  }

  /** The label of the element at `j` is kept when no earlier element has
      its key. */
  lemma {:induction false} CompleteAt<T, L, K>(gs: seq<T>, labelOf: T -> L, key: L -> K, j: nat)
    requires j < |gs| && NewKeyOf(gs[..j], gs[j], labelOf, key)
    ensures labelOf(gs[j]) in KeepFirst(gs, labelOf, key)
    decreases |gs|
  {
    var n := |gs| - 1;
    if j < n {
      PrefixOfPrefix(gs, n, j);
      CompleteAt(gs[..n], labelOf, key, j);
    }
  }

  /** Walking only the distinct elements keeps the same labels as walking
      all of them: a repeated element never brings a new key. */
  lemma {:induction false} KeepFirstOfUnique<T(!new), L, K>(gs: seq<T>, labelOf: T -> L, key: L -> K)
    ensures KeepFirst(Unique(gs), labelOf, key) == KeepFirst(gs, labelOf, key)
    decreases |gs|
  {
    if gs != [] {
      var init, x := gs[..|gs| - 1], gs[|gs| - 1];
      KeepFirstOfUnique(init, labelOf, key);
      var u := Unique(init);
      assert NewKeyOf(u, x, labelOf, key) <==> NewKeyOf(init, x, labelOf, key);
      if x !in u {
        KeepFirstSnoc(u, x, labelOf, key);
      }
    }
  }
}
