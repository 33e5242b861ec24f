/** Python's built-in `dict` as the sweep code uses it: a key keeps the position of its first
    insertion, and assigning to a key that is already present replaces only its value. Keys
    are always strings here (parameter names). */
module Dicts {

  datatype Dict<V> = Dict(keys: seq<string>, m: map<string, V>)

  ghost predicate Distinct(s: seq<string>)
  {
    forall i, j :: 0 <= i < j < |s| ==> s[i] != s[j]
  }

  /** The representation invariant: the key order lists every key of the map exactly once. */
  ghost predicate Valid<V>(d: Dict<V>)
  {
    Distinct(d.keys) && forall k :: k in d.m <==> k in d.keys
  }

  function Empty<V>(): (d: Dict<V>)
    ensures Valid(d) && d.keys == [] && d.m == map[]
  {
    Dict([], map[])
  }

  /** `d[k] = v` */
  function Set<V>(d: Dict<V>, k: string, v: V): (r: Dict<V>)
    requires Valid(d)
    ensures Valid(r)
  {
    if k in d.m then Dict(d.keys, d.m[k := v]) else Dict(d.keys + [k], d.m[k := v])
  }

  /** `d[k] if k in d else default` */
  function Get<V>(d: Dict<V>, k: string, default: V): V
  {
    if k in d.m then d.m[k] else default
  }

  /** Assigning the pairs of `ps` one after the other. */
  function InsertAll<V>(d: Dict<V>, ps: seq<(string, V)>): (r: Dict<V>)
    requires Valid(d)
    ensures Valid(r)
    decreases |ps|
  {
    if ps == [] then d
    else
      var last := ps[|ps| - 1];
      Set(InsertAll(d, ps[..|ps| - 1]), last.0, last.1)
  }

  /** A dict comprehension `{k: v for (k, v) in ps}`. */
  function FromPairs<V>(ps: seq<(string, V)>): (r: Dict<V>)
    ensures Valid(r)
  {
    InsertAll(Empty(), ps)
  }

  /** `d.items()`, in key order. */
  function Items<V>(d: Dict<V>): seq<(string, V)>
    requires Valid(d)
  {
    seq(|d.keys|, i requires 0 <= i < |d.keys| reads {} => (d.keys[i], d.m[d.keys[i]]))
  }

  /** `d.update(e)`: every item of `e`, in `e`'s order, assigned into `d`. */
  function Update<V>(d: Dict<V>, e: Dict<V>): (r: Dict<V>)
    requires Valid(d) && Valid(e)
    ensures Valid(r)
  {
    InsertAll(d, Items(e))
  }

  // ---------------------------------------------------------------------------------------
  // Reference definitions: the key order and the value map that a sequence of assignments
  // leaves behind.

  function Names<V>(ps: seq<(string, V)>): (r: seq<string>)
    ensures |r| == |ps| && forall i :: 0 <= i < |ps| ==> r[i] == ps[i].0
  {
    if ps == [] then [] else Names(ps[..|ps| - 1]) + [ps[|ps| - 1].0]
  }

  /** `ks` followed by the names of `xs` not seen before, in first-occurrence order. */
  function Extend(ks: seq<string>, xs: seq<string>): seq<string>
    decreases |xs|
  {
    if xs == [] then ks
    else
      var e := Extend(ks, xs[..|xs| - 1]);
      if xs[|xs| - 1] in e then e else e + [xs[|xs| - 1]]
  }

  /** The names of `xs` without repetitions, each at its first occurrence. */
  function Dedup(xs: seq<string>): seq<string>
  {
    Extend([], xs)
  }

  /** The map that the assignments `ps` produce, later assignments overriding earlier ones. */
  function PairsMap<V>(ps: seq<(string, V)>): map<string, V>
    decreases |ps|
  {
    if ps == [] then map[] else PairsMap(ps[..|ps| - 1])[ps[|ps| - 1].0 := ps[|ps| - 1].1]
  }

  // ---------------------------------------------------------------------------------------
  // Lemmas

  lemma {:induction false} ExtendFacts(ks: seq<string>, xs: seq<string>)
    requires Distinct(ks)
    ensures Distinct(Extend(ks, xs))
    ensures forall k :: k in Extend(ks, xs) <==> k in ks || k in xs
    ensures |ks| <= |Extend(ks, xs)| && Extend(ks, xs)[..|ks|] == ks
    decreases |xs|
  {
    if xs != [] {
      ExtendFacts(ks, xs[..|xs| - 1]);
      assert xs == xs[..|xs| - 1] + [xs[|xs| - 1]];
      var e := Extend(ks, xs[..|xs| - 1]);
      if xs[|xs| - 1] !in e {
        assert (e + [xs[|xs| - 1]])[..|ks|] == e[..|ks|];
      }
    }
  }

  /** Extending with a concatenation is extending twice. */
  lemma {:induction false} ExtendAppend(ks: seq<string>, xs: seq<string>, ys: seq<string>)
    ensures Extend(ks, xs + ys) == Extend(Extend(ks, xs), ys)
    decreases |ys|
  {
    if ys == [] {
      assert xs + ys == xs;
    } else {
      ExtendAppend(ks, xs, ys[..|ys| - 1]);
      assert (xs + ys)[..|xs + ys| - 1] == xs + ys[..|ys| - 1];
    }
  }

  /** Extending by names that are already present changes nothing. */
  lemma {:induction false} ExtendKnown(ks: seq<string>, xs: seq<string>)
    requires forall x :: x in xs ==> x in ks
    ensures Extend(ks, xs) == ks
    decreases |xs|
  {
    if xs != [] {
      ExtendKnown(ks, xs[..|xs| - 1]);
    }
  }

  /** Extending by fresh distinct names appends them all, in order. */
  lemma {:induction false} ExtendFresh(ks: seq<string>, xs: seq<string>)
    requires Distinct(xs) && forall x :: x in xs ==> x !in ks
    ensures Extend(ks, xs) == ks + xs
    decreases |xs|
  {
    if xs != [] {
      var init := xs[..|xs| - 1];
      ExtendFresh(ks, init);
      assert xs[|xs| - 1] !in init;
      assert ks + init + [xs[|xs| - 1]] == ks + xs;
    }
  }

  /** A list without repetitions is its own deduplication. */
  lemma DedupDistinct(xs: seq<string>)
    requires Distinct(xs)
    ensures Dedup(xs) == xs
  {
    ExtendFresh([], xs);
  }

  lemma {:induction false} InsertAllKeys<V>(d: Dict<V>, ps: seq<(string, V)>)
    requires Valid(d)
    ensures InsertAll(d, ps).keys == Extend(d.keys, Names(ps))
    decreases |ps|
  {
    if ps != [] {
      InsertAllKeys(d, ps[..|ps| - 1]);
      assert Names(ps)[..|ps| - 1] == Names(ps[..|ps| - 1]);
    }
  }

  lemma {:induction false} InsertAllMap<V>(d: Dict<V>, ps: seq<(string, V)>)
    requires Valid(d)
    ensures InsertAll(d, ps).m == d.m + PairsMap(ps)
    decreases |ps|
  {
    if ps != [] {
      var init, last := ps[..|ps| - 1], ps[|ps| - 1];
      InsertAllMap(d, init);
      UnionUpdate(d.m, PairsMap(init), last.0, last.1);
    }
  }

  lemma UnionUpdate<V>(a: map<string, V>, b: map<string, V>, k: string, v: V)
    ensures (a + b)[k := v] == a + b[k := v]
  {
    var l, r := (a + b)[k := v], a + b[k := v];
    assert l.Keys == r.Keys;
    forall x | x in l ensures l[x] == r[x] {
    }
  }

  /** Which names `PairsMap` binds, and to the value of their last assignment. */
  lemma {:induction false} PairsMapLastWins<V>(ps: seq<(string, V)>)
    ensures forall k :: k in PairsMap(ps) <==> k in Names(ps)
    ensures forall i :: 0 <= i < |ps| && (forall j :: i < j < |ps| ==> ps[j].0 != ps[i].0) ==>
              PairsMap(ps)[ps[i].0] == ps[i].1
    decreases |ps|
  {
    if ps != [] {
      var init := ps[..|ps| - 1];
      PairsMapLastWins(init);
      assert Names(ps) == Names(init) + [ps[|ps| - 1].0];
      forall i | 0 <= i < |ps| && (forall j :: i < j < |ps| ==> ps[j].0 != ps[i].0)
        ensures PairsMap(ps)[ps[i].0] == ps[i].1
      {
        if i < |ps| - 1 {
          assert ps[|ps| - 1].0 != ps[i].0;
          assert init[i] == ps[i];
          assert forall j :: i < j < |init| ==> init[j].0 != init[i].0 by {
            forall j | i < j < |init| ensures init[j].0 != init[i].0 {
              assert init[j] == ps[j];
            }
          }
        }
      }
    }
  }

  /** What a dict comprehension produces: the names in first-occurrence order, each with the
      value of its last pair. */
  lemma FromPairsFacts<V>(ps: seq<(string, V)>)
    ensures FromPairs(ps).keys == Dedup(Names(ps))
    ensures FromPairs(ps).m == PairsMap(ps)
  {
    InsertAllKeys(Empty(), ps);
    InsertAllMap(Empty(), ps);
    assert map[] + PairsMap(ps) == PairsMap(ps);
  }

  lemma {:induction false} ItemsFacts<V>(d: Dict<V>)
    requires Valid(d)
    ensures Names(Items(d)) == d.keys
    ensures PairsMap(Items(d)) == d.m
  {
    var its := Items(d);
    assert Names(its) == d.keys;
    PairsMapLastWins(its);
    forall k | k in d.m ensures k in PairsMap(its) && PairsMap(its)[k] == d.m[k] {
      var i :| 0 <= i < |d.keys| && d.keys[i] == k;
      assert its[i] == (k, d.m[k]);
      assert forall j :: i < j < |its| ==> its[j].0 != its[i].0;
    }
  }

  /** `d.update(e)`: the values of `e` win, and `e`'s new keys follow `d`'s in `e`'s order. */
  lemma UpdateFacts<V>(d: Dict<V>, e: Dict<V>)
    requires Valid(d) && Valid(e)
    ensures Update(d, e).m == d.m + e.m
    ensures Update(d, e).keys == Extend(d.keys, e.keys)
  {
    InsertAllKeys(d, Items(e));
    InsertAllMap(d, Items(e));
    ItemsFacts(e);
  }
}
