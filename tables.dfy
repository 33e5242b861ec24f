/** `ParametersTable` (qcodes/sweep/sweep.py): the schema of a sweep, a list of fragments each
    listing independent (set) and dependent (measured) parameters as `(name, unit)` pairs. */
module Tables {
  import opened Results
  import opened Dicts

  /** A `(name, unit)` pair. */
  datatype Param = Param(name: string, unit: string)

  /** One element of `table_list`: the dict with the keys "independent_parameters" and
      "dependent_parameters". */
  datatype Fragment = Fragment(independent: seq<Param>, dependent: seq<Param>)

  datatype Table = Table(fragments: seq<Fragment>)

  /** A Python argument that is falsy: `None` or an empty list. */
  predicate Falsy<T>(arg: Option<seq<T>>)
  {
    arg.None? || arg.value == []
  }

  /** `[] if arg is None else arg` */
  function OrEmpty<T>(arg: Option<seq<T>>): seq<T>
  {
    if arg.None? then [] else arg.value
  }

  /** `ParametersTable(table_list, dependent_parameters, independent_parameters)`. A given
      `table_list`, even an empty one, is used as it is and the two lists are then ignored. */
  function Construct(tableList: Option<seq<Fragment>>, dependent: Option<seq<Param>>,
                     independent: Option<seq<Param>>): (r: Result<Table>)
    ensures r.Err? <==> Falsy(tableList) && Falsy(dependent) && Falsy(independent)
    ensures r.Err? ==> r.error == ValueError
    ensures r.Ok? && tableList.Some? ==> r.value.fragments == tableList.value
    ensures r.Ok? && tableList.None? ==>
              r.value.fragments == [Fragment(OrEmpty(independent), OrEmpty(dependent))]
  {
    if Falsy(tableList) && Falsy(dependent) && Falsy(independent) then Err(ValueError)
    else if tableList.None? then Ok(Table([Fragment(OrEmpty(independent), OrEmpty(dependent))]))
    else Ok(Table(tableList.value))
  }

  /** `a + b`: the fragment lists one after the other (an empty result raises ValueError). */
  function Add(a: Table, b: Table): (r: Result<Table>)
    ensures r.Ok? <==> a.fragments + b.fragments != []
    ensures r.Ok? ==> r.value.fragments == a.fragments + b.fragments
  {
    Construct(Some(a.fragments + b.fragments), None, None)
  }

  /** The fragment `{k: s[k] + o[k] for k in s.keys()}`. */
  function Join(s: Fragment, o: Fragment): Fragment
  {
    Fragment(s.independent + o.independent, s.dependent + o.dependent)
  }

  /** `[Join(s, o) for o in ys]` */
  function Row(s: Fragment, ys: seq<Fragment>): seq<Fragment>
    decreases |ys|
  {
    if ys == [] then [] else Row(s, ys[..|ys| - 1]) + [Join(s, ys[|ys| - 1])]
  }

  /** `[Join(s, o) for s, o in itertools.product(xs, ys)]` */
  function Product(xs: seq<Fragment>, ys: seq<Fragment>): seq<Fragment>
    decreases |xs|
  {
    if xs == [] then [] else Product(xs[..|xs| - 1], ys) + Row(xs[|xs| - 1], ys)
  }

  /** `a * b` (an empty product raises ValueError). */
  function Mul(a: Table, b: Table): (r: Result<Table>)
    ensures r.Ok? <==> a.fragments != [] && b.fragments != []
    ensures r.Ok? ==> r.value.fragments == Product(a.fragments, b.fragments)
  {
    ProductShape(a.fragments, b.fragments);
    Construct(Some(Product(a.fragments, b.fragments)), None, None)
  }

  /** Which of a fragment's two lists. */
  datatype Side = Independent | Dependent

  function Of(f: Fragment, side: Side): seq<Param>
  {
    if side == Independent then f.independent else f.dependent
  }

  /** All pairs of one side, fragment after fragment. */
  function All(fs: seq<Fragment>, side: Side): seq<Param>
    decreases |fs|
  {
    if fs == [] then [] else All(fs[..|fs| - 1], side) + Of(fs[|fs| - 1], side)
  }

  function Pairs(ps: seq<Param>): (r: seq<(string, string)>)
    ensures |r| == |ps| && forall i :: 0 <= i < |ps| ==> r[i] == (ps[i].name, ps[i].unit)
  {
    if ps == [] then [] else Pairs(ps[..|ps| - 1]) + [(ps[|ps| - 1].name, ps[|ps| - 1].unit)]
  }

  function ParamNames(ps: seq<Param>): seq<string>
  {
    Names(Pairs(ps))
  }

  /** `flatten()`: the two dict comprehensions over every fragment, in order. */
  function Flatten(t: Table): (Dict<string>, Dict<string>)
  {
    (FromPairs(Pairs(All(t.fragments, Independent))), FromPairs(Pairs(All(t.fragments, Dependent))))
  }

  /** `symbols_list()` */
  function SymbolsList(t: Table): seq<string>
  {
    var (ind, dep) := Flatten(t);
    ind.keys + dep.keys
  }

  // ---------------------------------------------------------------------------------------
  // Lemmas

  lemma {:induction false} RowShape(s: Fragment, ys: seq<Fragment>)
    ensures |Row(s, ys)| == |ys|
    ensures forall j :: 0 <= j < |ys| ==> Row(s, ys)[j] == Join(s, ys[j])
    decreases |ys|
  {
    if ys != [] {
      RowShape(s, ys[..|ys| - 1]);
    }
  }

  lemma {:induction false} ProductLength(xs: seq<Fragment>, ys: seq<Fragment>)
    ensures |Product(xs, ys)| == |xs| * |ys|
    decreases |xs|
  {
    if xs != [] {
      ProductLength(xs[..|xs| - 1], ys);
      RowShape(xs[|xs| - 1], ys);
      calc {
        |Product(xs, ys)|;
        (|xs| - 1) * |ys| + |ys|;
        |xs| * |ys|;
      }
    }
  }

  lemma {:induction false} ProductShape(xs: seq<Fragment>, ys: seq<Fragment>)
    ensures Product(xs, ys) == [] <==> xs == [] || ys == []
    decreases |xs|
  {
    if xs != [] {
      ProductShape(xs[..|xs| - 1], ys);
      RowShape(xs[|xs| - 1], ys);
    }
  }

  /** `a * b` lists its fragments in `itertools.product` order: fragment `i * |b| + j` joins
      fragment `i` of `a` with fragment `j` of `b`, the left operand's lists first. */
  lemma {:induction false} ProductAt(xs: seq<Fragment>, ys: seq<Fragment>, i: nat, j: nat)
    requires i < |xs| && j < |ys|
    ensures |Product(xs, ys)| == |xs| * |ys|
    ensures i * |ys| + j < |xs| * |ys|
    ensures Product(xs, ys)[i * |ys| + j] == Join(xs[i], ys[j])
    decreases |xs|
  {
    var n, m := |xs| - 1, |ys|;
    ProductLength(xs, ys);
    IndexBound(i, j, n, m);
    if i < n {
      ProductAt(xs[..n], ys, i, j);
      ProductAtInit(xs, ys, i * m + j);
      assert xs[..n][i] == xs[i];
    } else {
      ProductAtLast(xs, ys, j);
    }
  }

  /** An index into the product of the first `|xs| - 1` fragments is unchanged by the last row. */
  lemma ProductAtInit(xs: seq<Fragment>, ys: seq<Fragment>, k: nat)
    requires xs != [] && k < |Product(xs[..|xs| - 1], ys)|
    ensures k < |Product(xs, ys)| && Product(xs, ys)[k] == Product(xs[..|xs| - 1], ys)[k]
  {
  }

  /** The last row of the product. */
  lemma ProductAtLast(xs: seq<Fragment>, ys: seq<Fragment>, j: nat)
    requires xs != [] && j < |ys|
    ensures (|xs| - 1) * |ys| + j < |Product(xs, ys)|
    ensures Product(xs, ys)[(|xs| - 1) * |ys| + j] == Join(xs[|xs| - 1], ys[j])
  {
    var n := |xs| - 1;
    ProductLength(xs[..n], ys);
    RowShape(xs[n], ys);
    ConcatAt(Product(xs[..n], ys), Row(xs[n], ys), n * |ys| + j);
  }

  lemma ConcatAt<T>(a: seq<T>, b: seq<T>, k: nat)
    requires k < |a| + |b|
    ensures (a + b)[k] == if k < |a| then a[k] else b[k - |a|]
  {
  }

  lemma IndexBound(i: nat, j: nat, n: nat, m: nat)
    requires i <= n && j < m
    ensures (n + 1) * m == n * m + m
    ensures i * m + j < (n + 1) * m
    ensures i < n ==> i * m + j < n * m
    ensures i == n ==> i * m + j - n * m == j
  {
    assert (n + 1) * m == n * m + m;
    if i < n {
      assert i * m + m <= n * m by {
        assert (i + 1) * m <= n * m;
      }
    }
  }

  lemma {:induction false} RowAppend(s: Fragment, ys: seq<Fragment>, zs: seq<Fragment>)
    ensures Row(s, ys + zs) == Row(s, ys) + Row(s, zs)
    decreases |zs|
  {
    if zs == [] {
      assert ys + zs == ys;
    } else {
      var init, last := zs[..|zs| - 1], zs[|zs| - 1];
      RowAppend(s, ys, init);
      assert (ys + zs)[..|ys + zs| - 1] == ys + init;
      assert (ys + zs)[|ys + zs| - 1] == last;
      calc {
        Row(s, ys + zs);
        Row(s, ys + init) + [Join(s, last)];
        (Row(s, ys) + Row(s, init)) + [Join(s, last)];
        Row(s, ys) + (Row(s, init) + [Join(s, last)]);
        Row(s, ys) + Row(s, zs);
      }
    }
  }

  /** Product distributes over `+` on the left. */
  lemma {:induction false} ProductAppendLeft(xs1: seq<Fragment>, xs2: seq<Fragment>, ys: seq<Fragment>)
    ensures Product(xs1 + xs2, ys) == Product(xs1, ys) + Product(xs2, ys)
    decreases |xs2|
  {
    if xs2 == [] {
      assert xs1 + xs2 == xs1;
    } else {
      var init, last := xs2[..|xs2| - 1], xs2[|xs2| - 1];
      ProductAppendLeft(xs1, init, ys);
      assert (xs1 + xs2)[..|xs1 + xs2| - 1] == xs1 + init;
      assert (xs1 + xs2)[|xs1 + xs2| - 1] == last;
      calc {
        Product(xs1 + xs2, ys);
        Product(xs1 + init, ys) + Row(last, ys);
        (Product(xs1, ys) + Product(init, ys)) + Row(last, ys);
        Product(xs1, ys) + (Product(init, ys) + Row(last, ys));
        Product(xs1, ys) + Product(xs2, ys);
      }
    }
  }

  lemma JoinAssociative(x: Fragment, y: Fragment, z: Fragment)
    ensures Join(Join(x, y), z) == Join(x, Join(y, z))
  {
    assert (x.independent + y.independent) + z.independent == x.independent + (y.independent + z.independent);
    assert (x.dependent + y.dependent) + z.dependent == x.dependent + (y.dependent + z.dependent);
  }

  lemma {:induction false} RowRow(x: Fragment, y: Fragment, zs: seq<Fragment>)
    ensures Row(Join(x, y), zs) == Row(x, Row(y, zs))
    decreases |zs|
  {
    if zs != [] {
      var init := zs[..|zs| - 1];
      RowRow(x, y, init);
      RowAppend(x, Row(y, init), [Join(y, zs[|zs| - 1])]);
      JoinAssociative(x, y, zs[|zs| - 1]);
      assert Row(x, [Join(y, zs[|zs| - 1])]) == [Join(x, Join(y, zs[|zs| - 1]))] by {
        assert [Join(y, zs[|zs| - 1])][..0] == [];
      }
    }
  }

  lemma {:induction false} RowProduct(x: Fragment, ys: seq<Fragment>, zs: seq<Fragment>)
    ensures Product(Row(x, ys), zs) == Row(x, Product(ys, zs))
    decreases |ys|
  {
    if ys != [] {
      var init, y := ys[..|ys| - 1], ys[|ys| - 1];
      RowProduct(x, init, zs);
      ProductAppendLeft(Row(x, init), [Join(x, y)], zs);
      assert Product([Join(x, y)], zs) == Row(Join(x, y), zs) by {
        assert [Join(x, y)][..0] == [];
      }
      RowRow(x, y, zs);
      RowAppend(x, Product(init, zs), Row(y, zs));
    }
  }

  /** Product is associative on fragment lists. */
  lemma {:induction false} ProductAssociative(xs: seq<Fragment>, ys: seq<Fragment>, zs: seq<Fragment>)
    ensures Product(Product(xs, ys), zs) == Product(xs, Product(ys, zs))
    decreases |xs|
  {
    if xs != [] {
      var init, x := xs[..|xs| - 1], xs[|xs| - 1];
      ProductAssociative(init, ys, zs);
      ProductAppendLeft(Product(init, ys), Row(x, ys), zs);
      RowProduct(x, ys, zs);
    }
  }

  /** `+` on tables is associative wherever both groupings succeed. */
  lemma AddAssociative(a: Table, b: Table, c: Table)
    requires Add(a, b).Ok? && Add(b, c).Ok?
    ensures Add(Add(a, b).value, c).Ok? && Add(a, Add(b, c).value).Ok?
    ensures Add(Add(a, b).value, c).value == Add(a, Add(b, c).value).value
  {
    assert (a.fragments + b.fragments) + c.fragments == a.fragments + (b.fragments + c.fragments);
  }

  /** `*` on tables is associative wherever both groupings succeed. */
  lemma MulAssociative(a: Table, b: Table, c: Table)
    requires Mul(a, b).Ok? && Mul(b, c).Ok?
    ensures Mul(Mul(a, b).value, c).Ok? && Mul(a, Mul(b, c).value).Ok?
    ensures Mul(Mul(a, b).value, c).value == Mul(a, Mul(b, c).value).value
  {
    ProductAssociative(a.fragments, b.fragments, c.fragments);
  }

  /** `(a + b) * c == a * c + b * c`. */
  lemma MulDistributesOverAdd(a: Table, b: Table, c: Table)
    requires Add(a, b).Ok? && Mul(a, c).Ok? && Mul(b, c).Ok?
    ensures Mul(Add(a, b).value, c).Ok? && Add(Mul(a, c).value, Mul(b, c).value).Ok?
    ensures Mul(Add(a, b).value, c).value == Add(Mul(a, c).value, Mul(b, c).value).value
  {
    ProductAppendLeft(a.fragments, b.fragments, c.fragments);
    ProductShape(a.fragments, c.fragments);
  }

  lemma {:induction false} AllAppend(xs: seq<Fragment>, ys: seq<Fragment>, side: Side)
    ensures All(xs + ys, side) == All(xs, side) + All(ys, side)
    decreases |ys|
  {
    if ys == [] {
      assert xs + ys == xs;
    } else {
      var init, last := ys[..|ys| - 1], ys[|ys| - 1];
      AllAppend(xs, init, side);
      assert (xs + ys)[..|xs + ys| - 1] == xs + init;
      assert (xs + ys)[|xs + ys| - 1] == last;
      calc {
        All(xs + ys, side);
        All(xs + init, side) + Of(last, side);
        (All(xs, side) + All(init, side)) + Of(last, side);
        All(xs, side) + (All(init, side) + Of(last, side));
        All(xs, side) + All(ys, side);
      }
    }
  }

  lemma {:induction false} PairsAppend(ps: seq<Param>, qs: seq<Param>)
    ensures Pairs(ps + qs) == Pairs(ps) + Pairs(qs)
  {
    assert |Pairs(ps + qs)| == |Pairs(ps) + Pairs(qs)|;
  }

  /** The dict that `flatten()` builds for one side. */
  function FlatSide(t: Table, side: Side): Dict<string>
  {
    FromPairs(Pairs(All(t.fragments, side)))
  }

  /** `flatten()` keeps each name once, at its first occurrence over the fragments, with the
      unit of its last occurrence (the last fragment wins). */
  lemma FlattenFacts(t: Table, side: Side)
    ensures FlatSide(t, side) == if side == Independent then Flatten(t).0 else Flatten(t).1
    ensures FlatSide(t, side).keys == Dedup(ParamNames(All(t.fragments, side)))
    ensures Distinct(FlatSide(t, side).keys)
    ensures forall k :: k in FlatSide(t, side).m <==> exists p :: p in All(t.fragments, side) && p.name == k
    ensures var ps := All(t.fragments, side);
            forall i :: 0 <= i < |ps| && (forall j :: i < j < |ps| ==> ps[j].name != ps[i].name) ==>
              FlatSide(t, side).m[ps[i].name] == ps[i].unit
  {
    var ps := All(t.fragments, side);
    FromPairsFacts(Pairs(ps));
    FlatMembers(ps);
    FlatLastWins(ps);
  }

  lemma FlatMembers(ps: seq<Param>)
    ensures forall k :: k in FromPairs(Pairs(ps)).m <==> exists p :: p in ps && p.name == k
  {
    var prs := Pairs(ps);
    FromPairsFacts(prs);
    PairsMapLastWins(prs);
    forall k ensures k in FromPairs(prs).m <==> exists p :: p in ps && p.name == k {
      if k in FromPairs(prs).m {
        var i :| 0 <= i < |prs| && Names(prs)[i] == k;
        assert ps[i] in ps && ps[i].name == k;
      }
      if exists p :: p in ps && p.name == k {
        var p :| p in ps && p.name == k;
        var i :| 0 <= i < |ps| && ps[i] == p;
        assert Names(prs)[i] == k;
      }
    }
  }

  lemma FlatLastWins(ps: seq<Param>)
    ensures forall i :: 0 <= i < |ps| && (forall j :: i < j < |ps| ==> ps[j].name != ps[i].name) ==>
              ps[i].name in FromPairs(Pairs(ps)).m && FromPairs(Pairs(ps)).m[ps[i].name] == ps[i].unit
  {
    var prs := Pairs(ps);
    assert FromPairs(prs).m == PairsMap(prs) by { FromPairsFacts(prs); }
    forall i | 0 <= i < |ps| && (forall j :: i < j < |ps| ==> ps[j].name != ps[i].name)
      ensures ps[i].name in PairsMap(prs) && PairsMap(prs)[ps[i].name] == ps[i].unit
    {
      assert prs[i] == (ps[i].name, ps[i].unit);
      assert forall j :: i < j < |prs| ==> prs[j].0 != prs[i].0;
      assert Names(prs)[i] == ps[i].name;
      PairsMapLastWins(prs);
    }
  }

  /** `symbols_list()`: the independent names in first-occurrence order, then the dependent
      names in first-occurrence order; together they are every name in the table. */
  lemma SymbolsListFacts(t: Table)
    ensures SymbolsList(t) == Dedup(ParamNames(All(t.fragments, Independent)))
                            + Dedup(ParamNames(All(t.fragments, Dependent)))
    ensures forall k :: k in SymbolsList(t) <==>
              exists p :: (p in All(t.fragments, Independent) || p in All(t.fragments, Dependent)) && p.name == k
  {
    FlattenFacts(t, Independent);
    FlattenFacts(t, Dependent);
  }

  /** Flattening `a + b`: `b`'s units override `a`'s, and `b`'s new names follow `a`'s. This is
      how `Chain` tables combine; a name shared by the two operands appears once. */
  lemma AddFlatten(a: Table, b: Table, side: Side)
    requires Add(a, b).Ok?
    ensures FlatSide(Add(a, b).value, side).m == FlatSide(a, side).m + FlatSide(b, side).m
    ensures FlatSide(Add(a, b).value, side).keys
            == Extend(FlatSide(a, side).keys, ParamNames(All(b.fragments, side)))
  {
    AllAppend(a.fragments, b.fragments, side);
    var ps, qs := All(a.fragments, side), All(b.fragments, side);
    PairsAppend(ps, qs);
    var x, y := Pairs(ps), Pairs(qs);
    InsertAllSplit(Empty(), x, y);
    InsertAllMap(FromPairs(x), y);
    InsertAllKeys(FromPairs(x), y);
    FromPairsFacts(y);
  }

  lemma {:induction false} InsertAllSplit<V>(d: Dict<V>, ps: seq<(string, V)>, qs: seq<(string, V)>)
    requires Valid(d)
    ensures InsertAll(d, ps + qs) == InsertAll(InsertAll(d, ps), qs)
    decreases |qs|
  {
    if qs == [] {
      assert ps + qs == ps;
    } else {
      InsertAllSplit(d, ps, qs[..|qs| - 1]);
      assert (ps + qs)[..|ps + qs| - 1] == ps + qs[..|qs| - 1];
    }
  }

  lemma {:induction false} InAll(fs: seq<Fragment>, side: Side, p: Param)
    ensures p in All(fs, side) <==> exists i :: 0 <= i < |fs| && p in Of(fs[i], side)
    decreases |fs|
  {
    if fs != [] {
      var init := fs[..|fs| - 1];
      InAll(init, side, p);
      assert forall i :: 0 <= i < |init| ==> init[i] == fs[i];
    }
  }

  /** The pairs of a product are those of its operands (when `a * b` succeeds, so that both are
      non-empty): `Nest` and `Zip` declare every symbol of every child. */
  lemma MulMembers(a: Table, b: Table, side: Side)
    requires Mul(a, b).Ok?
    ensures forall p :: p in All(Mul(a, b).value.fragments, side) <==>
                        p in All(a.fragments, side) || p in All(b.fragments, side)
  {
    forall p ensures p in All(Mul(a, b).value.fragments, side) <==>
                     p in All(a.fragments, side) || p in All(b.fragments, side) {
      ProductMember(a.fragments, b.fragments, side, p);
    }
  }

  lemma {:induction false} RowMember(x: Fragment, ys: seq<Fragment>, side: Side, p: Param)
    ensures p in All(Row(x, ys), side) <==> ys != [] && (p in Of(x, side) || p in All(ys, side))
    decreases |ys|
  {
    if ys != [] {
      var init := ys[..|ys| - 1];
      RowMember(x, init, side, p);
      AllAppend(Row(x, init), [Join(x, ys[|ys| - 1])], side);
      AllAppend(init, [ys[|ys| - 1]], side);
      assert ys == init + [ys[|ys| - 1]];
      assert All([Join(x, ys[|ys| - 1])], side) == Of(Join(x, ys[|ys| - 1]), side) by {
        assert [Join(x, ys[|ys| - 1])][..0] == [];
      }
      assert All([ys[|ys| - 1]], side) == Of(ys[|ys| - 1], side) by {
        assert [ys[|ys| - 1]][..0] == [];
      }
    }
  }

  lemma {:induction false} ProductMember(xs: seq<Fragment>, ys: seq<Fragment>, side: Side, p: Param)
    ensures p in All(Product(xs, ys), side) <==>
              xs != [] && ys != [] && (p in All(xs, side) || p in All(ys, side))
    decreases |xs|
  {
    if xs != [] {
      var init, x := xs[..|xs| - 1], xs[|xs| - 1];
      ProductMember(init, ys, side, p);
      AllAppend(Product(init, ys), Row(x, ys), side);
      RowMember(x, ys, side, p);
    }
  }

}
