/** The sweep objects of qcodes/sweep/sweep.py:97-341 as a tree of values: what each object
    declares as its `_parameter_table`, whether `_start_iter` succeeds on it, and the pass that
    one iteration over it produces. */
module Sweeps {
  import opened Results
  import opened Dicts
  import opened Passes
  import opened Tables
  import opened Combinators

  /** A QCoDeS parameter: its `full_name` and its `unit`. */
  datatype Parameter = Parameter(fullName: string, unit: string)

  /** A function decorated with `setter(param_list)`; `id` identifies the function `f`. */
  datatype SetterFn = SetterFn(id: string, params: seq<Tables.Param>)

  /** A function decorated with `measurement(param_list)`. */
  datatype MeasureFn = MeasureFn(id: string, params: seq<Tables.Param>)

  /** What the instruments answer: the value `parameter()` returns for a parameter's full
      name, and the value a measurement function returns. */
  datatype Oracle = Oracle(get: string -> Value, measure: string -> Value)

  /** A sweep object. `IteratorSweep` holds the records its iterator function produces; the
      set points of `ParameterSweep` and `FunctionSweep` are what their point function
      returns. */
  datatype Sweep =
    | IteratorSweep(records: seq<Record>)
    | ParameterSweep(parameter: Parameter, points: seq<Value>)
    | ParameterWrapper(parameter: Parameter, repeat: bool)
    | FunctionSweep(setFn: SetterFn, points: seq<Value>)
    | FunctionWrapper(measureFn: MeasureFn, repeat: bool)
    | Nest(children: seq<Sweep>)
    | Chain(children: seq<Sweep>)
    | Zip(children: seq<Sweep>)

  // ---------------------------------------------------------------------------------------
  // The `_parameter_table` attribute

  /** The value of `_parameter_table`: `None`, a table, or the number that `np.prod([])` (1.0)
      or `np.sum([])` (0.0) returns for an empty list, and that folds of numbers keep. */
  datatype TableAttr = NoTable | Has(table: Table) | Number

  /** `np.prod` or `np.sum` */
  datatype Op = Times | Plus

  function Lift(r: Result<Table>): Result<TableAttr>
  {
    if r.Ok? then Ok(Has(r.value)) else Err(r.error)
  }

  /** One step of numpy's left fold over an object array, `acc * x` or `acc + x`, with Python's
      operator dispatch: two tables combine; a table on the left of anything else looks up
      `other.table_list` on it; numbers combine with numbers; everything else has no operator. */
  function Step(op: Op, acc: TableAttr, x: TableAttr): Result<TableAttr>
  {
    match (acc, x)
    case (Has(a), Has(b)) => Lift(if op == Times then Mul(a, b) else Add(a, b))
    case (Has(_), _) => Err(AttributeError)
    case (Number, Number) => Ok(Number)
    case _ => Err(TypeError)
  }

  /** `np.prod(xs)` or `np.sum(xs)`: the empty list gives a number, a single element is
      returned as it is, and longer lists are folded from the left. */
  function Reduce(op: Op, xs: seq<TableAttr>): Result<TableAttr>
    decreases |xs|
  {
    if xs == [] then Ok(Number)
    else if |xs| == 1 then Ok(xs[0])
    else
      var acc := Reduce(op, xs[..|xs| - 1]);
      if acc.Err? then acc else Step(op, acc.value, xs[|xs| - 1])
  }

  /** The children's attributes, or the first error among them. */
  function Collect(rs: seq<Result<TableAttr>>): (r: Result<seq<TableAttr>>)
    ensures r.Ok? <==> forall i :: 0 <= i < |rs| ==> rs[i].Ok?
    ensures r.Ok? ==> |r.value| == |rs| && forall i :: 0 <= i < |rs| ==> rs[i] == Ok(r.value[i])
    decreases |rs|
  {
    if rs == [] then Ok([])
    else
      var init := Collect(rs[..|rs| - 1]);
      if init.Err? then init
      else if rs[|rs| - 1].Err? then Err(rs[|rs| - 1].error)
      else Ok(init.value + [rs[|rs| - 1].value])
  }

  /** `_parameter_table` as each constructor sets it, or the error with which the construction
      of the object (or of one of its children) fails. */
  function Attr(s: Sweep): Result<TableAttr>
    decreases s, 1
  {
    match s
    case IteratorSweep(_) => Ok(NoTable)
    case ParameterSweep(p, _) => Lift(Construct(None, None, Some([Param(p.fullName, p.unit)])))
    case ParameterWrapper(p, _) => Lift(Construct(None, Some([Param(p.fullName, p.unit)]), None))
    case FunctionSweep(f, _) => Lift(Construct(None, None, Some(f.params)))
    case FunctionWrapper(m, _) => Lift(Construct(None, Some(m.params), None))
    case _ => Combine(OpOf(s), ChildAttrs(s))
  }

  /** `Chain` sums its children's tables, `Nest` and `Zip` multiply them. */
  function OpOf(s: Sweep): Op
  {
    if s.Chain? then Plus else Times
  }

  /** The attributes of a combinator's children. */
  function ChildAttrs(s: Sweep): (rs: seq<Result<TableAttr>>)
    requires s.Nest? || s.Chain? || s.Zip?
    ensures |rs| == |s.children|
    decreases s, 0
  {
    seq(|s.children|, i requires 0 <= i < |s.children| => Attr(s.children[i]))
  }

  function Combine(op: Op, rs: seq<Result<TableAttr>>): Result<TableAttr>
  {
    var c := Collect(rs);
    if c.Err? then Err(c.error) else Reduce(op, c.value)
  }

  /** The object can be constructed: its constructor and every constructor below it return. */
  predicate Built(s: Sweep)
  {
    Attr(s).Ok?
  }

  /** The error `_start_iter` raises: `self._sweep_objects[0]` of an empty `Nest`, or
      `symbols_list` looked up on a number. */
  function StartError(s: Sweep): Option<Error>
  {
    if s.Nest? && s.children == [] then Some(IndexError)
    else if Attr(s) == Ok(Number) then Some(AttributeError)
    else None
  }

  /** `_symbols_list` after a successful `_start_iter`. */
  function Syms(s: Sweep): seq<string>
  {
    var a := Attr(s);
    if a.Ok? then TableSymbols(a.value) else []
  }

  /** What `_start_iter` assigns to `_symbols_list` for a given `_parameter_table`: its
      `symbols_list()`, or `[]` when there is no table. */
  function TableSymbols(a: TableAttr): seq<string>
  {
    if a.Has? then SymbolsList(a.table) else []
  }

  // ---------------------------------------------------------------------------------------
  // Passes

  /** A wrapper created with `repeat=True`: its generator never stops. */
  predicate Repeating(s: Sweep)
  {
    (s.ParameterWrapper? || s.FunctionWrapper?) && s.repeat
  }

  /** A pass over `s` ends: repeating wrappers occur only as direct children of a `Zip` that
      also has a child that ends. */
  predicate Finite(s: Sweep)
    decreases s
  {
    match s
    case ParameterWrapper(_, repeat) => !repeat
    case FunctionWrapper(_, repeat) => !repeat
    case Nest(cs) => forall i :: 0 <= i < |cs| ==> Finite(cs[i])
    case Chain(cs) => forall i :: 0 <= i < |cs| ==> Finite(cs[i])
    case Zip(cs) =>
      (forall i :: 0 <= i < |cs| ==> Repeating(cs[i]) || Finite(cs[i])) &&
      (cs == [] || exists i :: 0 <= i < |cs| && !Repeating(cs[i]))
    case _ => true
  }

  /** The record `{name: value}`. */
  function Single(name: string, value: Value): (r: Record)
    ensures r.keys == [name] && r.m == map[name := value]
  {
    Dict([name], map[name := value])
  }

  /** An iterator that only yields. */
  function Yields(recs: seq<Record>): (evs: seq<Event>)
    ensures |evs| == |recs| && forall i :: 0 <= i < |recs| ==> evs[i] == Yield(recs[i])
  {
    seq(|recs|, i requires 0 <= i < |recs| => Yield(recs[i]))
  }

  /** `ParameterSweep._setter_factory`: for each set point, `parameter.set(v)`, then
      `{full_name: v}`. */
  function ParameterSteps(name: string, points: seq<Value>): (st: seq<(Action, Record)>)
    ensures |st| == |points|
  {
    seq(|points|, i requires 0 <= i < |points| => (SetParam(name, points[i]), Single(name, points[i])))
  }

  /** What `setter`'s `inner(value)` does: `f(*np.atleast_1d(value))`, then the values zipped
      with the declared names. */
  function SetterStep(f: SetterFn, v: Value): (Action, Record)
  {
    (CallSetter(f.id, AtLeast1d(v)), ZipRecord(ParamNames(f.params), AtLeast1d(v)))
  }

  /** `FunctionSweep._setter_factory`: `self._set_function(v)` for each set point. */
  function SetterSteps(f: SetterFn, points: seq<Value>): (st: seq<(Action, Record)>)
    ensures |st| == |points|
  {
    seq(|points|, i requires 0 <= i < |points| => SetterStep(f, points[i]))
  }

  /** One round of a wrapper's `while not stop` loop: read the parameter, or call the
      measurement function and zip its `np.atleast_1d` result with the declared names. */
  function WrapperStep(s: Sweep, o: Oracle): (Action, Record)
    requires s.ParameterWrapper? || s.FunctionWrapper?
  {
    if s.ParameterWrapper? then
      var name := s.parameter.fullName;
      (GetParam(name), Single(name, o.get(name)))
    else
      var m := s.measureFn;
      (CallMeasure(m.id), ZipRecord(ParamNames(m.params), AtLeast1d(o.measure(m.id))))
  }

  /** `_setter_factory()`, run to exhaustion: the events of one pass, before this object's own
      `__next__` reshapes them. */
  function Generate(s: Sweep, o: Oracle): seq<Event>
    requires Finite(s)
    decreases s, 2
  {
    match s
    case IteratorSweep(recs) => Yields(recs)
    case ParameterSweep(p, points) => Steps(ParameterSteps(p.fullName, points))
    case ParameterWrapper(_, _) => var st := WrapperStep(s, o); [Act(st.0), Yield(st.1)]
    case FunctionSweep(f, points) => Steps(SetterSteps(f, points))
    case FunctionWrapper(_, _) => var st := WrapperStep(s, o); [Act(st.0), Yield(st.1)]
    case Nest(_) => NestFold(Outs(s, o))
    case Chain(_) => Concat(Outs(s, o))
    case Zip(cs) =>
      if cs == [] then []
      else
        var lanes := Lanes(s, o);
        HasBoundedAt(lanes);
        assert exists j :: 0 <= j < |lanes| && lanes[j].Bounded? by {
          var j :| 0 <= j < |cs| && !Repeating(cs[j]);
          assert lanes[j] == LaneOf(cs[j], o);
        }
        ZipEvents(lanes)
  }

  /** A pass over `s` as its consumer sees it: every record reshaped by `__next__` onto the
      symbol list. */
  function Output(s: Sweep, o: Oracle): seq<Event>
    requires Finite(s)
    decreases s, 3
  {
    ReshapeAll(Generate(s, o), Syms(s))
  }

  /** The passes of the children of a `Nest` or a `Chain`, each started afresh. */
  function Outs(s: Sweep, o: Oracle): (outs: seq<seq<Event>>)
    requires (s.Nest? || s.Chain?) && Finite(s)
    ensures |outs| == |s.children|
    decreases s, 1
  {
    seq(|s.children|, i requires 0 <= i < |s.children| => Output(s.children[i], o))
  }

  /** The arguments of `zip(*self._sweep_objects)`. */
  function Lanes(s: Sweep, o: Oracle): (lanes: seq<Lane>)
    requires s.Zip? && Finite(s)
    ensures |lanes| == |s.children|
    decreases s, 1
  {
    seq(|s.children|, i requires 0 <= i < |s.children| => LaneOf(s.children[i], o))
  }

  /** A child of `Zip`: the pass of a child that ends, or the one round that a repeating
      wrapper performs at every `next`. */
  function LaneOf(c: Sweep, o: Oracle): (l: Lane)
    requires Repeating(c) || Finite(c)
    ensures l.Bounded? <==> !Repeating(c)
    decreases c, 4
  {
    if Repeating(c) then
      var st := WrapperStep(c, o);
      Endless([st.0], Reshape(st.1, Syms(c)))
    else Bounded(Output(c, o))
  }

  /** Every object of the tree can be constructed and started. */
  predicate Startable(s: Sweep)
    decreases s
  {
    Built(s) && StartError(s).None? &&
    ((s.Nest? || s.Chain? || s.Zip?) ==> forall i :: 0 <= i < |s.children| ==> Startable(s.children[i]))
  }

  // ---------------------------------------------------------------------------------------
  // Lemmas: tables and starting

  lemma StepShape(op: Op, acc: TableAttr, x: TableAttr)
    requires Step(op, acc, x).Ok?
    ensures (acc.Has? && x.Has? && Step(op, acc, x).value.Has?) ||
            (acc == Number && x == Number && Step(op, acc, x).value == Number)
  {
  }

  /** `np.prod`/`np.sum` over two or more attributes succeeds only on tables (giving a table)
      or only on numbers (giving a number). */
  lemma {:induction false} ReduceShape(op: Op, xs: seq<TableAttr>)
    requires |xs| >= 2 && Reduce(op, xs).Ok?
    ensures (Reduce(op, xs).value.Has? && forall i :: 0 <= i < |xs| ==> xs[i].Has?) ||
            (Reduce(op, xs).value == Number && forall i :: 0 <= i < |xs| ==> xs[i] == Number)
    decreases |xs|
  {
    var init, last := xs[..|xs| - 1], xs[|xs| - 1];
    var acc := Reduce(op, init);
    assert acc.Ok? && Reduce(op, xs) == Step(op, acc.value, last);
    StepShape(op, acc.value, last);
    if |xs| > 2 {
      ReduceShape(op, init);
    } else {
      assert acc == Ok(xs[0]);
    }
    assert forall i :: 0 <= i < |init| ==> init[i] == xs[i];
  }

  /** A combinator that can be constructed folds its children's attributes. */
  lemma CombinatorParts(s: Sweep)
    requires (s.Nest? || s.Chain? || s.Zip?) && Built(s)
    ensures Collect(ChildAttrs(s)).Ok?
    ensures Attr(s) == Reduce(OpOf(s), Collect(ChildAttrs(s)).value)
    ensures forall i :: 0 <= i < |s.children| ==> Attr(s.children[i]) == Ok(Collect(ChildAttrs(s)).value[i])
  {
    var rs := ChildAttrs(s);
    assert Attr(s) == Combine(OpOf(s), rs);
    assert forall i :: 0 <= i < |s.children| ==> rs[i] == Attr(s.children[i]);
  }

  /** A combinator without children has a number for a table. */
  lemma EmptyCombinator(s: Sweep)
    requires (s.Nest? || s.Chain? || s.Zip?) && s.children == []
    ensures Attr(s) == Ok(Number)
  {
    assert Collect(ChildAttrs(s)) == Ok([]);
  }

  /** `_start_iter` raises exactly when `_parameter_table` is a number: IndexError for an empty
      `Nest`, AttributeError otherwise. */
  lemma StartErrorIff(s: Sweep)
    ensures StartError(s).Some? <==> Attr(s) == Ok(Number)
    ensures StartError(s).Some? ==>
              StartError(s).value == if s.Nest? && s.children == [] then IndexError else AttributeError
  {
    if s.Nest? && s.children == [] {
      EmptyCombinator(s);
    }
  }

  /** The children of a combinator that can be started can be started, and when there are two
      or more of them they all have tables. */
  lemma StartableChildren(s: Sweep)
    requires (s.Nest? || s.Chain? || s.Zip?) && Built(s) && StartError(s).None?
    ensures s.children != []
    ensures forall i :: 0 <= i < |s.children| ==> Built(s.children[i]) && StartError(s.children[i]).None?
    ensures |s.children| >= 2 ==>
              forall i :: 0 <= i < |s.children| ==> Attr(s.children[i]).Ok? && Attr(s.children[i]).value.Has?
    ensures |s.children| == 1 ==> Attr(s.children[0]) == Attr(s)
  {
    var cs := s.children;
    CombinatorParts(s);
    var xs := Collect(ChildAttrs(s)).value;
    StartErrorIff(s);
    if cs == [] {
      EmptyCombinator(s);
    }
    if |cs| >= 2 {
      ReduceShape(OpOf(s), xs);
    }
    forall i | 0 <= i < |cs| ensures StartError(cs[i]).None? {
      StartErrorIff(cs[i]);
    }
  }

  /** A sweep object that can be started has only descendants that can be started: no
      `_start_iter` of the whole iteration raises. */
  lemma {:induction false} StartableTree(s: Sweep)
    requires Built(s) && StartError(s).None?
    ensures Startable(s)
    decreases s
  {
    if s.Nest? || s.Chain? || s.Zip? {
      StartableChildren(s);
      forall i | 0 <= i < |s.children| ensures Startable(s.children[i]) {
        StartableTree(s.children[i]);
      }
    }
  }

  // ---------------------------------------------------------------------------------------
  // Lemmas: leaves

  lemma DedupEmpty()
    ensures Dedup([]) == [] && ParamNames([]) == []
  {
  }

  lemma DedupOne(name: string)
    ensures Dedup([name]) == [name]
  {
    assert [name][..0] == [];
    assert Extend([], []) == [];
  }

  lemma OneName(p: Param)
    ensures ParamNames([p]) == [p.name]
  {
    assert [p][..0] == [];
    assert Pairs([p]) == [(p.name, p.unit)];
    var ps := [(p.name, p.unit)];
    assert ps[..0] == [];
    assert Names(ps) == [p.name];
  }

  /** The symbols of a table of one fragment. */
  lemma OneFragmentSymbols(ind: seq<Param>, dep: seq<Param>)
    ensures SymbolsList(Table([Fragment(ind, dep)])) == Dedup(ParamNames(ind)) + Dedup(ParamNames(dep))
  {
    var f := Fragment(ind, dep);
    SymbolsListFacts(Table([f]));
    assert [f][..0] == [];
    assert All([f], Independent) == ind;
    assert All([f], Dependent) == dep;
  }

  /** The attribute of a one-parameter leaf. */
  lemma LeafTable(s: Sweep, ind: seq<Param>, dep: seq<Param>)
    requires s.ParameterSweep? || s.ParameterWrapper? || s.FunctionSweep? || s.FunctionWrapper?
    requires ind == (if s.ParameterSweep? then [Param(s.parameter.fullName, s.parameter.unit)]
                     else if s.FunctionSweep? then s.setFn.params else [])
    requires dep == (if s.ParameterWrapper? then [Param(s.parameter.fullName, s.parameter.unit)]
                     else if s.FunctionWrapper? then s.measureFn.params else [])
    ensures Built(s) <==> ind + dep != []
    ensures Built(s) ==> Attr(s) == Ok(Has(Table([Fragment(ind, dep)])))
  {
  }

  /** A `ParameterSweep` declares its parameter as its one independent symbol, a
      `ParameterWrapper` as its one dependent symbol. */
  lemma ParameterSymbols(s: Sweep)
    requires s.ParameterSweep? || s.ParameterWrapper?
    ensures Built(s)
    ensures Syms(s) == [s.parameter.fullName]
  {
    var p := Param(s.parameter.fullName, s.parameter.unit);
    OneName(p);
    DedupOne(p.name);
    DedupEmpty();
    if s.ParameterSweep? {
      LeafTable(s, [p], []);
      OneFragmentSymbols([p], []);
    } else {
      LeafTable(s, [], [p]);
      OneFragmentSymbols([], [p]);
    }
  }

  /** A `setter` or `measurement` function declares its parameters' names. */
  lemma FunctionSymbols(s: Sweep, params: seq<Param>)
    requires s.FunctionSweep? || s.FunctionWrapper?
    requires params == if s.FunctionSweep? then s.setFn.params else s.measureFn.params
    ensures Built(s) <==> params != []
    ensures Built(s) ==> Syms(s) == Dedup(ParamNames(params))
  {
    var ind, dep := if s.FunctionSweep? then params else [], if s.FunctionSweep? then [] else params;
    LeafTable(s, ind, dep);
    OneFragmentSymbols(ind, dep);
    DedupEmpty();
  }

  /** Reshaping `{name: v}` onto `[name]` changes nothing. */
  lemma ReshapeSingle(name: string, v: Value)
    ensures Reshape(Single(name, v), [name]) == Single(name, v)
  {
    var ps := ReshapePairs(Single(name, v), [name]);
    assert ps == [(name, v)];
    assert ps[..0] == [];
    assert InsertAll(Empty(), ps) == Set(Empty(), name, v);
    assert [] + [name] == [name];
  }

  /** A `ParameterSweep` sets its parameter once per set point, in order, and yields
      `{full_name: v}` right after each set; its own `__next__` leaves these records as they
      are. */
  lemma ParameterSweepEvents(p: Parameter, points: seq<Value>, o: Oracle)
    ensures |Output(ParameterSweep(p, points), o)| == 2 * |points|
    ensures forall i :: 0 <= i < |points| ==>
              Output(ParameterSweep(p, points), o)[2 * i] == Act(SetParam(p.fullName, points[i])) &&
              Output(ParameterSweep(p, points), o)[2 * i + 1] == Yield(Single(p.fullName, points[i]))
  {
    var st := ParameterSteps(p.fullName, points);
    ParameterSweepSteps(p, points, o);
    StepsLength(st);
    forall i | 0 <= i < |points|
      ensures Steps(st)[2 * i] == Act(SetParam(p.fullName, points[i]))
      ensures Steps(st)[2 * i + 1] == Yield(Single(p.fullName, points[i]))
    {
      StepsAt(st, i);
    }
  }

  /** The records of a `ParameterSweep` are its set points under the parameter's name, and its
      effects are the sets, in the same order. */
  lemma ParameterSweepOutput(p: Parameter, points: seq<Value>, o: Oracle)
    ensures |Records(Output(ParameterSweep(p, points), o))| == |points|
    ensures forall i :: 0 <= i < |points| ==>
              Records(Output(ParameterSweep(p, points), o))[i] == Single(p.fullName, points[i])
    ensures |Trace(Output(ParameterSweep(p, points), o))| == |points|
    ensures forall i :: 0 <= i < |points| ==>
              Trace(Output(ParameterSweep(p, points), o))[i] == SetParam(p.fullName, points[i])
  {
    var st := ParameterSteps(p.fullName, points);
    ParameterSweepSteps(p, points, o);
    StepsFacts(st);
  }

  /** Reshaping changes none of the records of a `ParameterSweep`. */
  lemma ParameterSweepSteps(p: Parameter, points: seq<Value>, o: Oracle)
    ensures Output(ParameterSweep(p, points), o) == Steps(ParameterSteps(p.fullName, points))
  {
    var st := ParameterSteps(p.fullName, points);
    ParameterSymbols(ParameterSweep(p, points));
    forall i | 0 <= i < |st| ensures Reshape(st[i].1, [p.fullName]) == st[i].1 {
      ReshapeSingle(p.fullName, points[i]);
    }
    ReshapeStepsFixed(st, [p.fullName]);
  }

  /** An `IteratorSweep` yields the records of its iterator and has no effects; without a
      table, its `__next__` passes them through. */
  lemma IteratorSweepOutput(recs: seq<Record>, o: Oracle)
    ensures Records(Output(IteratorSweep(recs), o)) == recs
    ensures Trace(Output(IteratorSweep(recs), o)) == []
  {
    assert Syms(IteratorSweep(recs)) == [];
    ReshapeAllFacts(Yields(recs), []);
    YieldsFacts(recs);
    forall i | 0 <= i < |recs| ensures Reshape(recs[i], []) == recs[i] {
      ReshapeFacts(recs[i], []);
    }
  }

  lemma {:induction false} YieldsFacts(recs: seq<Record>)
    ensures Records(Yields(recs)) == recs && Trace(Yields(recs)) == []
    decreases |recs|
  {
    if recs != [] {
      var init := recs[..|recs| - 1];
      YieldsFacts(init);
      assert Yields(recs)[..|recs| - 1] == Yields(init);
    }
  }

  /** A wrapper created with `repeat=False` runs its `while not stop` loop once: one effect,
      one record. */
  lemma WrapperOutput(s: Sweep, o: Oracle)
    requires (s.ParameterWrapper? || s.FunctionWrapper?) && !s.repeat
    ensures Trace(Output(s, o)) == [WrapperStep(s, o).0]
    ensures Records(Output(s, o)) == [Reshape(WrapperStep(s, o).1, Syms(s))]
  {
    var st := WrapperStep(s, o);
    assert Generate(s, o) == [Act(st.0), Yield(st.1)];
    ReshapeEffectThenYield(st.0, st.1, Syms(s));
    EffectThenYield([], st.0, Reshape(st.1, Syms(s)));
    assert [] + [Act(st.0), Yield(Reshape(st.1, Syms(s)))] == Output(s, o);
  }

  /** A `ParameterWrapper` created with `repeat=False` reads its parameter once and yields
      `{full_name: value}`. */
  lemma ParameterWrapperOutput(p: Parameter, o: Oracle)
    ensures Trace(Output(ParameterWrapper(p, false), o)) == [GetParam(p.fullName)]
    ensures Records(Output(ParameterWrapper(p, false), o)) == [Single(p.fullName, o.get(p.fullName))]
  {
    WrapperOutput(ParameterWrapper(p, false), o);
    ParameterSymbols(ParameterWrapper(p, false));
    ReshapeSingle(p.fullName, o.get(p.fullName));
  }

  /** A `FunctionSweep` over a `setter` function calls it once per set point, in order, with
      the set point's values spread as arguments, and yields the values under the declared
      names, reshaped onto the declared names. */
  lemma FunctionSweepOutput(f: SetterFn, points: seq<Value>, o: Oracle)
    ensures |Records(Output(FunctionSweep(f, points), o))| == |points|
    ensures |Trace(Output(FunctionSweep(f, points), o))| == |points|
    ensures forall i :: 0 <= i < |points| ==>
              Trace(Output(FunctionSweep(f, points), o))[i] == CallSetter(f.id, AtLeast1d(points[i]))
    ensures forall i :: 0 <= i < |points| ==>
              Records(Output(FunctionSweep(f, points), o))[i]
              == Reshape(ZipRecord(ParamNames(f.params), AtLeast1d(points[i])), Syms(FunctionSweep(f, points)))
  {
    var s := FunctionSweep(f, points);
    var st := SetterSteps(f, points);
    var syms := Syms(s);
    assert Generate(s, o) == Steps(st);
    var out := ReshapeAll(Steps(st), syms);
    assert Output(s, o) == out;
    StepsFacts(st);
    ReshapeAllFacts(Steps(st), syms);
    forall i | 0 <= i < |points|
      ensures Trace(out)[i] == CallSetter(f.id, AtLeast1d(points[i]))
      ensures Records(out)[i] == Reshape(ZipRecord(ParamNames(f.params), AtLeast1d(points[i])), syms)
    {
      assert st[i] == SetterStep(f, points[i]);
    }
  }

  /** The record of one call of a `setter` or `measurement` function with distinct declared
      names, reshaped onto those names: each declared name in order, bound to the value at its
      position, or to `None` past the end of the values; without values, `{}`. */
  lemma DeclaredRecord(names: seq<string>, vals: seq<Value>)
    requires Distinct(names)
    ensures vals == [] || names == [] ==> Reshape(ZipRecord(names, vals), Dedup(names)).keys == []
    ensures vals != [] && names != [] ==>
              var r := Reshape(ZipRecord(names, vals), Dedup(names));
              r.keys == names &&
              forall k :: 0 <= k < |names| ==>
                names[k] in r.m && r.m[names[k]] == if k < |vals| then vals[k] else Null
  {
    var n := if |names| < |vals| then |names| else |vals|;
    var rec := ZipRecord(names, vals);
    ZipRecordDistinct(names, vals);
    DedupDistinct(names);
    if n > 0 {
      ReshapeFacts(rec, names);
      forall k | 0 <= k < |names| ensures Get(rec, names[k], Null) == if k < |vals| then vals[k] else Null {
        if k >= n {
          assert names[k] !in names[..n];
        }
      }
    }
  }

  /** Zipping distinct names with values binds the first `min(|names|, |vals|)` names, in
      order, each to the value at its position. */
  lemma ZipRecordDistinct(names: seq<string>, vals: seq<Value>)
    requires Distinct(names)
    ensures var n := if |names| < |vals| then |names| else |vals|;
            ZipRecord(names, vals).keys == names[..n] &&
            forall k :: 0 <= k < n ==> names[k] in ZipRecord(names, vals).m && ZipRecord(names, vals).m[names[k]] == vals[k]
  {
    var n := if |names| < |vals| then |names| else |vals|;
    ZipRecordFacts(names, vals);
    assert Distinct(names[..n]);
    DedupDistinct(names[..n]);
    forall k | 0 <= k < n
      ensures forall j :: k < j < |names| && j < |vals| ==> names[j] != names[k]
    {
    }
  }

  // ---------------------------------------------------------------------------------------
  // Lemmas: combinators

  /** `Chain` yields the records of its children's passes, child after child, each reshaped
      onto the chain's symbols; it has their effects, child after child; and it yields as many
      records as its children together. */
  lemma ChainOutput(s: Sweep, o: Oracle)
    requires s.Chain? && Finite(s)
    ensures Records(Output(s, o)) == ReshapeEach(Concat(RecordsOf(Outs(s, o))), Syms(s))
    ensures Trace(Output(s, o)) == Concat(TracesOf(Outs(s, o)))
    ensures |Records(Output(s, o))| == Sum(Lengths(RecordsOf(Outs(s, o))))
  {
    ChainFacts(Outs(s, o));
    ChainLength(Outs(s, o));
    ReshapeAllRecords(Generate(s, o), Syms(s));
    ReshapeAllFacts(Generate(s, o), Syms(s));
  }

  /** `Nest` yields the records of nested loops over its children's passes, the first child
      outermost, each reshaped onto the nest's symbols; it yields the product of its children's
      numbers of records. */
  lemma NestOutput(s: Sweep, o: Oracle)
    requires s.Nest? && Finite(s) && s.children != []
    ensures Records(Output(s, o)) == ReshapeEach(NestRecords(RecordsOf(Outs(s, o))), Syms(s))
    ensures |Records(Output(s, o))| == Prod(Lengths(RecordsOf(Outs(s, o))))
  {
    NestFoldRecords(Outs(s, o));
    NestRecordsLength(RecordsOf(Outs(s, o)));
    ReshapeAllRecords(Generate(s, o), Syms(s));
  }

  /** The pass of a `Nest` before reshaping is the nested product of its children's passes. */
  lemma GenerateNest(s: Sweep, o: Oracle)
    requires s.Nest? && Finite(s)
    ensures Generate(s, o) == NestFold(Outs(s, o))
  {
  }

  /** The arguments of a `Zip`'s `zip`: each finite child's pass, and each repeating wrapper's
      one round. */
  lemma LaneAt(s: Sweep, o: Oracle, j: nat)
    requires s.Zip? && Finite(s) && j < |s.children|
    ensures !Repeating(s.children[j]) ==>
              Finite(s.children[j]) && Lanes(s, o)[j] == Bounded(Output(s.children[j], o))
    ensures Repeating(s.children[j]) ==>
              var st := WrapperStep(s.children[j], o);
              Lanes(s, o)[j] == Endless([st.0], Reshape(st.1, Syms(s.children[j])))
  {
    assert Lanes(s, o)[j] == LaneOf(s.children[j], o);
  }

  /** The pass of a `Zip` with children before reshaping is the zip of its lanes, one of which
      is bounded. */
  lemma GenerateZip(s: Sweep, o: Oracle)
    requires s.Zip? && Finite(s) && s.children != []
    ensures HasBounded(Lanes(s, o))
    ensures Generate(s, o) == ZipEvents(Lanes(s, o))
  {
    var lanes := Lanes(s, o);
    HasBoundedAt(lanes);
    var j :| 0 <= j < |s.children| && !Repeating(s.children[j]);
    assert lanes[j].Bounded?;
  }

  /** `Nest([a, b])` yields `RecordProduct(ra, rb)` reshaped onto the nest's symbols: `b`'s
      records for each record of `a` in turn, each updated with `a`'s record (`a`'s values win
      on a shared key); `b`'s pass is run again, effects included, at each record of `a`. */
  lemma NestTwo(a: Sweep, b: Sweep, o: Oracle)
    requires Finite(Nest([a, b]))
    ensures Finite(a) && Finite(b)
    ensures Records(Output(Nest([a, b]), o))
            == ReshapeEach(RecordProduct(Records(Output(a, o)), Records(Output(b, o))), Syms(Nest([a, b])))
    ensures Trace(Output(Nest([a, b]), o)) == Replay(Output(a, o), Trace(Output(b, o)))
  {
    var s := Nest([a, b]);
    var oa, ob := GenerateNestTwo(a, b, o);
    var gen := TwoProduct(ob, oa);
    TwoProductRecords(ob, oa);
    TwoProductTrace(ob, oa);
    ReshapeAllRecords(gen, Syms(s));
    ReshapeAllFacts(gen, Syms(s));
  }

  /** The pass of `Nest([a, b])` before reshaping: `b`'s pass inside `a`'s. */
  lemma GenerateNestTwo(a: Sweep, b: Sweep, o: Oracle) returns (oa: seq<Event>, ob: seq<Event>)
    requires Finite(Nest([a, b]))
    ensures Finite(a) && Finite(b)
    ensures oa == Output(a, o) && ob == Output(b, o)
    ensures Generate(Nest([a, b]), o) == TwoProduct(ob, oa)
  {
    var s := Nest([a, b]);
    assert s.children[0] == a && s.children[1] == b;
    oa, ob := Output(a, o), Output(b, o);
    var outs := Outs(s, o);
    assert outs == [oa, ob];
    assert outs[..1] == [oa];
    GenerateNest(s, o);
    assert NestFold(outs) == TwoProduct(outs[1], NestFold(outs[..1]));
  }

  /** `Zip` stops with its shortest child: it yields no more records than any child that
      ends, and exactly as many as one of them. */
  lemma ZipOutputLength(s: Sweep, o: Oracle)
    requires s.Zip? && Finite(s) && s.children != []
    ensures forall j :: 0 <= j < |s.children| && !Repeating(s.children[j]) ==>
              Finite(s.children[j]) &&
              |Records(Output(s, o))| <= |Records(Output(s.children[j], o))|
    ensures exists j :: 0 <= j < |s.children| && !Repeating(s.children[j]) && Finite(s.children[j]) &&
              |Records(Output(s, o))| == |Records(Output(s.children[j], o))|
  {
    var lanes := Lanes(s, o);
    GenerateZip(s, o);
    ReshapeAllFacts(Generate(s, o), Syms(s));
    var n := |Records(Output(s, o))|;
    assert n == |Records(ZipEvents(lanes))|;
    ZipLength(lanes);
    forall j | 0 <= j < |s.children| && !Repeating(s.children[j])
      ensures Finite(s.children[j]) && n <= |Records(Output(s.children[j], o))|
    {
      LaneAt(s, o, j);
      assert Lasts(lanes[j], n);
    }
    var j :| 0 <= j < |lanes| && lanes[j].Bounded? && n == |Records(lanes[j].events)|;
    LaneAt(s, o, j);
  }

  /** Record `i` of a `Zip` is `_combine_dictionaries` of its children's records number `i`,
      left to right (later children win on a shared key), reshaped onto the zip's symbols; a
      repeating wrapper contributes the same record at every round. */
  lemma ZipOutputAt(s: Sweep, o: Oracle, i: nat)
    requires s.Zip? && Finite(s) && s.children != [] && i < |Records(Output(s, o))|
    ensures AllLast(Lanes(s, o), i + 1)
    ensures Records(Output(s, o))[i] == Reshape(CombineAll(Column(Lanes(s, o), i)), Syms(s))
    ensures forall j :: 0 <= j < |s.children| && !Repeating(s.children[j]) ==>
              Finite(s.children[j]) && i < |Records(Output(s.children[j], o))| &&
              Column(Lanes(s, o), i)[j] == Records(Output(s.children[j], o))[i]
    ensures forall j :: 0 <= j < |s.children| && Repeating(s.children[j]) ==>
              Column(Lanes(s, o), i)[j] == Reshape(WrapperStep(s.children[j], o).1, Syms(s.children[j]))
  {
    var lanes := Lanes(s, o);
    GenerateZip(s, o);
    ReshapeAllFacts(Generate(s, o), Syms(s));
    ZipAt(lanes, i);
    forall j | 0 <= j < |s.children|
      ensures !Repeating(s.children[j]) ==>
                Finite(s.children[j]) && i < |Records(Output(s.children[j], o))| &&
                Column(lanes, i)[j] == Records(Output(s.children[j], o))[i]
      ensures Repeating(s.children[j]) ==>
                Column(lanes, i)[j] == Reshape(WrapperStep(s.children[j], o).1, Syms(s.children[j]))
    {
      LaneAt(s, o, j);
    }
  }

  /** `Chain([Nest([])])`: its table is `np.sum([1.0])`, a number, so `_start_iter` raises
      AttributeError; the pass of its generator takes the child's pass as if the child had
      started, and is empty. */
  lemma ChainOfEmptyNest(o: Oracle)
    ensures StartError(Chain([Nest([])])) == Some(AttributeError)
    ensures Finite(Chain([Nest([])])) && Generate(Chain([Nest([])]), o) == []
  {
    var c := Chain([Nest([])]);
    EmptyCombinator(Nest([]));
    assert ChildAttrs(c) == [Ok(Number)];
    assert Outs(c, o) == [Output(Nest([]), o)];
    assert Outs(Nest([]), o) == [];
    assert Generate(Nest([]), o) == [];
    assert Output(Nest([]), o) == [];
    assert Outs(c, o)[..0] == [];
    assert Concat(Outs(c, o)) == [];
  }
}
