/** The helper functions of qcodes/sweep/sweep.py that build sweep objects from plain
    arguments: the `measurement` and `setter` decorators, `wrap_objects`,
    `BaseSweepObject.__call__`, and `sweep`, `nest`, `chain` and `szip`. */
module Helpers {
  import opened Results
  import opened Passes
  import opened Tables
  import opened Combinators
  import opened Sweeps

  /** An argument of the helpers, told apart as `isinstance` and `callable` tell them apart. */
  datatype Obj =
    | ParamObj(parameter: Parameter)    // a `qcodes.Parameter`
    | SweepObj(sweep: Sweep)            // a `BaseSweepObject`
    | MeasureObj(measureFn: MeasureFn)  // a function decorated with `measurement`
    | SetterObj(setFn: SetterFn)        // a function decorated with `setter`
    | Other                             // anything else, which is not callable

  /** The table a parameter declares: one column, `(full_name, unit)`. */
  function ParamColumn(p: Parameter): seq<Param>
  {
    [Param(p.fullName, p.unit)]
  }

  // ---------------------------------------------------------------------------------------
  // The decorators

  /** `measurement(param_list)(f)`: the table `ParametersTable(dependent_parameters=param_list)`
      is built when `f` is decorated, so an empty list raises ValueError there; otherwise every
      `FunctionWrapper` over the decorated function declares `param_list` as its dependent
      columns. */
  function Measurement(id: string, params: seq<Param>): (r: Result<MeasureFn>)
    ensures r.Err? <==> params == []
    ensures r.Err? ==> r.error == ValueError
    ensures r.Ok? ==> r.value.params == params
    ensures r.Ok? ==> forall repeat: bool ::
              Attr(FunctionWrapper(r.value, repeat)) == Ok(Has(Table([Fragment([], params)])))
  {
    var t := Construct(None, Some(params), None);
    if t.Err? then Err(t.error) else Ok(MeasureFn(id, params))
  }

  /** `setter(param_list)(f)`: the table `ParametersTable(independent_parameters=param_list)` is
      built when `f` is decorated, so an empty list raises ValueError there; otherwise every
      `FunctionSweep` over the decorated function declares `param_list` as its independent
      columns. */
  function Setter(id: string, params: seq<Param>): (r: Result<SetterFn>)
    ensures r.Err? <==> params == []
    ensures r.Err? ==> r.error == ValueError
    ensures r.Ok? ==> r.value.params == params
    ensures r.Ok? ==> forall points: seq<Value> ::
              Attr(FunctionSweep(r.value, points)) == Ok(Has(Table([Fragment(params, [])])))
  {
    var t := Construct(None, None, Some(params));
    if t.Err? then Err(t.error) else Ok(SetterFn(id, params))
  }

  // ---------------------------------------------------------------------------------------
  // `wrap_objects`

  /** `wrapper(obj)` inside `wrap_objects`: a parameter becomes a `ParameterWrapper`, a sweep
      object stays as it is, a measurement function becomes a `FunctionWrapper`, and
      anything that is not callable raises ValueError. A setter function is callable too, and
      its `FunctionWrapper` fails with TypeError, as its `inner` is called without the value
      it needs. A wrapped parameter or measurement repeats exactly when `repeat` is set, and
      otherwise has a pass that ends. */
  function Wrap(obj: Obj, repeat: bool): (r: Result<Sweep>)
    ensures r.Err? <==> obj.SetterObj? || obj.Other?
    ensures obj.Other? ==> r == Err(ValueError)
    ensures obj.SetterObj? ==> r == Err(TypeError)
    ensures obj.SweepObj? ==> r == Ok(obj.sweep)
    ensures obj.ParamObj? ==>
              r.Ok? && Attr(r.value) == Ok(Has(Table([Fragment([], ParamColumn(obj.parameter))])))
    ensures obj.MeasureObj? ==> r.Ok? && Attr(r.value) == Attr(FunctionWrapper(obj.measureFn, false))
    ensures obj.ParamObj? || obj.MeasureObj? ==>
              (Repeating(r.value) <==> repeat) && (!repeat ==> Finite(r.value))
  {
    match obj
    case ParamObj(p) => Ok(ParameterWrapper(p, repeat))
    case SweepObj(s) => Ok(s)
    case MeasureObj(m) => Ok(FunctionWrapper(m, repeat))
    case SetterObj(_) => Err(TypeError)
    case Other => Err(ValueError)
  }

  /** `wrap_objects(*objects, repeat=repeat)`: `wrapper` over the objects from left to right;
      the first object that cannot be wrapped raises its error. */
  function WrapObjects(objs: seq<Obj>, repeat: bool): Result<seq<Sweep>>
    decreases |objs|
  {
    if objs == [] then Ok([])
    else
      var init := WrapObjects(objs[..|objs| - 1], repeat);
      var w := Wrap(objs[|objs| - 1], repeat);
      if init.Err? then init
      else if w.Err? then Err(w.error)
      else Ok(init.value + [w.value])
  }

  /** `wrap_objects` succeeds exactly when every object can be wrapped, and then wraps each of
      them in place; otherwise it raises the error of the first object that cannot be
      wrapped. */
  lemma {:induction false} WrapObjectsFacts(objs: seq<Obj>, repeat: bool)
    ensures WrapObjects(objs, repeat).Ok? <==> forall i :: 0 <= i < |objs| ==> Wrap(objs[i], repeat).Ok?
    ensures WrapObjects(objs, repeat).Ok? ==>
              |WrapObjects(objs, repeat).value| == |objs| &&
              forall i :: 0 <= i < |objs| ==> WrapObjects(objs, repeat).value[i] == Wrap(objs[i], repeat).value
    ensures WrapObjects(objs, repeat).Err? ==>
              exists i :: 0 <= i < |objs| && Wrap(objs[i], repeat).Err? &&
                WrapObjects(objs, repeat).error == Wrap(objs[i], repeat).error &&
                forall j :: 0 <= j < i ==> Wrap(objs[j], repeat).Ok?
    decreases |objs|
  {
    if objs != [] {
      var n := |objs| - 1;
      var init := objs[..n];
      WrapObjectsFacts(init, repeat);
      assert forall i :: 0 <= i < n ==> init[i] == objs[i];
      if WrapObjects(init, repeat).Err? {
        var i :| 0 <= i < n && Wrap(init[i], repeat).Err? &&
                 WrapObjects(init, repeat).error == Wrap(init[i], repeat).error &&
                 forall j :: 0 <= j < i ==> Wrap(init[j], repeat).Ok?;
        assert Wrap(objs[i], repeat).Err?;
      } else if Wrap(objs[n], repeat).Err? {
        assert forall j :: 0 <= j < n ==> Wrap(objs[j], repeat).Ok?;
      }
    }
  }

  /** A wrapped parameter with `repeat=False` reads it once and yields one record; a wrapped
      measurement function likewise calls it once and yields one record. */
  lemma WrapOnce(obj: Obj, o: Oracle)
    requires obj.ParamObj? || obj.MeasureObj?
    ensures Wrap(obj, false).Ok? && Finite(Wrap(obj, false).value)
    ensures |Records(Output(Wrap(obj, false).value, o))| == 1
    ensures |Trace(Output(Wrap(obj, false).value, o))| == 1
  {
    WrapperOutput(Wrap(obj, false).value, o);
  }

  // ---------------------------------------------------------------------------------------
  // `sweep`, `nest`, `chain`, `BaseSweepObject.__call__` and `szip`

  /** What a constructor gives: the object, or the error that its `np.prod`/`np.sum` (or the
      constructor of an object below it) raises. */
  function Constructed(s: Sweep): Result<Sweep>
  {
    if Built(s) then Ok(s) else Err(Attr(s).error)
  }

  /** The table of a combinator of two objects: the first child's error, else the second's,
      else one step of the fold over the two tables. */
  lemma TwoChildTable(s: Sweep)
    requires (s.Nest? || s.Chain? || s.Zip?) && |s.children| == 2
    ensures Attr(s) == if Attr(s.children[0]).Err? then Attr(s.children[0])
                       else if Attr(s.children[1]).Err? then Attr(s.children[1])
                       else Step(OpOf(s), Attr(s.children[0]).value, Attr(s.children[1]).value)
  {
    var rs := ChildAttrs(s);
    assert Attr(s) == Combine(OpOf(s), rs);
    var one: seq<Result<TableAttr>> := [rs[0]];
    assert one[..0] == [] && Collect(one[..0]) == Ok([]);
    assert rs[..|rs| - 1] == one;
    if rs[0].Ok? {
      assert [] + [rs[0].value] == [rs[0].value];
      assert Collect(one) == Ok([rs[0].value]);
      if rs[1].Ok? {
        var xs := [rs[0].value, rs[1].value];
        assert [rs[0].value] + [rs[1].value] == xs;
        assert Collect(rs) == Ok(xs);
        assert xs[..1] == [rs[0].value];
        assert Reduce(OpOf(s), xs) == Step(OpOf(s), rs[0].value, rs[1].value);
      }
    } else {
      assert Collect(one) == Err(rs[0].error);
    }
  }

  /** The table of `obj()` for a sweep object `obj`, that is of `Nest([obj, Chain([])])`
      (sweep.py:141): `np.prod` of `obj`'s table and the number `np.sum([])`. */
  lemma CallTable(s: Sweep)
    ensures Attr(Nest([s, Chain([])])) == if Attr(s).Err? then Attr(s) else Step(Times, Attr(s).value, Number)
  {
    EmptyCombinator(Chain([]));
    TwoChildTable(Nest([s, Chain([])]));
  }

  /** `sweep(obj, sweep_points)`, with the points already produced by the point function: a
      parameter becomes a `ParameterSweep`, any other callable a `FunctionSweep`, and anything
      that is not callable raises ValueError. Only a setter function can be swept. A
      measurement function fails when its `inner` is called with a set point, modelled as
      TypeError. A sweep object fails at once: `FunctionSweep.__init__` unpacks `obj()`, the
      nest `Nest([obj, Chain([])])`, whose `np.prod` raises unless `obj`'s table is a number
      (AttributeError from `__mul__` on a table, TypeError on no table); with a number the
      unpacking runs `_start_iter`, which raises AttributeError. */
  function SweepOf(obj: Obj, points: seq<Value>): (r: Result<Sweep>)
    ensures r.Ok? <==> obj.ParamObj? || obj.SetterObj?
    ensures obj.Other? ==> r == Err(ValueError)
    ensures obj.MeasureObj? ==> r == Err(TypeError)
    ensures obj.SweepObj? && Attr(obj.sweep) == Ok(NoTable) ==> r == Err(TypeError)
    ensures obj.SweepObj? && Attr(obj.sweep).Ok? && Attr(obj.sweep) != Ok(NoTable) ==> r == Err(AttributeError)
  {
    match obj
    case ParamObj(p) => Ok(ParameterSweep(p, points))
    case SetterObj(f) => Ok(FunctionSweep(f, points))
    case Other => Err(ValueError)
    case MeasureObj(_) => Err(TypeError)
    case SweepObj(s) =>
      CallEmpty(s);
      var c := Call(s, []);
      if c.Err? then Err(c.error) else Err(AttributeError)
  }

  /** `s()` with no objects is `Nest([s, Chain([])])`, built exactly when the fold of `s`'s
      table with the number `np.sum([])` succeeds. */
  lemma CallEmpty(s: Sweep)
    ensures Call(s, []) == Constructed(Nest([s, Chain([])]))
    ensures Attr(Nest([s, Chain([])])) == if Attr(s).Err? then Attr(s) else Step(Times, Attr(s).value, Number)
  {
    assert WrapObjects([], false) == Ok([]);
    EmptyCombinator(Chain([]));
    CallTable(s);
  }

  /** `sweep` over a sweep object `s` fails in `s()`, modelled by `Call`: with the error of
      constructing the nest, or, when that succeeds, with the error that the nest's
      `_start_iter` raises. */
  lemma SweepOfSweepObject(s: Sweep, points: seq<Value>)
    ensures Call(s, []).Err? ==> SweepOf(SweepObj(s), points) == Call(s, [])
    ensures Call(s, []).Ok? ==>
              Call(s, []).value == Nest([s, Chain([])]) &&
              StartError(Call(s, []).value) == Some(AttributeError) &&
              SweepOf(SweepObj(s), points) == Err(AttributeError)
  {
    CallEmpty(s);
  }

  /** A 1D sweep sets its parameter, or calls its setter function, once per point, in order,
      and yields one record per point. */
  lemma SweepPoints(obj: Obj, points: seq<Value>, o: Oracle)
    requires SweepOf(obj, points).Ok?
    ensures Finite(SweepOf(obj, points).value)
    ensures |Records(Output(SweepOf(obj, points).value, o))| == |points|
    ensures |Trace(Output(SweepOf(obj, points).value, o))| == |points|
    ensures obj.ParamObj? ==> forall i :: 0 <= i < |points| ==>
              Records(Output(SweepOf(obj, points).value, o))[i] == Single(obj.parameter.fullName, points[i]) &&
              Trace(Output(SweepOf(obj, points).value, o))[i] == SetParam(obj.parameter.fullName, points[i])
    ensures obj.SetterObj? ==> forall i :: 0 <= i < |points| ==>
              Trace(Output(SweepOf(obj, points).value, o))[i] == CallSetter(obj.setFn.id, AtLeast1d(points[i]))
  {
    if obj.ParamObj? {
      ParameterSweepOutput(obj.parameter, points, o);
    } else {
      FunctionSweepOutput(obj.setFn, points, o);
    }
  }

  /** `nest(*objects)`: a `Nest` of the wrapped objects. */
  function NestOf(objs: seq<Obj>): Result<Sweep>
  {
    var ws := WrapObjects(objs, false);
    if ws.Err? then Err(ws.error) else Constructed(Nest(ws.value))
  }

  /** `chain(*objects)`: a `Chain` of the wrapped objects. */
  function ChainOf(objs: seq<Obj>): Result<Sweep>
  {
    var ws := WrapObjects(objs, false);
    if ws.Err? then Err(ws.error) else Constructed(Chain(ws.value))
  }

  /** `nest` and `chain` first wrap their objects without repeating, and raise the error of
      the first object that cannot be wrapped. The children are then the objects, each
      wrapped in place, and the constructor succeeds exactly when its `np.prod` (`nest`) or
      `np.sum` (`chain`) of the children's tables does, raising that fold's error otherwise. */
  lemma CombinatorChildren(objs: seq<Obj>)
    ensures NestOf(objs).Ok? ==>
              (forall i :: 0 <= i < |objs| ==> Wrap(objs[i], false).Ok?) &&
              Built(NestOf(objs).value) && NestOf(objs).value.Nest? &&
              |NestOf(objs).value.children| == |objs| &&
              forall i :: 0 <= i < |objs| ==> NestOf(objs).value.children[i] == Wrap(objs[i], false).value
    ensures ChainOf(objs).Ok? ==>
              (forall i :: 0 <= i < |objs| ==> Wrap(objs[i], false).Ok?) &&
              Built(ChainOf(objs).value) && ChainOf(objs).value.Chain? &&
              |ChainOf(objs).value.children| == |objs| &&
              forall i :: 0 <= i < |objs| ==> ChainOf(objs).value.children[i] == Wrap(objs[i], false).value
    ensures (forall i :: 0 <= i < |objs| ==> Wrap(objs[i], false).Ok?) ==>
              WrapObjects(objs, false).Ok? &&
              (NestOf(objs).Ok? <==> Built(Nest(WrapObjects(objs, false).value))) &&
              (NestOf(objs).Err? ==> NestOf(objs).error == Attr(Nest(WrapObjects(objs, false).value)).error) &&
              (ChainOf(objs).Ok? <==> Built(Chain(WrapObjects(objs, false).value))) &&
              (ChainOf(objs).Err? ==> ChainOf(objs).error == Attr(Chain(WrapObjects(objs, false).value)).error)
    ensures !(forall i :: 0 <= i < |objs| ==> Wrap(objs[i], false).Ok?) ==>
              NestOf(objs).Err? && ChainOf(objs).Err? && NestOf(objs).error == ChainOf(objs).error &&
              exists i :: 0 <= i < |objs| && Wrap(objs[i], false).Err? &&
                NestOf(objs).error == Wrap(objs[i], false).error &&
                forall j :: 0 <= j < i ==> Wrap(objs[j], false).Ok?
  {
    WrapObjectsFacts(objs, false);
  }

  /** `nest(chain(), p)`: both objects wrap, but `np.prod` multiplies the number `np.sum([])`
      by a table, which has no operator. */
  lemma NestOfEmptyChain(p: Parameter)
    ensures NestOf([SweepObj(Chain([])), ParamObj(p)]) == Err(TypeError)
  {
    var objs := [SweepObj(Chain([])), ParamObj(p)];
    WrapObjectsFacts(objs, false);
    var ws := WrapObjects(objs, false).value;
    assert ws == [Chain([]), ParameterWrapper(p, false)] by {
      assert ws[0] == Wrap(objs[0], false).value && ws[1] == Wrap(objs[1], false).value;
    }
    EmptyCombinator(Chain([]));
    TwoChildTable(Nest(ws));
  }

  /** `chain(sweep(p, points), s)` for an iterator sweep `s`: the table's `__add__` looks up
      `table_list` on the `None` table of `s`. */
  lemma ChainOfIteratorSweep(p: Parameter, points: seq<Value>, records: seq<Record>)
    ensures ChainOf([SweepObj(ParameterSweep(p, points)), SweepObj(IteratorSweep(records))]) == Err(AttributeError)
  {
    var objs := [SweepObj(ParameterSweep(p, points)), SweepObj(IteratorSweep(records))];
    WrapObjectsFacts(objs, false);
    var ws := WrapObjects(objs, false).value;
    assert ws == [ParameterSweep(p, points), IteratorSweep(records)] by {
      assert ws[0] == Wrap(objs[0], false).value && ws[1] == Wrap(objs[1], false).value;
    }
    TwoChildTable(Chain(ws));
  }

  /** Objects wrapped without repeating have passes that end, and so have `nest` and `chain`
      of them, as long as every sweep object among them has. */
  lemma CombinatorFinite(objs: seq<Obj>)
    requires forall i :: 0 <= i < |objs| && objs[i].SweepObj? ==> Finite(objs[i].sweep)
    ensures NestOf(objs).Ok? ==> Finite(NestOf(objs).value)
    ensures ChainOf(objs).Ok? ==> Finite(ChainOf(objs).value)
  {
    CombinatorChildren(objs);
    if forall i :: 0 <= i < |objs| ==> Wrap(objs[i], false).Ok? {
      var cs := WrapObjects(objs, false).value;
      forall i | 0 <= i < |cs|
        ensures Finite(cs[i])
      {
        WrapObjectsFacts(objs, false);
        assert cs[i] == Wrap(objs[i], false).value;
      }
      assert Finite(Nest(cs)) && Finite(Chain(cs));
    }
  }

  /** `sweep_object(*objects)`: `Nest([self, Chain(wrap_objects(*objects))])`. */
  function Call(s: Sweep, objs: seq<Obj>): Result<Sweep>
  {
    var c := ChainOf(objs);
    if c.Err? then Err(c.error) else Constructed(Nest([s, c.value]))
  }

  /** Calling a built sweep object raises the chain's error, or else succeeds exactly when
      `np.prod` of the object's table and the chain's does, with that product's error
      otherwise. With no objects the chain's table is a number, so only an object whose
      table is a number can be called. */
  lemma CallShape(s: Sweep, objs: seq<Obj>)
    requires Built(s)
    ensures ChainOf(objs).Err? ==> Call(s, objs) == Err(ChainOf(objs).error)
    ensures ChainOf(objs).Ok? ==>
              Built(ChainOf(objs).value) &&
              var st := Step(Times, Attr(s).value, Attr(ChainOf(objs).value).value);
              (Call(s, objs).Ok? <==> st.Ok?) &&
              (Call(s, objs).Ok? ==> Call(s, objs).value == Nest([s, ChainOf(objs).value])) &&
              (Call(s, objs).Err? ==> Call(s, objs).error == st.error)
    ensures objs == [] ==> (Call(s, objs).Ok? <==> Attr(s) == Ok(Number))
  {
    if ChainOf(objs).Ok? {
      TwoChildTable(Nest([s, ChainOf(objs).value]));
    }
    if objs == [] {
      CallEmpty(s);
    }
  }

  /** A call of a sweep object on further objects that succeeds runs their chain at every
      record of the object: each record of `s` followed by every record of the chain, merged
      with it, and the chain's whole pass, effects included, at each of them. */
  lemma CallOutput(s: Sweep, objs: seq<Obj>, o: Oracle)
    requires Finite(s) && Call(s, objs).Ok? && Finite(ChainOf(objs).value)
    ensures ChainOf(objs).Ok? && Call(s, objs).value == Nest([s, ChainOf(objs).value])
    ensures Finite(Call(s, objs).value)
    ensures Records(Output(Call(s, objs).value, o))
            == ReshapeEach(RecordProduct(Records(Output(s, o)), Records(Output(ChainOf(objs).value, o))),
                           Syms(Call(s, objs).value))
    ensures Trace(Output(Call(s, objs).value, o))
            == Replay(Output(s, o), Trace(Output(ChainOf(objs).value, o)))
  {
    var c := ChainOf(objs).value;
    assert Finite(Nest([s, c])) by {
      assert forall i :: 0 <= i < 2 ==> [s, c][i] == s || [s, c][i] == c;
    }
    NestTwo(s, c, o);
  }

  /** Whether some argument is a sweep object. */
  predicate AnySweep(objs: seq<Obj>)
  {
    exists j :: 0 <= j < |objs| && objs[j].SweepObj?
  }

  /** `szip(*objects)`: a `Zip` of the objects, wrapped with `repeat=True` when some argument
      is a sweep object. */
  function Szip(objs: seq<Obj>): Result<Sweep>
  {
    var ws := WrapObjects(objs, AnySweep(objs));
    if ws.Err? then Err(ws.error) else Constructed(Zip(ws.value))
  }

  /** `szip` wraps its parameters and measurement functions as repeating exactly when some
      argument is a sweep object, and keeps its sweep objects as they are. It raises the error
      of the first object that cannot be wrapped, or else the error of `Zip`'s `np.prod`. */
  lemma SzipRepeat(objs: seq<Obj>)
    ensures Szip(objs).Ok? ==> forall i :: 0 <= i < |objs| ==> Wrap(objs[i], AnySweep(objs)).Ok?
    ensures (forall i :: 0 <= i < |objs| ==> Wrap(objs[i], AnySweep(objs)).Ok?) ==>
              WrapObjects(objs, AnySweep(objs)).Ok? &&
              (Szip(objs).Ok? <==> Built(Zip(WrapObjects(objs, AnySweep(objs)).value))) &&
              (Szip(objs).Err? ==> Szip(objs).error == Attr(Zip(WrapObjects(objs, AnySweep(objs)).value)).error)
    ensures !(forall i :: 0 <= i < |objs| ==> Wrap(objs[i], AnySweep(objs)).Ok?) ==>
              exists i :: 0 <= i < |objs| && Wrap(objs[i], AnySweep(objs)).Err? &&
                Szip(objs) == Err(Wrap(objs[i], AnySweep(objs)).error) &&
                forall j :: 0 <= j < i ==> Wrap(objs[j], AnySweep(objs)).Ok?
    ensures Szip(objs).Ok? ==>
              Built(Szip(objs).value) &&
              Szip(objs).value.Zip? && |Szip(objs).value.children| == |objs| &&
              forall i :: 0 <= i < |objs| ==>
                (objs[i].SweepObj? ==> Szip(objs).value.children[i] == objs[i].sweep) &&
                (objs[i].ParamObj? || objs[i].MeasureObj? ==>
                   (Repeating(Szip(objs).value.children[i]) <==> AnySweep(objs)))
  {
    WrapObjectsFacts(objs, AnySweep(objs));
  }

  /** A `szip` with a sweep object among its arguments, each of whose sweep objects has a pass
      that ends, has a pass that ends: its repeating wrappers are bounded by the sweep
      objects. */
  lemma SzipFinite(objs: seq<Obj>)
    requires Szip(objs).Ok? && AnySweep(objs)
    requires forall i :: 0 <= i < |objs| && objs[i].SweepObj? ==> Finite(objs[i].sweep)
    ensures Finite(Szip(objs).value)
  {
    SzipRepeat(objs);
    var cs := Szip(objs).value.children;
    var j :| 0 <= j < |objs| && objs[j].SweepObj?;
    assert !Repeating(cs[j]);
    forall i | 0 <= i < |cs|
      ensures Repeating(cs[i]) || Finite(cs[i])
    {
      WrapObjectsFacts(objs, true);
      assert cs[i] == Wrap(objs[i], true).value;
    }
  }

  /** `szip(readable, sweep(parameter, points))` wraps `readable` as repeating and keeps the
      sweep. */
  lemma SzipReadable(readable: Parameter, p: Parameter, points: seq<Value>)
    ensures Szip([ParamObj(readable), SweepObj(ParameterSweep(p, points))])
            == Ok(Zip([ParameterWrapper(readable, true), ParameterSweep(p, points)]))
  {
    var objs := [ParamObj(readable), SweepObj(ParameterSweep(p, points))];
    assert AnySweep(objs) by {
      assert objs[1].SweepObj?;
    }
    WrapObjectsFacts(objs, true);
    var ws := WrapObjects(objs, true).value;
    assert ws == [ParameterWrapper(readable, true), ParameterSweep(p, points)] by {
      assert ws[0] == Wrap(objs[0], true).value && ws[1] == Wrap(objs[1], true).value;
    }
    TwoChildTable(Zip(ws));
  }

  /** That zip yields as many records as there are points, although the repeating wrapper
      alone never ends. */
  lemma SzipBounded(readable: Parameter, p: Parameter, points: seq<Value>, o: Oracle)
    ensures Finite(Zip([ParameterWrapper(readable, true), ParameterSweep(p, points)]))
    ensures |Records(Output(Zip([ParameterWrapper(readable, true), ParameterSweep(p, points)]), o))| == |points|
  {
    var z := Zip([ParameterWrapper(readable, true), ParameterSweep(p, points)]);
    assert Finite(z) by {
      assert !Repeating(z.children[1]);
    }
    var n := |Records(Output(z, o))|;
    assert n == |Records(Output(z.children[1], o))| by {
      ZipOutputLength(z, o);
      var j :| 0 <= j < 2 && !Repeating(z.children[j]) && Finite(z.children[j]) &&
               n == |Records(Output(z.children[j], o))|;
      assert j == 1;
    }
    ParameterSweepOutput(p, points, o);
  }

  /** The two arguments of that zip's `zip`: a reader repeating its read, and the sweep's
      pass of set-then-record steps. */
  lemma SzipLanes(readable: Parameter, p: Parameter, points: seq<Value>, o: Oracle)
    ensures Finite(Zip([ParameterWrapper(readable, true), ParameterSweep(p, points)]))
    ensures var w := ParameterWrapper(readable, true);
            Lanes(Zip([w, ParameterSweep(p, points)]), o)
            == [Endless([GetParam(readable.fullName)], Reshape(WrapperStep(w, o).1, Syms(w))),
                Bounded(Steps(ParameterSteps(p.fullName, points)))]
  {
    var z := Zip([ParameterWrapper(readable, true), ParameterSweep(p, points)]);
    assert Finite(z) by {
      assert !Repeating(z.children[1]);
    }
    LaneAt(z, o, 0);
    LaneAt(z, o, 1);
    ParameterSweepSteps(p, points, o);
  }

  /** The effects of that zip, as the reads interleaved with the sets. */
  lemma SzipReads(readable: Parameter, p: Parameter, points: seq<Value>, o: Oracle)
    ensures Finite(Zip([ParameterWrapper(readable, true), ParameterSweep(p, points)]))
    ensures Trace(Output(Zip([ParameterWrapper(readable, true), ParameterSweep(p, points)]), o))
            == ReadBefore(GetParam(readable.fullName), ParameterSteps(p.fullName, points))
               + [GetParam(readable.fullName)]
  {
    var w := ParameterWrapper(readable, true);
    var z := Zip([w, ParameterSweep(p, points)]);
    SzipLanes(readable, p, points, o);
    GenerateZip(z, o);
    ZipReadBefore(GetParam(readable.fullName), Reshape(WrapperStep(w, o).1, Syms(w)),
                  ParameterSteps(p.fullName, points));
    ReshapeAllFacts(Generate(z, o), Syms(z));
  }

  /** The effects of that zip: `readable` is read before each set point, and once more in the
      round in which the sweep turns out to be exhausted, so there are `|points| + 1` reads for
      `|points|` sets. */
  lemma SzipTrace(readable: Parameter, p: Parameter, points: seq<Value>, o: Oracle)
    ensures Finite(Zip([ParameterWrapper(readable, true), ParameterSweep(p, points)]))
    ensures var t := Trace(Output(Zip([ParameterWrapper(readable, true), ParameterSweep(p, points)]), o));
            |t| == 2 * |points| + 1 &&
            (forall i :: 0 <= i < |points| ==>
               t[2 * i] == GetParam(readable.fullName) && t[2 * i + 1] == SetParam(p.fullName, points[i])) &&
            t[2 * |points|] == GetParam(readable.fullName)
  {
    SzipReads(readable, p, points, o);
    var a := GetParam(readable.fullName);
    var st := ParameterSteps(p.fullName, points);
    ReadBeforeThenRead(a, st);
    assert forall i :: 0 <= i < |points| ==> st[i].0 == SetParam(p.fullName, points[i]);
  }
}
