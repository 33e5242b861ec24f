/** The generators of qcodes/sweep/sweep.py as the loops they are: each `_setter_factory`,
    `Nest._two_product` and `Zip._combine_dictionaries`, run to exhaustion, proved to produce
    the pass that the functions of `Combinators` and `Sweeps` describe. */
module Generators {
  import opened Results
  import opened Dicts
  import opened Passes
  import opened Tables
  import opened Combinators
  import opened Sweeps

  /** `Zip._combine_dictionaries`: `combined = {}`, then `combined.update(d)` for each `d`. */
  method CombineDictionaries(ds: seq<Record>) returns (combined: Record)
    ensures combined == CombineAll(ds)
  {
    combined := Empty();
    for i := 0 to |ds|
      invariant combined == CombineAll(ds[..i])
    {
      assert ds[..i + 1][..i] == ds[..i];
      combined := Update(combined, ds[i]);
    }
    assert ds[..|ds|] == ds;
  }

  /** `Nest._two_product(inner, outer)`: `for result2 in outer: for result1 in inner:
      result1.update(result2); yield result1`, the inner pass restarted at every outer
      record. */
  method TwoProductPass(inner: seq<Event>, outer: seq<Event>) returns (evs: seq<Event>)
    ensures evs == TwoProduct(inner, outer)
  {
    evs := [];
    for i := 0 to |outer|
      invariant evs == TwoProduct(inner, outer[..i])
    {
      assert outer[..i + 1][..i] == outer[..i];
      var e := outer[i];
      if e.Act? {
        evs := evs + [e];
      } else {
        var done := evs;
        for j := 0 to |inner|
          invariant evs == done + Stamp(inner[..j], e.rec)
        {
          assert inner[..j + 1][..j] == inner[..j];
          var f := inner[j];
          var next := if f.Yield? then Yield(Update(f.rec, e.rec)) else f;
          assert Stamp(inner[..j + 1], e.rec) == Stamp(inner[..j], e.rec) + [next];
          evs := evs + [next];
        }
        assert inner[..|inner|] == inner;
      }
    }
    assert outer[..|outer|] == outer;
  }

  /** `Nest._setter_factory`: `prod = self._sweep_objects[0]`, then `prod =
      _two_product(so, prod)` for every later child; IndexError when there is no child. */
  method NestFactory(outs: seq<seq<Event>>) returns (r: Result<seq<Event>>)
    ensures outs == [] ==> r == Err(IndexError)
    ensures outs != [] ==> r == Ok(NestFold(outs))
  {
    if outs == [] {
      return Err(IndexError);
    }
    var prod := outs[0];
    assert outs[..1] == [outs[0]];
    for i := 1 to |outs|
      invariant prod == NestFold(outs[..i])
    {
      assert outs[..i + 1][..i] == outs[..i];
      prod := TwoProductPass(outs[i], prod);
    }
    assert outs[..|outs|] == outs;
    r := Ok(prod);
  }

  /** `Chain._setter_factory`: `for so in self._sweep_objects: for result in so: yield
      result`. */
  method ChainFactory<T>(outs: seq<seq<T>>) returns (evs: seq<T>)
    ensures evs == Concat(outs)
  {
    evs := [];
    for i := 0 to |outs|
      invariant evs == Concat(outs[..i])
    {
      assert outs[..i + 1][..i] == outs[..i];
      var done := evs;
      for j := 0 to |outs[i]|
        invariant evs == done + outs[i][..j]
      {
        assert outs[i][..j + 1] == outs[i][..j] + [outs[i][j]];
        evs := evs + [outs[i][j]];
      }
      assert outs[i][..|outs[i]|] == outs[i];
    }
    assert outs[..|outs|] == outs;
  }

  /** `Zip._setter_factory`: `for results in zip(*self._sweep_objects): yield
      _combine_dictionaries(results)`; `zip` ends at the first lane that is exhausted. */
  method ZipFactory(lanes: seq<Lane>) returns (evs: seq<Event>)
    requires HasBounded(lanes)
    ensures evs == ZipEvents(lanes)
  {
    evs := [];
    var cur := lanes;
    while true
      invariant HasBounded(cur)
      invariant evs + ZipEvents(cur) == ZipEvents(lanes)
      decreases Weight(cur)
    {
      var stopped, out, rest := ZipNext(cur);
      if stopped {
        evs := evs + out;
        break;
      }
      AppendAssoc(evs, out, ZipEvents(rest));
      evs := evs + out;
      cur := rest;
    }
  }

  /** One round of the `for` loop of `Zip._setter_factory`: `next` on the `zip` of the lanes,
      then the combination of the records of the round; or the effects of a round that ends at
      an exhausted lane. */
  method ZipNext(lanes: seq<Lane>) returns (stopped: bool, out: seq<Event>, rest: seq<Lane>)
    requires HasBounded(lanes)
    ensures stopped ==> out == ZipEvents(lanes)
    ensures !stopped ==>
              HasBounded(rest) && Weight(rest) < Weight(lanes) &&
              ZipEvents(lanes) == out + ZipEvents(rest)
  {
    var t := ZipRound(lanes);
    stopped, rest := t.stopped, t.rest;
    if stopped {
      out := Acts(t.actions);
    } else {
      var combined := CombineDictionaries(t.recs);
      RoundShrinks(lanes);
      out := Acts(t.actions) + [Yield(combined)];
    }
  }

  /** `IteratorSweep._setter_factory`: `for value in self._iterator_function(): yield value`. */
  method IteratorFactory(recs: seq<Record>) returns (evs: seq<Event>)
    ensures evs == Yields(recs)
  {
    evs := [];
    for i := 0 to |recs|
      invariant evs == Yields(recs[..i])
    {
      evs := evs + [Yield(recs[i])];
    }
    assert recs[..|recs|] == recs;
  }

  /** `ParameterSweep._setter_factory`: `for set_value in points: parameter.set(set_value);
      yield {full_name: set_value}`. */
  method ParameterSweepFactory(name: string, points: seq<Value>) returns (evs: seq<Event>)
    ensures evs == Steps(ParameterSteps(name, points))
  {
    var st := ParameterSteps(name, points);
    evs := [];
    for i := 0 to |points|
      invariant evs == Steps(st[..i])
    {
      assert st[..i + 1][..i] == st[..i];
      assert st[i] == (SetParam(name, points[i]), Single(name, points[i]));
      evs := evs + [Act(SetParam(name, points[i])), Yield(Single(name, points[i]))];
    }
    assert st[..|points|] == st;
  }

  /** `FunctionSweep._setter_factory`: `for set_value in points: yield
      self._set_function(set_value)`, where the `setter` decorator's `inner` calls
      `f(*np.atleast_1d(value))` and returns the values under the declared names. */
  method FunctionSweepFactory(f: SetterFn, points: seq<Value>) returns (evs: seq<Event>)
    ensures evs == Steps(SetterSteps(f, points))
  {
    var st := SetterSteps(f, points);
    evs := [];
    for i := 0 to |points|
      invariant evs == Steps(st[..i])
    {
      assert st[..i + 1][..i] == st[..i];
      var value := AtLeast1d(points[i]);
      var rec := ZipRecord(ParamNames(f.params), value);
      assert st[i] == (CallSetter(f.id, value), rec);
      evs := evs + [Act(CallSetter(f.id, value)), Yield(rec)];
    }
    assert st[..|points|] == st;
  }

  /** `n` rounds of the same effect and record. */
  function Cycle(a: Action, r: Record, n: nat): (evs: seq<Event>)
    ensures |evs| == 2 * n
  {
    if n == 0 then [] else Cycle(a, r, n - 1) + [Act(a), Yield(r)]
  }

  /** `Cycle` yields its record `n` times and performs its effect `n` times. */
  lemma {:induction false} CycleFacts(a: Action, r: Record, n: nat)
    ensures |Records(Cycle(a, r, n))| == n && forall i :: 0 <= i < n ==> Records(Cycle(a, r, n))[i] == r
    ensures |Trace(Cycle(a, r, n))| == n && forall i :: 0 <= i < n ==> Trace(Cycle(a, r, n))[i] == a
  {
    if n > 0 {
      CycleFacts(a, r, n - 1);
      EffectThenYield(Cycle(a, r, n - 1), a, r);
    }
  }

  /** The `while not stop` loop of `ParameterWrapper._setter_factory` and
      `FunctionWrapper._setter_factory`, as far as a consumer asking for `demand` records
      drives it: one read and one record per round, and `stop = not self._repeat` after each
      round. */
  method WrapperFactory(s: Sweep, o: Oracle, demand: nat) returns (evs: seq<Event>)
    requires s.ParameterWrapper? || s.FunctionWrapper?
    ensures !s.repeat ==> evs == Cycle(WrapperStep(s, o).0, WrapperStep(s, o).1, if demand == 0 then 0 else 1)
    ensures s.repeat ==> evs == Cycle(WrapperStep(s, o).0, WrapperStep(s, o).1, demand)
  {
    var st := WrapperStep(s, o);
    evs := [];
    var stop := false;
    var rounds := 0;
    while !stop && rounds < demand
      invariant rounds <= demand
      invariant evs == Cycle(st.0, st.1, rounds)
      invariant stop ==> !s.repeat && rounds == 1
      invariant !s.repeat ==> rounds <= 1 && (rounds == 1 ==> stop)
      decreases demand - rounds
    {
      evs := evs + [Act(st.0), Yield(st.1)];
      rounds := rounds + 1;
      stop := !s.repeat;
    }
  }

  /** A single round of a wrapper's loop is the whole of its pass. */
  lemma WrapperPass(s: Sweep, o: Oracle)
    requires (s.ParameterWrapper? || s.FunctionWrapper?) && Finite(s)
    ensures Generate(s, o) == Cycle(WrapperStep(s, o).0, WrapperStep(s, o).1, 1)
  {
    var st := WrapperStep(s, o);
    assert Cycle(st.0, st.1, 1) == [] + [Act(st.0), Yield(st.1)];
  }

  /** `_setter_factory()` of any sweep object, run to exhaustion: the pass before the object's
      own `__next__` reshapes it. */
  method Pass(s: Sweep, o: Oracle) returns (evs: seq<Event>)
    requires Finite(s)
    ensures evs == Generate(s, o)
    decreases s, 2
  {
    match s
    case IteratorSweep(recs) =>
      evs := IteratorFactory(recs);
    case ParameterSweep(p, points) =>
      evs := ParameterSweepFactory(p.fullName, points);
    case ParameterWrapper(_, _) =>
      evs := WrapperFactory(s, o, 1);
      WrapperPass(s, o);
    case FunctionSweep(f, points) =>
      evs := FunctionSweepFactory(f, points);
    case FunctionWrapper(_, _) =>
      evs := WrapperFactory(s, o, 1);
      WrapperPass(s, o);
    case Nest(cs) =>
      var outs := ChildOutputs(s, o);
      GenerateNest(s, o);
      var r := NestFactory(outs);
      evs := if r.Ok? then r.value else [];
    case Chain(cs) =>
      var outs := ChildOutputs(s, o);
      evs := ChainFactory(outs);
    case Zip(cs) =>
      if cs == [] {
        evs := [];
      } else {
        var lanes := ChildLanes(s, o, 0);
        GenerateZip(s, o);
        evs := ZipFactory(lanes);
      }
  }

  /** The passes of the children of a `Nest` or a `Chain`, each reshaped by the child's own
      `__next__`. */
  method ChildOutputs(s: Sweep, o: Oracle) returns (outs: seq<seq<Event>>)
    requires (s.Nest? || s.Chain?) && Finite(s)
    ensures outs == Outs(s, o)
    decreases s, 1
  {
    outs := [];
    ghost var all := Outs(s, o);
    for i := 0 to |s.children|
      invariant outs == all[..i]
    {
      var c := s.children[i];
      assert Finite(c);
      var g := Pass(c, o);
      var out := ReshapeAll(g, Syms(c));
      assert all[i] == Output(c, o) == ReshapeAll(Generate(c, o), Syms(c));
      assert all[..i + 1] == all[..i] + [out];
      outs := outs + [out];
    }
    assert all[..|s.children|] == all;
  }

  /** The arguments of `zip(*self._sweep_objects)`: a generator for each child that ends, and
      the repeating wrappers, whose every `next` is one more round. */
  method ChildLanes(s: Sweep, o: Oracle, i: nat) returns (lanes: seq<Lane>)
    requires s.Zip? && Finite(s) && i <= |s.children|
    ensures lanes == Lanes(s, o)[i..]
    decreases s, 1, |s.children| - i
  {
    if i == |s.children| {
      lanes := [];
    } else {
      var lane := ChildLane(s, o, i);
      var rest := ChildLanes(s, o, i + 1);
      ghost var all := Lanes(s, o);
      assert all[i..] == [all[i]] + all[i + 1..];
      lanes := [lane] + rest;
    }
  }

  /** The argument of `zip` for child `i`. */
  method ChildLane(s: Sweep, o: Oracle, i: nat) returns (lane: Lane)
    requires s.Zip? && Finite(s) && i < |s.children|
    ensures lane == Lanes(s, o)[i]
    decreases s, 0
  {
    var c := s.children[i];
    LaneAt(s, o, i);
    if Repeating(c) {
      var st := WrapperStep(c, o);
      lane := Endless([st.0], Reshape(st.1, Syms(c)));
    } else {
      var g := Pass(c, o);
      lane := Bounded(ReshapeAll(g, Syms(c)));
      assert Output(c, o) == ReshapeAll(Generate(c, o), Syms(c));
    }
  }

  /** Regrouping a concatenation of three event sequences. */
  lemma AppendAssoc<T>(a: seq<T>, b: seq<T>, c: seq<T>)
    ensures a + (b + c) == a + b + c
  {
  }
}
