/** What one pass over a sweep object does: the effects it has on the instruments, and the
    records (`dict`s from parameter name to value) it yields, interleaved in the order in which
    the generators run. */
module Passes {
  import opened Dicts

  /** A set point or a reading. `Vec` is a tuple or array of values (a set point of a setter
      function over several parameters, or the return value of a measurement function). */
  datatype Value = Null | Num(x: real) | Vec(items: seq<Value>)

  /** A record: a dict whose key order lists each of its keys once. */
  type Record = d: Dict<Value> | Valid(d) witness Dict([], map[])

  /** The effects a sweep has on the outside world. */
  datatype Action =
    | SetParam(name: string, value: Value)       // `parameter.set(value)`
    | GetParam(name: string)                     // `parameter()`
    | CallSetter(fn: string, args: seq<Value>)   // `f(*value)` inside a `setter` wrapper
    | CallMeasure(fn: string)                    // `f()` inside a `measurement` wrapper

  /** One step of a generator: an effect, or a yielded record. */
  datatype Event = Act(action: Action) | Yield(rec: Record)

  /** The records a pass yields, in order. */
  function Records(evs: seq<Event>): seq<Record>
    decreases |evs|
  {
    if evs == [] then []
    else
      var last := evs[|evs| - 1];
      Records(evs[..|evs| - 1]) + (if last.Yield? then [last.rec] else [])
  }

  /** The effects a pass has, in order. */
  function Trace(evs: seq<Event>): seq<Action>
    decreases |evs|
  {
    if evs == [] then []
    else
      var last := evs[|evs| - 1];
      Trace(evs[..|evs| - 1]) + (if last.Act? then [last.action] else [])
  }

  function Acts(actions: seq<Action>): (evs: seq<Event>)
    ensures |evs| == |actions| && forall i :: 0 <= i < |evs| ==> evs[i] == Act(actions[i])
  {
    if actions == [] then [] else Acts(actions[..|actions| - 1]) + [Act(actions[|actions| - 1])]
  }

  /** `np.atleast_1d(v)`, iterated: a scalar becomes a one-element sequence. */
  function AtLeast1d(v: Value): (r: seq<Value>)
    ensures v.Vec? ==> r == v.items
    ensures !v.Vec? ==> r == [v]
  {
    if v.Vec? then v.items else [v]
  }

  /** `{p[0]: x for p, x in zip(names, xs)}`: `zip` stops at the shorter of the two. */
  function ZipRecord(names: seq<string>, xs: seq<Value>): (r: Record)
  {
    FromPairs(ZipPairs(names, xs))
  }

  function ZipPairs(names: seq<string>, xs: seq<Value>): (ps: seq<(string, Value)>)
    ensures |ps| == if |names| < |xs| then |names| else |xs|
    ensures forall i :: 0 <= i < |ps| ==> ps[i] == (names[i], xs[i])
  {
    var n := if |names| < |xs| then |names| else |xs|;
    seq(n, i requires 0 <= i < n => (names[i], xs[i]))
  }

  /** The reshaping in `BaseSweepObject.__next__`: when the record and the symbol list are both
      non-empty, `{k: rec[k] if k in rec else None for k in symbols}`; otherwise the record
      itself. */
  function Reshape(rec: Record, symbols: seq<string>): (r: Record)
  {
    if |rec.keys| > 0 && |symbols| > 0 then FromPairs(ReshapePairs(rec, symbols)) else rec
  }

  function ReshapePairs(rec: Record, symbols: seq<string>): (ps: seq<(string, Value)>)
    ensures |ps| == |symbols|
    ensures forall i :: 0 <= i < |ps| ==> ps[i] == (symbols[i], Get(rec, symbols[i], Null))
  {
    seq(|symbols|, i requires 0 <= i < |symbols| => (symbols[i], Get(rec, symbols[i], Null)))
  }

  /** Every yielded record of a pass reshaped onto `symbols`, the effects untouched. */
  function ReshapeAll(evs: seq<Event>, symbols: seq<string>): (r: seq<Event>)
    ensures |r| == |evs|
    decreases |evs|
  {
    if evs == [] then []
    else
      var last := evs[|evs| - 1];
      ReshapeAll(evs[..|evs| - 1], symbols)
        + [if last.Yield? then Yield(Reshape(last.rec, symbols)) else last]
  }

  /** A generator that, at each of its steps, performs one effect and then yields one record. */
  function Steps(st: seq<(Action, Record)>): seq<Event>
    decreases |st|
  {
    if st == [] then [] else Steps(st[..|st| - 1]) + [Act(st[|st| - 1].0), Yield(st[|st| - 1].1)]
  }

  /** Every record of a list reshaped onto `symbols`. */
  function ReshapeEach(rs: seq<Record>, symbols: seq<string>): (r: seq<Record>)
    ensures |r| == |rs| && forall i :: 0 <= i < |rs| ==> r[i] == Reshape(rs[i], symbols)
  {
    seq(|rs|, i requires 0 <= i < |rs| => Reshape(rs[i], symbols))
  }

  /** `Zip._combine_dictionaries`: `{}` updated with each record in turn. */
  function CombineAll(ds: seq<Record>): Record
    decreases |ds|
  {
    if ds == [] then Empty() else Update(CombineAll(ds[..|ds| - 1]), ds[|ds| - 1])
  }

  /** `ds[i]` is the last record of `ds` that holds key `k`. */
  ghost predicate LastHolder(ds: seq<Record>, i: int, k: string)
  {
    0 <= i < |ds| && k in ds[i].m && forall j :: i < j < |ds| ==> k !in ds[j].m
  }

  // ---------------------------------------------------------------------------------------
  // Lemmas

  lemma {:induction false} RecordsAppend(a: seq<Event>, b: seq<Event>)
    ensures Records(a + b) == Records(a) + Records(b)
    decreases |b|
  {
    if b == [] {
      assert a + b == a;
    } else {
      RecordsAppend(a, b[..|b| - 1]);
      assert (a + b)[..|a + b| - 1] == a + b[..|b| - 1];
    }
  }

  lemma {:induction false} TraceAppend(a: seq<Event>, b: seq<Event>)
    ensures Trace(a + b) == Trace(a) + Trace(b)
    decreases |b|
  {
    if b == [] {
      assert a + b == a;
    } else {
      TraceAppend(a, b[..|b| - 1]);
      assert (a + b)[..|a + b| - 1] == a + b[..|b| - 1];
    }
  }

  lemma {:induction false} ActsFacts(actions: seq<Action>)
    ensures Records(Acts(actions)) == []
    ensures Trace(Acts(actions)) == actions
    decreases |actions|
  {
    if actions != [] {
      var init := actions[..|actions| - 1];
      ActsFacts(init);
      assert Acts(actions)[..|actions| - 1] == Acts(init);
    }
  }

  lemma SingleEvent(e: Event)
    ensures Records([e]) == if e.Yield? then [e.rec] else []
    ensures Trace([e]) == if e.Act? then [e.action] else []
  {
    assert [e][..0] == [];
  }

  /** A record built from zipped names and values holds the first `min(|names|, |xs|)` names,
      in first-occurrence order, each with the value paired with its last occurrence. */
  lemma ZipRecordFacts(names: seq<string>, xs: seq<Value>)
    ensures var n := if |names| < |xs| then |names| else |xs|;
            ZipRecord(names, xs).keys == Dedup(names[..n])
    ensures forall i ::
              (0 <= i < |names| && i < |xs| &&
               forall j :: i < j < |names| && j < |xs| ==> names[j] != names[i]) ==>
              names[i] in ZipRecord(names, xs).m && ZipRecord(names, xs).m[names[i]] == xs[i]
  {
    var ps := ZipPairs(names, xs);
    FromPairsFacts(ps);
    PairsMapLastWins(ps);
    assert Names(ps) == names[..|ps|];
    forall i | 0 <= i < |names| && i < |xs| &&
              (forall j :: i < j < |names| && j < |xs| ==> names[j] != names[i])
      ensures names[i] in ZipRecord(names, xs).m && ZipRecord(names, xs).m[names[i]] == xs[i]
    {
      assert Names(ps)[i] == names[i];
      assert forall j :: i < j < |ps| ==> ps[j].0 != ps[i].0;
    }
  }

  /** `__next__`'s reshaping. With a non-empty record and symbol list, the result holds exactly
      the symbols, once each in symbol-list order, with the record's value where it has one and
      `None` elsewhere; keys of the record outside the symbol list are dropped. Otherwise the
      record passes through unchanged. */
  lemma ReshapeFacts(rec: Record, symbols: seq<string>)
    ensures |rec.keys| > 0 && |symbols| > 0 ==>
              Reshape(rec, symbols).keys == Dedup(symbols) &&
              (forall k :: k in Reshape(rec, symbols).m <==> k in symbols) &&
              (forall k :: k in symbols ==> Reshape(rec, symbols).m[k] == Get(rec, k, Null))
    ensures |rec.keys| == 0 || |symbols| == 0 ==> Reshape(rec, symbols) == rec
  {
    if |rec.keys| > 0 && |symbols| > 0 {
      var ps := ReshapePairs(rec, symbols);
      FromPairsFacts(ps);
      PairsMapLastWins(ps);
      assert Names(ps) == symbols;
      forall k | k in symbols ensures Reshape(rec, symbols).m[k] == Get(rec, k, Null) {
        var i :| 0 <= i < |symbols| && symbols[i] == k;
        assert k in Names(ps);
        var mp := PairsMap(ps);
        assert mp[ps[i].0] == ps[i].1 by {
          PairsMapAllEqual(ps, k, Get(rec, k, Null));
        }
      }
    }
  }

  /** When every pair naming `k` carries the same value, that is the value bound to `k`. */
  lemma {:induction false} PairsMapAllEqual<V>(ps: seq<(string, V)>, k: string, v: V)
    requires k in Names(ps)
    requires forall i :: 0 <= i < |ps| && ps[i].0 == k ==> ps[i].1 == v
    ensures k in PairsMap(ps) && PairsMap(ps)[k] == v
    decreases |ps|
  {
    var init := ps[..|ps| - 1];
    if ps[|ps| - 1].0 != k {
      assert Names(ps) == Names(init) + [ps[|ps| - 1].0];
      PairsMapAllEqual(init, k, v);
    }
  }

  /** Reshaping is idempotent: the symbols of a record already reshaped are the symbols. */
  lemma ReshapeTwice(rec: Record, symbols: seq<string>)
    ensures Reshape(Reshape(rec, symbols), symbols) == Reshape(rec, symbols)
  {
    ReshapeFacts(rec, symbols);
    var r := Reshape(rec, symbols);
    if |rec.keys| > 0 && |symbols| > 0 {
      ReshapeFacts(r, symbols);
      assert |r.keys| > 0 by {
        assert symbols[0] in r.m;
      }
      var r2 := Reshape(r, symbols);
      assert r2.m == r.m by {
        forall k | k in symbols ensures r2.m[k] == r.m[k] {
          assert Get(r, k, Null) == r.m[k];
        }
      }
    }
  }

  /** Reshaping a pass leaves its effects alone and reshapes each of its records. */
  lemma {:induction false} ReshapeAllFacts(evs: seq<Event>, symbols: seq<string>)
    ensures Trace(ReshapeAll(evs, symbols)) == Trace(evs)
    ensures |Records(ReshapeAll(evs, symbols))| == |Records(evs)|
    ensures forall i :: 0 <= i < |Records(evs)| ==>
              Records(ReshapeAll(evs, symbols))[i] == Reshape(Records(evs)[i], symbols)
    decreases |evs|
  {
    if evs != [] {
      var init := evs[..|evs| - 1];
      ReshapeAllFacts(init, symbols);
      assert ReshapeAll(evs, symbols)[..|evs| - 1] == ReshapeAll(init, symbols);
    }
  }

  lemma ReshapeAllRecords(evs: seq<Event>, symbols: seq<string>)
    ensures Records(ReshapeAll(evs, symbols)) == ReshapeEach(Records(evs), symbols)
  {
    ReshapeAllFacts(evs, symbols);
  }

  /** A step that performs one effect and then yields one record. */
  lemma EffectThenYield(evs: seq<Event>, a: Action, r: Record)
    ensures Records(evs + [Act(a), Yield(r)]) == Records(evs) + [r]
    ensures Trace(evs + [Act(a), Yield(r)]) == Trace(evs) + [a]
  {
    var two := [Act(a), Yield(r)];
    RecordsAppend(evs, two);
    TraceAppend(evs, two);
    assert two[..1] == [Act(a)];
    SingleEvent(Act(a));
  }

  lemma ReshapeEffectThenYield(a: Action, r: Record, symbols: seq<string>)
    ensures ReshapeAll([Act(a), Yield(r)], symbols) == [Act(a), Yield(Reshape(r, symbols))]
  {
    var two := [Act(a), Yield(r)];
    assert two[..1] == [Act(a)];
    assert two[..1][..0] == [];
  }

  /** Step `i` performs its effect at position `2 * i` and yields its record right after. */
  lemma {:induction false} StepsAt(st: seq<(Action, Record)>, i: nat)
    requires i < |st|
    ensures |Steps(st)| == 2 * |st|
    ensures Steps(st)[2 * i] == Act(st[i].0) && Steps(st)[2 * i + 1] == Yield(st[i].1)
    decreases |st|
  {
    var init := st[..|st| - 1];
    StepsLength(init);
    if i < |init| {
      StepsAt(init, i);
    }
  }

  lemma {:induction false} StepsLength(st: seq<(Action, Record)>)
    ensures |Steps(st)| == 2 * |st|
    decreases |st|
  {
    if st != [] {
      StepsLength(st[..|st| - 1]);
    }
  }

  /** The records and the effects of the steps, in order. */
  lemma {:induction false} StepsFacts(st: seq<(Action, Record)>)
    ensures |Records(Steps(st))| == |st| && forall i :: 0 <= i < |st| ==> Records(Steps(st))[i] == st[i].1
    ensures |Trace(Steps(st))| == |st| && forall i :: 0 <= i < |st| ==> Trace(Steps(st))[i] == st[i].0
    decreases |st|
  {
    if st != [] {
      var init, last := st[..|st| - 1], st[|st| - 1];
      StepsFacts(init);
      EffectThenYield(Steps(init), last.0, last.1);
      assert forall i :: 0 <= i < |init| ==> init[i] == st[i];
    }
  }

  /** Reshaping steps whose records are already reshaped changes nothing. */
  lemma {:induction false} ReshapeStepsFixed(st: seq<(Action, Record)>, symbols: seq<string>)
    requires forall i :: 0 <= i < |st| ==> Reshape(st[i].1, symbols) == st[i].1
    ensures ReshapeAll(Steps(st), symbols) == Steps(st)
    decreases |st|
  {
    if st != [] {
      var init, last := st[..|st| - 1], st[|st| - 1];
      ReshapeStepsFixed(init, symbols);
      ReshapeAllAppend(Steps(init), [Act(last.0), Yield(last.1)], symbols);
      ReshapeEffectThenYield(last.0, last.1, symbols);
    }
  }

  lemma {:induction false} ReshapeAllAppend(a: seq<Event>, b: seq<Event>, symbols: seq<string>)
    ensures ReshapeAll(a + b, symbols) == ReshapeAll(a, symbols) + ReshapeAll(b, symbols)
    decreases |b|
  {
    if b == [] {
      assert a + b == a;
    } else {
      ReshapeAllAppend(a, b[..|b| - 1], symbols);
      assert (a + b)[..|a + b| - 1] == a + b[..|b| - 1];
    }
  }

  /** Reshaping leaves effects alone. */
  lemma {:induction false} ReshapeActs(actions: seq<Action>, symbols: seq<string>)
    ensures ReshapeAll(Acts(actions), symbols) == Acts(actions)
    decreases |actions|
  {
    if actions != [] {
      var init := actions[..|actions| - 1];
      ReshapeActs(init, symbols);
      assert Acts(actions)[..|actions| - 1] == Acts(init);
    }
  }

  /** A consumer that has seen the events `done` and now receives the effects `actions` and
      the record `rec` has seen one more record, reshaped. */
  lemma ConsumeRecord(done: seq<Event>, actions: seq<Action>, rec: Record, symbols: seq<string>)
    ensures Records(ReshapeAll(done + Acts(actions) + [Yield(rec)], symbols))
            == Records(ReshapeAll(done, symbols)) + [Reshape(rec, symbols)]
  {
    var before := ReshapeAll(done, symbols);
    var y := Yield(Reshape(rec, symbols));
    assert ReshapeAll(done + Acts(actions) + [Yield(rec)], symbols) == before + Acts(actions) + [y] by {
      ReshapeAllAppend(done + Acts(actions), [Yield(rec)], symbols);
      ReshapeAllAppend(done, Acts(actions), symbols);
      ReshapeActs(actions, symbols);
      assert ReshapeAll([Yield(rec)], symbols) == [y] by {
        assert [Yield(rec)][..0] == [];
      }
    }
    assert Records(before + Acts(actions)) == Records(before) by {
      ActsFacts(actions);
      RecordsAppend(before, Acts(actions));
    }
    assert Records(before + Acts(actions) + [y]) == Records(before + Acts(actions)) + [y.rec] by {
      RecordsAppend(before + Acts(actions), [y]);
      SingleEvent(y);
    }
  }

  /** Those effects and that record add the effects to the trace. */
  lemma ConsumeRecordTrace(done: seq<Event>, actions: seq<Action>, rec: Record)
    ensures Trace(done + Acts(actions) + [Yield(rec)]) == Trace(done) + actions
  {
    assert Trace(done + Acts(actions)) == Trace(done) + actions by {
      ActsFacts(actions);
      TraceAppend(done, Acts(actions));
    }
    TraceAppend(done + Acts(actions), [Yield(rec)]);
    SingleEvent(Yield(rec));
  }

  /** The effects that end a pass add no record. */
  lemma ConsumeEnd(done: seq<Event>, actions: seq<Action>, symbols: seq<string>)
    ensures Records(ReshapeAll(done + Acts(actions), symbols)) == Records(ReshapeAll(done, symbols))
  {
    ReshapeAllAppend(done, Acts(actions), symbols);
    ReshapeActs(actions, symbols);
    ActsFacts(actions);
    RecordsAppend(ReshapeAll(done, symbols), Acts(actions));
  }

  /** The effects that end a pass are added to the trace. */
  lemma ConsumeEndTrace(done: seq<Event>, actions: seq<Action>)
    ensures Trace(done + Acts(actions)) == Trace(done) + actions
  {
    ActsFacts(actions);
    TraceAppend(done, Acts(actions));
  }

  /** `_combine_dictionaries`: a key is in the combination exactly when some record holds it,
      and it takes the value of the LAST record that holds it (later records win). */
  lemma {:induction false} CombineAllFacts(ds: seq<Record>)
    ensures forall k :: k in CombineAll(ds).m <==> exists i :: 0 <= i < |ds| && k in ds[i].m
    ensures forall i, k :: LastHolder(ds, i, k) ==> CombineAll(ds).m[k] == ds[i].m[k]
    decreases |ds|
  {
    if ds != [] {
      var init, last := ds[..|ds| - 1], ds[|ds| - 1];
      CombineAllFacts(init);
      UpdateFacts(CombineAll(init), last);
      forall k ensures k in CombineAll(ds).m <==> exists i :: 0 <= i < |ds| && k in ds[i].m {
        if exists i :: 0 <= i < |ds| && k in ds[i].m {
          var i :| 0 <= i < |ds| && k in ds[i].m;
          if i < |ds| - 1 {
            assert init[i] == ds[i];
          }
        }
        if k in CombineAll(init).m {
          var i :| 0 <= i < |init| && k in init[i].m;
          assert ds[i] == init[i];
        }
      }
      forall i, k | LastHolder(ds, i, k) ensures CombineAll(ds).m[k] == ds[i].m[k] {
        if i < |ds| - 1 {
          assert init[i] == ds[i];
          assert LastHolder(init, i, k);
        }
      }
    }
  }
}
