/** `BaseSweepObject` (qcodes/sweep/sweep.py:97-141) as an object with the state it keeps
    between calls: `_param_setter`, the live generator of the current pass, and
    `_symbols_list`, the key list onto which `__next__` reshapes every record. */
module Objects {
  import opened Results
  import opened Passes
  import opened Combinators
  import opened Sweeps
  import opened Generators

  /** What one call of `__next__` does: return a record, raise StopIteration, or raise an
      error. */
  datatype Step = Item(rec: Record) | Stop | Raised(error: Error)

  /** Where a generator stands in its pass: the events it has produced and the events it has
      still to produce make up the pass, and the effects performed since the pass began are
      those of the events produced. */
  ghost predicate Produced(pass: seq<Event>, consumed: seq<Event>, rest: seq<Event>,
                           performed: seq<Action>, start: nat)
  {
    pass == consumed + rest && start <= |performed| && performed[start..] == Trace(consumed)
  }

  /** Once there is a symbol list, the records returned are the records produced, reshaped
      onto it. */
  ghost predicate Returned(consumed: seq<Event>, returned: seq<Record>, symbols: Option<seq<string>>)
  {
    symbols.Some? ==> returned == Records(ReshapeAll(consumed, symbols.value))
  }

  /** A fresh generator has produced nothing. */
  lemma StartFacts(pass: seq<Event>, performed: seq<Action>, symbols: Option<seq<string>>)
    ensures Produced(pass, [], pass, performed, |performed|)
    ensures Returned([], [], symbols)
  {
    assert [] + pass == pass;
    assert performed[|performed|..] == [];
  }

  /** Running the last effects of a pass ends it. */
  lemma ProducedEnd(pass: seq<Event>, consumed: seq<Event>, actions: seq<Action>,
                    performed: seq<Action>, start: nat)
    requires Produced(pass, consumed, Acts(actions), performed, start)
    ensures Produced(pass, consumed + Acts(actions), [], performed + actions, start)
    ensures consumed + Acts(actions) == pass
  {
    ConsumeEndTrace(consumed, actions);
    assert (performed + actions)[start..] == performed[start..] + actions;
    assert consumed + Acts(actions) + [] == consumed + Acts(actions);
  }

  /** Running the effects up to the next record and yielding it moves past them. */
  lemma ProducedRecord(pass: seq<Event>, consumed: seq<Event>, actions: seq<Action>, rec: Record,
                       tail: seq<Event>, performed: seq<Action>, start: nat)
    requires Produced(pass, consumed, Acts(actions) + [Yield(rec)] + tail, performed, start)
    ensures Produced(pass, consumed + Acts(actions) + [Yield(rec)], tail, performed + actions, start)
  {
    var done := consumed + Acts(actions) + [Yield(rec)];
    assert pass == done + tail by {
      assert consumed + (Acts(actions) + [Yield(rec)] + tail) == done + tail;
    }
    assert (performed + actions)[start..] == Trace(done) by {
      ConsumeRecordTrace(consumed, actions, rec);
      assert (performed + actions)[start..] == performed[start..] + actions;
    }
  }

  /** The last effects of a pass return no record. */
  lemma ReturnedEnd(consumed: seq<Event>, actions: seq<Action>, returned: seq<Record>,
                    symbols: Option<seq<string>>)
    requires Returned(consumed, returned, symbols)
    ensures Returned(consumed + Acts(actions), returned, symbols)
  {
    if symbols.Some? {
      ConsumeEnd(consumed, actions, symbols.value);
    }
  }

  /** A record yielded is returned, reshaped onto the symbol list. */
  lemma ReturnedRecord(consumed: seq<Event>, actions: seq<Action>, rec: Record,
                       returned: seq<Record>, symbols: Option<seq<string>>, returned': seq<Record>)
    requires Returned(consumed, returned, symbols)
    requires symbols.Some? ==> returned' == returned + [Reshape(rec, symbols.value)]
    ensures Returned(consumed + Acts(actions) + [Yield(rec)], returned', symbols)
  {
    if symbols.Some? {
      ConsumeRecord(consumed, actions, rec, symbols.value);
    }
  }

  class SweepObject {
    /** The object as constructed: its kind, its arguments and its children. */
    const node: Sweep
    /** The instruments it drives. */
    const oracle: Oracle
    /** `_parameter_table`, as the constructor sets it. */
    const parameterTable: TableAttr
    /** The events of one pass of a fresh `_setter_factory()` generator. */
    ghost const pass: seq<Event>

    /** `_param_setter`: the events that the live generator has still to produce, or `None`
        before the first `_start_iter`. */
    var paramSetter: Option<seq<Event>>
    /** `_symbols_list`, `None` until a `_start_iter` gets past `symbols_list()`. */
    var symbolsList: Option<seq<string>>
    /** The effects performed on the instruments through this object, in order. */
    var performed: seq<Action>
    /** The events of the current pass that the generator has produced so far. */
    ghost var consumed: seq<Event>
    /** The records of the current pass that `__next__` has returned so far. */
    ghost var returned: seq<Record>
    /** The length of `performed` when the current pass began. */
    ghost var passStart: nat

    /** The constant fields are those of `node`: its table attribute and its pass. */
    ghost predicate Models()
    {
      Finite(node) && Attr(node) == Ok(parameterTable) && pass == Generate(node, oracle)
    }

    /** The error `_start_iter` raises on this object. */
    function StartErr(): Option<Error>
    {
      if node.Nest? && node.children == [] then Some(IndexError)
      else if parameterTable == Number then Some(AttributeError)
      else None
    }

    /** A symbol list is only ever the table's; and a live generator sits inside its pass,
        with a symbol list unless the start raised after assigning the generator. */
    ghost predicate Valid()
      reads this
    {
      (symbolsList.Some? ==> StartErr().None? && symbolsList.value == TableSymbols(parameterTable)) &&
      (paramSetter.Some? ==>
         Produced(pass, consumed, paramSetter.value, performed, passStart) &&
         Returned(consumed, returned, symbolsList) &&
         (StartErr().None? ==> symbolsList.Some?))
    }

    /** `BaseSweepObject.__init__` and the constructor of `node`'s class: nothing is started. */
    constructor(node: Sweep, oracle: Oracle)
      requires Finite(node) && Built(node)
      ensures Valid() && Models()
      ensures this.node == node && this.oracle == oracle
      ensures paramSetter.None? && symbolsList.None? && performed == []
    {
      this.node := node;
      this.oracle := oracle;
      parameterTable := Attr(node).value;
      pass := Generate(node, oracle);
      paramSetter := None;
      symbolsList := None;
      performed := [];
      consumed := [];
      returned := [];
      passStart := 0;
    }

    /** The error and the symbols are those of the model. */
    lemma ModelFacts()
      requires Models()
      ensures StartErr() == StartError(node)
      ensures TableSymbols(parameterTable) == Syms(node)
      ensures ReshapeAll(pass, TableSymbols(parameterTable)) == Output(node, oracle)
    {
    }

    /** `_setter_factory()`: a fresh generator, at the start of its pass. */
    method Factory() returns (g: seq<Event>)
      requires Models()
      ensures g == pass
    {
      g := Pass(node, oracle);
    }

    /** `_start_iter`: a fresh generator for a new pass, then the symbol list. An empty `Nest`
        raises IndexError in `_setter_factory`, before anything is assigned; a number for a
        table raises AttributeError in `symbols_list()`, after the generator is assigned. */
    method StartIter() returns (err: Option<Error>)
      requires Valid() && Models()
      modifies this
      ensures Valid()
      ensures err == StartErr()
      ensures performed == old(performed)
      ensures err == Some(IndexError) ==>
                paramSetter == old(paramSetter) && symbolsList == old(symbolsList) &&
                consumed == old(consumed) && returned == old(returned) && passStart == old(passStart)
      ensures err != Some(IndexError) ==>
                paramSetter == Some(pass) && consumed == [] && returned == [] &&
                passStart == |performed|
      ensures err == Some(AttributeError) ==> symbolsList == old(symbolsList)
      ensures err.None? ==> symbolsList == Some(TableSymbols(parameterTable))
    {
      if node.Nest? && node.children == [] {
        return Some(IndexError);
      }
      var g := Factory();
      paramSetter := Some(g);
      consumed := [];
      returned := [];
      passStart := |performed|;
      err := None;
      match parameterTable
      case NoTable =>
        symbolsList := Some([]);
      case Has(t) =>
        symbolsList := Some(Tables.SymbolsList(t));
      case Number =>
        err := Some(AttributeError);
      StartFacts(pass, performed, symbolsList);
    }

    /** The part of `__next__` after the start: `next(self._param_setter)`, then the record
        reshaped onto `_symbols_list`. */
    method Advance() returns (step: Step)
      requires Valid() && paramSetter.Some?
      modifies this
      ensures Valid() && paramSetter.Some?
      ensures passStart == old(passStart) && symbolsList == old(symbolsList)
      ensures |old(performed)| <= |performed| && performed[..|old(performed)|] == old(performed)
      ensures step.Stop? ==> paramSetter == Some([]) && consumed == pass
      ensures !step.Stop? ==> |paramSetter.value| < |old(paramSetter).value|
      ensures old(paramSetter) == Some([]) ==> step.Stop? && performed == old(performed) && returned == old(returned)
      ensures StartErr().None? ==>
                !step.Raised? &&
                (step.Item? ==> returned == old(returned) + [step.rec]) &&
                (step.Stop? ==> returned == old(returned))
    {
      var rest := paramSetter.value;
      var p := Pull(rest);
      PullShape(rest);
      if p.next.None? {
        Exhaust(p.actions);
        step := Stop;
      } else {
        var rec, tail := p.next.value.0, p.next.value.1;
        if |rec.keys| > 0 && symbolsList.None? {
          Refuse(p.actions, rec, tail);
          step := Raised(TypeError);
        } else {
          var out := Deliver(p.actions, rec, tail);
          step := Item(out);
        }
      }
    }

    /** `next` on a generator that has only effects left: it runs them and raises
        StopIteration. */
    method Exhaust(actions: seq<Action>)
      requires Valid() && paramSetter == Some(Acts(actions))
      modifies this
      ensures Valid() && paramSetter == Some([]) && consumed == pass
      ensures passStart == old(passStart) && symbolsList == old(symbolsList)
      ensures returned == old(returned) && performed == old(performed) + actions
    {
      ProducedEnd(pass, consumed, actions, performed, passStart);
      ReturnedEnd(consumed, actions, returned, symbolsList);
      performed := performed + actions;
      consumed := consumed + Acts(actions);
      paramSetter := Some([]);
    }

    /** `next` on a generator whose next record `rec` follows the effects `actions`, when the
        start did not get as far as the symbol list: it runs them and yields `rec`, and then
        `len(None)` raises TypeError. */
    method Refuse(actions: seq<Action>, rec: Record, tail: seq<Event>)
      requires Valid() && paramSetter == Some(Acts(actions) + [Yield(rec)] + tail)
      requires symbolsList.None?
      modifies this
      ensures Valid() && paramSetter == Some(tail)
      ensures passStart == old(passStart) && symbolsList == old(symbolsList)
      ensures returned == old(returned) && performed == old(performed) + actions
    {
      ProducedRecord(pass, consumed, actions, rec, tail, performed, passStart);
      ReturnedRecord(consumed, actions, rec, returned, symbolsList, returned);
      performed := performed + actions;
      consumed := consumed + Acts(actions) + [Yield(rec)];
      paramSetter := Some(tail);
    }

    /** `next` on a generator whose next record `rec` follows the effects `actions`: it runs
        them and yields `rec`, which `__next__` reshapes onto `_symbols_list` when both are
        non-empty and returns. */
    method Deliver(actions: seq<Action>, rec: Record, tail: seq<Event>) returns (out: Record)
      requires Valid() && paramSetter == Some(Acts(actions) + [Yield(rec)] + tail)
      requires |rec.keys| > 0 ==> symbolsList.Some?
      modifies this
      ensures Valid() && paramSetter == Some(tail)
      ensures passStart == old(passStart) && symbolsList == old(symbolsList)
      ensures performed == old(performed) + actions
      ensures out == Reshape(rec, if symbolsList.Some? then symbolsList.value else [])
      ensures returned == old(returned) + [out]
    {
      var symbols := if symbolsList.Some? then symbolsList.value else [];
      out := Reshape(rec, symbols);
      ProducedRecord(pass, consumed, actions, rec, tail, performed, passStart);
      ReturnedRecord(consumed, actions, rec, returned, symbolsList, returned + [out]);
      performed := performed + actions;
      consumed := consumed + Acts(actions) + [Yield(rec)];
      paramSetter := Some(tail);
      returned := returned + [out];
    }

    /** `__next__`: start a pass if none is live, then advance it. A pass whose start succeeds
        returns the records of the pass, reshaped, in order, and then stops. */
    method Next() returns (step: Step)
      requires Valid() && Models()
      modifies this
      ensures Valid()
      ensures old(paramSetter).None? && StartErr().Some? ==> step == Raised(StartErr().value)
      ensures StartErr().None? ==>
                !step.Raised? && paramSetter.Some? &&
                var before := if old(paramSetter).Some? then old(returned) else [];
                (step.Item? ==> returned == before + [step.rec]) &&
                (step.Stop? ==>
                   returned == before && paramSetter == Some([]) &&
                   returned == Records(ReshapeAll(pass, TableSymbols(parameterTable))))
      ensures old(paramSetter).Some? && step.Item? ==>
                paramSetter.Some? && |paramSetter.value| < |old(paramSetter).value|
      ensures old(paramSetter).Some? ==> passStart == old(passStart)
      ensures |old(performed)| <= |performed| && performed[..|old(performed)|] == old(performed)
    {
      if paramSetter.None? {
        var err := StartIter();
        if err.Some? {
          return Raised(err.value);
        }
      }
      step := Advance();
    }

    /** `__next__` until StopIteration, on a live generator: the rest of the pass, its
        records reshaped onto the symbol list. */
    method Drain() returns (recs: seq<Record>)
      requires Valid() && paramSetter.Some? && StartErr().None?
      modifies this
      ensures Valid() && paramSetter == Some([]) && consumed == pass
      ensures passStart == old(passStart) && symbolsList == old(symbolsList)
      ensures old(returned) + recs == returned
      ensures |old(performed)| <= |performed| && performed[..|old(performed)|] == old(performed)
    {
      recs := [];
      while true
        invariant Valid() && paramSetter.Some?
        invariant passStart == old(passStart) && symbolsList == old(symbolsList)
        invariant old(returned) + recs == returned
        invariant |old(performed)| <= |performed| && performed[..|old(performed)|] == old(performed)
        decreases |paramSetter.value|
      {
        var step := Advance();
        if step.Stop? {
          break;
        }
        recs := recs + [step.rec];
      }
    }

    /** `for record in obj`: `__iter__` starts a new pass, then `__next__` (on the live
        generator, `Advance`) runs until StopIteration. Every pass performs the effects of the
        pass and returns its records, reshaped onto the symbol list, whatever passes came
        before: the object is restartable. */
    method Iterate() returns (recs: seq<Record>, err: Option<Error>)
      requires Valid() && Models()
      modifies this
      ensures Valid()
      ensures err == StartErr()
      ensures err.None? ==>
                recs == Records(ReshapeAll(pass, TableSymbols(parameterTable))) &&
                performed == old(performed) + Trace(pass)
      ensures err.Some? ==> recs == [] && performed == old(performed)
    {
      recs := [];
      err := StartIter();
      if err.None? {
        recs := Drain();
        assert performed == performed[..passStart] + performed[passStart..];
      }
    }
  }

  /** A pass over a sweep object returns the records of `Output(node, oracle)` and performs
      its effects, or raises the error `_start_iter` raises. */
  method RunPass(obj: SweepObject) returns (recs: seq<Record>, err: Option<Error>)
    requires obj.Valid() && obj.Models()
    modifies obj
    ensures obj.Valid()
    ensures err == StartError(obj.node)
    ensures err.None? ==>
              recs == Records(Output(obj.node, obj.oracle)) &&
              obj.performed == old(obj.performed) + Trace(Output(obj.node, obj.oracle))
    ensures err.Some? ==> recs == [] && obj.performed == old(obj.performed)
  {
    obj.ModelFacts();
    recs, err := obj.Iterate();
    ReshapeAllFacts(obj.pass, TableSymbols(obj.parameterTable));
  }

  /** Two passes over the same object return the same records and perform the same effects,
      each of them those of `Output(node, oracle)`. */
  method TwoPasses(obj: SweepObject) returns (first: seq<Record>, second: seq<Record>)
    requires obj.Valid() && obj.Models() && StartError(obj.node).None?
    modifies obj
    ensures obj.Valid()
    ensures first == second == Records(Output(obj.node, obj.oracle))
    ensures obj.performed == old(obj.performed) + Trace(Output(obj.node, obj.oracle)) + Trace(Output(obj.node, obj.oracle))
  {
    var e1, e2;
    first, e1 := RunPass(obj);
    second, e2 := RunPass(obj);
  }
}
