/** A `Nest` of one sweep object (qcodes/sweep/sweep.py:218-223). `_setter_factory` starts
    `prod` at `self._sweep_objects[0]` and, with no further objects, returns that object itself
    rather than a fresh iterator over it. `_start_iter` then makes the child object the nest's
    generator, and every `__next__` of the nest is `next(child)`: the child starts a pass only
    when it has never been started, and once spent it raises StopIteration at once, on every
    later pass of the nest too. The rest of the model gives the nest the intended behaviour,
    `Generate(Nest([c]), o) == Output(c, o)`: each pass of the nest is a new pass of the
    child. */
module Findings {
  import opened Results
  import opened Passes
  import opened Combinators
  import opened Sweeps
  import opened Objects

  /** A nest of one child whose pass ends. */
  lemma NestOfOneFinite(c: Sweep)
    requires Finite(c)
    ensures Finite(Nest([c]))
  {
    assert [c][0] == c;
  }

  /** The intended pass of `Nest([c])`: the child's records, reshaped onto the nest's
      symbols, with the child's effects. */
  lemma NestOfOneOutput(c: Sweep, o: Oracle)
    requires Finite(c)
    ensures Finite(Nest([c]))
    ensures Records(Output(Nest([c]), o)) == ReshapeEach(Records(Output(c, o)), Syms(Nest([c])))
    ensures Trace(Output(Nest([c]), o)) == Trace(Output(c, o))
  {
    NestOfOneFinite(c);
    var s := Nest([c]);
    assert Outs(s, o) == [Output(c, o)] by {
      assert Outs(s, o)[0] == Output(s.children[0], o);
    }
    GenerateNest(s, o);
    ReshapeAllRecords(Generate(s, o), Syms(s));
    ReshapeAllFacts(Generate(s, o), Syms(s));
  }

  /** One pass of `Nest([child])` as written, whose symbol list is `symbols`: `next(child)`
      until StopIteration, each record reshaped onto `symbols`. The first `next(child)` starts
      the child if it was never started. A child never started gives its whole pass; a spent
      child gives nothing and performs nothing; either way the child is spent afterwards. */
  method NestOfOnePassAsWritten(child: SweepObject, symbols: seq<string>) returns (recs: seq<Record>)
    requires child.Valid() && child.Models() && child.StartErr().None?
    modifies child
    ensures child.Valid() && child.paramSetter == Some([])
    ensures old(child.paramSetter).None? ==>
              recs == ReshapeEach(Records(Output(child.node, child.oracle)), symbols)
    ensures old(child.paramSetter) == Some([]) ==> recs == [] && child.performed == old(child.performed)
  {
    ghost var unstarted := child.paramSetter.None?;
    ghost var spent := child.paramSetter == Some([]);
    if child.paramSetter.None? {
      var err := child.StartIter();
    }
    ghost var before := child.returned;
    ghost var performed0 := child.performed;
    var rs := [];
    while true
      invariant child.Valid() && child.paramSetter.Some?
      invariant unstarted ==> before == [] && child.symbolsList.Some?
      invariant child.returned == before + rs
      invariant spent ==> rs == [] && child.performed == performed0 && child.paramSetter == Some([])
      decreases |child.paramSetter.value|
    {
      var step := child.Advance();
      if step.Stop? {
        break;
      }
      rs := rs + [step.rec];
    }
    if unstarted {
      assert rs == Records(ReshapeAll(child.pass, TableSymbols(child.parameterTable)));
      child.ModelFacts();
    }
    recs := ReshapeEach(rs, symbols);
  }

  /** Two passes of `Nest([child])` as written over a child never started: the second pass
      yields nothing, although a pass of the nest yields the child's records and the child has
      some. */
  method NestOfOneTwoPassesAsWritten(child: SweepObject) returns (first: seq<Record>, second: seq<Record>)
    requires child.Valid() && child.Models() && child.StartErr().None? && child.paramSetter.None?
    modifies child
    ensures Finite(Nest([child.node]))
    ensures first == Records(Output(Nest([child.node]), child.oracle))
    ensures second == []
    ensures Records(Output(child.node, child.oracle)) != [] ==>
              second != Records(Output(Nest([child.node]), child.oracle))
  {
    NestOfOneOutput(child.node, child.oracle);
    var symbols := Syms(Nest([child.node]));
    first := NestOfOnePassAsWritten(child, symbols);
    second := NestOfOnePassAsWritten(child, symbols);
  }

  /** `Nest([a, Nest([child])])` as written, for `count` records of `a`: `_two_product` runs
      `for result1 in Nest([child])` once per record of `a`. Only the first of those loops
      yields, so the nest yields the child's records once, not `count` times. */
  method NestInNestAsWritten(count: nat, child: SweepObject) returns (inner: seq<Record>)
    requires child.Valid() && child.Models() && child.StartErr().None? && child.paramSetter.None?
    modifies child
    ensures count > 0 ==> inner == ReshapeEach(Records(Output(child.node, child.oracle)), Syms(Nest([child.node])))
  {
    var symbols := Syms(Nest([child.node]));
    ghost var once := ReshapeEach(Records(Output(child.node, child.oracle)), symbols);
    inner := [];
    for i := 0 to count
      invariant child.Valid() && child.StartErr().None?
      invariant i == 0 ==> child.paramSetter.None? && inner == []
      invariant i > 0 ==> child.paramSetter == Some([]) && inner == once
    {
      var recs := NestOfOnePassAsWritten(child, symbols);
      inner := inner + recs;
    }
  }

  /** One pass of `Nest([child])` with the child restarted, as `_setter_factory` returning
      `iter(self._sweep_objects[0])` would do: the nest's records and effects, whatever state
      the child was in. */
  method NestOfOnePass(child: SweepObject) returns (recs: seq<Record>)
    requires child.Valid() && child.Models() && child.StartErr().None?
    modifies child
    ensures child.Valid()
    ensures Finite(Nest([child.node]))
    ensures recs == Records(Output(Nest([child.node]), child.oracle))
    ensures child.performed == old(child.performed) + Trace(Output(Nest([child.node]), child.oracle))
  {
    NestOfOneOutput(child.node, child.oracle);
    var rs, err := RunPass(child);
    recs := ReshapeEach(rs, Syms(Nest([child.node])));
  }

  /** Two passes of `Nest([child])` with the child restarted yield the same records. */
  method NestOfOneTwoPasses(child: SweepObject) returns (first: seq<Record>, second: seq<Record>)
    requires child.Valid() && child.Models() && child.StartErr().None?
    modifies child
    ensures Finite(Nest([child.node]))
    ensures first == second == Records(Output(Nest([child.node]), child.oracle))
  {
    first := NestOfOnePass(child);
    second := NestOfOnePass(child);
  }
}
