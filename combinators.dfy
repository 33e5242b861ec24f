/** The passes that `Nest`, `Chain` and `Zip` build out of their children's passes
    (qcodes/sweep/sweep.py:196-259). A child's pass is the sequence of events its own
    `__next__` produces, records already reshaped onto the child's symbol list. */
module Combinators {
  import opened Results
  import opened Dicts
  import opened Passes
  import Tables

  // ---------------------------------------------------------------------------------------
  // Nest

  /** The inner loop of `_two_product` for one outer record `outer`: the inner sweep's pass,
      each of its records updated with `outer` (`result1.update(result2)`). */
  function Stamp(inner: seq<Event>, outer: Record): (r: seq<Event>)
    decreases |inner|
  {
    if inner == [] then []
    else
      var e := inner[|inner| - 1];
      Stamp(inner[..|inner| - 1], outer) + [if e.Yield? then Yield(Update(e.rec, outer)) else e]
  }

  /** `Nest._two_product(inner, outer)`: for every step of the outer pass, its effect, or at each
      outer record a complete inner pass stamped with it. */
  function TwoProduct(inner: seq<Event>, outer: seq<Event>): seq<Event>
    decreases |outer|
  {
    if outer == [] then []
    else
      var e := outer[|outer| - 1];
      TwoProduct(inner, outer[..|outer| - 1]) + (if e.Act? then [e] else Stamp(inner, e.rec))
  }

  /** `Nest._setter_factory` over the children's passes: `prod = first; prod = _two_product(so,
      prod)` for every later child, so the first child is the outermost loop. An empty nest
      raises before any pass begins, so it does not reach this function with meaning. */
  function NestFold(outs: seq<seq<Event>>): seq<Event>
    decreases |outs|
  {
    if |outs| == 0 then []
    else if |outs| == 1 then outs[0]
    else TwoProduct(outs[|outs| - 1], NestFold(outs[..|outs| - 1]))
  }

  /** Reference definition: the records of a two-level nest, outer record by outer record, each
      followed by every inner record merged with it; on a shared key the outer record wins. */
  function RecordProduct(outer: seq<Record>, inner: seq<Record>): seq<Record>
    decreases |outer|
  {
    if outer == [] then []
    else RecordProduct(outer[..|outer| - 1], inner) + StampRecords(inner, outer[|outer| - 1])
  }

  function StampRecords(inner: seq<Record>, outer: Record): (r: seq<Record>)
    ensures |r| == |inner| && forall j :: 0 <= j < |inner| ==> r[j] == Update(inner[j], outer)
  {
    seq(|inner|, j requires 0 <= j < |inner| => Update(inner[j], outer))
  }

  /** Reference definition: the records of an n-level nest in lexicographic order, the first
      child varying slowest. */
  function NestRecords(rss: seq<seq<Record>>): seq<Record>
    decreases |rss|
  {
    if |rss| == 0 then []
    else if |rss| == 1 then rss[0]
    else RecordProduct(NestRecords(rss[..|rss| - 1]), rss[|rss| - 1])
  }

  /** Reference definition of the effects of a two-level nest: the outer pass's effects, with
      a complete inner pass's effects at each outer record. */
  function Replay(outer: seq<Event>, innerTrace: seq<Action>): seq<Action>
    decreases |outer|
  {
    if outer == [] then []
    else
      var e := outer[|outer| - 1];
      Replay(outer[..|outer| - 1], innerTrace) + (if e.Act? then [e.action] else innerTrace)
  }

  function RecordsOf(outs: seq<seq<Event>>): (rss: seq<seq<Record>>)
    ensures |rss| == |outs| && forall i :: 0 <= i < |outs| ==> rss[i] == Records(outs[i])
  {
    seq(|outs|, i requires 0 <= i < |outs| => Records(outs[i]))
  }

  function TracesOf(outs: seq<seq<Event>>): (ts: seq<seq<Action>>)
    ensures |ts| == |outs| && forall i :: 0 <= i < |outs| ==> ts[i] == Trace(outs[i])
  {
    seq(|outs|, i requires 0 <= i < |outs| => Trace(outs[i]))
  }

  function Lengths<T>(xss: seq<seq<T>>): (ns: seq<nat>)
    ensures |ns| == |xss| && forall i :: 0 <= i < |xss| ==> ns[i] == |xss[i]|
  {
    seq(|xss|, i requires 0 <= i < |xss| => |xss[i]|)
  }

  function Prod(ns: seq<nat>): nat
    decreases |ns|
  {
    if ns == [] then 1 else Prod(ns[..|ns| - 1]) * ns[|ns| - 1]
  }

  function Sum(ns: seq<nat>): nat
    decreases |ns|
  {
    if ns == [] then 0 else Sum(ns[..|ns| - 1]) + ns[|ns| - 1]
  }

  // ---------------------------------------------------------------------------------------
  // Chain

  /** `Chain._setter_factory`: the children's passes one after the other. */
  function Concat<T>(xss: seq<seq<T>>): seq<T>
    decreases |xss|
  {
    if xss == [] then [] else Concat(xss[..|xss| - 1]) + xss[|xss| - 1]
  }

  // ---------------------------------------------------------------------------------------
  // Zip

  /** One argument of `zip(*sweep_objects)`. A `Bounded` lane is the pass of a finite child;
      an `Endless` lane is a wrapper with `repeat=True`, whose every `next` performs the same
      effects and yields the same record. */
  datatype Lane = Bounded(events: seq<Event>) | Endless(actions: seq<Action>, rec: Record)

  predicate HasBounded(lanes: seq<Lane>)
    decreases |lanes|
  {
    lanes != [] && (lanes[0].Bounded? || HasBounded(lanes[1..]))
  }

  /** A zip has a bounded lane exactly when one of its lanes is bounded. */
  lemma {:induction false} HasBoundedAt(lanes: seq<Lane>)
    ensures HasBounded(lanes) <==> exists j :: 0 <= j < |lanes| && lanes[j].Bounded?
    decreases |lanes|
  {
    if lanes != [] {
      HasBoundedAt(lanes[1..]);
      assert forall j :: 1 <= j < |lanes| ==> lanes[j] == lanes[1..][j - 1];
    }
  }

  /** The events of the bounded lanes still to run. */
  function Weight(lanes: seq<Lane>): nat
    decreases |lanes|
  {
    if lanes == [] then 0
    else (if lanes[0].Bounded? then |lanes[0].events| else 0) + Weight(lanes[1..])
  }

  /** The result of one `next` on a generator: the effects it performs, and either the record it
      yields with the rest of the generator, or nothing when it is exhausted. */
  datatype Pulled = Pulled(actions: seq<Action>, next: Option<(Record, seq<Event>)>)

  /** `next(it)` on a pass: run up to and including the first yield. */
  function Pull(evs: seq<Event>): (p: Pulled)
    ensures p.next.Some? ==> |p.next.value.1| < |evs|
    decreases |evs|
  {
    if evs == [] then Pulled([], None)
    else if evs[0].Yield? then Pulled([], Some((evs[0].rec, evs[1..])))
    else
      var p := Pull(evs[1..]);
      Pulled([evs[0].action] + p.actions, p.next)
  }

  /** One round of `zip`: `next` on each lane from left to right, stopping at the first lane
      that is exhausted (the lanes before it have then already run their `next`). */
  datatype Round = Round(actions: seq<Action>, recs: seq<Record>, rest: seq<Lane>, stopped: bool)

  function ZipRound(lanes: seq<Lane>): (r: Round)
    ensures !r.stopped ==> |r.recs| == |lanes| && |r.rest| == |lanes|
    decreases |lanes|
  {
    if lanes == [] then Round([], [], [], false)
    else match lanes[0]
      case Endless(acts, rec) =>
        var t := ZipRound(lanes[1..]);
        Round(acts + t.actions, [rec] + t.recs, [lanes[0]] + t.rest, t.stopped)
      case Bounded(evs) =>
        var p := Pull(evs);
        if p.next.None? then Round(p.actions, [], [], true)
        else
          var t := ZipRound(lanes[1..]);
          Round(p.actions + t.actions, [p.next.value.0] + t.recs,
                [Bounded(p.next.value.1)] + t.rest, t.stopped)
  }

  /** `Zip._setter_factory`: rounds until a lane is exhausted, each complete round yielding
      the combination of its records. A zip of endless lanes only would never stop; it is not
      modelled. */
  function ZipEvents(lanes: seq<Lane>): seq<Event>
    requires HasBounded(lanes)
    decreases Weight(lanes)
  {
    var t := ZipRound(lanes);
    if t.stopped then Acts(t.actions)
    else
      RoundShrinks(lanes);
      Acts(t.actions) + [Yield(CombineAll(t.recs))] + ZipEvents(t.rest)
  }

  /** Lane `l` has at least `n` records. */
  predicate Lasts(l: Lane, n: nat)
  {
    l.Bounded? ==> n <= |Records(l.events)|
  }

  /** Every lane has at least `n` records. */
  predicate AllLast(lanes: seq<Lane>, n: nat)
    decreases |lanes|
  {
    lanes == [] || (Lasts(lanes[0], n) && AllLast(lanes[1..], n))
  }

  /** What lane `l` yields at `next` number `i` (counting from 0). */
  function RecAt(l: Lane, i: nat): Record
    requires Lasts(l, i + 1)
  {
    if l.Bounded? then Records(l.events)[i] else l.rec
  }

  /** The records of round `i`, one per lane, left to right. */
  function Column(lanes: seq<Lane>, i: nat): (c: seq<Record>)
    requires AllLast(lanes, i + 1)
    ensures |c| == |lanes|
    decreases |lanes|
  {
    if lanes == [] then [] else [RecAt(lanes[0], i)] + Column(lanes[1..], i)
  }

  /** The records of each complete round of a zip, one per lane. */
  function ZipColumns(lanes: seq<Lane>): seq<seq<Record>>
    requires HasBounded(lanes)
    decreases Weight(lanes)
  {
    var t := ZipRound(lanes);
    if t.stopped then []
    else
      RoundShrinks(lanes);
      [t.recs] + ZipColumns(t.rest)
  }

  function CombineEach(cs: seq<seq<Record>>): (r: seq<Record>)
    ensures |r| == |cs| && forall i :: 0 <= i < |cs| ==> r[i] == CombineAll(cs[i])
  {
    seq(|cs|, i requires 0 <= i < |cs| => CombineAll(cs[i]))
  }

  // ---------------------------------------------------------------------------------------
  // Lemmas: Nest

  /** One outer record: the inner pass with its effects untouched and its records updated. */
  lemma {:induction false} StampFacts(inner: seq<Event>, outer: Record)
    ensures Records(Stamp(inner, outer)) == StampRecords(Records(inner), outer)
    ensures Trace(Stamp(inner, outer)) == Trace(inner)
    decreases |inner|
  {
    if inner != [] {
      var init, e := inner[..|inner| - 1], inner[|inner| - 1];
      StampFacts(init, outer);
      var e' := if e.Yield? then Yield(Update(e.rec, outer)) else e;
      assert Stamp(inner, outer) == Stamp(init, outer) + [e'];
      StampStep(Stamp(init, outer), e', e, outer);
      assert Records(inner) == Records(init) + Records([e]) by {
        SingleEvent(e);
      }
      assert StampRecords(Records(inner), outer)
             == StampRecords(Records(init), outer) + StampRecords(Records([e]), outer);
    }
  }

  lemma StampStep(s: seq<Event>, e': Event, e: Event, outer: Record)
    requires e' == if e.Yield? then Yield(Update(e.rec, outer)) else e
    ensures Records(s + [e']) == Records(s) + StampRecords(Records([e]), outer)
    ensures Trace(s + [e']) == Trace(s) + Trace([e])
  {
    RecordsAppend(s, [e']);
    TraceAppend(s, [e']);
    SingleEvent(e');
    SingleEvent(e);
  }

  /** `_two_product` yields the outer records in order, each followed by all of the inner
      records updated with it; the outer record's values win on a shared key. */
  lemma {:induction false} TwoProductRecords(inner: seq<Event>, outer: seq<Event>)
    ensures Records(TwoProduct(inner, outer)) == RecordProduct(Records(outer), Records(inner))
    decreases |outer|
  {
    if outer != [] {
      var init, e := outer[..|outer| - 1], outer[|outer| - 1];
      TwoProductRecords(inner, init);
      TwoProductStep(inner, init, e);
      assert outer == init + [e];
      RecordsAppend(init, [e]);
      SingleEvent(e);
      if e.Yield? {
        RecordProductStep(Records(init), e.rec, Records(inner));
      } else {
        assert Records(outer) == Records(init);
        assert Records(TwoProduct(inner, outer)) == Records(TwoProduct(inner, init));
      }
    }
  }

  lemma TwoProductStep(inner: seq<Event>, init: seq<Event>, e: Event)
    ensures Records(TwoProduct(inner, init + [e]))
            == Records(TwoProduct(inner, init)) + (if e.Act? then [] else StampRecords(Records(inner), e.rec))
  {
    var outer := init + [e];
    assert outer[..|outer| - 1] == init;
    var tail := if e.Act? then [e] else Stamp(inner, e.rec);
    RecordsAppend(TwoProduct(inner, init), tail);
    SingleEvent(e);
    if e.Yield? {
      StampFacts(inner, e.rec);
    }
  }

  lemma RecordProductStep(rs: seq<Record>, r: Record, inner: seq<Record>)
    ensures RecordProduct(rs + [r], inner) == RecordProduct(rs, inner) + StampRecords(inner, r)
  {
    assert (rs + [r])[..|rs|] == rs;
  }

  /** `_two_product` reruns the whole inner pass at every outer record: its effects are the
      outer effects with the inner pass's effects in place of each outer record. */
  lemma {:induction false} TwoProductTrace(inner: seq<Event>, outer: seq<Event>)
    ensures Trace(TwoProduct(inner, outer)) == Replay(outer, Trace(inner))
    decreases |outer|
  {
    if outer != [] {
      var init, e := outer[..|outer| - 1], outer[|outer| - 1];
      TwoProductTrace(inner, init);
      var tail := if e.Act? then [e] else Stamp(inner, e.rec);
      TraceAppend(TwoProduct(inner, init), tail);
      SingleEvent(e);
      if e.Yield? {
        StampFacts(inner, e.rec);
      }
    }
  }

  lemma {:induction false} RecordProductLength(outer: seq<Record>, inner: seq<Record>)
    ensures |RecordProduct(outer, inner)| == |outer| * |inner|
    decreases |outer|
  {
    if outer != [] {
      RecordProductLength(outer[..|outer| - 1], inner);
      calc {
        |RecordProduct(outer, inner)|;
        (|outer| - 1) * |inner| + |inner|;
        |outer| * |inner|;
      }
    }
  }

  /** Record `i * |inner| + j` of a two-level nest is inner record `j` updated with outer record
      `i`: the outer index varies slowest, and the outer values win on shared keys. */
  lemma {:induction false} RecordProductAt(outer: seq<Record>, inner: seq<Record>, i: nat, j: nat)
    requires i < |outer| && j < |inner|
    ensures |RecordProduct(outer, inner)| == |outer| * |inner|
    ensures i * |inner| + j < |outer| * |inner|
    ensures RecordProduct(outer, inner)[i * |inner| + j] == Update(inner[j], outer[i])
    decreases |outer|, 1
  {
    RecordProductLength(outer, inner);
    ProductIndex(i, j, |outer|, |inner|);
    if i < |outer| - 1 {
      RecordProductAtEarlier(outer, inner, i, j);
    } else {
      RecordProductAtLastRow(outer, inner, i, j);
    }
  }

  /** An element of the last row is the last outer record stamped onto an inner one. */
  lemma RecordProductAtLastRow(outer: seq<Record>, inner: seq<Record>, i: nat, j: nat)
    requires i == |outer| - 1 && j < |inner|
    ensures i * |inner| + j < |RecordProduct(outer, inner)| &&
            RecordProduct(outer, inner)[i * |inner| + j] == Update(inner[j], outer[i])
  {
    var init := outer[..|outer| - 1];
    RecordProductLength(init, inner);
    assert |init| == i;
    assert |RecordProduct(init, inner)| == i * |inner|;
    RecordProductAtLast(outer, inner, j);
  }

  /** An element of a row before the last lies in the product over all outer records but the last. */
  lemma {:induction false} RecordProductAtEarlier(outer: seq<Record>, inner: seq<Record>, i: nat, j: nat)
    requires i < |outer| - 1 && j < |inner|
    ensures i * |inner| + j < |RecordProduct(outer, inner)|
    ensures RecordProduct(outer, inner)[i * |inner| + j] == Update(inner[j], outer[i])
    decreases |outer|, 0
  {
    var init := outer[..|outer| - 1];
    var k := i * |inner| + j;
    RecordProductAt(init, inner, i, j);
    assert k < |RecordProduct(init, inner)|;
    RecordProductAtInit(outer, inner, k);
    assert init[i] == outer[i];
  }

  /** The index arithmetic of `n` rows of `m` laid out row after row. */
  lemma ProductIndex(i: nat, j: nat, n: nat, m: nat)
    requires i < n && j < m
    ensures 0 <= i * m && i * m + j < n * m
    ensures i < n - 1 ==> i * m + j < (n - 1) * m
    ensures i == n - 1 ==> i * m + j == (n - 1) * m + j
  {
    assert n * m == (n - 1) * m + m;
    if i < n - 1 {
      assert (i + 1) * m <= (n - 1) * m;
    }
  }

  /** An index into the records of all outer records but the last is unchanged by the last. */
  lemma RecordProductAtInit(outer: seq<Record>, inner: seq<Record>, k: nat)
    requires outer != [] && k < |RecordProduct(outer[..|outer| - 1], inner)|
    ensures k < |RecordProduct(outer, inner)|
    ensures RecordProduct(outer, inner)[k] == RecordProduct(outer[..|outer| - 1], inner)[k]
  {
  }

  /** The records of the last outer record. */
  lemma RecordProductAtLast(outer: seq<Record>, inner: seq<Record>, j: nat)
    requires outer != [] && j < |inner|
    ensures |RecordProduct(outer, inner)| == |RecordProduct(outer[..|outer| - 1], inner)| + |inner|
    ensures RecordProduct(outer, inner)[|RecordProduct(outer[..|outer| - 1], inner)| + j]
            == Update(inner[j], outer[|outer| - 1])
  {
    var n := |outer| - 1;
    var init, last := RecordProduct(outer[..n], inner), StampRecords(inner, outer[n]);
    assert RecordProduct(outer, inner) == init + last;
    assert last[j] == Update(inner[j], outer[n]);
    assert (init + last)[|init| + j] == last[j];
  }

  /** `Nest` yields, in order, what the nested loops over its children's records yield. */
  lemma {:induction false} NestFoldRecords(outs: seq<seq<Event>>)
    ensures Records(NestFold(outs)) == NestRecords(RecordsOf(outs))
    decreases |outs|
  {
    if |outs| == 1 {
    } else if |outs| > 1 {
      var init := outs[..|outs| - 1];
      NestFoldRecords(init);
      TwoProductRecords(outs[|outs| - 1], NestFold(init));
      assert RecordsOf(outs)[..|outs| - 1] == RecordsOf(init);
    }
  }

  /** A nest of n children yields the product of their numbers of records. */
  lemma {:induction false} NestRecordsLength(rss: seq<seq<Record>>)
    requires |rss| >= 1
    ensures |NestRecords(rss)| == Prod(Lengths(rss))
    decreases |rss|
  {
    if |rss| == 1 {
      assert Lengths(rss) == [|rss[0]|];
      assert Lengths(rss)[..0] == [];
    } else {
      var init := rss[..|rss| - 1];
      NestRecordsLength(init);
      RecordProductLength(NestRecords(init), rss[|rss| - 1]);
      assert Lengths(rss)[..|rss| - 1] == Lengths(init);
    }
  }

  /** Adding a child to a nest adds the innermost loop: record `i * |rs| + j` of the larger nest
      is record `j` of the new child merged with record `i` of the smaller nest, whose values
      win on shared keys (earlier children win over later ones). */
  lemma NestRecordsAt(rss: seq<seq<Record>>, rs: seq<Record>, i: nat, j: nat)
    requires |rss| >= 1 && i < |NestRecords(rss)| && j < |rs|
    ensures |NestRecords(rss + [rs])| == |NestRecords(rss)| * |rs|
    ensures i * |rs| + j < |NestRecords(rss + [rs])|
    ensures NestRecords(rss + [rs])[i * |rs| + j].m == rs[j].m + NestRecords(rss)[i].m
  {
    assert (rss + [rs])[..|rss|] == rss;
    RecordProductAt(NestRecords(rss), rs, i, j);
    UpdateFacts(rs[j], NestRecords(rss)[i]);
  }

  // ---------------------------------------------------------------------------------------
  // Lemmas: Chain

  lemma {:induction false} ConcatLength<T>(xss: seq<seq<T>>)
    ensures |Concat(xss)| == Sum(Lengths(xss))
    decreases |xss|
  {
    if xss != [] {
      ConcatLength(xss[..|xss| - 1]);
      assert Lengths(xss)[..|xss| - 1] == Lengths(xss[..|xss| - 1]);
    }
  }

  /** `Chain` yields every child's records, child after child, and has every child's effects,
      child after child. */
  lemma {:induction false} ChainFacts(outs: seq<seq<Event>>)
    ensures Records(Concat(outs)) == Concat(RecordsOf(outs))
    ensures Trace(Concat(outs)) == Concat(TracesOf(outs))
    decreases |outs|
  {
    if outs != [] {
      var init := outs[..|outs| - 1];
      ChainFacts(init);
      RecordsAppend(Concat(init), outs[|outs| - 1]);
      TraceAppend(Concat(init), outs[|outs| - 1]);
      assert RecordsOf(outs)[..|outs| - 1] == RecordsOf(init);
      assert TracesOf(outs)[..|outs| - 1] == TracesOf(init);
    }
  }

  /** The number of records of a chain is the sum of its children's numbers of records. */
  lemma ChainLength(outs: seq<seq<Event>>)
    ensures |Records(Concat(outs))| == Sum(Lengths(RecordsOf(outs)))
  {
    ChainFacts(outs);
    ConcatLength(RecordsOf(outs));
  }

  // ---------------------------------------------------------------------------------------
  // Lemmas: Zip

  /** `next` on a pass runs its leading effects, then yields its first record, or exhausts the
      pass having run all of its effects. */
  lemma {:induction false} PullShape(evs: seq<Event>)
    ensures Pull(evs).next.None? ==> evs == Acts(Pull(evs).actions)
    ensures Pull(evs).next.Some? ==>
              evs == Acts(Pull(evs).actions) + [Yield(Pull(evs).next.value.0)] + Pull(evs).next.value.1
    decreases |evs|
  {
    if evs != [] && evs[0].Act? {
      var p, q := Pull(evs), Pull(evs[1..]);
      PullShape(evs[1..]);
      ActsCons(evs[0].action, q.actions);
      assert evs == [evs[0]] + evs[1..];
    } else if evs != [] {
      assert evs == [evs[0]] + evs[1..];
    }
  }

  lemma ActsCons(a: Action, actions: seq<Action>)
    ensures Acts([a] + actions) == [Act(a)] + Acts(actions)
  {
    var l, r := Acts([a] + actions), [Act(a)] + Acts(actions);
    assert |l| == |r|;
    forall i | 0 <= i < |l| ensures l[i] == r[i] {
      if i > 0 {
        assert ([a] + actions)[i] == actions[i - 1];
      }
    }
  }

  /** `next` yields the first record of a pass, exactly when it has one, and leaves a pass of
      the records after it. */
  lemma PullRecords(evs: seq<Event>)
    ensures Pull(evs).next.None? <==> Records(evs) == []
    ensures Pull(evs).next.Some? ==>
              Pull(evs).next.value.0 == Records(evs)[0] &&
              Records(Pull(evs).next.value.1) == Records(evs)[1..]
  {
    var p := Pull(evs);
    PullShape(evs);
    ActsFacts(p.actions);
    if p.next.Some? {
      var y := [Yield(p.next.value.0)];
      RecordsAppend(Acts(p.actions), y);
      RecordsAppend(Acts(p.actions) + y, p.next.value.1);
      SingleEvent(y[0]);
    }
  }

  /** A complete round leaves the bounded lanes shorter and the kinds of the lanes unchanged,
      so a zip with a bounded lane terminates. */
  lemma {:induction false} RoundShrinks(lanes: seq<Lane>)
    requires !ZipRound(lanes).stopped
    ensures HasBounded(lanes) ==> HasBounded(ZipRound(lanes).rest)
    ensures HasBounded(lanes) ==> Weight(ZipRound(lanes).rest) < Weight(lanes)
    ensures Weight(ZipRound(lanes).rest) <= Weight(lanes)
    decreases |lanes|
  {
    if lanes != [] {
      RoundShrinks(lanes[1..]);
      assert ZipRound(lanes).rest[1..] == ZipRound(lanes[1..]).rest;
    }
  }

  /** A round completes exactly when every lane has a record left. */
  lemma {:induction false} RoundStops(lanes: seq<Lane>)
    ensures !ZipRound(lanes).stopped <==> AllLast(lanes, 1)
    decreases |lanes|
  {
    if lanes != [] {
      RoundStops(lanes[1..]);
      if lanes[0].Bounded? {
        PullRecords(lanes[0].events);
      }
    }
  }

  /** The records of a complete round are the lanes' first records. */
  lemma {:induction false} FirstColumn(lanes: seq<Lane>)
    requires !ZipRound(lanes).stopped
    ensures AllLast(lanes, 1)
    ensures ZipRound(lanes).recs == Column(lanes, 0)
    decreases |lanes|
  {
    RoundStops(lanes);
    if lanes != [] {
      FirstColumn(lanes[1..]);
      if lanes[0].Bounded? {
        PullRecords(lanes[0].events);
      }
    }
  }

  /** After a complete round, lane by lane, one record less is left. */
  lemma {:induction false} RoundShift(lanes: seq<Lane>, n: nat)
    requires !ZipRound(lanes).stopped
    ensures AllLast(ZipRound(lanes).rest, n) <==> AllLast(lanes, n + 1)
    decreases |lanes|
  {
    if lanes != [] {
      RoundShift(lanes[1..], n);
      var r := ZipRound(lanes);
      assert r.rest[1..] == ZipRound(lanes[1..]).rest;
      if lanes[0].Bounded? {
        PullRecords(lanes[0].events);
      }
    }
  }

  /** The lanes after a complete round hold the records of the later rounds. */
  lemma {:induction false} ColumnAfterRound(lanes: seq<Lane>, i: nat)
    requires !ZipRound(lanes).stopped && AllLast(lanes, i + 2)
    ensures AllLast(ZipRound(lanes).rest, i + 1)
    ensures Column(ZipRound(lanes).rest, i) == Column(lanes, i + 1)
    decreases |lanes|
  {
    RoundShift(lanes, i + 1);
    if lanes != [] {
      ColumnAfterRound(lanes[1..], i);
      var r := ZipRound(lanes);
      assert r.rest[1..] == ZipRound(lanes[1..]).rest;
      if lanes[0].Bounded? {
        PullRecords(lanes[0].events);
      }
    }
  }

  lemma {:induction false} AllLastMono(lanes: seq<Lane>, n: nat, m: nat)
    requires m <= n && AllLast(lanes, n)
    ensures AllLast(lanes, m)
    decreases |lanes|
  {
    if lanes != [] {
      AllLastMono(lanes[1..], n, m);
    }
  }

  /** `AllLast` lane by lane. */
  lemma {:induction false} AllLastAt(lanes: seq<Lane>, n: nat)
    ensures AllLast(lanes, n) <==> forall j :: 0 <= j < |lanes| ==> Lasts(lanes[j], n)
    decreases |lanes|
  {
    if lanes != [] {
      AllLastAt(lanes[1..], n);
      assert forall j :: 1 <= j < |lanes| ==> lanes[j] == lanes[1..][j - 1];
    }
  }

  /** `Column` lane by lane. */
  lemma {:induction false} ColumnAt(lanes: seq<Lane>, i: nat, j: nat)
    requires AllLast(lanes, i + 1) && j < |lanes|
    ensures Lasts(lanes[j], i + 1) && Column(lanes, i)[j] == RecAt(lanes[j], i)
    decreases j
  {
    if j > 0 {
      ColumnAt(lanes[1..], i, j - 1);
    }
  }

  /** A zip whose first round completes yields that round's combination, then the rest. */
  lemma ZipUnfold(lanes: seq<Lane>)
    requires HasBounded(lanes) && !ZipRound(lanes).stopped
    ensures HasBounded(ZipRound(lanes).rest)
    ensures Records(ZipEvents(lanes))
            == [CombineAll(ZipRound(lanes).recs)] + Records(ZipEvents(ZipRound(lanes).rest))
  {
    var t := ZipRound(lanes);
    RoundShrinks(lanes);
    ActsFacts(t.actions);
    var y := [Yield(CombineAll(t.recs))];
    assert ZipEvents(lanes) == Acts(t.actions) + y + ZipEvents(t.rest);
    RecordsAppend(Acts(t.actions), y);
    RecordsAppend(Acts(t.actions) + y, ZipEvents(t.rest));
    SingleEvent(y[0]);
  }

  /** A zip whose first round stops yields nothing. */
  lemma ZipStops(lanes: seq<Lane>)
    requires HasBounded(lanes) && ZipRound(lanes).stopped
    ensures Records(ZipEvents(lanes)) == []
  {
    ActsFacts(ZipRound(lanes).actions);
  }

  lemma {:induction false} ZipEventsColumns(lanes: seq<Lane>)
    requires HasBounded(lanes)
    ensures Records(ZipEvents(lanes)) == CombineEach(ZipColumns(lanes))
    decreases Weight(lanes)
  {
    if ZipRound(lanes).stopped {
      ZipStops(lanes);
    } else {
      var t := ZipRound(lanes);
      ZipUnfold(lanes);
      RoundShrinks(lanes);
      ZipEventsColumns(t.rest);
      assert ZipColumns(lanes) == [t.recs] + ZipColumns(t.rest);
      CombineEachCons(t.recs, ZipColumns(t.rest));
    }
  }

  lemma CombineEachCons(c: seq<Record>, cs: seq<seq<Record>>)
    ensures CombineEach([c] + cs) == [CombineAll(c)] + CombineEach(cs)
  {
    var l, r := CombineEach([c] + cs), [CombineAll(c)] + CombineEach(cs);
    forall i | 0 <= i < |l| ensures l[i] == r[i] {
      if i > 0 {
        assert ([c] + cs)[i] == cs[i - 1];
      }
    }
  }

  /** A zip has as many rounds as its shortest lane has records. */
  lemma {:induction false} ZipColumnsLength(lanes: seq<Lane>)
    requires HasBounded(lanes)
    ensures AllLast(lanes, |ZipColumns(lanes)|)
    ensures !AllLast(lanes, |ZipColumns(lanes)| + 1)
    decreases Weight(lanes)
  {
    var t := ZipRound(lanes);
    RoundStops(lanes);
    if t.stopped {
      AllLastZero(lanes);
    } else {
      RoundShrinks(lanes);
      ZipColumnsLength(t.rest);
      var n := |ZipColumns(t.rest)|;
      RoundShift(lanes, n);
      RoundShift(lanes, n + 1);
    }
  }

  lemma {:induction false} AllLastZero(lanes: seq<Lane>)
    ensures AllLast(lanes, 0)
    decreases |lanes|
  {
    if lanes != [] {
      AllLastZero(lanes[1..]);
    }
  }

  lemma {:induction false} ZipColumnsAt(lanes: seq<Lane>, i: nat)
    requires HasBounded(lanes) && i < |ZipColumns(lanes)|
    ensures AllLast(lanes, i + 1)
    ensures ZipColumns(lanes)[i] == Column(lanes, i)
    decreases i
  {
    ZipColumnsLength(lanes);
    AllLastMono(lanes, |ZipColumns(lanes)|, i + 1);
    RoundStops(lanes);
    RoundShrinks(lanes);
    FirstColumn(lanes);
    if i > 0 {
      ZipColumnsAt(ZipRound(lanes).rest, i - 1);
      ColumnAfterRound(lanes, i - 1);
    }
  }

  /** `Zip` stops at its shortest lane: its number of records is at most every lane's number of
      records, and equal to that of one of the bounded lanes. */
  lemma ZipLength(lanes: seq<Lane>)
    requires HasBounded(lanes)
    ensures forall j :: 0 <= j < |lanes| ==> Lasts(lanes[j], |Records(ZipEvents(lanes))|)
    ensures exists j :: 0 <= j < |lanes| && lanes[j].Bounded? &&
              |Records(ZipEvents(lanes))| == |Records(lanes[j].events)|
  {
    ZipEventsColumns(lanes);
    ZipColumnsLength(lanes);
    var n := |ZipColumns(lanes)|;
    AllLastAt(lanes, n);
    AllLastAt(lanes, n + 1);
    var j :| 0 <= j < |lanes| && !Lasts(lanes[j], n + 1);
    assert Lasts(lanes[j], n);
  }

  /** Record `i` of a zip is `_combine_dictionaries` of the lanes' records number `i`, taken
      left to right, so later lanes win on a shared key. */
  lemma ZipAt(lanes: seq<Lane>, i: nat)
    requires HasBounded(lanes) && i < |Records(ZipEvents(lanes))|
    ensures AllLast(lanes, i + 1)
    ensures forall j :: 0 <= j < |lanes| ==> Lasts(lanes[j], i + 1)
    ensures forall j :: 0 <= j < |lanes| ==> Column(lanes, i)[j] == RecAt(lanes[j], i)
    ensures Records(ZipEvents(lanes))[i] == CombineAll(Column(lanes, i))
  {
    ZipEventsColumns(lanes);
    ZipColumnsAt(lanes, i);
    AllLastAt(lanes, i + 1);
    forall j | 0 <= j < |lanes| ensures Column(lanes, i)[j] == RecAt(lanes[j], i) {
      ColumnAt(lanes, i, j);
    }
  }

  // ---------------------------------------------------------------------------------------
  // Lemmas: the effects of a zip of a reader and a sweep

  /** A pass of steps, unfolded from the front. */
  lemma {:induction false} StepsCons(st: seq<(Action, Record)>)
    requires st != []
    ensures Steps(st) == [Act(st[0].0), Yield(st[0].1)] + Steps(st[1..])
    decreases |st|
  {
    if |st| > 1 {
      var init := st[..|st| - 1];
      StepsCons(init);
      assert init[1..] == st[1..][..|st[1..]| - 1];
      assert st[1..][|st[1..]| - 1] == st[|st| - 1];
    }
  }

  /** The effect `a` of a reader before the effect of each step. */
  function ReadBefore(a: Action, st: seq<(Action, Record)>): seq<Action>
    decreases |st|
  {
    if st == [] then [] else [a, st[0].0] + ReadBefore(a, st[1..])
  }

  /** Effect `2 * i` is the reader's and effect `2 * i + 1` is that of step `i`. */
  lemma {:induction false} ReadBeforeAt(a: Action, st: seq<(Action, Record)>)
    ensures |ReadBefore(a, st)| == 2 * |st|
    ensures forall i :: 0 <= i < |st| ==> ReadBefore(a, st)[2 * i] == a
    ensures forall i :: 0 <= i < |st| ==> ReadBefore(a, st)[2 * i + 1] == st[i].0
    decreases |st|
  {
    if st != [] {
      ReadBeforeAt(a, st[1..]);
      forall i | 0 <= i < |st|
        ensures ReadBefore(a, st)[2 * i] == a && ReadBefore(a, st)[2 * i + 1] == st[i].0
      {
        if i > 0 {
          assert st[1..][i - 1] == st[i];
          assert ReadBefore(a, st)[2 * i] == ReadBefore(a, st[1..])[2 * (i - 1)];
          assert ReadBefore(a, st)[2 * i + 1] == ReadBefore(a, st[1..])[2 * (i - 1) + 1];
        }
      }
    }
  }

  /** The reads and steps followed by one more read: read `i` at `2 * i`, step `i` just after
      it, and the last read at the end. */
  lemma ReadBeforeThenRead(a: Action, st: seq<(Action, Record)>)
    ensures |ReadBefore(a, st) + [a]| == 2 * |st| + 1
    ensures forall i :: 0 <= i < |st| ==>
              (ReadBefore(a, st) + [a])[2 * i] == a && (ReadBefore(a, st) + [a])[2 * i + 1] == st[i].0
    ensures (ReadBefore(a, st) + [a])[2 * |st|] == a
  {
    ReadBeforeAt(a, st);
    var t := ReadBefore(a, st) + [a];
    forall i | 0 <= i < |st| ensures t[2 * i] == a && t[2 * i + 1] == st[i].0 {
      assert t[2 * i] == ReadBefore(a, st)[2 * i];
      assert t[2 * i + 1] == ReadBefore(a, st)[2 * i + 1];
    }
  }

  /** The effects of a round's events: its actions, a yield that has none, then the rest. */
  lemma TraceOfRound(actions: seq<Action>, rec: Record, rest: seq<Event>)
    ensures Trace(Acts(actions) + [Yield(rec)] + rest) == actions + Trace(rest)
  {
    ActsFacts(actions);
    TraceAppend(Acts(actions) + [Yield(rec)], rest);
    TraceAppend(Acts(actions), [Yield(rec)]);
    SingleEvent(Yield(rec));
  }

  /** The effects of `zip`, round by round: each round performs the effects of the `next`
      calls it makes, including the round in which some lane is exhausted, whose earlier lanes
      have already run their `next`. */
  lemma ZipTraceStep(lanes: seq<Lane>)
    requires HasBounded(lanes)
    ensures ZipRound(lanes).stopped ==> Trace(ZipEvents(lanes)) == ZipRound(lanes).actions
    ensures !ZipRound(lanes).stopped ==>
              HasBounded(ZipRound(lanes).rest) &&
              Trace(ZipEvents(lanes)) == ZipRound(lanes).actions + Trace(ZipEvents(ZipRound(lanes).rest))
  {
    var t := ZipRound(lanes);
    if t.stopped {
      ActsFacts(t.actions);
    } else {
      RoundShrinks(lanes);
      TraceOfRound(t.actions, CombineAll(t.recs), ZipEvents(t.rest));
    }
  }

  /** The round of the reader and the steps in which the steps are exhausted. */
  lemma ReaderRoundEnd(a: Action, r: Record)
    ensures ZipRound([Endless([a], r), Bounded([])]) == Round([a], [r], [Endless([a], r)], true)
  {
    var lanes := [Endless([a], r), Bounded([])];
    assert lanes[1..] == [Bounded([])];
    assert ZipRound(lanes[1..]) == Round([], [], [], true);
  }

  /** A round of the reader and the steps that goes through: the read, then the step. */
  lemma ReaderRound(a: Action, r: Record, st: seq<(Action, Record)>)
    requires st != []
    ensures ZipRound([Endless([a], r), Bounded(Steps(st))])
            == Round([a, st[0].0], [r, st[0].1], [Endless([a], r), Bounded(Steps(st[1..]))], false)
  {
    var lanes := [Endless([a], r), Bounded(Steps(st))];
    StepsCons(st);
    var evs := Steps(st);
    assert evs[1..] == [Yield(st[0].1)] + Steps(st[1..]);
    assert Pull(evs[1..]) == Pulled([], Some((st[0].1, Steps(st[1..]))));
    assert Pull(evs) == Pulled([st[0].0], Some((st[0].1, Steps(st[1..]))));
    assert lanes[1..] == [Bounded(evs)];
    assert lanes[1..][1..] == [];
    assert ZipRound(lanes[1..]) == Round([st[0].0], [st[0].1], [Bounded(Steps(st[1..]))], false);
  }

  /** `zip(reader, steps)`, where `reader` repeats one effect `a` at every `next` and `steps`
      performs one effect before each of its records. `zip` pulls from left to right, so every
      round reads before the step: also the last round, in which `steps` turns out to be
      exhausted. The reader thus acts once more than there are steps. */
  lemma {:induction false} ZipReadBefore(a: Action, r: Record, st: seq<(Action, Record)>)
    ensures HasBounded([Endless([a], r), Bounded(Steps(st))])
    ensures Trace(ZipEvents([Endless([a], r), Bounded(Steps(st))])) == ReadBefore(a, st) + [a]
    decreases |st|
  {
    var lanes := [Endless([a], r), Bounded(Steps(st))];
    assert HasBounded(lanes) by {
      assert lanes[1..] == [Bounded(Steps(st))];
    }
    ZipTraceStep(lanes);
    if st == [] {
      ReaderRoundEnd(a, r);
    } else {
      ReaderRound(a, r, st);
      ZipReadBefore(a, r, st[1..]);
    }
  }
}
