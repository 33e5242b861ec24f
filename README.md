# Sweep objects of QCoDeS, modelled in Dafny

This project models the sweep-object layer of `qcodes/sweep/sweep.py`. That layer builds
measurement loops out of small objects: parameter sweeps, wrappers that read instruments,
and functions decorated as setters or measurements. `Nest` combines them into nested loops,
`Chain` into consecutive ones, and `Zip` into lock-step ones. Every sweep object carries a
`ParametersTable`: a list of fragments, each listing independent and dependent
`(name, unit)` columns. The table's `symbols_list()` fixes the keys that `__next__` gives
every record.

The modules follow the program's structure:

- `results.dfy`: the Python exceptions raised, and `Result`/`Option`.
- `dicts.dfy`: Python dictionaries with their insertion order. A key is stored once, in
  first-insertion order, and the last write wins. Covers `update` and comprehensions.
- `tables.dfy`: `ParametersTable`. Construction, `+`, `*`, `flatten` and `symbols_list`.
  Includes the algebra of `+` and `*`: associativity and distributivity.
- `passes.dfy`: a pass of a generator as a sequence of events. Each event is an effect on an
  instrument or a yielded record. Covers the reshaping done by `__next__`, and the records
  and effects a pass produces.
- `combinators.dfy`: the reference definitions of the combinators' passes. `Nest` is built
  from `_two_product`, `Chain` is concatenation, and `Zip` is the rounds of `zip`, ending
  with the shortest child. Lemmas give their records and their lengths. They also give their effects, for `zip` round by round.
- `sweeps.dfy`: the sweep objects as a tree of values. For each object it gives the table it
  declares (with `np.prod`/`np.sum` as left folds, including numpy's number for an empty
  list) and the error `_start_iter` raises. `Generate` is the pass of one fresh
  `_setter_factory()`, and `Output` is that pass reshaped by `__next__`.
- `generators.dfy`: the `_setter_factory` generators, written as loops. Each one is proved
  against `Generate`.
- `objects.dfy`: `BaseSweepObject` as a class, holding `_param_setter`, `_symbols_list` and
  the effects performed. `_start_iter` and `__next__` are methods, and so are `Advance` (the
  `next(self._param_setter)` step) and `Iterate`, a whole `for` loop over the object.
  Proved: every pass returns the records of `Output` and performs its effects.
- `helpers.dfy`: `measurement`, `setter`, `wrap_objects`, `sweep`, `nest`, `chain`, `szip`
  and `BaseSweepObject.__call__`.
- `findings.dfy`: a defect in the one-child `Nest`, in its as-written and corrected forms.

The instruments are a fixed `Oracle`. It gives the value each parameter reads and each
measurement function returns, so leaves are deterministic. The set points that a point
function returns, and the records that an iterator function produces, are given as values
in the sweep object.

The `szip` docstring (sweep.py:387-389) promises a reading of the thermometer before each
voltage set point, and `Helpers.SzipTrace` proves that. The comment at sweep.py:396-397 says
the wrapped parameters are called as often as the length of the sweep object. The model
gives one call more: `zip` pulls its arguments from left to right, so in the last round it
reads the thermometer before it finds the sweep exhausted. That reading comes after the last
set point and its record is discarded. The count in that comment is therefore loose rather
than a defect, and the model keeps the program's behaviour.

## Model

| member | source | states |
|---|---|---|
| Tables.Construct | qcodes/sweep/sweep.py:8-22 | Construction raises ValueError exactly when all three arguments are empty or missing. A given `table_list` is used as it is. Otherwise there is one fragment holding the two lists. |
| Tables.Add | qcodes/sweep/sweep.py:27-28 | `a + b` has fragment list `a.table_list ++ b.table_list`. It fails only when both are empty. |
| Tables.Mul | qcodes/sweep/sweep.py:30-33 | `a * b` is the `itertools.product` of the fragment lists. It fails when either list is empty. |
| Tables.ProductLength | qcodes/sweep/sweep.py:30-33 | The product has `len(a) * len(b)` fragments. |
| Tables.ProductAt | qcodes/sweep/sweep.py:30-33 | Fragment `i * len(b) + j` joins `a[i]` with `b[j]`, left operand first, key by key. The left operand varies slowest. |
| Tables.ProductShape | qcodes/sweep/sweep.py:30-33 | The product is empty exactly when one operand is. |
| Tables.RowShape | qcodes/sweep/sweep.py:30-33 | One fragment joined with each fragment of a list, in order. |
| Tables.AddAssociative | qcodes/sweep/sweep.py:27-28 | `(a + b) + c == a + (b + c)`. |
| Tables.MulAssociative | qcodes/sweep/sweep.py:30-33 | `(a * b) * c == a * (b * c)`. So the left fold of `np.prod` over a `Nest`'s children gives the same table however it is grouped. |
| Tables.MulDistributesOverAdd | qcodes/sweep/sweep.py:27-33 | `(a + b) * c == a * c + b * c`. |
| Tables.ProductAssociative | qcodes/sweep/sweep.py:30-33 | The fragment product is associative. |
| Tables.JoinAssociative | qcodes/sweep/sweep.py:32 | Joining fragments key by key is associative. |
| Tables.MulMembers | qcodes/sweep/sweep.py:30-33 | A column is in `a * b` exactly when it is in `a` or in `b`. |
| Tables.ProductMember | qcodes/sweep/sweep.py:30-33 | A column is in a fragment product exactly when both operands are non-empty and it is in one of them. |
| Tables.RowMember | qcodes/sweep/sweep.py:30-33 | The same, for one fragment joined with a list. |
| Tables.FlattenFacts | qcodes/sweep/sweep.py:35-38 | Each side of `flatten()` has keys that are the side's names in first-occurrence order, each once. It holds exactly the names that occur. The unit of a name is that of its last occurrence. |
| Tables.FlatMembers | qcodes/sweep/sweep.py:35-38 | The dict comprehension holds exactly the names of its columns. |
| Tables.FlatLastWins | qcodes/sweep/sweep.py:35-38 | A duplicate name takes the unit of its last occurrence. |
| Tables.SymbolsListFacts | qcodes/sweep/sweep.py:40-42 | `symbols_list()` gives the flattened independent names in first-occurrence order, then the dependent ones. Together these are every name in the table. |
| Tables.AddFlatten | qcodes/sweep/sweep.py:27-28 | Flattening `a + b`: `b`'s units override `a`'s. `b`'s new names follow `a`'s names. |
| Tables.AllAppend | qcodes/sweep/sweep.py:35-38 | The columns of a concatenated fragment list are the columns of each part, in order. |
| Tables.InAll | qcodes/sweep/sweep.py:35-38 | A column is among a list's columns exactly when some fragment has it. |
| Dicts.UpdateFacts | qcodes/sweep/sweep.py:209-214 | `d.update(e)`: `e`'s values win. Keys are `d`'s, then `e`'s new keys. |
| Dicts.PairsMapLastWins | qcodes/sweep/sweep.py:35-38 | After inserting pairs in order, the last value given for a key is the one that stays. |
| Dicts.FromPairsFacts | qcodes/sweep/sweep.py:35-38 | A dict built from pairs has one key per distinct name, in first-occurrence order. |
| Dicts.InsertAllKeys | qcodes/sweep/sweep.py:35-38 | Insertion adds only new keys, at the end, in order. |
| Dicts.InsertAllMap | qcodes/sweep/sweep.py:35-38 | Insertion overrides old values with new ones. |
| Dicts.ExtendFacts | qcodes/sweep/sweep.py:35-38 | Key order stays duplicate-free, keeps the old keys as a prefix, and gains exactly the new names. |
| Dicts.ItemsFacts | qcodes/sweep/sweep.py:251-255 | A dict's items list its keys in order, each with its value. |
| Sweeps.StartErrorIff | qcodes/sweep/sweep.py:119-124 | `_start_iter` fails exactly when `_parameter_table` is a number. An empty `Nest` raises IndexError first, in `_setter_factory`. Anything else raises AttributeError from `symbols_list()`. |
| Sweeps.EmptyCombinator | qcodes/sweep/sweep.py:191-194 | A combinator of no objects gets a number for a table: `np.prod([])` or `np.sum([])`. |
| Sweeps.ReduceShape | qcodes/sweep/sweep.py:194 | A fold of two or more attributes succeeds only when all are tables (giving a table) or all are numbers (giving a number). |
| Sweeps.StepShape | qcodes/sweep/sweep.py:194 | One step of the fold combines two tables, or two numbers. |
| Sweeps.StartableChildren | qcodes/sweep/sweep.py:191-248 | If a combinator starts, its children all start. With two or more children, every child has a table. A single child's attribute is the combinator's. |
| Sweeps.StartableTree | qcodes/sweep/sweep.py:119-124 | If an object can be built and started, so can every object below it. |
| Sweeps.LeafTable | qcodes/sweep/sweep.py:274-335 | A leaf's table is one fragment holding its declared columns. Construction fails exactly when it declares none. |
| Sweeps.ParameterSymbols | qcodes/sweep/sweep.py:274-301 | A parameter sweep or wrapper has the parameter's full name as its only symbol. |
| Sweeps.FunctionSymbols | qcodes/sweep/sweep.py:315-335 | A function sweep or wrapper has its declared names as symbols, each once. It fails to build when there are none. |
| Sweeps.OneFragmentSymbols | qcodes/sweep/sweep.py:40-42 | The symbols of a one-fragment table are its independent names, then its dependent names. |
| Sweeps.ParameterSweepOutput | qcodes/sweep/sweep.py:280-283 | `set(v)` runs once per set point, in order. Record `i` is `{full_name: points[i]}`. |
| Sweeps.ParameterSweepEvents | qcodes/sweep/sweep.py:280-283 | Each set comes just before its record. |
| Sweeps.ParameterSweepSteps | qcodes/sweep/sweep.py:280-283 | `__next__` leaves a parameter sweep's records unchanged. |
| Sweeps.IteratorSweepOutput | qcodes/sweep/sweep.py:164-166 | An `IteratorSweep` yields its iterator's values as they are, with no effects. |
| Sweeps.WrapperOutput | qcodes/sweep/sweep.py:303-341 | With `repeat=False`, a wrapper performs one effect and yields exactly one record. |
| Sweeps.ParameterWrapperOutput | qcodes/sweep/sweep.py:303-308 | A parameter wrapper reads its parameter once and yields `{full_name: value}`. |
| Sweeps.FunctionSweepOutput | qcodes/sweep/sweep.py:320-322 | A setter function is called once per point, with `np.atleast_1d(point)` spread as its arguments. It yields the values under the declared names. |
| Sweeps.DeclaredRecord | qcodes/sweep/sweep.py:53-56 | A measurement record, reshaped onto distinct declared names, has exactly those keys. A name without a value gets `None`. |
| Sweeps.ZipRecordDistinct | qcodes/sweep/sweep.py:56 | `{p[0]: v for p, v in zip(param_list, values)}` pairs names and values up to the shorter list. |
| Sweeps.ChainOutput | qcodes/sweep/sweep.py:235-238 | A `Chain` yields its children's records child after child, reshaped, with their effects in the same order. Its length is the sum of the children's lengths. |
| Sweeps.ChainOfEmptyNest | qcodes/sweep/sweep.py:230-238 | `Chain([Nest([])])` has a number for a table, so its `_start_iter` raises AttributeError. Its modelled pass is empty. The source instead raises IndexError at the next `next`, as recorded under Left out. |
| Sweeps.NestOutput | qcodes/sweep/sweep.py:197-223 | A `Nest` yields its children's records as nested loops, first child outermost. Its length is the product of the children's lengths. |
| Sweeps.NestTwo | qcodes/sweep/sweep.py:209-214 | `Nest([a, b])` yields, for each record of `a`, every record of `b` updated with `a`'s record. On a shared key, `a`'s value wins. `b`'s whole pass, effects included, runs again at each record of `a`. |
| Sweeps.ZipOutputLength | qcodes/sweep/sweep.py:257-259 | A `Zip` yields no more records than any child that ends, and exactly as many as one of them. |
| Sweeps.ZipOutputAt | qcodes/sweep/sweep.py:251-259 | Record `i` of a `Zip` merges the children's `i`-th records from left to right, so later children win. A repeating wrapper contributes the same record every round. That is a consequence of the fixed `Oracle`: a real thermometer reads afresh each round. |
| Passes.ReshapeFacts | qcodes/sweep/sweep.py:135-136 | When the record and the symbol list are both non-empty, the keys are exactly the symbol list, with `None` for a missing key. Otherwise the record is unchanged. |
| Passes.ReshapeTwice | qcodes/sweep/sweep.py:135-136 | Reshaping is idempotent. |
| Passes.ReshapeAllFacts | qcodes/sweep/sweep.py:134-138 | `__next__` over a pass keeps its effects, and reshapes each of its records in place. |
| Passes.ReshapeAllRecords | qcodes/sweep/sweep.py:134-138 | The records of a reshaped pass are the reshaped records. |
| Passes.ZipRecordFacts | qcodes/sweep/sweep.py:56 | A zipped record has the names, each once, up to the shorter list. A name's value is the value at its last occurrence. |
| Passes.CombineAllFacts | qcodes/sweep/sweep.py:251-255 | `_combine_dictionaries` holds every key of every record. A key's value comes from the last record that has it. |
| Passes.StepsFacts | qcodes/sweep/sweep.py:280-322 | A loop of effect-then-record yields one record and performs one effect per step, in order. |
| Combinators.TwoProductRecords | qcodes/sweep/sweep.py:209-214 | The records of `_two_product` are the outer records, each followed by every inner record merged with it. |
| Combinators.TwoProductTrace | qcodes/sweep/sweep.py:209-214 | The effects of `_two_product`: every outer effect, with the whole inner pass run again after each outer record. |
| Combinators.RecordProductLength | qcodes/sweep/sweep.py:209-214 | There are `len(outer) * len(inner)` such records. |
| Combinators.RecordProductAt | qcodes/sweep/sweep.py:209-214 | Record `i * len(inner) + j` is inner record `j` updated with outer record `i`. |
| Combinators.NestFoldRecords | qcodes/sweep/sweep.py:218-223 | The fold `prod = _two_product(so, prod)` over the children yields the nested records of their passes. |
| Combinators.NestRecordsLength | qcodes/sweep/sweep.py:218-223 | The nested records number the product of the children's numbers of records. |
| Combinators.NestRecordsAt | qcodes/sweep/sweep.py:218-223 | Adding a child loops it innermost: each record is the new child's record overridden by the outer records. |
| Combinators.StampFacts | qcodes/sweep/sweep.py:210-214 | The inner loop of `_two_product` merges one outer record into every inner record and keeps the inner effects. |
| Combinators.ChainFacts | qcodes/sweep/sweep.py:235-238 | Concatenated passes have the concatenated records and effects. |
| Combinators.ChainLength | qcodes/sweep/sweep.py:235-238 | Their length is the sum of the parts' lengths. |
| Combinators.ConcatLength | qcodes/sweep/sweep.py:235-238 | A concatenation's length is the sum of its parts' lengths. |
| Combinators.ZipLength | qcodes/sweep/sweep.py:257-259 | `zip` ends with its shortest argument. Every lane lasts as many rounds as there are records, and one bounded lane has exactly that many. |
| Combinators.ZipAt | qcodes/sweep/sweep.py:257-259 | Round `i` merges the `i`-th records of the lanes. |
| Combinators.ZipEventsColumns | qcodes/sweep/sweep.py:257-259 | The records of `zip` are the merged columns of the lanes. |
| Combinators.ZipColumnsLength | qcodes/sweep/sweep.py:257-259 | The number of columns is the largest number of rounds that all lanes last. |
| Combinators.ZipColumnsAt | qcodes/sweep/sweep.py:257-259 | Column `i` holds the lanes' `i`-th records. |
| Combinators.ZipUnfold | qcodes/sweep/sweep.py:257-259 | One round that goes through yields one merged record, and the rest follows. |
| Combinators.ZipStops | qcodes/sweep/sweep.py:257-259 | A round in which some lane is exhausted yields nothing more. |
| Combinators.ZipTraceStep | qcodes/sweep/sweep.py:257-259 | The effects of `zip`, round by round. A round that goes through performs its `next` calls' effects before the rest. The round that stops performs the effects of the `next` calls made before the exhausted lane. |
| Combinators.StepsCons | qcodes/sweep/sweep.py:280-283 | A pass of set-then-record steps starts with the first step's effect and record. |
| Combinators.ReadBeforeAt | qcodes/sweep/sweep.py:257-259 | In the interleaving of reads and steps, effect `2i` is the read and effect `2i+1` is step `i`. |
| Combinators.ReadBeforeThenRead | qcodes/sweep/sweep.py:257-259 | The same with the last read appended: `2n+1` effects, the read last. |
| Combinators.ZipReadBefore | qcodes/sweep/sweep.py:257-259 | `zip(reader, steps)` reads before each step, and once more in the round in which the steps are exhausted, because `zip` pulls its arguments from left to right. |
| Combinators.ReaderRound | qcodes/sweep/sweep.py:258 | A round of a reader and a non-empty steps pass performs the read, then the step's effect, and yields both records. |
| Combinators.ReaderRoundEnd | qcodes/sweep/sweep.py:258 | The round of a reader and an exhausted steps pass performs the read and stops. |
| Combinators.RoundStops | qcodes/sweep/sweep.py:257-259 | A round goes through exactly when every lane has a record. |
| Combinators.RoundShrinks | qcodes/sweep/sweep.py:257-259 | A round that goes through moves every lane forward, so `zip` with a bounded lane ends. |
| Combinators.PullShape | qcodes/sweep/sweep.py:134 | `next` on a generator runs the effects up to the next record and yields it, or runs the remaining effects and stops. |
| Combinators.PullRecords | qcodes/sweep/sweep.py:134 | `next` stops exactly when no record is left. Otherwise it yields the first one and leaves the rest. |
| Generators.CombineDictionaries | qcodes/sweep/sweep.py:251-255 | The `update` loop gives `CombineAll` of the records, whose keys and values `Passes.CombineAllFacts` states. |
| Generators.TwoProductPass | qcodes/sweep/sweep.py:209-214 | The nested loops of `_two_product` give the reference product. |
| Generators.NestFactory | qcodes/sweep/sweep.py:218-223 | `Nest._setter_factory` raises IndexError on no children. Otherwise it gives the fold of `_two_product`. |
| Generators.ChainFactory | qcodes/sweep/sweep.py:235-238 | `Chain._setter_factory` gives the concatenation of the children's passes. |
| Generators.ZipFactory | qcodes/sweep/sweep.py:257-259 | `Zip._setter_factory` gives the rounds of `zip`, ending at the first exhausted lane. |
| Generators.ZipNext | qcodes/sweep/sweep.py:258-259 | One round either stops `zip` or yields one combined record and shortens the lanes. |
| Generators.IteratorFactory | qcodes/sweep/sweep.py:164-166 | The loop yields the iterator's values. |
| Generators.ParameterSweepFactory | qcodes/sweep/sweep.py:280-283 | The loop sets each point, then yields its record. |
| Generators.FunctionSweepFactory | qcodes/sweep/sweep.py:320-322 | The loop calls the setter on each point, then yields its record. |
| Generators.WrapperFactory | qcodes/sweep/sweep.py:303-341 | The `while not stop` loop, driven for `demand` records. With `repeat=False` it runs one round. With `repeat=True` it runs `demand` rounds of the same effect and record. |
| Generators.CycleFacts | qcodes/sweep/sweep.py:303-308 | `n` rounds yield the record `n` times and perform the effect `n` times. |
| Generators.Pass | qcodes/sweep/sweep.py:113-117 | Any object's `_setter_factory`, run to the end, gives `Generate`. |
| Objects.SweepObject.constructor | qcodes/sweep/sweep.py:106-110 | A new object has no generator and no symbol list. |
| Objects.SweepObject.StartIter | qcodes/sweep/sweep.py:119-124 | `_start_iter` makes a fresh generator at the start of its pass, then sets the table's symbol list, or `[]` without a table. An empty `Nest` raises IndexError and assigns nothing. A number for a table raises AttributeError after the generator is assigned. |
| Objects.SweepObject.Advance | qcodes/sweep/sweep.py:134-138 | `next(self._param_setter)` performs effects only by extending `performed`, and keeps the symbol list and the start of the pass. After a start without error it never raises. It returns the next record, appended to those returned, or stops with the generator spent and the whole pass consumed. A spent generator stops at once and does nothing. |
| Objects.SweepObject.Next | qcodes/sweep/sweep.py:130-138 | `__next__` starts a pass when none is live and re-raises its error. The records returned in a pass are the pass's records, each reshaped. At StopIteration they are all of `Output`. |
| Objects.SweepObject.Drain | qcodes/sweep/sweep.py:130-138 | `__next__` until StopIteration consumes the whole pass. |
| Objects.SweepObject.Iterate | qcodes/sweep/sweep.py:126-138 | `for r in obj` raises `_start_iter`'s error, or returns the records of the pass reshaped onto the symbol list and performs the pass's effects. |
| Objects.RunPass | qcodes/sweep/sweep.py:126-138 | Every pass over an object returns `Records(Output(node))` and performs `Trace(Output(node))`, whatever passes came before. For a one-child `Nest`, and any tree containing one, this is the corrected behaviour; see ## Findings. |
| Objects.TwoPasses | qcodes/sweep/sweep.py:119-124 | Two passes over one object return the same records and repeat the same effects, because `_start_iter` recreates the generator. For a one-child `Nest`, and any tree containing one, this is the corrected behaviour; see ## Findings. |
| Helpers.Measurement | qcodes/sweep/sweep.py:49-61 | `measurement(param_list)` raises ValueError on an empty list. Otherwise its wrappers declare `param_list` as their dependent columns. |
| Helpers.Setter | qcodes/sweep/sweep.py:64-77 | `setter(param_list)` raises ValueError on an empty list. Otherwise its sweeps declare `param_list` as their independent columns. |
| Helpers.Wrap | qcodes/sweep/sweep.py:82-92 | Only a setter function (TypeError) or a non-callable (ValueError) fails. A sweep object is kept as it is. A parameter declares its one dependent column. A wrapped parameter or measurement repeats exactly when `repeat` is set. |
| Helpers.WrapObjectsFacts | qcodes/sweep/sweep.py:80-94 | `wrap_objects` succeeds exactly when every object can be wrapped, and then wraps each one in place. Otherwise it raises the error of the first object that fails. |
| Helpers.WrapOnce | qcodes/sweep/sweep.py:80-94 | A wrapped parameter or measurement with `repeat=False` yields exactly one record and performs one effect. |
| Helpers.SweepOf | qcodes/sweep/sweep.py:344-372 | `sweep` builds a sweep for a parameter or a setter function. A non-callable raises ValueError. A measurement function is modelled as TypeError. A sweep object raises at once: TypeError when it has no table, AttributeError otherwise. |
| Helpers.SweepOfSweepObject | qcodes/sweep/sweep.py:315-318 | `sweep` over a sweep object `s` fails in `s()`. It raises `s()`'s own error or, when `s()` returns the nest `Nest([s, Chain([])])`, the AttributeError of that nest's `_start_iter`. |
| Helpers.CallEmpty | qcodes/sweep/sweep.py:140-141 | `s()` with no objects constructs `Nest([s, Chain([])])`. It succeeds exactly when `np.prod` of `s`'s table and the number `np.sum([])` does. |
| Helpers.CallTable | qcodes/sweep/sweep.py:140-141 | The table of `s()` is `np.prod` of `s`'s table and the number `np.sum([])`. |
| Helpers.SweepPoints | qcodes/sweep/sweep.py:344-372 | A 1D sweep yields one record and performs one set per point, in order. |
| Helpers.CombinatorChildren | qcodes/sweep/sweep.py:375-380 | When some object cannot be wrapped, `nest` and `chain` raise the first such object's error. Otherwise the children are the wrapped objects, in place. The constructor then succeeds exactly when its `np.prod` (`nest`) or `np.sum` (`chain`) of the children's tables does (`Built`), and otherwise raises that fold's error. |
| Helpers.NestOfEmptyChain | qcodes/sweep/sweep.py:191-194 | `nest(chain(), p)` wraps both objects, but `np.prod` multiplies the number `np.sum([])` by a table and raises TypeError. |
| Helpers.ChainOfIteratorSweep | qcodes/sweep/sweep.py:230-233 | `chain(sweep(p, points), s)` for an iterator sweep `s` raises AttributeError: the table's `__add__` looks up `table_list` on `None`. |
| Helpers.CombinatorFinite | qcodes/sweep/sweep.py:375-380 | A `nest` or `chain` that is constructed, of objects wrapped without repeating, has a pass that ends. |
| Helpers.CallShape | qcodes/sweep/sweep.py:140-141 | `so(*objects)` raises the error of `chain(*objects)`. Otherwise it succeeds exactly when `np.prod` of `so`'s table and the chain's does, and raises that product's error otherwise. With no objects it succeeds exactly when `so`'s table is a number. |
| Helpers.CallOutput | qcodes/sweep/sweep.py:140-141 | When it succeeds, `so(*objects)` runs the chain of the wrapped objects at every record of `so`, merging each record, with the chain's effects replayed each time. |
| Helpers.SzipRepeat | qcodes/sweep/sweep.py:383-399 | `szip` wraps parameters and measurements with `repeat=True` exactly when some argument is a sweep object, and keeps the sweep objects as they are. It raises the first wrapping error. Otherwise it succeeds exactly when `Zip`'s `np.prod` of the tables does. |
| Helpers.SzipFinite | qcodes/sweep/sweep.py:383-399 | A `szip` with a sweep object among its arguments ends when its sweep objects do. |
| Helpers.SzipReadable | qcodes/sweep/sweep.py:383-399 | `szip(thermometer, sweep(voltage, points))` is constructed and wraps the thermometer as repeating. |
| Helpers.SzipBounded | qcodes/sweep/sweep.py:383-399 | That zip yields exactly as many records as there are points. |
| Helpers.SzipLanes | qcodes/sweep/sweep.py:383-399 | The arguments of that zip's `zip` are the repeating read and the sweep's set-then-record steps. |
| Helpers.SzipReads | qcodes/sweep/sweep.py:383-399 | The effects of that zip are the reads interleaved with the sets, then one more read. |
| Helpers.SzipTrace | qcodes/sweep/sweep.py:383-399 | Effect `2i` is a read of the thermometer and effect `2i+1` sets point `i`. Effect `2·len(points)` is a final read. So there are `len(points) + 1` reads for `len(points)` sets. |
| Findings.NestOfOnePassAsWritten | qcodes/sweep/sweep.py:218-223 | One pass of `Nest([child])` as written. A child never started gives its whole pass. A spent child gives nothing and performs nothing. |
| Findings.NestOfOneTwoPassesAsWritten | qcodes/sweep/sweep.py:218-223 | As written, the second pass over `Nest([child])` yields nothing, where the nest's `Output` has the child's records. |
| Findings.NestInNestAsWritten | qcodes/sweep/sweep.py:209-223 | As written, running `for result1 in Nest([child])` once per record of `a`, `count` times, yields the child's records once in total, not `count` times. |
| Findings.NestOfOneOutput | qcodes/sweep/sweep.py:218-223 | The intended pass of `Nest([c])`: `c`'s records reshaped onto the nest's symbols, with `c`'s effects. |
| Findings.NestOfOnePass | qcodes/sweep/sweep.py:218-223 | With the child restarted, a pass over `Nest([child])` returns the nest's `Output` records and effects, whatever state the child was in. |
| Findings.NestOfOneTwoPasses | qcodes/sweep/sweep.py:218-223 | With the child restarted, two passes yield the same records. |

## Left out

- The instruments are modelled as a fixed `Oracle`. A reading that depends on time or on
  earlier effects is not modelled; the model records only which effects happen, in order.
- Children of a combinator are values, not objects with their own `_param_setter`. The same
  object used twice in a tree, and aliasing between sweep objects, are not modelled. The
  one exception is `Findings`, where the one-child `Nest` shares its child object. Because
  of this, `Objects.RunPass` and `Objects.TwoPasses` show the corrected behaviour for a
  one-child `Nest` and for any tree containing one (see ## Findings).
- A generator's pass is computed whole by `Generate`. The model does not show that numpy and
  Python compute it lazily. `__next__` on a live generator is modelled by `Advance`, which
  takes the next step of the precomputed pass.
- `repeat=True` wrappers occur only as direct children of a `Zip` that has a child that
  ends. On their own they never end, and the `Finite` predicate excludes them elsewhere.
  `Generators.WrapperFactory` drives such a loop for a given number of records.
- `Helpers.Wrap`: a setter function passed where a measurement is expected fails in the
  source only when the object is first iterated, with a TypeError from `inner()`. The model
  reports the TypeError when the object is wrapped.
- `Helpers.SweepOf`: `sweep` over a measurement function is callable in the source; it
  fails at the first set point, with a TypeError from `inner(value)`, and does not fail at
  all when there are no points. The model reports that TypeError at once, for every list of
  points, including the empty one.
- `Objects.SweepObject.Advance`: in the source, after `_start_iter` has raised
  AttributeError (a number for a table), a later `next` on a combinator with children
  iterates those children, and the first child's start error is raised. For example,
  `Chain([Nest([])])` then raises IndexError. In the model the pass takes each child's pass
  as if the child had started without error. For `Chain([Nest([])])` that pass is empty, and
  `Advance` stops instead of raising.
- `ParametersTable.copy` (sweep.py:24-25) and the `parameter_table` property are accessors
  and are not modelled separately.
- Duck typing (`isinstance`, `callable`) is replaced by the closed datatype `Helpers.Obj`.
  The point functions are replaced by the list of points they return.
- `np.atleast_1d` is modelled only for a scalar or a flat vector. `np.prod`/`np.sum` over
  object arrays are modelled as left folds with Python's `*`/`+` dispatch.
- `Findings.NestOfOnePassAsWritten` and the other as-written members require that the child
  starts without error. A child whose start fails makes the nest's own `_start_iter` fail
  first.

## Findings

| source | as written | input that shows it | evidently intended | confidence | as-written member | corrected member |
|---|---|---|---|---|---|---|
| qcodes/sweep/sweep.py:218-223 | With one object, `_setter_factory` returns `self._sweep_objects[0]` itself, so the nest's generator is the child object and is never restarted. | `n = Nest([sweep(p, [0, 1])])`: two `for r in n` loops; the second yields nothing. `nest(a, nest(b))` yields `b`'s records only for `a`'s first record. | Each pass over the nest is a new pass over its child, as for `Nest`s of two or more objects. | high, not executed | Findings.NestOfOneTwoPassesAsWritten | Findings.NestOfOneTwoPasses |
