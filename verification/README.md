# Krabka observability tooling, modelled in Dafny

The Python tools beside Krabka's observability services decide what is believed:
which query texts a corpus holds, which bytes a fuzz seed is, how much load a
deployment carried, whether a seed reached the store, whether a mutation sweep or
a benchmark run regressed. This project models the parts of those tools that
carry state, arithmetic or a protocol, and proves what they promise, for all
inputs and all runs.

| area | modules |
|---|---|
| typed query trees: type, text, depth, shrink candidates; the type system; the text is unambiguous | `TypedTree`, `Signatures`, `TypedTreeCheck`, `FirstOccurrence`, `QueryText`, `QueryReader`, `QueryReadsBack`, `Unambiguous` |
| wire encoders and the readers that undo them | `Wire`, `Protobuf`, `Snappy`, `Compact`, `CompactReader`, `CompactReads`, `CompactTrees` |
| the fixed-rate query load, over all interleavings | `QueryLoad` |
| waiting for the write-ahead log to become durable | `Drain` |
| metric requests, their clock, the metrics seed ledger and that it expects what the requests carry | `MetricRequest`, `Stamps`, `SeedLedger`, `SeedCheck`, `SeedBytes` |
| the profile flamegraph | `Flamegraph`, `FlamegraphRoundTrip`, `FlamegraphShape` |
| packed log queries and their ledger | `LogPacking`, `LogLedger` |
| the mutation ratchet and the proof of its gate | `MutantsLog`, `MutantsRatchet` |
| the benchmark ratchet and its confirmation | `BenchRatchet`, `BenchConfirm` |
| the soak envelope | `SoakEnvelope` |
| source masking, brace blocks, grammar and message closure | `SourceMask`, `SourceBlocks`, `GrammarReach` |
| the crash-safe mutant verifier | `Replacement`, `MutantVerifier` |

`Basics`, `Lists`, `Ordering`, `Text`, `Bits` and `Modular` hold what several areas
share. Loops, buffers and files are methods, arrays and classes, proved against
specification functions; expressions and recursion are functions; the two
concurrent protocols and the crash protocol are step systems whose invariants hold
in every reachable state.

Where a promise turned out not to hold of the code, the code is kept, an input
that shows it is given, and the exact condition is proved:

* `ProfileAnd` clauses run together with the selector's own, so a profile
  selector's text is unambiguous up to that grouping and no further.
* A snappy literal block is written for payloads of up to 2^32 bytes and reads
  back exactly below that, because the format's length is a 32-bit number.
* A varint reads back exactly below 2^64, a Thrift field identifier exactly
  within sixteen bits, a ZigZag value exactly within its width.
* `durably_caught_up` is safe exactly when every consumer it reads commits only
  what it has flushed; the caller picks the index.
* "`old` must appear exactly once" is checked with a count that skips overlaps.
  The check means what it says exactly for texts that do not overlap themselves.
* The mutation ratchet counts shard logs and looks at no directory's number, so a
  trusted sweep has a log of every shard exactly when each directory is named as a
  shard of the declared width. A lone unnumbered log passes for any width.
* Confirming a regression can miss a benchmark that the baseline no longer lists
  and the rerun did not measure; with one baseline for both runs it cannot.
* Rows of a packed log query are counted without their labels, so every query
  keeps every limit exactly when no series has one entry under two label sets.
* A cached metric prefix is empty when the timestamp is, since `s[:-0]` is empty.

## Model

| member | source | states |
|---|---|---|
| TypedTreeCheck.Check | tools/query-language-evidence.py:174-324 | one pass over a tree returns its type, text, depth and shrink candidates if and only if the type system gives it that type, and otherwise its first fault |
| TypedTreeCheck.CheckBoolean | tools/query-language-evidence.py:254-259 | the same for `TraceAnd` and `TraceOr`, whose argument is a second tree checked after the first |
| Signatures.TypingIsExact | tools/query-language-evidence.py:214-305 | a tree is given a type if and only if the table of constructors, child types, names, matchers, fields and numbers gives it that type |
| Signatures.FaultIsFirst | tools/query-language-evidence.py:183-305 | a refused tree is refused for the first demand it does not meet, its children's first, and a typed one meets them all |
| TypedTreeCheck.Collect | tools/query-language-evidence.py:311-323 | walking a child appends the texts of the right type, below it and its own, children first, skipping those listed |
| TypedTreeCheck.CollectBoth | tools/query-language-evidence.py:310-323 | two children in turn list what one walk over both would |
| TypedTreeCheck.WrapIsHead | tools/query-language-evidence.py:229-282 | type and text of a one-child node follow from the child's type and text alone |
| TypedTreeCheck.BooleanIsHead | tools/query-language-evidence.py:254-259 | type, text and order of faults of a two-child node |
| TypedTreeCheck.BelowIsDescendants | tools/query-language-evidence.py:311-323 | the walk meets exactly the strict descendants |
| TypedTreeCheck.DescendantIsWellTyped | tools/query-language-evidence.py:308-312 | everything below a well-typed tree is well typed, so collecting cannot raise |
| TypedTreeCheck.DescendantIsShallower | tools/query-language-evidence.py:308-309 | every strict descendant is strictly shallower |
| TypedTreeCheck.DepthIsLongest | tools/query-language-evidence.py:308-309 | the depth is the length of the longest chain of children, where a scaled field counts one more |
| TypedTreeCheck.CandidateIsDescendantText | tools/query-language-evidence.py:310-324 | a text is a candidate if and only if some strict descendant of that type prints it |
| TypedTreeCheck.CandidatesAreExact | tools/query-language-evidence.py:308-324 | the candidates are those texts, each once, in first-occurrence order of a children-first walk |
| FirstOccurrence.AppendNewListsFirst | tools/query-language-evidence.py:320-321 | appending what is not listed yet lists each label once, at its first occurrence |
| QueryText.RenderThen | tools/query-language-evidence.py:214-305 | printing in front of a rest is printing and then the rest, for every tree |
| QueryReadsBack.LabelsRead | tools/query-language-evidence.py:183-194 | a printed matcher list reads back, whatever the values quote |
| QueryReadsBack.FieldReads | tools/query-language-evidence.py:196-212 | a printed TraceQL field reads back to its scope, key and scalar type |
| QueryReadsBack.DotMarksAttribute | tools/query-language-evidence.py:212 | a field's text starts with a dot if and only if it is an attribute without a scope |
| Text.QuoteReads | tools/query-language-evidence.py:181 | a JSON string literal reads back to the string it quotes |
| Text.EscapeForm | tools/query-language-evidence.py:181 | a character is escaped if and only if it is a quote, a backslash or a control character, by a letter where JSON has one and by number otherwise |
| Text.IntTextInjective | tools/query-language-evidence.py:218 | different integers print differently |
| Text.DecimalIsText | tools/query-language-evidence.py:218 | any digits without a needless zero in front are how their number is printed |
| Text.IntTextForm | tools/query-language-evidence.py:218 | only a negative number has a sign, and behind it the digits of its size |
| Unambiguous.WellTypedReadsBack | tools/query-language-evidence.py:174-307 | every well-typed tree that is no profile selector reads back as itself and its type, inside any query |
| Unambiguous.SelectorPrints | tools/query-language-evidence.py:260-261 | a profile selector prints its clauses as one list, wherever they came from |
| Unambiguous.PrintedQueryReads | tools/query-language-evidence.py:174-307 | the whole text of any well-typed tree reads back as its type and its tree, up to grouping of profile clauses |
| Unambiguous.FlattenPrints | tools/query-language-evidence.py:260-261 | gathering profile clauses does not change the text |
| Unambiguous.RenderingIsUnambiguous | tools/query-language-evidence.py:174-307 | two well-typed trees print alike if and only if they are the same tree up to that grouping, and then their types agree |
| Unambiguous.ProfileGroupingIsLost | tools/query-language-evidence.py:260-261 | the exception is real: two different selector trees, one text |
| Wire.WriteVarint | tools/fuzz-corpus.py:51-60 | the loop writes the base-128 digits and refuses negative values |
| Wire.VarintReads | tools/fuzz-corpus.py:51-60 | a varint reads back, leaving the rest, if and only if the value is below 2^64 |
| Wire.VarintLength | tools/fuzz-corpus.py:51-60 | a varint has at most k bytes if and only if the value is below 2^(7k) |
| Wire.VarintPrefixFree | tools/fuzz-corpus.py:51-60 | no varint is a prefix of another, of any size |
| Wire.ZigZagValue | tools/fuzz-corpus.py:63-65 | the shifted exclusive-or is 2v or -2v-1 and fits the width |
| Wire.ZigZagReads | tools/fuzz-corpus.py:63-65 | ZigZag is undone if and only if the value is signed of that width |
| Wire.ZigZagOnto | tools/fuzz-corpus.py:63-65 | every unsigned value of the width is the image of a signed one |
| Protobuf.FieldReads | tools/fuzz-corpus.py:91-117 | any field with a number and a payload the wire can carry reads back, leaving the rest |
| Protobuf.MessageReads | tools/fuzz-corpus.py:91-117 | concatenated fields read back in order and nothing else |
| Protobuf.MaskReads | tools/fuzz-corpus.py:103-105 | the 64-bit mask is undone if and only if the value is a signed 64-bit one |
| Protobuf.Int64Reads | tools/fuzz-corpus.py:103-105 | an `int64` field, negative or not, reads back if and only if it fits |
| Protobuf.SintReads | tools/fuzz-corpus.py:95-101 | a `sint32` or `sint64` field reads back if and only if it fits |
| Snappy.LiteralBlock | tools/fuzz-corpus.py:68-88 | the buffer is the length, the literal tag with its trimmed length bytes, and the payload, or an error past 2^32 |
| Snappy.HeaderReads | tools/fuzz-corpus.py:81-86 | every literal length from 1 to 2^32 reads back from its tag |
| Snappy.HeaderLength | tools/fuzz-corpus.py:74-87 | the tag alone holds a length if and only if it is at most 60, and a longer one takes the fewest bytes that hold it |
| Snappy.LiteralReads | tools/fuzz-corpus.py:68-88 | the literal part of every payload of up to 2^32 bytes decodes to the payload |
| Snappy.BlockReads | tools/fuzz-corpus.py:68-88 | a block is written up to 2^32 bytes, and decodes to its payload exactly below that |
| Compact.Writer.constructor | tools/fuzz-corpus.py:135-136 | a writer starts empty |
| Compact.Writer.Field | tools/fuzz-corpus.py:138-145 | appends the header and moves `last`; one byte if and only if the identifier is 1 to 15 past the last |
| Compact.Writer.WriteListHeader | tools/fuzz-corpus.py:147-152 | appends the header; one byte if and only if there are fewer than fifteen elements |
| Compact.Writer.WriteMapHeader | tools/fuzz-corpus.py:154-157 | appends the size and the types; one byte if and only if the map is empty |
| Compact.Writer.WriteBinary | tools/fuzz-corpus.py:159-161 | appends the length and the bytes |
| Compact.Writer.WriteI64 | tools/fuzz-corpus.py:163-164 | appends the ZigZag varint of width 64 |
| Compact.Writer.WriteI32 | tools/fuzz-corpus.py:166-167 | appends the ZigZag varint of width 32 |
| Compact.Writer.Stop | tools/fuzz-corpus.py:169-170 | appends the stop byte |
| Compact.HeaderLengths | tools/fuzz-corpus.py:138-157 | which form of each header is written, so that with what it reads back as every header is determined |
| CompactReads.FieldHeadReads | tools/fuzz-corpus.py:138-145 | a field header in either form gives back type and identifier |
| CompactReads.FieldIdIsExact | crates/traces/src/wire/jaeger/compact_input.rs:36-57 | a header carries its identifier if and only if it fits sixteen bits |
| CompactReads.ListHeadReads | crates/traces/src/wire/jaeger/compact_input.rs:67-95 | a list header in either form reads back when the elements can follow |
| CompactReads.MapHeadReads | crates/traces/src/wire/jaeger/compact_input.rs:97-110 | a map header reads back, and an empty map's types are lost |
| CompactReads.ValueReads | tools/fuzz-corpus.py:123-170 | any well-formed tree decodes to itself, up to the types of empty maps, and the bytes after it are untouched |
| CompactReads.FieldsRead | tools/fuzz-corpus.py:138-145 | a struct's fields read back with the running identifier, from any starting one |
| CompactReads.ValueSkips | crates/traces/src/wire/jaeger/compact_input.rs:161-225 | skipping a value lands exactly behind it if it nests within the limit of 64, and is refused otherwise |
| CompactReads.FieldsSkip | crates/traces/src/wire/jaeger/compact_input.rs:166-217 | the same for a struct's fields |
| CompactReads.AcceptedIsBounded | crates/traces/src/wire/jaeger/compact_input.rs:36-127 | whatever the bytes, accepted numbers fit their width and a collection has a real type and no more elements than bytes are left |
| CompactTrees.WriteValue | tools/fuzz-corpus.py:123-170 | the writer's calls, with a fresh `last` for each struct, spell any well-formed tree |
| CompactTrees.WriteFields | tools/fuzz-corpus.py:138-145 | field by field, from any `last` |
| CompactTrees.WriteThenRead | tools/fuzz-corpus.py:123-170 | writing a tree into a fresh buffer and reading it gives the tree, with nothing left over |
| QueryLoad.ArrivalsFillTheWindow | tools/deployment-envelope.py:604-608 | the loop's indexes are exactly the arrivals inside the window, so its early exit never fires; measured ones start at zero |
| QueryLoad.StepKeepsInv | tools/deployment-envelope.py:560-628 | every step of the scheduler and of every worker keeps the invariant: slots add up, each settled arrival has one record |
| QueryLoad.RunKeepsInv | tools/deployment-envelope.py:560-628 | so it holds in every state of every run |
| QueryLoad.RequestsAreBounded | tools/deployment-envelope.py:610-615 | queued and running requests never exceed the readers, and the scheduler's set does not grow with the run |
| QueryLoad.AdmissionIsExact | tools/deployment-envelope.py:615-624 | an arrival can take a slot if and only if fewer requests than readers hold one, and is turned away for the limit if and only if all do |
| QueryLoad.DropsAreForced | tools/deployment-envelope.py:616-623 | every drop in the records was written for its stated reason: at that step all readers held a slot, or the arrival was late |
| QueryLoad.ReturnedRunIsExact | tools/deployment-envelope.py:560-628 | a run that returns has exactly one record for each measured arrival, a query or a drop, and every slot is free |
| QueryLoad.FixedLoadIsExact | tools/deployment-envelope.py:560-628 | so a load that returns has as many records as arrivals fit its window, and an arrival has one if and only if it is scheduled inside |
| QueryLoad.RunRaisesExactly | tools/deployment-envelope.py:560-628 | a finished run raised if and only if one of its requests did |
| QueryLoad.EveryPatternHappens | tools/deployment-envelope.py:560-628 | with one reader or more, for any set of late arrivals some run drops just those, serves every other one and returns |
| QueryLoad.EveryFailureHappens | tools/deployment-envelope.py:560-628 | for any arrival some run raises because of that one request, all others having been answered |
| QueryLoad.RaisedRunHasDrained | tools/deployment-envelope.py:563-564 | a run raises only after a request did, and still drains and frees every slot |
| QueryLoad.StepMakesProgress | tools/deployment-envelope.py:563-564 | every step uses up part of a finite measure |
| QueryLoad.RunIsShort | tools/deployment-envelope.py:563-564 | no run is longer than eight steps an arrival and three more |
| QueryLoad.NeverStuck | tools/deployment-envelope.py:563-564 | until it returns or raises, some step is possible that does not depend on the clock |
| Drain.TestIsAntitone | tools/deployment-envelope.py:519-528 | a smaller end offset is never refused where a larger one passes |
| Drain.TestMeans | tools/deployment-envelope.py:519-528 | a report passes if and only if it is ready, every consumer has caught up, some partition of a consumer that is read is assigned, and each of those has consumed to the end and committed past it |
| Drain.PassingMeans | tools/deployment-envelope.py:519-528 | so a passing report says just that of the system that made it |
| Drain.Poll | tools/deployment-envelope.py:391-405 | the loop recovers if and only if some reply before the timeout passes, stops at the first, and otherwise keeps the last report |
| Drain.StepKeepsInv | crates/observability/src/wal_consumer_metrics/wal_consumer_metrics_bundle.rs:184-309 | append, flush, delivery, commit, assignment, restart and readiness keep what writers committed durable |
| Drain.RunKeepsInv | crates/observability/src/wal_consumer_metrics/wal_consumer_metrics_bundle.rs:184-309 | in every state of every run |
| Drain.LogOnlyGrows | tools/deployment-envelope.py:393 | what is durable stays, and the log never shrinks |
| Drain.CaughtUpIsLastWord | crates/observability/src/wal_consumer_metrics/wal_consumer_metrics_bundle.rs:184-207 | in every run a role is caught up if and only if the last it heard, of deliveries, assignments and restarts, was an assignment that said so |
| Drain.ConsumedIsLastDelivered | crates/observability/src/wal_consumer_metrics/wal_consumer_metrics_bundle.rs:245-309 | the consumed offset is that of the last delivery since the last restart |
| Drain.CommittedWasConsumed | crates/observability/src/wal_consumer_metrics/wal_consumer_metrics_bundle.rs:211-220 | the committed offset is one past what was consumed at the last commit of an assigned partition, with no restart since |
| Drain.PassingIsDurable | tools/deployment-envelope.py:519-528 | a status that passes means every offset below the end is durable, if only writers were read |
| Drain.DrainIsSafe | tools/deployment-envelope.py:391-405 | a drain that recovers covers everything appended before its end offset was read, whatever is appended later |
| Drain.WaitUntilDurable | tools/deployment-envelope.py:391-405 | the whole drain against a running system: if its loop recovers, the system had caught up to the end offset it read, and every record below that is durable |
| Drain.OtherwiseDrainIsUnsafe | tools/deployment-envelope.py:519-522 | whenever a consumer that is read is no writer, some run passes the test with nothing durable |
| Drain.QuietSystemPasses | tools/deployment-envelope.py:519-528 | once all have caught up and those read have committed the log, the test passes |
| MetricRequest.MetricPrefixes | tools/compare-grafana.py:79-89 | the cache holds, for each series, its encoding with the timestamp cut off |
| MetricRequest.TimestampIsLast | tools/compare-grafana.py:79-89 | the timestamp is the tail of the encoding and only its size matters to the rest |
| MetricRequest.PrefixRefinesSeries | tools/compare-grafana.py:75-89 | prefix and timestamp make the full nested encoding if and only if the timestamp has bytes |
| MetricRequest.SliceIsModular | tools/compare-grafana.py:73-74 | the slice and the modular form pick the same prefix, and the slice never runs past the end, for every sequence |
| MetricRequest.FastBody | tools/compare-grafana.py:71-75 | the fast body is the plain encoding of the thousand samples, for every sequence, cardinality and timestamp |
| MetricRequest.SeriesReads | tools/compare-grafana.py:84-87 | a receiver finds the two labels and the sample, and the timestamp survives as a signed 64-bit value |
| MetricRequest.RequestReads | tools/compare-grafana.py:75-76 | the compressed request decodes to the thousand series in order |
| Stamps.Clock.constructor | tools/compare-grafana.py:46 | no stream has a stamp yet |
| Stamps.Clock.Stamp | tools/compare-grafana.py:65-68 | a stamp is the clock or one past the stream's last, and becomes the last of that stream only |
| Stamps.StampsIncrease | tools/compare-grafana.py:65-68 | per tenant and age stamps strictly increase, for any clock and any interleaving of streams |
| Stamps.HandedAboveLast | tools/compare-grafana.py:65-68 | every stamp is at or past the clock and past the stream's last |
| Stamps.StampsAreTight | tools/compare-grafana.py:65-68 | a stamp passes the clock only as far as the stream's own earlier stamp forces it |
| SeedLedger.EverySeriesIsHit | tools/compare-grafana.py:121-142 | any ceil(c/1000) consecutive sequences reach every series below c |
| SeedLedger.RequestSize | tools/compare-grafana.py:141-144 | one request carries min(1000, c) distinct rows |
| SeedLedger.UniqueRows | tools/compare-grafana.py:141-147 | n requests with distinct stamps carry exactly n times min(1000, c) distinct rows |
| SeedLedger.KeysDiffer | tools/compare-grafana.py:143 | different series have different label sets |
| SeedLedger.CountIsEnough | tools/compare-grafana.py:122 | the request count is the least that carries every series |
| SeedBytes.SeriesIsRow | tools/compare-grafana.py:81-88 | a series of a request, decoded from its bytes, is the row that the ledger expects of it |
| SeedBytes.RequestIsRows | tools/compare-grafana.py:65-78 | a request as it is sent is received as exactly the rows that the ledger expects for its receipt |
| SeedCheck.Consecutive | tools/compare-grafana.py:124-126 | the sort-and-compare test accepts exactly the permutations of a consecutive run |
| SeedCheck.Expected | tools/compare-grafana.py:121-144 | the receipts are accepted if and only if they are those of one complete seed in the window, and then `expected` holds exactly the seed's rows |
| SeedCheck.AddRequest | tools/compare-grafana.py:141-144 | a request adds its rows to `expected` and nothing else |
| SeedCheck.CountRows | tools/compare-grafana.py:147 | the sum over series is the number of rows |
| SeedCheck.ExpectedKeys | tools/compare-grafana.py:151 | valid receipts always give exactly `cardinality` series, so that test never fails |
| SeedCheck.ReadPoints | tools/compare-grafana.py:165-182 | a sample list is accepted if and only if it is not empty, whole milliseconds and in order of time |
| SeedCheck.ReadMatrix | tools/compare-grafana.py:158-183 | the response is read into a map, or refused for a reason that no matching response has |
| SeedCheck.SortPoints | tools/compare-grafana.py:145 | a set of points is listed in order, each once |
| SeedCheck.AscendingIsSorting | tools/compare-grafana.py:181-186 | a list in order of time equals the sorted points if and only if it holds the same points |
| SeedCheck.Compared | tools/compare-grafana.py:186 | the two maps are equal if and only if the response lists exactly the expected rows |
| SeedCheck.MetricsSeedLedger | tools/compare-grafana.py:118-191 | `verified` if and only if the receipts are one complete seed, the envelope is a success and the response lists the seed's rows and no others; row counts as stated |
| Flamegraph.ReadLevel | tools/compare-grafana.py:371-400 | a level is accepted if and only if its numbers stand for well-formed bars, each in exactly one bar above, that end at the total |
| Flamegraph.HasRepeats | tools/compare-grafana.py:359-360 | finds a repeated name if and only if there is one |
| Flamegraph.OneOwner | tools/compare-grafana.py:389-392 | the list of owners has one entry exactly when one bar above holds this one, and gives its path |
| Flamegraph.Decode | tools/compare-grafana.py:350-403 | the response is accepted if and only if it has a meaning, and gives that meaning |
| Flamegraph.DecodesOnce | tools/compare-grafana.py:350-403 | a response has at most one meaning |
| FlamegraphRoundTrip.LevelIsDisjoint | tools/compare-grafana.py:376-398 | the bars of an accepted level have width and do not overlap |
| FlamegraphRoundTrip.OwnersAreFew | tools/compare-grafana.py:389-391 | over such a level no bar has two owners, so the test only ever refuses a bar with none |
| FlamegraphRoundTrip.AcceptedIsNested | tools/compare-grafana.py:350-403 | in every accepted response each level is nested in the one above |
| FlamegraphRoundTrip.EncodeDecodes | tools/compare-grafana.py:350-403 | any positive weights on ten leaves, any name table and any sibling order decode to the same sorted stacks, total and maximum |
| FlamegraphRoundTrip.OrderIsNoIdentity | tools/compare-grafana.py:351-352 | two responses for the same leaves decode alike, whatever the order of their siblings and names |
| FlamegraphShape.AcceptedMeans | tools/compare-grafana.py:350-403 | a response decodes if and only if it is a root, a parent and ten leaves inside it, no name listed twice or unused, the largest own part announced; then it means its own parts |
| FlamegraphShape.StacksAreOwnParts | tools/compare-grafana.py:394-403 | the stacks are those of the parent and of each leaf that has an own part, and no others, in order of path and weight |
| LogPacking.BySeries | tools/compare-grafana.py:432-435 | groups the streams by series, each list in order and none missing |
| LogPacking.CountEntries | tools/compare-grafana.py:438 | counts the distinct entries of a series |
| LogPacking.Pack | tools/compare-grafana.py:430-447 | raises if and only if one series alone passes the limit; otherwise the groups are whole series in label order, none empty, none over the limit, none able to take the next series |
| Ordering.StringLeMeans | tools/compare-grafana.py:437 | labels sort by the first character in which they differ, a prefix first |
| LogLedger.NeighboursOverflow | tools/compare-grafana.py:441-443 | any two consecutive groups together exceed the limit |
| LogLedger.GreedyIsFewest | tools/compare-grafana.py:436-447 | no way of cutting the sorted series into runs that fit uses fewer queries |
| LogLedger.OneQueryEach | tools/compare-grafana.py:431-447 | every stream is in the query of its series, and that series is in no other |
| LogLedger.QueryRows | tools/compare-grafana.py:438-445 | a query holds at least the rows its series were counted at, and exactly those if and only if none of its series has one entry under two label sets |
| LogLedger.QueriesKeepTheLimit | tools/compare-grafana.py:436-447 | every query of every packing keeps its limit, whatever the limit, if and only if no series has one entry under two label sets |
| LogLedger.SeriesRows | tools/compare-grafana.py:438 | counting a series' entries never counts too many rows, and counts them all if and only if no entry of it has two label sets |
| LogLedger.MixedLabelsPassTheLimit | tools/compare-grafana.py:438-445 | a series with one entry under two label sets, whose query holds more rows than the limit |
| LogLedger.LogSeedLedger | tools/compare-grafana.py:406-427 | `verified` if and only if the response lists the query's rows, each once, no stream twice or empty, newest first, within the limit |
| LogLedger.NewestFirst | tools/compare-grafana.py:422-424 | comparing with the reverse sort accepts exactly the descending lists |
| LogLedger.AugmentAdds | tools/compare-grafana.py:408-410 | two labels are added with fixed values, whatever the seed had, and no other changes |
| LogLedger.ListedAre | tools/compare-grafana.py:411-416 | the observed rows are every entry of every stream under its labels, counted with repeats |
| LogLedger.VerifiedIsWhole | tools/compare-grafana.py:856-877 | if every query verifies, the rows observed over all of them are exactly the seeded rows |
| LogLedger.VerifiedCounts | tools/compare-grafana.py:856-877 | their counts add up to the rows as the responses show them, and to the seeded rows if and only if no two of those are shown alike |
| LogLedger.LabelsKeepRowsApart | tools/compare-grafana.py:856-877 | which holds whenever no entry has two label sets |
| MutantsLog.TotalsRead | tools/mutants-ratchet.py:81-84 | the reader recovers the printed totals, and no totals at all from a line that shows a negative number |
| MutantsLog.TotalsMatch | tools/mutants-ratchet.py:81-84 | a line is read if and only if the pattern matches all of it, whatever blanks are around it, and as the numbers it spells |
| MutantsLog.MissedMatches | tools/mutants-ratchet.py:85 | a line counts as missed if and only if the mark comes first in it, behind any blanks |
| MutantsLog.LinesJoin | tools/mutants-ratchet.py:81-85 | the lines are the text cut at its newlines |
| MutantsLog.LabelLines | tools/mutants-ratchet.py:407-411 | the printed labels read as that many MISSED lines and no totals line |
| MutantsLog.ShardReads | tools/mutants-ratchet.py:145-173 | a printed shard reads back as its numbers, or as a fault when one is negative |
| MutantsLog.ShardMeans | tools/mutants-ratchet.py:145-173 | a shard is believed if and only if exactly one line is a totals line, its numbers add up, and as many lines are marked as it says |
| MutantsLog.FaultMeans | tools/mutants-ratchet.py:147-157 | without a single totals line the fault is the first that applies of deadline, refusal and no totals |
| MutantsLog.LabelsDiffer | tools/mutants-ratchet.py:407-411 | labels of different numbers are different |
| MutantsRatchet.NameReads | tools/mutants-ratchet.py:93 | a shard directory's name shows its width |
| MutantsRatchet.WidthMatches | tools/mutants-ratchet.py:93 | a directory shows a width if and only if its name matches the pattern and ends in that number |
| MutantsRatchet.NamesDiffer | tools/mutants-ratchet.py:414 | shards of a sweep have different directories |
| MutantsRatchet.ReadSweep | tools/mutants-ratchet.py:176-241 | totals are given if and only if every shard reads, the widths agree with the logs and the declaration, and there are mutants; they are the sums, and otherwise the faults are all that speak against the sweep |
| MutantsRatchet.TrustedPermutes | tools/mutants-ratchet.py:193-198 | the order in which the logs are listed does not matter |
| MutantsRatchet.TrustedAddsUp | tools/mutants-ratchet.py:158-170 | believed totals add up, and the missed are the survivors the logs name |
| MutantsRatchet.EveryShardLeftALog | tools/mutants-ratchet.py:200-220 | a trusted sweep of distinct directories has a log of every shard of a width if and only if every directory is a shard of that width, numbered within it |
| MutantsRatchet.UnshardedLogPasses | tools/mutants-ratchet.py:203-220 | one log whose directory has no number is trusted for every declared width, and no shard left it |
| MutantsRatchet.UnshardedLogHidesAShard | tools/mutants-ratchet.py:203-220 | beside a numbered log, it stands in for a shard that left none |
| MutantsRatchet.StrayDirectoryHidesAShard | tools/mutants-ratchet.py:200-220 | a trusted sweep in which a shard left no log |
| MutantsRatchet.AllAreDealt | tools/mutants-ratchet.py:401-402 | round-robin shares add up to the count, negative ones too |
| MutantsRatchet.SyntheticSweep | tools/mutants-ratchet.py:389-418 | the loop writes one log a shard, with its share of each count and its labels numbered on |
| MutantsRatchet.LabelsAreUnique | tools/mutants-ratchet.py:403-411 | label numbers of different shards do not meet, and run to the number missed |
| MutantsRatchet.SweepReads | tools/mutants-ratchet.py:176-241 | reading a synthetic sweep gives exactly the totals written, if and only if they are totals of a sweep of the declared width |
| MutantsRatchet.Judge | tools/mutants-ratchet.py:319-337 | incomplete exactly when the sweep is not trusted, pass exactly when the crate is listed and its survivors are within its number, if it has one |
| MutantsRatchet.Overall | tools/mutants-ratchet.py:340-346 | a run passes exactly when all crates do, and is incomplete as soon as one is |
| MutantsRatchet.Present | tools/mutants-ratchet.py:446-453 | writing, listing, reading and judging a sweep comes out as its numbers say |
| MutantsRatchet.ProveGate | tools/mutants-ratchet.py:421-463 | for any crate named, the proof succeeds if and only if the record is a sweep of the declared shards whose survivors equal the seeded baseline |
| BenchRatchet.Gate | tools/bench-ratchet.py:310-379 | every measured benchmark gets its class |
| BenchRatchet.Classify | tools/bench-ratchet.py:341-372 | a regression if and only if over budget and measured tightly, noisy if and only if over budget and not, a pass if and only if not over budget |
| BenchRatchet.VerdictMeans | tools/bench-ratchet.py:382-399 | a run is a regression if and only if some benchmark is over budget and tight, and a pass if and only if none is over budget |
| BenchRatchet.Exit | tools/bench-ratchet.py:115-121 | only a pass exits with zero and only a regression with one |
| BenchRatchet.SlowerIsNeverBetter | tools/bench-ratchet.py:341-357 | a slower mean never improves a class, and a looser tolerance never catches more |
| BenchRatchet.Worst | tools/bench-ratchet.py:382-384 | the result is among the classes, none ranks higher, and an empty run passes |
| BenchRatchet.Judge | tools/bench-ratchet.py:387-399 | incomplete if and only if the run did not measure exactly what the baseline lists, readably and not nothing; otherwise the verdict is what the numbers say |
| BenchConfirm.ConfirmPlan | tools/bench-ratchet.py:452-472 | raises if and only if a regressed entry has no ratio; otherwise plan and skipped part the regressed, the plan holds the limit worst of those that can be rerun, by target, and both are worst first |
| BenchConfirm.EligibleMeans | tools/bench-ratchet.py:466-467 | an id can be rerun if and only if it matches the id pattern and some target defines the group before its first slash |
| BenchConfirm.TargetIsGroup | tools/bench-ratchet.py:235-245 | a target named after its group covers exactly the ids of that group |
| BenchConfirm.RecordedThreshold | tools/bench-ratchet.py:587-598 | a recorded threshold is the one used, and a different one is refused; without one it is the given, or else the default |
| BenchConfirm.Confirm | tools/bench-ratchet.py:526-584 | from a regression it never passes; it is variance if and only if all regressed ids were rerun and none was tight and over budget again, and a regression if and only if one that was rerun was |
| BenchConfirm.VarianceIsSound | tools/bench-ratchet.py:564-572 | variance means every id was measured again without regressing, if and only if the baseline lists every id |
| BenchConfirm.UnlistedEscapes | tools/bench-ratchet.py:266-271 | an id neither listed nor measured is not missed |
| BenchConfirm.SameBaselineIsSound | tools/bench-ratchet.py:526-584 | with one baseline for both runs, each first regression was measured again and did not regress |
| SoakEnvelope.Phase | tools/soak-gate.py:509-543 | the level is the last of the longest prefix of the sorted levels that every run met, the first failing level is the next, the bound says which; least and mean are those of the rates accepted there |
| SoakEnvelope.Statistics | tools/soak-gate.py:526-540 | the least rate is one of them and below none, and the mean times their number is their sum |
| SoakEnvelope.SortedLevels | tools/soak-gate.py:516 | the union of levels in strictly ascending order |
| SoakEnvelope.LevelsAreLast | tools/soak-gate.py:515 | a run's levels are those its entry lists, the later listing of two |
| SoakEnvelope.LevelIsHighest | tools/soak-gate.py:456-461 | the level is the highest such that every run met it and everything tried below it; the first failing is the lowest that some run missed |
| SoakEnvelope.MoreRunsNeverRaise | tools/soak-gate.py:456-461 | more runs never raise the level nor the first failing level |
| SoakEnvelope.MoreReportsNeverRaise | tools/soak-gate.py:456-545 | nor do more reports, in any signal and phase of two envelopes |
| SoakEnvelope.SameEnvelope | tools/soak-gate.py:462-498 | accepted if and only if there are three runs or more, no run twice, one setup, and every other phase met its objectives |
| SoakEnvelope.Envelope | tools/soak-gate.py:456-545 | there is a result if and only if the runs are of one envelope, and it has level, bound and rates of every signal and stepped phase |
| SourceMask.Mask | tools/query-language-inventory.py:90-124 | the loop over the character buffer computes the mask, and raises exactly when a comment or literal does not end |
| SourceMask.QuoteEndsFirst | tools/query-language-inventory.py:104-116 | stepping over escapes in pairs stops at the first quote after an even number of backslashes, and raises if there is none |
| SourceMask.FindQuoteEnd | tools/query-language-inventory.py:106-116 | the inner loop finds that end |
| SourceMask.FindBlockEnd | tools/query-language-inventory.py:99-103 | finds the end of a block comment |
| SourceMask.BlockEnd | tools/query-language-inventory.py:99-103 | the end is after the first closing mark, and there is none when it fails |
| SourceMask.LineEnd | tools/query-language-inventory.py:96-98 | the end is the first newline, or the end of the text |
| SourceMask.TokenMeans | tools/query-language-inventory.py:92-116 | text is hidden from a quote or a comment opener only, up to the end that its kind has, and masking raises if and only if there is none |
| SourceMask.MaskKeeps | tools/query-language-inventory.py:117-123 | length and newlines stay, and every other character stays or is blank |
| SourceMask.MaskShows | tools/query-language-inventory.py:90-124 | from any offset, a character is blanked if and only if it lies in a comment or literal that the scan meets, and is the source's own otherwise |
| SourceMask.MaskIsClean | tools/query-language-inventory.py:91 | the mask holds no quote and no comment opener |
| SourceMask.CleanStays | tools/query-language-inventory.py:90-124 | text without quotes and openers is its own mask |
| SourceMask.MaskIsIdempotent | tools/query-language-inventory.py:90-124 | a mask is the source with exactly the comments and literals blanked, and masking it succeeds and changes nothing |
| SourceBlocks.FindClose | tools/query-language-inventory.py:130-136 | finds the brace that balances the block, or there is none |
| SourceBlocks.ClosesOnce | tools/query-language-inventory.py:130-134 | a block closes in one place only |
| SourceBlocks.DepthCounts | tools/query-language-inventory.py:130-134 | the depth is the opening braces less the closing ones |
| SourceBlocks.Blocks | tools/query-language-inventory.py:127-137 | one block for each start in the mask, in order, with its name and the source between its balanced braces; raises exactly when masking does or a block does not close |
| SourceBlocks.StartMeans | tools/query-language-inventory.py:129 | a block starts at a place if and only if the pattern matches there: line start, kind, spaces, name, spaces, brace |
| SourceBlocks.EveryStartIsFound | tools/query-language-inventory.py:129 | going on after each match finds every place where a start matches, and no other |
| SourceBlocks.StartsDoNotOverlap | tools/query-language-inventory.py:129 | since no start matches inside another |
| GrammarReach.PublicGrammar | tools/query-language-inventory.py:207-231 | the worklist ends, raises exactly without an entry production, and returns the least closed set of nonterminals with its productions and terminals |
| GrammarReach.LeastIsWalkable | tools/query-language-inventory.py:211-220 | that set is exactly what can be reached from the entry, production by production |
| GrammarReach.RerunAgrees | tools/query-language-inventory.py:223-231 | running again on the recorded input gives the same surface, whatever the order of the sets |
| GrammarReach.SurfaceMeans | tools/query-language-inventory.py:221-231 | the surface lists the left sides not reached, the identifier of each production of a reached name, and the terminals on their right |
| GrammarReach.SelectedIsEnough | tools/query-language-inventory.py:221 | from the selected productions alone the entry reaches the same nonterminals |
| GrammarReach.Extend | tools/query-language-inventory.py:218-220 | a round adds the name's nonterminals that are not reached yet, and no others |
| GrammarReach.RequestMessages | tools/query-language-inventory.py:373-397 | raises exactly when a request is no message; otherwise the least closed set of messages and exactly the enums they name |
| GrammarReach.ReadFields | tools/query-language-inventory.py:382-392 | one message's fields, resolved, split into messages and enums |
| Replacement.LocateMeans | tools/verify-mutants.py:107-130 | the tool finds a span if and only if it starts at the only, or the counted, occurrence of the marker and ends with the first brace after it that closes at the marker's depth; otherwise it stops |
| Replacement.PatchIsOneReplacement | tools/verify-mutants.py:43-51 | a patch that applies is one replacement inside the span, and nothing else changes |
| Replacement.CountOne | tools/verify-mutants.py:45-46 | a case applies if and only if its text occurs and every occurrence overlaps the first |
| Replacement.EmptyGuard | tools/verify-mutants.py:45-46 | an empty text applies to an empty body only |
| Replacement.GuardIsExact | tools/verify-mutants.py:45-46 | for a text without a border the case applies if and only if the text appears exactly once |
| Replacement.GuardMisses | tools/verify-mutants.py:45-46 | for any text with a border some body has it twice and passes the guard |
| MutantVerifier.StepKeepsInv | tools/verify-mutants.py:75-145 | every atomic file step, interrupt, kill and start keeps the source in the file or the backup |
| MutantVerifier.SourceIsKept | tools/verify-mutants.py:78-144 | after any sequence of starts, interrupts and kills the original is in the file or in the backup |
| MutantVerifier.BaselineIsSource | tools/verify-mutants.py:78-88 | every run that reads a baseline reads the original |
| MutantVerifier.TestedIsOneReplacement | tools/verify-mutants.py:131-139 | every source under test is the original with one replacement inside the named function |
| MutantVerifier.FinallyRestores | tools/verify-mutants.py:140-144 | the `finally` leaves the original and no backup |
| MutantVerifier.InterruptRestores | tools/verify-mutants.py:131-144 | an interrupt while cases are tried leads to the original and no backup |
| MutantVerifier.KillKeeps | tools/verify-mutants.py:78-144 | a kill at any point leaves the source in the backup, or in the file with no backup |
| MutantVerifier.RestartRecovers | tools/verify-mutants.py:83-88 | after any kill a start restores the original before it reads |
| MutantVerifier.UndisturbedRun | tools/verify-mutants.py:75-145 | a run that nothing stops has in the file, each time it tests, exactly the patches that apply, in order, and ends as it began |
| MutantVerifier.TestedAre | tools/verify-mutants.py:131-139 | one source for each case that applies, in the order of the cases |
| MutantVerifier.Files.Verify | tools/verify-mutants.py:75-145 | a whole run tests exactly the patches that apply and leaves its baseline in place with no backup |

## Left out

- Wrong JSON shapes and types: parsed values are datatypes, with one constructor for what is malformed where the code tells it apart.
- Floats: measurements are reals and `ceil(c / 1000)` is exact; the eight bytes of a double are a parameter.
- Regular expressions beyond the ones modelled as readers and block starts: function registries and grammar productions are taken as found, and in a block start `\s` is the six ASCII spaces and `\w` the ASCII word characters.
- Clocks: whether an arrival is late, and which replies come before a timeout, is given rather than computed.
- SHA-256, Docker, Compose, subprocesses, HTTP, sockets, archives and argument parsing.
- Self-tests, annotations and JSON writing.
- `Binary`, the older Thrift writer, and the corpus seeds themselves, which are fixed trees and lists of fields.
- The Rust cursor that the compact reader wraps: the reader is modelled on the bytes still to be read.
- `run_queries` outside fixed mode, and `summarize_queries`; in fixed mode the scheduler's look at its finished requests is one step.
- The trace and profile ledgers, which check shapes rather than compute.
- The soak gate's own ratchet over one report, which is a comparison per metric.
- Edits that someone makes to a source file while a stale backup of it exists, and file operations that stop halfway.
- The selector text and time range of a packed log query.
- `mapped_inventory`, `typed_equal`, `subset_matches`, `thin`, `quantiles` and `cost`, which are single folds or comparisons.
- SoakEnvelope.Phase: does not model the coefficient of variation of the rates, which takes a square root.
- MutantsLog.ShardReads: takes a crate's name that a line of the baseline file can hold, since the proof of the gate stops at any other before it writes a sweep.
