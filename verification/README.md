# chimes-utils: a verified model of its stateful core

This project models five pieces of `chimes-utils` in Dafny and proves what they promise, for all
inputs and over all runs:

- the SQL builder `DynamicWrapper` and the translator `rbatis_compatible_sql`, which lead to
  Postgres SQL by two routes (build with `$k`, or build with `?` and translate), and the filter
  compiler `CommonSearch` that calls the builder;
- the periodic task queue with its worker, as an object and as a state machine;
- the process-wide cache with expiring entries and its sweep;
- the positional codecs with the random strings made of them, and the query-string parser with the
  percent-encoding that undoes it;
- the proxy registry, a list per application that is kept as if it were a map.

## How it is built

| file | contents |
|---|---|
| `Text.dfy`, `Drivers.dfy` | the string operations and library parts the code calls |
| `Translator.dfy` | the `?` to `$k` loop and its laws |
| `Builder.dfy` | what each builder call means, as a function on states |
| `DynamicWrapper.dfy` | the builder object; every method is one step of `Builder.Apply` |
| `Written.dfy` | what each call writes and binds, in literal text |
| `TwoRoutes.dfy`, `RoutesExact.dfy` | the two routes agree, and exactly when |
| `Binding.dfy` | every value is bound in its own place |
| `Shape.dfy` | decisions read off the end of the text refine a chain of operands and links |
| `References.dfy`, `Numbering.dfy` | the placeholders of built SQL, read back |
| `Splice.dfy`, `Rounds.dfy` | `push`: a loop of textual replacements against a renumbering |
| `SpliceSafety.dfy` | when splicing keeps the two routes together |
| `Inlining.dfy` | a reference builder that writes values straight into the text |
| `Nesting.dfy` | programs that splice builders made by such programs, to any depth |
| `CommonSearch.dfy`, `Filters.dfy` | filter lists compiled to builder calls; what each operator word writes |
| `ProcessQueue.dfy`, `Scheduler.dfy`, `TaskSpacing.dfy` | the queue, the worker's runs, their timing |
| `AppData.dfy`, `Codec.dfy`, `QueryString.dfy`, `ProxyRegistry.dfy` | the other pieces |

Objects that the code updates in place are classes; their methods keep the loops of the code and are
proved equal to the specification functions that the lemmas are about. `dafny verify dfyconfig.toml`
checks everything.

## Where the code does not do what it seems to promise

Each of these is kept as the code has it, with a lemma at a concrete input and one that gives the
exact condition:

- `push` and `push_wrapper` renumber by replacing `$1`, then `$2`, and so on, in the text. Two
  arguments spliced onto one already give `$3,$3` (`SpliceSafety.TwoOntoOneCollides`). The loop knows
  nothing of where a placeholder comes from, so a column called `$1` is moved too
  (`SpliceSafety.OwnDollarCollides`), and a literal such as `'$10'` changes
  (`SpliceSafety.LiteralChanges`). For every fragment the splice is right exactly when a reading of its
  `?` text from the left, `SpliceRight`, meets nothing that another round touches
  (`SpliceSafety.SpliceAgreesExactly`). For a fragment whose Postgres placeholders read as `$1` to `$m`
  that is a matter of the counts alone: `SpliceSafe(m, n)` for `m` arguments spliced onto `n`
  (`SpliceSafety.SpliceRightInOrder`).
- A format that puts a digit right after its `{}` makes a placeholder run on, so `{}0` yields `$10`
  for the first argument (`Numbering.DigitAfterHoleMisreads`). The numbering is right exactly when
  each format used holds one `{}` and no digit after it (`Numbering.NumberingExact`). The builder's
  documentation shows `?` in the SQL of a Postgres builder; the code
  writes `$k`, and the model follows the code.
- The worker reads the clock before it takes the lock. An entry added in between with a later stamp
  makes the unsigned difference wrap, and it fires at once (`TaskSpacing.LateTaskFiresAtOnce`).
  Dispatches are spaced exactly when no pass meets such an entry, which can be told from the events
  alone (`TaskSpacing.SpacingExact`).
- The sweep takes entries at their expiry and entries of lifetime zero, which a read would still
  return. Eleven inserts are enough (`AppData.SweepTakesLiveEntry`), and `AppData.ReadsDifferExactly`
  says of every run when a read differs from that of a map that is never swept.
- `parse_query` indexes out of bounds on a segment without `=`, so a trailing `&` is enough
  (`QueryString.TrailingAmpersandFails`, `QueryString.FailsExactly`). Keys are not encoded, so one
  that holds a separator is lost (`QueryString.SeparatorKeyIsLost`); the round trip holds exactly for
  keys without `&` and `=` (`QueryString.RoundTripExact`).
- In `CommonSearch`, `egt` is compiled to `>`, and a range value without a comma is an index out of
  bounds (`CommonSearch.OperatorSurprises`, `CommonSearch.PanicExactly`).

`like_left` and `like_right` bind the same pattern as `like`; the model keeps that too.

## Assumptions

- `stmt_convert` gives `?` for MySQL and SQLite, `$` and the index plus one for Postgres, and a
  numbered form for SQL Server; the keywords are the lower-case words with the usual blanks around
  them. White space is Unicode's White_Space. rbatis itself is not part of this model.
- `CommonSearch` calls rbatis's own `Wrapper`; the model takes the methods of `DynamicWrapper` as the
  contract of that interface. The library parsers of integers, floats and dates are parameters.
- One worker, and fresh identifiers for added tasks. A pass is one step, because the read lock keeps
  `queue_add` and `queue_remove` out; each removal after it is a step of its own, and other steps may
  fall between. The 64-bit subtraction wraps, as it does without overflow checks.
- A placeholder is a `$` with the digits after it, wherever it stands. Quotes, dollar quotes and
  comments of Postgres are not read; the code does not read them either.
- Clocks and random draws are parameters.

## Model

| member | source | states |
|---|---|---|
| Text.SplitExactly | src/utils/mod.rs:196-213 | splitting gives the parts that hold no separator and, with it between them, make up the text |
| Text.DecExactly | src/utils/mod.rs:205 | the decimal numeral of n is the one without leading zero that stands for n |
| Translator.CompatibleSql | src/utils/mod.rs:193-219 | the split-and-push loop numbers the k-th `?` as `$k` for Postgres and returns the text unchanged for every other or unreadable driver |
| Translator.NumberedConcat | src/utils/mod.rs:196-213 | the translation is a numbered homomorphism: the second half goes on counting after the marks of the first |
| Translator.NumberedHasNoMark | src/utils/mod.rs:196-213 | no `?` survives translation |
| Translator.NumberedIdempotent | src/utils/mod.rs:172-186 | translating twice, as the SQL interceptor may, is translating once |
| Translator.DenumberedNumbered | src/utils/mod.rs:196-213 | a decoder that expects `$1`, `$2`, ... in turn recovers every `$`-free source exactly |
| Translator.NumberedTrimEndMatches | src/utils/rbatis_dynamical.rs:377-383 | stripping a keyword as often as it is there commutes with translation and loses no mark |
| TwoRoutes.SameVerdict | src/utils/rbatis_dynamical.rs:250-271 | the builder's decision about the end of its text is the same before and after translation |
| TwoRoutes.MarkedBase | src/utils/rbatis_dynamical.rs:250-455 | what a call leaves of the text does not depend on the numbers at its marks, and no mark is lost |
| TwoRoutes.NumberedReplace | src/utils/rbatis_dynamical.rs:332-337 | for a `?`-free format with at most one `{}`, formatting and then numbering is formatting with the number |
| TwoRoutes.StepAgrees | src/utils/rbatis_dynamical.rs:273-875 | one clean call takes agreeing `?` and `$` states to agreeing states |
| TwoRoutes.RoutesCommute | src/utils/rbatis_dynamical.rs:250-875 | for every program of clean calls, the translated `?` SQL is the `$` SQL character for character, with the same arguments |
| RoutesExact.StepAgreesExactly | src/utils/rbatis_dynamical.rs:273-875 | from any agreeing states a call keeps the agreement if and only if its names and formats hold no `?` and each format used holds exactly one `{}` |
| RoutesExact.RunIsMarked | src/utils/rbatis_dynamical.rs:250-875 | for every program whose names and formats hold no `?`, the `$` text is the `?` text with, at every mark, the number of the argument of its hole |
| RoutesExact.RoutesCommuteExactly | src/utils/rbatis_dynamical.rs:250-875 | from any agreeing states a program ends in agreement if and only if every call of it is clean: nothing makes up for a call that is not |
| Binding.FillFormat | src/utils/rbatis_dynamical.rs:332-337 | filling the argument into a formatted placeholder puts the value where the format's `{}` was |
| Binding.StepBinds | src/utils/rbatis_dynamical.rs:273-875 | with arguments filled in: a call leaves every earlier value in place, cuts only plain text at the ends, adds at most a connective, and appends its own text with each value in its own column's hole |
| Inlining.FillVerdict | src/utils/rbatis_dynamical.rs:250-271 | the decision about the end of the text is that of a builder that sees values where the placeholders are |
| Inlining.StepInlines | src/utils/rbatis_dynamical.rs:273-875 | one clean call with the arguments filled in is one call of a builder that writes the values straight into its text |
| Shape.TextTellsOpen | src/utils/rbatis_dynamical.rs:250-271 | reading the end of the text says exactly whether the chain of operands and links is open |
| Shape.FormatCloses | src/utils/rbatis_dynamical.rs:332-354 | whether a formatted placeholder closes an operand does not depend on the database or the number |
| Shape.TextIsChain | src/utils/rbatis_dynamical.rs:250-330 | for every program of conditions, on every database, the text is operands with one link between them, at most one dangling, never two in a row |
| Shape.OrStays | src/utils/rbatis_dynamical.rs:282-288 | an `or` followed by a condition stays an `or`; the condition adds no `and` |
| Shape.SortingCutsDangling | src/utils/rbatis_dynamical.rs:371-399 | sorting after any conditions cuts exactly a dangling connective, or else trailing blanks, and appends the keys |
| DynamicWrapper.DynamicWrapper.And | src/utils/rbatis_dynamical.rs:273-280 | adds ` and ` unless the end of the text forbids it |
| DynamicWrapper.DynamicWrapper.Or | src/utils/rbatis_dynamical.rs:282-288 | adds ` or ` unless the end of the text forbids it |
| DynamicWrapper.DynamicWrapper.Having | src/utils/rbatis_dynamical.rs:290-299 | the specified `having` step on the builder state |
| DynamicWrapper.DynamicWrapper.Bind | src/utils/rbatis_dynamical.rs:332-354 | appends the next placeholder in the column's format and then the argument, numbering by the arguments bound so far |
| DynamicWrapper.DynamicWrapper.Compare | src/utils/rbatis_dynamical.rs:339-514 | the six comparators as one specified step: link, column, sign, placeholder, argument |
| DynamicWrapper.DynamicWrapper.Between | src/utils/rbatis_dynamical.rs:516-590 | the two-step `between` and `not between`, the second placeholder numbered after the first argument is bound |
| DynamicWrapper.DynamicWrapper.Like | src/utils/rbatis_dynamical.rs:592-710 | the `like` family with the pattern it binds |
| DynamicWrapper.DynamicWrapper.IsNull | src/utils/rbatis_dynamical.rs:712-727 | the null tests, which bind nothing |
| DynamicWrapper.DynamicWrapper.PushItems | src/utils/rbatis_dynamical.rs:745-755 | the item loop with its trailing comma taken back is the comma-separated list, one placeholder and one argument per item in order |
| DynamicWrapper.DynamicWrapper.InArray | src/utils/rbatis_dynamical.rs:729-804 | `in` and `not in`; an empty list changes nothing |
| DynamicWrapper.DynamicWrapper.AllEq | src/utils/rbatis_dynamical.rs:301-330 | the comparators called inside the parentheses add no connective of their own; an empty argument leaves just the `and` |
| DynamicWrapper.DynamicWrapper.OrderBys | src/utils/rbatis_dynamical.rs:401-429 | cuts blanks and dangling keywords off the end, then appends the comma-separated keys |
| DynamicWrapper.DynamicWrapper.OrderBy | src/utils/rbatis_dynamical.rs:371-399 | `order_by` is `order_bys` with one direction for all columns |
| DynamicWrapper.DynamicWrapper.GroupBy | src/utils/rbatis_dynamical.rs:431-455 | trims both ends, cuts dangling keywords, then appends the columns |
| DynamicWrapper.DynamicWrapper.Limit | src/utils/rbatis_dynamical.rs:866-875 | appends the limit in decimal |
| DynamicWrapper.DynamicWrapper.Push | src/utils/rbatis_dynamical.rs:94-131 | the replacement loop and the append of text and arguments, for every driver |
| DynamicWrapper.DynamicWrapper.Perform | src/utils/rbatis_dynamical.rs:273-875 | every kind of call on the object is the step of that call on the builder state |
| Written.AwaitsExactly | src/utils/rbatis_dynamical.rs:250-271 | no connective is added exactly where, but for trailing white space, the text is empty or ends in a listed keyword or character |
| Written.ConnectiveWritten | src/utils/rbatis_dynamical.rs:273-288 | `and` and `or` append their own word there and nowhere else, and bind nothing |
| Written.ComparisonWritten | src/utils/rbatis_dynamical.rs:339-514 | each of the six comparisons writes the column, its own sign and the next placeholder in the column's format, and binds the value |
| Written.SignReads | src/utils/rbatis_dynamical.rs:339-514 | the sign written, read as a relation on integers, is the comparison that was asked for |
| Written.BetweenWritten | src/utils/rbatis_dynamical.rs:516-590 | the text of `between` and `not between` with two placeholders in order, and the two values bound |
| Written.LikeWritten | src/utils/rbatis_dynamical.rs:592-710 | `like` binds the shown value and a `%`, `not like` one before it too |
| Written.NullTestWritten | src/utils/rbatis_dynamical.rs:712-727 | the text of the two null tests |
| Written.InArrayWritten | src/utils/rbatis_dynamical.rs:729-804 | the text of the two lists, one numbered placeholder for each value, and the values bound in order |
| Written.AllEqWritten | src/utils/rbatis_dynamical.rs:301-330 | equations joined by ` and ` in one pair of parentheses, values bound in order |
| Written.OrderByWritten | src/utils/rbatis_dynamical.rs:401-429 | exactly trailing blanks and then `where`s, `and`s and `or`s go, and the keys follow with their directions |
| Written.GroupByWritten | src/utils/rbatis_dynamical.rs:431-455 | the same, and leading blanks go; the columns follow |
| Written.NothingToSort | src/utils/rbatis_dynamical.rs:401-455 | without keys or columns nothing changes |
| Written.HavingWritten | src/utils/rbatis_dynamical.rs:290-299 | the keyword and the condition, linked by `and` |
| Written.LimitWritten | src/utils/rbatis_dynamical.rs:866-875 | the keyword and the decimal numeral between blanks, with no connective |
| References.RefsOfMapRefs | src/utils/rbatis_dynamical.rs:114-122 | changing the numerals of a text changes exactly the placeholders that are read back, in order |
| References.RefsCounted | src/utils/mod.rs:196-213 | a translated text shows one placeholder for each mark and one for each that the source had |
| References.RefsNumbered | src/utils/mod.rs:196-213 | for every text: the placeholders of its translation are exactly consecutive numbers, one for each mark, if and only if the source shows none of its own and no digit directly follows a `?` |
| Numbering.NumberingExact | src/utils/rbatis_dynamical.rs:273-875 | from any Postgres state whose placeholders are in order and for every program of calls with no `$` directly before a digit in their names and formats: the placeholders are again exactly `$1` to `$n` with n arguments, if and only if every format used holds exactly one `{}` with no digit after it |
| Numbering.RefsOfRun | src/utils/rbatis_dynamical.rs:273-875 | a program of such calls leaves the earlier placeholders alone and writes those of its own holes behind them, read with any digits that run on |
| Numbering.DigitAfterHoleMisreads | src/utils/rbatis_dynamical.rs:332-337 | the format `{}0` breaks the numbering |
| Splice.ReplaceIsMapRefs | src/utils/rbatis_dynamical.rs:121 | for every text, one textual replacement of `$k` is a change of the numerals that start with k, and of nothing else |
| Splice.ShiftedIsMapRefs | src/utils/rbatis_dynamical.rs:114-122 | for every text, the whole loop changes each placeholder's numeral by a chain of such hits |
| Rounds.RoundsExactly | src/utils/rbatis_dynamical.rs:114-122 | the placeholder v, with any digits right behind it, ends as v+n with those digits exactly when no other round hits it; otherwise it ends strictly too big |
| Rounds.RoundsLeave | src/utils/rbatis_dynamical.rs:114-122 | any other numeral is left as it is exactly when no round hits it; otherwise it ends strictly too big |
| Rounds.ShiftExact | src/utils/rbatis_dynamical.rs:107-124 | for every text and every m and n: the loop is the simultaneous renumbering of `$1..$m` if and only if each of them that occurs is safe and each other placeholder is untouched |
| Rounds.SpliceSafeExact | src/utils/rbatis_dynamical.rs:107-124 | all of `$1..$m` are safe on n bound arguments if and only if n is 0, m is at most 1, or m is at most 9 and no v+n starts with the digit of a later placeholder |
| SpliceSafety.RenumberNumbered | src/utils/rbatis_dynamical.rs:107-124 | for every text: renumbering its translation is translating it from a later number, if and only if nothing is moved or no digit follows a mark and no placeholder of the source is among those renumbered |
| SpliceSafety.MapRefsNumbered | src/utils/rbatis_dynamical.rs:107-124 | any change of the numerals takes a translation to one from a later number exactly when it does so mark by mark, with the digits behind each, and leaves the source's own placeholders |
| SpliceSafety.SpliceAgreesExactly | src/utils/rbatis_dynamical.rs:94-131 | for all agreeing fragments and agreeing builders, splicing keeps the two routes together if and only if no other round touches a mark's number, with the digits behind it, and none a placeholder that stood in the fragment's `?` text |
| SpliceSafety.SpliceRightInOrder | src/utils/rbatis_dynamical.rs:94-131 | for a fragment whose Postgres placeholders are in order that condition is that the two counts are safe |
| SpliceSafety.PushInOrderExactly | src/utils/rbatis_dynamical.rs:107-131 | on Postgres a fragment with placeholders in order, spliced behind placeholders in order, leaves all of them in order if and only if the counts are safe and no text starting with a digit comes right behind a placeholder |
| SpliceSafety.SpliceOfPrograms | src/utils/rbatis_dynamical.rs:94-131 | the same for any two builders filled by programs of clean calls; for orderly calls without placeholders in their names and formats the condition is that the two counts are safe |
| SpliceSafety.TwoOntoOneCollides | src/utils/rbatis_dynamical.rs:114-122 | two arguments spliced onto one: both placeholders become `$3` |
| SpliceSafety.OwnDollarCollides | src/utils/rbatis_dynamical.rs:114-122 | one argument spliced onto one: a clean call on a column `$1` builds `$1 = $1`, which becomes `$2 = $2` |
| SpliceSafety.LiteralChanges | src/utils/rbatis_dynamical.rs:114-122 | the same splice turns the literal `'$10'` into `'$20'` |
| Nesting.NestedInOrderExactly | src/utils/rbatis_dynamical.rs:94-875 | for programs of calls with no `$` directly before a digit that splice builders to any depth: the Postgres placeholders are in order after every call and splice if and only if every format used is orderly, every splice is at safe counts, and no fragment starting with a digit is spliced right behind a placeholder |
| Nesting.NestedRoutesExactly | src/utils/rbatis_dynamical.rs:94-875 | for all programs that splice builders to any depth: the two routes agree after every call and splice if and only if every call is clean and at every splice the reading of the fragment's `?` text allows it |
| Nesting.InOrderReadsAlong | src/utils/rbatis_dynamical.rs:94-875 | where the calls are clean, the counts safe and the placeholders in order all along, every such reading allows its splice |
| Nesting.RunInlines | src/utils/rbatis_dynamical.rs:94-875 | for every such program of clean calls the `?` SQL with its arguments filled in is what a builder writes that puts the values straight into the text |
| Nesting.FillNumbered | src/utils/mod.rs:196-213 | for a text with no placeholder of its own and no digit after a mark, reading its translation with `$k` as the k-th argument is filling the arguments into the marks in order |
| Nesting.PostgresInlines | src/utils/rbatis_dynamical.rs:94-875 | from end to end, for clean and orderly calls without placeholders in their names and formats and for splices at safe counts and clean joints: the Postgres SQL, each `$k` read as the k-th argument, is what the value-writing builder writes |
| CommonSearch.IntoWrapper | src/utils/common_search.rs:68-163 | the field loop performs exactly the compiled calls, each after an `and`, and fails exactly when a field's compilation does |
| CommonSearch.PanicExactly | src/utils/common_search.rs:132-147 | compilation fails exactly on a range operator whose value holds no comma |
| CommonSearch.ArityOfCompiled | src/utils/common_search.rs:27-66 | a field is emitted exactly when its operator is recognised, and binds its arity even when a value fails to parse |
| CommonSearch.FilterText | src/utils/common_search.rs:68-163 | onto any builder with a chain-shaped text a filter appends one operand per recognised operator, joined by single `and`s and linked to what is there unless a link dangles; its arguments follow those bound before, as many as the sum of the arities |
| CommonSearch.OperatorSurprises | src/utils/common_search.rs:90-147 | `egt` becomes a strict comparison, and a range with a single bound fails |
| Filters.ComparingWord | src/utils/common_search.rs:72-107 | each of the six comparing words, in any letter case, appends the column, its sign and a placeholder to any builder and binds the value its field type gives |
| Filters.LikeWord | src/utils/common_search.rs:108-119 | the text and the pattern of `like` and `not like` |
| Filters.InWord | src/utils/common_search.rs:120-131 | the list of `in` and `not in`, one placeholder for each part between commas |
| Filters.RangeWord | src/utils/common_search.rs:132-147 | `range` and `not range` bind the first two parts in order and fail exactly on a single one |
| Filters.NullWord | src/utils/common_search.rs:148-158 | the text of `null` and `not null` |
| Filters.OtherWord | src/utils/common_search.rs:158-162 | no operator or any other word appends nothing and fails nowhere |
| Filters.BoundExactly | src/utils/common_search.rs:32-58 | the value bound for each field type, in any letter case, and null for what does not parse |
| ProcessQueue.ProcessQueue.QueueAdd | src/utils/queue.rs:103-110 | appends the entry |
| ProcessQueue.ProcessQueue.QueueRemove | src/utils/queue.rs:112-125 | takes out the first entry of that id, and nothing else |
| ProcessQueue.ProcessQueue.UpdateTaskLastTime | src/utils/queue.rs:260-269 | stamps the entries of that id and no others |
| ProcessQueue.ProcessQueue.Pass | src/utils/queue.rs:184-199 | over a snapshot: dispatches in queue order exactly the entries past their period, stamps the live entries by id, collects the one-shot ones |
| ProcessQueue.ProcessQueue.Round | src/utils/queue.rs:184-202 | pass and removals with nothing between: exactly the entries past their period are dispatched, and with distinct ids the queue ends as its simple form |
| ProcessQueue.RoundExactly | src/utils/queue.rs:184-202 | that form holds the entries not past their period as they were and the cyclic ones past it stamped, and nothing else |
| ProcessQueue.StampIsSimple | src/utils/queue.rs:188-192 | with distinct ids, stamping by id is stamping the due entries |
| ProcessQueue.RoundIsSimple | src/utils/queue.rs:193-202 | removing the due one-shot entries one at a time leaves the old queue without them, due cyclic entries stamped, the rest untouched and in order |
| Scheduler.StepKeepsInv | src/utils/queue.rs:103-125 | every step of the worker and of its callers keeps the queue's invariant |
| Scheduler.AtMostOnce | src/utils/queue.rs:182-202 | over every run a one-shot entry is dispatched at most once and is in no later snapshot |
| Scheduler.Conservation | src/utils/queue.rs:103-125 | over every run the ids added are the ids still queued plus the ids taken out |
| Scheduler.WorkerKeepsCyclic | src/utils/queue.rs:193-202 | the worker's own removals leave every cyclic entry queued |
| Scheduler.Perform | src/utils/queue.rs:103-202 | every event on the queue object leaves the machine's queue and dispatches what the machine logs |
| Scheduler.EnabledExactly | src/utils/queue.rs:103-202 | callers may always remove and may add fresh entries; the worker always has exactly one next step |
| Scheduler.RoundAsEvents | src/utils/queue.rs:182-202 | the worker's steps with nothing between are one round and bring it back to rest |
| TaskSpacing.DispatchedInPass | src/utils/queue.rs:184-198 | over every run: a pass dispatches a queued entry if and only if more than its period has passed since its latest dispatch or creation, a later stamp counting as a turn of the 64-bit clock back, and dispatches nothing else |
| TaskSpacing.StepKeepsStamps | src/utils/queue.rs:260-269 | every queued entry carries the time of its latest dispatch, or its creation stamp |
| TaskSpacing.RunSpacedExactly | src/utils/queue.rs:182-198 | from any state that carries its stamps, the log stays spaced if and only if no pass meets a due entry stamped after its clock reading |
| TaskSpacing.SpacingExact | src/utils/queue.rs:182-198 | over every run dispatches keep more than a period from creation and from each other, if and only if, told from the events alone, no pass comes while an entry waits that was added after the clock reading with a later stamp and is due by the wrapped difference |
| TaskSpacing.SpacedMeansApart | src/utils/queue.rs:190 | in a spaced log every dispatch, a first one included, comes more than a period after its entry's creation and after every earlier dispatch of its id |
| TaskSpacing.LateTaskFiresAtOnce | src/utils/queue.rs:184-190 | an entry added between clock reading and lock is dispatched at once |
| AppData.AppData.SweptKeys | src/utils/global_data.rs:35-51 | in whatever order the map yields them, exactly the keys of the entries at or past expiry, and only above ten entries |
| AppData.AppData.Resizing | src/utils/global_data.rs:35-56 | the entries at or past expiry go and no others, and only above ten entries |
| AppData.AppData.InsertWithExpire | src/utils/global_data.rs:67-85 | the insert and the sweep that follows it |
| AppData.AppData.Get | src/utils/global_data.rs:96-112 | the value of a live entry; an expired one is removed and none returned |
| AppData.SweepSeenExactly | src/utils/global_data.rs:35-112 | a sweep changes a later read if and only if it ran and took an entry of lifetime zero, or the read is in the very instant of sweep and expiry |
| AppData.SweptExactly | src/utils/global_data.rs:35-56 | a sweep of more than ten entries leaves, unchanged, exactly those before their expiry |
| AppData.LookupExactly | src/utils/global_data.rs:96-112 | a read returns the value of an entry of lifetime zero or not past its expiry |
| AppData.Perform | src/utils/global_data.rs:35-112 | every call on the object is the step of that call, and a read returns what the step's map says |
| AppData.ReadsLastWrite | src/utils/global_data.rs:35-112 | every read of every run, from the calls alone: the value last inserted unless it was deleted, is past its expiry, or a sweep has taken the key |
| AppData.ReadsDifferExactly | src/utils/global_data.rs:35-112 | over every run, any lifetimes: a read differs from the never-swept map's if and only if a sweep of more than ten entries has taken the key since it was last written, and its lifetime is zero or it is read in the instant of its expiry |
| AppData.ReadsDifferOnly | src/utils/global_data.rs:35-112 | over every run: an entry of positive lifetime is read differently only in an instant that is both the last sweep's and its expiry |
| AppData.SweepTakesLiveEntry | src/utils/global_data.rs:35-85 | eleven inserts after which the last key, read in the instant of its expiry, is gone from the cache and not from the never-swept map |
| AppData.SweepingIsInvisible | src/utils/global_data.rs:35-112 | with positive lifetimes every read strictly after the last sweep is the never-swept map's |
| Codec.NumToString | src/utils/global_data.rs:338-367 | the digit loop yields the positional numeral over its alphabet |
| Codec.Base32 | src/utils/global_data.rs:339-342 | 32 characters, none twice |
| Codec.Base10 | src/utils/global_data.rs:356 | 10 characters, none twice |
| Codec.Base56 | src/utils/global_data.rs:395-400 | 56 characters, none twice |
| Codec.Alphabets | src/utils/global_data.rs:338-400 | the three alphabets, character by character in order |
| Codec.ValueOfEncoded | src/utils/global_data.rs:338-411 | decoding the numeral of any n from zero on gives n back |
| Codec.EncodedCanonical | src/utils/global_data.rs:338-411 | numerals have no leading zero digit |
| Codec.Bijection | src/utils/global_data.rs:338-411 | a string without leading zero digit is the numeral of n if and only if its value is n |
| Codec.EncodedLength | src/utils/global_data.rs:338-411 | a numeral of L digits stands for a number from base^(L-1) to below base^L |
| Codec.OrderPreserved | src/utils/global_data.rs:338-411 | n is below m if and only if its numeral comes first in shortlex order |
| Codec.GenerateRand | src/utils/global_data.rs:369-391 | the result is the prefix of that length of the concatenated numerals of the draws |
| Codec.EnoughDraws | src/utils/global_data.rs:369-379 | as many nonzero draws as characters are enough, and every character is of the alphabet |
| QueryString.ParseQuery | src/utils/mod.rs:586-600 | the insertion loop over segments, failing where a segment has no `=` |
| QueryString.DecodeEncode | src/utils/global_data.rs:561-563 | percent-decoding undoes percent-encoding on every byte sequence |
| QueryString.EncodeByte | src/utils/global_data.rs:561-563 | an unreserved byte is written as itself, any other as `%` and two capital hexadecimal digits |
| QueryString.DecodePlain | src/utils/mod.rs:594-596 | without `%` decoding changes nothing, `+` included |
| QueryString.DecodeEscape | src/utils/mod.rs:594-596 | `%` and two hexadecimal digits of either case give their byte |
| QueryString.DecodeOther | src/utils/mod.rs:594-596 | any other byte stays, a `%` without its two digits too |
| QueryString.ParsedExactly | src/utils/mod.rs:586-600 | of every query that parses: the keys are those of its segments, each with the decoded value of its last segment, read up to a second `=` |
| QueryString.ParsedPair | src/utils/mod.rs:586-600 | one pair without escapes is read as it stands |
| QueryString.RoundTripExact | src/utils/mod.rs:586-600 | writing pairs and parsing them gives the map of the pairs, last one winning, if and only if no key holds `&` or `=` |
| QueryString.FailsExactly | src/utils/mod.rs:586-600 | the parser fails exactly when the query is not empty and some `&`-separated segment has no `=` |
| QueryString.TrailingAmpersandFails | src/utils/mod.rs:590-596 | `a=b&` fails |
| QueryString.SeparatorKeyIsLost | src/utils/mod.rs:590-596 | the key `=` with the value `a` comes back as the empty key with the empty value |
| ProxyRegistry.GatewayProxyManagement.InsertOrUpdateProxyInfo | src/utils/gpt_sdk.rs:33-49 | refreshes health, load and token of the entries with the same name and address, or appends the report |
| ProxyRegistry.Registry.AddProxyInfo | src/utils/gpt_sdk.rs:51-67 | upserts in the list of the report's application, creating it when missing, and touches no other list |
| ProxyRegistry.MergedSnoc | src/utils/gpt_sdk.rs:38-48 | one more report changes only the entry of its own key, and there only health, load and token |
| ProxyRegistry.RegistryRefinesMap | src/utils/gpt_sdk.rs:33-67 | after any reports no list has two entries of one key, every entry is under its own application, and the entries are the reports merged by key: health, load and token from the last, all else from the first |
| ProxyRegistry.EntryFieldByField | src/utils/gpt_sdk.rs:33-67 | after any reports every entry has health, load and token of the last report of its application and address and each other field of the first |
| ProxyRegistry.ReportHasEntry | src/utils/gpt_sdk.rs:33-67 | every report has exactly one entry of its key, under its own application |

## Left out

- SpliceOfPrograms: is about Postgres; SQL Server's placeholders go through the same loop in `Push`, but their exact text belongs to rbatis.
- NestedRoutesExactly: a spliced fragment is for the same database as the builder it is pushed onto; `push_wrapper` would take one for another.
- AddProxyInfo: the load average is a real number here; it is only copied.
- GenerateRand: the stream of draws is finite and given, so an endless run of zeros is not modelled.
- Raw builder calls (`set_sql`, `push_sql`, `set_args`, `push_arg`, `pop_arg`, `trim_value`, `trim_space`, `trim_and`, `trim_or`, `insert_into`) can write any text and keep none of the properties.
- `do_if`, `do_match` and their kin choose which call to make; every choice is a program covered here.
- The driver type `None`, for which the library has no placeholder.
- UTF-8 validity in `parse_query`, which is modelled on bytes; `parse_query_as_value` repeats its loop.
- Overflow of timestamp plus lifetime in the cache, and the lock that a read still holds when it removes an expired entry; the model removes and returns nothing.
- Starting and stopping the worker, two workers at once, and `max_tasks`, which `queue_add` does not enforce.
- Handlers that the worker calls, notifications and the waiting between rounds.
- HTTP, mail, Redis, RSA, WeChat, Windows services, performance counters, configuration, scripts, and the float and decimal helpers: wrappers over libraries or the operating system.
