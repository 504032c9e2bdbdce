# Event-sourcing analyser: assembling the project model

The analyser runs a set of PHPStan collectors over an event-sourced code base.
A `ProjectFactory` then turns the flat list of collected facts into a
`Project`, which holds:

- the aggregates, events, commands, subscribers and user interfaces (Symfony
  controllers), each keyed by class name;
- which events each command causes, found by following an aggregate's method
  calls down to its `recordThat` calls;
- a partition of every class into bounded contexts, taken from its namespace
  (`Shop\Billing\Domain\Invoice` belongs to `Billing`).

`Helper` is an older copy of the same logic that returns plain arrays instead
of the data classes.

The Dafny model has these modules:

- `PhpArray`: PHP arrays as insertion-ordered maps (`OrderedMap`).
  - `Put` is `$a[$k] = $v`: an existing key keeps its position.
  - `Distinct` is `array_keys` of a set built with `$set[$x] = true`.
  - `PutAll` is a loop of writes where the last write wins.
  - `PutFirst` is the same loop guarded by `array_key_exists`, so the first write wins.
- `Facts`: the collector records and the `array_filter` calls on the collector type.
- `Data`: the data classes and the `SubscriberType` enum.
- `Names`: `classToName`, plus `boundedContext` written out as a search for the
  leftmost, greedy match of its pattern.
- `CallGraph`: the method-call index of `commandToEvents` and the recursion
  of `resolveCallForEvents`.
- `Assembly`: one specification function per entity map, plus lemmas saying
  what every entry holds.
- `Partition`: a specification of `boundedContexts`.
- `ProjectFactory` and `Helper`: the source's loops as methods. Each method is
  proved equal to its specification function.
- `Fixture`: the test fixtures `Profile` and `ProfileProjection`, worked through
  the model.

## Model

| member | source | states |
|---|---|---|
| ProjectFactory.Invoke | src/ProjectFactory.php:29-47 | The project is the five entity maps, built from the facts, plus the bounded contexts built from those maps' keys (`ProjectOf`). It is None, the `TypeError`, exactly when `commands` raises. |
| ProjectFactory.InvokeFails | src/ProjectFactory.php:29-47 | `__invoke` raises exactly when the resolution of some command, from the first fact carrying it, raises. If every call recording no event names its callee, it always returns a project. |
| ProjectFactory.ProjectContextMembers | src/ProjectFactory.php:377-457 | A class of some kind is listed under a context exactly when it is a key of that kind's map and `boundedContext` gives the context's name. No context lists a class twice. |
| ProjectFactory.ProjectContexts | src/ProjectFactory.php:384-456 | The context map has no duplicate keys. Each context is stored under its own name and holds at least one class. Every class whose context is not null has that context in the project. |
| ProjectFactory.Aggregates | src/ProjectFactory.php:54-101 | The nested loop computes `AggregateMap`: one entry per declared class, and the last declaration of a class wins while its position stays. |
| ProjectFactory.CollectAggregate | src/ProjectFactory.php:71-97 | The inner loop builds the aggregate of one declared class (`AggregateOf`): its name and class, and the deduplicated events and commands of the call facts on it. |
| Assembly.AggregateMapKeys | src/ProjectFactory.php:68-98 | The aggregate keys are the declared classes, deduplicated, in the order they were first declared. |
| Assembly.AggregateAt | src/ProjectFactory.php:92-97 | Every key holds the aggregate built from the last declaration of that class. |
| Assembly.AggregateMapEntry | src/ProjectFactory.php:68-97 | The last declaration of a class gives that class's name, and its events and commands come from the calls on that class. |
| Assembly.AggregateEvents | src/ProjectFactory.php:74-95 | An aggregate's events are exactly the non-null `eventClass` values of call facts on that class, with no repeats. |
| Assembly.AggregateCommands | src/ProjectFactory.php:85-96 | An aggregate's commands are exactly the non-null `commandClass` values of call facts on that class, with no repeats. |
| Assembly.EventsOfMembers | src/ProjectFactory.php:74-83 | The events collected for a class are those recorded by a call on it. |
| Assembly.CommandsOfMembers | src/ProjectFactory.php:74-89 | The commands collected for a class are those handled by a method making a call on it. |
| ProjectFactory.Events | src/ProjectFactory.php:108-127 | The loop computes `EventMap`. |
| Assembly.EventMapKeys | src/ProjectFactory.php:117-124 | A class is a key of the event map exactly when an event fact declares it. |
| Assembly.EventEntriesKeys | src/ProjectFactory.php:117-124 | The loop of writes over event facts has a class as key exactly when some fact declares that class. |
| Assembly.EventMapEntry | src/ProjectFactory.php:120-123 | An event class holds the name from its last declaration. |
| ProjectFactory.Subscribers | src/ProjectFactory.php:134-182 | The triple loop computes `SubscriberMap`. |
| ProjectFactory.CollectSubscriber | src/ProjectFactory.php:151-178 | The inner loops build the subscriber of one declared class (`SubscriberOf`): its name, class, type, and the deduplicated events and commands of its call facts. |
| Assembly.SubscriberMapKeys | src/ProjectFactory.php:148-179 | The subscriber keys are the declared classes, deduplicated, in first-declared order. |
| Assembly.SubscriberAt | src/ProjectFactory.php:172-178 | Every key holds the subscriber built from the last declaration of that class. |
| Assembly.SubscriberMapEntry | src/ProjectFactory.php:172-178 | The type's backing string is the declared type string. Events and commands are the deduplicated lists from the matching call facts. |
| Assembly.SubscriberEvents | src/ProjectFactory.php:154-163 | A subscriber's events are exactly the `eventClasses` of its call facts; `*` counts as an ordinary class. No repeats. |
| Assembly.SubscriberCommands | src/ProjectFactory.php:165-169 | A subscriber's commands are exactly the dispatched non-null commands of its call facts. No repeats. |
| Assembly.SubscribedOfMembers | src/ProjectFactory.php:154-163 | Collected subscriber events are those some call fact of the class lists. |
| Assembly.DispatchedOfMembers | src/ProjectFactory.php:165-169 | Collected subscriber commands are those some call fact of the class dispatches. |
| Data.SubscriberTypeFrom | src/Data/SubscriberType.php:7-12 | `SubscriberType::from` returns the case whose backing value is the given string. |
| Data.SubscriberTypeRoundTrip | src/Data/SubscriberType.php:7-12 | `from` applied to a case's backing value gives back the same case. |
| Assembly.SupportedFacts | src/SubscriberCollector.php:39-57 | Under the assumption `AllSupported` (three type strings, as `SubscriberCollector` writes; a calling method on every aggregate-call fact with a command, as `AggregateCallCollector` writes), every subscriber type is accepted by `SubscriberType::from` and every fact with a command names its calling method. |
| ProjectFactory.Commands | src/ProjectFactory.php:189-220 | The loop computes `CommandMap`, which is None exactly when `commandToEvents` raises. |
| Assembly.CommandMapSpec | src/ProjectFactory.php:199-217 | There is one entry per distinct non-null command of an aggregate-call or dispatch fact, in first-seen order. Its name is `classToName`. Its events are its `commandToEvents` entry, or `[]` if it has none. |
| Assembly.CommandClassesMembers | src/ProjectFactory.php:193-206 | The candidate commands are exactly the non-null `commandClass` values of aggregate-call and dispatch facts. |
| ProjectFactory.CommandToEvents | src/ProjectFactory.php:227-273 | Both loops compute `CommandEventsMap`. The first loop (`IndexMethodCalls`) builds `CallIndex`; the second writes each truthy command once, at its first fact, and returns None at the first resolution that raises. |
| ProjectFactory.IndexMethodCalls | src/ProjectFactory.php:234-250 | The first loop of `commandToEvents` computes `CallIndex`: each fact's call appended under its `aggregateClass::callMethod` key. |
| Assembly.CommandEventsKeys | src/ProjectFactory.php:254-270 | A command has an entry exactly when some aggregate-call fact carries it as a truthy `commandClass`. |
| Assembly.CommandEventsEntry | src/ProjectFactory.php:257-269 | A command's events come from the first fact that carries it: the resolution of that fact's `aggregateClass::callMethod`. |
| Assembly.ResolutionFirst | src/ProjectFactory.php:261-269 | Within the resolution loop, once a command is written, later facts with that command leave it alone. |
| Assembly.ResolutionEntriesFrom | src/ProjectFactory.php:257-269 | Every write of the resolution loop comes from a fact with a truthy command and writes that fact's resolution. |
| Assembly.ResolutionStep | src/ProjectFactory.php:257-269 | One fact leaves the result alone when its command is falsy or already written; otherwise it adds the command with its resolution. |
| Assembly.CommandEventsStep | src/ProjectFactory.php:254-270 | One fact of the loop keeps the events written so far when its command is falsy or written; when its resolution fails the whole result fails; otherwise its events are written. |
| Assembly.CommandEventsFails | src/ProjectFactory.php:254-270 | `commandToEvents` raises exactly when the resolution of some command from the first fact carrying it raises; later facts with the same command are never resolved. |
| Assembly.CommandEventsSucceed | src/ProjectFactory.php:254-270 | If every fact with a truthy command names its calling method and every call recording no event names its callee, `commandToEvents` returns. |
| CallGraph.CallIndexKeys | src/ProjectFactory.php:236-250 | The index has a key exactly when some call fact is filed under it. |
| CallGraph.CallIndexLookup | src/ProjectFactory.php:239-249 | The list under a key holds the calls of exactly the facts filed under it, in fact order. |
| CallGraph.CallsWithKeyMembers | src/ProjectFactory.php:239-249 | A call is filed under a key exactly when some fact with that key carries it. |
| CallGraph.CallIndexNonEmpty | src/ProjectFactory.php:241-245 | A list in the index is never empty. |
| CallGraph.CallIndexNamed | src/ProjectFactory.php:245-249 | If every call that records no event names its callee, so does every entry of the index. |
| ProjectFactory.ResolveCallForEvents | src/ProjectFactory.php:324-350 | The loop with recursion returns `ResolveKey`, None when it reaches a call that records no event and names no callee. |
| CallGraph.ResolveKey | src/ProjectFactory.php:324-350 | Every event returned is recorded by some call in the index. |
| CallGraph.ResolveCallsStuck | src/ProjectFactory.php:336-347 | A failure among the first calls of the loop is a failure of the whole loop. |
| CallGraph.UnnamedCallFails | src/ProjectFactory.php:343-346 | A call recording no event and naming no callee makes the loop fail once it is reached. |
| CallGraph.ResolveNamed | src/ProjectFactory.php:324-350 | On an index where every call recording no event names its callee, resolution never fails. |
| CallGraph.UnguardedAgrees | src/ProjectFactory.php:324-350 | Whenever the source's recursion terminates, the guarded resolution returns exactly what the source returns, repeats included. |
| CallGraph.AgreesFrom | src/ProjectFactory.php:336-347 | Agreement also holds with a visited set that avoids every key the source recursion looks up. |
| CallGraph.Mono | src/ProjectFactory.php:343-346 | Once the source recursion has finished, more recursion depth changes neither its result nor the keys it looked up. |
| CallGraph.NoSelfReach | src/ProjectFactory.php:343-346 | If the recursion from a key terminates, that key is not looked up again below itself. |
| CallGraph.SelfCallDiverges | src/ProjectFactory.php:343-346 | On a method that calls itself without recording, the source recursion does not finish at any depth. |
| CallGraph.SelfCallResolves | src/ProjectFactory.php:330-347 | On that same index, the guarded resolution returns `[]`. |
| ProjectFactory.UserInterfaces | src/ProjectFactory.php:280-321 | The two loops compute `InterfaceMap`. |
| Assembly.InterfaceMapSpec | src/ProjectFactory.php:294-318 | There is one entry per controller of a dispatch or access fact, in first-seen order, named by `classToName`. It holds every command and then every subscriber of that controller, in fact order, repeats kept. |
| Assembly.AfterDispatchesAt | src/ProjectFactory.php:294-305 | After the dispatch loop, a controller holds exactly its dispatched commands. |
| Assembly.AfterAccessesAt | src/ProjectFactory.php:307-318 | The access loop appends a controller's accessed subscribers and changes nothing else about it. |
| Names.ClassToName | src/ProjectFactory.php:352-357 | The name is the suffix after the last backslash: it has no backslash, and it is the whole string when there is no backslash. |
| Names.ClassToNameLast | src/ProjectFactory.php:352-357 | `classToName(prefix\n)` is `n` for any `n` without a backslash. |
| Names.ExplodeRoundTrip | src/ProjectFactory.php:354 | Joining the pieces of `explode` with the separator gives back the string. |
| Names.BoundedContextOfSpec | src/ProjectFactory.php:359-366 | The result is null exactly when the pattern does not match. Otherwise it is the group of the match PCRE reports: leftmost start, longest group. |
| Names.BoundedContextOfLayered | src/ProjectFactory.php:359-366 | `a\c\Layer\r` gives `c` when `a`, `Layer` and `r` have no backslash and `c` is non-empty without `/`. So `A\Shop\Billing\Domain\X` gives `Shop\Billing`. |
| Names.BoundedContextOfFirstSegment | src/ProjectFactory.php:359-366 | `c\Layer\r` gives null, because the marker comes straight after the first segment. |
| Names.MatchFromSpec | src/ProjectFactory.php:361 | The search from a position finds the leftmost match at or after it, or proves that there is none. |
| Names.GroupEndSpec | src/ProjectFactory.php:361 | For a fixed opening backslash, the group ends at the last marker that completes a match. |
| Names.ReportedUnique | src/ProjectFactory.php:361 | The reported match is unique. |
| Partition.ContextMapAt | src/ProjectFactory.php:384-456 | Each context is named by its key. Per kind, it lists exactly the classes of that kind whose context it is, in map order. |
| Partition.ContextMapKeys | src/ProjectFactory.php:384-456 | Contexts are created in order of first use, visiting aggregates, events, commands, subscribers and then user interfaces. |
| Partition.ContextMapMembers | src/ProjectFactory.php:397-453 | The list of one kind is written only by that kind's loop. |
| Partition.ContextMapPartition | src/ProjectFactory.php:384-456 | When each key list has no repeats, a context lists a class of a kind exactly when the class is a key of that kind and its context is the context's name, and lists it once. |
| Partition.InContextMembers | src/ProjectFactory.php:386-398 | One kind's loop lists a class under a context exactly when `boundedContext` of the class names it, and adds no repeats. |
| Partition.ContextNonEmpty | src/ProjectFactory.php:393-397 | Every context that is created holds at least one class. |
| Partition.ContextWitness | src/ProjectFactory.php:393-395 | Every context is created for some class that belongs to it. |
| Partition.ContextCreated | src/ProjectFactory.php:387-395 | Every class whose context is not null has its context created. |
| Partition.AddMember | src/ProjectFactory.php:397-453 | Appending to one kind's list keeps the name and the other four lists. |
| ProjectFactory.AddToContexts | src/ProjectFactory.php:386-398 | One kind's loop computes `Assign`. The five loops of the source are this one method, called once per kind. |
| ProjectFactory.BoundedContexts | src/ProjectFactory.php:377-457 | The five loops compute `ContextMap` of the five key lists, in the source's order. |
| Helper.Aggregates | src/Helper.php:9-54 | The nested loop computes `AggregateRecords`: one record per declared class, from the last declaration of the class, at the position of its first. |
| Helper.AggregateRecordsAgree | src/Helper.php:23-50 | Per declared class, `Helper::aggregates` gives the same name, class, events and commands as `ProjectFactory::aggregates`, as records, with the same keys in the same order. |
| Helper.CollectAggregateRecord | src/Helper.php:26-50 | The inner loop builds the record of one declared class: its events and commands are the deduplicated non-null values of the call facts on that class. |
| Helper.Events | src/Helper.php:56-72 | It maps each class to the name in `ProjectFactory::events`; a later declaration overwrites the name. |
| Helper.Subscribers | src/Helper.php:74-119 | The loop computes `SubscriberRecords`: the raw type string and no class field. |
| Helper.CollectSubscriberRecord | src/Helper.php:91-115 | The inner loops build the record of one declared class: the raw type string and the deduplicated events and commands of its call facts. |
| Helper.SubscriberRecordsAgree | src/Helper.php:88-116 | With known type strings, `Helper::subscribers` equals `ProjectFactory::subscribers`, with the type given as its string and the class dropped. |
| Helper.Controller | src/Helper.php:192-227 | Every controller has both lists, possibly empty. They hold the same commands and subscribers as `ProjectFactory::userInterfaces`, in fact order, repeats kept. |
| PhpArray.PutAllAt | src/ProjectFactory.php:92 | After a loop of writes, a key holds the value of the last write to it. |
| PhpArray.PutAllKeys | src/ProjectFactory.php:92 | After a loop of writes, the keys are the written keys in order of first write, with no repeats. |
| PhpArray.PutFirstFirst | src/ProjectFactory.php:208-212 | After a loop of writes guarded by `array_key_exists`, a key holds the value of the first write to it. |
| PhpArray.PutFirstKeys | src/ProjectFactory.php:208-212 | After a loop of guarded writes, the keys are the written keys in order of first write, with no repeats. |
| PhpArray.DistinctFirstSeen | src/ProjectFactory.php:82-95 | `array_keys` of a set built with `$set[$x] = true` keeps the order of first occurrences. |
| Fixture.ProfileShapeCommandEvents | src/ProjectFactory.php:227-273 | For any class names with the call shape of the `Profile` fixture (tests/Fixture/Profile.php:12-33) and two different truthy commands, the first command gets the event of `create`, and the second gets the event of `update` twice, once directly and once through `foo`. |
| Fixture.ProfileCommandEvents | src/ProjectFactory.php:227-273 | On the `Profile` fixture (tests/Fixture/Profile.php), `CreateProfile` gets `[ProfileCreated]` and `UpdateProfile` gets `[ProfileUpdated, ProfileUpdated]`. |
| Fixture.UnreachedUnnamedCall | src/ProjectFactory.php:227-273 | A call with a null `calledMethod` inside a method that handles no command is never resolved: `commandToEvents` is empty and `__invoke` builds a project. |
| Fixture.HandleUnnamed | src/ProjectFactory.php:324-350 | The same call inside the method `handle` makes the resolution of `handle` fail. |
| Fixture.ReachedUnnamedCall | src/ProjectFactory.php:227-273 | When `handle` handles a command, resolving that command reaches the null callee, so `commandToEvents` and `__invoke` raise. |
| Fixture.ProjectionShapeSubscriber | src/ProjectFactory.php:148-178 | For any names with the call shape of the `ProfileProjection` fixture (tests/Fixture/ProfileProjection.php:9-28), the one subscriber is a projector whose events are the subscribed event and whose commands are the dispatched command once, although it is dispatched twice. |
| Fixture.ProjectionSubscriber | src/ProjectFactory.php:148-178 | The `ProfileProjection` fixture (tests/Fixture/ProfileProjection.php) is a projector with events `[ProfileUpdated]` and commands `[CreateProfile]`. |

`Helper::commandToEvents` (src/Helper.php:143-185), `Helper::resolveCallForEvents`
(src/Helper.php:235-261) and `Helper::classToName` (src/Helper.php:263-268) have
the same code as their `ProjectFactory` counterparts. The members
`ProjectFactory.CommandToEvents`, `ProjectFactory.ResolveCallForEvents` and
`Names.ClassToName` model both copies.

### Notes on the source

- `SubscriberCallCollector` reports `#[Subscribe('*')]` as `['*']`
  (src/SubscriberCallCollector.php:98-100); `subscribers` then treats `*` as an
  ordinary event class (src/ProjectFactory.php:161-163), and the model does the
  same.
- A class declared twice keeps the position of its first declaration and takes
  the name of its last (src/ProjectFactory.php:92).
- `resolveCallForEvents` has no cycle guard. See "Findings".

## Left out

- The collectors themselves: they are wrappers over PHPStan scopes and
  reflection. Only the records they return are modelled, as `Facts`.
- The Graphviz and JSON formatters: they wrap an external graph library or do
  file output.
- `Helper::commands`: it reads `class` and `name` keys that aggregate-call facts
  do not have, so its result depends on PHP undefined-index warnings and
  null-key coercion.
- ProjectFactory.Subscribers: requires known type strings. With any other string
  the source raises a `ValueError` from `SubscriberType::from`, which is not
  modelled. `ProjectOf`, `ProjectFactory.Invoke` and the project lemmas carry the
  same requirement. `SubscriberCollector` (src/SubscriberCollector.php:39-44)
  writes only the three accepted strings.
- The `TypeError` that `resolveCallForEvents` raises when it is given a null
  method is modelled as a None result, which `commandToEvents`, `commands` and
  `__invoke` pass on. The exception itself, and what a caller does with it, are
  not modelled.
- ProjectFactory.ResolveCallForEvents: takes a per-path visited set, which the
  source does not have. On inputs where the source terminates, the result is
  the same (`CallGraph.UnguardedAgrees`). The source's non-termination on a
  cyclic index is not modelled as behaviour, only exhibited.
- Truthiness: `!$data['commandClass']` is modelled exactly (null, `""` and `"0"`
  are falsy). PHP's conversion of numeric-string array keys to integers is not
  modelled; class names are never numeric.
- `preg_match` is modelled only for the one pattern used. Class names are
  assumed to be plain character strings; no Unicode or byte-level details are
  modelled.
- Objects are modelled as values. `->commands[] = …` on an object held in the
  result array becomes a write of the updated value. This is exact because each
  object is reachable only through its own array entry.
- Helper.Controller: the order of the two keys inside a controller's array is
  not modelled. The source writes `commands` first for controllers that dispatch
  and `subscribers` first for controllers that only access; the record has fixed
  fields.
- The `Fixture` facts are written out by hand from the fixture classes, because
  the collectors are not modelled.

## Findings

| source | as written | input that shows it | evidently intended | confidence | as-written member | corrected member |
|---|---|---|---|---|---|---|
| src/ProjectFactory.php:343-346 | `resolveCallForEvents` recurses into every call that records no event, with no check for a method already being resolved | an aggregate method `foo` of `Shop\Domain\Cart` that calls `$this->foo()` and records nothing, inside a method handling a command; the index then has `Shop\Domain\Cart::foo => [call to foo]` and the recursion never ends | a recursive or mutually recursive method contributes the events it records, and resolution terminates | not executed | CallGraph.SelfCallDiverges | CallGraph.SelfCallResolves |

The corrected reading is `CallGraph.ResolveKey`. It skips a key already on the
current recursion path, and the rest of the model uses it.
`CallGraph.UnguardedAgrees` proves it returns what the source returns whenever
the source terminates. `Helper::resolveCallForEvents` (src/Helper.php:254-257)
has the same defect.
