/**
 * `ProjectFactory`: the loops that turn the collected facts into a `Project`.
 * Each method is proved to compute the map its `Assembly` or `Partition`
 * function describes; what those maps contain is proved there.
 */
module ProjectFactory {
  import opened Facts
  import opened PhpArray
  import opened Data
  import opened Names
  import opened CallGraph
  import opened Assembly
  import opened Partition

  /** `resolveCallForEvents`, with the keys on the current recursion path in
      `visited`; a key already on the path contributes nothing. None is the
      `TypeError` of a call that records no event and names no callee. */
  method ResolveCallForEvents(methodCalls: Index, aggregate: string, methodName: string, visited: set<string>)
    returns (result: Resolution)
    ensures result == ResolveKey(methodCalls, MethodKey(aggregate, methodName), visited)
    decreases methodCalls.Keys - visited
  {
    var key := MethodKey(aggregate, methodName);
    if key !in methodCalls || key in visited {
      return Some([]);
    }
    var calls := methodCalls[key];
    var path := visited + {key};
    assert methodCalls.Keys - path < methodCalls.Keys - visited;
    var events: seq<string> := [];
    for i := 0 to |calls|
      invariant ResolveCalls(methodCalls, calls[..i], path) == Some(events)
    {
      assert calls[..i + 1][..i] == calls[..i];
      assert calls[i] in methodCalls[key];
      assert forall c :: c in calls[..i + 1] ==> c in calls;
      var call := calls[i];
      if call.eventClass.Some? {
        events := events + [call.eventClass.value];
        continue;
      }
      if call.calledMethod.None? {
        ResolveCallsStuck(methodCalls, calls, path, i + 1);
        return None;
      }
      var sub := ResolveCallForEvents(methodCalls, call.aggregateClass, call.calledMethod.value, path);
      if sub.None? {
        ResolveCallsStuck(methodCalls, calls, path, i + 1);
        return None;
      }
      events := events + sub.value;
    }
    assert calls[..|calls|] == calls;
    result := Some(events);
  }

  /** The first loop of `commandToEvents`: the calls of the facts, listed per
      `aggregateClass::callMethod` key in fact order. */
  method IndexMethodCalls(aggregateCallData: seq<AggregateCallRow>) returns (methodCalls: Index)
    ensures methodCalls == CallIndex(aggregateCallData)
  {
    methodCalls := map[];
    for i := 0 to |aggregateCallData|
      invariant methodCalls == CallIndex(aggregateCallData[..i])
    {
      CallIndexSnoc(aggregateCallData, i);
      var data := aggregateCallData[i];
      var key := MethodKey(data.aggregateClass, data.callMethod.GetOr(""));
      if key !in methodCalls {
        methodCalls := methodCalls[key := []];
      }
      methodCalls := methodCalls[key := methodCalls[key] + [Call(data.aggregateClass, data.calledMethod, data.eventClass)]];
    }
    assert aggregateCallData[..|aggregateCallData|] == aggregateCallData;
  }

  /** `commandToEvents`: the index of calls by `aggregateClass::callMethod`, then each
      truthy command resolved from the first fact that carries it; None where a
      resolution raises a `TypeError`. */
  method CommandToEvents(dataList: seq<CollectedData>) returns (result: Option<OrderedMap<seq<string>>>)
    ensures result == CommandEventsMap(dataList)
  {
    var aggregateCallData := AggregateCallRows(dataList);
    var methodCalls := IndexMethodCalls(aggregateCallData);

    var written: OrderedMap<seq<string>> := Empty();
    for i := 0 to |aggregateCallData|
      invariant var m := PutFirst(ResolutionEntries(aggregateCallData[..i], methodCalls));
        AllResolved(m) && written == MapValues(m, Unwrap)
    {
      CommandEventsStep(aggregateCallData, methodCalls, i, written);
      var data := aggregateCallData[i];
      if !Truthy(data.commandClass) {
        continue;
      }
      var c := data.commandClass.value;
      if c in written.values {
        continue;
      }
      var events: Resolution := None;
      if data.callMethod.Some? {
        events := ResolveCallForEvents(methodCalls, data.aggregateClass, data.callMethod.value, {});
      }
      if events.None? {
        return None;
      }
      written := written.Put(c, events.value);
    }
    assert aggregateCallData[..|aggregateCallData|] == aggregateCallData;
    result := Some(written);
  }

  /** The inner loop of `aggregates`: the events recorded and the commands handled
      by the calls on one declared class, each once, in first-seen order. */
  method CollectAggregate(data: AggregateRow, aggregateCallData: seq<AggregateCallRow>) returns (aggregate: Aggregate)
    ensures aggregate == AggregateOf(data, aggregateCallData)
  {
    var events: OrderedMap<bool> := Empty();
    var commands: OrderedMap<bool> := Empty();
    for j := 0 to |aggregateCallData|
      invariant events.Valid() && events.keys == Distinct(EventsOf(aggregateCallData[..j], data.className))
      invariant commands.Valid() && commands.keys == Distinct(CommandsOf(aggregateCallData[..j], data.className))
    {
      CollectEventStep(events, aggregateCallData, j, data.className);
      CollectCommandStep(commands, aggregateCallData, j, data.className);
      var d := aggregateCallData[j];
      if d.aggregateClass != data.className {
        continue;
      }
      if d.eventClass.Some? {
        events := events.Put(d.eventClass.value, true);
      }
      if d.commandClass.None? {
        continue;
      }
      commands := commands.Put(d.commandClass.value, true);
    }
    assert aggregateCallData[..|aggregateCallData|] == aggregateCallData;
    aggregate := Aggregate(data.name, data.className, events.keys, commands.keys);
  }

  /** `aggregates`: for each declaration fact, the sets of recorded events and handled
      commands of the calls on its class, written under the class. */
  method Aggregates(dataList: seq<CollectedData>) returns (result: OrderedMap<Aggregate>)
    ensures result == AggregateMap(dataList)
  {
    var aggregateData := AggregateRows(dataList);
    var aggregateCallData := AggregateCallRows(dataList);
    ghost var es := AggregateEntries(aggregateData, aggregateCallData);
    result := Empty();
    for i := 0 to |aggregateData|
      invariant result == PutAll(es[..i])
    {
      var data := aggregateData[i];
      var aggregate := CollectAggregate(data, aggregateCallData);
      PutAllPrefix(es, i);
      result := result.Put(data.className, aggregate);
    }
    assert es[..|es|] == es;
  }

  /** `events`: each declaration fact written under its class. */
  method Events(dataList: seq<CollectedData>) returns (result: OrderedMap<Event>)
    ensures result == EventMap(dataList)
  {
    var eventData := EventRows(dataList);
    ghost var es := EventEntries(eventData);
    result := Empty();
    for i := 0 to |eventData|
      invariant result == PutAll(es[..i])
    {
      var data := eventData[i];
      PutAllPrefix(es, i);
      result := result.Put(data.className, Event(data.name, data.className));
    }
    assert es[..|es|] == es;
  }

  /** The inner loops of `subscribers`: the events subscribed to and the commands
      dispatched by the methods of one declared class, each once, in first-seen order. */
  method CollectSubscriber(data: SubscriberRow, subscriberCallData: seq<SubscriberCallRow>) returns (subscriber: Subscriber)
    requires IsSubscriberTypeValue(data.typeName)
    ensures subscriber == SubscriberOf(data, subscriberCallData)
  {
    var events: OrderedMap<bool> := Empty();
    var commands: OrderedMap<bool> := Empty();
    for j := 0 to |subscriberCallData|
      invariant events.Valid() && events.keys == Distinct(SubscribedOf(subscriberCallData[..j], data.className))
      invariant commands.Valid() && commands.keys == Distinct(DispatchedOf(subscriberCallData[..j], data.className))
    {
      SubscribedOfSnoc(subscriberCallData, j, data.className);
      ghost var seenEvents := SubscribedOf(subscriberCallData[..j], data.className);
      ghost var seenCommands := DispatchedOf(subscriberCallData[..j], data.className);
      assert seenEvents + [] == seenEvents && seenCommands + [] == seenCommands;
      var d := subscriberCallData[j];
      if d.subscriberClass != data.className {
        continue;
      }
      for k := 0 to |d.eventClasses|
        invariant events.Valid() && events.keys == Distinct(seenEvents + d.eventClasses[..k])
      {
        SetAddNext(events, seenEvents, d.eventClasses, k);
        events := events.Put(d.eventClasses[k], true);
      }
      assert d.eventClasses[..|d.eventClasses|] == d.eventClasses;
      if d.commandClass.None? {
        continue;
      }
      SetAdd(commands, seenCommands, d.commandClass.value);
      commands := commands.Put(d.commandClass.value, true);
    }
    assert subscriberCallData[..|subscriberCallData|] == subscriberCallData;
    subscriber := Subscriber.Subscriber(data.name, data.className, SubscriberTypeFrom(data.typeName), events.keys, commands.keys);
  }

  /** `subscribers`: for each declaration fact, its type and the events and commands
      of the calls of its methods, written under the class. */
  method Subscribers(dataList: seq<CollectedData>) returns (result: OrderedMap<Subscriber>)
    requires ValidTypes(SubscriberRows(dataList))
    ensures result == SubscriberMap(dataList)
  {
    var subscriberData := SubscriberRows(dataList);
    var subscriberCallData := SubscriberCallRows(dataList);
    ghost var es := SubscriberEntries(subscriberData, subscriberCallData);
    result := Empty();
    for i := 0 to |subscriberData|
      invariant result == PutAll(es[..i])
    {
      var data := subscriberData[i];
      var subscriber := CollectSubscriber(data, subscriberCallData);
      PutAllPrefix(es, i);
      result := result.Put(data.className, subscriber);
    }
    assert es[..|es|] == es;
  }

  /** `commands`: each command of an aggregate-call or dispatch fact, written once,
      with the events `commandToEvents` gives it; None where that raises. */
  method Commands(dataList: seq<CollectedData>) returns (result: Option<OrderedMap<Command>>)
    ensures result == CommandMap(dataList)
  {
    var resolved := CommandToEvents(dataList);
    if resolved.None? {
      return None;
    }
    var commandToEvents := resolved.value;
    var calls := CommandCalls(dataList);
    var written: OrderedMap<Command> := Empty();
    for i := 0 to |calls|
      invariant written == PutFirst(CommandEntries(calls[..i], commandToEvents))
    {
      CommandEntriesSnoc(calls, commandToEvents, i);
      var commandClass := CommandOf(calls[i]);
      if commandClass.None? {
        continue;
      }
      var c := commandClass.value;
      PutFirstSnoc(CommandEntries(calls[..i], commandToEvents), (c, CommandOfClass(c, commandToEvents)));
      if c in written.values {
        continue;
      }
      written := written.Put(c, Command(ClassToName(c), c, if c in commandToEvents.values then commandToEvents.values[c] else []));
    }
    assert calls[..|calls|] == calls;
    result := Some(written);
  }

  /** `userInterfaces`: each controller created on first sight, then its dispatched
      commands and accessed subscribers appended. */
  method UserInterfaces(dataList: seq<CollectedData>) returns (result: OrderedMap<UserInterface>)
    ensures result == InterfaceMap(dataList)
  {
    var commandCallData := DispatchRows(dataList);
    var subscriberCallData := AccessRows(dataList);
    result := Empty();
    for i := 0 to |commandCallData|
      invariant result == AfterDispatches(commandCallData[..i])
    {
      AfterDispatchesSnoc(commandCallData, i);
      var data := commandCallData[i];
      var c := data.controllerClass;
      CreateThenAddCommand(result, c, data.commandClass);
      if c !in result.values {
        result := result.Put(c, UserInterface(ClassToName(c), c, [], []));
      }
      var ui := result.values[c];
      result := result.Put(c, ui.(commands := ui.commands + [data.commandClass]));
    }
    assert commandCallData[..|commandCallData|] == commandCallData;
    ghost var afterDispatches := result;
    for i := 0 to |subscriberCallData|
      invariant result == AfterAccesses(afterDispatches, subscriberCallData[..i])
    {
      AfterAccessesSnoc(afterDispatches, subscriberCallData, i);
      var data := subscriberCallData[i];
      var c := data.controllerClass;
      CreateThenAddSubscriber(result, c, data.subscriberClass);
      if c !in result.values {
        result := result.Put(c, UserInterface(ClassToName(c), c, [], []));
      }
      var ui := result.values[c];
      result := result.Put(c, ui.(subscribers := ui.subscribers + [data.subscriberClass]));
    }
    assert subscriberCallData[..|subscriberCallData|] == subscriberCallData;
  }

  /** One loop of `boundedContexts` (the source repeats it once per kind): each
      identity with a context is appended to its kind's list there, the context
      created on first use. */
  method AddToContexts(boundedContexts: OrderedMap<BoundedContext>, ids: seq<string>, kind: Kind)
    returns (result: OrderedMap<BoundedContext>)
    ensures result == Assign(boundedContexts, ids, kind)
  {
    result := boundedContexts;
    for i := 0 to |ids|
      invariant result == Assign(boundedContexts, ids[..i], kind)
    {
      AssignSnoc(boundedContexts, ids, kind, i);
      var boundedContextName := BoundedContextOf(ids[i]);
      if boundedContextName.None? {
        continue;
      }
      var name := boundedContextName.value;
      CreateThenAddMember(result, name, kind, ids[i]);
      if name !in result.values {
        result := result.Put(name, NewContext(name));
      }
      result := result.Put(name, AddMember(result.values[name], kind, ids[i]));
    }
    assert ids[..|ids|] == ids;
  }

  /** `boundedContexts`: the keys of the five maps, aggregates first, then events,
      commands, subscribers and user interfaces. */
  method BoundedContexts(
    aggregates: OrderedMap<Aggregate>, events: OrderedMap<Event>, subscribers: OrderedMap<Subscriber>,
    commands: OrderedMap<Command>, userInterfaces: OrderedMap<UserInterface>)
    returns (result: OrderedMap<BoundedContext>)
    ensures result == ContextMap(aggregates.keys, events.keys, commands.keys, subscribers.keys, userInterfaces.keys)
  {
    result := Empty();
    result := AddToContexts(result, aggregates.keys, Kind.Aggregates);
    result := AddToContexts(result, events.keys, Kind.Events);
    result := AddToContexts(result, commands.keys, Kind.Commands);
    result := AddToContexts(result, subscribers.keys, Kind.Subscribers);
    result := AddToContexts(result, userInterfaces.keys, Kind.UserInterfaces);
  }

  /** The project `__invoke` builds from the facts; None where `commands` raises. */
  function ProjectOf(facts: seq<CollectedData>): Option<Project>
    requires ValidTypes(SubscriberRows(facts))
  {
    match CommandMap(facts)
    case None => None
    case Some(commands) =>
      var aggregates := AggregateMap(facts);
      var events := EventMap(facts);
      var subscribers := SubscriberMap(facts);
      var userInterfaces := InterfaceMap(facts);
      Some(Project(
        ContextMap(aggregates.keys, events.keys, commands.keys, subscribers.keys, userInterfaces.keys),
        aggregates, events, commands, subscribers, userInterfaces))
  }

  /** `__invoke`: the five entity maps, then their bounded contexts. */
  method Invoke(collectedDataList: seq<CollectedData>) returns (project: Option<Project>)
    requires ValidTypes(SubscriberRows(collectedDataList))
    ensures project == ProjectOf(collectedDataList)
  {
    var aggregates := Aggregates(collectedDataList);
    var events := Events(collectedDataList);
    var subscribers := Subscribers(collectedDataList);
    var commands := Commands(collectedDataList);
    if commands.None? {
      return None;
    }
    var userInterfaces := UserInterfaces(collectedDataList);
    var boundedContexts := BoundedContexts(aggregates, events, subscribers, commands.value, userInterfaces);
    project := Some(Project(boundedContexts, aggregates, events, commands.value, subscribers, userInterfaces));
  }

  /** `__invoke` raises exactly when resolving some command from the first fact that
      carries it does. Facts meeting `AllSupported` whose index also names the
      callee of every call recording no event (`Named`, an extra assumption) always
      give a project. */
  lemma InvokeFails(facts: seq<CollectedData>)
    requires ValidTypes(SubscriberRows(facts))
    ensures var rows := AggregateCallRows(facts);
      ProjectOf(facts).None? <==> exists i :: FirstCarries(rows, i) && ResolveRow(CallIndex(rows), rows[i]).None?
    ensures AllSupported(facts) && Named(CallIndex(AggregateCallRows(facts))) ==> ProjectOf(facts).Some?
  {
    CommandMapSpec(facts);
    CommandEventsFails(facts);
    if AllSupported(facts) && Named(CallIndex(AggregateCallRows(facts))) {
      SupportedFacts(facts);
      CommandEventsSucceed(facts);
    }
  }

  /** The identities of one kind in a project: the keys of its map. */
  function KindKeys(p: Project, k: Kind): seq<string> {
    IdsOf(k, p.aggregates.keys, p.events.keys, p.commands.keys, p.subscribers.keys, p.userInterfaces.keys)
  }

  /** The bounded contexts partition the project: an entity of a kind is listed
      under a context exactly when it is in the project and its class name names that
      context, and no context lists an entity twice. */
  lemma ProjectContextMembers(facts: seq<CollectedData>, name: string, k: Kind, id: string)
    requires ValidTypes(SubscriberRows(facts))
    requires ProjectOf(facts).Some?
    ensures var p := ProjectOf(facts).value;
      var listed := Members(ContextOf(p.boundedContexts, name), k);
      (id in listed <==> id in KindKeys(p, k) && BoundedContextOf(id) == Some(name)) &&
      NoDup(listed)
  {
    var p := ProjectOf(facts).value;
    PutAllKeys(AggregateEntries(AggregateRows(facts), AggregateCallRows(facts)));
    PutAllKeys(EventEntries(EventRows(facts)));
    CommandMapSpec(facts);
    PutAllKeys(SubscriberEntries(SubscriberRows(facts), SubscriberCallRows(facts)));
    assert p.aggregates.Valid() && p.events.Valid() && p.commands.Valid();
    AfterDispatchesKeys(DispatchRows(facts));
    AfterAccessesKeys(AfterDispatches(DispatchRows(facts)), AccessRows(facts));
    assert p.subscribers.Valid() && p.userInterfaces.Valid();
    ContextMapPartition(p.aggregates.keys, p.events.keys, p.commands.keys, p.subscribers.keys, p.userInterfaces.keys, name, k, id);
  }

  /** Every context of the project is stored under its own name and holds some
      entity; every entity with a context has that context in the project. */
  lemma ProjectContexts(facts: seq<CollectedData>, name: string)
    requires ValidTypes(SubscriberRows(facts))
    requires ProjectOf(facts).Some?
    ensures var p := ProjectOf(facts).value;
      p.boundedContexts.Valid() &&
      (name in p.boundedContexts.values ==>
        p.boundedContexts.values[name].name == name &&
        exists k :: Members(p.boundedContexts.values[name], k) != []) &&
      (forall k, id :: id in KindKeys(p, k) && BoundedContextOf(id) == Some(name) ==> name in p.boundedContexts.values)
  {
    var p := ProjectOf(facts).value;
    var a, e, c, s, u := p.aggregates.keys, p.events.keys, p.commands.keys, p.subscribers.keys, p.userInterfaces.keys;
    ContextMapKeys(a, e, c, s, u);
    if name in p.boundedContexts.values {
      ContextMapAt(a, e, c, s, u, name);
      var k := ContextNonEmpty(a, e, c, s, u, name);
    }
    forall k, id | id in KindKeys(p, k) && BoundedContextOf(id) == Some(name)
      ensures name in p.boundedContexts.values
    {
      ContextCreated(a, e, c, s, u, k, id, name);
    }
  }
}
