/**
 * `Helper`: an older copy of the assembly that returns plain records instead of
 * the `Data` classes. Its `commandToEvents`, `resolveCallForEvents` and
 * `classToName` have the bodies of the `ProjectFactory` ones, which model them
 * (`ProjectFactory.CommandToEvents`, `ProjectFactory.ResolveCallForEvents`,
 * `Names.ClassToName`); the methods here are the ones whose results differ in
 * shape, each proved to give the `ProjectFactory` result in that shape.
 */
module Helper {
  import opened Facts
  import opened PhpArray
  import opened Data
  import opened Assembly

  /** The record `Helper::aggregates` writes per class. */
  datatype AggregateRecord = AggregateRecord(name: string, className: string, events: seq<string>, commands: seq<string>)

  /** The record `Helper::subscribers` writes per class: the raw type string, no class. */
  datatype SubscriberRecord = SubscriberRecord(name: string, typeName: string, events: seq<string>, commands: seq<string>)

  /** The record `Helper::controller` writes per controller. */
  datatype ControllerRecord = ControllerRecord(commands: seq<string>, subscribers: seq<string>)

  function AggregateRecordOf(a: Aggregate): AggregateRecord {
    AggregateRecord(a.name, a.className, a.events, a.commands)
  }

  function EventName(e: Event): string {
    e.name
  }

  function ControllerRecordOf(ui: UserInterface): ControllerRecord {
    ControllerRecord(ui.commands, ui.subscribers)
  }

  /** The record of one subscriber declaration. */
  function SubscriberRecordOf(row: SubscriberRow, calls: seq<SubscriberCallRow>): SubscriberRecord {
    SubscriberRecord(row.name, row.typeName, Distinct(SubscribedOf(calls, row.className)), Distinct(DispatchedOf(calls, row.className)))
  }

  function SubscriberRecordEntries(rows: seq<SubscriberRow>, calls: seq<SubscriberCallRow>): (es: seq<(string, SubscriberRecord)>)
    ensures |es| == |rows|
    ensures forall i :: 0 <= i < |rows| ==> es[i] == (rows[i].className, SubscriberRecordOf(rows[i], calls))
  {
    seq(|rows|, i requires 0 <= i < |rows| => (rows[i].className, SubscriberRecordOf(rows[i], calls)))
  }

  /** `Helper::subscribers`, which passes any type string through. */
  function SubscriberRecords(facts: seq<CollectedData>): OrderedMap<SubscriberRecord> {
    PutAll(SubscriberRecordEntries(SubscriberRows(facts), SubscriberCallRows(facts)))
  }

  function SubscriberRecordFrom(s: Subscriber): SubscriberRecord {
    SubscriberRecord(s.name, s.subscriberType.Value(), s.events, s.commands)
  }

  /** The record of one aggregate declaration. */
  function AggregateRecordFor(row: AggregateRow, calls: seq<AggregateCallRow>): AggregateRecord {
    AggregateRecord(row.name, row.className, Distinct(EventsOf(calls, row.className)), Distinct(CommandsOf(calls, row.className)))
  }

  function AggregateRecordEntries(rows: seq<AggregateRow>, calls: seq<AggregateCallRow>): (es: seq<(string, AggregateRecord)>)
    ensures |es| == |rows|
    ensures forall i :: 0 <= i < |rows| ==> es[i] == (rows[i].className, AggregateRecordFor(rows[i], calls))
  {
    seq(|rows|, i requires 0 <= i < |rows| => (rows[i].className, AggregateRecordFor(rows[i], calls)))
  }

  /** `Helper::aggregates`. */
  function AggregateRecords(facts: seq<CollectedData>): OrderedMap<AggregateRecord> {
    PutAll(AggregateRecordEntries(AggregateRows(facts), AggregateCallRows(facts)))
  }

  /** `Helper::aggregates` gives, per declared class, the name, class, events and
      commands of `ProjectFactory::aggregates`, under the same keys in the same order. */
  lemma AggregateRecordsAgree(facts: seq<CollectedData>)
    ensures AggregateRecords(facts) == MapValues(AggregateMap(facts), AggregateRecordOf)
  {
    var rows, calls := AggregateRows(facts), AggregateCallRows(facts);
    PutAllMapValues(AggregateEntries(rows, calls), AggregateRecordEntries(rows, calls), AggregateRecordOf);
  }

  /** The inner loop of `Helper::aggregates` for one declared class. */
  method CollectAggregateRecord(data: AggregateRow, aggregateCallData: seq<AggregateCallRow>) returns (record: AggregateRecord)
    ensures record == AggregateRecordFor(data, aggregateCallData)
  {
    var events: OrderedMap<bool> := Empty();
    var commands: OrderedMap<bool> := Empty();
    for j := 0 to |aggregateCallData|
      invariant events.Valid() && events.keys == Distinct(EventsOf(aggregateCallData[..j], data.className))
      invariant commands.Valid() && commands.keys == Distinct(CommandsOf(aggregateCallData[..j], data.className))
    {
      CollectEventStep(events, aggregateCallData, j, data.className);
      CollectCommandStep(commands, aggregateCallData, j, data.className);
      var d := aggregateCallData[j];
      if d.aggregateClass != data.className {
        continue;
      }
      if d.eventClass.Some? {
        events := events.Put(d.eventClass.value, true);
      }
      if d.commandClass.Some? {
        commands := commands.Put(d.commandClass.value, true);
      }
    }
    assert aggregateCallData[..|aggregateCallData|] == aggregateCallData;
    record := AggregateRecord(data.name, data.className, events.keys, commands.keys);
  }

  /** `Helper::aggregates`. */
  method Aggregates(dataList: seq<CollectedData>) returns (result: OrderedMap<AggregateRecord>)
    ensures result == AggregateRecords(dataList)
  {
    var aggregateData := AggregateRows(dataList);
    var aggregateCallData := AggregateCallRows(dataList);
    ghost var rs := AggregateRecordEntries(aggregateData, aggregateCallData);
    result := Empty();
    for i := 0 to |aggregateData|
      invariant result == PutAll(rs[..i])
    {
      var data := aggregateData[i];
      var record := CollectAggregateRecord(data, aggregateCallData);
      PutAllPrefix(rs, i);
      result := result.Put(data.className, record);
    }
    assert rs[..|rs|] == rs;
  }

  /** `Helper::events`: class to name, a later declaration overwriting the name. */
  method Events(dataList: seq<CollectedData>) returns (result: OrderedMap<string>)
    ensures result == MapValues(EventMap(dataList), EventName)
  {
    var eventData := EventRows(dataList);
    ghost var es := EventEntries(eventData);
    result := Empty();
    for i := 0 to |eventData|
      invariant result == MapValues(PutAll(es[..i]), EventName)
    {
      var data := eventData[i];
      PutAllPrefix(es, i);
      MapValuesPut(PutAll(es[..i]), es[i].0, es[i].1, EventName);
      result := result.Put(data.className, data.name);
    }
    assert es[..|es|] == es;
  }

  /** The inner loops of `Helper::subscribers` for one declared class. */
  method CollectSubscriberRecord(data: SubscriberRow, subscriberCallData: seq<SubscriberCallRow>) returns (record: SubscriberRecord)
    ensures record == SubscriberRecordOf(data, subscriberCallData)
  {
    var events: OrderedMap<bool> := Empty();
    var commands: OrderedMap<bool> := Empty();
    for j := 0 to |subscriberCallData|
      invariant events.Valid() && events.keys == Distinct(SubscribedOf(subscriberCallData[..j], data.className))
      invariant commands.Valid() && commands.keys == Distinct(DispatchedOf(subscriberCallData[..j], data.className))
    {
      SubscribedOfSnoc(subscriberCallData, j, data.className);
      ghost var seenEvents := SubscribedOf(subscriberCallData[..j], data.className);
      ghost var seenCommands := DispatchedOf(subscriberCallData[..j], data.className);
      assert seenEvents + [] == seenEvents && seenCommands + [] == seenCommands;
      var d := subscriberCallData[j];
      if d.subscriberClass != data.className {
        continue;
      }
      for k := 0 to |d.eventClasses|
        invariant events.Valid() && events.keys == Distinct(seenEvents + d.eventClasses[..k])
      {
        SetAddNext(events, seenEvents, d.eventClasses, k);
        events := events.Put(d.eventClasses[k], true);
      }
      assert d.eventClasses[..|d.eventClasses|] == d.eventClasses;
      if d.commandClass.Some? {
        SetAdd(commands, seenCommands, d.commandClass.value);
        commands := commands.Put(d.commandClass.value, true);
      }
    }
    assert subscriberCallData[..|subscriberCallData|] == subscriberCallData;
    record := SubscriberRecord(data.name, data.typeName, events.keys, commands.keys);
  }

  /** `Helper::subscribers`. */
  method Subscribers(dataList: seq<CollectedData>) returns (result: OrderedMap<SubscriberRecord>)
    ensures result == SubscriberRecords(dataList)
  {
    var subscriberData := SubscriberRows(dataList);
    var subscriberCallData := SubscriberCallRows(dataList);
    ghost var es := SubscriberRecordEntries(subscriberData, subscriberCallData);
    result := Empty();
    for i := 0 to |subscriberData|
      invariant result == PutAll(es[..i])
    {
      var data := subscriberData[i];
      var record := CollectSubscriberRecord(data, subscriberCallData);
      PutAllPrefix(es, i);
      result := result.Put(data.className, record);
    }
    assert es[..|es|] == es;
  }

  /** `Helper::controller`: per controller its dispatched commands and accessed
      subscribers, both lists present, in fact order with repeats. */
  method Controller(dataList: seq<CollectedData>) returns (result: OrderedMap<ControllerRecord>)
    ensures result == MapValues(InterfaceMap(dataList), ControllerRecordOf)
  {
    var commandCallData := DispatchRows(dataList);
    var subscriberCallData := AccessRows(dataList);
    result := Empty();
    assert MapValues(AfterDispatches(commandCallData[..0]), ControllerRecordOf).values == result.values;
    for i := 0 to |commandCallData|
      invariant result == MapValues(AfterDispatches(commandCallData[..i]), ControllerRecordOf)
    {
      AfterDispatchesSnoc(commandCallData, i);
      var data := commandCallData[i];
      var c := data.controllerClass;
      ghost var m := AfterDispatches(commandCallData[..i]);
      ghost var ui := InterfaceOf(m, c);
      MapValuesPut(m, c, ui.(commands := ui.commands + [data.commandClass]), ControllerRecordOf);
      var record := if c in result.values then result.values[c] else ControllerRecord([], []);
      result := result.Put(c, record.(commands := record.commands + [data.commandClass]));
    }
    assert commandCallData[..|commandCallData|] == commandCallData;
    ghost var afterDispatches := AfterDispatches(commandCallData);
    assert subscriberCallData[..0] == [];
    for i := 0 to |subscriberCallData|
      invariant result == MapValues(AfterAccesses(afterDispatches, subscriberCallData[..i]), ControllerRecordOf)
    {
      AfterAccessesSnoc(afterDispatches, subscriberCallData, i);
      var data := subscriberCallData[i];
      var c := data.controllerClass;
      ghost var m := AfterAccesses(afterDispatches, subscriberCallData[..i]);
      ghost var ui := InterfaceOf(m, c);
      MapValuesPut(m, c, ui.(subscribers := ui.subscribers + [data.subscriberClass]), ControllerRecordOf);
      var record := if c in result.values then result.values[c] else ControllerRecord([], []);
      result := result.Put(c, record.(subscribers := record.subscribers + [data.subscriberClass]));
    }
    assert subscriberCallData[..|subscriberCallData|] == subscriberCallData;
  }

  /** With the three known type strings, `Helper::subscribers` is
      `ProjectFactory::subscribers` with the type back as its string and the class
      dropped. */
  lemma SubscriberRecordsAgree(facts: seq<CollectedData>)
    requires ValidTypes(SubscriberRows(facts))
    ensures SubscriberRecords(facts) == MapValues(SubscriberMap(facts), SubscriberRecordFrom)
  {
    var rows, calls := SubscriberRows(facts), SubscriberCallRows(facts);
    var es := SubscriberEntries(rows, calls);
    var rs := SubscriberRecordEntries(rows, calls);
    forall i | 0 <= i < |es|
      ensures rs[i] == (es[i].0, SubscriberRecordFrom(es[i].1))
    {
      assert SubscriberTypeFrom(rows[i].typeName).Value() == rows[i].typeName;
    }
    PutAllMapValues(es, rs, SubscriberRecordFrom);
  }
}
