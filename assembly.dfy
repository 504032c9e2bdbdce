/**
 * What `ProjectFactory` builds from the collected facts, one entity map at a
 * time, stated as folds over the facts in order. The methods in
 * `ProjectFactory` are proved to compute exactly these; the lemmas here say
 * what the maps contain.
 */
module Assembly {
  import opened Facts
  import opened PhpArray
  import opened Data
  import opened Names
  import opened CallGraph

  // ---------------------------------------------------------------- aggregates

  /** The recorded events of the calls on aggregate `cls`, in fact order, repeats kept. */
  function EventsOf(calls: seq<AggregateCallRow>, cls: string): seq<string> {
    if calls == [] then []
    else
      var n := |calls| - 1;
      var d := calls[n];
      EventsOf(calls[..n], cls) + (if d.aggregateClass == cls && d.eventClass.Some? then [d.eventClass.value] else [])
  }

  /** The handled commands of the calls on aggregate `cls`, in fact order, repeats kept. */
  function CommandsOf(calls: seq<AggregateCallRow>, cls: string): seq<string> {
    if calls == [] then []
    else
      var n := |calls| - 1;
      var d := calls[n];
      CommandsOf(calls[..n], cls) + (if d.aggregateClass == cls && d.commandClass.Some? then [d.commandClass.value] else [])
  }

  /** The events collected for `cls` are exactly those recorded by a call on `cls`. */
  lemma {:induction false} EventsOfMembers(calls: seq<AggregateCallRow>, cls: string)
    ensures forall e :: e in EventsOf(calls, cls) <==> exists d :: d in calls && d.aggregateClass == cls && d.eventClass == Some(e)
  {
    if calls != [] {
      var n := |calls| - 1;
      assert calls == calls[..n] + [calls[n]];
      EventsOfMembers(calls[..n], cls);
    }
  }

  /** The commands collected for `cls` are exactly those carried by a call on `cls`. */
  lemma {:induction false} CommandsOfMembers(calls: seq<AggregateCallRow>, cls: string)
    ensures forall c :: c in CommandsOf(calls, cls) <==> exists d :: d in calls && d.aggregateClass == cls && d.commandClass == Some(c)
  {
    if calls != [] {
      var n := |calls| - 1;
      assert calls == calls[..n] + [calls[n]];
      CommandsOfMembers(calls[..n], cls);
    }
  }

  /** One more call fact in the loop over the calls of `aggregates`: its event is
      added to the set when it is on `cls` and records one, else the events stay. */
  lemma CollectEventStep(events: OrderedMap<bool>, calls: seq<AggregateCallRow>, j: nat, cls: string)
    requires j < |calls|
    requires events.Valid() && events.keys == Distinct(EventsOf(calls[..j], cls))
    ensures var d := calls[j];
      if d.aggregateClass == cls && d.eventClass.Some? then
        var added := events.Put(d.eventClass.value, true);
        added.Valid() && added.keys == Distinct(EventsOf(calls[..j + 1], cls))
      else EventsOf(calls[..j + 1], cls) == EventsOf(calls[..j], cls)
  {
    var seen := EventsOf(calls[..j], cls);
    var d := calls[j];
    assert calls[..j + 1] == calls[..j] + [d];
    assert calls[..j + 1][..j] == calls[..j];
    assert EventsOf(calls[..j + 1], cls) == seen + (if d.aggregateClass == cls && d.eventClass.Some? then [d.eventClass.value] else []);
    if d.aggregateClass == cls && d.eventClass.Some? {
      SetAdd(events, seen, d.eventClass.value);
    } else {
      assert seen + [] == seen;
    }
  }

  /** The same for the commands handled by the calls on `cls`. */
  lemma CollectCommandStep(commands: OrderedMap<bool>, calls: seq<AggregateCallRow>, j: nat, cls: string)
    requires j < |calls|
    requires commands.Valid() && commands.keys == Distinct(CommandsOf(calls[..j], cls))
    ensures var d := calls[j];
      if d.aggregateClass == cls && d.commandClass.Some? then
        var added := commands.Put(d.commandClass.value, true);
        added.Valid() && added.keys == Distinct(CommandsOf(calls[..j + 1], cls))
      else CommandsOf(calls[..j + 1], cls) == CommandsOf(calls[..j], cls)
  {
    var seen := CommandsOf(calls[..j], cls);
    var d := calls[j];
    assert calls[..j + 1] == calls[..j] + [d];
    assert calls[..j + 1][..j] == calls[..j];
    assert CommandsOf(calls[..j + 1], cls) == seen + (if d.aggregateClass == cls && d.commandClass.Some? then [d.commandClass.value] else []);
    if d.aggregateClass == cls && d.commandClass.Some? {
      SetAdd(commands, seen, d.commandClass.value);
    } else {
      assert seen + [] == seen;
    }
  }


  /** The aggregate one declaration fact gives. */
  function AggregateOf(row: AggregateRow, calls: seq<AggregateCallRow>): Aggregate {
    Aggregate(row.name, row.className, Distinct(EventsOf(calls, row.className)), Distinct(CommandsOf(calls, row.className)))
  }

  function AggregateEntries(rows: seq<AggregateRow>, calls: seq<AggregateCallRow>): (es: seq<(string, Aggregate)>)
    ensures |es| == |rows|
    ensures forall i :: 0 <= i < |rows| ==> es[i] == (rows[i].className, AggregateOf(rows[i], calls))
  {
    seq(|rows|, i requires 0 <= i < |rows| => (rows[i].className, AggregateOf(rows[i], calls)))
  }

  /** `aggregates`: one entry per declared class, written in declaration order. */
  function AggregateMap(facts: seq<CollectedData>): OrderedMap<Aggregate> {
    PutAll(AggregateEntries(AggregateRows(facts), AggregateCallRows(facts)))
  }

  /** The declared class names, in order, repeats kept. */
  function AggregateClasses(rows: seq<AggregateRow>): (classes: seq<string>)
    ensures |classes| == |rows| && forall i :: 0 <= i < |rows| ==> classes[i] == rows[i].className
  {
    seq(|rows|, i requires 0 <= i < |rows| => rows[i].className)
  }

  /** The aggregate map is keyed by exactly the declared classes, each once, in the
      order of their first declaration; classes that only occur in call facts are absent. */
  lemma AggregateMapKeys(facts: seq<CollectedData>)
    ensures AggregateMap(facts).Valid()
    ensures AggregateMap(facts).keys == Distinct(AggregateClasses(AggregateRows(facts)))
  {
    var rows := AggregateRows(facts);
    PutAllKeys(AggregateEntries(rows, AggregateCallRows(facts)));
    assert KeysOf(AggregateEntries(rows, AggregateCallRows(facts))) == AggregateClasses(rows);
  }

  /** The entry of a class comes from its last declaration: that declaration's name,
      the distinct recorded events and the distinct handled commands of the calls on
      the class, in first-seen order. */
  lemma AggregateMapEntry(facts: seq<CollectedData>, i: nat)
    requires i < |AggregateRows(facts)|
    requires forall j :: i < j < |AggregateRows(facts)| ==> AggregateRows(facts)[j].className != AggregateRows(facts)[i].className
    ensures var row := AggregateRows(facts)[i];
      var calls := AggregateCallRows(facts);
      row.className in AggregateMap(facts).values &&
      AggregateMap(facts).values[row.className] ==
        Aggregate(row.name, row.className, Distinct(EventsOf(calls, row.className)), Distinct(CommandsOf(calls, row.className)))
  {
    PutAllLast(AggregateEntries(AggregateRows(facts), AggregateCallRows(facts)), i);
  }

  /** Every key of the aggregate map is a declared class, holding its last declaration. */
  lemma AggregateAt(facts: seq<CollectedData>, cls: string) returns (i: nat)
    requires cls in AggregateMap(facts).values
    ensures i < |AggregateRows(facts)| && AggregateRows(facts)[i].className == cls
    ensures forall j :: i < j < |AggregateRows(facts)| ==> AggregateRows(facts)[j].className != cls
    ensures AggregateMap(facts).values[cls] == AggregateOf(AggregateRows(facts)[i], AggregateCallRows(facts))
  {
    i := PutAllAt(AggregateEntries(AggregateRows(facts), AggregateCallRows(facts)), cls);
  }

  /** An aggregate's events are exactly the event classes its calls record, each once. */
  lemma AggregateEvents(facts: seq<CollectedData>, cls: string, e: string)
    requires cls in AggregateMap(facts).values
    ensures e in AggregateMap(facts).values[cls].events <==>
      exists d :: d in AggregateCallRows(facts) && d.aggregateClass == cls && d.eventClass == Some(e)
    ensures NoDup(AggregateMap(facts).values[cls].events)
  {
    var i := AggregateAt(facts, cls);
    EventsOfMembers(AggregateCallRows(facts), cls);
  }

  /** An aggregate's commands are exactly the command classes its calls carry, each once. */
  lemma AggregateCommands(facts: seq<CollectedData>, cls: string, c: string)
    requires cls in AggregateMap(facts).values
    ensures c in AggregateMap(facts).values[cls].commands <==>
      exists d :: d in AggregateCallRows(facts) && d.aggregateClass == cls && d.commandClass == Some(c)
    ensures NoDup(AggregateMap(facts).values[cls].commands)
  {
    var i := AggregateAt(facts, cls);
    CommandsOfMembers(AggregateCallRows(facts), cls);
  }

  // -------------------------------------------------------------------- events

  function EventEntries(rows: seq<EventRow>): (es: seq<(string, Event)>)
    ensures |es| == |rows|
    ensures forall i :: 0 <= i < |rows| ==> es[i] == (rows[i].className, Event(rows[i].name, rows[i].className))
  {
    seq(|rows|, i requires 0 <= i < |rows| => (rows[i].className, Event(rows[i].name, rows[i].className)))
  }

  /** `events`: one entry per declared event class. */
  function EventMap(facts: seq<CollectedData>): OrderedMap<Event> {
    PutAll(EventEntries(EventRows(facts)))
  }

  /** Each declared event class is present, holding the name of its last declaration. */
  lemma EventMapEntry(facts: seq<CollectedData>, i: nat)
    requires i < |EventRows(facts)|
    requires forall j :: i < j < |EventRows(facts)| ==> EventRows(facts)[j].className != EventRows(facts)[i].className
    ensures var row := EventRows(facts)[i];
      row.className in EventMap(facts).values && EventMap(facts).values[row.className] == Event(row.name, row.className)
  {
    PutAllLast(EventEntries(EventRows(facts)), i);
  }

  /** Nothing but declared event classes is present. */
  lemma EventMapKeys(facts: seq<CollectedData>, k: string)
    ensures EventMap(facts).Valid()
    ensures k in EventMap(facts).values <==> exists r :: r in EventRows(facts) && r.className == k
  {
    PutAllKeys(EventEntries(EventRows(facts)));
    EventEntriesKeys(EventRows(facts), k);
  }

  /** The keys written by the event declarations are their classes. */
  lemma EventEntriesKeys(rows: seq<EventRow>, k: string)
    ensures k in PutAll(EventEntries(rows)).values <==> exists r :: r in rows && r.className == k
  {
    var es := EventEntries(rows);
    var m := PutAll(es);
    PutAllKeys(es);
    if k in m.values {
      assert k in m.keys;
      var ks := KeysOf(es);
      assert k in ks;
      var i := IndexOf(ks, k);
      assert es[i].0 == k && rows[i].className == k;
      assert rows[i] in rows;
    }
    if exists r :: r in rows && r.className == k {
      var r :| r in rows && r.className == k;
      var i :| 0 <= i < |rows| && rows[i] == r;
      PutAllHas(es, i);
    }
  }

  // --------------------------------------------------------------- subscribers

  /** The subscribed events of the calls in subscriber `cls`, concatenated in fact order. */
  function SubscribedOf(calls: seq<SubscriberCallRow>, cls: string): seq<string> {
    if calls == [] then []
    else
      var n := |calls| - 1;
      var d := calls[n];
      SubscribedOf(calls[..n], cls) + (if d.subscriberClass == cls then d.eventClasses else [])
  }

  /** The dispatched commands of the calls in subscriber `cls`, in fact order. */
  function DispatchedOf(calls: seq<SubscriberCallRow>, cls: string): seq<string> {
    if calls == [] then []
    else
      var n := |calls| - 1;
      var d := calls[n];
      DispatchedOf(calls[..n], cls) + (if d.subscriberClass == cls && d.commandClass.Some? then [d.commandClass.value] else [])
  }

  /** The events collected for `cls` are exactly those some method of `cls` subscribes to. */
  lemma {:induction false} SubscribedOfMembers(calls: seq<SubscriberCallRow>, cls: string)
    ensures forall e :: e in SubscribedOf(calls, cls) <==> exists d :: d in calls && d.subscriberClass == cls && e in d.eventClasses
  {
    if calls != [] {
      var n := |calls| - 1;
      assert calls == calls[..n] + [calls[n]];
      SubscribedOfMembers(calls[..n], cls);
    }
  }

  /** The commands collected for `cls` are exactly those some method of `cls` dispatches. */
  lemma {:induction false} DispatchedOfMembers(calls: seq<SubscriberCallRow>, cls: string)
    ensures forall c :: c in DispatchedOf(calls, cls) <==> exists d :: d in calls && d.subscriberClass == cls && d.commandClass == Some(c)
  {
    if calls != [] {
      var n := |calls| - 1;
      assert calls == calls[..n] + [calls[n]];
      DispatchedOfMembers(calls[..n], cls);
    }
  }

  /** One more call fact, for the loop over the calls of `subscribers`. */
  lemma SubscribedOfSnoc(calls: seq<SubscriberCallRow>, j: nat, cls: string)
    requires j < |calls|
    ensures SubscribedOf(calls[..j + 1], cls) ==
      SubscribedOf(calls[..j], cls) + (if calls[j].subscriberClass == cls then calls[j].eventClasses else [])
    ensures DispatchedOf(calls[..j + 1], cls) ==
      DispatchedOf(calls[..j], cls) + (if calls[j].subscriberClass == cls && calls[j].commandClass.Some? then [calls[j].commandClass.value] else [])
  {
    assert calls[..j + 1][..j] == calls[..j];
  }

  /** The declared types are backing values of `SubscriberType`. */
  predicate ValidTypes(rows: seq<SubscriberRow>) {
    forall i :: 0 <= i < |rows| ==> IsSubscriberTypeValue(rows[i].typeName)
  }

  function SubscriberOf(row: SubscriberRow, calls: seq<SubscriberCallRow>): Subscriber
    requires IsSubscriberTypeValue(row.typeName)
  {
    Subscriber.Subscriber(
      row.name, row.className, SubscriberTypeFrom(row.typeName),
      Distinct(SubscribedOf(calls, row.className)), Distinct(DispatchedOf(calls, row.className)))
  }

  function SubscriberEntries(rows: seq<SubscriberRow>, calls: seq<SubscriberCallRow>): (es: seq<(string, Subscriber)>)
    requires ValidTypes(rows)
    ensures |es| == |rows|
    ensures forall i :: 0 <= i < |rows| ==> es[i] == (rows[i].className, SubscriberOf(rows[i], calls))
  {
    seq(|rows|, i requires 0 <= i < |rows| => (rows[i].className, SubscriberOf(rows[i], calls)))
  }

  /** `subscribers`: one entry per declared subscriber class. */
  function SubscriberMap(facts: seq<CollectedData>): OrderedMap<Subscriber>
    requires ValidTypes(SubscriberRows(facts))
  {
    PutAll(SubscriberEntries(SubscriberRows(facts), SubscriberCallRows(facts)))
  }

  /** The entry of a subscriber comes from its last declaration, typed by its type
      string; its events are the distinct subscribed events (the wildcard `*`
      among them like any other), its commands the distinct dispatched commands. */
  lemma SubscriberMapEntry(facts: seq<CollectedData>, i: nat)
    requires ValidTypes(SubscriberRows(facts))
    requires i < |SubscriberRows(facts)|
    requires forall j :: i < j < |SubscriberRows(facts)| ==> SubscriberRows(facts)[j].className != SubscriberRows(facts)[i].className
    ensures var row := SubscriberRows(facts)[i];
      var calls := SubscriberCallRows(facts);
      row.className in SubscriberMap(facts).values &&
      var s := SubscriberMap(facts).values[row.className];
      s.name == row.name && s.className == row.className && s.subscriberType.Value() == row.typeName &&
      s.events == Distinct(SubscribedOf(calls, row.className)) &&
      s.commands == Distinct(DispatchedOf(calls, row.className))
  {
    PutAllLast(SubscriberEntries(SubscriberRows(facts), SubscriberCallRows(facts)), i);
  }

  /** The subscriber map is keyed by the declared subscriber classes in order of first declaration. */
  lemma SubscriberMapKeys(facts: seq<CollectedData>)
    requires ValidTypes(SubscriberRows(facts))
    ensures SubscriberMap(facts).Valid()
    ensures SubscriberMap(facts).keys == Distinct(SubscriberClasses(SubscriberRows(facts)))
  {
    var rows := SubscriberRows(facts);
    PutAllKeys(SubscriberEntries(rows, SubscriberCallRows(facts)));
    assert KeysOf(SubscriberEntries(rows, SubscriberCallRows(facts))) == SubscriberClasses(rows);
  }

  /** Every key of the subscriber map is a declared class, holding its last declaration. */
  lemma SubscriberAt(facts: seq<CollectedData>, cls: string) returns (i: nat)
    requires ValidTypes(SubscriberRows(facts))
    requires cls in SubscriberMap(facts).values
    ensures i < |SubscriberRows(facts)| && SubscriberRows(facts)[i].className == cls
    ensures forall j :: i < j < |SubscriberRows(facts)| ==> SubscriberRows(facts)[j].className != cls
    ensures SubscriberMap(facts).values[cls] == SubscriberOf(SubscriberRows(facts)[i], SubscriberCallRows(facts))
  {
    var rows, calls := SubscriberRows(facts), SubscriberCallRows(facts);
    var es := SubscriberEntries(rows, calls);
    i := PutAllAt(es, cls);
    assert es[i] == (rows[i].className, SubscriberOf(rows[i], calls));
    forall j | i < j < |rows|
      ensures rows[j].className != cls
    {
      assert es[j].0 == rows[j].className;
    }
  }

  /** A subscriber's events are exactly the events its methods subscribe to, each once. */
  lemma SubscriberEvents(facts: seq<CollectedData>, cls: string, e: string)
    requires ValidTypes(SubscriberRows(facts))
    requires cls in SubscriberMap(facts).values
    ensures e in SubscriberMap(facts).values[cls].events <==>
      exists d :: d in SubscriberCallRows(facts) && d.subscriberClass == cls && e in d.eventClasses
    ensures NoDup(SubscriberMap(facts).values[cls].events)
  {
    var i := SubscriberAt(facts, cls);
    SubscribedOfMembers(SubscriberCallRows(facts), cls);
  }

  /** A subscriber's commands are exactly the commands its methods dispatch, each once. */
  lemma SubscriberCommands(facts: seq<CollectedData>, cls: string, c: string)
    requires ValidTypes(SubscriberRows(facts))
    requires cls in SubscriberMap(facts).values
    ensures c in SubscriberMap(facts).values[cls].commands <==>
      exists d :: d in SubscriberCallRows(facts) && d.subscriberClass == cls && d.commandClass == Some(c)
    ensures NoDup(SubscriberMap(facts).values[cls].commands)
  {
    var i := SubscriberAt(facts, cls);
    DispatchedOfMembers(SubscriberCallRows(facts), cls);
  }

  /** The classes of subscriber declarations, in fact order (the counterpart of
      `AggregateClasses` for the other row type). */
  function SubscriberClasses(rows: seq<SubscriberRow>): (classes: seq<string>)
    ensures |classes| == |rows| && forall i :: 0 <= i < |rows| ==> classes[i] == rows[i].className
  {
    seq(|rows|, i requires 0 <= i < |rows| => rows[i].className)
  }

  // ---------------------------------------------------------- commandToEvents

  /** What `AllSupported` assumes of the facts, unfolded into the two forms the
      assembly uses: every subscriber type string is one `SubscriberType::from`
      accepts, and every aggregate-call fact with a command names its calling
      method. Nothing is assumed about callee names, which may be null. */
  lemma SupportedFacts(facts: seq<CollectedData>)
    requires AllSupported(facts)
    ensures ValidTypes(SubscriberRows(facts))
    ensures var calls := AggregateCallRows(facts);
      forall i :: 0 <= i < |calls| ==> calls[i].commandClass.Some? ==> calls[i].callMethod.Some?
  {
    var rows, calls := SubscriberRows(facts), AggregateCallRows(facts);
    forall i | 0 <= i < |rows|
      ensures IsSubscriberTypeValue(rows[i].typeName)
    {
      assert rows[i] in rows;
      assert SubscriberCollector(rows[i]) in facts;
    }
    forall i | 0 <= i < |calls|
      ensures Supported(AggregateCallCollector(calls[i]))
    {
      assert calls[i] in calls;
      assert AggregateCallCollector(calls[i]) in facts;
    }
  }

  /** The calls of the method with this fact's `callMethod`, resolved to events;
      None where the source raises a `TypeError`: a null `callMethod` passed for
      `string $method`, or a failure inside the resolution. */
  function ResolveRow(index: Index, r: AggregateCallRow): Resolution {
    if r.callMethod.None? then None
    else ResolveKey(index, MethodKey(r.aggregateClass, r.callMethod.value), {})
  }

  /** One write per fact with a truthy command, in fact order. */
  function ResolutionEntries(rows: seq<AggregateCallRow>, index: Index): (es: seq<(string, Resolution)>) {
    if rows == [] then []
    else
      var n := |rows| - 1;
      var r := rows[n];
      ResolutionEntries(rows[..n], index) + (if Truthy(r.commandClass) then [(r.commandClass.value, ResolveRow(index, r))] else [])
  }

  /** Every write comes from a fact with a truthy command, and is its resolution. */
  lemma {:induction false} ResolutionEntriesFrom(rows: seq<AggregateCallRow>, index: Index)
    ensures forall e :: e in ResolutionEntries(rows, index) ==>
      exists r :: r in rows && Truthy(r.commandClass) && e == (r.commandClass.value, ResolveRow(index, r))
  {
    if rows != [] {
      var n := |rows| - 1;
      assert rows == rows[..n] + [rows[n]];
      ResolutionEntriesFrom(rows[..n], index);
    }
  }

  /** One more fact adds one write exactly when its command is truthy. */
  lemma ResolutionSnoc(rows: seq<AggregateCallRow>, index: Index, i: nat)
    requires i < |rows|
    ensures Truthy(rows[i].commandClass) ==>
      ResolutionEntries(rows[..i + 1], index) == ResolutionEntries(rows[..i], index) + [(rows[i].commandClass.value, ResolveRow(index, rows[i]))]
    ensures !Truthy(rows[i].commandClass) ==> ResolutionEntries(rows[..i + 1], index) == ResolutionEntries(rows[..i], index)
  {
    assert rows[..i + 1][..i] == rows[..i];
  }

  /** One more fact in the loop of `commandToEvents`: a falsy command or one already
      written leaves the map as it is, else its resolution is written. */
  lemma ResolutionStep(rows: seq<AggregateCallRow>, index: Index, i: nat)
    requires i < |rows|
    ensures var m := PutFirst(ResolutionEntries(rows[..i], index));
      var c := rows[i].commandClass;
      PutFirst(ResolutionEntries(rows[..i + 1], index)) ==
        if !Truthy(c) || c.value in m.values then m else m.Put(c.value, ResolveRow(index, rows[i]))
  {
    ResolutionSnoc(rows, index, i);
    if Truthy(rows[i].commandClass) {
      PutFirstSnoc(ResolutionEntries(rows[..i], index), (rows[i].commandClass.value, ResolveRow(index, rows[i])));
    }
  }

  /** A command written by the first `i` facts keeps its resolution to the end. */
  lemma {:induction false} ResolutionKeeps(rows: seq<AggregateCallRow>, index: Index, i: nat, k: string)
    requires i <= |rows|
    requires k in PutFirst(ResolutionEntries(rows[..i], index)).values
    ensures var m := PutFirst(ResolutionEntries(rows, index));
      k in m.values && m.values[k] == PutFirst(ResolutionEntries(rows[..i], index)).values[k]
    decreases |rows| - i
  {
    if i == |rows| {
      assert rows[..i] == rows;
    } else {
      ResolutionStep(rows, index, i);
      ResolutionKeeps(rows, index, i + 1, k);
    }
  }

  /** The first write to each truthy command, failed resolutions included. */
  function ResolvedCommands(facts: seq<CollectedData>): OrderedMap<Resolution> {
    var rows := AggregateCallRows(facts);
    PutFirst(ResolutionEntries(rows, CallIndex(rows)))
  }

  /** No command's resolution failed. */
  predicate AllResolved(m: OrderedMap<Resolution>) {
    forall k :: k in m.values ==> m.values[k].Some?
  }

  /** The events of a resolution that succeeded. */
  function Unwrap(r: Resolution): seq<string> {
    r.GetOr([])
  }

  /** `commandToEvents`: each truthy command resolved from the first fact carrying it;
      None when one of those resolutions raises a `TypeError`. */
  function CommandEventsMap(facts: seq<CollectedData>): Option<OrderedMap<seq<string>>> {
    var m := ResolvedCommands(facts);
    if AllResolved(m) then Some(MapValues(m, Unwrap)) else None
  }

  /** One more fact in the loop of `commandToEvents`, on the events written so far:
      a falsy or already written command keeps them, a failed resolution makes the
      whole result fail, and otherwise the command's events are written. */
  lemma CommandEventsStep(rows: seq<AggregateCallRow>, index: Index, i: nat, written: OrderedMap<seq<string>>)
    requires i < |rows|
    requires var m := PutFirst(ResolutionEntries(rows[..i], index));
      AllResolved(m) && written == MapValues(m, Unwrap)
    ensures var c := rows[i].commandClass;
      var m' := PutFirst(ResolutionEntries(rows[..i + 1], index));
      var events := ResolveRow(index, rows[i]);
      if !Truthy(c) || c.value in written.values then AllResolved(m') && written == MapValues(m', Unwrap)
      else if events.None? then !AllResolved(PutFirst(ResolutionEntries(rows, index)))
      else AllResolved(m') && written.Put(c.value, events.value) == MapValues(m', Unwrap)
  {
    var m := PutFirst(ResolutionEntries(rows[..i], index));
    var c := rows[i].commandClass;
    ResolutionStep(rows, index, i);
    if Truthy(c) && c.value !in written.values {
      var events := ResolveRow(index, rows[i]);
      if events.None? {
        ResolutionKeeps(rows, index, i + 1, c.value);
      } else {
        MapValuesPut(m, c.value, events, Unwrap);
      }
    }
  }

  /** A fact carrying a truthy command, with no earlier fact carrying it, decides
      that command's events: the resolution of its own `aggregateClass::callMethod`. */
  lemma {:induction false} ResolutionFirst(rows: seq<AggregateCallRow>, index: Index, i: nat)
    requires i < |rows| && Truthy(rows[i].commandClass)
    requires forall j :: 0 <= j < i ==> rows[j].commandClass != rows[i].commandClass
    ensures var m := PutFirst(ResolutionEntries(rows, index));
      rows[i].commandClass.value in m.values && m.values[rows[i].commandClass.value] == ResolveRow(index, rows[i])
  {
    var n := |rows| - 1;
    var p := rows[..n];
    assert forall j :: 0 <= j < n ==> p[j] == rows[j];
    var ps := ResolutionEntries(p, index);
    var r := rows[n];
    var k := rows[i].commandClass.value;
    var es := ResolutionEntries(rows, index);
    if i < n {
      ResolutionFirst(p, index, i);
      assert p[i] == rows[i];
      var m := PutFirst(ps);
      assert k in m.values && m.values[k] == ResolveRow(index, rows[i]);
      if Truthy(r.commandClass) {
        var e := (r.commandClass.value, ResolveRow(index, r));
        assert es == ps + [e];
        PutFirstSnoc(ps, e);
      } else {
        assert es == ps;
      }
    } else {
      var e := (k, ResolveRow(index, r));
      assert es == ps + [e];
      ResolutionAbsent(p, index, k);
      PutFirstAbsent(ps, k);
      PutFirstSnoc(ps, e);
    }
  }

  /** No earlier fact carrying `k` means no write to `k`. */
  lemma ResolutionAbsent(rows: seq<AggregateCallRow>, index: Index, k: string)
    requires forall j :: 0 <= j < |rows| ==> rows[j].commandClass != Some(k)
    ensures forall j :: 0 <= j < |ResolutionEntries(rows, index)| ==> ResolutionEntries(rows, index)[j].0 != k
  {
    var es := ResolutionEntries(rows, index);
    ResolutionEntriesFrom(rows, index);
    forall j | 0 <= j < |es| ensures es[j].0 != k {
      assert es[j] in es;
    }
  }

  /** A command is written exactly when some fact carries it truthily, and so it is
      a key of the result whenever `commandToEvents` returns. */
  lemma CommandEventsKeys(facts: seq<CollectedData>, k: string)
    ensures k in ResolvedCommands(facts).values <==>
      exists r :: r in AggregateCallRows(facts) && Truthy(r.commandClass) && r.commandClass.value == k
    ensures CommandEventsMap(facts).Some? ==>
      (k in CommandEventsMap(facts).value.values <==> k in ResolvedCommands(facts).values)
  {
    var rows := AggregateCallRows(facts);
    var index := CallIndex(rows);
    var es := ResolutionEntries(rows, index);
    if k in ResolvedCommands(facts).values {
      var j := FirstKey(es, k);
      ResolutionEntriesFrom(rows, index);
      assert es[j] in es;
    }
    if exists r :: r in rows && Truthy(r.commandClass) && r.commandClass.value == k {
      var i := FirstCarrier(rows, k);
      ResolutionFirst(rows, index, i);
    }
  }

  /** Fact `i` is the first to carry its truthy command. */
  ghost predicate FirstCarries(rows: seq<AggregateCallRow>, i: int) {
    0 <= i < |rows| && Truthy(rows[i].commandClass) &&
    forall j :: 0 <= j < i ==> rows[j].commandClass != rows[i].commandClass
  }

  /** The events of a command come from the first fact carrying it. */
  lemma CommandEventsEntry(facts: seq<CollectedData>, i: nat)
    requires FirstCarries(AggregateCallRows(facts), i)
    ensures var r := AggregateCallRows(facts)[i];
      var m := ResolvedCommands(facts);
      r.commandClass.value in m.values && m.values[r.commandClass.value] == ResolveRow(CallIndex(AggregateCallRows(facts)), r)
    ensures var r := AggregateCallRows(facts)[i];
      CommandEventsMap(facts).Some? ==>
        r.commandClass.value in CommandEventsMap(facts).value.values &&
        Some(CommandEventsMap(facts).value.values[r.commandClass.value]) == ResolveRow(CallIndex(AggregateCallRows(facts)), r)
  {
    var rows := AggregateCallRows(facts);
    ResolutionFirst(rows, CallIndex(rows), i);
  }

  /** `commandToEvents` fails exactly when the resolution of a command from the
      first fact carrying it fails. */
  lemma CommandEventsFails(facts: seq<CollectedData>)
    ensures var rows := AggregateCallRows(facts);
      CommandEventsMap(facts).None? <==>
        exists i :: FirstCarries(rows, i) && ResolveRow(CallIndex(rows), rows[i]).None?
  {
    var rows := AggregateCallRows(facts);
    var m := ResolvedCommands(facts);
    if !AllResolved(m) {
      var k :| k in m.values && m.values[k].None?;
      CommandEventsKeys(facts, k);
      var i := FirstCarrier(rows, k);
      CommandEventsEntry(facts, i);
      assert FirstCarries(rows, i);
    }
    if exists i :: FirstCarries(rows, i) && ResolveRow(CallIndex(rows), rows[i]).None? {
      var i :| FirstCarries(rows, i) && ResolveRow(CallIndex(rows), rows[i]).None?;
      CommandEventsEntry(facts, i);
    }
  }

  /** `commandToEvents` returns when every fact with a truthy command names its
      calling method and, in addition, every call of the index that records no
      event names its callee (`Named`, which the collectors do not guarantee). */
  lemma CommandEventsSucceed(facts: seq<CollectedData>)
    requires var rows := AggregateCallRows(facts);
      forall i :: 0 <= i < |rows| ==> Truthy(rows[i].commandClass) ==> rows[i].callMethod.Some?
    requires Named(CallIndex(AggregateCallRows(facts)))
    ensures CommandEventsMap(facts).Some?
  {
    var rows := AggregateCallRows(facts);
    if CommandEventsMap(facts).None? {
      CommandEventsFails(facts);
      var i :| FirstCarries(rows, i) && ResolveRow(CallIndex(rows), rows[i]).None?;
      ResolveNamed(CallIndex(rows), MethodKey(rows[i].aggregateClass, rows[i].callMethod.value), {});
    }
  }

  /** The first fact carrying command `k`. */
  lemma FirstCarrier(rows: seq<AggregateCallRow>, k: string) returns (i: nat)
    requires exists r :: r in rows && Truthy(r.commandClass) && r.commandClass.value == k
    ensures i < |rows| && Truthy(rows[i].commandClass) && rows[i].commandClass.value == k
    ensures forall j :: 0 <= j < i ==> rows[j].commandClass != rows[i].commandClass
  {
    i := 0;
    while !(Truthy(rows[i].commandClass) && rows[i].commandClass.value == k)
      invariant i < |rows|
      invariant forall j :: 0 <= j < i ==> rows[j].commandClass != Some(k)
      invariant exists r :: r in rows[i..] && Truthy(r.commandClass) && r.commandClass.value == k
      decreases |rows| - i
    {
      assert rows[i..] == [rows[i]] + rows[i + 1..];
      i := i + 1;
    }
  }

  /** The first entry writing `k`. */
  lemma FirstKey<V>(es: seq<(string, V)>, k: string) returns (j: nat)
    requires k in PutFirst(es).values
    ensures j < |es| && es[j].0 == k
    ensures forall i :: 0 <= i < j ==> es[i].0 != k
  {
    var ks := KeysOf(es);
    var m := PutFirst(es);
    PutFirstKeys(es);
    assert k in m.keys;
    assert m.keys == Distinct(ks);
    assert k in ks;
    j := IndexOf(ks, k);
    assert ks[j] == es[j].0;
    forall i | 0 <= i < j ensures es[i].0 != k {
      assert ks[i] == es[i].0;
    }
  }

  // ------------------------------------------------------------------ commands

  /** The command a datum names, as an entry: short name, class and resolved events. */
  function CommandOfClass(cls: string, commandToEvents: OrderedMap<seq<string>>): Command {
    Command(ClassToName(cls), cls, if cls in commandToEvents.values then commandToEvents.values[cls] else [])
  }

  function CommandEntries(calls: seq<CollectedData>, commandToEvents: OrderedMap<seq<string>>): (es: seq<(string, Command)>)
    ensures forall e :: e in es ==> e.1 == CommandOfClass(e.0, commandToEvents)
  {
    if calls == [] then []
    else
      var n := |calls| - 1;
      var d := calls[n];
      CommandEntries(calls[..n], commandToEvents) +
        (if CommandOf(d).Some? then [(CommandOf(d).value, CommandOfClass(CommandOf(d).value, commandToEvents))] else [])
  }

  /** One more datum adds one write exactly when it names a command. */
  lemma CommandEntriesSnoc(calls: seq<CollectedData>, commandToEvents: OrderedMap<seq<string>>, i: nat)
    requires i < |calls|
    ensures CommandOf(calls[i]).Some? ==>
      CommandEntries(calls[..i + 1], commandToEvents) == CommandEntries(calls[..i], commandToEvents) +
        [(CommandOf(calls[i]).value, CommandOfClass(CommandOf(calls[i]).value, commandToEvents))]
    ensures CommandOf(calls[i]).None? ==> CommandEntries(calls[..i + 1], commandToEvents) == CommandEntries(calls[..i], commandToEvents)
  {
    assert calls[..i + 1][..i] == calls[..i];
  }

  /** The keys written are the non-null commands, in order. */
  lemma {:induction false} CommandEntriesKeys(calls: seq<CollectedData>, commandToEvents: OrderedMap<seq<string>>)
    ensures KeysOf(CommandEntries(calls, commandToEvents)) == CommandClasses(calls)
  {
    if calls != [] {
      var n := |calls| - 1;
      var d := calls[n];
      var ps := CommandEntries(calls[..n], commandToEvents);
      CommandEntriesKeys(calls[..n], commandToEvents);
      if CommandOf(d).Some? {
        var e := (CommandOf(d).value, CommandOfClass(CommandOf(d).value, commandToEvents));
        assert KeysOf(ps + [e]) == KeysOf(ps) + [e.0];
      }
    }
  }

  /** The non-null commands of the data, in order, repeats kept. */
  function CommandClasses(calls: seq<CollectedData>): seq<string> {
    if calls == [] then []
    else
      var n := |calls| - 1;
      var d := calls[n];
      CommandClasses(calls[..n]) + (if CommandOf(d).Some? then [CommandOf(d).value] else [])
  }

  /** The candidate commands are exactly the non-null commands of the data. */
  lemma {:induction false} CommandClassesMembers(calls: seq<CollectedData>)
    ensures forall c :: c in CommandClasses(calls) <==> exists i :: 0 <= i < |calls| && CommandOf(calls[i]) == Some(c)
  {
    if calls != [] {
      var n := |calls| - 1;
      assert forall i :: 0 <= i < n ==> calls[..n][i] == calls[i];
      CommandClassesMembers(calls[..n]);
    }
  }

  /** The loop of `commands` over the data, given the result of `commandToEvents`. */
  function CommandMapWith(facts: seq<CollectedData>, commandToEvents: OrderedMap<seq<string>>): OrderedMap<Command> {
    PutFirst(CommandEntries(CommandCalls(facts), commandToEvents))
  }

  /** `commands`: one entry per command of an aggregate call or a controller
      dispatch; None when `commandToEvents` raises. */
  function CommandMap(facts: seq<CollectedData>): Option<OrderedMap<Command>> {
    match CommandEventsMap(facts)
    case None => None
    case Some(commandToEvents) => Some(CommandMapWith(facts, commandToEvents))
  }

  /** The command map has one key per distinct non-null command of the aggregate-call
      and dispatch facts, in first-seen order; each entry is named by the class's
      last segment and holds the command's resolved events, [] when no aggregate
      call handles it. */
  lemma CommandMapSpec(facts: seq<CollectedData>)
    ensures CommandMap(facts).Some? <==> CommandEventsMap(facts).Some?
    ensures CommandMap(facts).Some? ==>
      var m, commandToEvents := CommandMap(facts).value, CommandEventsMap(facts).value;
      m.Valid() && m.keys == Distinct(CommandClasses(CommandCalls(facts))) &&
      forall k :: k in m.values ==> m.values[k] == CommandOfClass(k, commandToEvents)
  {
    if CommandEventsMap(facts).Some? {
      var commandToEvents := CommandEventsMap(facts).value;
      var m := CommandMapWith(facts, commandToEvents);
      var es := CommandEntries(CommandCalls(facts), commandToEvents);
      PutFirstKeys(es);
      CommandEntriesKeys(CommandCalls(facts), commandToEvents);
      forall k | k in m.values ensures m.values[k] == CommandOfClass(k, commandToEvents) {
        var j := FirstKey(es, k);
        PutFirstFirst(es, j);
        assert es[j] in es;
      }
    }
  }

  // ------------------------------------------------------------ userInterfaces

  /** A controller's interface as first created. */
  function NewInterface(cls: string): UserInterface {
    UserInterface(ClassToName(cls), cls, [], [])
  }

  /** `$result[$c]`, reading a missing controller as the freshly created one. */
  function InterfaceOf(m: OrderedMap<UserInterface>, cls: string): UserInterface {
    if cls in m.values then m.values[cls] else NewInterface(cls)
  }

  /** The first loop of `userInterfaces`: create on first sight, then append the command. */
  function AfterDispatches(rows: seq<DispatchRow>): OrderedMap<UserInterface> {
    if rows == [] then Empty()
    else
      var n := |rows| - 1;
      var m := AfterDispatches(rows[..n]);
      var c := rows[n].controllerClass;
      var ui := InterfaceOf(m, c);
      m.Put(c, ui.(commands := ui.commands + [rows[n].commandClass]))
  }

  /** The second loop: create on first sight, then append the subscriber. */
  function AfterAccesses(m: OrderedMap<UserInterface>, rows: seq<AccessRow>): OrderedMap<UserInterface> {
    if rows == [] then m
    else
      var n := |rows| - 1;
      var m' := AfterAccesses(m, rows[..n]);
      var c := rows[n].controllerClass;
      var ui := InterfaceOf(m', c);
      m'.Put(c, ui.(subscribers := ui.subscribers + [rows[n].subscriberClass]))
  }

  /** Creating the interface when missing and then appending a command to it is
      appending to `InterfaceOf`. */
  lemma CreateThenAddCommand(m: OrderedMap<UserInterface>, c: string, command: string)
    ensures var m1 := if c in m.values then m else m.Put(c, NewInterface(c));
      var ui := InterfaceOf(m, c);
      m1.Put(c, m1.values[c].(commands := m1.values[c].commands + [command])) == m.Put(c, ui.(commands := ui.commands + [command]))
  {
    var ui := InterfaceOf(m, c);
    if c !in m.values {
      PutPut(m, c, NewInterface(c), ui.(commands := ui.commands + [command]));
    }
  }

  /** The same for appending a subscriber. */
  lemma CreateThenAddSubscriber(m: OrderedMap<UserInterface>, c: string, subscriber: string)
    ensures var m1 := if c in m.values then m else m.Put(c, NewInterface(c));
      var ui := InterfaceOf(m, c);
      m1.Put(c, m1.values[c].(subscribers := m1.values[c].subscribers + [subscriber])) == m.Put(c, ui.(subscribers := ui.subscribers + [subscriber]))
  {
    var ui := InterfaceOf(m, c);
    if c !in m.values {
      PutPut(m, c, NewInterface(c), ui.(subscribers := ui.subscribers + [subscriber]));
    }
  }

  /** One more dispatch fact. */
  lemma AfterDispatchesSnoc(rows: seq<DispatchRow>, i: nat)
    requires i < |rows|
    ensures var m := AfterDispatches(rows[..i]);
      var ui := InterfaceOf(m, rows[i].controllerClass);
      AfterDispatches(rows[..i + 1]) == m.Put(rows[i].controllerClass, ui.(commands := ui.commands + [rows[i].commandClass]))
  {
    assert rows[..i + 1][..i] == rows[..i];
  }

  /** One more access fact. */
  lemma AfterAccessesSnoc(m: OrderedMap<UserInterface>, rows: seq<AccessRow>, i: nat)
    requires i < |rows|
    ensures var m' := AfterAccesses(m, rows[..i]);
      var ui := InterfaceOf(m', rows[i].controllerClass);
      AfterAccesses(m, rows[..i + 1]) == m'.Put(rows[i].controllerClass, ui.(subscribers := ui.subscribers + [rows[i].subscriberClass]))
  {
    assert rows[..i + 1][..i] == rows[..i];
  }

  /** `userInterfaces`. */
  function InterfaceMap(facts: seq<CollectedData>): OrderedMap<UserInterface> {
    AfterAccesses(AfterDispatches(DispatchRows(facts)), AccessRows(facts))
  }

  /** The commands controller `cls` dispatches, in fact order, repeats kept. */
  function CommandsDispatchedBy(rows: seq<DispatchRow>, cls: string): seq<string> {
    if rows == [] then []
    else
      var n := |rows| - 1;
      CommandsDispatchedBy(rows[..n], cls) + (if rows[n].controllerClass == cls then [rows[n].commandClass] else [])
  }

  /** The subscribers controller `cls` accesses, in fact order, repeats kept. */
  function SubscribersAccessedBy(rows: seq<AccessRow>, cls: string): seq<string> {
    if rows == [] then []
    else
      var n := |rows| - 1;
      SubscribersAccessedBy(rows[..n], cls) + (if rows[n].controllerClass == cls then [rows[n].subscriberClass] else [])
  }

  /** The controllers of the dispatch facts, in order, repeats kept. */
  function DispatchControllers(rows: seq<DispatchRow>): (cs: seq<string>)
    ensures |cs| == |rows| && forall i :: 0 <= i < |rows| ==> cs[i] == rows[i].controllerClass
  {
    if rows == [] then [] else DispatchControllers(rows[..|rows| - 1]) + [rows[|rows| - 1].controllerClass]
  }

  /** The controllers of the access facts, in order, repeats kept (the counterpart
      of `DispatchControllers` for the other row type). */
  function AccessControllers(rows: seq<AccessRow>): (cs: seq<string>)
    ensures |cs| == |rows| && forall i :: 0 <= i < |rows| ==> cs[i] == rows[i].controllerClass
  {
    if rows == [] then [] else AccessControllers(rows[..|rows| - 1]) + [rows[|rows| - 1].controllerClass]
  }

  /** After the first loop every controller holds its dispatched commands and no subscriber. */
  lemma {:induction false} AfterDispatchesAt(rows: seq<DispatchRow>, c: string)
    ensures InterfaceOf(AfterDispatches(rows), c) == UserInterface(ClassToName(c), c, CommandsDispatchedBy(rows, c), [])
  {
    if rows != [] {
      AfterDispatchesAt(rows[..|rows| - 1], c);
    }
  }

  /** The first loop creates the controllers in order of first dispatch. */
  lemma {:induction false} AfterDispatchesKeys(rows: seq<DispatchRow>)
    ensures AfterDispatches(rows).Valid() && AfterDispatches(rows).keys == Distinct(DispatchControllers(rows))
  {
    if rows != [] {
      var n := |rows| - 1;
      AfterDispatchesKeys(rows[..n]);
      DistinctSnoc(DispatchControllers(rows[..n]), rows[n].controllerClass);
    }
  }

  /** The second loop appends each controller's accessed subscribers and keeps the rest. */
  lemma {:induction false} AfterAccessesAt(m: OrderedMap<UserInterface>, rows: seq<AccessRow>, c: string)
    ensures InterfaceOf(AfterAccesses(m, rows), c) ==
      InterfaceOf(m, c).(subscribers := InterfaceOf(m, c).subscribers + SubscribersAccessedBy(rows, c))
  {
    if rows != [] {
      var n := |rows| - 1;
      AfterAccessesAt(m, rows[..n], c);
      var m' := AfterAccesses(m, rows[..n]);
      var d := rows[n].controllerClass;
      var ui := InterfaceOf(m', d);
      assert AfterAccesses(m, rows) == m'.Put(d, ui.(subscribers := ui.subscribers + [rows[n].subscriberClass]));
      if d == c {
        var before := InterfaceOf(m, c).subscribers;
        assert before + SubscribersAccessedBy(rows[..n], c) + [rows[n].subscriberClass] ==
          before + SubscribersAccessedBy(rows, c);
      }
    }
  }

  /** The second loop adds the controllers first seen in an access, in order. */
  lemma {:induction false} AfterAccessesKeys(m: OrderedMap<UserInterface>, rows: seq<AccessRow>)
    requires m.Valid()
    ensures AfterAccesses(m, rows).Valid() && AfterAccesses(m, rows).keys == Distinct(m.keys + AccessControllers(rows))
  {
    if rows == [] {
      assert m.keys + AccessControllers(rows) == m.keys;
      DistinctOfNoDup(m.keys);
    } else {
      var n := |rows| - 1;
      AfterAccessesKeys(m, rows[..n]);
      assert AccessControllers(rows) == AccessControllers(rows[..n]) + [rows[n].controllerClass];
      assert m.keys + AccessControllers(rows) == (m.keys + AccessControllers(rows[..n])) + [rows[n].controllerClass];
      DistinctSnoc(m.keys + AccessControllers(rows[..n]), rows[n].controllerClass);
    }
  }

  /** `userInterfaces` has one entry per controller of any dispatch or access fact, in
      order of first appearance (dispatches first); each is named by its class's last
      segment and lists the dispatched commands, then the accessed subscribers, in
      fact order with repeats. */
  lemma InterfaceMapSpec(facts: seq<CollectedData>)
    ensures var m := InterfaceMap(facts);
      var ds, acs := DispatchRows(facts), AccessRows(facts);
      m.Valid() && m.keys == Distinct(DispatchControllers(ds) + AccessControllers(acs)) &&
      forall c :: c in m.values ==>
        m.values[c] == UserInterface(ClassToName(c), c, CommandsDispatchedBy(ds, c), SubscribersAccessedBy(acs, c))
  {
    var ds, acs := DispatchRows(facts), AccessRows(facts);
    AfterDispatchesKeys(ds);
    AfterAccessesKeys(AfterDispatches(ds), acs);
    DistinctOfDistinctPrefix(DispatchControllers(ds), AccessControllers(acs));
    var m := InterfaceMap(facts);
    forall c | c in m.values
      ensures m.values[c] == UserInterface(ClassToName(c), c, CommandsDispatchedBy(ds, c), SubscribersAccessedBy(acs, c))
    {
      AfterDispatchesAt(ds, c);
      AfterAccessesAt(AfterDispatches(ds), acs, c);
      assert InterfaceOf(m, c) == m.values[c];
    }
  }
}
