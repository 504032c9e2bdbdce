/**
 * The collected facts: one record per collector hit, tagged with the
 * collector that produced it. The record shapes are the arrays the
 * collectors return; the collectors themselves are not modelled.
 */
module Facts {

  datatype Option<T> = None | Some(value: T) {
    function GetOr(default: T): T {
      match this
      case Some(v) => v
      case None => default
    }
  }

  /** `AggregateCollector`: a class carrying the aggregate attribute. */
  datatype AggregateRow = AggregateRow(className: string, name: string)

  /** `EventCollector`: a class carrying the event attribute. */
  datatype EventRow = EventRow(className: string, name: string)

  /** `AggregateCallCollector`: one method call on an aggregate object. `callMethod` is the
      method the call sits in, `calledMethod` the method called, `eventClass` the event
      passed to `recordThat`, `commandClass` the command the enclosing method handles. */
  datatype AggregateCallRow = AggregateCallRow(
    aggregateClass: string,
    callMethod: Option<string>,
    calledMethod: Option<string>,
    eventClass: Option<string>,
    commandClass: Option<string>)

  /** `SubscriberCollector`: a subscriber class; `typeName` is "subscriber", "processor" or "projector". */
  datatype SubscriberRow = SubscriberRow(className: string, typeName: string, name: string)

  /** `SubscriberCallCollector`: one method call inside a subscriber class. `eventClasses` are the
      events the enclosing method subscribes to, `commandClass` the command passed to `dispatch`. */
  datatype SubscriberCallRow = SubscriberCallRow(
    subscriberClass: string,
    callMethod: Option<string>,
    calledMethod: Option<string>,
    eventClasses: seq<string>,
    commandClass: Option<string>)

  /** `SymfonyControllerDispatchCommandCollector`: a controller dispatching a command. */
  datatype DispatchRow = DispatchRow(controllerClass: string, commandClass: string)

  /** `SymfonyControllerSubscriberAccessCollector`: a controller calling a subscriber's method. */
  datatype AccessRow = AccessRow(controllerClass: string, subscriberClass: string)

  /** A collected datum: the collector type together with the record it returned. */
  datatype CollectedData =
    | AggregateCollector(aggregate: AggregateRow)
    | EventCollector(event: EventRow)
    | AggregateCallCollector(aggregateCall: AggregateCallRow)
    | SubscriberCollector(subscriber: SubscriberRow)
    | SubscriberCallCollector(subscriberCall: SubscriberCallRow)
    | DispatchCommandCollector(dispatch: DispatchRow)
    | SubscriberAccessCollector(access: AccessRow)

  /** PHP truthiness of a nullable string: null, "" and "0" are falsy. */
  predicate Truthy(s: Option<string>) {
    s.Some? && s.value != "" && s.value != "0"
  }

  /** What the collectors guarantee of a datum: `SubscriberCollector` writes one of
      three type strings, and `AggregateCallCollector` reports a command only
      inside a function, whose name it then reports as `callMethod`. */
  predicate Supported(d: CollectedData) {
    match d
    case SubscriberCollector(r) => r.typeName == "subscriber" || r.typeName == "processor" || r.typeName == "projector"
    case AggregateCallCollector(r) => r.commandClass.Some? ==> r.callMethod.Some?
    case _ => true
  }

  ghost predicate AllSupported(facts: seq<CollectedData>) {
    forall i :: 0 <= i < |facts| ==> Supported(facts[i])
  }

  // The `array_filter` calls on the collector type, followed by `getData()`.

  function AggregateRows(facts: seq<CollectedData>): (rows: seq<AggregateRow>)
    ensures forall r :: r in rows <==> AggregateCollector(r) in facts
  {
    if facts == [] then []
    else
      var n := |facts| - 1;
      assert facts == facts[..n] + [facts[n]];
      AggregateRows(facts[..n]) + (if facts[n].AggregateCollector? then [facts[n].aggregate] else [])
  }

  function EventRows(facts: seq<CollectedData>): (rows: seq<EventRow>)
    ensures forall r :: r in rows <==> EventCollector(r) in facts
  {
    if facts == [] then []
    else
      var n := |facts| - 1;
      assert facts == facts[..n] + [facts[n]];
      EventRows(facts[..n]) + (if facts[n].EventCollector? then [facts[n].event] else [])
  }

  function AggregateCallRows(facts: seq<CollectedData>): (rows: seq<AggregateCallRow>)
    ensures forall r :: r in rows <==> AggregateCallCollector(r) in facts
  {
    if facts == [] then []
    else
      var n := |facts| - 1;
      assert facts == facts[..n] + [facts[n]];
      AggregateCallRows(facts[..n]) + (if facts[n].AggregateCallCollector? then [facts[n].aggregateCall] else [])
  }

  function SubscriberRows(facts: seq<CollectedData>): (rows: seq<SubscriberRow>)
    ensures forall r :: r in rows <==> SubscriberCollector(r) in facts
  {
    if facts == [] then []
    else
      var n := |facts| - 1;
      assert facts == facts[..n] + [facts[n]];
      SubscriberRows(facts[..n]) + (if facts[n].SubscriberCollector? then [facts[n].subscriber] else [])
  }

  function SubscriberCallRows(facts: seq<CollectedData>): (rows: seq<SubscriberCallRow>)
    ensures forall r :: r in rows <==> SubscriberCallCollector(r) in facts
  {
    if facts == [] then []
    else
      var n := |facts| - 1;
      assert facts == facts[..n] + [facts[n]];
      SubscriberCallRows(facts[..n]) + (if facts[n].SubscriberCallCollector? then [facts[n].subscriberCall] else [])
  }

  function DispatchRows(facts: seq<CollectedData>): (rows: seq<DispatchRow>)
    ensures forall r :: r in rows <==> DispatchCommandCollector(r) in facts
  {
    if facts == [] then []
    else
      var n := |facts| - 1;
      assert facts == facts[..n] + [facts[n]];
      DispatchRows(facts[..n]) + (if facts[n].DispatchCommandCollector? then [facts[n].dispatch] else [])
  }

  function AccessRows(facts: seq<CollectedData>): (rows: seq<AccessRow>)
    ensures forall r :: r in rows <==> SubscriberAccessCollector(r) in facts
  {
    if facts == [] then []
    else
      var n := |facts| - 1;
      assert facts == facts[..n] + [facts[n]];
      AccessRows(facts[..n]) + (if facts[n].SubscriberAccessCollector? then [facts[n].access] else [])
  }

  /** The data of the aggregate-call and the controller-dispatch collectors, in fact order. */
  function CommandCalls(facts: seq<CollectedData>): (calls: seq<CollectedData>)
    ensures forall d :: d in calls <==> d in facts && (d.AggregateCallCollector? || d.DispatchCommandCollector?)
  {
    if facts == [] then []
    else
      var n := |facts| - 1;
      assert facts == facts[..n] + [facts[n]];
      CommandCalls(facts[..n]) +
        (if facts[n].AggregateCallCollector? || facts[n].DispatchCommandCollector? then [facts[n]] else [])
  }

  /** `$data['commandClass']` of an aggregate-call or controller-dispatch datum. */
  function CommandOf(d: CollectedData): Option<string> {
    match d
    case AggregateCallCollector(r) => r.commandClass
    case DispatchCommandCollector(r) => Some(r.commandClass)
    case _ => None
  }
}
