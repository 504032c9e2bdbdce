/**
 * The domain model the assembly produces (the classes under `src/Data`).
 * Relationships between entities are class-name strings.
 */
module Data {
  import opened PhpArray

  /** The string-backed enum `SubscriberType`. */
  datatype SubscriberType = Processor | Projector | Subscriber {
    /** The backing string of the case. */
    function Value(): string {
      match this
      case Processor => "processor"
      case Projector => "projector"
      case Subscriber => "subscriber"
    }
  }

  predicate IsSubscriberTypeValue(s: string) {
    s == "processor" || s == "projector" || s == "subscriber"
  }

  /** `SubscriberType::from`; the source raises a `ValueError` on any other string. */
  function SubscriberTypeFrom(s: string): (t: SubscriberType)
    requires IsSubscriberTypeValue(s)
    ensures t.Value() == s
  {
    if s == "processor" then Processor else if s == "projector" then Projector else SubscriberType.Subscriber
  }

  /** `from` and the backing value are inverse. */
  lemma SubscriberTypeRoundTrip(t: SubscriberType)
    ensures IsSubscriberTypeValue(t.Value()) && SubscriberTypeFrom(t.Value()) == t
  {
  }

  datatype Event = Event(name: string, className: string)

  datatype Command = Command(name: string, className: string, events: seq<string>)

  datatype Aggregate = Aggregate(name: string, className: string, events: seq<string>, commands: seq<string>)

  datatype Subscriber = Subscriber(
    name: string, className: string, subscriberType: SubscriberType, events: seq<string>, commands: seq<string>)

  datatype UserInterface = UserInterface(name: string, className: string, commands: seq<string>, subscribers: seq<string>)

  datatype BoundedContext = BoundedContext(
    name: string,
    aggregates: seq<string>,
    events: seq<string>,
    commands: seq<string>,
    subscribers: seq<string>,
    userInterfaces: seq<string>)

  datatype Project = Project(
    boundedContexts: OrderedMap<BoundedContext>,
    aggregates: OrderedMap<Aggregate>,
    events: OrderedMap<Event>,
    commands: OrderedMap<Command>,
    subscribers: OrderedMap<Subscriber>,
    userInterfaces: OrderedMap<UserInterface>)
}
