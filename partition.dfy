/**
 * `boundedContexts`: every identity of the five entity maps whose class name
 * encodes a bounded context is appended, kind by kind, to the list of its
 * kind in that context; the context is created on first use.
 */
module Partition {
  import opened Facts
  import opened PhpArray
  import opened Data
  import opened Names

  /** The five lists of a `BoundedContext`, in the order the source fills them. */
  datatype Kind = Aggregates | Events | Commands | Subscribers | UserInterfaces

  function Members(b: BoundedContext, kind: Kind): seq<string> {
    match kind
    case Aggregates => b.aggregates
    case Events => b.events
    case Commands => b.commands
    case Subscribers => b.subscribers
    case UserInterfaces => b.userInterfaces
  }

  /** `$boundedContexts[$name]->aggregates[] = $class` and its four siblings. */
  function AddMember(b: BoundedContext, kind: Kind, id: string): (b': BoundedContext)
    ensures b'.name == b.name
    ensures forall k :: Members(b', k) == Members(b, k) + (if k == kind then [id] else [])
  {
    match kind
    case Aggregates => b.(aggregates := b.aggregates + [id])
    case Events => b.(events := b.events + [id])
    case Commands => b.(commands := b.commands + [id])
    case Subscribers => b.(subscribers := b.subscribers + [id])
    case UserInterfaces => b.(userInterfaces := b.userInterfaces + [id])
  }

  /** `new BoundedContext($name)`. */
  function NewContext(name: string): BoundedContext {
    BoundedContext(name, [], [], [], [], [])
  }

  /** The context under `name`, reading a missing one as freshly created. */
  function ContextOf(m: OrderedMap<BoundedContext>, name: string): BoundedContext {
    if name in m.values then m.values[name] else NewContext(name)
  }

  /** One loop of `boundedContexts`: the identities `ids` of one kind, in order. */
  function Assign(m: OrderedMap<BoundedContext>, ids: seq<string>, kind: Kind): OrderedMap<BoundedContext> {
    if ids == [] then m
    else
      var n := |ids| - 1;
      var m' := Assign(m, ids[..n], kind);
      match BoundedContextOf(ids[n])
      case None => m'
      case Some(name) => m'.Put(name, AddMember(ContextOf(m', name), kind, ids[n]))
  }

  /** One more identity. */
  lemma AssignSnoc(m: OrderedMap<BoundedContext>, ids: seq<string>, kind: Kind, i: nat)
    requires i < |ids|
    ensures BoundedContextOf(ids[i]).None? ==> Assign(m, ids[..i + 1], kind) == Assign(m, ids[..i], kind)
    ensures BoundedContextOf(ids[i]).Some? ==>
      var m' := Assign(m, ids[..i], kind);
      var name := BoundedContextOf(ids[i]).value;
      Assign(m, ids[..i + 1], kind) == m'.Put(name, AddMember(ContextOf(m', name), kind, ids[i]))
  {
    assert ids[..i + 1][..i] == ids[..i];
  }

  /** Creating the context when missing and then appending to it is appending to
      `ContextOf`. */
  lemma CreateThenAddMember(m: OrderedMap<BoundedContext>, name: string, kind: Kind, id: string)
    ensures var m1 := if name in m.values then m else m.Put(name, NewContext(name));
      m1.Put(name, AddMember(m1.values[name], kind, id)) == m.Put(name, AddMember(ContextOf(m, name), kind, id))
  {
    if name !in m.values {
      PutPut(m, name, NewContext(name), AddMember(ContextOf(m, name), kind, id));
    }
  }

  /** The identities of `ids` whose context is `name`, in order. */
  function InContext(ids: seq<string>, name: string): seq<string> {
    if ids == [] then []
    else
      var n := |ids| - 1;
      InContext(ids[..n], name) + (if BoundedContextOf(ids[n]) == Some(name) then [ids[n]] else [])
  }

  /** The non-null contexts of `ids`, in order, repeats kept. */
  function ContextNames(ids: seq<string>): seq<string> {
    if ids == [] then []
    else
      var n := |ids| - 1;
      ContextNames(ids[..n]) + (match BoundedContextOf(ids[n]) case None => [] case Some(name) => [name])
  }

  /** The identities listed under a context are those of `ids` whose context it is,
      each once when `ids` has no repeats. */
  lemma {:induction false} InContextMembers(ids: seq<string>, name: string)
    ensures forall id :: id in InContext(ids, name) <==> id in ids && BoundedContextOf(id) == Some(name)
    ensures NoDup(ids) ==> NoDup(InContext(ids, name))
  {
    if ids != [] {
      var n := |ids| - 1;
      assert ids == ids[..n] + [ids[n]];
      InContextMembers(ids[..n], name);
    }
  }

  /** The contexts named are those of some identity. */
  lemma {:induction false} ContextNamesMembers(ids: seq<string>)
    ensures forall name :: name in ContextNames(ids) <==> exists id :: id in ids && BoundedContextOf(id) == Some(name)
  {
    if ids != [] {
      var n := |ids| - 1;
      assert ids == ids[..n] + [ids[n]];
      ContextNamesMembers(ids[..n]);
    }
  }

  /** Reading a context back after a write. */
  lemma ContextOfPut(m: OrderedMap<BoundedContext>, n: string, b: BoundedContext, name: string)
    ensures ContextOf(m.Put(n, b), name) == if n == name then b else ContextOf(m, name)
  {
  }

  /** A loop keeps the name of every context. */
  lemma {:induction false} AssignName(m: OrderedMap<BoundedContext>, ids: seq<string>, kind: Kind, name: string)
    ensures ContextOf(Assign(m, ids, kind), name).name == ContextOf(m, name).name
  {
    if ids != [] {
      var n := |ids| - 1;
      var m' := Assign(m, ids[..n], kind);
      AssignName(m, ids[..n], kind, name);
      match BoundedContextOf(ids[n]) {
        case None =>
        case Some(c) =>
          ContextOfPut(m', c, AddMember(ContextOf(m', c), kind, ids[n]), name);
      }
    }
  }

  /** The last identity of a loop is appended to its own context's list of its kind. */
  lemma AssignLastMembers(m: OrderedMap<BoundedContext>, ids: seq<string>, kind: Kind, name: string, k: Kind)
    requires ids != []
    ensures var n := |ids| - 1;
      Members(ContextOf(Assign(m, ids, kind), name), k) ==
      Members(ContextOf(Assign(m, ids[..n], kind), name), k) +
        (if k == kind && BoundedContextOf(ids[n]) == Some(name) then [ids[n]] else [])
  {
    var n := |ids| - 1;
    var m' := Assign(m, ids[..n], kind);
    var before := Members(ContextOf(m', name), k);
    match BoundedContextOf(ids[n]) {
      case None =>
        assert before + [] == before;
      case Some(c) =>
        var b := AddMember(ContextOf(m', c), kind, ids[n]);
        ContextOfPut(m', c, b, name);
        if c != name {
          assert before + [] == before;
        }
    }
  }

  /** A loop appends to the list of its kind, in each context, the identities that
      belong there, and leaves the other lists alone. */
  lemma {:induction false} AssignMembers(m: OrderedMap<BoundedContext>, ids: seq<string>, kind: Kind, name: string, k: Kind)
    ensures Members(ContextOf(Assign(m, ids, kind), name), k) ==
      Members(ContextOf(m, name), k) + (if k == kind then InContext(ids, name) else [])
  {
    var before := Members(ContextOf(m, name), k);
    if ids == [] {
      assert before + [] == before;
    } else {
      var n := |ids| - 1;
      AssignMembers(m, ids[..n], kind, name, k);
      AssignLastMembers(m, ids, kind, name, k);
      var last := if BoundedContextOf(ids[n]) == Some(name) then [ids[n]] else [];
      assert InContext(ids, name) == InContext(ids[..n], name) + last;
      if k == kind {
        assert before + InContext(ids[..n], name) + last == before + (InContext(ids[..n], name) + last);
      } else {
        assert before + [] + [] == before + [];
      }
    }
  }

  /** Creating or updating a context keeps the key list the distinct names written. */
  lemma PutKeys(m: OrderedMap<BoundedContext>, names: seq<string>, c: string, b: BoundedContext)
    requires m.Valid() && m.keys == Distinct(names)
    ensures m.Put(c, b).Valid() && m.Put(c, b).keys == Distinct(names + [c])
  {
    DistinctSnoc(names, c);
  }

  /** A loop creates the contexts of its identities in order of first use. */
  lemma {:induction false} AssignKeys(m: OrderedMap<BoundedContext>, ids: seq<string>, kind: Kind)
    requires m.Valid()
    ensures Assign(m, ids, kind).Valid()
    ensures Assign(m, ids, kind).keys == Distinct(m.keys + ContextNames(ids))
  {
    if ids == [] {
      assert m.keys + ContextNames(ids) == m.keys;
      DistinctOfNoDup(m.keys);
    } else {
      AssignKeys(m, ids[..|ids| - 1], kind);
      AssignKeysStep(m, ids, kind);
    }
  }

  /** The last identity of a loop creates its context if it has one. */
  lemma AssignKeysStep(m: OrderedMap<BoundedContext>, ids: seq<string>, kind: Kind)
    requires ids != []
    requires var m' := Assign(m, ids[..|ids| - 1], kind);
      m'.Valid() && m'.keys == Distinct(m.keys + ContextNames(ids[..|ids| - 1]))
    ensures Assign(m, ids, kind).Valid()
    ensures Assign(m, ids, kind).keys == Distinct(m.keys + ContextNames(ids))
  {
    var n := |ids| - 1;
    var m' := Assign(m, ids[..n], kind);
    var cn := ContextNames(ids[..n]);
    var names := m.keys + cn;
    match BoundedContextOf(ids[n]) {
      case None =>
        assert ContextNames(ids) == cn + [];
        assert m.keys + ContextNames(ids) == names;
      case Some(c) =>
        assert ContextNames(ids) == cn + [c];
        assert m.keys + (cn + [c]) == names + [c];
        PutKeys(m', names, c, AddMember(ContextOf(m', c), kind, ids[n]));
    }
  }

  /** `boundedContexts` over the keys of the five maps. */
  function ContextMap(
    aggregates: seq<string>, events: seq<string>, commands: seq<string>,
    subscribers: seq<string>, userInterfaces: seq<string>): OrderedMap<BoundedContext>
  {
    var m1 := Assign(Empty(), aggregates, Aggregates);
    var m2 := Assign(m1, events, Events);
    var m3 := Assign(m2, commands, Commands);
    var m4 := Assign(m3, subscribers, Subscribers);
    Assign(m4, userInterfaces, UserInterfaces)
  }

  /** A loop of one kind leaves the lists of the other kinds alone. */
  lemma AssignOther(m: OrderedMap<BoundedContext>, ids: seq<string>, kind: Kind, name: string, k: Kind)
    requires k != kind
    ensures Members(ContextOf(Assign(m, ids, kind), name), k) == Members(ContextOf(m, name), k)
  {
    AssignMembers(m, ids, kind, name, k);
    assert Members(ContextOf(m, name), k) + [] == Members(ContextOf(m, name), k);
  }

  /** The identities of each kind, in the order `boundedContexts` visits them. */
  function IdsOf(
    kind: Kind, aggregates: seq<string>, events: seq<string>, commands: seq<string>,
    subscribers: seq<string>, userInterfaces: seq<string>): seq<string>
  {
    match kind
    case Aggregates => aggregates
    case Events => events
    case Commands => commands
    case Subscribers => subscribers
    case UserInterfaces => userInterfaces
  }

  /** The list of kind `k` in a context holds exactly the identities of that kind
      whose context it is, in the order of their map. */
  lemma ContextMapMembers(
    aggregates: seq<string>, events: seq<string>, commands: seq<string>,
    subscribers: seq<string>, userInterfaces: seq<string>, name: string, k: Kind)
    ensures Members(ContextOf(ContextMap(aggregates, events, commands, subscribers, userInterfaces), name), k) ==
      InContext(IdsOf(k, aggregates, events, commands, subscribers, userInterfaces), name)
  {
    var m1 := Assign(Empty(), aggregates, Aggregates);
    var m2 := Assign(m1, events, Events);
    var m3 := Assign(m2, commands, Commands);
    var m4 := Assign(m3, subscribers, Subscribers);
    AssignMembers(Empty(), aggregates, Aggregates, name, k);
    AssignMembers(m1, events, Events, name, k);
    AssignMembers(m2, commands, Commands, name, k);
    AssignMembers(m3, subscribers, Subscribers, name, k);
    AssignMembers(m4, userInterfaces, UserInterfaces, name, k);
    var own := InContext(IdsOf(k, aggregates, events, commands, subscribers, userInterfaces), name);
    assert [] + own == own && own + [] == own;
  }

  /** With duplicate-free key lists, the contexts partition the identities: one is
      listed under a context exactly when its context is that one, and at most once. */
  lemma ContextMapPartition(
    aggregates: seq<string>, events: seq<string>, commands: seq<string>,
    subscribers: seq<string>, userInterfaces: seq<string>, name: string, k: Kind, id: string)
    requires NoDup(aggregates) && NoDup(events) && NoDup(commands) && NoDup(subscribers) && NoDup(userInterfaces)
    ensures var listed := Members(ContextOf(ContextMap(aggregates, events, commands, subscribers, userInterfaces), name), k);
      (id in listed <==> id in IdsOf(k, aggregates, events, commands, subscribers, userInterfaces) && BoundedContextOf(id) == Some(name)) &&
      NoDup(listed)
  {
    var ids := IdsOf(k, aggregates, events, commands, subscribers, userInterfaces);
    assert NoDup(ids);
    ContextMapMembers(aggregates, events, commands, subscribers, userInterfaces, name, k);
    InContextMembers(ids, name);
  }

  /** Each context is named by its key and lists, per kind, exactly the identities of
      that kind whose context it is, in map order; an identity without a context is
      in none. */
  lemma ContextMapAt(
    aggregates: seq<string>, events: seq<string>, commands: seq<string>,
    subscribers: seq<string>, userInterfaces: seq<string>, name: string)
    ensures var b := ContextOf(ContextMap(aggregates, events, commands, subscribers, userInterfaces), name);
      b.name == name &&
      b.aggregates == InContext(aggregates, name) && b.events == InContext(events, name) &&
      b.commands == InContext(commands, name) && b.subscribers == InContext(subscribers, name) &&
      b.userInterfaces == InContext(userInterfaces, name)
  {
    var m1 := Assign(Empty(), aggregates, Aggregates);
    var m2 := Assign(m1, events, Events);
    var m3 := Assign(m2, commands, Commands);
    var m4 := Assign(m3, subscribers, Subscribers);
    AssignName(Empty(), aggregates, Aggregates, name);
    AssignName(m1, events, Events, name);
    AssignName(m2, commands, Commands, name);
    AssignName(m3, subscribers, Subscribers, name);
    AssignName(m4, userInterfaces, UserInterfaces, name);
    ContextMapMembers(aggregates, events, commands, subscribers, userInterfaces, name, Aggregates);
    ContextMapMembers(aggregates, events, commands, subscribers, userInterfaces, name, Events);
    ContextMapMembers(aggregates, events, commands, subscribers, userInterfaces, name, Commands);
    ContextMapMembers(aggregates, events, commands, subscribers, userInterfaces, name, Subscribers);
    ContextMapMembers(aggregates, events, commands, subscribers, userInterfaces, name, UserInterfaces);
  }

  /** The contexts are created in order of first use, aggregates first and user
      interfaces last. */
  lemma ContextMapKeys(
    aggregates: seq<string>, events: seq<string>, commands: seq<string>,
    subscribers: seq<string>, userInterfaces: seq<string>)
    ensures var m := ContextMap(aggregates, events, commands, subscribers, userInterfaces);
      m.Valid() &&
      m.keys == Distinct(ContextNames(aggregates) + ContextNames(events) + ContextNames(commands) +
        ContextNames(subscribers) + ContextNames(userInterfaces))
  {
    var m1 := Assign(Empty(), aggregates, Aggregates);
    var m2 := Assign(m1, events, Events);
    var m3 := Assign(m2, commands, Commands);
    var m4 := Assign(m3, subscribers, Subscribers);
    var a, e, c, s, u := ContextNames(aggregates), ContextNames(events), ContextNames(commands),
      ContextNames(subscribers), ContextNames(userInterfaces);
    AssignKeys(Empty(), aggregates, Aggregates);
    assert Empty<BoundedContext>().keys + a == a;
    AssignKeys(m1, events, Events);
    DistinctOfDistinctPrefix(a, e);
    AssignKeys(m2, commands, Commands);
    DistinctOfDistinctPrefix(a + e, c);
    AssignKeys(m3, subscribers, Subscribers);
    DistinctOfDistinctPrefix(a + e + c, s);
    AssignKeys(m4, userInterfaces, UserInterfaces);
    DistinctOfDistinctPrefix(a + e + c + s, u);
  }

  /** The name of a context is among the context names of some kind. */
  lemma KindOfName(
    aggregates: seq<string>, events: seq<string>, commands: seq<string>,
    subscribers: seq<string>, userInterfaces: seq<string>, name: string) returns (k: Kind)
    requires name in ContextNames(aggregates) + ContextNames(events) + ContextNames(commands) +
      ContextNames(subscribers) + ContextNames(userInterfaces)
    ensures name in ContextNames(IdsOf(k, aggregates, events, commands, subscribers, userInterfaces))
  {
    k := if name in ContextNames(aggregates) then Aggregates
      else if name in ContextNames(events) then Events
      else if name in ContextNames(commands) then Commands
      else if name in ContextNames(subscribers) then Subscribers
      else UserInterfaces;
  }

  /** Every context is created for some identity that belongs to it. */
  lemma ContextWitness(
    aggregates: seq<string>, events: seq<string>, commands: seq<string>,
    subscribers: seq<string>, userInterfaces: seq<string>, name: string) returns (k: Kind, id: string)
    requires name in ContextMap(aggregates, events, commands, subscribers, userInterfaces).values
    ensures id in IdsOf(k, aggregates, events, commands, subscribers, userInterfaces)
    ensures BoundedContextOf(id) == Some(name)
  {
    ContextMapKeys(aggregates, events, commands, subscribers, userInterfaces);
    var all := ContextNames(aggregates) + ContextNames(events) + ContextNames(commands) +
      ContextNames(subscribers) + ContextNames(userInterfaces);
    assert name in all;
    k := KindOfName(aggregates, events, commands, subscribers, userInterfaces, name);
    var ids := IdsOf(k, aggregates, events, commands, subscribers, userInterfaces);
    ContextNamesMembers(ids);
    id :| id in ids && BoundedContextOf(id) == Some(name);
  }

  /** Every identity with a context has that context created. */
  lemma ContextCreated(
    aggregates: seq<string>, events: seq<string>, commands: seq<string>,
    subscribers: seq<string>, userInterfaces: seq<string>, k: Kind, id: string, name: string)
    requires id in IdsOf(k, aggregates, events, commands, subscribers, userInterfaces)
    requires BoundedContextOf(id) == Some(name)
    ensures name in ContextMap(aggregates, events, commands, subscribers, userInterfaces).values
  {
    ContextMapKeys(aggregates, events, commands, subscribers, userInterfaces);
    var ids := IdsOf(k, aggregates, events, commands, subscribers, userInterfaces);
    ContextNamesMembers(ids);
    assert name in ContextNames(ids);
    var all := ContextNames(aggregates) + ContextNames(events) + ContextNames(commands) +
      ContextNames(subscribers) + ContextNames(userInterfaces);
    assert name in all;
  }

  /** Every context created holds at least one identity. */
  lemma ContextNonEmpty(
    aggregates: seq<string>, events: seq<string>, commands: seq<string>,
    subscribers: seq<string>, userInterfaces: seq<string>, name: string) returns (k: Kind)
    requires name in ContextMap(aggregates, events, commands, subscribers, userInterfaces).values
    ensures Members(ContextMap(aggregates, events, commands, subscribers, userInterfaces).values[name], k) != []
  {
    var id;
    k, id := ContextWitness(aggregates, events, commands, subscribers, userInterfaces, name);
    var ids := IdsOf(k, aggregates, events, commands, subscribers, userInterfaces);
    InContextMembers(ids, name);
    ContextMapMembers(aggregates, events, commands, subscribers, userInterfaces, name, k);
    assert id in InContext(ids, name);
  }
}
