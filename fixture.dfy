/**
 * The test fixtures `Profile` and `ProfileProjection`, as the facts the
 * collectors report for them, and what the assembly makes of them. The facts
 * are stated for any class names, so that the proofs do not compute on the
 * long literal names; the fixtures' own names are an instance.
 */
module Fixture {
  import opened Facts
  import opened PhpArray
  import opened Data
  import opened CallGraph
  import opened Assembly
  import opened ProjectFactory

  const Namespace := "Patchlevel\\EventSourcingAnalyser\\Tests\\Fixture\\"
  const Profile := Namespace + "Profile"
  const ProfileProjection := Namespace + "ProfileProjection"
  const CreateProfile := Namespace + "CreateProfile"
  const UpdateProfile := Namespace + "UpdateProfile"
  const ProfileCreated := Namespace + "ProfileCreated"
  const ProfileUpdated := Namespace + "ProfileUpdated"

  /** The calls of aggregate `p`: `create` (handling `cc`) records `ce`; `update`
      (handling `uc`) records `ue` and calls `foo`, which records `ue` again. */
  function ProfileCalls(p: string, cc: string, uc: string, ce: string, ue: string): seq<AggregateCallRow> {
    [
      AggregateCallRow(p, Some("create"), Some("recordThat"), Some(ce), Some(cc)),
      AggregateCallRow(p, Some("update"), Some("recordThat"), Some(ue), Some(uc)),
      AggregateCallRow(p, Some("update"), Some("foo"), None, Some(uc)),
      AggregateCallRow(p, Some("foo"), Some("recordThat"), Some(ue), None)
    ]
  }

  function ProfileFacts(p: string, cc: string, uc: string, ce: string, ue: string): seq<CollectedData> {
    var rows := ProfileCalls(p, cc, uc, ce, ue);
    [AggregateCallCollector(rows[0]), AggregateCallCollector(rows[1]),
     AggregateCallCollector(rows[2]), AggregateCallCollector(rows[3])]
  }

  /** Filtering keeps every aggregate-call fact, in order. */
  lemma ProfileRows(p: string, cc: string, uc: string, ce: string, ue: string)
    ensures AggregateCallRows(ProfileFacts(p, cc, uc, ce, ue)) == ProfileCalls(p, cc, uc, ce, ue)
  {
    var facts, rows := ProfileFacts(p, cc, uc, ce, ue), ProfileCalls(p, cc, uc, ce, ue);
    assert facts[..1][..0] == [];
    assert facts[..2][..1] == facts[..1];
    assert facts[..3][..2] == facts[..2];
    assert facts[..4][..3] == facts[..3];
    assert AggregateCallRows(facts[..1]) == rows[..1];
    assert AggregateCallRows(facts[..2]) == rows[..2];
    assert AggregateCallRows(facts[..3]) == rows[..3];
    assert facts[..4] == facts;
  }

  /** Keys of one class differ when the method names start differently. */
  lemma KeysDiffer(p: string, m1: string, m2: string)
    requires |m1| > 0 && |m2| > 0 && m1[0] != m2[0]
    ensures MethodKey(p, m1) != MethodKey(p, m2)
  {
    assert MethodKey(p, m1)[|p| + 2] == m1[0];
    assert MethodKey(p, m2)[|p| + 2] == m2[0];
  }

  function ProfileIndex(p: string, ce: string, ue: string): Index {
    map[
      MethodKey(p, "create") := [Call(p, Some("recordThat"), Some(ce))],
      MethodKey(p, "update") := [Call(p, Some("recordThat"), Some(ue)), Call(p, Some("foo"), None)],
      MethodKey(p, "foo") := [Call(p, Some("recordThat"), Some(ue))]]
  }

  /** The first two facts open the `create` and `update` lists. */
  lemma ProfileCallIndexStart(p: string, cc: string, uc: string, ce: string, ue: string)
    ensures CallIndex(ProfileCalls(p, cc, uc, ce, ue)[..2]) ==
      map[MethodKey(p, "create") := [Call(p, Some("recordThat"), Some(ce))],
          MethodKey(p, "update") := [Call(p, Some("recordThat"), Some(ue))]]
  {
    var rows := ProfileCalls(p, cc, uc, ce, ue);
    assert rows[..0] == [];
    KeysDiffer(p, "create", "update");
    assert CallIndex(rows[..0]) == map[];
    CallIndexSnoc(rows, 0);
    assert [] + [CallOf(rows[0])] == [CallOf(rows[0])];
    CallIndexSnoc(rows, 1);
    assert [] + [CallOf(rows[1])] == [CallOf(rows[1])];
  }

  /** The third fact, `update` calling `foo`, joins the `update` list. */
  lemma ProfileCallIndexUpdate(p: string, cc: string, uc: string, ce: string, ue: string)
    ensures CallIndex(ProfileCalls(p, cc, uc, ce, ue)[..3]) ==
      map[MethodKey(p, "create") := [Call(p, Some("recordThat"), Some(ce))],
          MethodKey(p, "update") := [Call(p, Some("recordThat"), Some(ue)), Call(p, Some("foo"), None)]]
  {
    var rows := ProfileCalls(p, cc, uc, ce, ue);
    var updateKey := MethodKey(p, "update");
    var recordUpdated, callFoo := Call(p, Some("recordThat"), Some(ue)), Call(p, Some("foo"), None);
    var m := map[MethodKey(p, "create") := [Call(p, Some("recordThat"), Some(ce))], updateKey := [recordUpdated]];
    ProfileCallIndexStart(p, cc, uc, ce, ue);
    CallIndexAppend(rows, 2, m, updateKey, callFoo);
    assert [recordUpdated] + [callFoo] == [recordUpdated, callFoo];
  }

  /** Filing a fact under a key the index already holds. */
  lemma CallIndexAppend(rows: seq<AggregateCallRow>, i: nat, m: Index, k: string, c: Call)
    requires i < |rows| && CallIndex(rows[..i]) == m
    requires RowKey(rows[i]) == k && CallOf(rows[i]) == c && k in m
    ensures CallIndex(rows[..i + 1]) == m[k := m[k] + [c]]
  {
    CallIndexSnoc(rows, i);
  }

  /** The index files `update`'s two calls under one key. */
  lemma ProfileCallIndex(p: string, cc: string, uc: string, ce: string, ue: string)
    ensures CallIndex(ProfileCalls(p, cc, uc, ce, ue)) == ProfileIndex(p, ce, ue)
  {
    var rows := ProfileCalls(p, cc, uc, ce, ue);
    assert rows[..4] == rows;
    ProfileCallIndexUpdate(p, cc, uc, ce, ue);
    KeysDiffer(p, "update", "foo");
    KeysDiffer(p, "create", "foo");
    CallIndexSnoc(rows, 3);
    assert [] + [CallOf(rows[3])] == [CallOf(rows[3])];
  }

  /** `create` resolves to its one event; `update` to its own event followed by the
      one `foo` records, the repeat kept. */
  lemma ProfileResolve(p: string, ce: string, ue: string)
    ensures Named(ProfileIndex(p, ce, ue))
    ensures ResolveKey(ProfileIndex(p, ce, ue), MethodKey(p, "create"), {}) == Some([ce])
    ensures ResolveKey(ProfileIndex(p, ce, ue), MethodKey(p, "update"), {}) == Some([ue, ue])
  {
    var index := ProfileIndex(p, ce, ue);
    var createKey, updateKey, fooKey := MethodKey(p, "create"), MethodKey(p, "update"), MethodKey(p, "foo");
    KeysDiffer(p, "create", "update");
    KeysDiffer(p, "update", "foo");
    KeysDiffer(p, "create", "foo");
    var recordCreated, recordUpdated, callFoo :=
      Call(p, Some("recordThat"), Some(ce)), Call(p, Some("recordThat"), Some(ue)), Call(p, Some("foo"), None);
    assert index[createKey] == [recordCreated] && index[updateKey] == [recordUpdated, callFoo] && index[fooKey] == [recordUpdated];
    assert Named(index);
    assert CalleeKey(callFoo) == fooKey;
    assert [recordUpdated, callFoo][..1] == [recordUpdated];
    assert [recordUpdated][..0] == [];
    assert [recordCreated][..0] == [];
    var none: seq<string> := [];
    assert none + [ue] == [ue] && none + [ce] == [ce] && [ue] + [ue] == [ue, ue];
    assert ResolveCalls(index, [recordUpdated], {updateKey, fooKey}) == Some([ue]);
    assert fooKey in index && fooKey !in {updateKey} && {updateKey} + {fooKey} == {updateKey, fooKey};
    assert ResolveKey(index, fooKey, {updateKey}) == Some([ue]);
    assert ResolveCalls(index, [recordUpdated], {updateKey}) == Some([ue]);
    assert ResolveCalls(index, [recordUpdated, callFoo], {updateKey}) == Some([ue, ue]);
    assert ResolveCalls(index, [recordCreated], {createKey}) == Some([ce]);
    assert {} + {createKey} == {createKey} && {} + {updateKey} == {updateKey};
  }

  /** The three facts carrying a command each give a resolution; `foo`'s fact none. */
  lemma ProfileEntries(p: string, cc: string, uc: string, ce: string, ue: string)
    requires Truthy(Some(cc)) && Truthy(Some(uc))
    ensures Named(ProfileIndex(p, ce, ue))
    ensures ResolutionEntries(ProfileCalls(p, cc, uc, ce, ue), ProfileIndex(p, ce, ue)) ==
      [(cc, Some([ce])), (uc, Some([ue, ue])), (uc, Some([ue, ue]))]
  {
    ProfileResolve(p, ce, ue);
    var rows, index := ProfileCalls(p, cc, uc, ce, ue), ProfileIndex(p, ce, ue);
    var es := [(cc, Some([ce])), (uc, Some([ue, ue])), (uc, Some([ue, ue]))];
    assert rows[..0] == [] && rows[..4] == rows;
    ResolutionSnoc(rows, index, 0);
    assert ResolutionEntries(rows[..1], index) == es[..1];
    ResolutionSnoc(rows, index, 1);
    assert ResolutionEntries(rows[..2], index) == es[..2];
    ResolutionSnoc(rows, index, 2);
    assert ResolutionEntries(rows[..3], index) == es;
    ResolutionSnoc(rows, index, 3);
  }

  /** The first resolution of each command is kept. */
  lemma ProfileFirst(cc: string, uc: string, ce: string, ue: string)
    requires cc != uc
    ensures var m := PutFirst([(cc, Some([ce])), (uc, Some([ue, ue])), (uc, Some([ue, ue]))]);
      m.keys == [cc, uc] && m.values == map[cc := Some([ce]), uc := Some([ue, ue])]
  {
    var es := [(cc, Some([ce])), (uc, Some([ue, ue])), (uc, Some([ue, ue]))];
    assert es[..0] + [es[0]] == es[..1];
    assert es[..1] + [es[1]] == es[..2];
    assert es[..2] + [es[2]] == es;
    PutFirstSnoc(es[..0], es[0]);
    PutFirstSnoc(es[..1], es[1]);
    PutFirstSnoc(es[..2], es[2]);
  }

  /** `commandToEvents` on facts shaped like the `Profile` fixture: the command of
      `create` causes its one event, the command of `update` causes `update`'s event
      twice, once recorded by `update` itself and once by the `foo` it calls. */
  lemma ProfileShapeCommandEvents(p: string, cc: string, uc: string, ce: string, ue: string)
    requires Truthy(Some(cc)) && Truthy(Some(uc)) && cc != uc
    ensures CommandEventsMap(ProfileFacts(p, cc, uc, ce, ue)).Some?
    ensures var m := CommandEventsMap(ProfileFacts(p, cc, uc, ce, ue)).value;
      m.keys == [cc, uc] && cc in m.values && m.values[cc] == [ce] && uc in m.values && m.values[uc] == [ue, ue]
  {
    ProfileRows(p, cc, uc, ce, ue);
    ProfileCallIndex(p, cc, uc, ce, ue);
    ProfileEntries(p, cc, uc, ce, ue);
    ProfileFirst(cc, uc, ce, ue);
    assert AllResolved(ResolvedCommands(ProfileFacts(p, cc, uc, ce, ue)));
  }

  /** The `Profile` fixture itself: `CreateProfile` causes `[ProfileCreated]` and
      `UpdateProfile` causes `[ProfileUpdated, ProfileUpdated]`. */
  lemma ProfileCommandEvents()
    ensures CommandEventsMap(ProfileFacts(Profile, CreateProfile, UpdateProfile, ProfileCreated, ProfileUpdated)).Some?
    ensures var m := CommandEventsMap(ProfileFacts(Profile, CreateProfile, UpdateProfile, ProfileCreated, ProfileUpdated)).value;
      m.keys == [CreateProfile, UpdateProfile] &&
      CreateProfile in m.values && m.values[CreateProfile] == [ProfileCreated] &&
      UpdateProfile in m.values && m.values[UpdateProfile] == [ProfileUpdated, ProfileUpdated]
  {
    assert CreateProfile[|Namespace|] != UpdateProfile[|Namespace|];
    ProfileShapeCommandEvents(Profile, CreateProfile, UpdateProfile, ProfileCreated, ProfileUpdated);
  }

  /** A call of aggregate `a` whose callee reflection could not name, inside a
      method `helper` that handles no command: nothing resolves it, so
      `commandToEvents` gives no commands and `__invoke` a project. */
  lemma UnreachedUnnamedCall(a: string)
    ensures var facts := [AggregateCallCollector(AggregateCallRow(a, Some("helper"), None, None, None))];
      CommandEventsMap(facts) == Some(OrderedMap([], map[])) && ProjectOf(facts).Some?
  {
    var row := AggregateCallRow(a, Some("helper"), None, None, None);
    var facts := [AggregateCallCollector(row)];
    assert facts[..0] == [] && [row][..0] == [];
    assert AggregateCallRows(facts) == [row];
    assert SubscriberRows(facts) == [];
    assert ResolutionEntries([row], CallIndex([row])) == [];
    CommandMapSpec(facts);
    InvokeFails(facts);
  }

  /** The same unnamed call inside a method `handle` of aggregate `a`: the
      resolution of `handle` reaches it and fails. */
  lemma HandleUnnamed(a: string, c: string)
    ensures var row := AggregateCallRow(a, Some("handle"), None, None, Some(c));
      ResolveRow(CallIndex([row]), row).None?
  {
    var row := AggregateCallRow(a, Some("handle"), None, None, Some(c));
    var index := CallIndex([row]);
    var key := MethodKey(a, "handle");
    var empty: seq<Call> := [];
    var noRows: seq<AggregateCallRow> := [];
    assert [row][..0] == noRows && CallIndex(noRows) == map[];
    assert RowKey(row) == key && empty + [CallOf(row)] == [CallOf(row)];
    assert index == map[key := [CallOf(row)]];
    UnnamedCallFails(index, [CallOf(row)], {key}, 0);
    assert {} + {key} == {key};
  }

  /** When `handle` handles command `c`, resolving `c` reaches the unnamed call, and
      the string parameter of `resolveCallForEvents` refuses the null, so
      `commandToEvents` and `__invoke` raise. */
  lemma ReachedUnnamedCall(a: string, c: string)
    requires Truthy(Some(c))
    ensures var facts := [AggregateCallCollector(AggregateCallRow(a, Some("handle"), None, None, Some(c)))];
      CommandEventsMap(facts).None? && ProjectOf(facts).None?
  {
    var row := AggregateCallRow(a, Some("handle"), None, None, Some(c));
    var facts := [AggregateCallCollector(row)];
    assert facts[..0] == [] && [row][..0] == [];
    assert AggregateCallRows(facts) == [row];
    assert SubscriberRows(facts) == [];
    HandleUnnamed(a, c);
    var failed: Resolution := None;
    var none: seq<(string, Resolution)> := [];
    assert ResolutionEntries([row], CallIndex([row])) == [(c, failed)];
    assert PutFirst([(c, failed)]).values[c].None? by {
      PutFirstSnoc(none, (c, failed));
      assert none + [(c, failed)] == [(c, failed)];
    }
    CommandMapSpec(facts);
    InvokeFails(facts);
  }

  /** Subscriber `s` with id `id`: `update` subscribes to `e`, dispatches `c` and
      calls `foo`, which dispatches `c` again. */
  function ProjectionCalls(s: string, e: string, c: string): seq<SubscriberCallRow> {
    [
      SubscriberCallRow(s, Some("update"), Some("dispatch"), [e], Some(c)),
      SubscriberCallRow(s, Some("update"), Some("foo"), [e], None),
      SubscriberCallRow(s, Some("foo"), Some("dispatch"), [], Some(c))
    ]
  }

  function ProjectionFacts(s: string, id: string, e: string, c: string): seq<CollectedData> {
    var calls := ProjectionCalls(s, e, c);
    [SubscriberCollector(SubscriberRow(s, "projector", id)), SubscriberCallCollector(calls[0]),
     SubscriberCallCollector(calls[1]), SubscriberCallCollector(calls[2])]
  }

  lemma ProjectionRows(s: string, id: string, e: string, c: string)
    ensures SubscriberRows(ProjectionFacts(s, id, e, c)) == [SubscriberRow(s, "projector", id)]
    ensures SubscriberCallRows(ProjectionFacts(s, id, e, c)) == ProjectionCalls(s, e, c)
  {
    var facts, calls := ProjectionFacts(s, id, e, c), ProjectionCalls(s, e, c);
    assert facts[..1][..0] == [];
    assert facts[..2][..1] == facts[..1];
    assert facts[..3][..2] == facts[..2];
    assert facts[..4][..3] == facts[..3];
    assert facts[..4] == facts;
    assert SubscriberRows(facts[..1]) == [SubscriberRow(s, "projector", id)];
    assert SubscriberRows(facts[..2]) == SubscriberRows(facts[..1]);
    assert SubscriberRows(facts[..3]) == SubscriberRows(facts[..1]);
    assert SubscriberCallRows(facts[..1]) == [];
    assert SubscriberCallRows(facts[..2]) == calls[..1];
    assert SubscriberCallRows(facts[..3]) == calls[..2];
  }

  /** Both calls of `update` carry its subscription; both dispatches are seen. */
  lemma ProjectionLists(s: string, e: string, c: string)
    ensures SubscribedOf(ProjectionCalls(s, e, c), s) == [e, e]
    ensures DispatchedOf(ProjectionCalls(s, e, c), s) == [c, c]
  {
    var calls := ProjectionCalls(s, e, c);
    assert calls[..0] == [] && calls[..3] == calls;
    SubscribedOfSnoc(calls, 0, s);
    SubscribedOfSnoc(calls, 1, s);
    SubscribedOfSnoc(calls, 2, s);
  }

  lemma DistinctTwice(x: string)
    ensures Distinct([x, x]) == [x]
  {
    assert [x][..0] == [];
    DistinctSnoc([x], x);
    assert [x] + [x] == [x, x];
  }

  /** `subscribers` on facts shaped like the `ProfileProjection` fixture: one
      projector whose events hold `e` once and whose commands hold `c` once,
      although each occurs twice among its calls. */
  lemma ProjectionShapeSubscriber(s: string, id: string, e: string, c: string)
    ensures ValidTypes(SubscriberRows(ProjectionFacts(s, id, e, c)))
    ensures var m := SubscriberMap(ProjectionFacts(s, id, e, c));
      m.keys == [s] && s in m.values && m.values[s] == Subscriber.Subscriber(id, s, Projector, [e], [c])
  {
    ProjectionRows(s, id, e, c);
    var rows, calls := [SubscriberRow(s, "projector", id)], ProjectionCalls(s, e, c);
    assert ValidTypes(rows);
    ProjectionValue(s, id, e, c);
    var es := SubscriberEntries(rows, calls);
    assert |es| == 1 && es[0] == (s, Subscriber.Subscriber(id, s, Projector, [e], [c]));
    PutAllSingle(es);
    assert SubscriberMap(ProjectionFacts(s, id, e, c)) == PutAll(es);
  }

  /** The one entry the projector declaration gives. */
  lemma ProjectionValue(s: string, id: string, e: string, c: string)
    ensures SubscriberOf(SubscriberRow(s, "projector", id), ProjectionCalls(s, e, c)) ==
      Subscriber.Subscriber(id, s, Projector, [e], [c])
  {
    ProjectionLists(s, e, c);
    DistinctTwice(e);
    DistinctTwice(c);
    assert "projector"[1] != "processor"[2];
  }

  /** The `ProfileProjection` fixture itself: a projector with events
      `[ProfileUpdated]` and commands `[CreateProfile]`. */
  lemma ProjectionSubscriber()
    ensures ValidTypes(SubscriberRows(ProjectionFacts(ProfileProjection, "profile", ProfileUpdated, CreateProfile)))
    ensures var m := SubscriberMap(ProjectionFacts(ProfileProjection, "profile", ProfileUpdated, CreateProfile));
      m.keys == [ProfileProjection] && ProfileProjection in m.values &&
      m.values[ProfileProjection] == Subscriber.Subscriber("profile", ProfileProjection, Projector, [ProfileUpdated], [CreateProfile])
  {
    ProjectionShapeSubscriber(ProfileProjection, "profile", ProfileUpdated, CreateProfile);
  }
}
