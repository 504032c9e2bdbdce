/**
 * Command-to-event causality: the index of aggregate method calls that
 * `commandToEvents` builds, and `resolveCallForEvents`, which follows the
 * calls of one method (recursively through calls that record no event) and
 * collects the events recorded on the way.
 *
 * The source recursion has no cycle guard: on an index where a method
 * reaches itself it does not terminate. `ResolveKey` is the guarded
 * reading, with a set of keys visited on the current recursion path;
 * `Unguarded` is the recursion as written, cut off by a fuel bound, and
 * `UnguardedAgrees` shows that the two agree whenever the source terminates.
 * Both end in failure (None) where the source raises a `TypeError`: at a call
 * that records no event and has no callee name.
 */
module CallGraph {
  import opened Facts

  /** One entry of `$methodCalls[$key]`. */
  datatype Call = Call(aggregateClass: string, calledMethod: Option<string>, eventClass: Option<string>)

  /** `sprintf('%s::%s', $aggregate, $method)`. */
  function MethodKey(aggregate: string, methodName: string): string {
    aggregate + "::" + methodName
  }

  /** The key a call fact is filed under; `sprintf` prints a null method as "". */
  function RowKey(r: AggregateCallRow): string {
    MethodKey(r.aggregateClass, r.callMethod.GetOr(""))
  }

  /** The entry a call fact contributes. */
  function CallOf(r: AggregateCallRow): Call {
    Call(r.aggregateClass, r.calledMethod, r.eventClass)
  }

  type Index = map<string, seq<Call>>

  /** The calls of the facts filed under `key`, in fact order (the reference for the index). */
  function CallsWithKey(rows: seq<AggregateCallRow>, key: string): (calls: seq<Call>)
    ensures |calls| <= |rows|
  {
    if rows == [] then []
    else
      var n := |rows| - 1;
      CallsWithKey(rows[..n], key) + (if RowKey(rows[n]) == key then [CallOf(rows[n])] else [])
  }

  /** The calls listed are exactly those of the facts filed under `key`. */
  lemma {:induction false} CallsWithKeyMembers(rows: seq<AggregateCallRow>, key: string)
    ensures forall c :: c in CallsWithKey(rows, key) <==> exists i :: 0 <= i < |rows| && RowKey(rows[i]) == key && CallOf(rows[i]) == c
  {
    if rows != [] {
      var n := |rows| - 1;
      assert forall i :: 0 <= i < n ==> rows[..n][i] == rows[i];
      CallsWithKeyMembers(rows[..n], key);
    }
  }

  /** The first loop of `commandToEvents`: every call fact appended, in order, to the
      list under its key, the list being created on the first fact with that key. */
  function CallIndex(rows: seq<AggregateCallRow>): Index {
    if rows == [] then map[]
    else
      var n := |rows| - 1;
      var m := CallIndex(rows[..n]);
      var k := RowKey(rows[n]);
      m[k := (if k in m then m[k] else []) + [CallOf(rows[n])]]
  }

  /** The index has a key exactly when some fact is filed under it. */
  lemma {:induction false} CallIndexKeys(rows: seq<AggregateCallRow>)
    ensures forall k :: k in CallIndex(rows) <==> exists i :: 0 <= i < |rows| && RowKey(rows[i]) == k
  {
    if rows != [] {
      var n := |rows| - 1;
      assert forall i :: 0 <= i < n ==> rows[..n][i] == rows[i];
      CallIndexKeys(rows[..n]);
    }
  }

  /** Filing one more fact: its call is appended under its key, the list created if need be. */
  lemma CallIndexSnoc(rows: seq<AggregateCallRow>, i: nat)
    requires i < |rows|
    ensures var m := CallIndex(rows[..i]);
      var k := RowKey(rows[i]);
      CallIndex(rows[..i + 1]) == m[k := (if k in m then m[k] else []) + [CallOf(rows[i])]]
  {
    assert rows[..i + 1][..i] == rows[..i];
  }

  /** The list under a key holds the calls of exactly the facts filed under it, in fact order. */
  lemma {:induction false} CallIndexLookup(rows: seq<AggregateCallRow>, k: string)
    requires k in CallIndex(rows)
    ensures CallIndex(rows)[k] == CallsWithKey(rows, k)
  {
    var n := |rows| - 1;
    var m := CallIndex(rows[..n]);
    assert forall i :: 0 <= i < n ==> rows[..n][i] == rows[i];
    if k in m {
      CallIndexLookup(rows[..n], k);
    } else {
      CallIndexKeys(rows[..n]);
      CallsWithKeyAbsent(rows[..n], k);
    }
  }

  /** No fact filed under `key` means no calls under it. */
  lemma CallsWithKeyAbsent(rows: seq<AggregateCallRow>, key: string)
    ensures (forall i :: 0 <= i < |rows| ==> RowKey(rows[i]) != key) ==> CallsWithKey(rows, key) == []
  {
    var calls := CallsWithKey(rows, key);
    if calls != [] {
      CallsWithKeyMembers(rows, key);
      assert calls[0] in calls;
    }
  }

  /** A list under a key is never empty. */
  lemma CallIndexNonEmpty(rows: seq<AggregateCallRow>, k: string)
    requires k in CallIndex(rows)
    ensures CallIndex(rows)[k] != []
  {
    CallIndexLookup(rows, k);
    CallIndexKeys(rows);
    CallsWithKeyMembers(rows, k);
    var i :| 0 <= i < |rows| && RowKey(rows[i]) == k;
    assert CallOf(rows[i]) in CallsWithKey(rows, k);
  }

  /** Every call that records no event names the method it calls. */
  predicate NamedCalls(calls: seq<Call>) {
    forall c :: c in calls ==> c.eventClass.None? ==> c.calledMethod.Some?
  }

  ghost predicate Named(index: Index) {
    forall k :: k in index ==> NamedCalls(index[k])
  }

  /** Facts whose non-recording calls name their callee give a `Named` index. */
  lemma CallIndexNamed(rows: seq<AggregateCallRow>)
    requires forall i :: 0 <= i < |rows| ==> rows[i].eventClass.None? ==> rows[i].calledMethod.Some?
    ensures Named(CallIndex(rows))
  {
    var index := CallIndex(rows);
    forall k | k in index ensures NamedCalls(index[k]) {
      CallIndexLookup(rows, k);
    }
  }

  /** The key of the method a call calls. */
  function CalleeKey(c: Call): string
    requires c.calledMethod.Some?
  {
    MethodKey(c.aggregateClass, c.calledMethod.value)
  }

  /** Every call is filed in the index under some key. */
  ghost predicate InIndex(index: Index, calls: seq<Call>) {
    forall c :: c in calls ==> exists k :: k in index && c in index[k]
  }

  /** `e` is the event of some call in the index. */
  ghost predicate Recorded(index: Index, e: string) {
    exists k, c :: k in index && c in index[k] && c.eventClass == Some(e)
  }

  lemma RecordedOf(index: Index, calls: seq<Call>, c: Call)
    requires InIndex(index, calls) && c in calls
    ensures c.eventClass.Some? ==> Recorded(index, c.eventClass.value)
  {
    var k :| k in index && c in index[k];
  }

  /** What resolving a method gives: its events, or None where the source raises a
      `TypeError` because the recursion reaches a call that records no event and
      has a null `calledMethod` for the `string $method` parameter. */
  type Resolution = Option<seq<string>>

  /** `resolveCallForEvents` for `key`, not entering a key already on the current
      recursion path (`visited`): [] for a key without calls, otherwise the calls'
      contributions concatenated in order, duplicates kept. */
  function ResolveKey(index: Index, key: string, visited: set<string>): (events: Resolution)
    ensures events.Some? ==> forall e :: e in events.value ==> Recorded(index, e)
    decreases index.Keys - visited, 0, 0
  {
    if key !in index || key in visited then Some([])
    else
      assert index.Keys - (visited + {key}) < index.Keys - visited;
      ResolveCalls(index, index[key], visited + {key})
  }

  /** The loop of `resolveCallForEvents` over `calls`: a recorded event is appended,
      a call recording none is resolved and merged; the first failure ends the loop. */
  function ResolveCalls(index: Index, calls: seq<Call>, visited: set<string>): (events: Resolution)
    requires InIndex(index, calls)
    ensures events.Some? ==> forall e :: e in events.value ==> Recorded(index, e)
    decreases index.Keys - visited, 1, |calls|
  {
    if calls == [] then Some([])
    else
      var n := |calls| - 1;
      var c := calls[n];
      assert forall d :: d in calls[..n] ==> d in calls;
      RecordedOf(index, calls, c);
      match ResolveCalls(index, calls[..n], visited)
      case None => None
      case Some(prev) =>
        if c.eventClass.Some? then Some(prev + [c.eventClass.value])
        else if c.calledMethod.None? then None
        else match ResolveKey(index, CalleeKey(c), visited)
          case None => None
          case Some(sub) => Some(prev + sub)
  }

  /** A failure within the first `i` calls is a failure of the whole loop. */
  lemma {:induction false} ResolveCallsStuck(index: Index, calls: seq<Call>, visited: set<string>, i: nat)
    requires InIndex(index, calls)
    requires i <= |calls|
    requires forall c :: c in calls[..i] ==> c in calls
    requires ResolveCalls(index, calls[..i], visited).None?
    ensures ResolveCalls(index, calls, visited).None?
  {
    if i < |calls| {
      var n := |calls| - 1;
      assert forall d :: d in calls[..n] ==> d in calls;
      assert calls[..n][..i] == calls[..i];
      ResolveCallsStuck(index, calls[..n], visited, i);
    } else {
      assert calls[..i] == calls;
    }
  }

  /** When every call that records no event names its callee, nothing fails. */
  lemma {:induction false} ResolveNamed(index: Index, key: string, visited: set<string>)
    requires Named(index)
    ensures ResolveKey(index, key, visited).Some?
    decreases index.Keys - visited, 0, 0
  {
    if key in index && key !in visited {
      assert index.Keys - (visited + {key}) < index.Keys - visited;
      ResolveCallsNamed(index, index[key], visited + {key});
    }
  }

  lemma {:induction false} ResolveCallsNamed(index: Index, calls: seq<Call>, visited: set<string>)
    requires Named(index) && NamedCalls(calls) && InIndex(index, calls)
    ensures ResolveCalls(index, calls, visited).Some?
    decreases index.Keys - visited, 1, |calls|
  {
    if calls != [] {
      var n := |calls| - 1;
      var c := calls[n];
      assert forall d :: d in calls[..n] ==> d in calls;
      ResolveCallsNamed(index, calls[..n], visited);
      if c.eventClass.None? {
        assert c in calls;
        ResolveNamed(index, CalleeKey(c), visited);
      }
    }
  }

  /** A call recording no event and naming no callee fails as soon as it is reached. */
  lemma UnnamedCallFails(index: Index, calls: seq<Call>, visited: set<string>, i: nat)
    requires InIndex(index, calls)
    requires i < |calls| && calls[i].eventClass.None? && calls[i].calledMethod.None?
    ensures ResolveCalls(index, calls, visited).None?
  {
    var p := calls[..i + 1];
    assert forall d :: d in p ==> d in calls;
    assert p[..i] == calls[..i] && p[i] == calls[i];
    ResolveCallsStuck(index, calls, visited, i + 1);
  }

  /** The recursion as written, with at most `fuel` nested lookups of a key in the
      index: None when that bound is reached, otherwise what the source gives back
      (a `Resolution`, None being the `TypeError`). */
  function Unguarded(index: Index, key: string, fuel: nat): Option<Resolution>
    decreases fuel, 0, 0
  {
    if key !in index then Some(Some([]))
    else if fuel == 0 then None
    else UnguardedCalls(index, index[key], fuel - 1)
  }

  function UnguardedCalls(index: Index, calls: seq<Call>, fuel: nat): Option<Resolution>
    decreases fuel, 1, |calls|
  {
    if calls == [] then Some(Some([]))
    else
      var n := |calls| - 1;
      var c := calls[n];
      match UnguardedCalls(index, calls[..n], fuel)
      case None => None
      case Some(None) => Some(None)
      case Some(Some(prev)) =>
        if c.eventClass.Some? then Some(Some(prev + [c.eventClass.value]))
        else if c.calledMethod.None? then Some(None)
        else match Unguarded(index, CalleeKey(c), fuel)
          case Some(Some(sub)) => Some(Some(prev + sub))
          case other => other
  }

  /** Whether the last of `calls` is looked up: the earlier ones did not fail, and it
      records no event and names its callee. */
  predicate EntersLast(index: Index, calls: seq<Call>, fuel: nat)
    requires calls != []
  {
    var c := calls[|calls| - 1];
    UnguardedCalls(index, calls[..|calls| - 1], fuel) != Some(None) && c.eventClass.None? && c.calledMethod.Some?
  }

  /** The keys of the index that the unguarded recursion looks up. */
  function Touched(index: Index, key: string, fuel: nat): set<string>
    decreases fuel, 0, 0
  {
    if key !in index || fuel == 0 then {}
    else {key} + TouchedCalls(index, index[key], fuel - 1)
  }

  function TouchedCalls(index: Index, calls: seq<Call>, fuel: nat): set<string>
    decreases fuel, 1, |calls|
  {
    if calls == [] then {}
    else
      var n := |calls| - 1;
      var c := calls[n];
      TouchedCalls(index, calls[..n], fuel) +
        (if EntersLast(index, calls, fuel) then Touched(index, CalleeKey(c), fuel) else {})
  }

  /** More fuel changes neither a finished result nor the keys it looked up. */
  lemma {:induction false} Mono(index: Index, key: string, f: nat, g: nat)
    requires Unguarded(index, key, f).Some? && f <= g
    ensures Unguarded(index, key, g) == Unguarded(index, key, f)
    ensures Touched(index, key, g) == Touched(index, key, f)
    decreases f, 0, 0
  {
    if key in index {
      MonoCalls(index, index[key], f - 1, g - 1);
    }
  }

  lemma {:induction false} MonoCalls(index: Index, calls: seq<Call>, f: nat, g: nat)
    requires UnguardedCalls(index, calls, f).Some? && f <= g
    ensures UnguardedCalls(index, calls, g) == UnguardedCalls(index, calls, f)
    ensures TouchedCalls(index, calls, g) == TouchedCalls(index, calls, f)
    decreases f, 1, |calls|
  {
    if calls != [] {
      var n := |calls| - 1;
      var c := calls[n];
      MonoCalls(index, calls[..n], f, g);
      if EntersLast(index, calls, f) {
        Mono(index, CalleeKey(c), f, g);
      }
    }
  }

  /** A key looked up during a finished recursion finishes on its own, with no more fuel. */
  lemma {:induction false} Reach(index: Index, key: string, f: nat, k: string) returns (g: nat)
    requires Unguarded(index, key, f).Some? && k in Touched(index, key, f)
    ensures g <= f && k in index && Unguarded(index, k, g).Some?
    decreases f, 0, 0
  {
    if k == key {
      g := f;
    } else {
      g := ReachCalls(index, index[key], f - 1, k);
    }
  }

  lemma {:induction false} ReachCalls(index: Index, calls: seq<Call>, f: nat, k: string) returns (g: nat)
    requires UnguardedCalls(index, calls, f).Some? && k in TouchedCalls(index, calls, f)
    ensures g <= f && k in index && Unguarded(index, k, g).Some?
    decreases f, 1, |calls|
  {
    var n := |calls| - 1;
    var c := calls[n];
    if k in TouchedCalls(index, calls[..n], f) {
      g := ReachCalls(index, calls[..n], f, k);
    } else {
      g := Reach(index, CalleeKey(c), f, k);
    }
  }

  /** A finished recursion never reaches the key it started from. */
  lemma {:induction false} NoSelfReach(index: Index, key: string, f: nat)
    requires key in index && Unguarded(index, key, f).Some?
    ensures key !in TouchedCalls(index, index[key], f - 1)
    decreases f
  {
    if key in TouchedCalls(index, index[key], f - 1) {
      var g := ReachCalls(index, index[key], f - 1, key);
      MonoCalls(index, index[key], g - 1, f - 1);
      NoSelfReach(index, key, g);
    }
  }

  /** Where the unguarded recursion finishes without looking up a key of `visited`,
      the guarded one gives the same outcome. */
  lemma {:induction false} AgreesFrom(index: Index, key: string, f: nat, visited: set<string>)
    requires Unguarded(index, key, f).Some?
    requires visited !! Touched(index, key, f)
    ensures ResolveKey(index, key, visited) == Unguarded(index, key, f).value
    decreases f, 0, 0
  {
    if key in index {
      NoSelfReach(index, key, f);
      assert forall c :: c in index[key] ==> exists k :: k in index && c in index[k];
      AgreesFromCalls(index, index[key], f - 1, visited + {key});
    }
  }

  lemma {:induction false} AgreesFromCalls(index: Index, calls: seq<Call>, f: nat, visited: set<string>)
    requires InIndex(index, calls)
    requires UnguardedCalls(index, calls, f).Some?
    requires visited !! TouchedCalls(index, calls, f)
    ensures ResolveCalls(index, calls, visited) == UnguardedCalls(index, calls, f).value
    decreases f, 1, |calls|
  {
    if calls != [] {
      var n := |calls| - 1;
      var c := calls[n];
      assert forall d :: d in calls[..n] ==> d in calls;
      AgreesFromCalls(index, calls[..n], f, visited);
      if EntersLast(index, calls, f) {
        AgreesFrom(index, CalleeKey(c), f, visited);
      }
    }
  }

  /** Whenever the source recursion terminates, the guarded resolution gives exactly
      its outcome: the same events, or the same failure. */
  lemma UnguardedAgrees(index: Index, key: string, f: nat)
    requires Unguarded(index, key, f).Some?
    ensures ResolveKey(index, key, {}) == Unguarded(index, key, f).value
  {
    AgreesFrom(index, key, f, {});
  }

  /** An aggregate method `foo` that calls itself without recording. */
  function SelfCallIndex(): (index: Index)
    ensures Named(index)
  {
    map[MethodKey("Shop\\Domain\\Cart", "foo") := [Call("Shop\\Domain\\Cart", Some("foo"), None)]]
  }

  /** On that index the source recursion does not finish with any amount of fuel. */
  lemma {:induction false} SelfCallDiverges(f: nat)
    ensures Unguarded(SelfCallIndex(), MethodKey("Shop\\Domain\\Cart", "foo"), f).None?
  {
    var index, key := SelfCallIndex(), MethodKey("Shop\\Domain\\Cart", "foo");
    if f > 0 {
      SelfCallDiverges(f - 1);
      var calls := index[key];
      assert calls[..0] == [];
      assert UnguardedCalls(index, calls[..0], f - 1) == Some(Some([]));
      assert CalleeKey(calls[0]) == key;
    }
  }

  /** The guarded resolution returns no event for it. */
  lemma SelfCallResolves()
    ensures ResolveKey(SelfCallIndex(), MethodKey("Shop\\Domain\\Cart", "foo"), {}) == Some([])
  {
    var index, key := SelfCallIndex(), MethodKey("Shop\\Domain\\Cart", "foo");
    var calls := index[key];
    assert calls[..0] == [];
    assert calls[0] in index[key];
    assert ResolveCalls(index, calls[..0], {key}) == Some([]);
    assert CalleeKey(calls[0]) == key;
    assert ResolveKey(index, key, {key}) == Some([]);
    var none: seq<string> := [];
    assert ResolveCalls(index, calls, {key}) == Some(none + none);
    assert none + none == none;
    assert {} + {key} == {key};
  }
}
