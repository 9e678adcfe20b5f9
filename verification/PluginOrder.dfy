/** The order of registration, and which plugins are registered. */
module PluginOrder {
  import opened Options
  import opened PluginGraph
  import opened PluginWalk

  /** The targets of everything in the set are in the set, or cannot be required at all. */
  ghost predicate ClosedBut(mods: Modules, set_: set<string>) {
    forall a, b | a in set_ && Edge(mods, a, b) && b in mods :: b in set_
  }

  lemma {:induction false} ReachedFromClosed(mods: Modules, done: set<string>, a: string, b: string, n: nat)
    requires ClosedBut(mods, done) && a in done && b in mods && ReachesIn(mods, a, b, n)
    ensures b in done
    decreases n
  {
    if n > 0 {
      var c :| Edge(mods, a, c) && ReachesIn(mods, c, b, n - 1);
      assert c in mods by {
        if n > 1 {
          var d :| Edge(mods, c, d) && ReachesIn(mods, d, b, n - 2);
        }
      }
      ReachedFromClosed(mods, done, c, b, n - 1);
    }
  }

  // ----- The invariant of registration -----

  /** This path will not be registered any more. */
  predicate Settled(mods: Modules, keys: set<string>, path: string) {
    path in mods && mods[path].hooked && mods[path].succeeds ==> Taken(keys, mods[path])
  }

  ghost predicate NoRepeats(list: seq<string>) {
    forall i, j | 0 <= i < j < |list| :: list[i] != list[j]
  }

  /** Nothing in the list reaches a later element. */
  ghost predicate TargetsFirst(mods: Modules, list: seq<string>) {
    forall i, j | 0 <= i < j < |list| :: !Reaches(mods, list[i], list[j])
  }

  ghost predicate ListOk(mods: Modules, done: set<string>, list: seq<string>) {
    && (forall p | p in list :: p in done)
    && NoRepeats(list) && TargetsFirst(mods, list)
  }

  ghost predicate Inv(mods: Modules, s: State) {
    && ClosedBut(mods, s.finished)
    && (forall f | f in s.failed && f in mods :: f in s.finished)
    && (forall p | p in s.finished :: Settled(mods, s.keys, p))
    && ListOk(mods, s.finished, s.registered)
    && ListOk(mods, s.finished, s.deregister)
  }

  lemma Appended(mods: Modules, done: set<string>, list: seq<string>, path: string)
    requires ClosedBut(mods, done) && ListOk(mods, done, list) && path in mods && path !in done
    ensures ListOk(mods, done + {path}, list + [path])
  {
    forall i | 0 <= i < |list| ensures !Reaches(mods, list[i], path) {
      if Reaches(mods, list[i], path) {
        var n: nat :| ReachesIn(mods, list[i], path, n);
        ReachedFromClosed(mods, done, list[i], path, n);
      }
    }
  }

  lemma FinishKeepsClosed(mods: Modules, done: set<string>, path: string)
    requires ClosedBut(mods, done)
    requires forall b | Edge(mods, path, b) && b in mods :: b in done
    ensures ClosedBut(mods, done + {path})
  {
  }

  /** The targets of `path` have been dealt with. */
  ghost predicate TargetsDone(mods: Modules, s: State, path: string) {
    forall b | Edge(mods, path, b) && b in mods :: b in s.finished
  }

  lemma AttemptKeepsInv(mods: Modules, s: State, path: string)
    requires Inv(mods, s) && FailuresWellNamed(mods)
    requires path in mods && mods[path].hooked && TargetsDone(mods, s, path)
    ensures var o := Attempt(s, path, mods[path]);
      && !o.OutOfFuel? && Inv(mods, o.state) && s.finished <= o.state.finished
      && (o.Done? ==> path in o.state.finished)
  {
    var p := mods[path];
    var o := Attempt(s, path, p);
    FinishKeepsClosed(mods, s.finished, path);
    if !Taken(s.keys, p) && p.validVersion && p.succeeds {
      assert path !in s.finished;
      Appended(mods, s.finished, s.registered, path);
      Appended(mods, s.finished, s.deregister, path);
      assert Taken(o.state.keys, p) by {
        assert Key(p) in o.state.keys;
      }
    }
  }

  lemma {:induction false} WalkKeepsInv(mods: Modules, fuel: nat, s: State, path: string)
    requires Inv(mods, s) && FailuresWellNamed(mods)
    ensures var o := Walk(mods, fuel, s, path);
      !o.OutOfFuel? ==>
        && Inv(mods, o.state) && s.finished <= o.state.finished
        && (o.Done? ==> path in o.state.finished)
    decreases fuel
  {
    if fuel > 0 && path in mods && mods[path].hooked {
      var p := mods[path];
      var o := if p.ext.Some? then Walk(mods, fuel - 1, s, p.ext.value) else Done(s);
      if p.ext.Some? { WalkKeepsInv(mods, fuel - 1, s, p.ext.value); }
      if o.Done? {
        var q := if p.dep.Some? && p.dep.value !in o.state.failed
                 then Walk(mods, fuel - 1, o.state, p.dep.value) else o;
        if p.dep.Some? { WalkKeepsInv(mods, fuel - 1, o.state, p.dep.value); }
        if q.Done? {
          assert TargetsDone(mods, q.state, path);
          AttemptKeepsInv(mods, q.state, path);
        }
      }
    } else if fuel > 0 {
      FinishKeepsClosed(mods, s.finished, path);
    }
  }

  lemma {:induction false} SetUpKeepsInv(mods: Modules, fuel: nat, s: State, opts: SetUpOptions, names: seq<string>)
    requires Inv(mods, s) && FailuresWellNamed(mods)
    ensures var o := SetUp(mods, fuel, s, opts, names); !o.OutOfFuel? ==> Inv(mods, o.state)
    decreases names
  {
    if names != [] {
      var o := Register(mods, fuel, s, opts, names[0]);
      WalkKeepsInv(mods, fuel, s, names[0]);
      if o.Done? { SetUpKeepsInv(mods, fuel, o.state, opts, names[1..]); }
    }
  }

  // ----- Order -----

  /** No plugin is recorded twice, and each comes after all its transitive targets in the list. */
  ghost predicate TargetsRecordedFirst(
      mods: Modules, fuel: nat, keys: set<string>, opts: SetUpOptions, names: seq<string>) {
    var o := SetUp(mods, fuel, Start(keys), opts, names);
    !o.OutOfFuel? ==> NoRepeats(o.state.deregister) && TargetsFirst(mods, o.state.deregister)
  }

  /** Every plugin in the teardown list comes after all its transitive targets that are in the
      list, however the set-up ended, and no plugin is recorded twice. */
  lemma TargetsAreRecordedFirst(
      mods: Modules, fuel: nat, keys: set<string>, opts: SetUpOptions, names: seq<string>)
    requires FailuresWellNamed(mods)
    ensures TargetsRecordedFirst(mods, fuel, keys, opts, names)
  {
    SetUpKeepsInv(mods, fuel, Start(keys), opts, names);
  }

  function Reverse(list: seq<string>): (r: seq<string>)
    ensures |r| == |list|
  {
    if list == [] then [] else Reverse(list[1..]) + [list[0]]
  }

  lemma {:induction false} ReverseAt(list: seq<string>, k: nat)
    requires k < |list|
    ensures Reverse(list)[k] == list[|list| - 1 - k]
  {
    if k < |list| - 1 { ReverseAt(list[1..], k); }
  }

  lemma {:induction false} ReverseTwice(list: seq<string>)
    ensures Reverse(Reverse(list)) == list
  {
    forall k | 0 <= k < |list| ensures Reverse(Reverse(list))[k] == list[k] {
      ReverseAt(Reverse(list), k);
      ReverseAt(list, |list| - 1 - k);
    }
  }

  /** Nothing in the list is reached by a later element. */
  ghost predicate DependentsFirst(mods: Modules, list: seq<string>) {
    forall i, j | 0 <= i < j < |list| :: !Reaches(mods, list[j], list[i])
  }

  /** The first teardown runs the hook of every dependent before the hooks of its targets, each
      hook once. It leaves the list reversed, so a second one runs the targets first. */
  lemma DependentsAreTornDownFirst(
      mods: Modules, fuel: nat, keys: set<string>, opts: SetUpOptions, names: seq<string>)
    requires FailuresWellNamed(mods) && !SetUp(mods, fuel, Start(keys), opts, names).OutOfFuel?
    ensures
      var list := SetUp(mods, fuel, Start(keys), opts, names).state.deregister;
      var first, second := Reverse(list), Reverse(Reverse(list));
      && (forall p :: p in first <==> p in list)
      && NoRepeats(first) && DependentsFirst(mods, first)
      && NoRepeats(second) && TargetsFirst(mods, second)
  {
    var list := SetUp(mods, fuel, Start(keys), opts, names).state.deregister;
    var first := Reverse(list);
    TargetsAreRecordedFirst(mods, fuel, keys, opts, names);
    ReverseTwice(list);
    forall i, j | 0 <= i < j < |first| ensures first[i] != first[j] && !Reaches(mods, first[j], first[i]) {
      ReverseAt(list, i);
      ReverseAt(list, j);
    }
    forall p ensures p in first <==> p in list {
      if p in first {
        var k :| 0 <= k < |first| && first[k] == p;
        ReverseAt(list, k);
      }
      if p in list {
        var k :| 0 <= k < |list| && list[k] == p;
        ReverseAt(list, |list| - 1 - k);
      }
    }
  }

  // ----- What a registered plugin is -----

  /** Those of the list that have a deregister hook, in the same order. */
  function WithHook(mods: Modules, list: seq<string>): seq<string> {
    if list == [] then []
    else
      var last := list[|list| - 1];
      WithHook(mods, list[..|list| - 1]) + if last in mods && mods[last].hasDeregister then [last] else []
  }

  lemma {:induction false} WithHookMembers(mods: Modules, list: seq<string>, p: string)
    ensures p in WithHook(mods, list) <==> p in list && p in mods && mods[p].hasDeregister
  {
    if list != [] {
      assert list == list[..|list| - 1] + [list[|list| - 1]];
      WithHookMembers(mods, list[..|list| - 1], p);
    }
  }

  /** A plugin with a valid version whose hook succeeds, stored with its options. */
  ghost predicate IsStored(mods: Modules, keys: set<string>, p: string) {
    && p in mods && mods[p].hooked && mods[p].validVersion && mods[p].succeeds
    && NameKey(mods[p]) in keys && "pkg." + NameKey(mods[p]) + ".opts" in keys
  }

  ghost predicate Proper(mods: Modules, s: State) {
    && (forall p | p in s.registered :: IsStored(mods, s.keys, p))
    && s.deregister == WithHook(mods, s.registered)
  }

  lemma AttemptIsProper(mods: Modules, s: State, path: string)
    requires Proper(mods, s) && path in mods && mods[path].hooked
    ensures Proper(mods, Attempt(s, path, mods[path]).state)
  {
    var t := Attempt(s, path, mods[path]).state;
    if t.registered != s.registered {
      assert t.registered[..|s.registered|] == s.registered;
      assert IsStored(mods, t.keys, path);
    }
  }

  lemma {:induction false} WalkIsProper(mods: Modules, fuel: nat, s: State, path: string)
    requires Proper(mods, s) && !Walk(mods, fuel, s, path).OutOfFuel?
    ensures Proper(mods, Walk(mods, fuel, s, path).state)
    decreases fuel
  {
    if path in mods && mods[path].hooked {
      var p := mods[path];
      var o := if p.ext.Some? then Walk(mods, fuel - 1, s, p.ext.value) else Done(s);
      if p.ext.Some? { WalkIsProper(mods, fuel - 1, s, p.ext.value); }
      if o.Done? {
        var q := if p.dep.Some? && p.dep.value !in o.state.failed
                 then Walk(mods, fuel - 1, o.state, p.dep.value) else o;
        if p.dep.Some? && p.dep.value !in o.state.failed { WalkIsProper(mods, fuel - 1, o.state, p.dep.value); }
        if q.Done? { AttemptIsProper(mods, q.state, path); }
      }
    }
  }

  lemma {:induction false} SetUpIsProper(mods: Modules, fuel: nat, s: State, opts: SetUpOptions, names: seq<string>)
    requires Proper(mods, s) && !SetUp(mods, fuel, s, opts, names).OutOfFuel?
    ensures Proper(mods, SetUp(mods, fuel, s, opts, names).state)
    decreases names
  {
    if names != [] {
      var o := Register(mods, fuel, s, opts, names[0]);
      if ShouldBeRegistered(opts, names[0]) { WalkIsProper(mods, fuel, s, names[0]); }
      if o.Done? && opts.exit != Some(names[0]) { SetUpIsProper(mods, fuel, o.state, opts, names[1..]); }
    }
  }

  /** However the set-up ended, only plugins are registered that have a register hook which succeeds
      and a valid version, the container holds each under its alias, or else its name, and holds
      its options, and recorded for teardown are, in the order of registration, exactly those with
      a deregister hook. */
  lemma RegisteredPluginsAreProper(
      mods: Modules, fuel: nat, keys: set<string>, opts: SetUpOptions, names: seq<string>)
    requires !SetUp(mods, fuel, Start(keys), opts, names).OutOfFuel?
    ensures var s := SetUp(mods, fuel, Start(keys), opts, names).state;
      && (forall p | p in s.registered :: IsStored(mods, s.keys, p))
      && s.deregister == WithHook(mods, s.registered)
      && (forall p :: p in s.deregister <==> p in s.registered && p in mods && mods[p].hasDeregister)
  {
    SetUpIsProper(mods, fuel, Start(keys), opts, names);
    var s := SetUp(mods, fuel, Start(keys), opts, names).state;
    forall p ensures p in s.deregister <==> p in s.registered && p in mods && mods[p].hasDeregister {
      WithHookMembers(mods, s.registered, p);
    }
  }

  // ----- Misnamed failures -----

  function Failing(name: string): Plugin {
    Plugin(name, None, None, None, true, true, false, false, false)
  }

  function Succeeding(name: string, dep: Option<string>): Plugin {
    Plugin(name, None, None, dep, true, true, false, true, true)
  }

  /** A failing plugin at `m`, named `r`, a plugin at `r`, and one at `p` that depends on it. */
  function MisnamedGraph(m: string, r: string, p: string): Modules {
    map[m := Failing(r), r := Succeeding(r, None), p := Succeeding(p, Some(r))]
  }

  /** The failure of `m` keeps `p` from walking its dependency, so `p` is recorded before it. */
  lemma MisnamedWalks(m: string, r: string, p: string)
    requires m != r && |p| > |m| + |r| + 9
    ensures
      var o := SetUp(MisnamedGraph(m, r, p), 1, Start({}), SetUpOptions(None, None, None), [m, p, r]);
      o.Done? && o.state.deregister == [p, r]
  {
    var mods := MisnamedGraph(m, r, p);
    var opts := SetUpOptions(None, None, None);
    var failing := State({OptsKey(Failing(r))}, {r}, [], [], {m});
    assert Walk(mods, 1, Start({}), m) == Done(failing);
    var keys := {OptsKey(Failing(r)), OptsKey(Succeeding(p, Some(r))), p};
    var alone := State(keys, {r}, [p], [p], {m, p});
    assert |OptsKey(Failing(r))| == |r| + 9;
    assert Walk(mods, 1, failing, p) == Done(alone);
    assert Walk(mods, 1, alone, r).Done? && Walk(mods, 1, alone, r).state.deregister == [p, r];
    assert [m, p, r][1..] == [p, r] && [p, r][1..] == [r];
    assert SetUp(mods, 1, failing, opts, [p, r]) == SetUp(mods, 1, alone, opts, [r]);
    SetUpOfOne(mods, 1, alone, r);
  }

  /** Without the proviso on names the order can break. Exactly: if the only recorded failure is
      that of the plugin at `m` under the name `r`, every set-up of every such graph records
      targets first if and only if the plugin is named like its own path. */
  lemma OrderHoldsExactlyWhenWellNamed(m: string, r: string)
    ensures (forall mods, fuel: nat, keys, opts, names | OnlyFailure(mods, m, r) ::
              TargetsRecordedFirst(mods, fuel, keys, opts, names)) <==> m == r
  {
    if m == r {
      forall mods, fuel: nat, keys, opts, names | OnlyFailure(mods, m, r)
        ensures TargetsRecordedFirst(mods, fuel, keys, opts, names)
      {
        TargetsAreRecordedFirst(mods, fuel, keys, opts, names);
      }
    } else {
      var p := m + r + "-dependent";
      var mods := MisnamedGraph(m, r, p);
      var opts := SetUpOptions(None, None, None);
      MisnamedWalks(m, r, p);
      assert Edge(mods, p, r) && ReachesIn(mods, r, r, 0);
      assert ReachesIn(mods, p, r, 1);
      assert Reaches(mods, p, r);
      var list := SetUp(mods, 1, Start({}), opts, [m, p, r]).state.deregister;
      assert list[0] == p && list[1] == r && !TargetsFirst(mods, list);
      assert !TargetsRecordedFirst(mods, 1, {}, opts, [m, p, r]);
      assert OnlyFailure(mods, m, r);
    }
  }

  // ----- Targets behind plugins without a register hook -----

  /** No plugin is recorded before one of its transitive targets as declared. */
  ghost predicate DeclaredTargetsFirst(
      mods: Modules, fuel: nat, keys: set<string>, opts: SetUpOptions, names: seq<string>) {
    var o := SetUp(mods, fuel, Start(keys), opts, names);
    !o.OutOfFuel? ==>
      var list := o.state.deregister;
      forall i, j | 0 <= i < j < |list| :: !Declared(mods, list[i], list[j])
  }

  /** All plugins but the one at `path` have a register hook. */
  ghost predicate HookedBut(mods: Modules, path: string, p: Plugin) {
    path in mods && mods[path] == p && forall m | m in mods && m != path :: mods[m].hooked
  }

  lemma DeclaredTargetsAreRecordedFirst(
      mods: Modules, fuel: nat, keys: set<string>, opts: SetUpOptions, names: seq<string>)
    requires FailuresWellNamed(mods) && forall m | m in mods :: NothingBehind(m, mods[m])
    ensures DeclaredTargetsFirst(mods, fuel, keys, opts, names)
  {
    var o := SetUp(mods, fuel, Start(keys), opts, names);
    TargetsAreRecordedFirst(mods, fuel, keys, opts, names);
    if !o.OutOfFuel? {
      var list := o.state.deregister;
      forall i, j | 0 <= i < j < |list| ensures !Declared(mods, list[i], list[j]) {
        if Declared(mods, list[i], list[j]) {
          var n: nat :| DeclaredIn(mods, list[i], list[j], n);
          DeclaredIsReached(mods, list[i], list[j], n);
        }
      }
    }
  }

  /** The plugin at `a` depends on the one at `path`, which may declare the target `b`. */
  function HiddenGraph(path: string, p: Plugin, a: string, b: string): Modules {
    map[path := p, a := Succeeding(a, Some(path)), b := Succeeding(b, None)]
  }

  lemma HiddenWalks(path: string, p: Plugin, a: string, b: string)
    requires !p.hooked && b != path && |a| > |path| + |b|
    ensures
      var o := SetUp(HiddenGraph(path, p, a, b), 2, Start({}), SetUpOptions(None, None, None), [a, b]);
      o.Done? && o.state.deregister == [a, b]
  {
    var mods := HiddenGraph(path, p, a, b);
    assert a != path && a != b && mods[path] == p;
    assert Walk(mods, 1, Start({}), path) == Done(State({}, {}, [], [], {path}));
    var keys := {OptsKey(Succeeding(a, Some(path))), a};
    var alone := State(keys, {}, [a], [a], {path, a});
    assert Walk(mods, 2, Start({}), a) == Done(alone);
    assert |OptsKey(Succeeding(a, Some(path)))| == |a| + 9;
    assert Walk(mods, 2, alone, b).Done? && Walk(mods, 2, alone, b).state.deregister == [a, b];
    assert [a, b][1..] == [b];
    SetUpOfOne(mods, 2, alone, b);
  }

  /** The target `b` behind the plugin at `path` is not seen. */
  lemma HiddenTarget(path: string, p: Plugin, a: string, b: string)
    requires !p.hooked && (p.ext == Some(b) || p.dep == Some(b)) && b != path && |a| > |path| + |b|
    ensures
      var mods := HiddenGraph(path, p, a, b);
      HookedBut(mods, path, p) && FailuresWellNamed(mods)
      && !DeclaredTargetsFirst(mods, 2, {}, SetUpOptions(None, None, None), [a, b])
  {
    var mods := HiddenGraph(path, p, a, b);
    assert a != path && a != b && mods[path] == p;
    HiddenWalks(path, p, a, b);
    var list := SetUp(mods, 2, Start({}), SetUpOptions(None, None, None), [a, b]).state.deregister;
    assert list[0] == a && list[1] == b;
    assert Declares(mods, a, path) && Declares(mods, path, b) && DeclaredIn(mods, b, b, 0);
    assert DeclaredIn(mods, path, b, 1);
    assert DeclaredIn(mods, a, b, 2);
    assert Declared(mods, list[0], list[1]);
  }

  /** A plugin without a register hook is passed over together with its targets. Exactly: if all
      other plugins are hooked and no failure is recorded under another module's path, every
      set-up of every such graph records declared targets first if and only if this one is hooked,
      too, or declares no target but itself. */
  lemma DeclaredOrderHoldsExactlyWithNothingBehind(path: string, p: Plugin)
    ensures (forall mods, fuel: nat, keys, opts, names | HookedBut(mods, path, p) && FailuresWellNamed(mods) ::
              DeclaredTargetsFirst(mods, fuel, keys, opts, names)) <==> NothingBehind(path, p)
  {
    if NothingBehind(path, p) {
      forall mods, fuel: nat, keys, opts, names | HookedBut(mods, path, p) && FailuresWellNamed(mods)
        ensures DeclaredTargetsFirst(mods, fuel, keys, opts, names)
      {
        DeclaredTargetsAreRecordedFirst(mods, fuel, keys, opts, names);
      }
    } else {
      var b := if p.ext.Some? && p.ext.value != path then p.ext.value else p.dep.value;
      HiddenTarget(path, p, path + b + "-dependent", b);
    }
  }

  // ----- Which plugins are registered -----

  /** Reached from a configured name that is to be registered. */
  ghost predicate Reachable(mods: Modules, opts: SetUpOptions, names: seq<string>, p: string) {
    exists name :: name in Wanted(opts, names) && Reaches(mods, name, p)
  }

  ghost predicate Hooked(mods: Modules, paths: iset<string>, p: string) {
    p in paths && p in mods && mods[p].hooked
  }

  ghost predicate Within(mods: Modules, list: seq<string>, paths: iset<string>) {
    forall p | p in list :: Hooked(mods, paths, p)
  }

  ghost predicate Closed(mods: Modules, paths: iset<string>) {
    forall a, b | a in paths && Edge(mods, a, b) :: b in paths
  }

  lemma AttemptStaysWithin(mods: Modules, s: State, path: string, paths: iset<string>)
    requires Hooked(mods, paths, path) && Within(mods, s.registered, paths)
    ensures var o := Attempt(s, path, mods[path]); !o.OutOfFuel? && Within(mods, o.state.registered, paths)
  {
  }

  lemma {:induction false} WalkStaysWithin(mods: Modules, fuel: nat, s: State, path: string, paths: iset<string>)
    requires Closed(mods, paths) && path in paths && Within(mods, s.registered, paths)
    ensures var o := Walk(mods, fuel, s, path); !o.OutOfFuel? ==> Within(mods, o.state.registered, paths)
    decreases fuel
  {
    if fuel > 0 && path in mods && mods[path].hooked {
      var p := mods[path];
      var o := if p.ext.Some? then Walk(mods, fuel - 1, s, p.ext.value) else Done(s);
      if p.ext.Some? {
        assert Edge(mods, path, p.ext.value);
        WalkStaysWithin(mods, fuel - 1, s, p.ext.value, paths);
      }
      if o.Done? && p.dep.Some? {
        assert Edge(mods, path, p.dep.value);
        WalkStaysWithin(mods, fuel - 1, o.state, p.dep.value, paths);
      }
      if o.Done? {
        var q := if p.dep.Some? && p.dep.value !in o.state.failed
                 then Walk(mods, fuel - 1, o.state, p.dep.value) else o;
        if q.Done? { AttemptStaysWithin(mods, q.state, path, paths); }
      }
    }
  }

  lemma {:induction false} SetUpStaysWithin(
      mods: Modules, fuel: nat, s: State, opts: SetUpOptions, names: seq<string>, paths: iset<string>)
    requires Closed(mods, paths) && Within(mods, s.registered, paths)
    requires forall name | name in Wanted(opts, names) :: name in paths
    ensures var o := SetUp(mods, fuel, s, opts, names); !o.OutOfFuel? ==> Within(mods, o.state.registered, paths)
    decreases names
  {
    if names != [] {
      var o := Register(mods, fuel, s, opts, names[0]);
      if ShouldBeRegistered(opts, names[0]) { WalkStaysWithin(mods, fuel, s, names[0], paths); }
      if o.Done? && opts.exit != Some(names[0]) {
        SetUpStaysWithin(mods, fuel, o.state, opts, names[1..], paths);
      }
    }
  }

  lemma ReachableIsClosed(mods: Modules, opts: SetUpOptions, names: seq<string>)
    ensures Closed(mods, iset p | Reachable(mods, opts, names, p))
    ensures forall name | name in Wanted(opts, names) :: Reachable(mods, opts, names, name)
  {
    forall a, b | Reachable(mods, opts, names, a) && Edge(mods, a, b) ensures Reachable(mods, opts, names, b) {
      var name :| name in Wanted(opts, names) && Reaches(mods, name, a);
      ReachesEdge(mods, name, a, b);
    }
    forall name | name in Wanted(opts, names) ensures Reachable(mods, opts, names, name) {
      assert ReachesIn(mods, name, name, 0);
      assert Reaches(mods, name, name);
    }
  }

  /** Whatever happens, only hooked plugins are registered that are reached from a configured name
      which passes the filter and stands before the early exit. */
  lemma OnlyReachableRegister(
      mods: Modules, fuel: nat, keys: set<string>, opts: SetUpOptions, names: seq<string>)
    ensures var o := SetUp(mods, fuel, Start(keys), opts, names);
      !o.OutOfFuel? ==>
        forall p | p in o.state.registered :: p in mods && mods[p].hooked && Reachable(mods, opts, names, p)
  {
    ReachableIsClosed(mods, opts, names);
    SetUpStaysWithin(mods, fuel, Start(keys), opts, names, iset p | Reachable(mods, opts, names, p));
  }

  /** Every one of these paths can be required, and if it is hooked, it has a valid version and
      its hook succeeds. */
  ghost predicate AllGood(mods: Modules, paths: iset<string>) {
    forall p | p in paths :: p in mods && (mods[p].hooked ==> mods[p].validVersion && mods[p].succeeds)
  }

  /** The container keys under which `a` is looked up. */
  function LookupKeys(a: Plugin): set<string> {
    {a.name} + if a.alias.Some? then {a.alias.value} else {}
  }

  /** None of these plugins is hidden by the keys of another, of its own options or of the container. */
  ghost predicate NoClashes(mods: Modules, paths: iset<string>, keys: set<string>) {
    forall a | Hooked(mods, paths, a) ::
      && LookupKeys(mods[a]) !! keys
      && forall b | Hooked(mods, paths, b) ::
           && OptsKey(mods[b]) !in LookupKeys(mods[a])
           && (a != b ==> Key(mods[b]) !in LookupKeys(mods[a]))
  }

  ghost predicate KeyOfRegistered(mods: Modules, registered: seq<string>, k: string) {
    exists b :: b in registered && b in mods && mods[b].hooked && (k == Key(mods[b]) || k == OptsKey(mods[b]))
  }

  /** The keys of the container come from registered plugins, each of which is registered once and
      has its key, and every finished plugin with a hook is registered. */
  ghost predicate Complete(mods: Modules, paths: iset<string>, start: set<string>, s: State) {
    && s.failed == {} && Within(mods, s.registered, paths) && NoRepeats(s.registered)
    && (forall p | p in s.registered && p in mods :: Key(mods[p]) in s.keys)
    && (forall k | k in s.keys && k !in start :: KeyOfRegistered(mods, s.registered, k))
    && (forall p | p in s.finished && p in mods && mods[p].hooked :: p in s.registered)
    && ClosedBut(mods, s.finished)
  }

  /** The outcome of a walk that leaves the state complete and everything in `done` finished. */
  ghost predicate Completes(
      mods: Modules, paths: iset<string>, start: set<string>, s: State, o: Outcome, done: set<string>) {
    o.Done? && Complete(mods, paths, start, o.state) && s.finished + done <= o.state.finished
  }

  function TargetOf(target: Option<string>): set<string> {
    if target.Some? then {target.value} else {}
  }

  lemma AttemptCompletes(mods: Modules, paths: iset<string>, start: set<string>, s: State, path: string)
    requires AllGood(mods, paths) && NoClashes(mods, paths, start) && Complete(mods, paths, start, s)
    requires Hooked(mods, paths, path) && TargetsDone(mods, s, path)
    ensures Completes(mods, paths, start, s, Attempt(s, path, mods[path]), {path})
  {
    var p := mods[path];
    var o := Attempt(s, path, p);
    if Taken(s.keys, p) {
      var k :| k in LookupKeys(p) && k in s.keys;
      assert KeyOfRegistered(mods, s.registered, k);
      var b :| b in s.registered && b in mods && mods[b].hooked && (k == Key(mods[b]) || k == OptsKey(mods[b]));
      assert Hooked(mods, paths, b);
      assert b == path;
    } else {
      assert path in o.state.registered;
      forall k | k in o.state.keys && k !in start
        ensures KeyOfRegistered(mods, o.state.registered, k)
      {
        if k in s.keys {
          assert KeyOfRegistered(mods, s.registered, k);
          var b :| b in s.registered && b in mods && mods[b].hooked && (k == Key(mods[b]) || k == OptsKey(mods[b]));
          assert b in o.state.registered;
        }
      }
    }
  }

  lemma {:induction false} TargetCompletes(
      mods: Modules, paths: iset<string>, fuel: nat, start: set<string>, s: State, target: Option<string>)
    requires AllGood(mods, paths) && NoClashes(mods, paths, start) && Complete(mods, paths, start, s)
    requires Closed(mods, paths) && (target.Some? ==> target.value in paths)
    requires target.Some? ==> !Walk(mods, fuel, s, target.value).OutOfFuel?
    ensures var o := if target.Some? then Walk(mods, fuel, s, target.value) else Done(s);
      Completes(mods, paths, start, s, o, TargetOf(target))
    decreases fuel, 1
  {
    if target.Some? { WalkCompletes(mods, paths, fuel, start, s, target.value); }
  }

  lemma {:induction false} TargetsComplete(
      mods: Modules, paths: iset<string>, fuel: nat, start: set<string>, s: State, path: string)
    requires AllGood(mods, paths) && NoClashes(mods, paths, start) && Complete(mods, paths, start, s)
    requires Closed(mods, paths) && Hooked(mods, paths, path) && !Walk(mods, fuel + 1, s, path).OutOfFuel?
    ensures
      var p := mods[path];
      var o := if p.ext.Some? then Walk(mods, fuel, s, p.ext.value) else Done(s);
      && o.Done? && o.state.failed == {}
      && var q := if p.dep.Some? then Walk(mods, fuel, o.state, p.dep.value) else o;
         Completes(mods, paths, start, s, q, {}) && TargetsDone(mods, q.state, path)
    decreases fuel, 2
  {
    var p := mods[path];
    assert p.ext.Some? ==> Edge(mods, path, p.ext.value);
    assert p.dep.Some? ==> Edge(mods, path, p.dep.value);
    TargetCompletes(mods, paths, fuel, start, s, p.ext);
    var o := if p.ext.Some? then Walk(mods, fuel, s, p.ext.value) else Done(s);
    TargetCompletes(mods, paths, fuel, start, o.state, p.dep);
  }

  lemma {:induction false} WalkCompletes(
      mods: Modules, paths: iset<string>, fuel: nat, start: set<string>, s: State, path: string)
    requires AllGood(mods, paths) && NoClashes(mods, paths, start) && Complete(mods, paths, start, s)
    requires Closed(mods, paths) && path in paths && !Walk(mods, fuel, s, path).OutOfFuel?
    ensures Completes(mods, paths, start, s, Walk(mods, fuel, s, path), {path})
    decreases fuel, 0
  {
    var p := mods[path];
    if p.hooked {
      TargetsComplete(mods, paths, fuel - 1, start, s, path);
      var o := if p.ext.Some? then Walk(mods, fuel - 1, s, p.ext.value) else Done(s);
      var q := if p.dep.Some? then Walk(mods, fuel - 1, o.state, p.dep.value) else o;
      AttemptCompletes(mods, paths, start, q.state, path);
    }
  }

  lemma {:induction false} SetUpCompletes(
      mods: Modules, paths: iset<string>, fuel: nat, start: set<string>, s: State,
      opts: SetUpOptions, names: seq<string>)
    requires AllGood(mods, paths) && NoClashes(mods, paths, start) && Complete(mods, paths, start, s)
    requires Closed(mods, paths) && forall name | name in Wanted(opts, names) :: name in paths
    requires !SetUp(mods, fuel, s, opts, names).OutOfFuel?
    ensures Completes(mods, paths, start, s, SetUp(mods, fuel, s, opts, names), Wanted(opts, names))
    decreases names
  {
    if names != [] {
      if ShouldBeRegistered(opts, names[0]) { WalkCompletes(mods, paths, fuel, start, s, names[0]); }
      var o := Register(mods, fuel, s, opts, names[0]);
      if opts.exit != Some(names[0]) { SetUpCompletes(mods, paths, fuel, start, o.state, opts, names[1..]); }
    }
  }

  lemma ReachableIsFinished(mods: Modules, done: set<string>, opts: SetUpOptions, names: seq<string>, p: string)
    requires ClosedBut(mods, done) && Wanted(opts, names) <= done
    requires p in mods && Reachable(mods, opts, names, p)
    ensures p in done
  {
    var name :| name in Wanted(opts, names) && Reaches(mods, name, p);
    var n: nat :| ReachesIn(mods, name, p, n);
    ReachedFromClosed(mods, done, name, p, n);
  }

  /** If nothing that can be reached from the configured names is missing, invalid, failing or
      hidden, the set-up registers exactly the hooked plugins that can be reached, each of them
      once. */
  lemma RegisteredAreTheClosure(
      mods: Modules, fuel: nat, keys: set<string>, opts: SetUpOptions, names: seq<string>, paths: iset<string>)
    requires forall p :: p in paths <==> Reachable(mods, opts, names, p)
    requires AllGood(mods, paths) && NoClashes(mods, paths, keys)
    requires !SetUp(mods, fuel, Start(keys), opts, names).OutOfFuel?
    ensures var o := SetUp(mods, fuel, Start(keys), opts, names);
      && o.Done? && NoRepeats(o.state.registered)
      && forall p :: p in o.state.registered <==> p in paths && mods[p].hooked
  {
    ReachableIsClosed(mods, opts, names);
    assert paths == iset p | Reachable(mods, opts, names, p);
    SetUpCompletes(mods, paths, fuel, keys, Start(keys), opts, names);
    var o := SetUp(mods, fuel, Start(keys), opts, names);
    forall p | p in paths && mods[p].hooked ensures p in o.state.registered {
      ReachableIsFinished(mods, o.state.finished, opts, names, p);
    }
  }
}
