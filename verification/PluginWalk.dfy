/** What plugin registration does: the depth-first walk along `extends` and `depends`. */
module PluginWalk {
  import opened Options
  import opened PluginGraph

  /** `keys` are the keys of the container, `failed` those of the failure records, and `registered`
      and `deregister` the paths of the registered plugins and of those with a recorded hook, in
      order. `finished` collects the paths whose walk has come to its end. */
  datatype State = State(
    keys: set<string>,
    failed: set<string>,
    registered: seq<string>,
    deregister: seq<string>,
    finished: set<string>)

  /** Both end the whole set-up: an invalid version is thrown past every caller, and a required
      plugin that fails exits the process. */
  datatype Halt = InvalidVersion(name: string) | ForcedExit(name: string)

  datatype Outcome = Done(state: State) | Aborted(state: State, halt: Halt) | OutOfFuel

  function Start(keys: set<string>): State {
    State(keys, {}, [], [], {})
  }

  function Key(p: Plugin): string {
    if p.alias.Some? then p.alias.value else p.name
  }

  function OptsKey(p: Plugin): string {
    "pkg." + Key(p) + ".opts"
  }

  predicate Taken(keys: set<string>, p: Plugin) {
    (p.alias.Some? && p.alias.value in keys) || p.name in keys
  }

  function Finish(s: State, path: string): State {
    s.(finished := s.finished + {path})
  }

  /** The part of `registerWithContainer` after the recursive calls. */
  function Attempt(s: State, path: string, p: Plugin): Outcome {
    if Taken(s.keys, p) then Done(Finish(s, path))
    else if !p.validVersion then Aborted(s, InvalidVersion(p.name))
    else
      var t := s.(keys := s.keys + {OptsKey(p)});
      if p.succeeds then
        Done(Finish(t.(
          keys := t.keys + {Key(p)},
          registered := t.registered + [path],
          deregister := if p.hasDeregister then t.deregister + [path] else t.deregister), path))
      else if p.required then Aborted(t, ForcedExit(p.name))
      else Done(Finish(t.(failed := t.failed + {p.name}), path))
  }

  /** `registerWithContainer`, cut off when the recursion gets `fuel` deep. */
  function Walk(mods: Modules, fuel: nat, s: State, path: string): Outcome
    decreases fuel
  {
    if fuel == 0 then OutOfFuel
    else if path !in mods then Done(Finish(s.(failed := s.failed + {path}), path))
    else if !mods[path].hooked then Done(Finish(s, path))
    else
      var p := mods[path];
      var o := if p.ext.Some? then Walk(mods, fuel - 1, s, p.ext.value) else Done(s);
      if !o.Done? then o
      else
        var q := if p.dep.Some? && p.dep.value !in o.state.failed
                 then Walk(mods, fuel - 1, o.state, p.dep.value) else o;
        if !q.Done? then q else Attempt(q.state, path, p)
  }

  /** The `include` and `exclude` lists filter the configured names, and `exit` names the last one. */
  datatype SetUpOptions = SetUpOptions(
    included: Option<set<string>>, excluded: Option<set<string>>, exit: Option<string>)

  predicate ShouldBeRegistered(opts: SetUpOptions, name: string) {
    if opts.excluded.Some? then name !in opts.excluded.value
    else if opts.included.Some? then name in opts.included.value
    else true
  }

  function Register(mods: Modules, fuel: nat, s: State, opts: SetUpOptions, name: string): Outcome {
    if ShouldBeRegistered(opts, name) then Walk(mods, fuel, s, name) else Done(s)
  }

  function SetUp(mods: Modules, fuel: nat, s: State, opts: SetUpOptions, names: seq<string>): Outcome
    decreases names
  {
    if names == [] then Done(s)
    else
      var o := Register(mods, fuel, s, opts, names[0]);
      if !o.Done? || opts.exit == Some(names[0]) then o
      else SetUp(mods, fuel, o.state, opts, names[1..])
  }

  /** The configured names that pass the filter, up to the early exit. */
  function Wanted(opts: SetUpOptions, names: seq<string>): set<string> {
    if names == [] then {}
    else (if ShouldBeRegistered(opts, names[0]) then {names[0]} else {})
         + if opts.exit == Some(names[0]) then {} else Wanted(opts, names[1..])
  }

  /** Which names are wanted, in terms of the options: those before or at the early exit that are not
      excluded, or, if there is no exclude list, are included if there is an include list. */
  lemma {:induction false} WantedMeans(opts: SetUpOptions, names: seq<string>, name: string)
    ensures name in Wanted(opts, names) <==>
      && (exists i :: 0 <= i < |names| && names[i] == name && forall j | 0 <= j < i :: opts.exit != Some(names[j]))
      && (match opts.excluded
          case Some(excluded) => name !in excluded
          case None => opts.included.Some? ==> name in opts.included.value)
  {
    if names != [] {
      var rest := names[1..];
      WantedMeans(opts, rest, name);
      if opts.exit != Some(names[0]) {
        if i :| 0 <= i < |rest| && rest[i] == name && forall j | 0 <= j < i :: opts.exit != Some(rest[j]) {
          assert names[i + 1] == name;
          assert forall j | 0 < j < i + 1 :: names[j] == rest[j - 1];
        }
        if i :| 0 < i < |names| && names[i] == name && forall j | 0 <= j < i :: opts.exit != Some(names[j]) {
          assert rest[i - 1] == name;
          assert forall j | 0 <= j < i - 1 :: rest[j] == names[j + 1];
        }
      }
    }
  }

  // ----- What a walk comes to -----

  /** The keys under which the plugin stands in the container once it is registered. */
  function NameKey(p: Plugin): string {
    match p.alias case Some(alias) => alias case None => p.name
  }

  /** The outcome of the walks of the targets: first `extends`, then, unless its failure has been
      recorded by then, `depends`. */
  function TargetsWalked(mods: Modules, fuel: nat, s: State, p: Plugin): Outcome {
    var o := match p.ext case Some(ext) => Walk(mods, fuel, s, ext) case None => Done(s);
    match (o, p.dep)
    case (Done(t), Some(dep)) => if dep in t.failed then o else Walk(mods, fuel, t, dep)
    case _ => o
  }

  /** A path that cannot be required fails; a plugin without a register hook is left alone. A plugin
      whose targets did not come to an end comes to none itself. Otherwise it depends on the state in
      which they left the container: if it holds the name or the alias, the plugin is left alone;
      else an invalid version aborts with everything as it was; else the options are stored, and the
      plugin is registered if its hook succeeds, and aborts or is recorded as failed if not. */
  lemma WalkOutcome(mods: Modules, fuel: nat, s: State, path: string)
    requires fuel > 0
    ensures path !in mods ==>
      Walk(mods, fuel, s, path) == Done(s.(failed := s.failed + {path}, finished := s.finished + {path}))
    ensures path in mods && !mods[path].hooked ==>
      Walk(mods, fuel, s, path) == Done(s.(finished := s.finished + {path}))
    ensures path in mods && mods[path].hooked ==>
      var p := mods[path];
      var q, r := TargetsWalked(mods, fuel - 1, s, p), Walk(mods, fuel, s, path);
      && (!q.Done? ==> r == q)
      && (q.Done? ==>
            var t := q.state;
            var opts := "pkg." + NameKey(p) + ".opts";
            if p.name in t.keys || (p.alias.Some? && p.alias.value in t.keys) then
              r == Done(t.(finished := t.finished + {path}))
            else if !p.validVersion then
              r == Aborted(t, InvalidVersion(p.name))
            else if p.succeeds then
              r == Done(State(t.keys + {opts, NameKey(p)}, t.failed, t.registered + [path],
                              t.deregister + (if p.hasDeregister then [path] else []), t.finished + {path}))
            else if p.required then
              r == Aborted(t.(keys := t.keys + {opts}), ForcedExit(p.name))
            else
              r == Done(t.(keys := t.keys + {opts}, failed := t.failed + {p.name}, finished := t.finished + {path})))
  {
  }

  // ----- Going through the names again -----

  /** Everything that holds in `s` holds in `t`. */
  ghost predicate Grows(s: State, t: State) {
    s.keys <= t.keys && s.failed <= t.failed && s.finished <= t.finished
  }

  /** A finished path would only be left alone, or fail as it has failed before. */
  ghost predicate Over(mods: Modules, s: State, path: string) {
    if path !in mods then path in s.failed
    else mods[path].hooked ==>
      var p := mods[path];
      && (p.ext.Some? ==> p.ext.value in s.finished)
      && (p.dep.Some? ==> p.dep.value in s.finished || p.dep.value in s.failed)
      && (Taken(s.keys, p) || (LeavesRecord(p) && OptsKey(p) in s.keys && p.name in s.failed))
  }

  ghost predicate AllOver(mods: Modules, s: State) {
    forall path | path in s.finished :: Over(mods, s, path)
  }

  lemma AttemptIsOver(mods: Modules, s: State, path: string)
    requires path in mods && mods[path].hooked && AllOver(mods, s)
    requires mods[path].ext.Some? ==> mods[path].ext.value in s.finished
    requires mods[path].dep.Some? ==> mods[path].dep.value in s.finished || mods[path].dep.value in s.failed
    ensures var o := Attempt(s, path, mods[path]);
      o.Done? ==> AllOver(mods, o.state) && Grows(s, o.state) && path in o.state.finished
  {
    var p := mods[path];
    var o := Attempt(s, path, p);
    if o.Done? {
      if !Taken(s.keys, p) && p.succeeds { assert Key(p) in o.state.keys; }
      assert Over(mods, o.state, path);
      forall q | q in o.state.finished && q != path ensures Over(mods, o.state, q) {
        assert Over(mods, s, q);
      }
    }
  }

  lemma {:induction false} WalkIsOver(mods: Modules, fuel: nat, s: State, path: string)
    requires AllOver(mods, s)
    ensures var o := Walk(mods, fuel, s, path);
      o.Done? ==> AllOver(mods, o.state) && Grows(s, o.state) && path in o.state.finished
    decreases fuel
  {
    if fuel > 0 {
      if path in mods && mods[path].hooked {
        var p := mods[path];
        var o := if p.ext.Some? then Walk(mods, fuel - 1, s, p.ext.value) else Done(s);
        if p.ext.Some? { WalkIsOver(mods, fuel - 1, s, p.ext.value); }
        if o.Done? {
          var q := if p.dep.Some? && p.dep.value !in o.state.failed
                   then Walk(mods, fuel - 1, o.state, p.dep.value) else o;
          if p.dep.Some? { WalkIsOver(mods, fuel - 1, o.state, p.dep.value); }
          if q.Done? { AttemptIsOver(mods, q.state, path); }
        }
      } else {
        var t := Walk(mods, fuel, s, path).state;
        forall q | q in t.finished && q != path ensures Over(mods, t, q) {
          assert Over(mods, s, q);
        }
      }
    }
  }

  /** Walking a path again, in any state that has grown out of the first walk, changes nothing. */
  lemma {:induction false} WalkAgain(mods: Modules, fuel: nat, s: State, path: string, t: State)
    requires AllOver(mods, s) && Walk(mods, fuel, s, path).Done?
    requires AllOver(mods, t) && Grows(Walk(mods, fuel, s, path).state, t)
    ensures Walk(mods, fuel, t, path) == Done(t)
    decreases fuel
  {
    WalkIsOver(mods, fuel, s, path);
    assert Over(mods, t, path);
    if path in mods && mods[path].hooked {
      var p := mods[path];
      var o := if p.ext.Some? then Walk(mods, fuel - 1, s, p.ext.value) else Done(s);
      var q := if p.dep.Some? && p.dep.value !in o.state.failed
               then Walk(mods, fuel - 1, o.state, p.dep.value) else o;
      if p.ext.Some? { WalkIsOver(mods, fuel - 1, s, p.ext.value); }
      if p.dep.Some? && p.dep.value !in o.state.failed { WalkIsOver(mods, fuel - 1, o.state, p.dep.value); }
      AttemptIsOver(mods, q.state, path);
      if p.ext.Some? { WalkAgain(mods, fuel - 1, s, p.ext.value, t); }
      if p.dep.Some? && p.dep.value !in o.state.failed { WalkAgain(mods, fuel - 1, o.state, p.dep.value, t); }
      assert Attempt(t, path, p) == Done(t) by { AttemptAgain(mods, t, path); }
    } else {
      assert t.finished + {path} == t.finished && (path !in mods ==> t.failed + {path} == t.failed);
    }
  }

  lemma AttemptAgain(mods: Modules, t: State, path: string)
    requires path in mods && mods[path].hooked && path in t.finished && Over(mods, t, path)
    ensures Attempt(t, path, mods[path]) == Done(t)
  {
    var p := mods[path];
    assert t.finished + {path} == t.finished;
    if !Taken(t.keys, p) {
      assert t.keys + {OptsKey(p)} == t.keys && t.failed + {p.name} == t.failed;
    }
  }

  lemma {:induction false} SetUpIsOver(mods: Modules, fuel: nat, s: State, opts: SetUpOptions, names: seq<string>)
    requires AllOver(mods, s) && SetUp(mods, fuel, s, opts, names).Done?
    ensures AllOver(mods, SetUp(mods, fuel, s, opts, names).state)
    ensures Grows(s, SetUp(mods, fuel, s, opts, names).state)
    decreases names
  {
    if names != [] {
      var o := Register(mods, fuel, s, opts, names[0]);
      if ShouldBeRegistered(opts, names[0]) { WalkIsOver(mods, fuel, s, names[0]); }
      if opts.exit != Some(names[0]) { SetUpIsOver(mods, fuel, o.state, opts, names[1..]); }
    }
  }

  lemma {:induction false} SetUpAgain(
      mods: Modules, fuel: nat, s: State, opts: SetUpOptions, names: seq<string>, t: State)
    requires AllOver(mods, s) && SetUp(mods, fuel, s, opts, names).Done?
    requires AllOver(mods, t) && Grows(SetUp(mods, fuel, s, opts, names).state, t)
    ensures SetUp(mods, fuel, t, opts, names) == Done(t)
    decreases names
  {
    if names != [] {
      var o := Register(mods, fuel, s, opts, names[0]);
      if ShouldBeRegistered(opts, names[0]) { WalkIsOver(mods, fuel, s, names[0]); }
      if opts.exit != Some(names[0]) {
        SetUpIsOver(mods, fuel, o.state, opts, names[1..]);
        SetUpAgain(mods, fuel, o.state, opts, names[1..], t);
      }
      if ShouldBeRegistered(opts, names[0]) { WalkAgain(mods, fuel, s, names[0], t); }
    }
  }

  /** Going through the same names again after a set-up that came to its end changes nothing: no
      plugin is registered, recorded or reported as failed a second time, on every graph. */
  lemma SecondSetUpChangesNothing(
      mods: Modules, fuel: nat, keys: set<string>, opts: SetUpOptions, names: seq<string>)
    requires SetUp(mods, fuel, Start(keys), opts, names).Done?
    ensures var t := SetUp(mods, fuel, Start(keys), opts, names).state;
      SetUp(mods, fuel, t, opts, names) == Done(t)
  {
    SetUpIsOver(mods, fuel, Start(keys), opts, names);
    SetUpAgain(mods, fuel, Start(keys), opts, names, SetUp(mods, fuel, Start(keys), opts, names).state);
  }

  // ----- Termination -----

  lemma {:induction false} GroundedWalkEnds(mods: Modules, depth: nat, s: State, path: string)
    requires Grounded(mods, path, depth)
    ensures !Walk(mods, depth, s, path).OutOfFuel?
    decreases depth
  {
    if path in mods && mods[path].hooked {
      var p := mods[path];
      var o := if p.ext.Some? then Walk(mods, depth - 1, s, p.ext.value) else Done(s);
      if p.ext.Some? { GroundedWalkEnds(mods, depth - 1, s, p.ext.value); }
      if o.Done? && p.dep.Some? { GroundedWalkEnds(mods, depth - 1, o.state, p.dep.value); }
    }
  }

  /** Once the fuel is enough, more of it makes no difference. */
  lemma {:induction false} MoreFuel(mods: Modules, fuel: nat, more: nat, s: State, path: string)
    requires !Walk(mods, fuel, s, path).OutOfFuel? && fuel <= more
    ensures Walk(mods, more, s, path) == Walk(mods, fuel, s, path)
    decreases fuel
  {
    if path in mods && mods[path].hooked {
      var p := mods[path];
      var o := if p.ext.Some? then Walk(mods, fuel - 1, s, p.ext.value) else Done(s);
      if p.ext.Some? { MoreFuel(mods, fuel - 1, more - 1, s, p.ext.value); }
      if o.Done? && p.dep.Some? && p.dep.value !in o.state.failed {
        MoreFuel(mods, fuel - 1, more - 1, o.state, p.dep.value);
      }
    }
  }

  /** The walk of a path that reaches no cycle terminates, whatever has been registered before:
      the recursion is at most one deeper than the number of modules. */
  lemma AcyclicWalkEnds(mods: Modules, fuel: nat, s: State, path: string)
    requires !ReachesCycle(mods, path) && fuel > |mods|
    ensures !Walk(mods, fuel, s, path).OutOfFuel?
    ensures Walk(mods, fuel, s, path) == Walk(mods, |mods| + 1, s, path)
  {
    GroundedExactlyWithoutCycle(mods, path);
    GroundedWalkEnds(mods, |mods| + 1, s, path);
    MoreFuel(mods, |mods| + 1, fuel, s, path);
  }

  /** The whole set-up ends if no name that is to be registered reaches a cycle. */
  lemma {:induction false} AcyclicSetUpEnds(
      mods: Modules, fuel: nat, s: State, opts: SetUpOptions, names: seq<string>)
    requires fuel > |mods| && forall name | name in Wanted(opts, names) :: !ReachesCycle(mods, name)
    ensures !SetUp(mods, fuel, s, opts, names).OutOfFuel?
    decreases names
  {
    if names != [] {
      if ShouldBeRegistered(opts, names[0]) { AcyclicWalkEnds(mods, fuel, s, names[0]); }
      var o := Register(mods, fuel, s, opts, names[0]);
      if o.Done? && opts.exit != Some(names[0]) { AcyclicSetUpEnds(mods, fuel, o.state, opts, names[1..]); }
    }
  }

  // ----- Cycles -----

  /** The failure of this plugin goes into the failure records. */
  predicate LeavesRecord(p: Plugin) {
    p.hooked && p.validVersion && !p.succeeds && !p.required
  }

  /** The failure of a plugin is recorded under its name, but looked up under a path. This says
      that none is recorded under the path of another module. */
  ghost predicate FailuresWellNamed(mods: Modules) {
    forall m | m in mods && LeavesRecord(mods[m]) && mods[m].name in mods :: mods[m].name == m
  }

  ghost predicate FailedAcyclic(mods: Modules, s: State) {
    forall f | f in s.failed :: !ReachesCycle(mods, f)
  }

  /** A walk that comes to its end has gone through everything that can be reached. */
  lemma {:induction false} FinishedWalkIsAcyclic(mods: Modules, fuel: nat, s: State, path: string)
    requires FailuresWellNamed(mods) && FailedAcyclic(mods, s) && Walk(mods, fuel, s, path).Done?
    ensures !ReachesCycle(mods, path) && FailedAcyclic(mods, Walk(mods, fuel, s, path).state)
    decreases fuel
  {
    if path in mods && mods[path].hooked {
      var p := mods[path];
      var o := if p.ext.Some? then Walk(mods, fuel - 1, s, p.ext.value) else Done(s);
      if p.ext.Some? { FinishedWalkIsAcyclic(mods, fuel - 1, s, p.ext.value); }
      if p.dep.Some? && p.dep.value !in o.state.failed {
        FinishedWalkIsAcyclic(mods, fuel - 1, o.state, p.dep.value);
      }
      if p.name !in mods { TargetsWithoutCycle(mods, p.name); }
    }
    TargetsWithoutCycle(mods, path);
  }

  lemma {:induction false} FinishedSetUpIsAcyclic(
      mods: Modules, fuel: nat, s: State, opts: SetUpOptions, names: seq<string>)
    requires FailuresWellNamed(mods) && FailedAcyclic(mods, s) && SetUp(mods, fuel, s, opts, names).Done?
    ensures forall name | name in Wanted(opts, names) :: !ReachesCycle(mods, name)
    ensures FailedAcyclic(mods, SetUp(mods, fuel, s, opts, names).state)
    decreases names
  {
    if names != [] {
      if ShouldBeRegistered(opts, names[0]) { FinishedWalkIsAcyclic(mods, fuel, s, names[0]); }
      var o := Register(mods, fuel, s, opts, names[0]);
      if opts.exit != Some(names[0]) { FinishedSetUpIsAcyclic(mods, fuel, o.state, opts, names[1..]); }
    }
  }

  /** If no failure is recorded under the path of another module, the walk of a plugin that
      reaches a cycle never returns normally. */
  lemma CyclicWalkNeverReturns(mods: Modules, fuel: nat, s: State, path: string)
    requires FailuresWellNamed(mods) && FailedAcyclic(mods, s) && ReachesCycle(mods, path)
    ensures !Walk(mods, fuel, s, path).Done?
  {
    if Walk(mods, fuel, s, path).Done? {
      FinishedWalkIsAcyclic(mods, fuel, s, path);
    }
  }

  /** Nothing on the way can cut the walk short by an invalid version or as a failing required plugin. */
  ghost predicate NothingAborts(mods: Modules, path: string) {
    forall m | m in mods && mods[m].hooked && Reaches(mods, path, m) ::
      mods[m].validVersion && (mods[m].succeeds || !mods[m].required)
  }

  lemma NothingAbortsAlong(mods: Modules, path: string, b: string)
    requires NothingAborts(mods, path) && Edge(mods, path, b)
    ensures NothingAborts(mods, b)
  {
    forall m | m in mods && mods[m].hooked && Reaches(mods, b, m)
      ensures mods[m].validVersion && (mods[m].succeeds || !mods[m].required)
    {
      EdgeReaches(mods, path, b, m);
    }
  }

  lemma {:induction false} NoAbort(mods: Modules, fuel: nat, s: State, path: string)
    requires NothingAborts(mods, path)
    ensures !Walk(mods, fuel, s, path).Aborted?
    decreases fuel
  {
    if fuel > 0 && path in mods && mods[path].hooked {
      var p := mods[path];
      var o := if p.ext.Some? then Walk(mods, fuel - 1, s, p.ext.value) else Done(s);
      if p.ext.Some? {
        NothingAbortsAlong(mods, path, p.ext.value);
        NoAbort(mods, fuel - 1, s, p.ext.value);
      }
      if o.Done? && p.dep.Some? {
        NothingAbortsAlong(mods, path, p.dep.value);
        NoAbort(mods, fuel - 1, o.state, p.dep.value);
      }
      assert ReachesIn(mods, path, path, 0);
    }
  }

  /** Exactly when does registration terminate? If nothing aborts it, it does so if and only if the
      path reaches no cycle. Plugins that are registered already make no difference, because that
      is looked up after the recursion. */
  lemma WalkEndsExactlyWithoutCycle(mods: Modules, s: State, path: string)
    requires FailuresWellNamed(mods) && FailedAcyclic(mods, s) && NothingAborts(mods, path)
    ensures (exists fuel: nat :: Walk(mods, fuel, s, path).Done?) <==> !ReachesCycle(mods, path)
  {
    if fuel: nat :| Walk(mods, fuel, s, path).Done? {
      FinishedWalkIsAcyclic(mods, fuel, s, path);
    }
    if !ReachesCycle(mods, path) {
      AcyclicWalkEnds(mods, |mods| + 1, s, path);
      NoAbort(mods, |mods| + 1, s, path);
    }
  }

  /** At most the plugin at `m` fails and is recorded, under the name `r`. */
  ghost predicate OnlyFailure(mods: Modules, m: string, r: string) {
    forall p | p in mods && LeavesRecord(mods[p]) :: p == m && mods[p].name == r
  }

  /** If the set-up ends, a later walk of a path that reaches a cycle does not return. */
  ghost predicate CyclesBlock(
      mods: Modules, fuel: nat, keys: set<string>, opts: SetUpOptions, names: seq<string>, path: string) {
    var o := SetUp(mods, fuel, Start(keys), opts, names);
    o.Done? && ReachesCycle(mods, path) ==> forall more: nat :: !Walk(mods, more, o.state, path).Done?
  }

  lemma SetUpOfOne(mods: Modules, fuel: nat, s: State, name: string)
    ensures SetUp(mods, fuel, s, SetUpOptions(None, None, None), [name]) == Walk(mods, fuel, s, name)
  {
    assert [name][1..] == [];
  }

  /** After a misnamed failure, a plugin that depends on itself is registered. */
  lemma MisnamedFailureCutsACycle(m: string, r: string)
    requires m != r
    ensures
      var mods := map[
        m := Plugin(r, None, None, None, true, true, false, false, false),
        r := Plugin(r, None, None, Some(r), true, true, false, true, false)];
      var opts := SetUpOptions(None, None, None);
      OnlyFailure(mods, m, r) && !CyclesBlock(mods, 1, {}, opts, [m], r)
  {
    var failing := Plugin(r, None, None, None, true, true, false, false, false);
    var mods := map[m := failing, r := Plugin(r, None, None, Some(r), true, true, false, true, false)];
    SetUpOfOne(mods, 1, Start({}), m);
    var s := State({OptsKey(failing)}, {r}, [], [], {m});
    assert Walk(mods, 1, Start({}), m) == Done(s);
    assert Walk(mods, 1, s, r).Done?;
    assert Edge(mods, r, r) && ReachesIn(mods, r, r, 0);
    assert ReachesIn(mods, r, r, 1);
    assert Reaches(mods, r, r) && OnCycle(mods, r);
  }

  /** Without the proviso on names the claim is false. Exactly: if the only recorded failure is that
      of the plugin at `m` under the name `r`, walks that reach a cycle are blocked after every
      set-up of every such graph if and only if the plugin is named like its own path. */
  lemma CyclesBlockExactlyWhenWellNamed(m: string, r: string)
    ensures (forall mods, fuel: nat, keys, opts, names, path | OnlyFailure(mods, m, r) ::
              CyclesBlock(mods, fuel, keys, opts, names, path)) <==> m == r
  {
    if m == r {
      forall mods, fuel: nat, keys, opts, names, path | OnlyFailure(mods, m, r)
        ensures CyclesBlock(mods, fuel, keys, opts, names, path)
      {
        var o := SetUp(mods, fuel, Start(keys), opts, names);
        if o.Done? && ReachesCycle(mods, path) {
          FinishedSetUpIsAcyclic(mods, fuel, Start(keys), opts, names);
          forall more: nat ensures !Walk(mods, more, o.state, path).Done? {
            CyclicWalkNeverReturns(mods, more, o.state, path);
          }
        }
      }
    } else {
      MisnamedFailureCutsACycle(m, r);
    }
  }
}
