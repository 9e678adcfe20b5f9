/** Plugins and the graph of their `extends` and `depends` targets. */
module PluginGraph {
  import opened Options

  /** What requiring a path gives. `hooked` and `hasDeregister` tell whether there are register
      and deregister hooks, and `succeeds` whether the register hook does. */
  datatype Plugin = Plugin(
    name: string,
    alias: Option<string>,
    ext: Option<string>,
    dep: Option<string>,
    hooked: bool,
    validVersion: bool,
    required: bool,
    succeeds: bool,
    hasDeregister: bool)

  /** The paths that can be required. */
  type Modules = map<string, Plugin>

  predicate Edge(mods: Modules, a: string, b: string) {
    a in mods && mods[a].hooked && (mods[a].ext == Some(b) || mods[a].dep == Some(b))
  }

  /** `b` is reached from `a` along `n` edges through hooked plugins. */
  ghost predicate ReachesIn(mods: Modules, a: string, b: string, n: nat)
    decreases n
  {
    if n == 0 then a == b
    else exists c :: Edge(mods, a, c) && ReachesIn(mods, c, b, n - 1)
  }

  /** `b` is a transitive target of `a`, or `a` itself. */
  ghost predicate Reaches(mods: Modules, a: string, b: string) {
    exists n: nat :: ReachesIn(mods, a, b, n)
  }

  lemma EdgeReaches(mods: Modules, a: string, b: string, c: string)
    requires Edge(mods, a, b) && Reaches(mods, b, c)
    ensures Reaches(mods, a, c)
  {
    var n: nat :| ReachesIn(mods, b, c, n);
    assert ReachesIn(mods, a, c, n + 1);
  }

  lemma {:induction false} ReachesInEdge(mods: Modules, a: string, b: string, c: string, n: nat)
    requires ReachesIn(mods, a, b, n) && Edge(mods, b, c)
    ensures ReachesIn(mods, a, c, n + 1)
    decreases n
  {
    if n == 0 {
      assert ReachesIn(mods, c, c, 0);
    } else {
      var d :| Edge(mods, a, d) && ReachesIn(mods, d, b, n - 1);
      ReachesInEdge(mods, d, b, c, n - 1);
    }
  }

  lemma ReachesEdge(mods: Modules, a: string, b: string, c: string)
    requires Reaches(mods, a, b) && Edge(mods, b, c)
    ensures Reaches(mods, a, c)
  {
    var n: nat :| ReachesIn(mods, a, b, n);
    ReachesInEdge(mods, a, b, c, n);
  }

  /** `a` names `b` as a target, whether or not it has a register hook. */
  predicate Declares(mods: Modules, a: string, b: string) {
    a in mods && (mods[a].ext == Some(b) || mods[a].dep == Some(b))
  }

  ghost predicate DeclaredIn(mods: Modules, a: string, b: string, n: nat)
    decreases n
  {
    if n == 0 then a == b
    else exists c :: Declares(mods, a, c) && DeclaredIn(mods, c, b, n - 1)
  }

  /** `b` is a transitive target of `a` as declared, or `a` itself. */
  ghost predicate Declared(mods: Modules, a: string, b: string) {
    exists n: nat :: DeclaredIn(mods, a, b, n)
  }

  /** If the plugin at `path` has no register hook, it declares no target but itself. */
  predicate NothingBehind(path: string, p: Plugin) {
    p.hooked || (p.ext in {None, Some(path)} && p.dep in {None, Some(path)})
  }

  /** Then what is declared is what is reached through hooked plugins. */
  lemma {:induction false} DeclaredIsReached(mods: Modules, a: string, b: string, n: nat)
    requires forall m | m in mods :: NothingBehind(m, mods[m])
    requires DeclaredIn(mods, a, b, n)
    ensures Reaches(mods, a, b)
    decreases n
  {
    if n == 0 {
      assert ReachesIn(mods, a, b, 0);
    } else {
      var c :| Declares(mods, a, c) && DeclaredIn(mods, c, b, n - 1);
      DeclaredIsReached(mods, c, b, n - 1);
      if mods[a].hooked { EdgeReaches(mods, a, c, b); }
    }
  }

  ghost predicate OnCycle(mods: Modules, a: string) {
    exists n: nat :: n > 0 && ReachesIn(mods, a, a, n)
  }

  ghost predicate ReachesCycle(mods: Modules, path: string) {
    exists a :: Reaches(mods, path, a) && OnCycle(mods, a)
  }

  /** If no target reaches a cycle, the path does not either. */
  lemma TargetsWithoutCycle(mods: Modules, path: string)
    requires forall b | Edge(mods, path, b) :: !ReachesCycle(mods, b)
    ensures !ReachesCycle(mods, path)
  {
    if a :| Reaches(mods, path, a) && OnCycle(mods, a) {
      var n: nat :| ReachesIn(mods, path, a, n);
      if n == 0 {
        var m: nat :| m > 0 && ReachesIn(mods, a, a, m);
        var c :| Edge(mods, path, c) && ReachesIn(mods, c, a, m - 1);
        assert Reaches(mods, c, a);
      } else {
        var c :| Edge(mods, path, c) && ReachesIn(mods, c, a, n - 1);
        assert Reaches(mods, c, a);
      }
    }
  }

  // ----- Bounded chains -----

  /** No chain of `extends` and `depends` from this path through hooked plugins has more than
      `depth` members. */
  predicate Grounded(mods: Modules, path: string, depth: nat)
    decreases depth
  {
    && depth > 0
    && (path in mods && mods[path].hooked ==>
          && (mods[path].ext.Some? ==> Grounded(mods, mods[path].ext.value, depth - 1))
          && (mods[path].dep.Some? ==> Grounded(mods, mods[path].dep.value, depth - 1)))
  }

  lemma {:induction false} GroundedAlong(mods: Modules, a: string, b: string, n: nat, depth: nat)
    requires Grounded(mods, a, depth) && ReachesIn(mods, a, b, n)
    ensures n < depth && Grounded(mods, b, depth - n)
    decreases n
  {
    if n > 0 {
      var c :| Edge(mods, a, c) && ReachesIn(mods, c, b, n - 1);
      GroundedAlong(mods, c, b, n - 1, depth - 1);
    }
  }

  lemma {:induction false} CycleIsNotGrounded(mods: Modules, a: string, n: nat, depth: nat)
    requires n > 0 && ReachesIn(mods, a, a, n)
    ensures !Grounded(mods, a, depth)
    decreases depth
  {
    if Grounded(mods, a, depth) {
      GroundedAlong(mods, a, a, n, depth);
      CycleIsNotGrounded(mods, a, n, depth - n);
    }
  }

  /** Each element has an edge to the next one. */
  ghost predicate Trail(mods: Modules, t: seq<string>) {
    forall i | 0 <= i < |t| - 1 :: Edge(mods, t[i], t[i + 1])
  }

  lemma {:induction false} LongTrail(mods: Modules, path: string, depth: nat) returns (t: seq<string>)
    requires !Grounded(mods, path, depth)
    ensures |t| == depth + 1 && t[0] == path && Trail(mods, t)
    decreases depth
  {
    if depth == 0 {
      t := [path];
    } else {
      var p := mods[path];
      var b := if p.ext.Some? && !Grounded(mods, p.ext.value, depth - 1) then p.ext.value else p.dep.value;
      var rest := LongTrail(mods, b, depth - 1);
      t := [path] + rest;
    }
  }

  lemma {:induction false} TrailReaches(mods: Modules, t: seq<string>, i: nat, j: nat)
    requires Trail(mods, t) && i <= j < |t|
    ensures ReachesIn(mods, t[i], t[j], j - i)
    decreases j - i
  {
    if i < j { TrailReaches(mods, t, i + 1, j); }
  }

  lemma {:induction false} SomethingRepeats(t: seq<string>, s: set<string>) returns (i: nat, j: nat)
    requires |t| > |s| && forall k | 0 <= k < |t| :: t[k] in s
    ensures i < j < |t| && t[i] == t[j]
    decreases |t|
  {
    j := |t| - 1;
    if k: nat :| k < j && t[k] == t[j] {
      i := k;
    } else {
      i, j := SomethingRepeats(t[..j], s - {t[j]});
    }
  }

  lemma GroundedReachesNoCycle(mods: Modules, path: string, depth: nat)
    requires Grounded(mods, path, depth)
    ensures !ReachesCycle(mods, path)
  {
    if a :| Reaches(mods, path, a) && OnCycle(mods, a) {
      var n: nat :| ReachesIn(mods, path, a, n);
      var m: nat :| m > 0 && ReachesIn(mods, a, a, m);
      GroundedAlong(mods, path, a, n, depth);
      CycleIsNotGrounded(mods, a, m, depth - n);
    }
  }

  /** The chains from a path are bounded exactly if it reaches no cycle, and the number of modules
      is a bound for them. */
  lemma GroundedExactlyWithoutCycle(mods: Modules, path: string)
    ensures Grounded(mods, path, |mods| + 1) <==> !ReachesCycle(mods, path)
  {
    var size: nat := |mods| + 1;
    if Grounded(mods, path, size) {
      GroundedReachesNoCycle(mods, path, size);
    } else {
      var t := LongTrail(mods, path, size);
      forall k | 0 <= k < size ensures t[k] in mods.Keys {
        assert Edge(mods, t[k], t[k + 1]);
      }
      assert |mods.Keys| == |mods|;
      var i, j := SomethingRepeats(t[..size], mods.Keys);
      TrailReaches(mods, t, 0, i);
      TrailReaches(mods, t, i, j);
      assert Reaches(mods, path, t[i]) && OnCycle(mods, t[i]);
    }
  }
}
