/** The classes behind plugin registration, proved against module PluginWalk. */
module PluginRegistrar {
  import opened Options
  import opened PluginGraph
  import opened PluginWalk
  import opened PluginOrder

  class Container {
    var keys: set<string>
    var shuttingDown: bool

    constructor ()
      ensures keys == {} && !shuttingDown
    {
      keys, shuttingDown := {}, false;
    }

    method Register(name: string)
      modifies this`keys
      ensures keys == old(keys) + {name}
    {
      keys := keys + {name};
    }

    function Has(key: Option<string>): bool
      reads this
    {
      key.Some? && key.value in keys
    }

    method ForceExit()
      modifies this`shuttingDown
      ensures shuttingDown
    {
      shuttingDown := true;
    }
  }

  class PluginRegistrar {
    const container: Container
    const mods: Modules
    const options: SetUpOptions
    var failedPlugins: set<string>
    var deregister: seq<string>
    ghost var registered: seq<string>
    ghost var finished: set<string>

    constructor (container: Container, mods: Modules, options: SetUpOptions)
      ensures this.container == container && this.mods == mods && this.options == options
      ensures View() == Start(container.keys)
    {
      this.container, this.mods, this.options := container, mods, options;
      failedPlugins, deregister, registered, finished := {}, [], [], {};
    }

    ghost function View(): State
      reads this, container
    {
      State(container.keys, failedPlugins, registered, deregister, finished)
    }

    /** The outcome of a call that returned `halt`, which is None if it did not throw or exit. */
    ghost function Ended(halt: Option<Halt>): Outcome
      reads this, container
    {
      if halt.None? then Done(View()) else Aborted(View(), halt.value)
    }

    /** `depth` bounds the chains of `extends` and `depends` from `path`, and thereby the recursion. */
    method RegisterWithContainer(path: string, ghost depth: nat) returns (halt: Option<Halt>)
      requires Grounded(mods, path, depth)
      modifies this, container
      ensures Ended(halt) == Walk(mods, depth, old(View()), path)
      ensures container.shuttingDown == (old(container.shuttingDown) || (halt.Some? && halt.value.ForcedExit?))
      decreases depth
    {
      halt := None;
      if path !in mods {
        failedPlugins := failedPlugins + {path};
        finished := finished + {path};
        return;
      }
      var item := mods[path];
      if !item.hooked {
        finished := finished + {path};
        return;
      }
      if item.ext.Some? {
        halt := RegisterWithContainer(item.ext.value, depth - 1);
        if halt.Some? {
          return;
        }
      }
      if item.dep.Some? && item.dep.value !in failedPlugins {
        halt := RegisterWithContainer(item.dep.value, depth - 1);
        if halt.Some? {
          return;
        }
      }
      halt := RegisterItself(path, item);
    }

    /** The part after the recursive calls. */
    method RegisterItself(path: string, item: Plugin) returns (halt: Option<Halt>)
      modifies this, container
      ensures Ended(halt) == Attempt(old(View()), path, item)
      ensures halt.Some? && halt.value.InvalidVersion? ==> !item.validVersion && View() == old(View())
      ensures registered != old(registered) ==>
        item.validVersion && item.succeeds && registered == old(registered) + [path] && NameKey(item) in container.keys
      ensures container.shuttingDown == (old(container.shuttingDown) || (halt.Some? && halt.value.ForcedExit?))
    {
      halt := None;
      if container.Has(item.alias) || container.Has(Some(item.name)) {
        finished := finished + {path};
        return;
      }
      if !item.validVersion {
        return Some(InvalidVersion(item.name));
      }
      container.Register(OptsKey(item));
      if item.succeeds {
        container.Register(Key(item));
        registered := registered + [path];
        if item.hasDeregister {
          deregister := deregister + [path];
        }
      } else if item.required {
        container.ForceExit();
        return Some(ForcedExit(item.name));
      } else {
        failedPlugins := failedPlugins + {item.name};
      }
      finished := finished + {path};
    }

    /** An exclude list overrides an include list altogether. */
    method ShouldRegister(name: string) returns (register: bool)
      ensures register == ShouldBeRegistered(options, name)
      ensures options.excluded.Some? ==> register == (name !in options.excluded.value)
      ensures options.excluded.None? && options.included.Some? ==> register == (name in options.included.value)
      ensures options.excluded.None? && options.included.None? ==> register
    {
      register := true;
      if options.included.Some? {
        register := name in options.included.value;
      }
      if options.excluded.Some? {
        register := name !in options.excluded.value;
      }
    }

    /** The configured names that the loop looks at: only the first if the container is shutting
        down already. */
    ghost function Listed(names: seq<string>): seq<string>
      reads container
    {
      if container.shuttingDown && |names| > 1 then names[..1] else names
    }

    /** Goes through the configured names. Unless one of those that are to be registered reaches a
        cycle, the recursion is at most one deeper than the number of modules. */
    method SetUp(names: seq<string>) returns (halt: Option<Halt>)
      requires forall name | name in Wanted(options, Listed(names)) :: !ReachesCycle(mods, name)
      modifies this, container
      ensures Ended(halt) == PluginWalk.SetUp(mods, |mods| + 1, old(View()), options, old(Listed(names)))
    {
      halt := None;
      var i := 0;
      ghost var listed := Listed(names);
      ghost var all := PluginWalk.SetUp(mods, |mods| + 1, View(), options, listed);
      while i < |names|
        invariant i <= |listed| <= |names| && listed == names[..|listed|] && halt.None?
        invariant container.shuttingDown == old(container.shuttingDown)
        invariant if container.shuttingDown then i == 0 && |listed| <= 1 else listed == names
        invariant forall name | name in Wanted(options, listed[i..]) :: !ReachesCycle(mods, name)
        invariant PluginWalk.SetUp(mods, |mods| + 1, View(), options, listed[i..]) == all
      {
        assert listed[i..][0] == names[i] && listed[i..][1..] == listed[i + 1..];
        var wanted := ShouldRegister(names[i]);
        if wanted {
          GroundedExactlyWithoutCycle(mods, names[i]);
          halt := RegisterWithContainer(names[i], |mods| + 1);
          if halt.Some? {
            return;
          }
        }
        if options.exit == Some(names[i]) || container.shuttingDown {
          return;
        }
        i := i + 1;
      }
    }

    /** Runs the recorded hooks; `ran` lists them in the order in which they ran. The list is
        reversed in place, so a second call would run them the other way round. */
    method TearDown() returns (ran: seq<string>)
      modifies this`deregister
      ensures ran == Reverse(old(deregister)) && deregister == ran
    {
      deregister := Reverse(deregister);
      ran := [];
      for i := 0 to |deregister|
        invariant ran == deregister[..i]
      {
        ran := ran + [deregister[i]];
      }
    }
  }
}
