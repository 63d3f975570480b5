/** Creating and removing machines: the order in which the local store and the remote machine
    change, whatever fails on the way. */
module Lifecycle {

  /** The configuration of an entry: of the current version, of an older one, or gone. */
  datatype Entry = Current | Old | Unreadable

  /** The machines that have an entry in the store, and the machines that exist at the provider. */
  datatype World = World(store: map<string, Entry>, remote: set<string>) {
    /** Every machine that exists has an entry in the store. */
    predicate NoOrphan() { forall m :: m in remote ==> m in store }

    /** Every machine that exists can be loaded. */
    predicate AllLoadable() { forall m :: m in remote ==> m in store && store[m] != Unreadable }
  }

  // ----- create

  /** A save that fails leaves the store as it was, or an entry that can or cannot be read: the
      configuration file is removed before the new one takes its place. */
  datatype SaveFate = Works | Fails | FailsLeaving(readable: bool)

  function Left(readable: bool): Entry { if readable then Current else Unreadable }

  function Save(w: World, name: string, f: SaveFate): World {
    match f
    case Works => w.(store := w.store[name := Current])
    case Fails => w
    case FailsLeaving(readable) => w.(store := w.store[name := Left(readable)])
  }

  /** How the calls of a create command end.  A driver that fails may have made the machine. */
  datatype CreateFate = CreateFate(
    existsWorks: bool, flagsWork: bool, certsWork: bool, preCheckWorks: bool, firstSave: SaveFate,
    createWorks: bool, createLeavesMachine: bool, secondSave: SaveFate, provisionWorks: bool, lastSave: SaveFate)

  /** The checks pass, so that the command gets to its first save. */
  predicate PassesChecks(w: World, name: string, f: CreateFate) {
    f.existsWorks && name !in w.store && f.flagsWork && f.certsWork && f.preCheckWorks
  }

  function Create(w: World, name: string, f: CreateFate): (World, bool) {
    if !PassesChecks(w, name, f) then (w, false)
    else if f.firstSave != Works then (Save(w, name, f.firstSave), false)
    else Made(Save(w, name, Works), name, f)
  }

  /** From the driver's Create on. */
  function Made(w: World, name: string, f: CreateFate): (World, bool) {
    var w := if f.createWorks || f.createLeavesMachine then w.(remote := w.remote + {name}) else w;
    if !f.createWorks then (w, false)
    else
      var w := Save(w, name, f.secondSave);
      if f.secondSave != Works || !f.provisionWorks then (w, false)
      else (Save(w, name, f.lastSave), f.lastSave == Works)
  }

  // ----- remove

  /** A load of an older entry migrates it.  If it fails it may have done so, or may have lost the
      configuration in the save at the end. */
  datatype LoadFate = Loads | LoadFails | LoadFailsLeaving(entry: Entry)

  /** Client.Load */
  function Load(w: World, name: string, f: LoadFate): (World, bool) {
    if name !in w.store || w.store[name] == Unreadable then (w, false)
    else if w.store[name] == Current then (w, f == Loads)
    else match f
      case Loads => (w.(store := w.store[name := Current]), true)
      case LoadFails => (w, false)
      case LoadFailsLeaving(entry) => (w.(store := w.store[name := entry]), false)
  }

  /** What a removal of the entry that fails leaves of it. */
  datatype LocalFailure = Kept | Damaged | Gone

  /** How the calls for one name of a remove command end.  A driver whose Remove succeeds has
      removed the machine; one that fails may have. */
  datatype RmFate = RmFate(
    load: LoadFate, removeWorks: bool, failureRemoves: bool, existsWorks: bool,
    localWorks: bool, localFailure: LocalFailure)

  /** removeRemoteMachine: the machine is removed if its entry can be loaded. */
  function RemoveRemote(w: World, name: string, f: RmFate): (World, bool) {
    var (w, loaded) := Load(w, name, f.load);
    if loaded && (f.removeWorks || f.failureRemoves) then (w.(remote := w.remote - {name}), f.removeWorks)
    else (w, false)
  }

  /** removeLocalMachine */
  function RemoveLocal(w: World, name: string, f: RmFate): (World, bool) {
    if !f.existsWorks || name !in w.store then (w, false)
    else if f.localWorks || f.localFailure == Gone then (w.(store := w.store - {name}), f.localWorks)
    else (if f.localFailure == Damaged then w.(store := w.store[name := Unreadable]) else w, false)
  }

  function RemoveOne(w: World, name: string, force: bool, f: RmFate): (World, bool) {
    var (w1, ok1) := RemoveRemote(w, name, f);
    if ok1 || force then
      var (w2, ok2) := RemoveLocal(w1, name, f);
      (w2, ok1 && ok2)
    else (w1, false)
  }

  /** The world after the first `n` names of a remove command. */
  function RemoveFirst(w: World, names: seq<string>, n: nat, force: bool, fates: nat -> RmFate): World
    requires n <= |names|
  {
    if n == 0 then w else RemoveOne(RemoveFirst(w, names, n - 1, force, fates), names[n - 1], force, fates(n - 1)).0
  }

  function Remove(w: World, names: seq<string>, force: bool, fates: nat -> RmFate): World {
    RemoveFirst(w, names, |names|, force, fates)
  }

  /** The first `n` names of a remove command were removed on both sides without an error. */
  predicate AllRemoved(w: World, names: seq<string>, n: nat, force: bool, fates: nat -> RmFate)
    requires n <= |names|
  {
    n == 0 ||
    (&& AllRemoved(w, names, n - 1, force, fates)
     && RemoveOne(RemoveFirst(w, names, n - 1, force, fates), names[n - 1], force, fates(n - 1)).1)
  }

  // ----- the commands themselves

  class Client {
    var store: map<string, Entry>
    var remote: set<string>

    function Now(): World
      reads this
    {
      World(store, remote)
    }

    /** Client.Save */
    method SaveHost(name: string, f: SaveFate) returns (ok: bool)
      modifies `store
      ensures Now() == Save(old(Now()), name, f) && ok == f.Works?
    {
      match f
      case Works =>
        store := store[name := Current];
        return true;
      case Fails => return false;
      case FailsLeaving(readable) =>
        store := store[name := Left(readable)];
        return false;
    }

    /** cmdCreateInner with Client.Create: the entry is there before the machine is. */
    method CmdCreate(name: string, f: CreateFate) returns (ok: bool)
      modifies this
      ensures (Now(), ok) == Create(old(Now()), name, f)
      ensures old(Now()).NoOrphan() ==> Now().NoOrphan()
      ensures ok ==> name in remote && name in store && store[name] == Current && name !in old(store)
      ensures forall m :: m != name ==>
                && (m in remote <==> m in old(remote)) && (m in store <==> m in old(store))
                && (m in store ==> store[m] == old(store)[m])
    {
      if !f.existsWorks || name in store { return false; }
      if !f.flagsWork || !f.certsWork || !f.preCheckWorks { return false; }
      ok := SaveHost(name, f.firstSave);
      if !ok { return; }
      ok := PerformCreate(name, f);
    }

    /** performCreate, and the save after it */
    method PerformCreate(name: string, f: CreateFate) returns (ok: bool)
      modifies this
      ensures (Now(), ok) == Made(old(Now()), name, f)
    {
      if f.createWorks || f.createLeavesMachine { remote := remote + {name}; }
      if !f.createWorks { return false; }
      ok := SaveHost(name, f.secondSave);
      if !ok { return; }
      if !f.provisionWorks { return false; }
      ok := SaveHost(name, f.lastSave);
    }

    /** Client.Load */
    method LoadHost(name: string, f: LoadFate) returns (ok: bool)
      modifies `store
      ensures (Now(), ok) == Load(old(Now()), name, f)
      ensures ok ==> name in store && store[name] == Current
    {
      if name !in store || store[name] == Unreadable { return false; }
      if store[name] == Old {
        if f == Loads {
          store := store[name := Current];
        } else if f.LoadFailsLeaving? {
          store := store[name := f.entry];
        }
      }
      return f == Loads;
    }

    method RemoveRemoteMachine(name: string, f: RmFate) returns (ok: bool)
      modifies this
      ensures (Now(), ok) == RemoveRemote(old(Now()), name, f)
      ensures ok ==> name !in remote
    {
      var loaded := LoadHost(name, f.load);
      if !loaded { return false; }
      if f.removeWorks {
        remote := remote - {name};
        return true;
      }
      if f.failureRemoves { remote := remote - {name}; }
      return false;
    }

    method RemoveLocalMachine(name: string, f: RmFate) returns (ok: bool)
      modifies `store
      ensures (Now(), ok) == RemoveLocal(old(Now()), name, f)
      ensures ok ==> name !in store
    {
      var there := f.existsWorks && name in store;
      if !there { return false; }
      if f.localWorks {
        store := store - {name};
        return true;
      }
      match f.localFailure {
        case Kept =>
        case Damaged => store := store[name := Unreadable];
        case Gone => store := store - {name};
      }
      return false;
    }

    /** One round of cmdRm: unless it is forced, the entry outlives the machine, and no other
        machine is touched. */
    method RemoveMachine(name: string, force: bool, f: RmFate) returns (ok: bool)
      modifies this
      ensures (Now(), ok) == RemoveOne(old(Now()), name, force, f)
      ensures ok ==> name !in store && name !in remote
      ensures !force && old(Now()).NoOrphan() ==> Now().NoOrphan()
      ensures !force && name in remote ==> store.Keys == old(store.Keys)
      ensures forall m :: m != name ==>
                && (m in remote <==> m in old(remote)) && (m in store <==> m in old(store))
                && (m in store ==> store[m] == old(store)[m])
    {
      ok := RemoveRemoteMachine(name, f);
      if ok || force {
        var removed := RemoveLocalMachine(name, f);
        ok := ok && removed;
      }
    }

    /** cmdRm, once confirmed: an error is reported unless the removal is forced. */
    method CmdRm(names: seq<string>, force: bool, fates: nat -> RmFate) returns (ok: bool)
      modifies this
      ensures Now() == Remove(old(Now()), names, force, fates)
      ensures ok <==> names != [] && (force || AllRemoved(old(Now()), names, |names|, force, fates))
    {
      if names == [] { return false; }
      var errorOccurred := false;
      for i := 0 to |names|
        invariant Now() == RemoveFirst(old(Now()), names, i, force, fates)
        invariant errorOccurred <==> !AllRemoved(old(Now()), names, i, force, fates)
      {
        var removed := RemoveMachine(names[i], force, fates(i));
        if !removed { errorOccurred := true; }
      }
      ok := !errorOccurred || force;
    }
  }

  // ----- success

  /** A create succeeds exactly if every call works and there was no entry; then machine and entry
      are there, and nothing else is different. */
  lemma CreateSucceedsExactly(w: World, name: string, f: CreateFate)
    ensures Create(w, name, f).1 <==>
            && f.existsWorks && name !in w.store && f.flagsWork && f.certsWork && f.preCheckWorks
            && f.createWorks && f.provisionWorks && f.firstSave == f.secondSave == f.lastSave == Works
    ensures Create(w, name, f).1 ==>
              Create(w, name, f).0 == World(w.store[name := Current], w.remote + {name})
  {
    assert w.store[name := Current][name := Current] == w.store[name := Current];
  }

  /** A create makes the machine exactly if it gets to the driver, and the driver works or fails with
      the machine made. */
  lemma MachineIsMadeExactly(w: World, name: string, f: CreateFate)
    ensures name in Create(w, name, f).0.remote <==>
            || name in w.remote
            || (PassesChecks(w, name, f) && f.firstSave == Works && (f.createWorks || f.createLeavesMachine))
  {
  }

  /** A load succeeds exactly if there is an entry, it can be read and the call works; then the entry
      is current.  Only a load of an older entry changes the store. */
  lemma LoadSucceedsExactly(w: World, name: string, f: LoadFate)
    ensures Load(w, name, f).1 <==> name in w.store && w.store[name] != Unreadable && f == Loads
    ensures Load(w, name, f).1 ==> Load(w, name, f).0 == w.(store := w.store[name := Current])
    ensures !(name in w.store && w.store[name] == Old) ==> Load(w, name, f).0 == w
  {
  }

  /** What a removal of the entry leaves of it. */
  lemma EntryIsRemovedExactly(w: World, name: string, f: RmFate)
    requires name in w.store && f.existsWorks
    ensures var w' := RemoveLocal(w, name, f).0;
            && (name !in w'.store <==> f.localWorks || f.localFailure == Gone)
            && (name in w'.store ==> w'.store[name] == if f.localFailure == Damaged then Unreadable else w.store[name])
            && w'.remote == w.remote
  {
  }

  /** A removal succeeds exactly if the entry can be loaded and every call works, forced or not; then
      machine and entry are gone, and nothing else is different. */
  lemma RemovalSucceedsExactly(w: World, name: string, force: bool, f: RmFate)
    ensures RemoveOne(w, name, force, f).1 <==>
            && name in w.store && w.store[name] != Unreadable && f.load == Loads
            && f.removeWorks && f.existsWorks && f.localWorks
    ensures RemoveOne(w, name, force, f).1 ==>
              RemoveOne(w, name, force, f).0 == World(w.store - {name}, w.remote - {name})
  {
    assert name in w.store ==> w.store[name := Current] - {name} == w.store - {name};
  }

  /** When a remove command has removed all its names, none of them is left on either side. */
  lemma {:induction false} AllRemovedAreGone(w: World, names: seq<string>, n: nat, force: bool, fates: nat -> RmFate,
                                             i: nat)
    requires i < n <= |names| && AllRemoved(w, names, n, force, fates)
    ensures var w' := RemoveFirst(w, names, n, force, fates); names[i] !in w'.store && names[i] !in w'.remote
  {
    RemovalSucceedsExactly(RemoveFirst(w, names, n - 1, force, fates), names[n - 1], force, fates(n - 1));
    if i < n - 1 { AllRemovedAreGone(w, names, n - 1, force, fates, i); }
  }

  // ----- no orphaned machine

  /** A removal leaves a machine without an entry exactly when it is forced, the machine outlives
      the driver's Remove, and the entry does not outlive the store's. */
  lemma OrphanedExactly(w: World, name: string, force: bool, f: RmFate)
    requires w.NoOrphan()
    ensures RemoveOne(w, name, force, f).0.NoOrphan() <==>
            !(&& force
              && name in w.remote && !(Load(w, name, f.load).1 && (f.removeWorks || f.failureRemoves))
              && f.existsWorks && (f.localWorks || f.localFailure == Gone))
  {
    var w2 := RemoveOne(w, name, force, f).0;
    if name in w2.remote && name !in w2.store {
      assert !w2.NoOrphan();
    }
  }

  lemma {:induction false} UnforcedRemovalKeepsNoOrphan(w: World, names: seq<string>, n: nat, fates: nat -> RmFate)
    requires w.NoOrphan() && n <= |names|
    ensures RemoveFirst(w, names, n, false, fates).NoOrphan()
  {
    if n > 0 {
      UnforcedRemovalKeepsNoOrphan(w, names, n - 1, fates);
      OrphanedExactly(RemoveFirst(w, names, n - 1, false, fates), names[n - 1], false, fates(n - 1));
    }
  }

  datatype Command = CreateCommand(name: string, fate: CreateFate) | RmCommand(names: seq<string>, fates: nat -> RmFate)

  function Execute(w: World, cmd: Command): World {
    match cmd
    case CreateCommand(name, f) => Create(w, name, f).0
    case RmCommand(names, fates) => Remove(w, names, false, fates)
  }

  function Run(w: World, cmds: seq<Command>): World
    decreases |cmds|
  {
    if cmds == [] then w else Run(Execute(w, cmds[0]), cmds[1..])
  }

  /** Over every sequence of create commands and unforced remove commands, whatever fails in
      driver and store, every machine that exists at the provider has an entry in the store. */
  lemma {:induction false} RunsLeaveNoOrphan(w: World, cmds: seq<Command>)
    requires w.NoOrphan()
    ensures Run(w, cmds).NoOrphan()
    decreases |cmds|
  {
    if cmds != [] {
      match cmds[0] {
        case CreateCommand(name, f) =>
        case RmCommand(names, fates) => UnforcedRemovalKeepsNoOrphan(w, names, |names|, fates);
      }
      RunsLeaveNoOrphan(Execute(w, cmds[0]), cmds[1..]);
    }
  }

  // ----- machines whose entry cannot be read any more

  /** A create command makes the machine, and then one of its two later saves fails and leaves an
      entry that cannot be read. */
  predicate CreateLoses(w: World, name: string, f: CreateFate) {
    && PassesChecks(w, name, f) && f.firstSave == Works && f.createWorks
    && (f.secondSave == FailsLeaving(false)
        || (f.secondSave == Works && f.provisionWorks && f.lastSave == FailsLeaving(false)))
  }

  /** A create command leaves a machine that cannot be loaded exactly then. */
  lemma CreateLosesExactly(w: World, name: string, f: CreateFate)
    requires w.AllLoadable()
    ensures Create(w, name, f).0.AllLoadable() <==> !CreateLoses(w, name, f)
  {
    if CreateLoses(w, name, f) {
      assert IsLost(Create(w, name, f).0, name);
    }
  }

  /** The load of a removal loses the configuration of an older entry whose machine exists. */
  predicate LoadLoses(w: World, name: string, f: RmFate) {
    name in w.remote && name in w.store && w.store[name] == Old && f.load == LoadFailsLeaving(Unreadable)
  }

  /** An unforced removal leaves a machine that cannot be loaded exactly then. */
  lemma RemovalLosesExactly(w: World, name: string, f: RmFate)
    requires w.AllLoadable()
    ensures RemoveOne(w, name, false, f).0.AllLoadable() <==> !LoadLoses(w, name, f)
  {
    if LoadLoses(w, name, f) {
      assert IsLost(RemoveOne(w, name, false, f).0, name);
    }
  }

  predicate IsLost(w: World, m: string) { m in w.remote && m in w.store && w.store[m] == Unreadable }

  lemma {:induction false} RemovalKeepsLost(w: World, names: seq<string>, n: nat, fates: nat -> RmFate, m: string)
    requires IsLost(w, m) && n <= |names|
    ensures IsLost(RemoveFirst(w, names, n, false, fates), m)
  {
    if n > 0 { RemovalKeepsLost(w, names, n - 1, fates, m); }
  }

  /** Such a machine stays lost: no create and no unforced removal gets at it any more. */
  lemma {:induction false} LostStaysLost(w: World, cmds: seq<Command>, m: string)
    requires IsLost(w, m)
    ensures IsLost(Run(w, cmds), m)
    decreases |cmds|
  {
    if cmds != [] {
      match cmds[0] {
        case CreateCommand(name, f) =>
        case RmCommand(names, fates) => RemovalKeepsLost(w, names, |names|, fates, m);
      }
      LostStaysLost(Execute(w, cmds[0]), cmds[1..], m);
    }
  }

  /** One of the first `n` loads of a remove command loses a machine. */
  predicate SomeLoadLoses(w: World, names: seq<string>, n: nat, fates: nat -> RmFate)
    requires n <= |names|
  {
    n > 0 &&
    (|| SomeLoadLoses(w, names, n - 1, fates)
     || LoadLoses(RemoveFirst(w, names, n - 1, false, fates), names[n - 1], fates(n - 1)))
  }

  /** A machine that is lost, if any is. */
  lemma SomeLost(w: World) returns (m: string)
    requires w.NoOrphan() && !w.AllLoadable()
    ensures IsLost(w, m)
  {
    m :| m in w.remote && !(m in w.store && w.store[m] != Unreadable);
  }

  lemma {:induction false} RemovalsLoseExactly(w: World, names: seq<string>, n: nat, fates: nat -> RmFate)
    requires w.AllLoadable() && n <= |names|
    ensures RemoveFirst(w, names, n, false, fates).AllLoadable() <==> !SomeLoadLoses(w, names, n, fates)
  {
    if n > 0 {
      var before := RemoveFirst(w, names, n - 1, false, fates);
      RemovalsLoseExactly(w, names, n - 1, fates);
      if before.AllLoadable() {
        RemovalLosesExactly(before, names[n - 1], fates(n - 1));
      } else {
        UnforcedRemovalKeepsNoOrphan(w, names, n - 1, fates);
        var m := SomeLost(before);
        assert IsLost(RemoveFirst(w, names, n, false, fates), m);
      }
    }
  }

  predicate CommandLoses(w: World, cmd: Command) {
    match cmd
    case CreateCommand(name, f) => CreateLoses(w, name, f)
    case RmCommand(names, fates) => SomeLoadLoses(w, names, |names|, fates)
  }

  predicate SomeCommandLoses(w: World, cmds: seq<Command>)
    decreases |cmds|
  {
    cmds != [] && (CommandLoses(w, cmds[0]) || SomeCommandLoses(Execute(w, cmds[0]), cmds[1..]))
  }

  lemma CommandLosesExactly(w: World, cmd: Command)
    requires w.AllLoadable()
    ensures Execute(w, cmd).AllLoadable() <==> !CommandLoses(w, cmd)
  {
    match cmd
    case CreateCommand(name, f) => CreateLosesExactly(w, name, f);
    case RmCommand(names, fates) => RemovalsLoseExactly(w, names, |names|, fates);
  }

  /** After any sequence of create commands and unforced remove commands, every machine that exists
      can be loaded if and only if no save of a create and no load of a removal has lost one. */
  lemma {:induction false} RunsKeepLoadableExactly(w: World, cmds: seq<Command>)
    requires w.AllLoadable()
    ensures Run(w, cmds).AllLoadable() <==> !SomeCommandLoses(w, cmds)
    decreases |cmds|
  {
    if cmds != [] {
      var w' := Execute(w, cmds[0]);
      CommandLosesExactly(w, cmds[0]);
      if CommandLoses(w, cmds[0]) {
        RunsLeaveNoOrphan(w, [cmds[0]]);
        assert Run(w, [cmds[0]]) == w';
        var m := SomeLost(w');
        LostStaysLost(w', cmds[1..], m);
      } else {
        RunsKeepLoadableExactly(w', cmds[1..]);
      }
    }
  }

  // ----- three machines that are out of reach

  /** The second save of a create command loses the entry's configuration. */
  lemma LostSave(name: string)
    ensures var f := CreateFate(true, true, true, true, Works, true, false, FailsLeaving(false), true, Works);
            IsLost(Create(World(map[], {}), name, f).0, name)
  {
  }

  /** An unforced removal loads an older entry, and the save of the migration loses it. */
  lemma LostLoad(name: string)
    ensures var f := RmFate(LoadFailsLeaving(Unreadable), true, false, true, true, Kept);
            IsLost(RemoveOne(World(map[name := Old], {name}), name, false, f).0, name)
  {
  }

  /** A forced removal of a machine that the driver fails to remove forgets about it. */
  lemma ForcedRemovalOrphans(name: string)
    ensures var w := World(map[name := Current], {name});
            w.NoOrphan() && !RemoveOne(w, name, true, RmFate(Loads, false, false, true, true, Kept)).0.NoOrphan()
  {
    OrphanedExactly(World(map[name := Current], {name}), name, true, RmFate(Loads, false, false, true, true, Kept));
  }
}
