/** The file store: how a configuration file is replaced, and what is on disk at every moment
    of a load that migrates, whatever fails and wherever the program is killed. */
module Filestore {
  import opened StoredConfig
  import opened HostMigration
  import opened Wrappers

  type Bytes = string
  type Files = map<string, Bytes>

  // ----- names

  function Config(dir: string): string { dir + "/config.json" }
  function Backup(dir: string): string { dir + "/config.json.bak" }
  function Temporary(dir: string, random: string): string { dir + "/config.json.tmp" + random }

  lemma NamesDiffer(dir: string, random: string)
    ensures Config(dir) != Backup(dir)
    ensures Temporary(dir, random) != Config(dir) && Temporary(dir, random) != Backup(dir)
  {
    var n := |dir|;
    assert |Config(dir)| == n + 12 && |Backup(dir)| == n + 16;
    assert Temporary(dir, random)[n + 13] == 't' && Backup(dir)[n + 13] == 'b';
  }

  // ----- what can go wrong

  /** A write that fails leaves the file alone or with some other content. */
  datatype Write = Full | Untouched | Garbled(content: Bytes)

  /** The fate of each call of one saveToFile, and the random part of its temporary's name.
      `partial` is what a write shows half-way. */
  datatype Fate = Fate(
    statFails: bool, createWorks: bool, random: string, partial: Bytes, write: Write,
    closeWorks: bool, removeWorks: bool, renameWorks: bool, cleanupWorks: bool)

  /** Outside `touched` nothing has changed. */
  predicate SameElsewhere(now: Files, was: Files, touched: set<string>) {
    && (forall p :: p in was && p !in touched ==> p in now && now[p] == was[p])
    && (forall p :: p in now && p !in touched ==> p in was)
  }

  /** File `file` is as it was, gone, or has the new data: never anything in between. */
  predicate Whole(now: Files, was: Files, file: string, data: Bytes) {
    file in now ==> now[file] == data || (file in was && now[file] == was[file])
  }

  class Disk {
    var files: Files
    ghost var history: seq<Files>      // every state there has been, the present one last

    ghost predicate Valid()
      reads this
    {
      history != [] && history[|history| - 1] == files
    }

    constructor (files: Files)
      ensures Valid() && this.files == files
    {
      this.files := files;
      history := [files];
    }

    method Become(now: Files)
      requires Valid()
      modifies this
      ensures Valid() && files == now && history == old(history) + [now]
    {
      files := now;
      history := history + [now];
    }

    /** ioutil.WriteFile */
    method WriteFile(file: string, data: Bytes, fate: Fate) returns (ok: bool)
      requires Valid()
      modifies this
      ensures Valid() && old(history) <= history
      ensures forall i :: |old(history)| <= i < |history| ==> SameElsewhere(history[i], old(files), {file})
      ensures SameElsewhere(files, old(files), {file})
      ensures ok == fate.write.Full?
      ensures ok ==> files == old(files)[file := data]
    {
      match fate.write {
        case Full =>
          Become(files[file := fate.partial]);
          Become(files[file := data]);
        case Untouched =>
        case Garbled(content) => Become(files[file := content]);
      }
      return fate.write.Full?;
    }

    /** The first half of saveToFile: a temporary with the data, closed. */
    method Stage(tmp: string, data: Bytes, fate: Fate) returns (ok: bool)
      requires Valid() && tmp !in files
      modifies this
      ensures Valid() && old(history) <= history
      ensures forall i :: |old(history)| <= i < |history| ==> SameElsewhere(history[i], old(files), {tmp})
      ensures SameElsewhere(files, old(files), {tmp})
      ensures ok == (fate.write.Full? && fate.closeWorks)
      ensures ok ==> files == old(files)[tmp := data]
    {
      Become(files[tmp := ""]);
      ok := WriteFile(tmp, data, fate);
      if ok { ok := fate.closeWorks; }
    }

    /** The second half: the temporary takes the file's place. */
    method Swap(tmp: string, file: string, data: Bytes, fate: Fate) returns (ok: bool)
      requires Valid() && tmp in files && files[tmp] == data && tmp != file
      modifies this
      ensures Valid() && old(history) <= history
      ensures forall i :: |old(history)| <= i < |history| ==>
                SameElsewhere(history[i], old(files), {tmp, file}) && Whole(history[i], old(files), file, data)
      ensures ok == (file in old(files) && fate.removeWorks && fate.renameWorks)
      ensures ok ==> files == (old(files) - {tmp})[file := data]
      ensures !ok ==> SameElsewhere(files, old(files), {tmp, file}) && Whole(files, old(files), file, data)
      ensures file in old(files) ==> (file !in files <==> fate.removeWorks && !fate.renameWorks)
    {
      if !fate.removeWorks || file !in files { return false; }
      Become(files - {file});
      if !fate.renameWorks { return false; }
      Become((files - {tmp})[file := data]);
      return true;
    }

    /** saveToFile: write a temporary beside the file, remove the file, rename. */
    method SaveToFile(data: Bytes, file: string, dir: string, fate: Fate) returns (ok: bool)
      requires Valid() && file != Temporary(dir, fate.random)
      modifies this
      ensures Valid() && old(history) <= history
      // no other file that was there before changes, at any moment
      ensures forall i :: |old(history)| <= i < |history| ==>
                SameElsewhere(history[i], old(files), Touched(old(files), file, dir, fate))
      ensures SameElsewhere(files, old(files), Touched(old(files), file, dir, fate))
      // a file that was there before is never seen half-written
      ensures file in old(files) ==>
                forall i :: |old(history)| <= i < |history| ==> Whole(history[i], old(files), file, data)
      // success means that the file has the data, and nothing else is different
      ensures ok ==> files == old(files)[file := data]
      // exactly when it succeeds
      ensures ok <==> SaveSucceeds(old(files), file, dir, fate)
      // no temporary stays behind if its removal works
      ensures Temporary(dir, fate.random) !in old(files) && fate.cleanupWorks ==> Temporary(dir, fate.random) !in files
      // exactly when the old content is lost and the new one is not there either
      ensures file in old(files) ==>
                (file !in files <==>
                  && fate.createWorks && Temporary(dir, fate.random) !in old(files)
                  && fate.write.Full? && fate.closeWorks && fate.removeWorks && !fate.renameWorks)
    {
      if file !in files && !fate.statFails {
        ok := WriteFile(file, data, fate);
        return;
      }
      var tmp := Temporary(dir, fate.random);
      // TempFile only ever opens a file that is not there
      if !fate.createWorks || tmp in files { return false; }
      ok := Stage(tmp, data, fate);
      if ok {
        ok := Swap(tmp, file, data, fate);
      }
      // the deferred removal of the temporary
      if fate.cleanupWorks && tmp in files { Become(files - {tmp}); }
    }

    /** Save */
    method Save(h: Host, dir: string, lib: Library, mkdirWorks: bool, fate: Fate) returns (ok: bool)
      requires Valid()
      modifies this
      ensures Valid() && old(history) <= history
      ensures forall i :: |old(history)| <= i < |history| ==>
                SameElsewhere(history[i], old(files), {Config(dir), Temporary(dir, fate.random)})
      ensures ok ==> Written(h).Some? && files == old(files)[Config(dir) := lib.render(Written(h).value)]
      ensures ok <==> Written(h).Some? && mkdirWorks && SaveSucceeds(old(files), Config(dir), dir, fate)
    {
      NamesDiffer(dir, fate.random);
      if Written(h).None? || !mkdirWorks { return false; }
      ok := SaveToFile(lib.render(Written(h).value), Config(dir), dir, fate);
    }

    /** loadConfig.  At every moment the bytes that were loaded are still in the configuration
        file or in its backup. */
    method LoadConfig(name: string, dir: string, lib: Library, backup: Fate, mkdirWorks: bool, save: Fate)
        returns (r: Result)
      requires Valid()
      modifies this
      ensures Valid() && old(history) <= history
      ensures Config(dir) in old(files) ==>
                forall i :: |old(history)| <= i < |history| ==>
                  Survives(history[i], dir, old(files)[Config(dir)])
      ensures Config(dir) !in old(files) ==> r == Error && history == old(history)
      // without a migration nothing is written, and the outcome is that of reading alone
      ensures Config(dir) in old(files) ==>
                var m := Migrate(lib.parse(old(files)[Config(dir)]), name, lib.paths);
                !(m.Loaded? && m.migrated) ==>
                  && history == old(history)
                  && r == if m.Loaded? then Found(m.host.(name := name)) else if m.Failed? then Error else Panic
      // exactly when a document that is migrated is found: when both saves succeed
      ensures Config(dir) in old(files) ==>
                var m := Migrate(lib.parse(old(files)[Config(dir)]), name, lib.paths);
                m.Loaded? && m.migrated ==>
                  var data := old(files)[Config(dir)];
                  var saved := old(files)[Backup(dir) := data];
                  (r.Found? <==>
                    && SaveSucceeds(old(files), Backup(dir), dir, backup)
                    && mkdirWorks && SaveSucceeds(saved, Config(dir), dir, save))
                  && (!r.Found? ==> r == Error)
      ensures r.Found? ==>
                var m := Migrate(lib.parse(old(files)[Config(dir)]), name, lib.paths);
                && m.Loaded? && r.host == m.host.(name := name)
                && (if m.migrated
                    then Written(r.host).Some? &&
                         files == old(files)[Backup(dir) := old(files)[Config(dir)]]
                                            [Config(dir) := lib.render(Written(r.host).value)]
                    else history == old(history))
    {
      if Config(dir) !in files { return Error; }
      var data := files[Config(dir)];
      var m := MigrateHost(name, lib.parse(data), lib.paths);
      if m.Failed? { return Error; }
      if m.Panicked? { return Panic; }
      var h := m.host.(name := name);
      if m.migrated {
        var ok := StoreMigrated(h, data, dir, lib, backup, mkdirWorks, save);
        if !ok { return Error; }
      }
      return Found(h);
    }

    /** The end of loadConfig: a backup of what was read, and then the host in its place. */
    method StoreMigrated(h: Host, data: Bytes, dir: string, lib: Library, backup: Fate, mkdirWorks: bool, save: Fate)
        returns (ok: bool)
      requires Valid() && Config(dir) in files && files[Config(dir)] == data
      modifies this
      ensures Valid() && old(history) <= history
      ensures forall i :: |old(history)| <= i < |history| ==> Survives(history[i], dir, data)
      ensures ok <==>
              && SaveSucceeds(old(files), Backup(dir), dir, backup) && Written(h).Some? && mkdirWorks
              && SaveSucceeds(old(files)[Backup(dir) := data], Config(dir), dir, save)
      ensures ok ==>
                && Written(h).Some?
                && files == old(files)[Backup(dir) := data][Config(dir) := lib.render(Written(h).value)]
    {
      NamesDiffer(dir, backup.random);
      NamesDiffer(dir, save.random);
      ok := SaveToFile(data, Backup(dir), dir, backup);
      assert forall i :: |old(history)| <= i < |history| ==> Survives(history[i], dir, data);
      if !ok { return; }
      label saved:
      ok := Save(h, dir, lib, mkdirWorks, save);
      assert forall i :: |old@saved(history)| <= i < |history| ==> Survives(history[i], dir, data);
    }

    /** Two loads, one after the other.  Once one has succeeded, the other one finds an equal host,
        migrates nothing and leaves the disk alone, whatever the fates of its calls. */
    method LoadTwice(name: string, dir: string, lib: Library, backup: Fate, mkdirWorks: bool, save: Fate,
                     backup': Fate, mkdirWorks': bool, save': Fate)
        returns (first: Result, second: Result, ghost between: seq<Files>)
      requires Valid() && lib.Faithful()
      modifies this
      ensures Valid() && old(history) <= between <= history
      ensures first.Found? ==> second == first && history == between
    {
      first := LoadConfig(name, dir, lib, backup, mkdirWorks, save);
      between := history;
      if first.Found? {
        ghost var doc := lib.parse(old(files)[Config(dir)]);
        if Migrate(doc, name, lib.paths).migrated { MigrationIsStable(doc, name, lib.paths); }
      }
      second := LoadConfig(name, dir, lib, backup', mkdirWorks', save');
    }
  }

  datatype Result = Found(host: Host) | Error | Panic

  /** encoding/json and path/filepath */
  datatype Library = Library(parse: Bytes -> Document, render: Document -> Bytes, paths: Paths) {
    /** A host that is written is read as it was written. */
    ghost predicate Faithful() {
      forall h: Host :: Written(h).Some? ==> parse(render(Written(h).value)) == Written(h).value
    }
  }

  /** The configuration file or its backup has these bytes. */
  predicate Survives(files: Files, dir: string, data: Bytes) {
    || (Config(dir) in files && files[Config(dir)] == data)
    || (Backup(dir) in files && files[Backup(dir)] == data)
  }

  /** A file that is not there is written; one that is, or that stat fails for, is replaced, for which
      it has to be there and a temporary's name to be free. */
  predicate SaveSucceeds(files: Files, file: string, dir: string, fate: Fate) {
    if file !in files && !fate.statFails then fate.write.Full?
    else
      && fate.createWorks && Temporary(dir, fate.random) !in files
      && fate.write.Full? && fate.closeWorks
      && file in files && fate.removeWorks && fate.renameWorks
  }

  /** The file itself, and the temporary if its name was free. */
  function Touched(was: Files, file: string, dir: string, fate: Fate): set<string> {
    if Temporary(dir, fate.random) in was then {file} else {file, Temporary(dir, fate.random)}
  }

  /** A file whose replacement fails at the rename: the old content is gone, the new one not there. */
  method RenameFailureLosesFile() returns (before: Files, after: Files)
    ensures before == map["m/config.json" := "old"] && "m/config.json" !in after
  {
    before := map["m/config.json" := "old"];
    var disk := new Disk(before);
    var fate := Fate(false, true, "1", "", Full, true, true, false, true);
    NamesDiffer("m", "1");
    assert Config("m") == "m/config.json";
    assert Temporary("m", "1") !in before;
    var ok := disk.SaveToFile("new", "m/config.json", "m", fate);
    after := disk.files;
  }
}
