/** Configuration files on disk (tun/config.go): each primitive may fail, as the system's verdicts given to
    an operation say, and every intermediate state of the directory is remembered. */
module ServiceFiles {
  import opened Prelude

  type Name = string

  datatype Config = Config(uuid: string, name: Name, disabled: bool, createdAt: int, body: string)

  datatype Error =
    | NameExists | UuidUnknown | Unknown | PrepareFailed | CloseFailed | RunFailed | FileFailed | RollbackFailed(cause: Error)

  /** What the system does to the primitives of one operation: writing the temporary file, renaming the old
      file to its backup, renaming the new one into place, renaming the backup back, removing staged files. */
  datatype Disk = Disk(writes: bool, backsUp: bool, movesIn: bool, putsBack: bool, cleans: bool)

  /** The directory: files by service name, and the staging area. */
  datatype Snapshot = Snapshot(files: map<Name, Config>, staged: map<nat, Config>)

  /** Some complete version of the configuration is on disk: the old one in its place or in staging, or
      the new one in its place. */
  ghost predicate Recoverable(s: Snapshot, name: Name, previous: Config, cfg: Config) {
    || (name in s.files && s.files[name] == previous)
    || previous in s.staged.Values
    || (cfg.name in s.files && s.files[cfg.name] == cfg)
  }

  class Directory {
    var files: map<Name, Config>
    var staged: map<nat, Config>
    var next: nat                      // staging file names are never reused
    ghost var history: seq<Snapshot>   // the directory after every primitive that changed it
    ghost var backups: nat             // how many backup renames have succeeded

    ghost predicate Valid() reads this { forall i :: i in staged ==> i < next }

    ghost function Now(): Snapshot reads this { Snapshot(files, staged) }

    constructor (files: map<Name, Config>)
      ensures Valid() && this.files == files && staged == map[] && history == [] && backups == 0
    {
      this.files, staged, next, history, backups := files, map[], 0, [], 0;
    }

    /** MkdirAll and writing a temporary file: a complete new file in staging, or nothing readable. */
    method WriteTemp(cfg: Config, writes: bool) returns (temp: Option<nat>)
      requires Valid()
      modifies this
      ensures Valid() && files == old(files) && next >= old(next) && backups == old(backups)
      ensures temp.Some? <==> writes
      ensures temp == None ==> staged == old(staged) && history == old(history)
      ensures temp.Some? ==>
                temp.value !in old(staged) && temp.value < next && staged == old(staged)[temp.value := cfg] &&
                history == old(history) + [Now()]
    {
      if !writes { return None; }
      temp := Some(next);
      staged, next := staged[next := cfg], next + 1;
      history := history + [Now()];
    }

    /** rename(file of name, a fresh backup in staging). */
    method Backup(name: Name, backsUp: bool) returns (backup: Option<nat>)
      requires Valid() && name in files
      modifies this
      ensures Valid() && next >= old(next)
      ensures backup.Some? <==> backsUp
      ensures backup == None ==> Now() == old(Now()) && history == old(history)
      ensures backups == old(backups) + if backup.Some? then 1 else 0
      ensures backup.Some? ==>
                backup.value !in old(staged) && backup.value < next && files == old(files) - {name} &&
                staged == old(staged)[backup.value := old(files)[name]] && history == old(history) + [Now()]
    {
      if !backsUp { return None; }
      backup := Some(next);
      staged, files, next := staged[next := files[name]], files - {name}, next + 1;
      backups := backups + 1;
      history := history + [Now()];
    }

    /** rename(staged file, file of name), replacing what is there. */
    method MoveIn(temp: nat, name: Name, moves: bool) returns (ok: bool)
      requires Valid() && temp in staged
      modifies this
      ensures Valid() && next == old(next) && backups == old(backups)
      ensures ok == moves
      ensures !ok ==> Now() == old(Now()) && history == old(history)
      ensures ok ==>
                files == old(files)[name := old(staged)[temp]] && staged == old(staged) - {temp} &&
                history == old(history) + [Now()]
    {
      ok := moves;
      if ok {
        files, staged := files[name := staged[temp]], staged - {temp};
        history := history + [Now()];
      }
    }

    /** Remove a staged file, if the system lets us. */
    method RemoveStaged(temp: nat, cleans: bool)
      requires Valid()
      modifies this
      ensures Valid() && files == old(files) && next == old(next) && backups == old(backups)
      ensures staged == if cleans then old(staged) - {temp} else old(staged)
      ensures history == if cleans then old(history) + [Now()] else old(history)
    {
      if cleans {
        staged := staged - {temp};
        history := history + [Now()];
      }
    }

    /** Write a new file, refusing to replace an existing one. */
    method CreateFile(cfg: Config, disk: Disk) returns (err: Option<Error>)
      requires Valid()
      modifies this
      ensures Valid()
      ensures err == None <==> cfg.name !in old(files) && disk.writes && disk.movesIn
      ensures err == None || err == Some(FileFailed)
      ensures files == if err == None then old(files)[cfg.name := cfg] else old(files)
      ensures err == None || disk.cleans ==> staged == old(staged)
    {
      if cfg.name in files { return Some(FileFailed); }
      var temp := WriteTemp(cfg, disk.writes);
      if temp == None { return Some(FileFailed); }
      var ok := MoveIn(temp.value, cfg.name, disk.movesIn);
      RemoveStaged(temp.value, disk.cleans);
      err := if ok then None else Some(FileFailed);
    }

    /** Remove the file of name, unless the system does not let us; a missing file is no error. */
    method DeleteFile(name: Name, deletes: bool) returns (err: Option<Error>)
      requires Valid()
      modifies this
      ensures Valid() && backups == old(backups)
      ensures staged == old(staged) && next == old(next)
      ensures err == if name in old(files) && !deletes then Some(FileFailed) else None
      ensures files == if err == None then old(files) - {name} else old(files)
    {
      if name !in files { return None; }
      if !deletes { return Some(FileFailed); }
      files := files - {name};
      history := history + [Now()];
      err := None;
    }

    /** With the new file ready in staging: back the old one up, move the new one in, and clean up or
        put the old one back. aside says that the backup rename succeeded: then, and only then, there is
        a moment at which no file stands under the old name and the new one is not in place yet. lost says
        that the old file was set aside, the new one did not get in, and the old one not back. */
    method Exchange(temp: nat, name: Name, disk: Disk) returns (ok: bool, lost: bool, ghost aside: bool)
      requires Valid() && temp in staged
      modifies this
      ensures Valid()
      ensures aside <==> name in old(files) && disk.backsUp
      ensures ok <==> (name in old(files) ==> disk.backsUp) && disk.movesIn
      ensures lost <==> aside && !disk.movesIn && !disk.putsBack
      ensures backups == old(backups) + if aside then 1 else 0
      ensures var cfg := old(staged)[temp];
              files == if ok then (old(files) - {name})[cfg.name := cfg]
                       else if lost then old(files) - {name} else old(files)
      ensures disk.cleans && !lost ==> staged - {temp} == old(staged) - {temp}
      ensures lost ==> name in old(files) && exists i :: i != temp && i in staged && staged[i] == old(files)[name]
      ensures old(history) <= history
      ensures name in old(files) ==>
                && (forall i :: |old(history)| <= i < |history| ==>
                      Recoverable(history[i], name, old(files)[name], old(staged)[temp]))
                && (aside <==> exists i :: |old(history)| <= i < |history| && history[i].files == old(files) - {name})
    {
      lost, aside := false, false;
      var cfg := staged[temp];
      if name !in files {
        ok := MoveIn(temp, cfg.name, disk.movesIn);
        return;
      }
      ghost var was, from := files, |history|;
      var backup := Backup(name, disk.backsUp);
      if backup == None { return false, false, false; }
      aside := true;
      assert history[from] == Now() && staged[backup.value] == was[name] && history[from].files == was - {name};
      ok := MoveIn(temp, cfg.name, disk.movesIn);
      if ok {
        RemoveStaged(backup.value, disk.cleans);
      } else {
        var back := MoveIn(backup.value, name, disk.putsBack);
        lost := !back;
        if back { assert files == was; }
      }
      assert history[from].files == was - {name};
    }

    /** Replace the old file by the new one through staging: done exactly when the new file could be
        written, the old one, if there is one, backed up, and the new one moved in. lost says that the old
        file was set aside and could not be put back, aside that the backup rename succeeded. At every
        moment a complete old or new version is on disk; there is a moment at which it is only in staging
        exactly when aside. Nothing but a lost file stays in staging when cleaning up succeeds. */
    method ReplaceFile(name: Name, cfg: Config, disk: Disk) returns (err: Option<Error>, lost: bool, ghost aside: bool)
      requires Valid()
      modifies this
      ensures Valid() && (err == None || err == Some(FileFailed))
      ensures aside <==> name in old(files) && disk.writes && disk.backsUp
      ensures err == None <==> disk.writes && (name in old(files) ==> disk.backsUp) && disk.movesIn
      ensures lost <==> aside && !disk.movesIn && !disk.putsBack
      ensures backups == old(backups) + if aside then 1 else 0
      ensures files == if err == None then (old(files) - {name})[cfg.name := cfg]
                       else if lost then old(files) - {name} else old(files)
      ensures disk.cleans && !lost ==> staged == old(staged)
      ensures lost ==> name in old(files) && old(files)[name] in staged.Values
      ensures old(history) <= history
      ensures name in old(files) ==>
                && (forall i :: |old(history)| <= i < |history| ==>
                      Recoverable(history[i], name, old(files)[name], cfg))
                && (aside <==> exists i :: |old(history)| <= i < |history| && history[i].files == old(files) - {name})
    {
      var temp := WriteTemp(cfg, disk.writes);
      if temp == None { return Some(FileFailed), false, false; }
      ghost var from := |history|;
      var ok;
      ok, lost, aside := Exchange(temp.value, name, disk);
      ghost var done, kept := history, 0;
      if lost { kept :| kept != temp.value && kept in staged && staged[kept] == old(files)[name]; }
      RemoveStaged(temp.value, disk.cleans);
      assert lost ==> kept in staged && staged[kept] == old(files)[name];
      assert forall i :: from <= i < |done| ==> history[i] == done[i];
      err := if ok then None else Some(FileFailed);
    }

    /** What a deletion in the middle of a failing exchange comes to: it finds nothing, succeeds, and the
        file is put back behind it. */
    method DeletionMissed(name: Name) returns (err: Option<Error>)
      requires Valid() && name in files
      modifies this
      ensures Valid() && err == None && files == old(files)
    {
      var backup := Backup(name, true);
      err := DeleteFile(name, true);
      var back := MoveIn(backup.value, name, true);
      assert files == old(files);
    }
  }
}
