/** The registry of services (tun/manager.go) over the directory of their files. */
module Manager {
  import opened Prelude
  import opened ServiceFiles

  /** Unclear: Run or Close returned an error, so how much of the service is up is not known. Running
      includes a Run that has not returned yet. */
  datatype State = Prepared | Running | Closed | Unclear

  class Service {
    const cfg: Config
    var state: State

    constructor (cfg: Config)
      ensures this.cfg == cfg && state == Prepared
    {
      this.cfg, state := cfg, Prepared;
    }

    /** runs is the verdict of the system; a disabled service does nothing, and nothing can go wrong. */
    method Run(runs: bool) returns (ok: bool)
      modifies this
      ensures ok <==> runs || cfg.disabled
      ensures state == if ok then Running else Unclear
    {
      ok := runs || cfg.disabled;
      state := if ok then Running else Unclear;
    }

    method Close(closes: bool) returns (ok: bool)
      modifies this
      ensures ok <==> closes || cfg.disabled
      ensures state == if ok then Closed else Unclear
    {
      ok := closes || cfg.disabled;
      state := if ok then Closed else Unclear;
    }
  }

  /** What the system does in one operation: to the new service, to the old one, to the directory. A disabled
      service can always be prepared, started and closed. */
  datatype Verdicts = Verdicts(
    prepares: bool, runs: bool, closesNew: bool,
    closesOld: bool, preparesOld: bool, runsOld: bool,
    disk: Disk)

  /** What the registry and the directory say. */
  datatype View = View(registry: map<Name, Config>, files: map<Name, Config>)

  /** What happens in one step. Everything under the lock is one step; a removal deletes the file before
      it takes the lock, so its halves are two steps and others may come between them. */
  datatype Op =
    | Add(cfg: Config, createFile: bool)
    | Replace(name: Name, cfg: Config)
    | Unlink(name: Name)
    | Drop(name: Name)

  /** The configuration an edit installs: everything from the request except identity and age. */
  function Edited(cfg: Config, was: Config): (c: Config)
    ensures c.uuid == was.uuid && c.createdAt == was.createdAt
    ensures (c.name, c.disabled, c.body) == (cfg.name, cfg.disabled, cfg.body)
  {
    cfg.(uuid := was.uuid, createdAt := was.createdAt)
  }

  /** A new service gets a creation time and an identity unless it brings them. */
  function Normalized(cfg: Config, now: int, newUuid: string): (c: Config)
    ensures c.name == cfg.name && c.body == cfg.body && c.disabled == cfg.disabled
    ensures c.createdAt == if cfg.createdAt != 0 then cfg.createdAt else now
    ensures c.uuid == if cfg.uuid != "" then cfg.uuid else newUuid
  {
    cfg.(createdAt := if cfg.createdAt == 0 then now else cfg.createdAt,
         uuid := if cfg.uuid == "" then newUuid else cfg.uuid)
  }

  predicate AddOutcome(v: View, cfg: Config, createFile: bool, err: Option<Error>, w: View) {
    match err
    case None =>
      && cfg.name !in v.registry
      && (createFile ==> cfg.name !in v.files)
      && w == View(v.registry[cfg.name := cfg], if createFile then v.files[cfg.name := cfg] else v.files)
    case Some(e) =>
      && w == v
      && (e == NameExists <==> cfg.name in v.registry)
  }

  /** lost: the old file stays in the staging area. */
  predicate FileOutcome(files: map<Name, Config>, name: Name, cfg: Config, err: Option<Error>, lost: bool,
      after: map<Name, Config>) {
    && (lost ==> name in files && (err == Some(FileFailed) || err == Some(RollbackFailed(FileFailed))))
    && after == if err == None then (files - {name})[cfg.name := cfg] else if lost then files - {name} else files
  }

  /** A replacement either happened or did not, in the registry and on disk alike, except that an entry
      whose old service would not start again is gone, and a file that could not be put back is lost. */
  predicate ReplaceOutcome(v: View, name: Name, cfg: Config, err: Option<Error>, lost: bool, w: View)
    requires name in v.registry
  {
    && FileOutcome(v.files, name, cfg, err, lost, w.files)
    && (err == Some(NameExists) <==> cfg.name != name && cfg.name in v.registry)
    && w.registry ==
       if err == None then (v.registry - {name})[cfg.name := cfg]
       else if err.value.RollbackFailed? then v.registry - {name}
       else v.registry
  }

  /** missed: at that moment a replacement that then failed had the file set aside, and put it back. */
  predicate UnlinkOutcome(v: View, name: Name, err: Option<Error>, missed: bool, w: View) {
    && (missed ==> err == None && name in v.files)
    && w == if err == None && !missed then View(v.registry, v.files - {name}) else v
  }

  predicate DropOutcome(v: View, name: Name, err: Option<Error>, w: View) {
    match err
    case None => w == View(v.registry - {name}, v.files)
    case Some(e) => e == CloseFailed && name in v.registry && w == v
  }

  predicate Outcome(v: View, op: Op, err: Option<Error>, lost: bool, w: View) {
    match op
    case Add(cfg, createFile) => !lost && AddOutcome(v, cfg, createFile, err, w)
    case Replace(name, cfg) => name in v.registry && ReplaceOutcome(v, name, cfg, err, lost, w)
    case Unlink(name) => UnlinkOutcome(v, name, err, lost, w)
    case Drop(name) => !lost && DropOutcome(v, name, err, w)
  }

  /** The registry and the directory say the same about a name. */
  predicate Agree(v: View, n: Name) {
    && (n in v.registry <==> n in v.files)
    && (n in v.registry ==> v.registry[n] == v.files[n])
  }

  /** Whether they do after an operation, read off the state before it. */
  predicate AgreeAfter(v: View, op: Op, err: Option<Error>, lost: bool, n: Name) {
    match op
    case Add(cfg, createFile) =>
      if err == None && n == cfg.name then createFile || (n in v.files && v.files[n] == cfg) else Agree(v, n)
    case Replace(name, cfg) =>
      if err == None && (n == name || n == cfg.name) then true
      else if n == name && err.Some? && err.value.RollbackFailed? then lost || n !in v.files
      else if n == name && lost then false
      else Agree(v, n)
    case Unlink(name) => if err == None && !lost && n == name then n !in v.registry else Agree(v, n)
    case Drop(name) => if err == None && n == name then n !in v.files else Agree(v, n)
  }

  /** The outcomes that set registry and directory apart on a name: a service added without writing its
      file, a rollback that failed with the old file kept, an old file lost with its service running again
      (both together leave neither), the file of a registered service deleted, an entry dropped while a
      file stands. */
  predicate Drifts(v: View, op: Op, err: Option<Error>, lost: bool, n: Name) {
    match op
    case Add(cfg, createFile) => err == None && !createFile && n == cfg.name
    case Replace(name, _) => n == name && (lost != (err.Some? && err.value.RollbackFailed?))
    case Unlink(name) => n == name && err == None && !lost && n in v.registry
    case Drop(name) => n == name && err == None && n in v.files
  }

  datatype Entry = Entry(op: Op, err: Option<Error>, lost: bool)

  ghost predicate Run(vs: seq<View>, log: seq<Entry>) {
    && |vs| == |log| + 1
    && forall i :: 0 <= i < |log| ==> Outcome(vs[i], log[i].op, log[i].err, log[i].lost, vs[i + 1])
  }

  lemma StepAgreement(v: View, op: Op, err: Option<Error>, lost: bool, w: View, n: Name)
    requires Outcome(v, op, err, lost, w)
    ensures Agree(w, n) <==> AgreeAfter(v, op, err, lost, n)
  {
  }

  /** From agreement on a name a step leads to disagreement exactly by one of those outcomes. */
  lemma StepDrift(v: View, op: Op, err: Option<Error>, lost: bool, w: View, n: Name)
    requires Outcome(v, op, err, lost, w) && Agree(v, n)
    ensures Agree(w, n) <==> !Drifts(v, op, err, lost, n)
  {
  }

  ghost predicate NeverDrifts(vs: seq<View>, log: seq<Entry>, n: Name)
    requires |vs| == |log| + 1
  {
    forall i :: 0 <= i < |log| ==> !Drifts(vs[i], log[i].op, log[i].err, log[i].lost, n)
  }

  /** A run that starts in agreement on a name stays in agreement throughout exactly when none of the
      listed outcomes hits that name. */
  lemma {:induction false} AgreeThroughout(vs: seq<View>, log: seq<Entry>, n: Name)
    requires Run(vs, log) && Agree(vs[0], n)
    ensures (forall i :: 0 <= i < |vs| ==> Agree(vs[i], n)) <==> NeverDrifts(vs, log, n)
    decreases |log|
  {
    if log != [] {
      var k := |log| - 1;
      var vs', log' := vs[..k + 1], log[..k];
      AgreeThroughout(vs', log', n);
      assert (forall i :: 0 <= i < |vs'| ==> Agree(vs'[i], n)) <==> (forall i :: 0 <= i <= k ==> Agree(vs[i], n));
      assert NeverDrifts(vs, log, n) <==>
        NeverDrifts(vs', log', n) && !Drifts(vs[k], log[k].op, log[k].err, log[k].lost, n);
      if Agree(vs[k], n) {
        StepDrift(vs[k], log[k].op, log[k].err, log[k].lost, vs[k + 1], n);
      }
    }
  }

  /** At the end of any run registry and directory differ on a name only if they did at the start or one
      of the listed outcomes hit that very name. */
  lemma DriftIsBlamed(vs: seq<View>, log: seq<Entry>, n: Name)
    requires Run(vs, log) && !Agree(vs[|log|], n)
    ensures !Agree(vs[0], n) || !NeverDrifts(vs, log, n)
  {
    if Agree(vs[0], n) { AgreeThroughout(vs, log, n); }
  }

  /** The step writes a file under that name. */
  predicate Writes(x: Entry, n: Name) {
    x.err == None && ((x.op.Add? && x.op.createFile && n == x.op.cfg.name) || (x.op.Replace? && n == x.op.cfg.name))
  }

  lemma {:induction false} FileComesFrom(vs: seq<View>, log: seq<Entry>, i: nat, j: nat, n: Name)
    requires Run(vs, log) && i <= j <= |log| && n !in vs[i].files && n in vs[j].files
    ensures exists k :: i <= k < j && Writes(log[k], n)
    decreases j
  {
    assert i < j;
    assert Outcome(vs[j - 1], log[j - 1].op, log[j - 1].err, log[j - 1].lost, vs[j]);
    if n in vs[j - 1].files { FileComesFrom(vs, log, i, j - 1, n); }
  }

  /** A removal whose halves both succeed ends in agreement exactly when no file stands at its second half;
      and one does only if the first half missed it or another step wrote it in between. */
  lemma RemovalCompletes(vs: seq<View>, log: seq<Entry>, i: nat, j: nat, n: Name)
    requires Run(vs, log) && i < j < |log|
    requires log[i].op == Unlink(n) && log[i].err == None && log[j].op == Drop(n) && log[j].err == None
    ensures Agree(vs[j + 1], n) <==> n !in vs[j].files
    ensures n in vs[j].files ==> log[i].lost || exists k :: i < k < j && Writes(log[k], n)
  {
    assert Outcome(vs[j], log[j].op, log[j].err, log[j].lost, vs[j + 1]);
    assert Outcome(vs[i], log[i].op, log[i].err, log[i].lost, vs[i + 1]);
    if n in vs[j].files && !log[i].lost { FileComesFrom(vs, log, i + 1, j, n); }
  }

  /** What an operation touches of a name: nothing, unless it names it. */
  predicate Names(op: Op, n: Name) {
    match op
    case Add(cfg, _) => n == cfg.name
    case Replace(name, cfg) => n == name || n == cfg.name
    case Unlink(name) => n == name
    case Drop(name) => n == name
  }

  predicate SameAt(v: View, w: View, n: Name) {
    && (n in v.registry <==> n in w.registry) && (n in v.registry ==> v.registry[n] == w.registry[n])
    && (n in v.files <==> n in w.files) && (n in v.files ==> v.files[n] == w.files[n])
  }

  lemma {:induction false} OthersUntouched(vs: seq<View>, log: seq<Entry>, n: Name)
    requires Run(vs, log) && forall i :: 0 <= i < |log| ==> !Names(log[i].op, n)
    ensures SameAt(vs[0], vs[|log|], n)
    decreases |log|
  {
    if log != [] {
      var k := |log| - 1;
      OthersUntouched(vs[..k + 1], log[..k], n);
      assert Outcome(vs[k], log[k].op, log[k].err, log[k].lost, vs[k + 1]) && !Names(log[k].op, n);
    }
  }

  lemma NotAdded(v: View, cfg: Config, createFile: bool)
    ensures cfg.name in v.registry ==> AddOutcome(v, cfg, createFile, Some(NameExists), v)
    ensures cfg.name !in v.registry ==>
              AddOutcome(v, cfg, createFile, Some(PrepareFailed), v) && AddOutcome(v, cfg, createFile, Some(RunFailed), v)
  {
  }

  ghost function Configs(services: map<Name, Service>): map<Name, Config> {
    map n | n in services :: services[n].cfg
  }

  lemma ConfigsKeys(services: map<Name, Service>)
    ensures Configs(services).Keys == services.Keys
  {
  }

  lemma ConfigsPut(services: map<Name, Service>, n: Name, s: Service)
    ensures Configs(services[n := s]) == Configs(services)[n := s.cfg]
  {
  }

  lemma ConfigsDrop(services: map<Name, Service>, n: Name)
    ensures Configs(services - {n}) == Configs(services) - {n}
  {
  }

  /** The registry after a replacement: the new service; after a failure past the closing of the old one,
      a new instance of the old one or, if that would not start, neither; before it, no change. */
  ghost predicate Replaced(services: map<Name, Service>, name: Name, cfg: Config, err: Option<Error>,
      after: map<Name, Service>)
    requires name in services
  {
    if err == None then
      cfg.name in after && after[cfg.name].cfg == cfg && after == (services - {name})[cfg.name := after[cfg.name]]
    else if err == Some(RunFailed) || err == Some(FileFailed) then
      name in after && after[name].cfg == services[name].cfg && after == services[name := after[name]]
    else if err.value.RollbackFailed? then
      after == services - {name}
    else
      after == services
  }

  lemma SwapOutcome(services: map<Name, Service>, files: map<Name, Config>, name: Name, cfg: Config,
      err: Option<Error>, lost: bool, after: map<Name, Service>, filesAfter: map<Name, Config>)
    requires name in services && Replaced(services, name, cfg, err, after)
    requires cfg.name != name ==> cfg.name !in services
    requires FileOutcome(files, name, cfg, err, lost, filesAfter) && err != Some(NameExists)
    ensures Outcome(View(Configs(services), files), Replace(name, cfg), err, lost, View(Configs(after), filesAfter))
  {
  }

  lemma RefusedOutcome(services: map<Name, Service>, files: map<Name, Config>, name: Name, cfg: Config)
    requires name in services
    ensures cfg.name != name && cfg.name in services ==>
              var v := View(Configs(services), files);
              Outcome(v, Replace(name, cfg), Some(NameExists), false, v)
  {
  }

  /** The error of a replacement, read off the verdicts: that of the first thing that failed, and of the
      rollback too when it failed as well. */
  function SwapError(was: Config, cfg: Config, fileThere: bool, sys: Verdicts): Option<Error> {
    if !sys.prepares && !cfg.disabled then Some(PrepareFailed)
    else if !sys.closesOld && !was.disabled then Some(CloseFailed)
    else InstallError(was, cfg, fileThere, sys)
  }

  function InstallError(was: Config, cfg: Config, fileThere: bool, sys: Verdicts): Option<Error> {
    var runs := sys.runs || cfg.disabled;
    if runs && sys.disk.writes && (fileThere ==> sys.disk.backsUp) && sys.disk.movesIn then None
    else
      var cause := if runs then FileFailed else RunFailed;
      Some(if was.disabled || (sys.preparesOld && sys.runsOld) then cause else RollbackFailed(cause))
  }

  class Manager {
    var services: map<Name, Service>
    const dir: Directory
    ghost var started: set<Service>    // every service whose Run was called

    /** Entries are stored under the name of their configuration and were started; and the only services
        left running are the registered ones. */
    ghost predicate Valid()
      reads this, dir, started
    {
      && Sound()
      && forall n :: n in services ==> services[n].state in {Running, Unclear}
    }

    ghost predicate Sound()
      reads this, dir, started
    {
      && dir.Valid()
      && (forall n :: n in services ==> services[n] in started && services[n].cfg.name == n)
      && (forall s :: s in started && s.state == Running ==> s.cfg.name in services && services[s.cfg.name] == s)
    }

    /** Valid, but for one name whose service has been closed. */
    ghost predicate Closing(name: Name)
      reads this, dir, started
    {
      && Sound()
      && name in services && services[name].state == Closed
      && forall n :: n in services && n != name ==> services[n].state in {Running, Unclear}
    }

    /** Valid, but for one service running under a name that is still free. */
    ghost predicate Entering(s: Service)
      reads this, dir, started, s
    {
      && dir.Valid()
      && s in started && s.state == Running && s.cfg.name !in services
      && (forall n :: n in services ==>
            services[n] in started && services[n].cfg.name == n && services[n].state in {Running, Unclear})
      && forall t :: t in started && t != s && t.state == Running ==>
           t.cfg.name in services && services[t.cfg.name] == t
    }

    /** Valid, but for one name whose service has been closed and its replacement started. */
    ghost predicate Handing(s: Service, name: Name)
      reads this, dir, started, s
    {
      && dir.Valid()
      && s in started && s.state == Running && (s.cfg.name != name ==> s.cfg.name !in services)
      && (forall n :: n in services ==> services[n] in started && services[n].cfg.name == n)
      && name in services && services[name].state == Closed
      && (forall n :: n in services && n != name ==> services[n].state in {Running, Unclear})
      && forall t :: t in started && t != s && t.state == Running ==>
           t.cfg.name in services && services[t.cfg.name] == t
    }

    ghost function Now(): View reads this, dir { View(Configs(services), dir.files) }

    constructor (dir: Directory)
      requires dir.Valid()
      ensures Valid() && this.dir == dir && services == map[] && started == {}
    {
      this.dir, services, started := dir, map[], {};
    }

    /** A disabled service can always be prepared, any other if the system lets us. */
    method Prepare(cfg: Config, prepares: bool) returns (s: Service?)
      ensures s != null <==> prepares || cfg.disabled
      ensures s != null ==> fresh(s) && s.cfg == cfg && s.state == Prepared && s !in started
    {
      if !prepares && !cfg.disabled { return null; }
      s := new Service(cfg);
    }

    /** Start a prepared service. */
    method Start(s: Service, runs: bool) returns (ok: bool)
      modifies s, `started
      ensures ok <==> runs || s.cfg.disabled
      ensures started == old(started) + {s} && s.state == if ok then Running else Unclear
    {
      ok := s.Run(runs);
      started := started + {s};
    }

    /** Write the file of a service that was just started, and enter it; stop it when the file fails. */
    method Publish(s: Service, createFile: bool, sys: Verdicts) returns (err: Option<Error>)
      requires Entering(s)
      modifies `services, dir, s
      ensures Valid()
      ensures err == (if createFile && (s.cfg.name in old(dir.files) || !sys.disk.writes || !sys.disk.movesIn)
                      then Some(FileFailed) else None)
      ensures AddOutcome(old(Now()), s.cfg, createFile, err, Now())
      ensures services == if err == None then old(services)[s.cfg.name := s] else old(services)
      ensures dir.files == if err == None && createFile then old(dir.files)[s.cfg.name := s.cfg] else old(dir.files)
      ensures s.state == if err == None then Running else if sys.closesNew || s.cfg.disabled then Closed else Unclear
    {
      hide Configs;
      ConfigsKeys(services);
      ConfigsPut(services, s.cfg.name, s);
      if createFile {
        err := dir.CreateFile(s.cfg, sys.disk);
        if err != None {
          var closed := s.Close(sys.closesNew);
          return;
        }
      }
      services := services[s.cfg.name := s];
      err := None;
    }

    /** Added, with its file if wanted, exactly when the name is new and everything that is tried succeeds;
        otherwise the error is that of the first thing that failed, and nothing has changed. */
    method AddService(config: Config, createFile: bool, now: int, newUuid: string, sys: Verdicts) returns (err: Option<Error>)
      requires Valid()
      modifies this, dir, started
      ensures Valid() && old(started) <= started
      ensures err == (if config.name in old(services) then Some(NameExists)
                      else if !sys.prepares && !config.disabled then Some(PrepareFailed)
                      else if !sys.runs && !config.disabled then Some(RunFailed)
                      else if createFile && (config.name in old(dir.files) || !sys.disk.writes || !sys.disk.movesIn)
                      then Some(FileFailed)
                      else None)
      ensures Outcome(old(Now()), Add(Normalized(config, now, newUuid), createFile), err, false, Now())
      ensures err.Some? ==> services == old(services) && dir.files == old(dir.files)
      ensures err == None ==>
                && config.name in services && services == old(services)[config.name := services[config.name]]
                && fresh(services[config.name]) && services[config.name].state == Running
                && services[config.name].cfg == Normalized(config, now, newUuid)
                && dir.files == if createFile then old(dir.files)[config.name := services[config.name].cfg]
                                else old(dir.files)
    {
      hide Configs, AddOutcome, ReplaceOutcome, DropOutcome, Normalized;
      var cfg := Normalized(config, now, newUuid);
      NotAdded(Now(), cfg, createFile);
      ConfigsKeys(services);
      if cfg.name in services { return Some(NameExists); }
      var s := Prepare(cfg, sys.prepares);
      if s == null { return Some(PrepareFailed); }
      var ok := Start(s, sys.runs);
      if !ok { return Some(RunFailed); }
      err := Publish(s, createFile, sys);
    }

    /** Bring the old service back up; cause is the error that made it necessary. */
    method Rollback(oldName: Name, oldCfg: Config, cause: Error, sys: Verdicts) returns (err: Error)
      requires Closing(oldName) && oldCfg.name == oldName && !cause.RollbackFailed?
      modifies this, started
      ensures Valid() && old(started) <= started && fresh(started - old(started))
      ensures err == if (sys.preparesOld && sys.runsOld) || oldCfg.disabled then cause else RollbackFailed(cause)
      ensures err.RollbackFailed? ==> services == old(services) - {oldName}
      ensures !err.RollbackFailed? ==>
                oldName in services && services == old(services)[oldName := services[oldName]] &&
                fresh(services[oldName]) && services[oldName].cfg == oldCfg && services[oldName].state == Running
      ensures forall n :: n in services && n != oldName ==> services[n].state == old(services[n].state)
    {
      var s := Prepare(oldCfg, sys.preparesOld);
      if s == null {
        services := services - {oldName};
        return RollbackFailed(cause);
      }
      var ok := Start(s, sys.runsOld);
      if !ok {
        services := services - {oldName};
        return RollbackFailed(cause);
      }
      services := services[oldName := s];
      err := cause;
    }

    /** Some registered service with this identity; identities need not be unique. */
    method GetServiceByUUID(uuid: string) returns (name: Option<Name>)
      ensures name == None ==> forall n :: n in services ==> services[n].cfg.uuid != uuid
      ensures name.Some? ==> name.value in services && services[name.value].cfg.uuid == uuid
    {
      var rest := services.Keys;
      while rest != {}
        invariant rest <= services.Keys
        invariant forall n :: n in services && n !in rest ==> services[n].cfg.uuid != uuid
        decreases |rest|
      {
        var n :| n in rest;
        if services[n].cfg.uuid == uuid { return Some(n); }
        rest := rest - {n};
      }
      name := None;
    }

    /** The old service is closed: start its replacement and hand over to it; undo in reverse on failure. */
    method Install(s: Service, oldName: Name, oldCfg: Config, sys: Verdicts) returns (err: Option<Error>, ghost lost: bool)
      requires Closing(oldName) && services[oldName].cfg == oldCfg
      requires s.state == Prepared && s !in started
      requires s.cfg.name != oldName ==> s.cfg.name !in services
      modifies this, dir, started, s
      ensures Valid() && old(started) <= started && fresh(started - old(started) - {s})
      ensures err == InstallError(oldCfg, s.cfg, oldName in old(dir.files), sys)
      ensures lost <==> err in {Some(FileFailed), Some(RollbackFailed(FileFailed))} && oldName in old(dir.files) &&
                        sys.disk.writes && sys.disk.backsUp && !sys.disk.putsBack
      ensures err == None ==> services == (old(services) - {oldName})[s.cfg.name := s] && s.state == Running
      ensures err.Some? && err.value.RollbackFailed? ==> services == old(services) - {oldName}
      ensures err.Some? && !err.value.RollbackFailed? ==>
                oldName in services && services == old(services)[oldName := services[oldName]] &&
                fresh(services[oldName]) && services[oldName].cfg == oldCfg && services[oldName].state == Running
      ensures FileOutcome(old(dir.files), oldName, s.cfg, err, lost, dir.files)
    {
      var ok := Start(s, sys.runs);
      if !ok {
        ghost var mid := started;
        var e := Rollback(oldName, oldCfg, RunFailed, sys);
        assert started - old(started) - {s} <= started - mid;
        return Some(e), false;
      }
      err, lost := HandOver(s, oldName, oldCfg, sys);
    }

    /** The replacement runs: replace the file, and only then the entry; stop it when the file fails. */
    method HandOver(s: Service, oldName: Name, oldCfg: Config, sys: Verdicts) returns (err: Option<Error>, ghost lost: bool)
      requires Handing(s, oldName) && services[oldName].cfg == oldCfg
      modifies this, dir, started, s
      ensures Valid() && old(started) <= started && fresh(started - old(started))
      ensures if sys.disk.writes && (oldName in old(dir.files) ==> sys.disk.backsUp) && sys.disk.movesIn then err == None
              else if (sys.preparesOld && sys.runsOld) || oldCfg.disabled then err == Some(FileFailed)
              else err == Some(RollbackFailed(FileFailed))
      ensures lost <==> err.Some? && oldName in old(dir.files) && sys.disk.writes && sys.disk.backsUp && !sys.disk.putsBack
      ensures err == None ==> services == (old(services) - {oldName})[s.cfg.name := s] && s.state == Running
      ensures err.Some? && err.value.RollbackFailed? ==> services == old(services) - {oldName}
      ensures err == Some(FileFailed) ==>
                oldName in services && services == old(services)[oldName := services[oldName]] &&
                fresh(services[oldName]) && services[oldName].cfg == oldCfg && services[oldName].state == Running
      ensures FileOutcome(old(dir.files), oldName, s.cfg, err, lost, dir.files)
    {
      ghost var aside;
      err, lost, aside := dir.ReplaceFile(oldName, s.cfg, sys.disk);
      if err != None {
        var closed := s.Close(sys.closesNew);
        var e := Rollback(oldName, oldCfg, FileFailed, sys);
        return Some(e), lost;
      }
      services := (services - {oldName})[s.cfg.name := s];
    }

    /** Replace the service registered under oldName by one built from cfg: done exactly when everything that
        is tried succeeds; otherwise the error is that of the first thing that failed, and of the rollback
        too when preparing or starting the old service fails as well. */
    method Swap(oldName: Name, cfg: Config, sys: Verdicts) returns (err: Option<Error>, ghost lost: bool)
      requires Valid() && oldName in services
      requires cfg.name != oldName ==> cfg.name !in services
      modifies this, dir, started
      ensures Valid() && old(started) <= started && fresh(started - old(started))
      ensures var was := old(services)[oldName].cfg;
              err == (if !sys.prepares && !cfg.disabled then Some(PrepareFailed)
                      else if !sys.closesOld && !was.disabled then Some(CloseFailed)
                      else if !sys.runs && !cfg.disabled
                      then Some(if (sys.preparesOld && sys.runsOld) || was.disabled
                                then RunFailed else RollbackFailed(RunFailed))
                      else if !sys.disk.writes || (oldName in old(dir.files) && !sys.disk.backsUp) || !sys.disk.movesIn
                      then Some(if (sys.preparesOld && sys.runsOld) || was.disabled
                                then FileFailed else RollbackFailed(FileFailed))
                      else None)
      ensures err == SwapError(old(services)[oldName].cfg, cfg, oldName in old(dir.files), sys)
      ensures lost <==> err in {Some(FileFailed), Some(RollbackFailed(FileFailed))} && oldName in old(dir.files) &&
                        sys.disk.writes && sys.disk.backsUp && !sys.disk.putsBack
      ensures Replaced(old(services), oldName, cfg, err, services)
      ensures err == None ==> fresh(services[cfg.name]) && services[cfg.name].state == Running
      ensures err in {Some(RunFailed), Some(FileFailed)} ==>
                fresh(services[oldName]) && services[oldName].state == Running
      ensures FileOutcome(old(dir.files), oldName, cfg, err, lost, dir.files)
    {
      lost := false;
      var current := services[oldName];
      var s := Prepare(cfg, sys.prepares);
      if s == null { return Some(PrepareFailed), false; }
      var closed := current.Close(sys.closesOld);
      if !closed { return Some(CloseFailed), false; }
      err, lost := Install(s, oldName, current.cfg, sys);
    }

    method ReplaceServiceByUUID(config: Config, sys: Verdicts) returns (err: Option<Error>, ghost oldName: Name, ghost lost: bool)
      requires Valid()
      modifies this, dir, started
      ensures Valid() && old(started) <= started && fresh(started - old(started))
      ensures err == Some(UuidUnknown) <==> forall n :: n in old(services) ==> old(services)[n].cfg.uuid != config.uuid
      ensures err == Some(UuidUnknown) ==> services == old(services) && Now() == old(Now())
      ensures err != Some(UuidUnknown) ==>
                && oldName in old(services)
                && var was := old(services)[oldName].cfg;
                   var cfg := Edited(config, was);
                   && was.uuid == config.uuid
                   && err == (if cfg.name != oldName && cfg.name in old(services) then Some(NameExists)
                              else SwapError(was, cfg, oldName in old(dir.files), sys))
                   && Outcome(old(Now()), Replace(oldName, cfg), err, lost, Now())
                   && (err != Some(NameExists) ==> Replaced(old(services), oldName, cfg, err, services))
    {
      hide Configs, Replaced, FileOutcome, AddOutcome, ReplaceOutcome, DropOutcome, SwapError;
      lost := false;
      ghost var was, files := services, dir.files;
      var found := GetServiceByUUID(config.uuid);
      if found == None { return Some(UuidUnknown), "", lost; }
      var name := found.value;
      oldName := name;
      var cfg := Edited(config, services[name].cfg);
      RefusedOutcome(services, files, name, cfg);
      if cfg.name != name && cfg.name in services { return Some(NameExists), name, lost; }
      err, lost := Swap(name, cfg, sys);
      SwapOutcome(was, files, name, cfg, err, lost, services, dir.files);
    }

    /** Switch a service on or off: a replacement by itself with the flag changed. */
    method SetServiceDisabled(name: Name, disabled: bool, sys: Verdicts) returns (err: Option<Error>, ghost lost: bool)
      requires Valid()
      modifies this, dir, started
      ensures Valid() && old(started) <= started && fresh(started - old(started))
      ensures err == Some(Unknown) <==> name !in old(services)
      ensures name !in old(services) || old(services)[name].cfg.disabled == disabled ==>
                err == (if name in old(services) then None else Some(Unknown)) && services == old(services) && Now() == old(Now())
      ensures name in old(services) && old(services)[name].cfg.disabled != disabled ==>
                var cfg := old(services)[name].cfg.(disabled := disabled);
                && err == SwapError(old(services)[name].cfg, cfg, name in old(dir.files), sys)
                && Outcome(old(Now()), Replace(name, cfg), err, lost, Now())
                && Replaced(old(services), name, cfg, err, services)
    {
      hide Configs, Replaced, FileOutcome, AddOutcome, ReplaceOutcome, DropOutcome, SwapError;
      lost := false;
      if name !in services { return Some(Unknown), lost; }
      var oldCfg := services[name].cfg;
      if oldCfg.disabled == disabled { return None, lost; }
      ghost var was, files := services, dir.files;
      var cfg := oldCfg.(disabled := disabled);
      err, lost := Swap(name, cfg, sys);
      SwapOutcome(was, files, name, cfg, err, lost, services, dir.files);
    }

    /** The first half of a removal, outside the lock: delete the file. deletes is the system's verdict. */
    method DeleteServiceFile(name: Name, deletes: bool) returns (err: Option<Error>)
      requires Valid()
      modifies dir
      ensures Valid() && err == (if name in old(dir.files) && !deletes then Some(FileFailed) else None)
      ensures Outcome(old(Now()), Unlink(name), err, false, Now())
    {
      err := dir.DeleteFile(name, deletes);
    }

    /** The second half, under the lock: close the service and drop its entry. closes is Close's verdict. */
    method DropService(name: Name, closes: bool) returns (err: Option<Error>)
      requires Valid()
      modifies this`services, started
      ensures Valid()
      ensures err == (if name in old(services) && !closes && !old(services)[name].cfg.disabled
                      then Some(CloseFailed) else None)
      ensures Outcome(old(Now()), Drop(name), err, false, Now())
      ensures services == if err == None then old(services) - {name} else old(services)
      ensures err == None && name in old(services) ==> old(services)[name].state == Closed
    {
      hide Configs, AddOutcome, ReplaceOutcome, UnlinkOutcome;
      ConfigsKeys(services);
      ConfigsDrop(services, name);
      if name !in services { return None; }
      var closed := services[name].Close(closes);
      if !closed { return Some(CloseFailed); }
      services := services - {name};
      err := None;
    }

    /** The two halves with nothing in between. */
    method RemoveService(name: Name, deletes: bool, closes: bool) returns (err: Option<Error>)
      requires Valid()
      modifies this`services, dir, started
      ensures Valid()
      ensures err == (if name in old(dir.files) && !deletes then Some(FileFailed)
                      else if name in old(services) && !closes && !old(services)[name].cfg.disabled
                      then Some(CloseFailed) else None)
      ensures dir.files == if err == Some(FileFailed) then old(dir.files) else old(dir.files) - {name}
      ensures services == if err == None then old(services) - {name} else old(services)
    {
      err := DeleteServiceFile(name, deletes);
      if err != None { return; }
      err := DropService(name, closes);
    }
  }

  /** Removal is not transactional: when Close fails, the entry stays without a file. */
  method RemovalLeavesEntry(m: Manager, name: Name)
    requires m.Valid() && name in m.services && Agree(m.Now(), name) && !m.services[name].cfg.disabled
    modifies m`services, m.dir, m.started
    ensures m.Valid() && name in m.services && name !in m.dir.files && !Agree(m.Now(), name)
  {
    var err := m.RemoveService(name, true, false);
    assert err == Some(CloseFailed);
  }

  /** Nor do its halves go together: when the service is switched off in between, every call succeeds, and
      a file stands without an entry. */
  method InterleavedRemoval(m: Manager, name: Name)
    requires m.Valid() && name in m.services && Agree(m.Now(), name) && !m.services[name].cfg.disabled
    modifies m, m.dir, m.started
    ensures m.Valid() && name !in m.services && name in m.dir.files && !Agree(m.Now(), name)
  {
    var unlinked := m.DeleteServiceFile(name, true);
    var well := Verdicts(true, true, true, true, true, true, Disk(true, true, true, true, true));
    var switched, lost := m.SetServiceDisabled(name, true, well);
    var dropped := m.DropService(name, true);
    assert unlinked == None && switched == None && dropped == None;
  }
}
