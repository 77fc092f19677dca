/** Moving a repository's server entries from the shared host configuration into the workspace one
    (apps/cognis-mcp/src/mcpConfigMigrate.ts). Any file operation, and any named step, may fail; the process may also die
    between any two changes of the disk, so every state the disk passes through is kept in a trace. */
module ConfigMigrations {
  import opened Options
  import opened MigrationPlans

  /** How one fallible action goes: `Tear` is a failure that leaves a copy half written. */
  datatype Fault = NoFault | Refuse | Tear

  class FileSystem {
    const faults: nat -> Fault
    var files: Disk
    var op: nat
    ghost var trace: seq<Disk>
    // From operation number `tail` on, when the trace had `tailAt` states, nothing was attempted but to restore: to copy
    // onto a configuration file, or to remove one.
    ghost var tail: nat
    ghost var tailAt: nat

    /** The trace ends with the disk as it is. */
    ghost predicate Valid()
      reads `files, `op, `trace, `tail, `tailAt
    {
      trace != [] && trace[|trace| - 1] == files && tail <= op && tailAt <= |trace|
    }

    /** The last attempt was none to restore. */
    ghost predicate Forward()
      reads `files, `op, `trace, `tail, `tailAt
    {
      Valid() && tail == op && tailAt == |trace|
    }

    /** No operation in this range fails. */
    ghost predicate Smooth(from: nat, to: int) { forall k :: from <= k < to ==> faults(k).NoFault? }

    constructor (files: Disk, faults: nat -> Fault)
      ensures Forward() && this.files == files && this.faults == faults && op == 0 && trace == [files]
    {
      this.files, this.faults, op, trace, tail, tailAt := files, faults, 0, [files], 0, 1;
    }

    /** A step at which an interruption may be injected. */
    method Checkpoint() returns (ok: bool)
      requires Valid()
      modifies this`op, this`tail, this`tailAt
      ensures Forward() && op == old(op) + 1 && ok == faults(old(op)).NoFault?
    {
      ok := faults(op).NoFault?;
      op := op + 1;
      tail, tailAt := op, |trace|;
    }

    method ReadJson(p: Path) returns (r: Option<Config>)
      requires Valid()
      modifies this`op, this`tail, this`tailAt
      ensures Forward() && op == old(op) + 1
      ensures r == if faults(old(op)).NoFault? then Parse(files, p) else None
    {
      var ok := Checkpoint();
      r := if ok then Parse(files, p) else None;
    }

    /** Written to a sibling and renamed: all or nothing. */
    method WriteJson(p: Path, config: Config) returns (ok: bool)
      requires Valid()
      modifies this
      ensures Forward() && op == old(op) + 1 && ok == faults(old(op)).NoFault?
      ensures files == if ok then old(files)[p := Json(config, PrintedLayout)] else old(files)
      ensures trace == if ok then old(trace) + [files] else old(trace)
    {
      ok := Checkpoint();
      if ok {
        files := files[p := Json(config, PrintedLayout)];
        trace := trace + [files];
        tailAt := |trace|;
      }
    }

    /** A byte copy passes through a half-written target, and may stop there. */
    method Copy(from: Path, to: Path) returns (ok: bool)
      requires Valid()
      modifies this
      ensures Valid() && op == old(op) + 1 && ok == (faults(old(op)).NoFault? && from in old(files))
      ensures if to.Backup? then Forward() else tail == old(tail) && tailAt == old(tailAt)
      ensures files == if ok then old(files)[to := old(files)[from]]
                       else if faults(old(op)).Tear? && from in old(files) then old(files)[to := Torn]
                       else old(files)
      ensures trace == old(trace) + if ok then [old(files)[to := Torn], files]
                                    else if faults(old(op)).Tear? && from in old(files) then [files]
                                    else []
    {
      var fault := faults(op);
      op := op + 1;
      ok := false;
      if from in files && !fault.Refuse? {
        var bytes := files[from];
        files := files[to := Torn];
        trace := trace + [files];
        if fault.NoFault? {
          files := files[to := bytes];
          trace := trace + [files];
          ok := true;
        }
      }
      if to.Backup? {
        tail, tailAt := op, |trace|;
      }
    }

    method Remove(p: Path) returns (ok: bool)
      requires Valid()
      modifies this
      ensures Valid() && op == old(op) + 1 && ok == faults(old(op)).NoFault?
      ensures if p.Backup? then Forward() else tail == old(tail) && tailAt == old(tailAt)
      ensures files == if ok then old(files) - {p} else old(files)
      ensures trace == if ok then old(trace) + [files] else old(trace)
    {
      ok := faults(op).NoFault?;
      op := op + 1;
      if ok {
        files := files - {p};
        trace := trace + [files];
      }
      if p.Backup? {
        tail, tailAt := op, |trace|;
      }
    }
  }

  datatype Plan = Plan(source: Path, destination: Path, names: seq<string>, repo: Repo)

  datatype MigrationStep = Planned | BackedUp | WroteDestination | VerifiedDestination | RemovedSource | VerifiedSource

  const AllSteps := [Planned, BackedUp, WroteDestination, VerifiedDestination, RemovedSource, VerifiedSource]

  datatype BackupRecord = BackupRecord(original: Path, backup: Path)

  // ---- What a disk holds ------------------------------------------------------------------------------

  predicate Holds(disk: Disk, p: Path, name: string, b: Block) {
    p in disk && disk[p].Json? && name in disk[p].config.ServerMap() && disk[p].config.ServerMap()[name] == b
  }

  /** Outside `touched` the disk is as it was at first, except for backups made since. */
  predicate Agrees(disk: Disk, first: Disk, touched: set<Path>) {
    && (forall p :: p in first && p !in touched ==> p in disk && disk[p] == first[p])
    && (forall p :: p in disk && p !in touched ==> p in first || p.Backup?)
  }

  /** A plan made on this disk: its names are distinct entries of a readable source. */
  predicate PlanFits(plan: Plan, first: Disk) {
    && plan.source.Live? && plan.destination.Live?
    && plan.names != [] && Distinct(plan.names)
    && plan.source in first && first[plan.source].Json?
    && (forall n :: n in plan.names ==> n in first[plan.source].config.ServerMap())
  }

  /** Every planned entry is still in the source or in the destination. */
  predicate InEither(disk: Disk, plan: Plan, first: Disk)
    requires PlanFits(plan, first)
  {
    forall n :: n in plan.names ==>
      var b := first[plan.source].config.ServerMap()[n];
      Holds(disk, plan.source, n, b) || Holds(disk, plan.destination, n, b)
  }

  /** ... or in a byte-exact backup of the source. */
  predicate Recoverable(disk: Disk, plan: Plan, first: Disk, backups: seq<BackupRecord>)
    requires PlanFits(plan, first)
  {
    || InEither(disk, plan, first)
    || exists r :: r in backups && r.original == plan.source && r.backup in disk && disk[r.backup] == first[plan.source]
  }

  predicate BackupsExact(disk: Disk, first: Disk, backups: seq<BackupRecord>) {
    forall r :: r in backups ==>
      r.original in first && r.backup !in first && r.backup.Backup? && r.backup in disk && disk[r.backup] == first[r.original]
  }

  /** The two disks hold the same configuration files. */
  ghost predicate SameLive(d: Disk, e: Disk) {
    forall p: Path :: p.Live? ==> (p in d <==> p in e) && (p in d && p in e ==> d[p] == e[p])
  }

  lemma {:induction false} SameLiveWithout(d: Disk, e: Disk, p: Path)
    requires SameLive(d, e) && p.Backup?
    ensures SameLive(d - {p}, e)
  {
  }

  /** Writing one configuration file adds it to those touched, and leaves backups alone. */
  lemma {:induction false} WritingOne(disk: Disk, first: Disk, touched: set<Path>, backups: seq<BackupRecord>, p: Path,
                                      content: Content)
    requires Agrees(disk, first, touched - {p}) && BackupsExact(disk, first, backups) && p.Live? && p in touched
    ensures Agrees(disk[p := content], first, touched) && BackupsExact(disk[p := content], first, backups)
  {
  }

  function Originals(backups: seq<BackupRecord>): set<Path> { set r | r in backups :: r.original }

  function BackupPaths(backups: seq<BackupRecord>): set<Path> { set r | r in backups :: r.backup }

  lemma {:induction false} BackupPathsTail(backups: seq<BackupRecord>, i: nat)
    requires i < |backups|
    ensures BackupPaths(backups[i..]) <= {backups[i].backup} + BackupPaths(backups[i + 1..])
  {
    assert backups[i..] == [backups[i]] + backups[i + 1..];
  }

  lemma {:induction false} AgreesWidens(disk: Disk, first: Disk, touched: set<Path>)
    requires Agrees(disk, first, {})
    ensures Agrees(disk, first, touched) && first.Keys <= disk.Keys
  {
  }

  lemma {:induction false} AgreesInEither(disk: Disk, plan: Plan, first: Disk)
    requires PlanFits(plan, first)
    requires Agrees(disk, first, {}) || (plan.source != plan.destination && Agrees(disk, first, {plan.destination}))
    ensures InEither(disk, plan, first)
  {
  }

  /** Backup names of one file and timestamp are tried in turn until one is free. */
  method FreshBackupPath(disk: Disk, name: string, timestamp: string) returns (p: Path)
    ensures p.Backup? && p.name == name && p.timestamp == timestamp && p !in disk
    ensures forall k :: 0 <= k < p.suffix ==> Path.Backup(name, timestamp, k) in disk
  {
    var suffix := 0;
    ghost var taken: set<Path> := {};
    while Path.Backup(name, timestamp, suffix) in disk
      invariant taken == set k | 0 <= k < suffix :: Path.Backup(name, timestamp, k)
      invariant taken <= disk.Keys
      decreases disk.Keys - taken
    {
      taken := taken + {Path.Backup(name, timestamp, suffix)};
      suffix := suffix + 1;
    }
    p := Path.Backup(name, timestamp, suffix);
  }

  ghost predicate Faultless(faults: nat -> Fault) { forall k :: faults(k).NoFault? }

  /** One run of the routine over one plan. `first` is the disk the plan was made on. */
  class Migration {
    const fs: FileSystem
    const plan: Plan
    ghost const first: Disk
    var backups: seq<BackupRecord>
    var backupByOriginal: map<Path, Path>
    var created: set<Path>
    var reached: nat  // how many of the named steps are on record
    var wroteDestination: bool
    var removedFromSource: bool
    var rolledBack: bool

    constructor (fs: FileSystem, plan: Plan)
      requires PlanFits(plan, fs.files) && fs.Valid()
      ensures this.fs == fs && this.plan == plan && first == fs.files && Valid({})
      ensures backups == [] && created == {} && reached == 0 && backupByOriginal == map[]
      ensures !wroteDestination && !removedFromSource && !rolledBack
    {
      this.fs, this.plan, first := fs, plan, fs.files;
      backups, backupByOriginal, created, reached := [], map[], {}, 0;
      wroteDestination, removedFromSource, rolledBack := false, false, false;
    }

    ghost predicate Valid(touched: set<Path>)
      reads `backups, `backupByOriginal, `created, fs`files
    {
      && PlanFits(plan, first)
      && BackupsExact(fs.files, first, backups)
      && (forall o :: o in backupByOriginal ==> BackupRecord(o, backupByOriginal[o]) in backups)
      && (forall r :: r in backups ==> r.original in backupByOriginal)
      && backupByOriginal.Keys <= {plan.source, plan.destination}
      && created <= {plan.destination} - first.Keys
      && Agrees(fs.files, first, touched)
    }

    /** Since the k-th state, no state of the disk has lost a planned entry. */
    ghost predicate SafeSince(k: nat)
      requires PlanFits(plan, first)
      reads fs`trace
    {
      k <= |fs.trace| && forall i :: k <= i < |fs.trace| ==> InEither(fs.trace[i], plan, first)
    }

    /** Every file beyond those present at first is the destination or a recorded backup. */
    ghost predicate Accounted()
      reads `backups, fs`files
    {
      fs.files.Keys <= first.Keys + {plan.destination} + BackupPaths(backups)
    }

    /** Every file that was there at first has a copy. */
    ghost predicate Covered()
      reads `backupByOriginal
    {
      plan.source in backupByOriginal && (plan.destination in first ==> plan.destination in backupByOriginal)
    }

    lemma {:induction false} CoveredOriginals()
      requires Valid({plan.source, plan.destination}) && Covered()
      ensures plan.source in Originals(backups)
      ensures plan.destination in first ==> plan.destination in Originals(backups)
    {
      assert BackupRecord(plan.source, backupByOriginal[plan.source]) in backups;
    }

    /** Records a named step, after which an interruption may be injected. */
    method Mark(step: MigrationStep) returns (ok: bool)
      requires reached < 6 && step == AllSteps[reached] && fs.Valid()
      modifies `reached, fs`op, fs`tail, fs`tailAt
      ensures fs.Forward() && fs.op == old(fs.op) + 1
      ensures ok == fs.faults(old(fs.op)).NoFault? && reached == old(reached) + 1
    {
      reached := reached + 1;
      ok := fs.Checkpoint();
    }

    /** A timestamped byte copy of one file. */
    method BackUp(original: Path, timestamp: string) returns (ok: bool)
      requires Valid({}) && fs.Forward() && original in {plan.source, plan.destination} && original in first
      modifies this`backups, this`backupByOriginal, fs
      ensures Valid({})
      ensures old(fs.trace) <= fs.trace && SafeSince(old(|fs.trace|)) && fs.Forward()
      ensures backupByOriginal.Keys == old(backupByOriginal.Keys) + if ok then {original} else {}
      ensures ok && old(Accounted()) ==> Accounted()
      ensures fs.op == old(fs.op) + 1 && ok == fs.faults(old(fs.op)).NoFault?
    {
      var copy := FreshBackupPath(fs.files, original.name, timestamp);
      ok := CopyAside(original, copy);
      if ok {
        hide Agrees, BackupsExact;
        backupByOriginal := backupByOriginal[original := copy];
        backups := backups + [BackupRecord(original, copy)];
        assert BackupRecord(original, copy) in backups;
      }
    }

    method CopyAside(original: Path, copy: Path) returns (ok: bool)
      requires Valid({}) && fs.Forward() && original in first && copy.Backup? && copy !in fs.files
      modifies fs
      ensures Valid({})
      ensures old(fs.trace) <= fs.trace && SafeSince(old(|fs.trace|)) && fs.Forward()
      ensures fs.files.Keys <= old(fs.files.Keys) + {copy}
      ensures ok ==> BackupsExact(fs.files, first, backups + [BackupRecord(original, copy)])
      ensures fs.op == old(fs.op) + 1 && ok == fs.faults(old(fs.op)).NoFault?
    {
      ghost var before := fs.files;
      WritingBackup(before, copy, Torn);
      assert before[original] == first[original] by { OriginalKept(before, original); }
      WritingBackup(before, copy, before[original]);
      hide InEither, Agrees, BackupsExact;
      ok := fs.Copy(original, copy);
    }

    lemma {:induction false} OriginalKept(disk: Disk, original: Path)
      requires Agrees(disk, first, {}) && original in first
      ensures original in disk && disk[original] == first[original]
    {
    }

    lemma {:induction false} StillThere(disk: Disk, original: Path)
      requires PlanFits(plan, first) && Agrees(disk, first, {}) && original in {plan.source, plan.destination}
      ensures original in disk <==> original in first
    {
    }

    lemma {:induction false} WritingBackup(disk: Disk, p: Path, content: Content)
      requires PlanFits(plan, first) && Agrees(disk, first, {}) && p.Backup? && p !in disk
      requires BackupsExact(disk, first, backups)
      ensures Agrees(disk[p := content], first, {}) && InEither(disk[p := content], plan, first)
      ensures BackupsExact(disk[p := content], first, backups)
      ensures forall o :: o in first && content == first[o] ==>
        BackupsExact(disk[p := content], first, backups + [BackupRecord(o, p)])
      ensures first.Keys <= disk.Keys
    {
      AgreesInEither(disk[p := content], plan, first);
    }

    /** Step 2: copies of whichever of the two files exist. */
    method BackUpAll(timestamp: string) returns (ok: bool)
      requires Valid({}) && fs.Forward() && backupByOriginal == map[] && Accounted()
      modifies this`backups, this`backupByOriginal, fs
      ensures Valid({})
      ensures old(fs.trace) <= fs.trace && SafeSince(old(|fs.trace|)) && fs.Forward() && old(fs.op) <= fs.op
      ensures ok ==> Accounted() && plan.source in backupByOriginal
      ensures ok && plan.destination in first ==> plan.destination in backupByOriginal
      ensures plan.destination in backupByOriginal ==> plan.source in backupByOriginal
      ensures (ok <==> fs.Smooth(old(fs.op), fs.op)) && fs.Smooth(old(fs.op), fs.op - 1)
    {
      hide InEither, BackupsExact, Agrees;
      var originals := [plan.source, plan.destination];
      for i := 0 to 2
        invariant Valid({}) && fs.Forward() && old(fs.op) <= fs.op
        invariant old(fs.trace) <= fs.trace && SafeSince(old(|fs.trace|))
        invariant Accounted() && fs.Smooth(old(fs.op), fs.op)
        invariant i == 0 ==> backupByOriginal == map[]
        invariant i > 0 ==> plan.source in backupByOriginal
        invariant i > 1 && plan.destination in first ==> plan.destination in backupByOriginal
      {
        assert originals[i] in {plan.source, plan.destination};
        StillThere(fs.files, originals[i]);
        if originals[i] in fs.files {
          ok := BackUp(originals[i], timestamp);
          if !ok {
            return;
          }
        }
      }
      ok := true;
    }

    ghost function SourceConfig(): Config
      requires PlanFits(plan, first)
    {
      first[plan.source].config
    }

    /** What the destination holds once it is written. */
    ghost function Joined(): Content
      requires PlanFits(plan, first) && Parse(first, plan.destination).Some?
    {
      Json(Merged(SourceConfig(), Parse(first, plan.destination).value, Names(plan.names)), PrintedLayout)
    }

    /** What the source holds once the entries are removed. */
    ghost function Reduced(): Content
      requires PlanFits(plan, first)
    {
      Json(Without(SourceConfig(), Names(plan.names)), PrintedLayout)
    }

    ghost predicate AllAcceptable()
      requires PlanFits(plan, first)
    {
      forall n :: n in plan.names ==> Acceptable(plan.repo, SourceConfig().ServerMap()[n])
    }

    ghost predicate DestinationJoined()
      requires PlanFits(plan, first)
      reads fs`files
    {
      Parse(first, plan.destination).Some? && plan.destination in fs.files && fs.files[plan.destination] == Joined()
    }

    /** Steps 3 and 4: parse both files and write the entries into the destination. */
    method WriteDestination() returns (source: Option<Config>)
      requires Valid({}) && fs.Forward()
      modifies this`created, this`wroteDestination, fs
      ensures Valid({plan.destination})
      ensures fs.Forward() && old(fs.op) <= fs.op && old(fs.trace) <= fs.trace && SafeSince(old(|fs.trace|))
      ensures source.Some? ==>
        && source.value == SourceConfig()
        && Parse(first, plan.destination).Some? && fs.files == old(fs.files)[plan.destination := Joined()]
        && DestinationJoined() && wroteDestination
      ensures created <= old(created) + {plan.destination}
      ensures source.None? ==> fs.files == old(fs.files) && wroteDestination == old(wroteDestination)
      ensures source.Some? && plan.destination !in first ==> plan.destination in created
      ensures source.Some? <==> fs.Smooth(old(fs.op), fs.op) && Parse(first, plan.destination).Some?
      ensures fs.Smooth(old(fs.op), fs.op - 1)
    {
      hide InEither, MigrationPlans.Merged;
      var sourceCfg := fs.ReadJson(plan.source);
      if sourceCfg.None? {
        return None;
      }
      var existedBefore := plan.destination in fs.files;
      var destCfg := fs.ReadJson(plan.destination);
      if destCfg.None? {
        return None;
      }
      var newCfg := MergeEntries(sourceCfg.value, destCfg.value);
      var ok := StoreDestination(newCfg, existedBefore);
      return if ok then sourceCfg else None;
    }

    method StoreDestination(newCfg: Config, existedBefore: bool) returns (ok: bool)
      requires Valid({}) && fs.Forward() && existedBefore == (plan.destination in fs.files)
      requires Parse(first, plan.destination).Some?
      requires newCfg == Merged(SourceConfig(), Parse(first, plan.destination).value, Names(plan.names))
      modifies this`created, this`wroteDestination, fs
      ensures Valid({plan.destination})
      ensures fs.Forward() && old(fs.trace) <= fs.trace && SafeSince(old(|fs.trace|))
      ensures fs.files == if ok then old(fs.files)[plan.destination := Joined()] else old(fs.files)
      ensures created == old(created) + if existedBefore then {} else {plan.destination}
      ensures if ok then wroteDestination else wroteDestination == old(wroteDestination)
      ensures fs.op == old(fs.op) + 1 && ok == fs.faults(old(fs.op)).NoFault?
    {
      hide InEither, MigrationPlans.Merged, Agrees, BackupsExact;
      assert {plan.destination} - {plan.destination} == {};
      WritingOne(fs.files, first, {plan.destination}, backups, plan.destination, Json(newCfg, PrintedLayout));
      AgreesWidens(fs.files, first, {plan.destination});
      if !existedBefore {
        created := created + {plan.destination};
      }
      ghost var before := fs.files;
      JoinedIsSafe(before[plan.destination := Json(newCfg, PrintedLayout)], Parse(first, plan.destination).value);
      ok := fs.WriteJson(plan.destination, newCfg);
      if ok {
        wroteDestination := true;
      }
    }

    method MergeEntries(source: Config, destination: Config) returns (merged: Config)
      requires forall n :: n in plan.names ==> n in source.ServerMap()
      ensures merged == Merged(source, destination, Names(plan.names))
    {
      var sourceServers, destServers := source.ServerMap(), destination.ServerMap();
      for i := 0 to |plan.names|
        invariant destServers.Keys == destination.ServerMap().Keys + Names(plan.names[..i])
        invariant forall n :: n in destServers ==>
          destServers[n] == if n in Names(plan.names[..i]) then sourceServers[n] else destination.ServerMap()[n]
      {
        var name := plan.names[i];
        assert Names(plan.names[..i + 1]) == Names(plan.names[..i]) + {name};
        destServers := destServers[name := sourceServers[name]];
      }
      assert plan.names[..|plan.names|] == plan.names;
      merged := destination.(servers := Some(destServers));
      assert Names(plan.names) <= sourceServers.Keys;
      assert destServers == Merged(source, destination, Names(plan.names)).ServerMap();
    }

    lemma {:induction false} JoinedIsSafe(disk: Disk, destination: Config)
      requires PlanFits(plan, first)
      requires plan.destination in disk
      requires disk[plan.destination] == Json(Merged(SourceConfig(), destination, Names(plan.names)), PrintedLayout)
      ensures InEither(disk, plan, first)
    {
      forall n | n in plan.names
        ensures Holds(disk, plan.destination, n, SourceConfig().ServerMap()[n])
      {
        assert n in Names(plan.names);
      }
    }

    /** Step 5: read the destination back and check every moved entry. */
    method VerifyDestination() returns (ok: bool)
      requires PlanFits(plan, first) && DestinationJoined() && fs.Forward()
      modifies fs`op, fs`tail, fs`tailAt
      ensures fs.Forward() && fs.op == old(fs.op) + 1
      ensures ok <==> fs.faults(old(fs.op)).NoFault? && AllAcceptable()
    {
      hide Acceptable, EnvMatchesRepo;
      var verifyCfg := fs.ReadJson(plan.destination);
      if verifyCfg.None? {
        return false;
      }
      var verifyServers := verifyCfg.value.ServerMap();
      for i := 0 to |plan.names|
        invariant fs.Forward() && fs.op == old(fs.op) + 1
        invariant forall n :: n in plan.names[..i] ==> Acceptable(plan.repo, SourceConfig().ServerMap()[n])
      {
        var name := plan.names[i];
        assert name in Names(plan.names);
        assert verifyServers[name] == SourceConfig().ServerMap()[name];
        var block := verifyServers[name];
        AcceptableIff(plan.repo, block);
        if block.NullBlock? {
          return false;
        }
        if Truthy(Lookup(block.env, "COGNIS_DB_PATH")) && !EnvMatchesRepo(plan.repo, block.env) {
          return false;
        }
      }
      ok := true;
    }

    /** Step 6: only now remove the entries from the source. */
    method RemoveFromSource(source: Config) returns (ok: bool)
      requires Valid({plan.destination}) && fs.Forward() && source == SourceConfig() && DestinationJoined()
      modifies this`removedFromSource, fs
      ensures Valid({plan.source, plan.destination})
      ensures fs.Forward() && old(fs.trace) <= fs.trace
      ensures plan.source != plan.destination ==> SafeSince(old(|fs.trace|))
      ensures fs.files == if ok then old(fs.files)[plan.source := Reduced()] else old(fs.files)
      ensures removedFromSource == (ok || old(removedFromSource))
      ensures fs.op == old(fs.op) + 1 && ok == fs.faults(old(fs.op)).NoFault?
    {
      var servers := source.ServerMap();
      var removedAny := false;
      for i := 0 to |plan.names|
        invariant servers == source.ServerMap() - Names(plan.names[..i])
        invariant removedAny <==> i > 0
      {
        var name := plan.names[i];
        assert name !in Names(plan.names[..i]) by {
          assert forall j :: 0 <= j < i ==> plan.names[j] != name;
        }
        assert Names(plan.names[..i + 1]) == Names(plan.names[..i]) + {name};
        if name in servers {
          servers := servers - {name};
          removedAny := true;
        }
      }
      assert plan.names[..|plan.names|] == plan.names;
      var newCfg := source.(servers := Some(servers));
      ghost var before := fs.files;
      if plan.source != plan.destination {
        JoinedIsSafe(before[plan.source := Reduced()], Parse(first, plan.destination).value);
      }
      ok := fs.WriteJson(plan.source, newCfg);
      if ok {
        removedFromSource := removedAny;
      }
    }

    /** The source must no longer advertise the entries. */
    method VerifySource() returns (ok: bool)
      requires PlanFits(plan, first) && fs.Forward() && plan.source in fs.files && fs.files[plan.source] == Reduced()
      modifies fs`op, fs`tail, fs`tailAt
      ensures fs.Forward()
      ensures fs.op == old(fs.op) + 1 && ok == fs.faults(old(fs.op)).NoFault?
    {
      var sourceCfg := fs.ReadJson(plan.source);
      if sourceCfg.None? {
        return false;
      }
      for i := 0 to |plan.names| {
        assert plan.names[i] in Names(plan.names);
        if plan.names[i] in sourceCfg.value.ServerMap() {
          return false;
        }
      }
      ok := true;
    }

    /** Every touched file is put back from its copy, or removed if this run created it; each on a best-effort basis,
        the destination first. */
    method Rollback()
      requires Valid({plan.source, plan.destination}) && fs.Valid()
      requires
        plan.source in backupByOriginal
        || (Agrees(fs.files, first, {}) && created == {} && plan.destination !in backupByOriginal)
      requires plan.destination in backupByOriginal || plan.destination in created || Agrees(fs.files, first, {})
      modifies this`rolledBack, fs
      ensures Valid({plan.source, plan.destination}) && rolledBack
      ensures old(fs.trace) <= fs.trace && fs.Valid() && fs.tail == old(fs.tail) && fs.tailAt == old(fs.tailAt)
      ensures forall i :: old(|fs.trace|) <= i < |fs.trace| ==> Recoverable(fs.trace[i], plan, first, backups)
      ensures (forall k :: old(fs.op) <= k < fs.op ==> fs.faults(k).NoFault?) ==> Agrees(fs.files, first, {})
    {
      var originals := [plan.destination, plan.source];
      for i := 0 to 2
        invariant Valid({plan.source, plan.destination}) && fs.Valid()
        invariant old(fs.trace) <= fs.trace && old(fs.op) <= fs.op
        invariant fs.tail == old(fs.tail) && fs.tailAt == old(fs.tailAt)
        invariant forall j :: old(|fs.trace|) <= j < |fs.trace| ==> Recoverable(fs.trace[j], plan, first, backups)
        invariant plan.source !in backupByOriginal ==> fs.files == old(fs.files)
        invariant i == 0 ==> fs.files == old(fs.files)
        invariant i == 1 && (forall k :: old(fs.op) <= k < fs.op ==> fs.faults(k).NoFault?) ==>
          Agrees(fs.files, first, {plan.source})
        invariant i == 2 && (forall k :: old(fs.op) <= k < fs.op ==> fs.faults(k).NoFault?) ==>
          Agrees(fs.files, first, {})
      {
        RestoreOne(originals[i]);
      }
      rolledBack := true;
    }

    method RestoreOne(original: Path)
      requires Valid({plan.source, plan.destination}) && fs.Valid() && original in {plan.source, plan.destination}
      requires plan.source !in backupByOriginal ==> created == {} && plan.destination !in backupByOriginal
      modifies fs
      ensures Valid({plan.source, plan.destination})
      ensures old(fs.trace) <= fs.trace && old(fs.op) <= fs.op
      ensures fs.Valid() && fs.tail == old(fs.tail) && fs.tailAt == old(fs.tailAt)
      ensures forall i :: old(|fs.trace|) <= i < |fs.trace| ==> Recoverable(fs.trace[i], plan, first, backups)
      ensures forall p :: p != original ==>
        (p in fs.files <==> p in old(fs.files)) && (p in fs.files ==> fs.files[p] == old(fs.files)[p])
      ensures original !in backupByOriginal && original !in created ==> fs.files == old(fs.files)
      ensures original in backupByOriginal || original in created ==>
        (forall k :: old(fs.op) <= k < fs.op ==> fs.faults(k).NoFault?) ==>
        (original in fs.files <==> original in first) && (original in first ==> fs.files[original] == first[original])
    {
      if original in backupByOriginal {
        var record := BackupRecord(original, backupByOriginal[original]);
        assert record in backups;
        var _ := fs.Copy(record.backup, original);
      } else if original in created {
        var _ := fs.Remove(original);
      }
    }

    /** The try block up to the backups. */
    method Prepare(timestamp: string) returns (ok: bool)
      requires Valid({}) && fs.Valid() && backupByOriginal == map[] && Accounted() && reached == 0
      modifies this`backups, this`backupByOriginal, this`reached, fs
      ensures Valid({}) && fs.Forward() && old(fs.op) < fs.op && old(fs.trace) <= fs.trace && SafeSince(old(|fs.trace|))
      ensures reached <= 2
      ensures plan.destination in backupByOriginal ==> plan.source in backupByOriginal
      ensures (ok ==> reached == 2 && Accounted()) && (reached == 2 ==> Covered())
      ensures (ok <==> fs.Smooth(old(fs.op), fs.op)) && fs.Smooth(old(fs.op), fs.op - 1)
    {
      hide InEither, BackupsExact, Agrees;
      ok := Mark(Planned);
      if ok {
        ok := BackUpAll(timestamp);
      }
      if ok {
        ok := Mark(BackedUp);
      }
    }

    /** From the destination being written to it being verified. */
    method Fill() returns (source: Option<Config>)
      requires Valid({}) && fs.Forward() && Accounted() && reached == 2
      requires Covered() && !wroteDestination
      modifies this`created, this`wroteDestination, this`reached, fs
      ensures Valid({plan.destination}) && fs.Forward() && old(fs.op) <= fs.op && Accounted()
      ensures old(fs.trace) <= fs.trace && SafeSince(old(|fs.trace|))
      ensures 2 <= reached <= 4 && (wroteDestination <==> reached >= 3)
      ensures plan.destination in backupByOriginal || plan.destination in created || Agrees(fs.files, first, {})
      ensures source.Some? ==> plan.destination in backupByOriginal || plan.destination in created
      ensures source.Some? ==>
        reached == 4 && source.value == SourceConfig() && DestinationJoined() && wroteDestination && AllAcceptable()
      ensures source.Some? <==> fs.Smooth(old(fs.op), fs.op) && Parse(first, plan.destination).Some? && AllAcceptable()
      ensures fs.Smooth(old(fs.op), fs.op - 1)
    {
      hide InEither, BackupsExact;
      source := WriteDestination();
      if source.None? {
        return;
      }
      var ok := ConfirmDestination();
      if !ok {
        source := None;
      }
    }

    method ConfirmDestination() returns (ok: bool)
      requires PlanFits(plan, first) && DestinationJoined() && fs.Forward() && reached == 2
      modifies this`reached, fs`op, fs`tail, fs`tailAt
      ensures fs.Forward() && old(fs.op) <= fs.op && 3 <= reached <= 4
      ensures ok ==> reached == 4
      ensures ok <==> fs.Smooth(old(fs.op), fs.op) && AllAcceptable()
      ensures fs.Smooth(old(fs.op), fs.op - 1)
    {
      hide AllAcceptable;
      ok := Mark(WroteDestination);
      if ok {
        ok := VerifyDestination();
      }
      if ok {
        ok := Mark(VerifiedDestination);
      }
    }

    /** From the destination being verified to the end of the try block. */
    method Reduce(source: Config) returns (ok: bool)
      requires Valid({plan.destination}) && fs.Forward() && Accounted() && reached == 4 && !removedFromSource
      requires source == SourceConfig() && DestinationJoined()
      modifies this`removedFromSource, this`reached, fs
      ensures Valid({plan.source, plan.destination}) && fs.Forward() && old(fs.op) <= fs.op && Accounted()
      ensures old(fs.trace) <= fs.trace
      ensures plan.source != plan.destination ==> SafeSince(old(|fs.trace|))
      ensures 4 <= reached <= 6 && (removedFromSource <==> reached >= 5)
      ensures ok ==> reached == 6 && removedFromSource && plan.source in fs.files && fs.files[plan.source] == Reduced()
      ensures ok && plan.source != plan.destination ==> DestinationJoined()
      ensures (ok <==> fs.Smooth(old(fs.op), fs.op)) && fs.Smooth(old(fs.op), fs.op - 1)
    {
      hide InEither, Agrees, BackupsExact;
      ok := RemoveFromSource(source);
      if ok {
        ok := ConfirmSource();
      }
    }

    method ConfirmSource() returns (ok: bool)
      requires PlanFits(plan, first) && plan.source in fs.files && fs.files[plan.source] == Reduced()
      requires fs.Forward() && reached == 4
      modifies this`reached, fs`op, fs`tail, fs`tailAt
      ensures fs.Forward() && old(fs.op) <= fs.op && 5 <= reached <= 6
      ensures ok ==> reached == 6
      ensures (ok <==> fs.Smooth(old(fs.op), fs.op)) && fs.Smooth(old(fs.op), fs.op - 1)
    {
      ok := Mark(RemovedSource);
      if ok {
        ok := VerifySource();
      }
      if ok {
        ok := Mark(VerifiedSource);
      }
    }

    /** The try block up to the verified destination. */
    method Advance(timestamp: string) returns (source: Option<Config>)
      requires Valid({}) && fs.Valid() && backupByOriginal == map[] && Accounted() && reached == 0 && created == {}
      requires !wroteDestination
      modifies this`backups, this`backupByOriginal, this`created, this`reached, this`wroteDestination, fs
      ensures Valid({plan.destination}) && fs.Forward() && old(fs.op) < fs.op
      ensures old(fs.trace) <= fs.trace && SafeSince(old(|fs.trace|))
      ensures reached <= 4 && (reached >= 2 ==> Covered()) && (wroteDestination <==> reached >= 3)
      ensures
        plan.source in backupByOriginal
        || (Agrees(fs.files, first, {}) && created == {} && plan.destination !in backupByOriginal)
      ensures plan.destination in backupByOriginal || plan.destination in created || Agrees(fs.files, first, {})
      ensures source.Some? ==>
        && reached == 4 && source.value == SourceConfig() && wroteDestination && Accounted()
        && DestinationJoined() && AllAcceptable() && plan.source in backupByOriginal
        && (plan.destination in backupByOriginal || plan.destination in created)
      ensures source.Some? <==> fs.Smooth(old(fs.op), fs.op) && Parse(first, plan.destination).Some? && AllAcceptable()
      ensures fs.Smooth(old(fs.op), fs.op - 1)
    {
      hide InEither, BackupsExact;
      var ok := Prepare(timestamp);
      if !ok {
        return None;
      }
      source := Fill();
    }

    /** The body of the try block. */
    method Forward(timestamp: string) returns (ok: bool)
      requires Valid({}) && fs.Valid() && backupByOriginal == map[] && Accounted() && reached == 0 && created == {}
      requires !wroteDestination && !removedFromSource
      modifies this`backups, this`backupByOriginal, this`created, this`reached, this`wroteDestination,
        this`removedFromSource, fs
      ensures Valid({plan.source, plan.destination}) && fs.Forward() && old(fs.op) < fs.op && old(fs.trace) <= fs.trace
      ensures plan.source != plan.destination ==> SafeSince(old(|fs.trace|))
      ensures reached <= 6 && (reached >= 2 ==> Covered())
      ensures (wroteDestination <==> reached >= 3) && (removedFromSource <==> reached >= 5)
      ensures
        plan.source in backupByOriginal
        || (Agrees(fs.files, first, {}) && created == {} && plan.destination !in backupByOriginal)
      ensures plan.destination in backupByOriginal || plan.destination in created || Agrees(fs.files, first, {})
      ensures ok ==>
        && reached == 6 && wroteDestination && removedFromSource && Accounted()
        && Parse(first, plan.destination).Some? && AllAcceptable()
        && plan.source in fs.files && fs.files[plan.source] == Reduced()
        && plan.destination in fs.files && (plan.source != plan.destination ==> DestinationJoined())
      ensures ok <==> fs.Smooth(old(fs.op), fs.op) && Parse(first, plan.destination).Some? && AllAcceptable()
      ensures fs.Smooth(old(fs.op), fs.op - 1)
    {
      hide InEither, BackupsExact;
      var source := Advance(timestamp);
      ok := source.Some?;
      if ok {
        ok := Reduce(source.value);
      }
    }

    /** On success the copies go, unless the caller wants them kept; each on a best-effort basis. */
    method DropBackups()
      requires Valid({plan.source, plan.destination}) && fs.Valid() && Accounted()
      modifies this`backups, fs
      ensures backups == [] && Agrees(fs.files, first, {plan.source, plan.destination})
        && SameLive(fs.files, old(fs.files))
      ensures old(fs.trace) <= fs.trace && fs.Valid()
      ensures forall i :: old(|fs.trace|) <= i < |fs.trace| ==> SameLive(fs.trace[i], old(fs.files))
      ensures Faultless(fs.faults) ==> fs.files.Keys <= first.Keys + {plan.destination}
    {
      for i := 0 to |backups|
        invariant Agrees(fs.files, first, {plan.source, plan.destination}) && SameLive(fs.files, old(fs.files))
        invariant old(fs.trace) <= fs.trace && backups == old(backups) && fs.Valid()
        invariant forall j :: old(|fs.trace|) <= j < |fs.trace| ==> SameLive(fs.trace[j], old(fs.files))
        invariant Faultless(fs.faults) ==>
          fs.files.Keys <= first.Keys + {plan.destination} + BackupPaths(backups[i..])
      {
        assert backups[i] in backups;
        BackupPathsTail(backups, i);
        SameLiveWithout(fs.files, old(fs.files), backups[i].backup);
        var _ := fs.Remove(backups[i].backup);
      }
      backups := [];
    }

    lemma {:induction false} SameLiveInEither(d: Disk, e: Disk)
      requires PlanFits(plan, first) && SameLive(d, e) && InEither(e, plan, first)
      ensures InEither(d, plan, first)
    {
      forall n | n in plan.names
        ensures var b := SourceConfig().ServerMap()[n]; Holds(d, plan.source, n, b) || Holds(d, plan.destination, n, b)
      {
        assert plan.source in d <==> plan.source in e;
        assert plan.destination in d <==> plan.destination in e;
      }
    }

    /** Once the source is reduced, the entries are where they were sent: unless both paths are one file, in which case
        they are nowhere. */
    lemma {:induction false} WhereTheEntriesAre(disk: Disk)
      requires PlanFits(plan, first)
      requires plan.source in disk && disk[plan.source] == Reduced()
      requires Parse(first, plan.destination).Some?
      requires plan.source != plan.destination ==> plan.destination in disk && disk[plan.destination] == Joined()
      ensures InEither(disk, plan, first) <==> plan.source != plan.destination
    {
      if plan.source != plan.destination {
        JoinedIsSafe(disk, Parse(first, plan.destination).value);
      } else {
        var n := plan.names[0];
        assert n in Names(plan.names);
        assert !Holds(disk, plan.source, n, SourceConfig().ServerMap()[n]);
      }
    }

    /** The end of a successful run. */
    method Finish(retain: bool)
      requires Valid({plan.source, plan.destination}) && fs.Valid() && Accounted()
      requires Parse(first, plan.destination).Some? && plan.source in fs.files && fs.files[plan.source] == Reduced()
      requires plan.destination in fs.files && (plan.source != plan.destination ==> DestinationJoined())
      modifies this`backups, fs
      ensures old(fs.trace) <= fs.trace && fs.Valid()
      ensures plan.source != plan.destination ==> SafeSince(old(|fs.trace|))
      ensures Agrees(fs.files, first, {plan.source, plan.destination})
      ensures plan.source in fs.files && fs.files[plan.source] == Reduced()
      ensures plan.source != plan.destination ==> DestinationJoined()
      ensures InEither(fs.files, plan, first) <==> plan.source != plan.destination
      ensures if retain then backups == old(backups) && BackupsExact(fs.files, first, backups) else backups == []
      ensures !retain && Faultless(fs.faults) ==>
        fs.files == first[plan.destination := Joined()][plan.source := Reduced()]
    {
      ghost var done := fs.files;
      WhereTheEntriesAre(done);
      if !retain {
        DropBackups();
        if plan.source != plan.destination {
          forall d | SameLive(d, done) ensures InEither(d, plan, first) { SameLiveInEither(d, done); }
        }
        assert SameLive(fs.files, done) && plan.source in done && plan.destination in done;
        WhereTheEntriesAre(fs.files);
      }
    }

    /** The whole routine after planning. On a failed run the rollback is all that was attempted from operation number
        `rollbackOp` on, when the trace had `turned` states. */
    method Run(timestamp: string, retain: bool) returns (ok: bool, ghost turned: nat, ghost rollbackOp: nat)
      requires Valid({}) && fs.Valid() && backupByOriginal == map[] && Accounted() && reached == 0 && created == {}
      requires !rolledBack && !wroteDestination && !removedFromSource
      modifies this, fs
      ensures fs.Valid() && old(fs.trace) <= fs.trace && old(|fs.trace|) <= turned <= |fs.trace|
      ensures plan.source != plan.destination ==>
        forall i :: old(|fs.trace|) <= i < turned ==> InEither(fs.trace[i], plan, first)
      ensures forall i :: turned <= i < |fs.trace| ==> Recoverable(fs.trace[i], plan, first, backups)
      ensures (rolledBack <==> !ok) && (wroteDestination <==> reached >= 3) && (removedFromSource <==> reached >= 5)
      ensures reached >= 2 && (retain || !ok) ==>
        plan.source in Originals(backups) && (plan.destination in first ==> plan.destination in Originals(backups))
      ensures !ok ==> old(fs.op) < rollbackOp == fs.tail && turned == fs.tailAt
      ensures reached <= 6
      ensures !ok ==> BackupsExact(fs.files, first, backups) && Agrees(fs.files, first, {plan.source, plan.destination})
      ensures !ok && (forall k :: rollbackOp <= k < fs.op ==> fs.faults(k).NoFault?) ==> Agrees(fs.files, first, {})
      ensures ok ==>
        && reached == 6 && turned == |fs.trace| && Parse(first, plan.destination).Some? && AllAcceptable()
        && Agrees(fs.files, first, {plan.source, plan.destination})
        && plan.source in fs.files && fs.files[plan.source] == Reduced()
        && (plan.source != plan.destination ==> DestinationJoined())
        && (InEither(fs.files, plan, first) <==> plan.source != plan.destination)
        && (if retain then BackupsExact(fs.files, first, backups) else backups == [])
      ensures ok && !retain && Faultless(fs.faults) ==>
        fs.files == first[plan.destination := Joined()][plan.source := Reduced()]
      ensures ok <==>
        fs.Smooth(old(fs.op), rollbackOp) && Parse(first, plan.destination).Some? && AllAcceptable()
      ensures fs.Smooth(old(fs.op), rollbackOp - 1)
    {
      hide AllAcceptable, BackupsExact, Agrees, Originals, Covered, Recoverable, InEither;
      ok := Forward(timestamp);
      rollbackOp, turned := fs.op, |fs.trace|;
      if reached >= 2 {
        CoveredOriginals();
      }
      if ok {
        Finish(retain);
        turned := |fs.trace|;
      } else {
        Rollback();
      }
    }
  }

  // ---- The entry point --------------------------------------------------------------------------------

  datatype Outcome = Outcome(
    ok: bool, dryRun: bool, plan: Plan, backups: seq<BackupRecord>, reached: nat,
    wroteDestination: bool, removedFromSource: bool, rolledBack: bool)

  /** The keys of a map in some order. */
  method Entries(m: map<string, Block>) returns (names: seq<string>)
    ensures Distinct(names) && Names(names) == m.Keys
  {
    names := [];
    var rest := m.Keys;
    while rest != {}
      invariant Distinct(names) && rest <= m.Keys
      invariant forall n :: n in names <==> n in m.Keys - rest
      decreases |rest|
    {
      var n :| n in rest;
      assert n !in names;
      names, rest := names + [n], rest - {n};
    }
  }

  class Migrator {
    const fs: FileSystem
    var locks: set<set<Path>>

    constructor (fs: FileSystem)
      ensures this.fs == fs && locks == {}
    {
      this.fs, locks := fs, {};
    }

    /** Without side effects; None when the source cannot be read or the host has no workspace configuration. */
    method MakePlan(repo: Repo, source: Path, destination: Option<Path>) returns (plan: Option<Plan>)
      requires fs.Valid()
      modifies fs`op, fs`tail, fs`tailAt
      ensures fs.Valid()
      ensures plan.Some? ==>
        && destination == Some(plan.value.destination) && plan.value.source == source && plan.value.repo == repo
        && Parse(fs.files, source).Some?
        && Distinct(plan.value.names) && Names(plan.value.names) == Selected(repo, Parse(fs.files, source).value.ServerMap())
      ensures fs.op == old(fs.op) + if destination.Some? && source in fs.files then 1 else 0
      ensures plan.Some? <==> destination.Some? && Parse(fs.files, source).Some? && fs.Smooth(old(fs.op), fs.op)
    {
      if destination.None? {
        return None;
      }
      var names := [];
      if source in fs.files {
        var cfg := fs.ReadJson(source);
        if cfg.None? {
          return None;
        }
        var entries := Entries(cfg.value.ServerMap());
        names := FindRepoCognisEntries(cfg.value.ServerMap(), entries, repo);
      }
      return Some(Plan(source, destination.value, names, repo));
    }

    /** None when planning throws. A held lock, a dry run and an empty plan touch nothing; any other run is a Migration. */
    method Migrate(repo: Repo, source: Path, destination: Option<Path>, dryRun: bool, retain: bool, timestamp: string)
      returns (outcome: Option<Outcome>, ghost turned: nat, ghost rollbackOp: nat)
      requires source.Live? && (destination.Some? ==> destination.value.Live?) && fs.Valid()
      modifies this, fs
      ensures locks == old(locks) && fs.Valid()
      ensures old(fs.trace) <= fs.trace
      ensures outcome.Some? <==>
        && destination.Some? && Parse(old(fs.files), source).Some?
        && (source in old(fs.files) ==> fs.faults(old(fs.op)).NoFault?)
      ensures outcome.None? ==> fs.files == old(fs.files) && fs.trace == old(fs.trace)
      ensures outcome.Some? ==>
        && destination.Some? && Parse(old(fs.files), source).Some?
        && outcome.value.plan.source == source && destination == Some(outcome.value.plan.destination)
        && Names(outcome.value.plan.names) == Selected(repo, Parse(old(fs.files), source).value.ServerMap())
      ensures outcome.Some? && (dryRun || outcome.value.plan.names == [] || {source, destination.value} in locks) ==>
        && fs.files == old(fs.files) && fs.trace == old(fs.trace)
        && outcome.value ==
             Outcome(dryRun || outcome.value.plan.names == [], dryRun, outcome.value.plan, [], 0, false, false, false)
      ensures outcome.Some? && !dryRun && outcome.value.plan.names != [] && {source, destination.value} !in locks ==>
        var plan, o, first := outcome.value.plan, outcome.value, old(fs.files);
        var acceptable := forall n :: n in plan.names ==>
          n in Parse(first, source).value.ServerMap() && Acceptable(repo, Parse(first, source).value.ServerMap()[n]);
        && PlanFits(plan, first)
        && old(|fs.trace|) <= turned <= |fs.trace|
        && (source != plan.destination ==>
              forall i :: old(|fs.trace|) <= i < turned ==> InEither(fs.trace[i], plan, first))
        && (forall i :: turned <= i < |fs.trace| ==> Recoverable(fs.trace[i], plan, first, o.backups))
        && o.reached <= 6 && (o.ok ==> o.reached == 6) && !o.dryRun
        && (o.wroteDestination <==> o.reached >= 3) && (o.removedFromSource <==> o.reached >= 5)
        && (o.rolledBack <==> !o.ok)
        && (o.reached >= 2 && (retain || !o.ok) ==>
              source in Originals(o.backups) && (plan.destination in first ==> plan.destination in Originals(o.backups)))
        && (if retain || !o.ok then BackupsExact(fs.files, first, o.backups) else o.backups == [])
        && (!o.ok ==> old(fs.op) < rollbackOp == fs.tail && turned == fs.tailAt)
        && (!o.ok ==> Agrees(fs.files, first, {source, plan.destination}))
        && (!o.ok && (forall k :: rollbackOp <= k < fs.op ==> fs.faults(k).NoFault?) ==> Agrees(fs.files, first, {}))
        && (o.ok ==> Parse(first, plan.destination).Some? && acceptable && turned == |fs.trace|
                     && Moved(plan, first, fs.files)
                     && (InEither(fs.files, plan, first) <==> source != plan.destination))
        && (o.ok <==>
              && fs.Smooth(old(fs.op), rollbackOp) && acceptable
              && (plan.destination in first ==> first[plan.destination].Json?))
        && fs.Smooth(old(fs.op), rollbackOp - 1)
        && (o.ok && !retain && Faultless(fs.faults) ==> fs.files.Keys == first.Keys + {plan.destination})
    {
      hide InEither, Recoverable, BackupsExact, Agrees;
      turned, rollbackOp := |fs.trace|, fs.op;
      var planned := MakePlan(repo, source, destination);
      if planned.None? {
        return None, turned, rollbackOp;
      }
      var plan := planned.value;
      outcome := Some(Outcome(dryRun || plan.names == [], dryRun, plan, [], 0, false, false, false));
      var lock := {source, plan.destination};
      if dryRun || plan.names == [] || lock in locks {
        return;
      }
      assert plan.names[0] in Names(plan.names);
      forall n | n in plan.names ensures n in Parse(fs.files, source).value.ServerMap() { assert n in Names(plan.names); }
      locks := locks + {lock};
      var run := new Migration(fs, plan);
      var ok;
      ok, turned, rollbackOp := run.Run(timestamp, retain);
      locks := locks - {lock};
      outcome := Some(Outcome(ok, dryRun, plan, run.backups, run.reached, run.wroteDestination, run.removedFromSource,
                              run.rolledBack));
    }
  }

  /** The two files after a successful move; every other file as before, backups aside. */
  predicate Moved(plan: Plan, first: Disk, last: Disk)
    requires PlanFits(plan, first) && Parse(first, plan.destination).Some?
  {
    var names := Names(plan.names);
    var before := first[plan.source].config;
    && Agrees(last, first, {plan.source, plan.destination})
    && plan.source in last && last[plan.source] == Json(Without(before, names), PrintedLayout)
    && (plan.source != plan.destination ==>
          plan.destination in last &&
          last[plan.destination] == Json(Merged(before, Parse(first, plan.destination).value, names), PrintedLayout))
  }

  /** After a successful move a second migration finds nothing to do, and no key outside the plan has changed in
      either file. */
  lemma {:induction false} MovedExactly(plan: Plan, first: Disk, last: Disk, key: string)
    requires PlanFits(plan, first) && Parse(first, plan.destination).Some? && Moved(plan, first, last)
    requires Names(plan.names) == Selected(plan.repo, first[plan.source].config.ServerMap())
    requires plan.source != plan.destination
    ensures Selected(plan.repo, Parse(last, plan.source).value.ServerMap()) == {}
    ensures var s0, d0, s1, d1 := first[plan.source].config, Parse(first, plan.destination).value,
                                  last[plan.source].config, last[plan.destination].config;
      && s1.other == s0.other && d1.other == d0.other
      && (key in plan.names ==>
            && key !in s1.ServerMap() && key in d1.ServerMap() && d1.ServerMap()[key] == s0.ServerMap()[key])
      && (key !in plan.names ==>
            && Find(s1.ServerMap(), key) == Find(s0.ServerMap(), key)
            && Find(d1.ServerMap(), key) == Find(d0.ServerMap(), key))
  {
    NothingLeftToSelect(plan.repo, first[plan.source].config);
    assert key in plan.names <==> key in Names(plan.names);
  }

  function Find(m: map<string, Block>, key: string): Option<Block> { if key in m then Some(m[key]) else None }
}
