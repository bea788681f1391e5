/** The integrity service object: its loops over files, and update mode. */
module IntegrityServices {
  import opened Prelude
  import opened Integrity

  datatype Kind =
    | FileDeleted | FileModified | UnauthorizedWorker | UnauthorizedUser | UserTableModified
    | ConfigTampered | EnvPermissions | SecretsPermissions

  datatype Violation = Violation(kind: Kind, file: string, critical: bool)

  /** The actions the service writes to the activity log. */
  datatype Action =
    | BaselineEstablished | AnchorTamper | GitPullAutoUpdate | StartupTamper | BaselineVerified
    | MissingRecovered | MissingLockdown | FirstBoot | BaselineReset | BaselineFileRestored
    | ViolationInGracePeriod | ViolationFound
    | UpdateModeEntered | UpdateModeExited | DeployFailed | DeployCompleted

  predicate HasCritical(vs: seq<Violation>) {
    exists i :: 0 <= i < |vs| && vs[i].critical
  }

  lemma HasCriticalSnoc(vs: seq<Violation>, v: Violation)
    ensures HasCritical(vs + [v]) <==> HasCritical(vs) || v.critical
  {
    if HasCritical(vs) {
      var i :| 0 <= i < |vs| && vs[i].critical;
      assert (vs + [v])[i].critical;
    }
    if v.critical {
      assert (vs + [v])[|vs|].critical;
    }
  }

  /** The steps of an update after git that throw: the new baseline, the check, or the new baseline of the recovery.
      Each lists the worker directory without a handler of its own. */
  datatype Faults = Faults(resetThrows: bool, checkThrows: bool, recoveryThrows: bool)

  predicate UpdateSucceeds(gitOk: bool, faults: Faults) {
    gitOk && !faults.resetThrows && !faults.checkThrows
  }

  /** A reset that throws has already replaced the hashes in memory by those of the critical files. */
  function HalfReset(s: State, host: Host): State {
    s.(mem := s.mem.(hashes := map f | f in host.disk && f in CRITICAL_FILES :: host.disk[f]))
  }

  function TriedReset(s: State, host: Host, now: int, keys: Keys, throws: bool): State {
    if throws then HalfReset(s, host) else Reset(s, host, now, keys)
  }

  /** The state after an update, from the state in which it left git. */
  function Updated(s: State, gitOk: bool, faults: Faults, host: Host, now: int, keys: Keys): State {
    var tried := if gitOk then TriedReset(s, host, now, keys, faults.resetThrows) else s;
    if UpdateSucceeds(gitOk, faults) then Integrity.Verify(tried, host, now, keys)
    else TriedReset(tried, host, now, keys, faults.recoveryThrows)
  }

  /** What an update logs between entering and leaving update mode. */
  function UpdateEntries(s: State, gitOk: bool, faults: Faults, host: Host, now: int, keys: Keys)
    : (entries: seq<Action>)
    ensures UpdateModeEntered !in entries && UpdateModeExited !in entries
  {
    (if gitOk && !faults.resetThrows then [BaselineReset] else []) +
    if UpdateSucceeds(gitOk, faults) then CheckEntries(Reset(s, host, now, keys), host, now)
    else (if faults.recoveryThrows then [] else [BaselineReset]) + [DeployFailed]
  }

  /** An update that fails says so, and every new baseline is logged. */
  lemma UpdateLogsExactly(s: State, gitOk: bool, faults: Faults, host: Host, now: int, keys: Keys)
    ensures var entries := UpdateEntries(s, gitOk, faults, host, now, keys);
            && (DeployFailed in entries <==> !(gitOk && !faults.resetThrows && !faults.checkThrows))
            && (BaselineReset in entries <==>
                  || (gitOk && !faults.resetThrows)
                  || (!(gitOk && !faults.resetThrows && !faults.checkThrows) && !faults.recoveryThrows))
            && (gitOk && !faults.resetThrows && !faults.checkThrows ==>
                  entries == [BaselineReset] + CheckEntries(Reset(s, host, now, keys), host, now))
  {
    hide Clean, Reset;
  }

  lemma NoneCritical()
    ensures !HasCritical([])
  {
  }

  lemma HasCriticalConcat(vs: seq<Violation>, ws: seq<Violation>)
    ensures HasCritical(vs + ws) <==> HasCritical(vs) || HasCritical(ws)
  {
    if HasCritical(vs) {
      var i :| 0 <= i < |vs| && vs[i].critical;
      assert (vs + ws)[i].critical;
    }
    if HasCritical(ws) {
      var i :| 0 <= i < |ws| && ws[i].critical;
      assert (vs + ws)[|vs| + i].critical;
    }
  }

  lemma CriticalIsNotClean(mem: Memory, host: Host)
    ensures CriticalDeviation(mem, host) ==> !Clean(mem, host)
  {
  }

  /** The outcome of each git command of an update: None or false where it throws. */
  datatype GitRun = GitRun(
    remoteUrl: Option<string>, fetched: bool, refCommit: Option<string>, fetchHead: Option<string>,
    expectedCommit: Option<string>, oldHead: Option<string>, checkedOut: bool, statusRead: bool,
    newHead: Option<string>)

  datatype Status = Success | Warning | Failed

  function TargetCommit(git: GitRun): Option<string> {
    if git.refCommit.Some? then git.refCommit else git.fetchHead
  }

  /** Every step of the git part goes through and the checked-out commit is the expected one. */
  predicate GitSucceeds(git: GitRun) {
    && git.remoteUrl.Some? && git.fetched && TargetCommit(git).Some?
    && (git.expectedCommit.Some? && git.expectedCommit.value != "" ==> TargetCommit(git) == git.expectedCommit)
    && git.oldHead.Some? && git.checkedOut && git.statusRead
    && git.newHead == TargetCommit(git)
  }

  /** An update that succeeds ends on the commit that was asked for: the reference's own commit, or else the fetched
      one, and the expected one if any. When every command works and these agree, it does succeed. */
  lemma GitSucceedsExactly(git: GitRun, commit: string)
    ensures GitSucceeds(git) && git.newHead == Some(commit) ==>
              && (git.refCommit == Some(commit) || (git.refCommit == None && git.fetchHead == Some(commit)))
              && (git.expectedCommit.Some? && git.expectedCommit.value != "" ==> git.expectedCommit == Some(commit))
    ensures git.newHead == None ==> !GitSucceeds(git)
    ensures git.remoteUrl.Some? && git.fetched && git.oldHead.Some? && git.checkedOut && git.statusRead
            && git.newHead == git.refCommit == Some(commit) && git.expectedCommit in {None, Some(""), Some(commit)} ==>
              GitSucceeds(git)
    ensures !git.fetched || !git.checkedOut || !git.statusRead || git.remoteUrl.None? || git.oldHead.None? ==>
              !GitSucceeds(git)
  {
  }

  /** A check that is not clean logs a violation: as one in the grace period in the ten minutes after a reset. */
  lemma CheckLogsExactly(s: State, host: Host, now: int)
    ensures BaselineFileRestored in CheckEntries(s, host, now) <==> s.mem.hashes != map[] && s.external.Missing?
    ensures ViolationInGracePeriod in CheckEntries(s, host, now) <==>
            !Clean(s.mem, host) && s.mem.lastResetAt.Some? && s.mem.lastResetAt.value != 0
            && now - s.mem.lastResetAt.value < 600000
    ensures ViolationFound in CheckEntries(s, host, now) <==>
            !Clean(s.mem, host) && ViolationInGracePeriod !in CheckEntries(s, host, now)
  {
    hide Clean;
  }

  /** What a distrusted file leaves behind: lockdown, and the known-good baseline if its anchor is in order. */
  function Distrusted(s: State, keys: Keys): State {
    if s.external.Readable? && !(s.anchor.Some? && AnchorOf(keys, s.external.baseline) != s.anchor) then
      var b := s.external.baseline;
      s.(lockdown := true,
         mem := s.mem.(hashes := b.hashes,
                       userCount := if b.userCount != 0 then b.userCount else s.mem.userCount,
                       userHash := if b.userHash.Some? then b.userHash else s.mem.userHash))
    else s.(lockdown := true)
  }

  /** Startup trusts what it finds and saves it, or distrusts it. */
  lemma EstablishIsTrust(s: State, host: Host, now: int, keys: Keys)
    ensures var observed := s.(mem := Observe(host));
            Establish(s, host, now, keys)
            == if Trusts(observed, host, keys) then Save(observed, host, now, keys) else Distrusted(observed, keys)
    ensures FileEntries(s.(mem := Observe(host)), host, keys) == FileEntries(s, host, keys)
  {
    hide AnyTampered, GitMoved, AnchorOf, Save, Snapshot, Lookup, ComparisonEntries;
  }

  /** What startup logs. */
  function StartupEntries(s: State, host: Host, keys: Keys): seq<Action> {
    [BaselineEstablished] + FileEntries(s, host, keys)
  }

  function FileEntries(s: State, host: Host, keys: Keys): seq<Action> {
    match s.external
    case Readable(b) => ComparisonEntries(b, s.anchor, host, keys)
    case Garbled => []
    case Missing => if !(host.dbExists && host.userCount > 0 && s.anchor.Some?) then [FirstBoot]
                    else if host.recentAdminReset then [MissingRecovered, FirstBoot] else [MissingLockdown]
  }

  function ComparisonEntries(b: Baseline, anchor: Option<Hash>, host: Host, keys: Keys): seq<Action> {
    if anchor.Some? && AnchorOf(keys, b) != anchor then [AnchorTamper]
    else if AnyTampered(b, host) && !GitMoved(b, host) then [StartupTamper]
    else (if AnyTampered(b, host) then [GitPullAutoUpdate] else []) + [BaselineVerified]
  }

  /** Every startup that locks down says why, and one that accepts changed files too. */
  lemma StartupIsLogged(s: State, host: Host, now: int, keys: Keys)
    ensures var log := StartupEntries(s, host, keys);
            && (!Trusts(s, host, keys) <==> AnchorTamper in log || StartupTamper in log || MissingLockdown in log)
            && (GitPullAutoUpdate in log ==> s.external.Readable? && AnyTampered(s.external.baseline, host))
            && (MissingLockdown in log || MissingRecovered in log || FirstBoot in log <==> s.external.Missing?)
  {
    hide AnyTampered, GitMoved, AnchorOf;
  }

  /** What a check logs. */
  function CheckEntries(s: State, host: Host, now: int): seq<Action> {
    (if s.mem.hashes != map[] && s.external.Missing? then [BaselineFileRestored] else []) +
    (if Clean(s.mem, host) then []
     else if InGrace(s.mem, now) then [ViolationInGracePeriod]
     else [ViolationFound])
  }

  lemma TamperedSet(b: Baseline, host: Host, tampered: set<string>)
    requires tampered == set f | f in b.hashes && f in Snapshot(host.disk) && Snapshot(host.disk)[f] != b.hashes[f]
    ensures tampered != {} <==> AnyTampered(b, host)
  {
    assert forall f :: f in tampered <==> f in b.hashes && Tampered(b, host, f);
  }

  class IntegrityService {
    const keys: Keys
    var baselineHashes: map<string, Hash>
    var baselineUserCount: nat
    var baselineUserHash: Option<Hash>
    var baselineConfigHash: Option<Hash>
    var lastBaselineResetAt: Option<int>
    var updateModeActive: bool
    var updateModeDeployId: Option<string>
    var updateModeTimer: bool
    var updateModeMutex: bool
    // What the service writes outside itself: the baseline file, the settings row that anchors it, the
    // security service's lockdown flag, and the actions it logs.
    var external: BaselineFile
    var anchor: Option<Hash>
    var lockdown: bool
    var log: seq<Action>

    ghost function View(): State
      reads this
    {
      State(Memory(baselineHashes, baselineUserCount, baselineUserHash, baselineConfigHash, lastBaselineResetAt),
            external, anchor, lockdown)
    }

    ghost predicate UpdateIdle()
      reads this
    {
      !updateModeMutex && !updateModeActive && !updateModeTimer && updateModeDeployId.None?
    }

    ghost predicate SameUpdateMode(mutex: bool, active: bool, timer: bool, id: Option<string>)
      reads this
    {
      updateModeMutex == mutex && updateModeActive == active && updateModeTimer == timer && updateModeDeployId == id
    }

    /** A new process over the baseline file, anchor and lockdown flag that the last one left. */
    constructor (keys: Keys, external: BaselineFile, anchor: Option<Hash>, lockdown: bool)
      ensures this.keys == keys && UpdateIdle()
      ensures View() == State(Memory(map[], 0, None, None, None), external, anchor, lockdown)
    {
      this.keys := keys;
      baselineHashes, baselineUserCount, baselineUserHash, baselineConfigHash := map[], 0, None, None;
      lastBaselineResetAt := None;
      updateModeActive, updateModeDeployId, updateModeTimer, updateModeMutex := false, None, false, false;
      this.external, this.anchor, this.lockdown, log := external, anchor, lockdown, [];
    }

    method HashCritical(host: Host) returns (hashes: map<string, Hash>)
      ensures hashes == map f | f in host.disk && f in CRITICAL_FILES :: host.disk[f]
    {
      hashes := map[];
      var files := CRITICAL_FILES;
      while files != {}
        invariant files <= CRITICAL_FILES
        invariant hashes == map f | f in host.disk && f in CRITICAL_FILES && f !in files :: host.disk[f]
      {
        var file :| file in files;
        files := files - {file};
        if file in host.disk {
          hashes := hashes[file := host.disk[file]];
        }
      }
    }

    /** Walks the critical files, the worker directory and .env. */
    method HashMonitored(host: Host) returns (hashes: map<string, Hash>)
      ensures hashes == Snapshot(host.disk)
    {
      hashes := HashCritical(host);
      var workers := set f | f in host.disk && IsWorker(f);
      var all := workers;
      while workers != {}
        invariant workers <= all
        invariant hashes
                  == map f | f in host.disk && (f in CRITICAL_FILES || (IsWorker(f) && f !in workers)) :: host.disk[f]
      {
        var w :| w in workers;
        workers := workers - {w};
        hashes := hashes[w := host.disk[w]];
      }
      if ".env" in host.disk {
        hashes := hashes[".env" := host.disk[".env"]];
      }
    }

    method SaveExternalBaseline(host: Host, now: int)
      modifies this`external, this`anchor
      ensures View() == Save(old(View()), host, now, keys)
      ensures external == Readable(Baseline(baselineHashes, baselineUserCount, baselineUserHash, host.gitHead, now))
    {
      var data := Baseline(baselineHashes, baselineUserCount, baselineUserHash, host.gitHead, now);
      external := Readable(data);
      var a := AnchorOf(keys, data);
      if a.Some? {
        anchor := a;
      }
    }

    /** Hashes everything in sight into the in-memory baseline. */
    method TakeStock(host: Host)
      modifies this`baselineHashes, this`baselineUserCount, this`baselineUserHash, this`baselineConfigHash
      ensures View() == old(View()).(mem := Integrity.Observe(host).(lastResetAt := lastBaselineResetAt))
    {
      baselineHashes := HashMonitored(host);
      baselineConfigHash := Lookup(host.disk, CONFIG_FILE);
      baselineUserCount := host.userCount;
      baselineUserHash := host.userHash;
    }

    /** The files whose hash on disk differs from the external baseline's. */
    method FindTampered(b: Baseline) returns (tampered: set<string>)
      ensures tampered == set f | f in b.hashes && f in baselineHashes && baselineHashes[f] != b.hashes[f]
    {
      tampered := {};
      var files := b.hashes.Keys;
      while files != {}
        invariant files <= b.hashes.Keys
        invariant tampered
                  == set f | f in b.hashes && f !in files && f in baselineHashes && baselineHashes[f] != b.hashes[f]
      {
        var file :| file in files;
        files := files - {file};
        if file in baselineHashes && baselineHashes[file] != b.hashes[file] {
          tampered := tampered + {file};
        }
      }
    }

    /** The baseline file is there and parses, or does not parse, or is missing. Where JSON.parse throws, only a warning
        is printed. */
    method JudgeBaselineFile(host: Host) returns (trusted: bool)
      requires baselineHashes == Snapshot(host.disk) && baselineUserCount == host.userCount
      modifies this`baselineHashes, this`baselineUserCount, this`baselineUserHash, this`lockdown, this`log
      ensures trusted <==> Trusts(old(View()), host, keys)
      ensures View() == if trusted then old(View()) else Distrusted(old(View()), keys)
      ensures log == old(log) + FileEntries(old(View()), host, keys)
    {
      hide AnyTampered, GitMoved, AnchorOf, Snapshot, ComparisonEntries;
      trusted := true;
      if external.Readable? {
        trusted := CompareWithExternal(external.baseline, host);
      } else if external.Missing? {
        trusted := AcceptMissingBaseline(host);
      }
    }

    /** Startup: take stock, trust or distrust what is found, tighten the file modes. */
    method EstablishBaseline(host: Host, now: int) returns (tightened: Host)
      requires lastBaselineResetAt.None?
      modifies this
      ensures tightened == Tightened(host)
      ensures log == old(log) + StartupEntries(old(View()), host, keys)
      ensures View() == Establish(old(View()), host, now, keys)
      ensures SameUpdateMode(old(updateModeMutex), old(updateModeActive), old(updateModeTimer), old(updateModeDeployId))
    {
      hide Establish, Save, Snapshot, Lookup, Trusts, Distrusted, FileEntries;
      EstablishIsTrust(View(), host, now, keys);
      TakeStock(host);
      log := log + [BaselineEstablished];
      var trusted := JudgeBaselineFile(host);
      if trusted {
        SaveExternalBaseline(host, now);
      }
      tightened := host.(envModeOpen := false, secretsModeOpen := false);
    }

    /** The baseline file is there: check its anchor, then the files against it. A file that differs
        is put down to a git pull when the checked-out commit moved; otherwise the known-good baseline
        is kept and the system locks down. */
    method CompareWithExternal(b: Baseline, host: Host) returns (trusted: bool)
      requires baselineHashes == Snapshot(host.disk)
      modifies this`baselineHashes, this`baselineUserCount, this`baselineUserHash, this`lockdown, this`log
      ensures var s := old(View());
              var forged := anchor.Some? && AnchorOf(keys, b) != anchor;
              var changed := AnyTampered(b, host) && !GitMoved(b, host);
              && log == old(log) + ComparisonEntries(b, anchor, host, keys)
              && (trusted <==> !forged && !changed)
              && (trusted ==> View() == s)
              && (forged ==> View() == s.(lockdown := true))
              && (!forged && changed ==>
                    View() == s.(lockdown := true,
                                 mem := s.mem.(hashes := b.hashes,
                                               userCount := if b.userCount != 0 then b.userCount else s.mem.userCount,
                                               userHash := if b.userHash.Some? then b.userHash else s.mem.userHash)))
    {
      hide AnyTampered, GitMoved, AnchorOf, Tampered;
      if anchor.Some? {
        if AnchorOf(keys, b) != anchor {
          log := log + [AnchorTamper];
          lockdown := true;
          return false;
        }
      }
      var tampered := FindTampered(b);
      TamperedSet(b, host, tampered);
      if tampered != {} {
        if GitMoved(b, host) {
          log := log + [GitPullAutoUpdate];
        } else {
          log := log + [StartupTamper];
          baselineHashes := b.hashes;
          baselineUserCount := if b.userCount != 0 then b.userCount else baselineUserCount;
          baselineUserHash := if b.userHash.Some? then b.userHash else baselineUserHash;
          lockdown := true;
          return false;
        }
      }
      log := log + [BaselineVerified];
      return true;
    }

    /** The baseline file is missing: a first boot, or a deletion. */
    method AcceptMissingBaseline(host: Host) returns (trusted: bool)
      requires baselineUserCount == host.userCount
      modifies this`lockdown, this`log
      ensures trusted <==> !(host.dbExists && host.userCount > 0 && anchor.Some? && !host.recentAdminReset)
      ensures lockdown == (old(lockdown) || !trusted)
      ensures log == old(log) + if !(host.dbExists && host.userCount > 0 && anchor.Some?) then [FirstBoot]
                                else if trusted then [MissingRecovered, FirstBoot] else [MissingLockdown]
    {
      if host.dbExists && baselineUserCount > 0 && anchor.Some? {
        if host.recentAdminReset {
          log := log + [MissingRecovered];
        } else {
          log := log + [MissingLockdown];
          lockdown := true;
          return false;
        }
      }
      log := log + [FirstBoot];
      return true;
    }

    method ResetBaseline(host: Host, now: int)
      modifies this
      ensures View() == Reset(old(View()), host, now, keys)
      ensures SameUpdateMode(old(updateModeMutex), old(updateModeActive), old(updateModeTimer), old(updateModeDeployId))
      ensures log == old(log) + [BaselineReset]
    {
      TakeStock(host);
      SaveExternalBaseline(host, now);
      lastBaselineResetAt := Some(now);
      log := log + [BaselineReset];
    }

    /** The violations among the files of the baseline. */
    method FileViolations(host: Host) returns (vs: seq<Violation>)
      ensures forall f :: FileDeviates(View().mem, host, f) <==>
        Violation(FileDeleted, f, true) in vs || Violation(FileModified, f, true) in vs
      ensures forall i :: 0 <= i < |vs| ==> vs[i].critical && FileDeviates(View().mem, host, vs[i].file)
    {
      vs := [];
      var files := baselineHashes.Keys;
      while files != {}
        invariant files <= baselineHashes.Keys
        invariant forall f :: f !in files && FileDeviates(View().mem, host, f) <==>
          Violation(FileDeleted, f, true) in vs || Violation(FileModified, f, true) in vs
        invariant forall i :: 0 <= i < |vs| ==> vs[i].critical && FileDeviates(View().mem, host, vs[i].file)
      {
        var file :| file in files;
        files := files - {file};
        if file !in host.disk {
          vs := vs + [Violation(FileDeleted, file, true)];
        } else if host.disk[file] != baselineHashes[file] {
          vs := vs + [Violation(FileModified, file, true)];
        }
      }
    }

    /** The worker files that the baseline does not know. */
    method WorkerViolations(host: Host) returns (vs: seq<Violation>)
      ensures forall f :: Unauthorized(View().mem, host, f) <==> Violation(UnauthorizedWorker, f, true) in vs
      ensures forall i :: 0 <= i < |vs| ==> vs[i].critical && Unauthorized(View().mem, host, vs[i].file)
    {
      vs := [];
      var workers := set f | f in host.disk && IsWorker(f);
      while workers != {}
        invariant workers <= set f | f in host.disk && IsWorker(f)
        invariant forall f :: f !in workers && Unauthorized(View().mem, host, f) <==>
                    Violation(UnauthorizedWorker, f, true) in vs
        invariant forall i :: 0 <= i < |vs| ==> vs[i].critical && Unauthorized(View().mem, host, vs[i].file)
      {
        var w :| w in workers;
        workers := workers - {w};
        if w !in baselineHashes {
          vs := vs + [Violation(UnauthorizedWorker, w, true)];
        }
      }
    }

    /** The violations of files and workers are all critical. */
    method FileSystemViolations(host: Host) returns (vs: seq<Violation>)
      ensures vs != [] <==> HasCritical(vs)
      ensures vs != [] <==> FilesDeviate(View().mem, host)
    {
      var files := FileViolations(host);
      var workers := WorkerViolations(host);
      vs := files + workers;
      ghost var mem := View().mem;
      if files != [] {
        assert vs[0].critical && FileDeviates(mem, host, files[0].file);
      } else if workers != [] {
        assert vs[0].critical && Unauthorized(mem, host, workers[0].file);
      }
    }

    /** The violations of the user table, the configuration and the file modes. */
    method OtherViolations(host: Host) returns (vs: seq<Violation>)
      ensures HasCritical(vs) <==>
        || host.userCount != baselineUserCount || host.userHash != baselineUserHash
        || Lookup(host.disk, CONFIG_FILE) != baselineConfigHash || host.secretsModeOpen
      ensures vs == [] <==> !HasCritical(vs) && !host.envModeOpen
    {
      hide HasCritical;
      vs := [];
      NoneCritical();
      if host.userCount != baselineUserCount {
        HasCriticalSnoc(vs, Violation(UnauthorizedUser, "", true));
        vs := vs + [Violation(UnauthorizedUser, "", true)];
      }
      if host.userHash != baselineUserHash {
        HasCriticalSnoc(vs, Violation(UserTableModified, "", true));
        vs := vs + [Violation(UserTableModified, "", true)];
      }
      if Lookup(host.disk, CONFIG_FILE) != baselineConfigHash {
        HasCriticalSnoc(vs, Violation(ConfigTampered, CONFIG_FILE, true));
        vs := vs + [Violation(ConfigTampered, CONFIG_FILE, true)];
      }
      if host.envModeOpen {
        HasCriticalSnoc(vs, Violation(EnvPermissions, ".env", false));
        vs := vs + [Violation(EnvPermissions, ".env", false)];
      }
      if host.secretsModeOpen {
        HasCriticalSnoc(vs, Violation(SecretsPermissions, "secrets.db", true));
        vs := vs + [Violation(SecretsPermissions, "secrets.db", true)];
      }
    }

    /** All violations. */
    method Violations(host: Host) returns (vs: seq<Violation>)
      ensures HasCritical(vs) <==> CriticalDeviation(View().mem, host)
      ensures vs == [] <==> Clean(View().mem, host)
    {
      var inFiles := FileSystemViolations(host);
      var others := OtherViolations(host);
      vs := inFiles + others;
      HasCriticalConcat(inFiles, others);
    }

    /** The periodic check. */
    method Verify(host: Host, now: int) returns (violations: seq<Violation>, gracePeriod: bool)
      modifies this`external, this`anchor, this`lockdown, this`log
      ensures View() == Integrity.Verify(old(View()), host, now, keys)
      ensures violations == [] <==> Clean(View().mem, host)
      ensures gracePeriod <==>
                && violations != [] && lastBaselineResetAt.Some? && lastBaselineResetAt.value != 0
                && now - lastBaselineResetAt.value < 600000
      ensures log == old(log) + CheckEntries(old(View()), host, now)
    {
      hide CriticalDeviation, Clean, InGrace, HasCritical;
      CriticalIsNotClean(View().mem, host);
      InGraceExactly(View().mem, now);
      violations := Violations(host);
      if baselineHashes != map[] && external.Missing? {
        SaveExternalBaseline(host, now);
        log := log + [BaselineFileRestored];
      }
      gracePeriod := false;
      if |violations| > 0 {
        var mem :=
          Memory(baselineHashes, baselineUserCount, baselineUserHash, baselineConfigHash, lastBaselineResetAt);
        gracePeriod := InGrace(mem, now);
        log := log + [if gracePeriod then ViolationInGracePeriod else ViolationFound];
        if gracePeriod {
          return;
        }
        if HasCritical(violations) {
          lockdown := true;
        }
      }
    }

    /** Takes the update mutex, or fails because another update holds it. */
    method EnterUpdateMode(deployId: string, now: int) returns (entered: bool)
      modifies this
      ensures entered <==> !old(updateModeMutex)
      ensures entered ==> SameUpdateMode(true, true, true, Some(deployId))
      ensures entered ==> View() == old(View()).(mem := old(View()).mem.(lastResetAt := Some(now)))
      ensures log == if entered then old(log) + [UpdateModeEntered] else old(log)
      ensures !entered ==> unchanged(this)
    {
      if updateModeMutex {
        return false;
      }
      updateModeMutex, updateModeActive, updateModeDeployId := true, true, Some(deployId);
      lastBaselineResetAt := Some(now);
      updateModeTimer := true;
      log := log + [UpdateModeEntered];
      return true;
    }

    /** Releases the mutex, whoever holds it. Also what the five-minute timer does. */
    method ExitUpdateMode()
      modifies this
      ensures UpdateIdle() && View() == old(View()) && log == old(log) + [UpdateModeExited]
    {
      updateModeTimer := false;
      updateModeActive, updateModeDeployId, updateModeMutex := false, None, false;
      log := log + [UpdateModeExited];
    }

    /** The git commands of an update, in order; the first failure ends them. */
    method RunGit(git: GitRun) returns (ok: bool)
      ensures ok <==> GitSucceeds(git)
    {
      if git.remoteUrl.None? { return false; }
      if !git.fetched { return false; }
      var target := git.refCommit;
      if target.None? {
        target := git.fetchHead;
        if target.None? { return false; }
      }
      if git.expectedCommit.Some? && git.expectedCommit.value != "" && target != git.expectedCommit { return false; }
      if git.oldHead.None? { return false; }
      if !git.checkedOut { return false; }
      if !git.statusRead { return false; }
      if git.newHead.None? || git.newHead != target { return false; }
      return true;
    }

    /** A new baseline that may throw where it lists the worker directory. */
    method TryReset(host: Host, now: int, throws: bool) returns (ok: bool)
      modifies this
      ensures View() == TriedReset(old(View()), host, now, keys, throws)
      ensures SameUpdateMode(old(updateModeMutex), old(updateModeActive), old(updateModeTimer), old(updateModeDeployId))
      ensures log == old(log) + if throws then [] else [BaselineReset]
      ensures ok <==> !throws
    {
      hide Reset;
      if throws {
        baselineHashes := HashCritical(host);
        return false;
      }
      ResetBaseline(host, now);
      return true;
    }

    /** After the git part: accept the files as they are now, then check. What throws on the way is caught, and the
        recovery takes another new baseline, with a handler of its own. */
    method Rebaseline(gitOk: bool, faults: Faults, host: Host, now: int) returns (status: Status)
      modifies this
      ensures View() == Updated(old(View()), gitOk, faults, host, now, keys)
      ensures log == old(log) + UpdateEntries(old(View()), gitOk, faults, host, now, keys)
      ensures status == Failed <==> !UpdateSucceeds(gitOk, faults)
      ensures now > 0 ==> status != Warning
    {
      hide CriticalDeviation, CheckEntries, Clean, HalfReset;
      var ok := gitOk;
      status := Success;
      if ok {
        ok := TryReset(host, now, faults.resetThrows);
      }
      if ok {
        ok := !faults.checkThrows;
      }
      if ok {
        var violations, grace := Verify(host, now);
        if violations != [] && !grace {
          status := Warning;
        }
      } else {
        status := Failed;
        var recovered := TryReset(host, now, faults.recoveryThrows);
        log := log + [DeployFailed];
      }
    }

    /** A whole update with no timer firing in between. Whatever step fails, update mode is left and one pair of entries
        is logged. The new baseline is what is on disk, if the update succeeds or else its recovery does. If another
        update holds the mutex, this one fails and releases the other's mutex: see module UpdateProtocol for why the
        endpoints do not let that happen. */
    method PerformUpdate(deployId: string, git: GitRun, faults: Faults, host: Host, now: int) returns (status: Status)
      modifies this
      ensures UpdateIdle()
      ensures var gitOk := !old(updateModeMutex) && GitSucceeds(git);
              var s := old(View());
              var entered := if old(updateModeMutex) then s else s.(mem := s.mem.(lastResetAt := Some(now)));
              && View() == Updated(entered, gitOk, faults, host, now, keys)
              && (status == Failed <==> !UpdateSucceeds(gitOk, faults))
              && (status != Failed || !faults.recoveryThrows ==>
                    external.Readable? && external.baseline.hashes == Snapshot(host.disk))
              && log == old(log) + (if old(updateModeMutex) then [] else [UpdateModeEntered])
                        + UpdateEntries(entered, gitOk, faults, host, now, keys) + [UpdateModeExited, DeployCompleted]
      ensures now > 0 ==> lockdown == old(lockdown) && status != Warning
    {
      hide GitSucceeds, Updated, UpdateEntries;
      var entered := EnterUpdateMode(deployId, now);
      var ok := false;
      if entered {
        ok := RunGit(git);
      }
      UpdatedFacts(View(), ok, faults, host, now, keys);
      status := Rebaseline(ok, faults, host, now);
      ExitUpdateMode();
      log := log + [DeployCompleted];
    }
  }

  lemma UpdatedFacts(s: State, gitOk: bool, faults: Faults, host: Host, now: int, keys: Keys)
    ensures var t := Updated(s, gitOk, faults, host, now, keys);
            && (UpdateSucceeds(gitOk, faults) || !faults.recoveryThrows ==>
                  t.external.Readable? && t.external.baseline.hashes == Snapshot(host.disk))
            && (UpdateSucceeds(gitOk, faults) || !faults.recoveryThrows ==>
                  t.mem.hashes == Snapshot(host.disk) && t.mem.lastResetAt == Some(now))
            && (!UpdateSucceeds(gitOk, faults) && faults.recoveryThrows && (!gitOk || faults.resetThrows) ==>
                  t.external == s.external && t.anchor == s.anchor && t.mem.lastResetAt == s.mem.lastResetAt
                  && t.mem.hashes == map f | f in host.disk && f in CRITICAL_FILES :: host.disk[f])
            && (now > 0 ==> t.lockdown == s.lockdown)
  {
    hide CriticalDeviation, Snapshot;
  }
}
