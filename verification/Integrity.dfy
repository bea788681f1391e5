/** The integrity service (server/services/integrity.js) as transitions on a state: the files and
    tables it can see, its in-memory baseline, the baseline file outside the installation with its
    anchor, the grace period and the lockdown flag. */
module Integrity {
  import opened Prelude

  const GRACE_PERIOD_MS := 600000

  const CRITICAL_FILES: set<string> := {
    "server.js", "darkhan.config.json", "middleware/auth.js", "services/security.js",
    "services/integrity.js", "services/auto-responder.js", "services/worker-runtime.js",
    "services/llm.js", "routes/messages.js", "routes/auth.js", "routes/folio.js",
    "db/schema.sql", "db/secrets-schema.sql", "db/seed.js", "package.json", "package-lock.json"}

  const CONFIG_FILE := "darkhan.config.json"

  type Hash = string

  /** What the service can observe outside itself. `disk` gives the hash of every readable file
      under the server directory, worker files under "workers/". */
  datatype Host = Host(
    disk: map<string, Hash>, userCount: nat, userHash: Option<Hash>, gitHead: Option<string>,
    envModeOpen: bool, secretsModeOpen: bool, dbExists: bool, recentAdminReset: bool)

  /** The content of the external baseline file. */
  datatype Baseline = Baseline(
    hashes: map<string, Hash>, userCount: nat, userHash: Option<Hash>, gitCommit: Option<string>, createdAt: int)

  /** The external baseline file: not there, not JSON, or parsed. */
  datatype BaselineFile = Missing | Garbled | Readable(baseline: Baseline)

  /** SESSION_SECRET and the keyed hash (HMAC) under it. */
  datatype Keys = Keys(secret: Option<string>, hmac: (string, Baseline) -> Hash) {
    predicate HasSecret() {
      secret.Some? && secret.value != ""
    }
  }

  /** The anchor of a baseline file; null when no secret is configured. */
  function AnchorOf(keys: Keys, b: Baseline): Option<Hash> {
    if keys.HasSecret() then Some(keys.hmac(keys.secret.value, b)) else None
  }

  /** The service object of one process. */
  datatype Memory = Memory(
    hashes: map<string, Hash>, userCount: nat, userHash: Option<Hash>, configHash: Option<Hash>,
    lastResetAt: Option<int>)

  datatype State = State(mem: Memory, external: BaselineFile, anchor: Option<Hash>, lockdown: bool)

  predicate IsWorker(f: string) {
    StartsWith(f, "workers/")
  }

  predicate Monitored(f: string) {
    f in CRITICAL_FILES || IsWorker(f) || f == ".env"
  }

  /** There is an anchor exactly when a secret is configured, and not empty: the keyed hash of the file. */
  lemma AnchorExactly(keys: Keys, b: Baseline)
    ensures keys.secret == None || keys.secret == Some("") ==> AnchorOf(keys, b) == None
    ensures keys.secret.Some? && keys.secret.value != "" ==>
              AnchorOf(keys, b) == Some(keys.hmac(keys.secret.value, b))
  {
  }

  lemma MonitoredExactly(f: string)
    ensures Monitored(f) <==> f in CRITICAL_FILES || (|f| >= 8 && f[..8] == "workers/") || f == ".env"
  {
  }

  /** The hashes the service records when it walks its file lists. */
  function Snapshot(disk: map<string, Hash>): map<string, Hash> {
    map f | f in disk && Monitored(f) :: disk[f]
  }

  function Lookup(disk: map<string, Hash>, f: string): Option<Hash> {
    if f in disk then Some(disk[f]) else None
  }

  // ---- verify ----

  predicate FileDeviates(mem: Memory, host: Host, f: string) {
    f in mem.hashes && (f !in host.disk || host.disk[f] != mem.hashes[f])
  }

  predicate Unauthorized(mem: Memory, host: Host, f: string) {
    f in host.disk && IsWorker(f) && f !in mem.hashes
  }

  predicate FilesDeviate(mem: Memory, host: Host) {
    || (exists f :: f in mem.hashes && FileDeviates(mem, host, f))
    || (exists f :: f in host.disk && Unauthorized(mem, host, f))
  }

  /** Some violation of severity CRITICAL. */
  predicate CriticalDeviation(mem: Memory, host: Host) {
    || FilesDeviate(mem, host)
    || host.userCount != mem.userCount
    || host.userHash != mem.userHash
    || Lookup(host.disk, CONFIG_FILE) != mem.configHash
    || host.secretsModeOpen
  }

  predicate Clean(mem: Memory, host: Host) {
    !CriticalDeviation(mem, host) && !host.envModeOpen
  }

  predicate InGrace(mem: Memory, now: int) {
    mem.lastResetAt.Some? && mem.lastResetAt.value != 0 && now - mem.lastResetAt.value < GRACE_PERIOD_MS
  }

  /** The grace period: ten minutes from the last reset. */
  lemma InGraceExactly(mem: Memory, now: int)
    ensures InGrace(mem, now) <==>
            mem.lastResetAt.Some? && mem.lastResetAt.value != 0 && now - mem.lastResetAt.value < 600000
  {
  }

  /** `_saveExternalBaseline` with the anchor it stores. */
  function Save(s: State, host: Host, now: int, keys: Keys): State {
    var b := Baseline(s.mem.hashes, s.mem.userCount, s.mem.userHash, host.gitHead, now);
    s.(external := Readable(b), anchor := if AnchorOf(keys, b).Some? then AnchorOf(keys, b) else s.anchor)
  }

  function Verify(s: State, host: Host, now: int, keys: Keys): State {
    var restored := if s.mem.hashes != map[] && s.external.Missing? then Save(s, host, now, keys) else s;
    restored.(lockdown := s.lockdown || (CriticalDeviation(s.mem, host) && !InGrace(s.mem, now)))
  }

  /** A critical deviation locks down, except for ten minutes after an administrator's reset or the start of an
      update; nothing else locks. A missing baseline file is restored from memory. */
  lemma VerifyLocksExactly(s: State, host: Host, now: int, keys: Keys)
    ensures !CriticalDeviation(s.mem, host) ==> Verify(s, host, now, keys).lockdown == s.lockdown
    ensures CriticalDeviation(s.mem, host) && s.mem.lastResetAt.None? ==> Verify(s, host, now, keys).lockdown
    ensures CriticalDeviation(s.mem, host) && s.mem.lastResetAt.Some? && s.mem.lastResetAt.value != 0 ==>
              (Verify(s, host, now, keys).lockdown <==> s.lockdown || now - s.mem.lastResetAt.value >= 600000)
    ensures var t := Verify(s, host, now, keys);
            && t.mem == s.mem
            && (t.external != s.external ==>
                  s.external.Missing? && t.external == Readable(
                    Baseline(s.mem.hashes, s.mem.userCount, s.mem.userHash, host.gitHead, now)))
            && (s.external.Missing? && s.mem.hashes != map[] ==> t.external.Readable?)
  {
    hide CriticalDeviation;
  }

  // ---- establishBaseline, resetBaseline ----

  function Observe(host: Host): Memory {
    Memory(Snapshot(host.disk), host.userCount, host.userHash, Lookup(host.disk, CONFIG_FILE), None)
  }

  /** A file on disk whose hash differs from the external baseline's. */
  predicate Tampered(b: Baseline, host: Host, f: string) {
    f in b.hashes && f in host.disk && Monitored(f) && host.disk[f] != b.hashes[f]
  }

  predicate AnyTampered(b: Baseline, host: Host) {
    exists f :: f in b.hashes && Tampered(b, host, f)
  }

  /** The commit recorded with the baseline differs from the one checked out now. */
  predicate GitMoved(b: Baseline, host: Host) {
    b.gitCommit.Some? && host.gitHead.Some? && b.gitCommit != host.gitHead
  }

  /** `_enforcePermissions`: however establishBaseline ends, it leaves .env and the databases at mode 600. */
  function Tightened(host: Host): Host {
    host.(envModeOpen := false, secretsModeOpen := false)
  }

  /** A new process takes stock (`mem` is what it observed) and compares with the external baseline. A file
      that does not parse is only warned about: the exception skips the anchor check too. */
  function Establish(s: State, host: Host, now: int, keys: Keys): State {
    var observed := s.(mem := Observe(host));
    match s.external
    case Readable(b) =>
      if s.anchor.Some? && AnchorOf(keys, b) != s.anchor then
        observed.(lockdown := true)
      else if AnyTampered(b, host) && !GitMoved(b, host) then
        observed.(lockdown := true,
                mem := observed.mem.(hashes := b.hashes,
                                   userCount := if b.userCount != 0 then b.userCount else host.userCount,
                                   userHash := if b.userHash.Some? then b.userHash else host.userHash))
      else Save(observed, host, now, keys)
    case Garbled => Save(observed, host, now, keys)
    case Missing =>
      if host.dbExists && host.userCount > 0 && s.anchor.Some? && !host.recentAdminReset then
        observed.(lockdown := true)
      else Save(observed, host, now, keys)
  }

  function Reset(s: State, host: Host, now: int, keys: Keys): State {
    var saved := Save(s.(mem := Observe(host)), host, now, keys);
    saved.(mem := saved.mem.(lastResetAt := Some(now)))
  }

  // ---- Runs ----

  /** Files change (`host` says how the world looks from now on), the service verifies, the process
      restarts (server.js establishes, then verifies), an administrator resets, a human unlocks. */
  datatype Event =
    | Edit(host: Host)
    | Check(at: int)
    | Boot(bootedAt: int)
    | AdminReset(resetAt: int)
    | Unlock

  datatype World = World(host: Host, s: State)

  function Step(w: World, e: Event, keys: Keys): World {
    match e
    case Edit(host) => w.(host := host)
    case Check(at) => w.(s := Verify(w.s, w.host, at, keys))
    case Boot(at) => World(Tightened(w.host), Verify(Establish(w.s, w.host, at, keys), Tightened(w.host), at, keys))
    case AdminReset(at) => w.(s := Reset(w.s, w.host, at, keys))
    case Unlock => w.(s := w.s.(lockdown := false))
  }

  function Run(w: World, es: seq<Event>, keys: Keys): World {
    if es == [] then w else Step(Run(w, es[..|es| - 1], keys), es[|es| - 1], keys)
  }

  /** The environment of the safety claim: no reset, the checked-out commit stays, and file `f`,
      though its content may change, is never deleted. */
  predicate KeepsFile(e: Event, f: string, head: Option<string>) {
    match e
    case Edit(host) => host.gitHead == head && f in host.disk
    case AdminReset(_) => false
    case _ => true
  }

  /** The external baseline vouches for `f` with hash `h`, its anchor is in order, it was taken at
      commit `head`, and the running process compares against the same hash. */
  ghost predicate Vouched(s: State, f: string, h: Hash, head: Option<string>, keys: Keys) {
    && Monitored(f)
    && s.external.Readable?
    && f in s.external.baseline.hashes && s.external.baseline.hashes[f] == h
    && (s.anchor.Some? ==> AnchorOf(keys, s.external.baseline) == s.anchor)
    && (s.external.baseline.gitCommit.Some? && head.Some? ==> s.external.baseline.gitCommit == head)
    && f in s.mem.hashes && s.mem.hashes[f] == h
  }

  ghost predicate Pinned(w: World, f: string, h: Hash, head: Option<string>, keys: Keys) {
    Vouched(w.s, f, h, head, keys) && w.host.gitHead == head && f in w.host.disk
  }

  /** A restart keeps the pin, and locks down when the file differs. */
  lemma BootKeepsPin(w: World, at: int, f: string, h: Hash, head: Option<string>, keys: Keys)
    requires Pinned(w, f, h, head, keys)
    ensures var t := Step(w, Boot(at), keys);
            Pinned(t, f, h, head, keys) && (w.host.disk[f] != h ==> t.s.lockdown)
  {
    var b := w.s.external.baseline;
    var e := Establish(w.s, w.host, at, keys);
    if AnyTampered(b, w.host) {
      assert e.lockdown && e.external == Readable(b) && e.mem.hashes == b.hashes;
    } else {
      assert !Tampered(b, w.host, f);
      assert e.external.baseline.hashes == Snapshot(w.host.disk) == e.mem.hashes;
    }
  }

  /** The last reset, if any, is ten minutes ago or more. */
  predicate ResetIsOld(mem: Memory, now: int) {
    mem.lastResetAt.None? || mem.lastResetAt.value == 0 || now - mem.lastResetAt.value >= 600000
  }

  /** A check keeps the pin, and locks down when the file differs, unless the last reset was less than ten minutes
      ago. */
  lemma CheckKeepsPin(w: World, at: int, f: string, h: Hash, head: Option<string>, keys: Keys)
    requires Pinned(w, f, h, head, keys)
    ensures var t := Step(w, Check(at), keys);
            Pinned(t, f, h, head, keys) && (w.host.disk[f] != h && ResetIsOld(w.s.mem, at) ==> t.s.lockdown)
  {
    if w.host.disk[f] != h {
      assert FileDeviates(w.s.mem, w.host, f);
    }
  }

  /** A baseline that was just written for what is on disk pins every monitored file there, exactly if its anchor
      is in order: a secret is configured, or there never was an anchor. */
  lemma SavedBaselinePins(w: World, s: State, at: int, f: string, keys: Keys)
    requires f in w.host.disk && Monitored(f)
    requires s.mem.hashes == Snapshot(w.host.disk)
    ensures Pinned(World(w.host, Save(s, w.host, at, keys)), f, w.host.disk[f], w.host.gitHead, keys) <==>
            keys.HasSecret() || s.anchor.None?
  {
  }

  /** Startup believes what it finds: no forged file, no changed file, no suspicious deletion. */
  predicate Trusts(s: State, host: Host, keys: Keys) {
    match s.external
    case Readable(b) =>
      (s.anchor.Some? ==> AnchorOf(keys, b) == s.anchor) && (!AnyTampered(b, host) || GitMoved(b, host))
    case Garbled => true
    case Missing => !(host.dbExists && host.userCount > 0 && s.anchor.Some? && !host.recentAdminReset)
  }

  /** So a restart that trusts what it finds, the first boot above all, pins every monitored file on disk. */
  lemma TrustedBootPins(w: World, at: int, f: string, keys: Keys)
    requires f in w.host.disk && Monitored(f) && Trusts(w.s, w.host, keys)
    ensures Pinned(Step(w, Boot(at), keys), f, w.host.disk[f], w.host.gitHead, keys) <==>
            keys.HasSecret() || w.s.anchor.None?
  {
    hide AnyTampered, GitMoved, CriticalDeviation;
    SavedBaselinePins(w, w.s.(mem := Observe(w.host)), at, f, keys);
  }

  /** An administrator's reset does too. */
  lemma ResetPins(w: World, at: int, f: string, keys: Keys)
    requires f in w.host.disk && Monitored(f)
    ensures Pinned(Step(w, AdminReset(at), keys), f, w.host.disk[f], w.host.gitHead, keys) <==>
            keys.HasSecret() || w.s.anchor.None?
  {
    SavedBaselinePins(w, w.s.(mem := Observe(w.host)), at, f, keys);
  }

  /** Over every run of edits, checks, restarts and unlocks that keeps file `f` present, the external
      baseline's hash of `f` never changes. */
  lemma {:induction false} BaselineHashNeverChanges(
    w: World, es: seq<Event>, f: string, h: Hash, head: Option<string>, keys: Keys)
    requires Pinned(w, f, h, head, keys)
    requires forall i :: 0 <= i < |es| ==> KeepsFile(es[i], f, head)
    ensures Pinned(Run(w, es, keys), f, h, head, keys)
  {
    if es != [] {
      var n := |es| - 1;
      var v := Run(w, es[..n], keys);
      BaselineHashNeverChanges(w, es[..n], f, h, head, keys);
      assert KeepsFile(es[n], f, head);
      match es[n]
      case Boot(at) => BootKeepsPin(v, at, f, h, head, keys);
      case Check(at) => CheckKeepsPin(v, at, f, h, head, keys);
      case Edit(_) =>
      case Unlock =>
    }
  }

  /** At any point of such a run, a restart, or a check ten minutes or more after the last reset, that finds `f`
      changed leaves lockdown on. */
  lemma TamperingAlwaysLocks(
    w: World, es: seq<Event>, last: Event, f: string, h: Hash, head: Option<string>, keys: Keys)
    requires Pinned(w, f, h, head, keys)
    requires forall i :: 0 <= i < |es| ==> KeepsFile(es[i], f, head)
    requires var mem := Run(w, es, keys).s.mem;
             || last.Boot?
             || (last.Check? && (mem.lastResetAt.Some? && mem.lastResetAt.value != 0 ==>
                                   last.at - mem.lastResetAt.value >= 600000))
    requires Lookup(Run(w, es, keys).host.disk, f) != Some(h)
    ensures Run(w, es + [last], keys).s.lockdown
  {
    BaselineHashNeverChanges(w, es, f, h, head, keys);
    assert (es + [last])[..|es|] == es;
    var v := Run(w, es, keys);
    match last
    case Boot(at) => BootKeepsPin(v, at, f, h, head, keys);
    case Check(at) => CheckKeepsPin(v, at, f, h, head, keys);
  }

  /** Lockdown only goes away by a human's unlock. */
  lemma {:induction false} OnlyUnlockLiftsLockdown(w: World, es: seq<Event>, keys: Keys)
    requires w.s.lockdown
    requires forall i :: 0 <= i < |es| ==> !es[i].Unlock?
    ensures Run(w, es, keys).s.lockdown
  {
    if es != [] {
      OnlyUnlockLiftsLockdown(w, es[..|es| - 1], keys);
    }
  }

  /** After an administrator's reset, a file changed since then makes a check lock down exactly from ten minutes on. */
  lemma GraceLastsTenMinutes(w: World, resetAt: int, host: Host, at: int, f: string, keys: Keys)
    requires resetAt != 0 && f in w.host.disk && Monitored(f)
    requires Lookup(host.disk, f) != Some(w.host.disk[f])
    ensures Run(w, [AdminReset(resetAt), Edit(host), Check(at)], keys).s.lockdown <==>
            w.s.lockdown || at - resetAt >= 600000
  {
    var es := [AdminReset(resetAt), Edit(host), Check(at)];
    assert es[..2][..1] == es[..1] && es[..1][..0] == [];
    var t := Step(Step(w, es[0], keys), es[1], keys);
    assert Run(w, es[..1], keys) == Step(w, es[0], keys);
    assert Run(w, es[..2], keys) == t;
    assert FileDeviates(t.s.mem, t.host, f);
  }

  /** A saved baseline records what the service observed: hashes, users, and the commit checked out. */
  lemma SavedExactly(s: State, host: Host, now: int, keys: Keys)
    ensures Save(s, host, now, keys).external
            == Readable(Baseline(s.mem.hashes, s.mem.userCount, s.mem.userHash, host.gitHead, now))
    ensures Save(s, host, now, keys).mem == s.mem && Save(s, host, now, keys).lockdown == s.lockdown
  {
  }

  /** A restart that finds changed files at an unmoved commit goes on with the known-good baseline in memory, its user
      table included, leaves the baseline file and locks down. */
  lemma TamperingRestoresKnownGood(s: State, host: Host, now: int, keys: Keys)
    requires s.external.Readable? && AnyTampered(s.external.baseline, host)
    requires s.anchor.Some? ==> AnchorOf(keys, s.external.baseline) == s.anchor
    requires s.external.baseline.gitCommit == host.gitHead || s.external.baseline.gitCommit.None? || host.gitHead.None?
    ensures var t, b := Establish(s, host, now, keys), s.external.baseline;
            && t.external == s.external && t.anchor == s.anchor && t.lockdown
            && t.mem.hashes == b.hashes
            && t.mem.userCount == (if b.userCount == 0 then host.userCount else b.userCount)
            && t.mem.userHash == (if b.userHash.None? then host.userHash else b.userHash)
            && t.mem.configHash == Lookup(host.disk, "darkhan.config.json") && t.mem.lastResetAt == None
  {
  }

  /** A baseline taken at one commit accepts whatever files come with another one: the restart takes stock and locks
      nothing. */
  lemma PulledFilesAreAccepted(w: World, host: Host, savedAt: int, at: int, keys: Keys)
    requires w.host.gitHead.Some? && host.gitHead.Some? && w.host.gitHead != host.gitHead
    requires keys.HasSecret() || w.s.anchor.None?
    ensures var t := Run(w, [AdminReset(savedAt), Edit(host), Boot(at)], keys);
            && t.s.lockdown == w.s.lockdown
            && t.s.external == Readable(Baseline(Snapshot(host.disk), host.userCount, host.userHash, host.gitHead, at))
  {
    var es := [AdminReset(savedAt), Edit(host), Boot(at)];
    assert es[..2][..1] == es[..1] && es[..1][..0] == [];
    assert Run(w, es[..1], keys) == Step(w, es[0], keys);
    assert Run(w, es[..2], keys) == Step(Step(w, es[0], keys), es[1], keys);
    ObservedIsClean(host);
  }

  // ---- Where the promise stops ----

  /** Presence at the restart is exactly what keeps a file's hash: the comparison skips files that are
      missing, so a restart without the file forgets it, unless some other file was changed too. */
  lemma RestartForgetsMissingFiles(w: World, at: int, f: string, h: Hash, head: Option<string>, keys: Keys)
    requires Vouched(w.s, f, h, head, keys) && w.host.gitHead == head
    ensures var t := Step(w, Boot(at), keys);
            Vouched(t.s, f, h, head, keys) <==> f in w.host.disk || AnyTampered(w.s.external.baseline, w.host)
  {
    if f in w.host.disk {
      BootKeepsPin(w, at, f, h, head, keys);
    }
  }

  /** The environment of the exact claim: no reset, and the checked-out commit stays. */
  predicate KeepsCommit(e: Event, head: Option<string>) {
    match e
    case Edit(host) => host.gitHead == head
    case AdminReset(_) => false
    case _ => true
  }

  /** The baseline vouches for the file with that hash in every state of the run. */
  ghost predicate AlwaysVouched(w: World, es: seq<Event>, f: string, h: Hash, head: Option<string>, keys: Keys) {
    Vouched(Run(w, es, keys).s, f, h, head, keys) && (es != [] ==> AlwaysVouched(w, es[..|es| - 1], f, h, head, keys))
  }

  /** Every restart of the run finds the file there, or some other file changed. */
  ghost predicate BootsFindFile(w: World, es: seq<Event>, f: string, keys: Keys) {
    es != [] ==>
      && BootsFindFile(w, es[..|es| - 1], f, keys)
      && var v := Run(w, es[..|es| - 1], keys);
        (es[|es| - 1].Boot? ==>
           f in v.host.disk || (v.s.external.Readable? && AnyTampered(v.s.external.baseline, v.host)))
  }

  /** The same over runs, whatever happens to the file between restarts. */
  lemma {:induction false} AlwaysVouchedExactly(
    w: World, es: seq<Event>, f: string, h: Hash, head: Option<string>, keys: Keys)
    requires Vouched(w.s, f, h, head, keys) && w.host.gitHead == head
    requires forall i :: 0 <= i < |es| ==> KeepsCommit(es[i], head)
    ensures AlwaysVouched(w, es, f, h, head, keys) <==> BootsFindFile(w, es, f, keys)
    ensures Run(w, es, keys).host.gitHead == head
  {
    hide Vouched, Establish, AnyTampered, Verify;
    if es != [] {
      var init, e := es[..|es| - 1], es[|es| - 1];
      var v := Run(w, init, keys);
      AlwaysVouchedExactly(w, init, f, h, head, keys);
      assert KeepsCommit(e, head);
      if Vouched(v.s, f, h, head, keys) {
        StepVouchesExactly(v, e, f, h, head, keys);
      }
    }
  }

  lemma StepVouchesExactly(v: World, e: Event, f: string, h: Hash, head: Option<string>, keys: Keys)
    requires Vouched(v.s, f, h, head, keys) && v.host.gitHead == head && KeepsCommit(e, head)
    ensures v.s.external.Readable?
    ensures Vouched(Step(v, e, keys).s, f, h, head, keys) <==>
            (e.Boot? ==> f in v.host.disk || AnyTampered(v.s.external.baseline, v.host))
  {
    if e.Boot? {
      RestartForgetsMissingFiles(v, e.bootedAt, f, h, head, keys);
    }
  }

  /** So a file that is deleted, missed by one restart, and put back with other content is accepted:
      the second restart vouches for the new hash and locks nothing. */
  lemma DeletedFileReturnsChanged(w: World, f: string, h: Hash, h': Hash, head: Option<string>, keys: Keys)
    requires Pinned(w, f, h, head, keys) && h' != h
    requires !w.s.lockdown && !AnyTampered(w.s.external.baseline, w.host)
    ensures var without := w.host.(disk := w.host.disk - {f});
            var back := w.host.(disk := w.host.disk[f := h']);
            var t := Run(w, [Edit(without), Boot(1), Edit(back), Boot(2)], keys);
            !t.s.lockdown && Vouched(t.s, f, h', head, keys)
  {
    var b := w.s.external.baseline;
    var without := w.host.(disk := w.host.disk - {f});
    var back := w.host.(disk := w.host.disk[f := h']);
    var es := [Edit(without), Boot(1), Edit(back), Boot(2)];
    assert es[..3][..2] == es[..2] && es[..2][..1] == es[..1] && es[..1][..0] == [];
    assert forall g :: Tampered(b, without, g) ==> Tampered(b, w.host, g);
    var t1 := Step(Step(w, es[0], keys), es[1], keys);
    assert Establish(w.s, without, 1, keys).external.baseline.hashes == Snapshot(without.disk);
    ObservedIsClean(without);
    assert !t1.s.lockdown && t1.s.external.baseline.hashes == Snapshot(without.disk);
    assert forall g :: !Tampered(t1.s.external.baseline, back, g);
    ObservedIsClean(back);
    assert Run(w, [], keys) == w;
    assert Run(w, es[..1], keys) == Step(w, es[0], keys);
    assert Run(w, es[..2], keys) == t1;
    assert Run(w, es[..3], keys) == Step(t1, es[2], keys);
  }

  lemma ObservedIsClean(host: Host)
    ensures Clean(Observe(host), Tightened(host))
  {
  }

  /** A baseline file that parses, exchanged by someone without the secret, never takes over: no edit, check or
      restart replaces it or its anchor, and from the first restart on lockdown is on until a human unlocks. */
  lemma {:induction false} ForgedBaselineNeverTakesOver(w: World, es: seq<Event>, forged: Baseline, keys: Keys)
    requires w.s.external == Readable(forged)
    requires w.s.anchor.Some? && AnchorOf(keys, forged) != w.s.anchor
    requires forall i :: 0 <= i < |es| ==> !es[i].AdminReset? && !es[i].Unlock?
    ensures var t := Run(w, es, keys).s;
            && t.external == Readable(forged) && t.anchor == w.s.anchor
            && ((exists i :: 0 <= i < |es| && es[i].Boot?) ==> t.lockdown)
  {
    if es != [] {
      var n := |es| - 1;
      ForgedBaselineNeverTakesOver(w, es[..n], forged, keys);
      if !es[n].Boot? && exists i :: 0 <= i < |es| && es[i].Boot? {
        var i :| 0 <= i < |es| && es[i].Boot?;
        assert es[..n][i].Boot?;
      }
    }
  }

  /** The file is there, but does not carry the stored anchor. */
  predicate Mismatched(s: State, keys: Keys) {
    s.anchor.Some? && (s.external.Garbled? || (s.external.Readable? && AnchorOf(keys, s.external.baseline) != s.anchor))
  }

  /** Of the files that do not carry the stored anchor, a restart locks down on the ones that parse and leaves
      them alone. One that does not parse is replaced by what is on disk, anchored anew when a secret is
      configured, and not even noticed. */
  lemma RestartReplacesExactlyGarbledFiles(w: World, at: int, keys: Keys)
    requires Mismatched(w.s, keys)
    ensures var t := Step(w, Boot(at), keys);
            && (t.s.external != w.s.external <==> w.s.external.Garbled?)
            && (w.s.external.Readable? ==> t.s.lockdown && t.s.anchor == w.s.anchor)
            && (w.s.external.Garbled? ==>
                  && t.s.external.Readable? && t.s.external.baseline.hashes == Snapshot(w.host.disk)
                  && (keys.HasSecret() ==> t.s.anchor == AnchorOf(keys, t.s.external.baseline))
                  && t.s.lockdown == w.s.lockdown)
  {
    ObservedIsClean(w.host);
  }

  /** Nor does a missing baseline file stay away: every restart ends with one for what is on disk. After the lockdown
      for a suspicious deletion it is the check before loading that writes it. With a secret its anchor is in order,
      and the next restart trusts it, whatever the files were before. */
  lemma MissingBaselineIsRewritten(w: World, at: int, f: string, keys: Keys)
    requires w.s.external.Missing? && f in w.host.disk && Monitored(f)
    ensures var t := Step(w, Boot(at), keys);
            && t.s.external.Readable? && t.s.external.baseline.hashes == Snapshot(w.host.disk)
            && (Pinned(t, f, w.host.disk[f], w.host.gitHead, keys) <==> keys.HasSecret() || w.s.anchor.None?)
            && (keys.HasSecret() ==> Trusts(t.s, t.host, keys))
            && t.s.lockdown == (w.s.lockdown || !Trusts(w.s, w.host, keys))
  {
    ObservedIsClean(w.host);
    assert f in Snapshot(w.host.disk);
    SavedBaselinePins(w, w.s.(mem := Observe(w.host)), at, f, keys);
  }

  // ---- When the workers are loaded ----

  /** The check before loading finds nothing (server/server.js), so `loadAll` is called. */
  predicate LoadsWorkers(w: World, at: int, keys: Keys) {
    Clean(Establish(w.s, w.host, at, keys).mem, Tightened(w.host))
  }

  /** The restart found files changed at an unmoved commit, against a baseline it had no reason to doubt. */
  predicate FindsTampering(s: State, host: Host, keys: Keys) {
    && s.external.Readable? && (s.anchor.Some? ==> AnchorOf(keys, s.external.baseline) == s.anchor)
    && AnyTampered(s.external.baseline, host) && !GitMoved(s.external.baseline, host)
  }

  /** Of the restarts that lock down, only the ones that find changed files keep the workers from being loaded: there
      the known-good baseline is what the check compares with. After an anchor mismatch or a suspicious deletion it
      compares the disk with itself, finds nothing, and the workers are loaded under lockdown. */
  lemma WorkersLoadUnlessFilesChanged(w: World, at: int, keys: Keys)
    ensures LoadsWorkers(w, at, keys) <==> !FindsTampering(w.s, w.host, keys)
    ensures !Trusts(w.s, w.host, keys) ==> Step(w, Boot(at), keys).s.lockdown
  {
    ObservedIsClean(w.host);
    if FindsTampering(w.s, w.host, keys) {
      var b := w.s.external.baseline;
      var f :| f in b.hashes && Tampered(b, w.host, f);
      assert FileDeviates(Establish(w.s, w.host, at, keys).mem, Tightened(w.host), f);
    }
  }
}
