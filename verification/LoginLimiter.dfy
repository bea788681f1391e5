/** The login limiter (server/routes/auth.js): failed logins per address and per address and user, in a
    map backed by table login_attempts. */
module LoginLimiter {

  const WINDOW_MS := 900000
  const IP_RATE_LIMIT := 5
  const MINUTE_MS := 60000

  datatype Record = Record(count: nat, first: int, last: int)

  /** What the request turns out to be: without a name or password, or judged by the credential check after
      the limiter. `StoreError` is an answer of 500. */
  datatype Outcome = MissingField | BadCredentials | GoodCredentials | StoreError

  /** A failed check of credentials from an address. `first` is the start of the window it was counted in. */
  datatype Failed = Failed(ip: string, at: int, first: int)

  /** The map, the table, whether the table has been read since the process started, and all failed checks. */
  datatype State = State(memory: map<string, Record>, table: map<string, Record>, loaded: bool, fails: seq<Failed>)

  function UserKey(ip: string, username: string): string {
    ip + ":" + username
  }

  function IpKey(ip: string): string {
    "iponly:" + ip
  }

  /** Addresses are numeric, or the word "unknown": none begins like the prefix of the per-address keys. */
  predicate RealAddress(ip: string) {
    ip != "" && ip[0] != 'i'
  }

  function LockoutMinutes(failCount: nat): (minutes: nat)
    ensures failCount < 5 <==> minutes == 0
    ensures minutes * MINUTE_MS <= WINDOW_MS
  {
    if failCount >= 15 then 15 else if failCount >= 10 then 5 else if failCount >= 5 then 1 else 0
  }

  predicate Expired(r: Record, now: int) {
    now - r.first > WINDOW_MS
  }

  predicate IpBlocked(memory: map<string, Record>, ip: string, now: int) {
    IpKey(ip) in memory && var r := memory[IpKey(ip)]; !Expired(r, now) && r.count >= IP_RATE_LIMIT
  }

  predicate UserBlocked(memory: map<string, Record>, ip: string, username: string, now: int) {
    var key := UserKey(ip, username);
    key in memory && var r := memory[key];
      !Expired(r, now) && LockoutMinutes(r.count) != 0 && now - r.last < LockoutMinutes(r.count) * MINUTE_MS
  }

  /** An address is refused exactly with five failures in a record of at most fifteen minutes. An address and a name
      are refused exactly within a minute of their last failure from the fifth on, within five minutes from the tenth,
      within fifteen from the fifteenth, as long as their record is at most fifteen minutes old. */
  lemma RefusedExactly(memory: map<string, Record>, ip: string, username: string, now: int)
    ensures IpBlocked(memory, ip, now) <==>
              var k := "iponly:" + ip; k in memory && now - memory[k].first <= 900000 && memory[k].count >= 5
    ensures UserBlocked(memory, ip, username, now) <==>
              var k := ip + ":" + username;
              k in memory && now - memory[k].first <= 900000
              && var count, since := memory[k].count, now - memory[k].last;
                 || (5 <= count < 10 && since < 60000)
                 || (10 <= count < 15 && since < 300000)
                 || (count >= 15 && since < 900000)
  {
  }

  /** A check forgets the record it looks at when that has expired. */
  function Pruned(memory: map<string, Record>, key: string, now: int): map<string, Record> {
    if key in memory && Expired(memory[key], now) then memory - {key} else memory
  }

  function Bumped(memory: map<string, Record>, key: string, now: int): Record {
    if key in memory && !Expired(memory[key], now)
    then Record(memory[key].count + 1, memory[key].first, now)
    else Record(1, now, now)
  }

  /** `_recordFailedLogin`, for one of its two keys. */
  function Count(s: State, key: string, now: int): State {
    var r := Bumped(s.memory, key, now);
    s.(memory := s.memory[key := r], table := s.table[key := r])
  }

  /** A failure counts in the live record, which keeps its start, or opens a new one; either notes its time. */
  lemma CountedExactly(s: State, key: string, now: int)
    ensures var t := Count(s, key, now); var live := key in s.memory && now - s.memory[key].first <= 900000;
            && key in t.memory && key in t.table && t.table[key] == t.memory[key] && t.memory[key].last == now
            && t.memory[key].count == (if live then s.memory[key].count + 1 else 1)
            && t.memory[key].first == (if live then s.memory[key].first else now)
            && (forall k :: k != key ==> (k in t.memory <==> k in s.memory) && (k in t.table <==> k in s.table))
            && (forall k :: k != key && k in s.memory ==> t.memory[k] == s.memory[k])
            && (forall k :: k != key && k in s.table ==> t.table[k] == s.table[k])
  {
  }

  /** The rows that `_initBruteForceDb` takes over. */
  function Reload(table: map<string, Record>, now: int): map<string, Record> {
    map k | k in table && now - table[k].first < WINDOW_MS :: table[k]
  }

  function Load(s: State, now: int): State {
    if s.loaded then s
    else s.(memory := s.memory + Reload(s.table, now), table := Reload(s.table, now), loaded := true)
  }

  predicate Blocked(s: State, ip: string, username: string, now: int) {
    IpBlocked(s.memory, ip, now) || UserBlocked(Pruned(s.memory, IpKey(ip), now), ip, username, now)
  }

  /** The two checks. */
  function Checked(s: State, ip: string, username: string, now: int): State {
    var afterIp := Pruned(s.memory, IpKey(ip), now);
    s.(memory := if IpBlocked(s.memory, ip, now) then afterIp else Pruned(afterIp, UserKey(ip, username), now))
  }

  /** A login request. The first one of a process starts to read the table, but is itself checked before
      the rows arrive; they are there when its outcome is recorded. */
  function Login(s: State, ip: string, username: string, outcome: Outcome, now: int): State {
    var checked := Checked(s, ip, username, now);
    if outcome == MissingField then Load(s, now)
    else if Blocked(s, ip, username, now) then Load(checked, now)
    else
      var ready := Load(checked, now);
      match outcome
      case GoodCredentials =>
        ready.(memory := ready.memory - {UserKey(ip, username)}, table := ready.table - {UserKey(ip, username)})
      case BadCredentials =>
        var counted := Count(Count(ready, UserKey(ip, username), now), IpKey(ip), now);
        counted.(fails := counted.fails + [Failed(ip, now, counted.memory[IpKey(ip)].first)])
      case _ => ready
  }

  datatype Event =
    | Attempt(ip: string, username: string, outcome: Outcome, at: int)
    | Restart

  function Step(s: State, e: Event): State {
    match e
    case Attempt(ip, username, outcome, at) => Login(s, ip, username, outcome, at)
    case Restart => s.(memory := map[], loaded := false)
  }

  function Run(s: State, es: seq<Event>): State {
    if es == [] then s else Step(Run(s, es[..|es| - 1]), es[|es| - 1])
  }

  // ---- The failures of one address ----

  function FailsOf(fails: seq<Failed>, ip: string): seq<Failed> {
    if fails == [] then []
    else FailsOf(fails[..|fails| - 1], ip) + if fails[|fails| - 1].ip == ip then [fails[|fails| - 1]] else []
  }

  /** How many failures belong to the window that starts at `v`. */
  function InWindow(f: seq<Failed>, v: int): nat {
    if f == [] then 0 else InWindow(f[..|f| - 1], v) + if f[|f| - 1].first == v then 1 else 0
  }

  /** How many of the failures fall into an interval. */
  function CountIn(f: seq<Failed>, lo: int, hi: int): nat {
    if f == [] then 0 else CountIn(f[..|f| - 1], lo, hi) + if lo <= f[|f| - 1].at <= hi then 1 else 0
  }

  /** Each failure lies in its window, and the windows start `gap` apart at least. */
  ghost predicate Banded(f: seq<Failed>, gap: int) {
    f != [] ==>
      && Banded(f[..|f| - 1], gap)
      && f[|f| - 1].first <= f[|f| - 1].at <= f[|f| - 1].first + WINDOW_MS
      && (|f| >= 2 ==>
            && f[|f| - 2].at <= f[|f| - 1].at
            && (f[|f| - 1].first == f[|f| - 2].first || f[|f| - 1].first >= f[|f| - 2].first + gap))
  }

  lemma KeysDiffer(ip: string, username: string, other: string)
    requires RealAddress(ip)
    ensures UserKey(ip, username) != IpKey(other)
  {
    assert UserKey(ip, username)[0] == ip[0] && IpKey(other)[0] == 'i';
  }

  lemma IpKeysDiffer(ip: string, other: string)
    requires IpKey(ip) == IpKey(other)
    ensures ip == other
  {
    assert IpKey(ip)[7..] == ip && IpKey(other)[7..] == other;
  }

  lemma FailsSnoc(fails: seq<Failed>, x: Failed, ip: string)
    ensures FailsOf(fails + [x], ip) == if x.ip == ip then FailsOf(fails, ip) + [x] else FailsOf(fails, ip)
  {
    assert (fails + [x])[..|fails|] == fails;
  }

  /** What a login does to the address's own record, once the table has been read. */
  lemma OwnRecord(s: State, ip: string, username: string, outcome: Outcome, now: int)
    requires RealAddress(ip) && (!s.loaded ==> s.memory == map[])
    ensures var t, ready, k := Login(s, ip, username, outcome, now), Load(s, now), IpKey(ip);
            var counts := outcome == BadCredentials && !Blocked(s, ip, username, now);
            && t.loaded
            && (counts ==> && k in t.memory && t.memory[k] == Bumped(ready.memory, k, now)
                           && k in t.table && t.table[k] == t.memory[k]
                           && t.fails == s.fails + [Failed(ip, now, t.memory[k].first)])
            && (!counts ==> && t.fails == s.fails && SameAt(t.table, ready.table, k)
                            && (SameAt(t.memory, ready.memory, k)
                                || (k !in t.memory && k in ready.memory && Expired(ready.memory[k], now))))
  {
    KeysDiffer(ip, username, ip);
  }

  predicate SameAt(a: map<string, Record>, b: map<string, Record>, k: string) {
    if k in a then k in b && a[k] == b[k] else k !in b
  }

  /** A login from elsewhere leaves it alone. */
  lemma OthersRecord(s: State, ip: string, from: string, username: string, outcome: Outcome, now: int)
    requires RealAddress(from) && from != ip && (!s.loaded ==> s.memory == map[])
    ensures var t, ready, k := Login(s, from, username, outcome, now), Load(s, now), IpKey(ip);
            && t.loaded
            && SameAt(t.memory, ready.memory, k) && SameAt(t.table, ready.table, k)
            && (t.fails == s.fails || exists x: Failed :: x.ip != ip && t.fails == s.fails + [x])
  {
    KeysDiffer(from, username, ip);
    if IpKey(from) == IpKey(ip) {
      IpKeysDiffer(from, ip);
    }
  }

  /** A process that starts on an empty table. */
  const NEW := State(map[], map[], false, [])

  // ---- Restarts ----

  /** The table holds every record of the map; what else it holds has expired. */
  ghost predicate Synced(s: State, clock: int) {
    && s.loaded
    && (forall k :: k in s.memory ==> k in s.table && s.table[k] == s.memory[k])
    && (forall k :: k in s.table && k !in s.memory ==> Expired(s.table[k], clock))
  }

  lemma LoginSyncs(s: State, clock: int, ip: string, username: string, outcome: Outcome, now: int)
    requires Synced(s, clock) && clock <= now
    ensures Synced(Login(s, ip, username, outcome, now), now)
  {
  }

  /** The first login of a process reads the table; its own checks find the empty map. */
  lemma FirstLoginSyncs(s: State, ip: string, username: string, outcome: Outcome, now: int)
    requires !s.loaded && s.memory == map[]
    ensures Synced(Login(s, ip, username, outcome, now), now)
  {
    var ready := Load(s, now);
    assert ready.memory == Reload(s.table, now) == ready.table;
    NothingBlocksUnread(s, ip, username, now);
    assert Checked(s, ip, username, now) == s;
  }

  /** Over every run from a new installation, restarts included: once the table is read, it holds every record of the
      map, and what else it holds has expired; before that, the map is empty. */
  lemma {:induction false} RunSyncs(es: seq<Event>, clock: int)
    requires InOrder(es) && forall i :: 0 <= i < |es| && es[i].Attempt? ==> clock <= es[i].at
    ensures var s := Run(NEW, es); if s.loaded then Synced(s, LastAt(es, clock)) else s.memory == map[]
  {
    hide Login, Synced, RealAddress;
    if es != [] {
      var n := |es| - 1;
      var s, e := Run(NEW, es[..n]), es[n];
      RunSyncs(es[..n], clock);
      if e.Attempt? {
        LastAtBound(es[..n], clock, e.at);
        if s.loaded {
          LoginSyncs(s, LastAt(es[..n], clock), e.ip, e.username, e.outcome, e.at);
        } else {
          FirstLoginSyncs(s, e.ip, e.username, e.outcome, e.at);
        }
        SyncedIsLoaded(Run(NEW, es), e.at);
      }
    }
  }

  lemma SyncedIsLoaded(s: State, clock: int)
    requires Synced(s, clock)
    ensures s.loaded
  {
  }

  /** Reloading the table at time `now` answers every later check as the lost map would have, except at
      one instant: a record that is exactly as old as the window is dropped, though the map still blocked. */
  lemma ReloadAlike(s: State, clock: int, ip: string, username: string, now: int, t: int)
    requires Synced(s, clock) && clock <= now <= t
    ensures var again := Reload(s.table, now); var k := IpKey(ip); var u := UserKey(ip, username);
            && ((IpBlocked(again, ip, t) <==> IpBlocked(s.memory, ip, t)) <==>
                  !(IpBlocked(s.memory, ip, t) && t == now && now - s.memory[k].first == WINDOW_MS))
            && ((UserBlocked(again, ip, username, t) <==> UserBlocked(s.memory, ip, username, t)) <==>
                  !(UserBlocked(s.memory, ip, username, t) && t == now && now - s.memory[u].first == WINDOW_MS))
  {
  }

  /** So after every run, whatever restarts it had, of a process that has read the table. */
  lemma ReloadAnswersAlike(es: seq<Event>, ip: string, username: string, now: int, t: int)
    requires InOrder(es) && (forall i :: 0 <= i < |es| && es[i].Attempt? ==> es[i].at <= now) && now <= t
    requires Run(NEW, es).loaded
    ensures var s := Run(NEW, es);
            var again := Reload(s.table, now); var k := IpKey(ip); var u := UserKey(ip, username);
            && ((IpBlocked(again, ip, t) <==> IpBlocked(s.memory, ip, t)) <==>
                  !(IpBlocked(s.memory, ip, t) && t == now && now - s.memory[k].first == WINDOW_MS))
            && ((UserBlocked(again, ip, username, t) <==> UserBlocked(s.memory, ip, username, t)) <==>
                  !(UserBlocked(s.memory, ip, username, t) && t == now && now - s.memory[u].first == WINDOW_MS))
  {
    hide Run, Synced, IpBlocked, UserBlocked, Reload, RealAddress, IpKey, UserKey;
    SyncedAt(es, now);
    ReloadAlike(Run(NEW, es), now, ip, username, now, t);
  }

  lemma SyncedAt(es: seq<Event>, now: int)
    requires InOrder(es) && forall i :: 0 <= i < |es| && es[i].Attempt? ==> es[i].at <= now
    requires Run(NEW, es).loaded
    ensures Synced(Run(NEW, es), now)
  {
    var clock := if Earliest(es) <= now then Earliest(es) else now;
    RunSyncs(es, clock);
    LastAtBound(es, clock, now);
  }

  /** The first login of a process is checked before the table has been read: an address that the limiter had blocked,
      in any run, gets one more check, and is blocked again right after. */
  lemma RestartLetsOneThrough(es: seq<Event>, ip: string, username: string, other: string, now: int)
    requires InOrder(es) && (forall i :: 0 <= i < |es| && es[i].Attempt? ==> es[i].at <= now) && RealAddress(ip)
    requires var s := Run(NEW, es); IpBlocked(s.memory, ip, now) && now - s.memory[IpKey(ip)].first < WINDOW_MS
    ensures var s := Run(NEW, es);
            var reborn := Step(s, Restart);
            var after := Step(reborn, Attempt(ip, username, BadCredentials, now));
            && !Blocked(reborn, ip, username, now)
            && FailsOf(after.fails, ip) == FailsOf(s.fails, ip) + [Failed(ip, now, s.memory[IpKey(ip)].first)]
            && Blocked(after, ip, other, now)
  {
    hide Run;
    var s := Run(NEW, es);
    RunSyncs(es, if Earliest(es) <= now then Earliest(es) else now);
    SyncedAt(es, now);
    KeysDiffer(ip, username, ip);
    FailsSnoc(s.fails, Failed(ip, now, s.memory[IpKey(ip)].first), ip);
  }

  /** A good login forgets the failures of its address and name, and leaves the record of the address. */
  lemma SuccessForgets(s: State, ip: string, username: string, now: int)
    requires RealAddress(ip) && s.loaded && !Blocked(s, ip, username, now)
    ensures var t := Login(s, ip, username, GoodCredentials, now);
            && ip + ":" + username !in t.memory && ip + ":" + username !in t.table && t.fails == s.fails
            && (IpKey(ip) in t.table <==> IpKey(ip) in s.table)
            && (IpKey(ip) in s.table ==> t.table[IpKey(ip)] == s.table[IpKey(ip)])
            && (IpKey(ip) in s.memory && now - s.memory[IpKey(ip)].first <= 900000 ==>
                  IpKey(ip) in t.memory && t.memory[IpKey(ip)] == s.memory[IpKey(ip)])
  {
    KeysDiffer(ip, username, ip);
  }

  // ---- Keys ----

  /** No other address and name share the key. */
  ghost predicate KeyIsUnique(ip: string, username: string) {
    forall ip2: string, username2: string :: RealAddress(ip2) && UserKey(ip2, username2) == UserKey(ip, username) ==>
      ip2 == ip && username2 == username
  }

  /** The record of an address and a name is theirs alone exactly when no name or address puts a second colon into the
      key. An address of version 6 of the protocol does: it shares records with others. */
  lemma KeyIsUniqueExactly(ip: string, username: string)
    requires RealAddress(ip)
    ensures KeyIsUnique(ip, username) <==> ':' !in ip[1..] && ':' !in username
  {
    if ':' in ip[1..] {
      var p :| 1 <= p < |ip| && ip[p] == ':';
      assert ip == ip[..p] + ":" + ip[p + 1..];
      assert UserKey(ip[..p], ip[p + 1..] + ":" + username) == UserKey(ip, username);
      assert |ip[..p]| < |ip| && RealAddress(ip[..p]);
    } else if ':' in username {
      var p :| 0 <= p < |username| && username[p] == ':';
      assert username == username[..p] + ":" + username[p + 1..];
      assert UserKey(ip + ":" + username[..p], username[p + 1..]) == UserKey(ip, username);
      assert |ip + ":" + username[..p]| > |ip| && RealAddress(ip + ":" + username[..p]);
    } else {
      forall ip2: string, username2: string | RealAddress(ip2) && UserKey(ip2, username2) == UserKey(ip, username)
        ensures ip2 == ip && username2 == username
      {
        OnlyColon(ip, username, ip2, username2);
      }
    }
  }

  lemma OnlyColon(ip: string, username: string, ip2: string, username2: string)
    requires RealAddress(ip) && RealAddress(ip2) && ':' !in ip[1..] && ':' !in username
    requires UserKey(ip2, username2) == UserKey(ip, username)
    ensures ip2 == ip && username2 == username
  {
    var key := UserKey(ip, username);
    assert key[|ip2|] == ':' && key[|ip|] == ':';
    assert forall p :: 1 <= p < |key| && p != |ip| ==> key[p] != ':' by {
      assert forall p :: 1 <= p < |ip| ==> key[p] == ip[1..][p - 1];
      assert forall p :: |ip| < p < |key| ==> key[p] == username[p - |ip| - 1];
    }
    assert |ip2| == |ip|;
    assert ip == key[..|ip|] == ip2 && username == key[|ip| + 1..] == username2;
  }

  // ---- The limit, over runs with restarts ----

  function Restarts(es: seq<Event>): nat {
    if es == [] then 0 else Restarts(es[..|es| - 1]) + if es[|es| - 1].Restart? then 1 else 0
  }

  /** A failed check that the limiter would have refused: it comes before the table has been read, and the table
      holds a full record of the address that is still in its window. */
  predicate Slips(s: State, e: Event, ip: string) {
    && e.Attempt? && e.ip == ip && e.outcome == BadCredentials && !s.loaded
    && IpKey(ip) in s.table
    && s.table[IpKey(ip)].count >= IP_RATE_LIMIT && e.at - s.table[IpKey(ip)].first < WINDOW_MS
  }

  predicate SlipsTo(s: State, e: Event, ip: string, v: int) {
    Slips(s, e, ip) && s.table[IpKey(ip)].first == v
  }

  /** How many checks slip into the window that starts at `v`. */
  function SlipsInto(s: State, es: seq<Event>, ip: string, v: int): nat {
    if es == [] then 0
    else
      SlipsInto(s, es[..|es| - 1], ip, v) + if SlipsTo(Run(s, es[..|es| - 1]), es[|es| - 1], ip, v) then 1 else 0
  }

  function TotalSlips(s: State, es: seq<Event>, ip: string): nat {
    if es == [] then 0
    else TotalSlips(s, es[..|es| - 1], ip) + if Slips(Run(s, es[..|es| - 1]), es[|es| - 1], ip) then 1 else 0
  }

  predicate NeverSlips(s: State, es: seq<Event>, ip: string) {
    es != [] ==> NeverSlips(s, es[..|es| - 1], ip) && !Slips(Run(s, es[..|es| - 1]), es[|es| - 1], ip)
  }

  /** The table is read at the very end of the address's window, and drops its record one moment early. */
  predicate OnTheEdge(s: State, e: Event, ip: string) {
    e.Attempt? && !s.loaded && IpKey(ip) in s.table && e.at - s.table[IpKey(ip)].first == WINDOW_MS
  }

  predicate NeverOnTheEdge(s: State, es: seq<Event>, ip: string) {
    es != [] ==> NeverOnTheEdge(s, es[..|es| - 1], ip) && !OnTheEdge(Run(s, es[..|es| - 1]), es[|es| - 1], ip)
  }

  /** The address's row describes the last window of its failures, and memory agrees with the row once the table
      has been read. Windows start more than fifteen minutes apart, unless the table was read on the edge. */
  ghost predicate Tracked(s: State, ip: string, gap: int, clock: int) {
    var f, k := FailsOf(s.fails, ip), IpKey(ip);
    && Banded(f, gap)
    && (f != [] ==> f[|f| - 1].at <= clock)
    && (k in s.table ==>
          f != [] && s.table[k].first == f[|f| - 1].first && s.table[k].count == InWindow(f, f[|f| - 1].first))
    && (k !in s.table && f != [] ==> f[|f| - 1].first + gap <= clock)
    && (k in s.memory ==> k in s.table && s.table[k] == s.memory[k])
    && (s.loaded && k in s.table && k !in s.memory ==> Expired(s.table[k], clock))
    && (!s.loaded ==> s.memory == map[])
  }

  /** Which gaps an event leaves between windows. */
  predicate KeepsGap(s: State, e: Event, ip: string, gap: int) {
    gap == WINDOW_MS || (gap == WINDOW_MS + 1 && !OnTheEdge(s, e, ip))
  }

  /** What a step does to the failures of every window. */
  ghost predicate Grows(s: State, t: State, e: Event, ip: string) {
    forall v: int ::
      var before, after := InWindow(FailsOf(s.fails, ip), v), InWindow(FailsOf(t.fails, ip), v);
      if SlipsTo(s, e, ip, v) then before >= IP_RATE_LIMIT && after == before + 1
      else after == before || before < after <= IP_RATE_LIMIT
  }

  lemma BandedSnoc(f: seq<Failed>, x: Failed, gap: int)
    requires Banded(f, gap) && x.first <= x.at <= x.first + WINDOW_MS
    requires f != [] ==> f[|f| - 1].at <= x.at
    requires f != [] ==> x.first == f[|f| - 1].first || x.first >= f[|f| - 1].first + gap
    ensures Banded(f + [x], gap)
    ensures forall v :: InWindow(f + [x], v) == InWindow(f, v) + if x.first == v then 1 else 0
  {
    assert (f + [x])[..|f|] == f;
  }

  lemma BandedLast(f: seq<Failed>, gap: int)
    requires Banded(f, gap)
    ensures f != [] ==> f[|f| - 1].first <= f[|f| - 1].at <= f[|f| - 1].first + WINDOW_MS
  {
  }

  lemma {:induction false} LaterWindowIsEmpty(f: seq<Failed>, gap: int, v: int)
    requires Banded(f, gap) && gap > 0 && (f != [] ==> f[|f| - 1].first < v)
    ensures InWindow(f, v) == 0
  {
    if f != [] {
      LaterWindowIsEmpty(f[..|f| - 1], gap, v);
    }
  }

  lemma LoadTracked(s: State, ip: string, gap: int, clock: int, e: Event)
    requires e.Attempt? && Tracked(s, ip, gap, clock) && clock <= e.at && KeepsGap(s, e, ip, gap)
    ensures var ready := Load(s, e.at); Tracked(ready, ip, gap, e.at) && ready.loaded && ready.fails == s.fails
  {
    hide Banded, InWindow, FailsOf, IpKey;
  }

  /** A failed check was counted in the address's record. */
  lemma CountedTracked(s: State, t: State, ip: string, gap: int, now: int)
    requires Tracked(s, ip, gap, now) && gap >= WINDOW_MS && s.loaded && t.loaded
    requires var k := IpKey(ip);
             && k in t.memory && t.memory[k] == Bumped(s.memory, k, now) && k in t.table && t.table[k] == t.memory[k]
             && t.fails == s.fails + [Failed(ip, now, t.memory[k].first)]
    requires gap <= WINDOW_MS + 1
    ensures Tracked(t, ip, gap, now)
    ensures var f, g, first := FailsOf(s.fails, ip), FailsOf(t.fails, ip), t.memory[IpKey(ip)].first;
            && (forall v :: InWindow(g, v) == InWindow(f, v) + if v == first then 1 else 0)
            && (IpKey(ip) in s.memory && !Expired(s.memory[IpKey(ip)], now) ==>
                  first == s.memory[IpKey(ip)].first && InWindow(f, first) == s.memory[IpKey(ip)].count)
            && (IpKey(ip) !in s.memory || Expired(s.memory[IpKey(ip)], now) ==> InWindow(f, first) == 0)
  {
    hide Banded, InWindow, FailsOf, IpKey;
    var f, x := FailsOf(s.fails, ip), Failed(ip, now, t.memory[IpKey(ip)].first);
    FailsSnoc(s.fails, x, ip);
    BandedLast(f, gap);
    BandedSnoc(f, x, gap);
    if f != [] && f[|f| - 1].first < x.first {
      LaterWindowIsEmpty(f, gap, x.first);
    }
    if f == [] {
      EmptyWindow(x.first);
    }
  }

  lemma EmptyWindow(v: int)
    ensures InWindow([], v) == 0
  {
  }

  lemma NothingBlocksUnread(s: State, ip: string, username: string, now: int)
    ensures s.memory == map[] ==> !Blocked(s, ip, username, now)
  {
  }

  lemma OwnAttemptTracked(s: State, ip: string, gap: int, clock: int, e: Event)
    requires e.Attempt? && e.ip == ip && RealAddress(ip) && clock <= e.at
    requires Tracked(s, ip, gap, clock) && KeepsGap(s, e, ip, gap)
    ensures Tracked(Step(s, e), ip, gap, e.at) && Grows(s, Step(s, e), e, ip)
  {
    hide Step, Login, Banded, InWindow, FailsOf, UserBlocked, IpKey, RealAddress, Bumped;
    StepIsLogin(s, e);
    NothingBlocksUnread(s, ip, e.username, e.at);
    OwnRecord(s, ip, e.username, e.outcome, e.at);
    LoadTracked(s, ip, gap, clock, e);
    if e.outcome == BadCredentials && !Blocked(s, ip, e.username, e.at) {
      CountedTracked(Load(s, e.at), Step(s, e), ip, gap, e.at);
    }
  }

  lemma OtherAttemptTracked(s: State, ip: string, gap: int, clock: int, e: Event)
    requires e.Attempt? && e.ip != ip && RealAddress(e.ip) && clock <= e.at
    requires Tracked(s, ip, gap, clock) && KeepsGap(s, e, ip, gap)
    ensures Tracked(Step(s, e), ip, gap, e.at) && Grows(s, Step(s, e), e, ip)
  {
    hide Step, Login, Banded, InWindow, FailsOf, IpKey, RealAddress;
    StepIsLogin(s, e);
    OthersRecord(s, ip, e.ip, e.username, e.outcome, e.at);
    LoadTracked(s, ip, gap, clock, e);
    var t := Step(s, e);
    if t.fails != s.fails {
      var x: Failed :| x.ip != ip && t.fails == s.fails + [x];
      FailsSnoc(s.fails, x, ip);
    }
  }

  lemma RestartTracked(s: State, ip: string, gap: int, clock: int)
    requires Tracked(s, ip, gap, clock)
    ensures Tracked(Step(s, Restart), ip, gap, clock) && Grows(s, Step(s, Restart), Restart, ip)
  {
    hide Banded, InWindow, FailsOf, IpKey;
  }

  lemma StepIsLogin(s: State, e: Event)
    requires e.Attempt?
    ensures Step(s, e) == Login(s, e.ip, e.username, e.outcome, e.at)
  {
  }

  /** The time of the last attempt. */
  function LastAt(es: seq<Event>, clock: int): int {
    if es == [] then clock
    else if es[|es| - 1].Attempt? then es[|es| - 1].at
    else LastAt(es[..|es| - 1], clock)
  }

  /** The clock does not go back, and addresses are real. */
  predicate InOrder(es: seq<Event>) {
    && (forall i :: 0 <= i < |es| && es[i].Attempt? ==> RealAddress(es[i].ip))
    && forall i, j :: 0 <= i < j < |es| && es[i].Attempt? && es[j].Attempt? ==> es[i].at <= es[j].at
  }

  function Earliest(es: seq<Event>): (t: int)
    ensures forall i :: 0 <= i < |es| && es[i].Attempt? ==> t <= es[i].at
  {
    if es == [] then 0
    else
      var t, last := Earliest(es[..|es| - 1]), es[|es| - 1];
      if last.Attempt? && last.at < t then last.at else t
  }

  lemma {:induction false} LastAtBound(es: seq<Event>, clock: int, now: int)
    requires clock <= now && forall i :: 0 <= i < |es| && es[i].Attempt? ==> es[i].at <= now
    ensures LastAt(es, clock) <= now
  {
    if es != [] {
      LastAtBound(es[..|es| - 1], clock, now);
    }
  }

  lemma StepTracked(s: State, ip: string, gap: int, clock: int, e: Event)
    requires Tracked(s, ip, gap, clock) && KeepsGap(s, e, ip, gap)
    requires e.Attempt? ==> RealAddress(e.ip) && clock <= e.at
    ensures Tracked(Step(s, e), ip, gap, if e.Attempt? then e.at else clock) && Grows(s, Step(s, e), e, ip)
  {
    hide Tracked, Step, Grows, RealAddress, KeepsGap;
    if e.Restart? {
      RestartTracked(s, ip, gap, clock);
    } else if e.ip == ip {
      OwnAttemptTracked(s, ip, gap, clock, e);
    } else {
      OtherAttemptTracked(s, ip, gap, clock, e);
    }
  }

  lemma {:induction false} RunTracked(es: seq<Event>, ip: string, gap: int, clock: int)
    requires InOrder(es) && forall i :: 0 <= i < |es| && es[i].Attempt? ==> clock <= es[i].at
    requires gap == WINDOW_MS || (gap == WINDOW_MS + 1 && NeverOnTheEdge(NEW, es, ip))
    ensures Tracked(Run(NEW, es), ip, gap, LastAt(es, clock))
    ensures es != [] ==> Grows(Run(NEW, es[..|es| - 1]), Run(NEW, es), es[|es| - 1], ip)
  {
    hide Tracked, Step, RealAddress, Grows, OnTheEdge;
    if es == [] {
      NewIsTracked(ip, gap, clock);
    } else {
      var n := |es| - 1;
      RunTracked(es[..n], ip, gap, clock);
      if es[n].Attempt? {
        LastAtBound(es[..n], clock, es[n].at);
      }
      StepTracked(Run(NEW, es[..n]), ip, gap, LastAt(es[..n], clock), es[n]);
    }
  }

  lemma NewIsTracked(ip: string, gap: int, clock: int)
    ensures Tracked(NEW, ip, gap, clock)
  {
  }

  /** How far a window can be overrun: by the checks that slip into it, of which every restart allows one at most. */
  lemma {:induction false} WindowHoldsFiveAndSlips(es: seq<Event>, ip: string, v: int)
    requires InOrder(es)
    ensures InWindow(FailsOf(Run(NEW, es).fails, ip), v) <= IP_RATE_LIMIT + SlipsInto(NEW, es, ip, v)
    ensures SlipsInto(NEW, es, ip, v) <= TotalSlips(NEW, es, ip) <= Restarts(es)
  {
    hide Step, SlipsTo, Slips, RealAddress;
    SlipsNeedRestarts(es, ip);
    if es != [] {
      var n := |es| - 1;
      WindowHoldsFiveAndSlips(es[..n], ip, v);
      RunTracked(es, ip, WINDOW_MS, Earliest(es));
      SlipsToSlips(Run(NEW, es[..n]), es[n], ip, v);
    }
  }

  lemma SlipsToSlips(s: State, e: Event, ip: string, v: int)
    ensures SlipsTo(s, e, ip, v) ==> Slips(s, e, ip)
  {
  }

  /** A restart brings back the one moment in which a check can slip through. */
  lemma {:induction false} SlipsNeedRestarts(es: seq<Event>, ip: string)
    ensures var s := Run(NEW, es);
            TotalSlips(NEW, es, ip) + (if !s.loaded && s.table != map[] then 1 else 0) <= Restarts(es)
  {
    if es != [] {
      SlipsNeedRestarts(es[..|es| - 1], ip);
      SlipStep(Run(NEW, es[..|es| - 1]), es[|es| - 1], ip);
    }
  }

  lemma SlipStep(s: State, e: Event, ip: string)
    ensures Slips(s, e, ip) ==> !s.loaded && s.table != map[]
    ensures e.Attempt? ==> Step(s, e).loaded
  {
    hide Blocked, UserKey, IpKey;
  }

  /** From a new installation on, over any mix of logins and restarts on a clock that does not go back: no window
      of the address ever counts more than five failed checks if and only if none slips. */
  lemma FivePerWindowExactly(es: seq<Event>, ip: string)
    requires InOrder(es)
    ensures (forall v: int :: InWindow(FailsOf(Run(NEW, es).fails, ip), v) <= IP_RATE_LIMIT) <==>
            NeverSlips(NEW, es, ip)
  {
    hide Step, InWindow, FailsOf, Slips, RealAddress;
    if NeverSlips(NEW, es, ip) {
      forall v: int ensures InWindow(FailsOf(Run(NEW, es).fails, ip), v) <= IP_RATE_LIMIT {
        WindowHoldsFiveAndSlips(es, ip, v);
        NoSlipsInto(es, ip, v);
      }
    } else {
      SlipOverfills(es, ip);
    }
  }

  lemma {:induction false} NoSlipsInto(es: seq<Event>, ip: string, v: int)
    requires NeverSlips(NEW, es, ip)
    ensures SlipsInto(NEW, es, ip, v) == 0
  {
    if es != [] {
      NoSlipsInto(es[..|es| - 1], ip, v);
    }
  }

  lemma {:induction false} SlipOverfills(es: seq<Event>, ip: string)
    requires InOrder(es) && !NeverSlips(NEW, es, ip)
    ensures exists v: int :: InWindow(FailsOf(Run(NEW, es).fails, ip), v) > IP_RATE_LIMIT
  {
    hide Step, InWindow, FailsOf, RealAddress;
    var n := |es| - 1;
    var s := Run(NEW, es[..n]);
    RunTracked(es, ip, WINDOW_MS, Earliest(es));
    if Slips(s, es[n], ip) {
      assert SlipsTo(s, es[n], ip, s.table[IpKey(ip)].first);
      assert InWindow(FailsOf(Run(NEW, es).fails, ip), s.table[IpKey(ip)].first) > IP_RATE_LIMIT;
    } else {
      SlipOverfills(es[..n], ip);
      var v: int :| InWindow(FailsOf(s.fails, ip), v) > IP_RATE_LIMIT;
      assert InWindow(FailsOf(Run(NEW, es).fails, ip), v) > IP_RATE_LIMIT;
    }
  }

  // ---- Fifteen minutes ----

  lemma {:induction false} OverBefore(f: seq<Failed>, gap: int, lo: int, hi: int)
    requires Banded(f, gap) && (f != [] ==> f[|f| - 1].at < lo)
    ensures CountIn(f, lo, hi) == 0
  {
    if f != [] {
      OverBefore(f[..|f| - 1], gap, lo, hi);
    }
  }

  /** Failures after `lo`, in windows that start before it, all belong to the last of these windows. */
  lemma {:induction false} OneWindowReachesIn(f: seq<Failed>, gap: int, lo: int, hi: int)
    requires Banded(f, gap) && gap >= WINDOW_MS && f != [] && f[|f| - 1].first < lo
    ensures CountIn(f, lo, hi) <= InWindow(f, f[|f| - 1].first)
  {
    var init := f[..|f| - 1];
    if init == [] {
      assert CountIn(init, lo, hi) == 0;
    } else if f[|f| - 2].first == f[|f| - 1].first {
      OneWindowReachesIn(init, gap, lo, hi);
    } else {
      OverBefore(init, gap, lo, hi);
    }
  }

  /** An interval no longer than the gap meets two windows at most. */
  lemma {:induction false} TwoWindows(f: seq<Failed>, gap: int, lo: int) returns (v: int, w: int)
    requires Banded(f, gap) && gap >= WINDOW_MS
    ensures v != w && CountIn(f, lo, lo + gap - 1) <= InWindow(f, v) + InWindow(f, w)
    ensures f != [] && lo <= f[|f| - 1].first < lo + gap ==> w == f[|f| - 1].first
  {
    if f == [] {
      return 0, 1;
    }
    var init, last := f[..|f| - 1], f[|f| - 1];
    if last.first < lo {
      OneWindowReachesIn(f, gap, lo, lo + gap - 1);
      return last.first - 1, last.first;
    }
    if init != [] && last.first < lo + gap && f[|f| - 2].first != last.first {
      OneWindowReachesIn(init, gap, lo, lo + gap - 1);
      return f[|f| - 2].first, last.first;
    }
    v, w := TwoWindows(init, gap, lo);
    if init == [] && last.first < lo + gap {
      v, w := last.first - 1, last.first;
    }
  }

  /** Ten failed checks in fifteen minutes, and the slips into two windows. The last moment of the fifteen minutes
      belongs to them unless the table was read on the edge of a window. */
  lemma FifteenMinutesHoldTenAndSlips(es: seq<Event>, ip: string, lo: int)
    requires InOrder(es)
    ensures var gap := if NeverOnTheEdge(NEW, es, ip) then WINDOW_MS + 1 else WINDOW_MS;
            exists v: int, w: int :: v != w && CountIn(FailsOf(Run(NEW, es).fails, ip), lo, lo + gap - 1)
              <= 2 * IP_RATE_LIMIT + SlipsInto(NEW, es, ip, v) + SlipsInto(NEW, es, ip, w)
  {
    hide Run, NeverOnTheEdge, CountIn, InWindow;
    var gap := if NeverOnTheEdge(NEW, es, ip) then WINDOW_MS + 1 else WINDOW_MS;
    RunTracked(es, ip, gap, Earliest(es));
    var v, w := TwoWindows(FailsOf(Run(NEW, es).fails, ip), gap, lo);
    WindowHoldsFiveAndSlips(es, ip, v);
    WindowHoldsFiveAndSlips(es, ip, w);
    assert SlipsInto(NEW, es, ip, v) + SlipsInto(NEW, es, ip, w) >= 0;
  }

  /** So an address gets at most ten failed checks in any fifteen minutes, over every run in which none slips; in
      particular within one process. */
  lemma AddressGetsTenFailures(es: seq<Event>, ip: string, lo: int)
    requires InOrder(es)
    ensures var f := FailsOf(Run(NEW, es).fails, ip);
            && (NeverSlips(NEW, es, ip) ==> CountIn(f, lo, lo + WINDOW_MS - 1) <= 10)
            && (NeverSlips(NEW, es, ip) && NeverOnTheEdge(NEW, es, ip) ==> CountIn(f, lo, lo + WINDOW_MS) <= 10)
    ensures Restarts(es) == 0 ==> NeverSlips(NEW, es, ip) && NeverOnTheEdge(NEW, es, ip)
  {
    hide Run, NeverOnTheEdge, NeverSlips, SlipsInto, CountIn;
    FifteenMinutesHoldTenAndSlips(es, ip, lo);
    if NeverSlips(NEW, es, ip) {
      forall v: int ensures SlipsInto(NEW, es, ip, v) == 0 {
        NoSlipsInto(es, ip, v);
      }
      CountInShorter(FailsOf(Run(NEW, es).fails, ip), lo, lo + WINDOW_MS - 1, lo + WINDOW_MS);
    }
    if Restarts(es) == 0 {
      OneProcessNeverSlips(es, ip);
    }
  }

  lemma {:induction false} CountInShorter(f: seq<Failed>, lo: int, hi: int, later: int)
    requires hi <= later
    ensures CountIn(f, lo, hi) <= CountIn(f, lo, later)
  {
    if f != [] {
      CountInShorter(f[..|f| - 1], lo, hi, later);
    }
  }

  lemma {:induction false} OneProcessNeverSlips(es: seq<Event>, ip: string)
    requires Restarts(es) == 0
    ensures NeverSlips(NEW, es, ip) && NeverOnTheEdge(NEW, es, ip)
    ensures !Run(NEW, es).loaded ==> Run(NEW, es) == NEW
  {
    hide Login;
    if es != [] {
      OneProcessNeverSlips(es[..|es| - 1], ip);
      SlipStep(Run(NEW, es[..|es| - 1]), es[|es| - 1], ip);
    }
  }
}
