/** The limiter's functions over the module-level map and table, as the login route calls them. */
module LoginRoutes {
  import opened LoginLimiter

  datatype Answer = BadRequest | TooManyFromAddress | TooManyForUser | Unauthorized | LoggedIn | ServerError

  class LoginRoute {
    var loginAttempts: map<string, Record>
    var table: map<string, Record>
    var initialized: bool
    // History that the program does not keep.
    var fails: seq<Failed>

    ghost function View(): State
      reads this
    {
      State(loginAttempts, table, initialized, fails)
    }

    /** A process starts over the table that the last one left. */
    constructor (table: map<string, Record>)
      ensures View() == State(map[], table, false, [])
    {
      loginAttempts, this.table, initialized, fails := map[], table, false, [];
    }

    /** Takes over the rows that are still in their window and deletes the others. */
    method InitBruteForceDb(now: int)
      modifies this`loginAttempts, this`table, this`initialized
      ensures View() == Load(old(View()), now)
    {
      if initialized {
        return;
      }
      initialized := true;
      var live := LiveRows(table, now);
      loginAttempts := loginAttempts + live;
      table := live;
    }

    static method LiveRows(all: map<string, Record>, now: int) returns (live: map<string, Record>)
      ensures live == Reload(all, now)
    {
      live := map[];
      var rows := all.Keys;
      while rows != {}
        invariant rows <= all.Keys
        invariant live == map k | k in all && k !in rows && now - all[k].first < WINDOW_MS :: all[k]
      {
        var key :| key in rows;
        rows := rows - {key};
        if now - all[key].first < WINDOW_MS {
          live := live[key := all[key]];
        }
      }
    }

    method CheckIpRateLimit(ip: string, now: int) returns (blocked: bool)
      modifies this`loginAttempts
      ensures blocked <==> IpBlocked(old(loginAttempts), ip, now)
      ensures loginAttempts == Pruned(old(loginAttempts), IpKey(ip), now)
    {
      var key := IpKey(ip);
      if key !in loginAttempts {
        return false;
      }
      var record := loginAttempts[key];
      if now - record.first > WINDOW_MS {
        loginAttempts := loginAttempts - {key};
        return false;
      }
      return record.count >= IP_RATE_LIMIT;
    }

    method CheckBruteForce(ip: string, username: string, now: int) returns (blocked: bool)
      modifies this`loginAttempts
      ensures blocked <==> UserBlocked(old(loginAttempts), ip, username, now)
      ensures loginAttempts == Pruned(old(loginAttempts), UserKey(ip, username), now)
    {
      var key := UserKey(ip, username);
      if key !in loginAttempts {
        return false;
      }
      var record := loginAttempts[key];
      if now - record.first > WINDOW_MS {
        loginAttempts := loginAttempts - {key};
        return false;
      }
      var lockoutMinutes := LockoutMinutes(record.count);
      if lockoutMinutes == 0 {
        return false;
      }
      return now - record.last < lockoutMinutes * MINUTE_MS;
    }

    method RecordFailedLogin(ip: string, username: string, now: int)
      modifies this`loginAttempts, this`table
      ensures View() == Count(Count(old(View()), UserKey(ip, username), now), IpKey(ip), now)
    {
      BumpKey(UserKey(ip, username), now);
      BumpKey(IpKey(ip), now);
    }

    method BumpKey(key: string, now: int)
      modifies this`loginAttempts, this`table
      ensures View() == Count(old(View()), key, now)
    {
      var record := Record(1, now, now);
      if key in loginAttempts && now - loginAttempts[key].first <= WINDOW_MS {
        record := Record(loginAttempts[key].count + 1, loginAttempts[key].first, now);
      }
      loginAttempts := loginAttempts[key := record];
      table := table[key := record];
    }

    /** POST /login. The table is asked for at once, but its rows arrive after the checks of this request
        and before its outcome is known. */
    method Login(ip: string, username: string, outcome: Outcome, now: int) returns (answer: Answer)
      modifies this
      ensures View() == LoginLimiter.Login(old(View()), ip, username, outcome, now)
      ensures answer == BadRequest <==> outcome == MissingField
      ensures answer == TooManyFromAddress <==> outcome != MissingField && IpBlocked(old(loginAttempts), ip, now)
      ensures answer == TooManyForUser <==>
                && outcome != MissingField
                && Blocked(old(View()), ip, username, now) && !IpBlocked(old(loginAttempts), ip, now)
      ensures answer == ServerError <==> outcome == StoreError && !Blocked(old(View()), ip, username, now)
      ensures answer == LoggedIn <==> outcome == GoodCredentials && !Blocked(old(View()), ip, username, now)
      ensures answer == Unauthorized <==> outcome == BadCredentials && !Blocked(old(View()), ip, username, now)
    {
      if outcome == MissingField {
        InitBruteForceDb(now);
        return BadRequest;
      }
      var ipBlocked := CheckIpRateLimit(ip, now);
      if ipBlocked {
        InitBruteForceDb(now);
        return TooManyFromAddress;
      }
      var userBlocked := CheckBruteForce(ip, username, now);
      InitBruteForceDb(now);
      if userBlocked {
        return TooManyForUser;
      }
      match outcome
      case StoreError => return ServerError;
      case GoodCredentials =>
        loginAttempts := loginAttempts - {UserKey(ip, username)};
        table := table - {UserKey(ip, username)};
        return LoggedIn;
      case BadCredentials =>
        RecordFailedLogin(ip, username, now);
        fails := fails + [Failed(ip, now, loginAttempts[IpKey(ip)].first)];
        return Unauthorized;
    }
  }
}
