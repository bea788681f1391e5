/** The duplicate filter of the MCP server (mcp-server/index.js): a map from message hash to the time the
    message was let through, pruned at every call. */
module DedupWindow {

  const DEDUP_WINDOW_MS := 30000

  datatype Message = Message(fromUser: string, body: string)

  /** What is hashed: the sender and the first two hundred characters. */
  function HashKey(m: Message): string {
    m.fromUser + ":" + if |m.body| > 200 then m.body[..200] else m.body
  }

  /** Messages of one sender have the same key exactly if they agree in their first two hundred characters. */
  lemma KeyIsSenderAndStart(m: Message, n: Message)
    requires m.fromUser == n.fromUser
    ensures HashKey(m) == HashKey(n) <==>
            Start(m.body) == Start(n.body)
  {
    var front := m.fromUser + ":";
    assert HashKey(m) == front + Start(m.body) && HashKey(n) == front + Start(n.body);
    assert HashKey(m)[|front|..] == Start(m.body) && HashKey(n)[|front|..] == Start(n.body);
  }

  function Start(body: string): (s: string)
    ensures |s| <= 200 && s <= body && (|body| <= 200 ==> s == body) && (|body| > 200 ==> |s| == 200)
  {
    if |body| <= 200 then body else body[..200]
  }

  lemma FirstColon(m: Message)
    requires ':' !in m.fromUser
    ensures var key, p := HashKey(m), |m.fromUser|;
            p < |key| && key[p] == ':' && forall i :: 0 <= i < p ==> key[i] != ':'
  {
    forall i | 0 <= i < |m.fromUser| ensures HashKey(m)[i] != ':' {
      assert HashKey(m)[i] == m.fromUser[i];
    }
  }

  /** Senders without a colon in their names never share a key. */
  lemma KeysOfSendersDiffer(m: Message, n: Message)
    requires ':' !in m.fromUser && ':' !in n.fromUser && HashKey(m) == HashKey(n)
    ensures m.fromUser == n.fromUser
  {
    var key := HashKey(m);
    FirstColon(m);
    FirstColon(n);
    assert key[..|m.fromUser|] == m.fromUser && key[..|n.fromUser|] == n.fromUser;
  }

  /** A message let through. */
  datatype Accepted = Accepted(hash: string, at: int)

  /** A call at time `at` with a message of hash `hash`. */
  datatype Call = Call(hash: string, at: int)

  /** The answer from the full history: an equal hash was let through at most thirty seconds ago. */
  predicate SeenRecently(history: seq<Accepted>, hash: string, now: int) {
    exists i :: 0 <= i < |history| && history[i].hash == hash && now - history[i].at <= DEDUP_WINDOW_MS
  }

  function Remember(history: seq<Accepted>, hash: string, now: int): seq<Accepted> {
    if SeenRecently(history, hash, now) then history else history + [Accepted(hash, now)]
  }

  /** A message is let through exactly if every equal one was let through more than thirty seconds ago. */
  lemma LetThroughExactly(history: seq<Accepted>, hash: string, now: int)
    ensures Remember(history, hash, now) == history + [Accepted(hash, now)] <==>
            forall i :: 0 <= i < |history| && history[i].hash == hash ==> now - history[i].at > 30000
    ensures Remember(history, hash, now) == history || Remember(history, hash, now) == history + [Accepted(hash, now)]
  {
    assert |history + [Accepted(hash, now)]| != |history|;
  }

  /** Everything let through by a series of calls, as the full history decides. */
  function History(calls: seq<Call>): seq<Accepted> {
    if calls == [] then []
    else Remember(History(calls[..|calls| - 1]), calls[|calls| - 1].hash, calls[|calls| - 1].at)
  }

  predicate Nondecreasing(calls: seq<Call>) {
    forall i, j :: 0 <= i < j < |calls| ==> calls[i].at <= calls[j].at
  }

  /** The pruned map knows the last time of every hash that is still within the window at `now`. */
  ghost predicate Represents(recent: map<string, int>, history: seq<Accepted>, now: int) {
    && (forall h :: h in recent ==> exists i :: 0 <= i < |history| && history[i] == Accepted(h, recent[h]))
    && (forall i :: 0 <= i < |history| && now - history[i].at <= DEDUP_WINDOW_MS ==>
          history[i].hash in recent && recent[history[i].hash] == history[i].at)
    && (forall i :: 0 <= i < |history| ==> history[i].at <= now)
  }

  /** Accepted messages with the same hash are more than thirty seconds apart. */
  ghost predicate WellSpaced(history: seq<Accepted>) {
    forall i, j :: 0 <= i < j < |history| && history[i].hash == history[j].hash ==>
      history[j].at - history[i].at > DEDUP_WINDOW_MS
  }

  lemma RepresentsLater(recent: map<string, int>, history: seq<Accepted>, now: int, later: int)
    requires Represents(recent, history, now) && now <= later
    ensures Represents(recent, history, later)
  {
  }

  lemma RememberSpaced(history: seq<Accepted>, hash: string, now: int)
    requires WellSpaced(history) && forall i :: 0 <= i < |history| ==> history[i].at <= now
    ensures WellSpaced(Remember(history, hash, now))
  {
  }

  /** Equal messages are let through more than thirty seconds apart, over every series of calls on a clock
      that does not go back. */
  lemma {:induction false} AcceptedAreApart(calls: seq<Call>)
    requires Nondecreasing(calls)
    ensures WellSpaced(History(calls))
    ensures forall i :: 0 <= i < |History(calls)| ==> calls != [] && History(calls)[i].at <= calls[|calls| - 1].at
  {
    if calls != [] {
      var n := |calls| - 1;
      AcceptedAreApart(calls[..n]);
      RememberSpaced(History(calls[..n]), calls[n].hash, calls[n].at);
    }
  }

  class DedupFilter {
    const hash: string -> string
    var recentMessageHashes: map<string, int>

    constructor (hash: string -> string)
      ensures this.hash == hash && recentMessageHashes == map[]
      ensures Represents(recentMessageHashes, [], 0)
    {
      this.hash := hash;
      recentMessageHashes := map[];
    }

    /** The pruned map answers exactly as the full history would, whatever that is. */
    method IsDuplicate(m: Message, now: int, ghost history: seq<Accepted>, ghost clock: int) returns (duplicate: bool)
      requires Represents(recentMessageHashes, history, clock) && clock <= now
      modifies this
      ensures duplicate <==> SeenRecently(history, hash(HashKey(m)), now)
      ensures Represents(recentMessageHashes, Remember(history, hash(HashKey(m)), now), now)
    {
      var h := hash(HashKey(m));
      RepresentsLater(recentMessageHashes, history, clock, now);
      Prune(now, history);
      if h in recentMessageHashes {
        assert SeenRecently(history, h, now);
        return true;
      }
      recentMessageHashes := recentMessageHashes[h := now];
      assert !SeenRecently(history, h, now);
      ghost var next := history + [Accepted(h, now)];
      assert next[|history|] == Accepted(h, now);
      forall k | k in recentMessageHashes
        ensures exists i :: 0 <= i < |next| && next[i] == Accepted(k, recentMessageHashes[k])
      {
        if k != h {
          var i :| 0 <= i < |history| && history[i] == Accepted(k, recentMessageHashes[k]);
          assert next[i] == history[i];
        }
      }
      return false;
    }

    /** Deletes what has left the window. */
    method Prune(now: int, ghost history: seq<Accepted>)
      requires Represents(recentMessageHashes, history, now)
      modifies this
      ensures Represents(recentMessageHashes, history, now)
      ensures var before := old(recentMessageHashes);
              recentMessageHashes == map h | h in before && now - before[h] <= DEDUP_WINDOW_MS :: before[h]
    {
      var before := recentMessageHashes;
      var keys := before.Keys;
      while keys != {}
        invariant keys <= before.Keys
        invariant recentMessageHashes
                  == map h | h in before && (h in keys || now - before[h] <= DEDUP_WINDOW_MS) :: before[h]
      {
        var k :| k in keys;
        keys := keys - {k};
        if now - before[k] > DEDUP_WINDOW_MS {
          recentMessageHashes := recentMessageHashes - {k};
        }
      }
    }
  }
}
