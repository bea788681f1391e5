/** The life of evidence traces: a copy in memory, a row in table evidence_traces. */
module Traces {
  import opened Prelude
  import opened ActionEvidence

  datatype Status = Active | Judged | Expired | Stopped

  datatype Trace = Trace(agentId: string, taskName: string, startedAt: int, trail: seq<Entry>, status: Status)

  datatype Record = Record(trail: seq<Entry>, status: Status, level: Option<Level>)

  datatype State = State(memory: map<string, Trace>, table: map<string, Record>)

  datatype Failure = MissingArgument | UnknownTrace | NotActive | UnknownVerb

  datatype Outcome<+T> = Ok(value: T) | Error(failure: Failure)

  // ---- Transitions ----

  function Opened(s: State, id: string, agent: string, task: string, now: int): State {
    State(s.memory[id := Trace(agent, task, now, [], Active)], s.table[id := Record([], Active, None)])
  }

  /** Incomplete evidence is recorded too, marked as such. */
  function NewEntry(v: Verb, evidence: map<string, string>, attempted: Option<Verb>, now: int): Entry {
    Entry(v, evidence, Required(v) <= evidence.Keys, attempted, now)
  }

  function RecordFailure(s: State, id: string, verb: Option<Verb>): Option<Failure> {
    if id !in s.memory then Some(UnknownTrace)
    else if s.memory[id].status != Active then Some(NotActive)
    else if verb.None? then Some(UnknownVerb)
    else None
  }

  function Recorded(s: State, id: string, e: Entry): State
    requires id in s.memory
  {
    var trail := s.memory[id].trail + [e];
    var table := if id in s.table then s.table[id := s.table[id].(trail := trail)] else s.table;
    State(s.memory[id := s.memory[id].(trail := trail)], table)
  }

  function JudgedAt(s: State, id: string, level: Level): State
    requires id in s.memory
  {
    var table := if id in s.table then s.table[id := s.table[id].(status := Judged, level := Some(level))] else s.table;
    State(s.memory[id := s.memory[id].(status := Judged)], table)
  }

  predicate TooOld(t: Trace, now: int) {
    now - t.startedAt > MAX_TRACE_AGE_MS
  }

  /** An active trace leaves memory: its trail is written once more, with the reason. */
  function Finalize(s: State, ids: set<string>, reason: Status): map<string, Record> {
    map id | id in s.table ::
      if id in ids && id in s.memory && s.memory[id].status == Active
      then s.table[id].(trail := s.memory[id].trail, status := reason) else s.table[id]
  }

  function CleanedUp(s: State, now: int): State {
    var expired := set id | id in s.memory && TooOld(s.memory[id], now);
    State(s.memory - expired, Finalize(s, expired, Expired))
  }

  function ShutDown(s: State): State {
    State(map[], Finalize(s, s.memory.Keys, Stopped))
  }

  datatype Event =
    | Start(agent: string, task: string, newId: string, startedAt: int)
    | Report(id: string, verb: Option<Verb>, evidence: map<string, string>, attempted: Option<Verb>, reportedAt: int)
    | Judge(judged: string, claims: seq<Claim>)
    | Cleanup(at: int)
    | Shutdown
    | Crash

  /** A new trace's id is random, hence new. */
  predicate Enabled(s: State, e: Event) {
    e.Start? ==> e.newId !in s.table && e.newId !in s.memory
  }

  ghost function Step(s: State, e: Event): State {
    if !Enabled(s, e) then s
    else
      match e
      case Start(agent, task, id, now) => if agent == "" || task == "" then s else Opened(s, id, agent, task, now)
      case Report(id, verb, evidence, attempted, now) =>
        if RecordFailure(s, id, verb).Some? then s else Recorded(s, id, NewEntry(verb.value, evidence, attempted, now))
      case Judge(id, claims) => if id !in s.memory then s else JudgedAt(s, id, LevelOf(s.memory[id].trail, claims))
      case Cleanup(now) => CleanedUp(s, now)
      case Shutdown => ShutDown(s)
      case Crash => s.(memory := map[])
  }

  ghost function Run(s: State, es: seq<Event>): State {
    if es == [] then s else Step(Run(s, es[..|es| - 1]), es[|es| - 1])
  }

  /** `getTrace`: the memory copy, else the stored one, else nothing. */
  function TrailOf(s: State, id: string): seq<Entry> {
    if id in s.memory then s.memory[id].trail
    else if id in s.table then s.table[id].trail
    else []
  }

  predicate IsActive(s: State, id: string) {
    id in s.memory && s.memory[id].status == Active
  }

  predicate Exists(s: State, id: string) {
    id in s.memory || id in s.table
  }

  /** The memory copy of every trace agrees with its row. */
  ghost predicate Mirrored(s: State) {
    forall id :: id in s.memory ==> id in s.table && s.table[id].trail == s.memory[id].trail
  }

  lemma StepMirrors(s: State, e: Event)
    requires Mirrored(s)
    ensures Mirrored(Step(s, e))
  {
  }

  lemma {:induction false} RunMirrors(s: State, es: seq<Event>)
    requires Mirrored(s)
    ensures Mirrored(Run(s, es))
  {
    if es != [] {
      RunMirrors(s, es[..|es| - 1]);
      StepMirrors(Run(s, es[..|es| - 1]), es[|es| - 1]);
    }
  }

  /** One step leaves every trail alone, except that a report accepted for an active trace appends one
      entry to that trace. Cleanup and shutdown are not visible through `getTrace`. */
  lemma StepTrail(s: State, e: Event, id: string)
    requires Mirrored(s) && Exists(s, id)
    ensures var t := Step(s, e);
            && Exists(t, id)
            && (TrailOf(t, id) == TrailOf(s, id)
                || (e.Report? && e.id == id && IsActive(s, id) && e.verb.Some?
                    && TrailOf(t, id)
                       == TrailOf(s, id) + [NewEntry(e.verb.value, e.evidence, e.attempted, e.reportedAt)]))
            && (IsActive(t, id) ==> IsActive(s, id))
  {
  }

  /** What was once recorded stays readable: over every run the trail of a trace only grows at its end,
      and once the trace has been judged, has expired, was shut down or lost its process, it does not change any
      more. */
  lemma {:induction false} TrailsOnlyGrow(s: State, es: seq<Event>, id: string)
    requires Mirrored(s) && Exists(s, id)
    ensures var t := Run(s, es);
            && Exists(t, id)
            && TrailOf(s, id) <= TrailOf(t, id)
            && (!IsActive(s, id) ==> TrailOf(t, id) == TrailOf(s, id) && !IsActive(t, id))
  {
    if es != [] {
      var n := |es| - 1;
      TrailsOnlyGrow(s, es[..n], id);
      RunMirrors(s, es[..n]);
      StepTrail(Run(s, es[..n]), es[n], id);
    }
  }

  /** In every reachable state, cleaning up, shutting down or losing the memory changes no
      answer of `getTrace`. */
  lemma CleanupIsInvisible(es: seq<Event>, now: int, id: string)
    ensures var s := Run(State(map[], map[]), es);
            TrailOf(CleanedUp(s, now), id) == TrailOf(s, id) == TrailOf(ShutDown(s), id) == TrailOf(Step(s, Crash), id)
  {
    RunMirrors(State(map[], map[]), es);
  }

  /** The evaluation without a live trace: every claim is unverified and a gap, with nothing to suggest. */
  ghost predicate MerelyClaimed(detected: seq<Claim>, e: Evaluation) {
    && e.level == (if detected == [] then LevelVerified else LevelClaimed)
    && |e.claims| == |detected| == |e.gaps| && e.trailSummary == []
    && forall i :: 0 <= i < |detected| ==>
         e.claims[i] == Evaluated(detected[i], Unverified) && e.gaps[i] == Gap(detected[i], None)
  }

  // ---- What each step leaves ----

  /** Starting a trace leaves an empty active one, in memory and in the table. */
  lemma StartExactly(s: State, id: string, agent: string, task: string, now: int)
    requires id !in s.table && id !in s.memory
    ensures var t := Step(s, Start(agent, task, id, now));
            if agent == "" || task == "" then t == s
            else && t.memory == s.memory[id := Trace(agent, task, now, [], Active)]
                 && t.table == s.table[id := Record([], Active, None)]
  {
  }

  /** Judging a trace in memory freezes it there, and in the table records the level. */
  lemma JudgeExactly(s: State, id: string, claims: seq<Claim>)
    requires Mirrored(s) && id in s.memory
    ensures var t, level := Step(s, Judge(id, claims)), LevelOf(s.memory[id].trail, claims);
            && t.memory == s.memory[id := s.memory[id].(status := Judged)]
            && t.table == s.table[id := Record(s.table[id].trail, Judged, Some(level))]
  {
  }

  /** A cleanup forgets exactly the traces that are more than an hour old, and marks the active ones of them expired,
      with their trail; nothing else changes. */
  lemma CleanupExactly(s: State, now: int, id: string)
    requires Mirrored(s)
    ensures var t := CleanedUp(s, now);
            && (id in t.memory <==> id in s.memory && now - s.memory[id].startedAt <= 3600000)
            && (id in t.memory ==> t.memory[id] == s.memory[id])
            && (id in t.table <==> id in s.table)
            && (id in s.table ==>
                  t.table[id] == (if id in s.memory && now - s.memory[id].startedAt > 3600000
                                     && s.memory[id].status == Active
                                  then Record(s.memory[id].trail, Expired, s.table[id].level) else s.table[id]))
  {
  }

  /** A shutdown forgets all traces, and marks the active ones stopped, with their trail. */
  lemma ShutdownExactly(s: State, id: string)
    requires Mirrored(s)
    ensures var t := ShutDown(s);
            && t.memory == map[] && (id in t.table <==> id in s.table)
            && (id in s.table ==>
                  t.table[id] == (if id in s.memory && s.memory[id].status == Active
                                  then Record(s.memory[id].trail, Stopped, s.table[id].level) else s.table[id]))
  {
  }

  /** An entry is complete exactly if its evidence has every field that its verb requires. */
  lemma CompleteExactly(v: Verb, evidence: map<string, string>, attempted: Option<Verb>, now: int)
    ensures var e := NewEntry(v, evidence, attempted, now);
            && e.verb == v && e.evidence == evidence && e.attempted == attempted && e.timestamp == now
            && (e.complete <==> forall field :: field in Required(v) ==> field in evidence)
  {
  }

  // ---- The service ----

  class ActionEvidenceProtocol {
    var traces: map<string, Trace>
    var table: map<string, Record>

    ghost function View(): State
      reads this
    {
      State(traces, table)
    }

    constructor (table: map<string, Record>)
      ensures View() == State(map[], table)
    {
      traces, this.table := map[], table;
    }

    method StartTrace(agentId: string, taskName: string, traceId: string, now: int) returns (r: Outcome<string>)
      requires traceId !in traces && traceId !in table
      modifies this
      ensures View() == Step(old(View()), Start(agentId, taskName, traceId, now))
      ensures r == if agentId == "" || taskName == "" then Error(MissingArgument) else Ok(traceId)
    {
      if agentId == "" || taskName == "" {
        return Error(MissingArgument);
      }
      traces := traces[traceId := Trace(agentId, taskName, now, [], Active)];
      table := table[traceId := Record([], Active, None)];
      return Ok(traceId);
    }

    method RecordEvidence(
      traceId: string, verb: Option<Verb>, evidence: map<string, string>, attempted: Option<Verb>, now: int)
      returns (r: Outcome<Entry>)
      modifies this
      ensures View() == Step(old(View()), Report(traceId, verb, evidence, attempted, now))
      ensures r.Error? <==> RecordFailure(old(View()), traceId, verb).Some?
      ensures r.Error? ==> Some(r.failure) == RecordFailure(old(View()), traceId, verb)
      ensures r.Ok? ==> traceId in traces && traces[traceId].trail == old(traces)[traceId].trail + [r.value]
                        && (r.value.complete <==> forall f :: f in Required(r.value.verb) ==> f in evidence)
    {
      if traceId !in traces {
        return Error(UnknownTrace);
      }
      var trace := traces[traceId];
      if trace.status != Active {
        return Error(NotActive);
      }
      if verb.None? {
        return Error(UnknownVerb);
      }
      var missing := Required(verb.value) - evidence.Keys;
      assert missing == {} <==> Required(verb.value) <= evidence.Keys by {
        assert forall f :: f in missing <==> f in Required(verb.value) && f !in evidence.Keys;
      }
      var entry := Entry(verb.value, evidence, missing == {}, attempted, now);
      assert entry == NewEntry(verb.value, evidence, attempted, now);
      traces := traces[traceId := trace.(trail := trace.trail + [entry])];
      if traceId in table {
        table := table[traceId := table[traceId].(trail := trace.trail + [entry])];
      }
      return Ok(entry);
    }

    method GetTrace(traceId: string) returns (trail: seq<Entry>)
      ensures trail == TrailOf(View(), traceId)
    {
      if traceId in traces {
        return traces[traceId].trail;
      }
      if traceId in table {
        return table[traceId].trail;
      }
      return [];
    }

    /** A live trace is judged and frozen; without one, every claim counts as merely claimed. */
    method EvaluateMessage(traceId: string, detected: seq<Claim>) returns (e: Evaluation)
      modifies this
      ensures View() == Step(old(View()), Judge(traceId, detected))
      ensures traceId in old(traces) ==> RightEvaluation(old(traces)[traceId].trail, detected, e)
      ensures traceId !in old(traces) ==> MerelyClaimed(detected, e)
    {
      if traceId !in traces {
        var claims := seq(|detected|, i requires 0 <= i < |detected| => Evaluated(detected[i], Unverified));
        var gaps := seq(|detected|, i requires 0 <= i < |detected| => Gap(detected[i], None));
        return Evaluation(if |detected| > 0 then LevelClaimed else LevelVerified, claims, gaps, []);
      }
      hide RightGaps, StatusOf, LevelOf, Unsupported;
      var trace := traces[traceId];
      e := Evaluate(trace.trail, detected);
      traces := traces[traceId := trace.(status := Judged)];
      if traceId in table {
        table := table[traceId := table[traceId].(status := Judged, level := Some(e.level))];
      }
    }

    /** Writes the final row of the given traces, where active. */
    method Persist(ids: set<string>, reason: Status)
      modifies this`table
      ensures table == Finalize(old(View()), ids, reason)
    {
      var left := ids;
      ghost var s := View();
      while left != {}
        invariant left <= ids
        invariant table == Finalize(s, ids - left, reason)
      {
        var id :| id in left;
        left := left - {id};
        if id in traces && traces[id].status == Active && id in table {
          table := table[id := table[id].(trail := traces[id].trail, status := reason)];
        }
      }
      assert ids - left == ids;
    }

    method CleanUp(now: int)
      modifies this
      ensures View() == CleanedUp(old(View()), now)
    {
      var expired := set id | id in traces && TooOld(traces[id], now);
      Persist(expired, Expired);
      traces := traces - expired;
    }

    method ShutDownService()
      modifies this
      ensures View() == ShutDown(old(View()))
    {
      Persist(traces.Keys, Stopped);
      traces := map[];
    }
  }
}
