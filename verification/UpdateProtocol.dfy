/** Interleavings of updates: the guards of the two update endpoints (server/server.js) around
    performUpdate (server/services/integrity.js), which suspends at its awaits. */
module UpdateProtocol {

  /** `running` numbers the calls of performUpdate that have not reached the end of their finally. */
  datatype State = State(
    mutex: bool, mode: bool, timer: bool, running: set<nat>, started: nat, entered: nat, exited: nat)

  const IDLE := State(false, false, false, {}, 0, 0, 0)

  datatype Event =
    | Request(lockdown: bool)  // one of the two endpoints
    | Call                     // performUpdate without the endpoints' guard
    | Finish(run: nat)         // a running call passes its finally block
    | TimerFires               // five minutes after the mutex was taken

  /** performUpdate from its start to its first await: enterUpdateMode takes the mutex or throws. */
  function Start(s: State): State {
    var begun := s.(running := s.running + {s.started}, started := s.started + 1);
    if s.mutex then begun else begun.(mutex := true, mode := true, timer := true, entered := s.entered + 1)
  }

  function Exit(s: State): State {
    s.(mutex := false, mode := false, timer := false, exited := s.exited + 1)
  }

  function Step(s: State, e: Event): State {
    match e
    case Request(lockdown) => if lockdown || s.mutex then s else Start(s)
    case Call => Start(s)
    case Finish(run) => if run in s.running then Exit(s.(running := s.running - {run})) else s
    case TimerFires => if s.timer then Exit(s) else s
  }

  function Run(s: State, es: seq<Event>): State {
    if es == [] then s else Step(Run(s, es[..|es| - 1]), es[|es| - 1])
  }

  /** At most one update runs; the mutex, the mode and the timer are up exactly while it does; and the
      log holds one more "entered" than "exited" entry exactly while it does. */
  ghost predicate Exclusive(s: State) {
    && (forall i, j :: i in s.running && j in s.running ==> i == j)
    && (s.mutex <==> s.running != {}) && s.mode == s.mutex && s.timer == s.mutex
    && (forall i :: i in s.running ==> i < s.started)
    && s.entered == s.exited + if s.mutex then 1 else 0
  }

  /** The two events that disturb a running update: a call past the endpoints' guard while the mutex is held, and
      the five-minute timer. */
  predicate Disturbs(s: State, e: Event) {
    (e.Call? && s.mutex) || (e.TimerFires? && s.timer)
  }

  lemma ExclusiveUnlessDisturbed(s: State, e: Event)
    requires Exclusive(s)
    ensures Exclusive(Step(s, e)) <==> !Disturbs(s, e)
  {
    if Disturbs(s, e) {
      var i :| i in s.running;
      assert i in Step(s, e).running && i != s.started;
    }
  }

  /** Every state on the way is exclusive. */
  ghost predicate AlwaysExclusive(es: seq<Event>) {
    Exclusive(Run(IDLE, es)) && (es != [] ==> AlwaysExclusive(es[..|es| - 1]))
  }

  /** No event on the way disturbs. */
  predicate NeverDisturbed(es: seq<Event>) {
    es != [] ==> NeverDisturbed(es[..|es| - 1]) && !Disturbs(Run(IDLE, es[..|es| - 1]), es[|es| - 1])
  }

  /** Over any order of requests, unguarded calls, completions and timers, no two updates overlap at any time, with
      mutex, mode and timer up exactly while one runs, if and only if no call meets a held mutex and no timer
      fires on a running update. Endpoint requests never meet a held mutex: their guard turns them away. */
  lemma {:induction false} ExclusiveExactlyUndisturbed(es: seq<Event>)
    ensures AlwaysExclusive(es) <==> NeverDisturbed(es)
  {
    if es != [] {
      var init := es[..|es| - 1];
      ExclusiveExactlyUndisturbed(init);
      if Exclusive(Run(IDLE, init)) {
        ExclusiveUnlessDisturbed(Run(IDLE, init), es[|es| - 1]);
      }
    }
  }

  /** Only an endpoint request in a system not locked down, or an unguarded call, starts an update. */
  lemma StartsExactly(s: State, e: Event)
    ensures Step(s, e).started > s.started <==> (e == Request(false) && !s.mutex) || e.Call?
    ensures Step(s, Request(true)) == s
  {
  }

  lemma RunSnoc(s: State, es: seq<Event>, e: Event)
    ensures Run(s, es + [e]) == Step(Run(s, es), e)
  {
    assert (es + [e])[..|es|] == es;
  }

  /** Once the timer has fired on a running update, the next request starts a second one; and the end
      of the first then frees the mutex under the second. */
  lemma TimerLetsUpdatesOverlap(es: seq<Event>)
    requires Exclusive(Run(IDLE, es)) && Run(IDLE, es).running != {}
    ensures var s := Run(IDLE, es + [TimerFires] + [Request(false)]);
            && (exists i, j :: i in s.running && j in s.running && i != j)
            && forall i :: i in Run(IDLE, es).running ==>
                 var t := Run(IDLE, es + [TimerFires] + [Request(false)] + [Finish(i)]); t.running != {} && !t.mutex
  {
    var s := Run(IDLE, es);
    RunSnoc(IDLE, es, TimerFires);
    RunSnoc(IDLE, es + [TimerFires], Request(false));
    var t := Run(IDLE, es + [TimerFires] + [Request(false)]);
    var i :| i in s.running;
    assert i in t.running && s.started in t.running && i != s.started;
    forall k | k in s.running ensures s.started in Run(IDLE, es + [TimerFires] + [Request(false)] + [Finish(k)]).running
      && !Run(IDLE, es + [TimerFires] + [Request(false)] + [Finish(k)]).mutex
    {
      RunSnoc(IDLE, es + [TimerFires] + [Request(false)], Finish(k));
    }
  }

  /** The endpoints' guard is needed: a call that finds the mutex taken still runs its finally block,
      and frees the mutex of the update that holds it. */
  lemma UnguardedCallFreesMutex(es: seq<Event>)
    requires Exclusive(Run(IDLE, es)) && Run(IDLE, es).running != {}
    ensures var s := Run(IDLE, es + [Call] + [Finish(Run(IDLE, es).started)]);
            s.running == Run(IDLE, es).running && !s.mutex
  {
    RunSnoc(IDLE, es, Call);
    RunSnoc(IDLE, es + [Call], Finish(Run(IDLE, es).started));
  }
}
