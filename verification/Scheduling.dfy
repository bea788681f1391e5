/** The auto-responder's scheduler (server/services/auto-responder.js), cut into the atomic steps
    that run between two awaits. */
module Scheduling {
  import opened Prelude

  const MAX_QUEUE_SIZE := 10
  const MAX_QUEUE_AGE_MS := 60000
  const TERMINAL_ACTIVE_WINDOW_MS := 600000
  const MAX_MESSAGE_LENGTH := 10000

  // ---- Filters ----

  datatype Incoming = Incoming(channel: string, fromUser: string, body: string, origin: Option<string>, federated: bool)

  /** Team configuration. `namesWorker` and `callsLead` stand for the two text tests on a body. */
  datatype Config = Config(
    humans: set<string>, relayTriggers: set<string>, leadAgent: string,
    namesWorker: string -> bool, callsLead: string -> bool)

  predicate IsSpace(c: char) {
    c in " \t\n\r\U{000B}\U{000C}\U{00A0}\U{FEFF}"
  }

  /** The first character of `body.trim()`. */
  function FirstChar(body: string): Option<char> {
    if body == "" then None
    else if IsSpace(body[0]) then FirstChar(body[1..])
    else Some(body[0])
  }

  predicate IsHeartbeat(body: string) {
    StartsWith(body, "HEARTBEAT:")
  }

  /** The message passes the filters that come before the terminal-activity note. */
  predicate Heard(m: Incoming) {
    && FirstChar(m.body).Some?
    && m.fromUser != "agent_darkhan"
    && m.origin != Some("auto_responder")
    && !m.federated
  }

  predicate MarksTerminal(cfg: Config, m: Incoming) {
    Heard(m) && m.fromUser == cfg.leadAgent && !IsHeartbeat(m.body)
  }

  /** The message reaches the debounce. */
  predicate Admits(cfg: Config, m: Incoming) {
    && Heard(m)
    && !cfg.namesWorker(m.body)
    && !(m.fromUser in cfg.humans && FirstChar(m.body) == Some('/'))
    && (m.fromUser == cfg.leadAgent ==> IsHeartbeat(m.body))
    && (|| m.fromUser in cfg.humans
        || (m.fromUser in cfg.relayTriggers && cfg.callsLead(m.body))
        || m.fromUser == "system_heartbeat"
        || m.fromUser == cfg.leadAgent)
  }

  /** A slash command: handled at once, past the debounce. */
  predicate IsCommand(cfg: Config, m: Incoming) {
    Heard(m) && !cfg.namesWorker(m.body) && m.fromUser in cfg.humans && FirstChar(m.body) == Some('/')
  }

  function Truncated(body: string): string {
    if |body| > MAX_MESSAGE_LENGTH
    then body[..MAX_MESSAGE_LENGTH] + "\n\n[Message truncated at 10,000 characters]"
    else body
  }

  // ---- State ----

  /** An admitted message. `id` is its place in the order of admission. */
  datatype Msg = Msg(id: nat, channel: string, fromUser: string, body: string)

  datatype Queued = Queued(msg: Msg, queuedAt: int)

  /** One call of processMessage. `drained` says that its messages came from the queue. */
  datatype Turn = Turn(channel: string, fromUser: string, msgs: seq<Msg>, drained: bool)

  /** What happened to every admitted message that is no longer waiting. */
  datatype Ledger = Ledger(
    arrivals: nat, admitted: multiset<Msg>, turns: seq<Turn>,
    superseded: multiset<Msg>, full: multiset<Msg>, stale: multiset<Msg>, hushed: multiset<Msg>)

  /** `inFlight` counts the calls of processMessage that are inside their try block. */
  datatype Relay = Relay(
    isProcessing: bool, queue: seq<Queued>, pending: map<string, Msg>, terminal: map<string, int>,
    inFlight: nat, ledger: Ledger)

  /** How a call of processMessage leaves its part before the try block. */
  datatype Gate = PermissionReply | SessionBusy | ReachesTry

  datatype Event =
    | Arrive(m: Incoming, at: int)
    | Fire(channel: string, firedAt: int, fireGate: Gate)
    | Finish(finishedAt: int, nextGate: Gate)

  const Initial := Relay(false, [], map[], map[], 0,
                         Ledger(0, multiset{}, [], multiset{}, multiset{}, multiset{}, multiset{}))

  // ---- Queue operations ----

  predicate IsStale(q: Queued, now: int) {
    q.queuedAt != 0 && now - q.queuedAt > MAX_QUEUE_AGE_MS
  }

  predicate TerminalActive(terminal: map<string, int>, channel: string, now: int) {
    channel in terminal && terminal[channel] != 0 && now - terminal[channel] < TERMINAL_ACTIVE_WINDOW_MS
  }

  function Fresh(q: seq<Queued>, now: int): seq<Queued> {
    if q == [] then []
    else Fresh(q[..|q| - 1], now) + if IsStale(q[|q| - 1], now) then [] else [q[|q| - 1]]
  }

  function Stale(q: seq<Queued>, now: int): seq<Queued> {
    if q == [] then []
    else Stale(q[..|q| - 1], now) + if IsStale(q[|q| - 1], now) then [q[|q| - 1]] else []
  }

  /** The part of the queue that waits on channel `c`. */
  function Of(q: seq<Queued>, c: string): seq<Queued> {
    if q == [] then []
    else Of(q[..|q| - 1], c) + if q[|q| - 1].msg.channel == c then [q[|q| - 1]] else []
  }

  /** The channels of the queue, by first occurrence: the key order of a JavaScript Map. */
  function Channels(q: seq<Queued>): seq<string> {
    if q == [] then []
    else
      var cs, c := Channels(q[..|q| - 1]), q[|q| - 1].msg.channel;
      if c in cs then cs else cs + [c]
  }

  /** The queue regrouped by the channels `cs`. */
  function Collect(cs: seq<string>, q: seq<Queued>): seq<Queued> {
    if cs == [] then [] else Collect(cs[..|cs| - 1], q) + Of(q, cs[|cs| - 1])
  }

  function Msgs(q: seq<Queued>): (ms: seq<Msg>)
    ensures |ms| == |q| && forall i :: 0 <= i < |q| ==> ms[i] == q[i].msg
  {
    seq(|q|, i requires 0 <= i < |q| => q[i].msg)
  }

  function Bag(q: seq<Queued>): multiset<Msg> {
    if q == [] then multiset{} else Bag(q[..|q| - 1]) + multiset{q[|q| - 1].msg}
  }

  // ---- Transitions ----

  /** The part of processMessage before its try block, with its three ways out. */
  function StartTurn(s: Relay, t: Turn, gate: Gate): Relay {
    var begun := s.(isProcessing := true, ledger := s.ledger.(turns := s.ledger.turns + [t]));
    match gate
    case PermissionReply => begun
    case SessionBusy => begun.(isProcessing := false)
    case ReachesTry => begun.(inFlight := s.inFlight + 1)
  }

  /** An admitted message takes its channel's debounce, superseding what waited there. */
  function Debounced(s: Relay, m: Incoming): Relay {
    var l := s.ledger;
    var msg := Msg(l.arrivals, m.channel, m.fromUser, Truncated(m.body));
    var replaced := if m.channel in s.pending then multiset{s.pending[m.channel]} else multiset{};
    s.(pending := s.pending[m.channel := msg],
       ledger := l.(arrivals := l.arrivals + 1, admitted := l.admitted + multiset{msg},
                    superseded := l.superseded + replaced))
  }

  function DoArrive(s: Relay, cfg: Config, m: Incoming, now: int): Relay {
    var heard := if MarksTerminal(cfg, m) then s.(terminal := s.terminal[m.channel := now]) else s;
    if Admits(cfg, m) then Debounced(heard, m) else heard
  }

  function DoFire(s: Relay, c: string, now: int, gate: Gate): Relay
    requires c in s.pending
  {
    var msg := s.pending[c];
    var fired := s.(pending := s.pending - {c});
    if !s.isProcessing then StartTurn(fired, Turn(c, msg.fromUser, [msg], false), gate)
    else if |s.queue| >= MAX_QUEUE_SIZE then fired.(ledger := s.ledger.(full := s.ledger.full + multiset{msg}))
    else fired.(queue := s.queue + [Queued(msg, now)])
  }

  /** The finally block, first half: release the flag and drop what is stale. */
  function Release(s: Relay, now: int): Relay
    requires s.inFlight > 0
  {
    s.(isProcessing := false, inFlight := s.inFlight - 1, queue := Fresh(s.queue, now),
       ledger := s.ledger.(stale := s.ledger.stale + Bag(Stale(s.queue, now))))
  }

  /** The finally block, second half: drop everything when the terminal is active on the first
      channel; otherwise hand the first channel's messages to the next turn and push the others
      back grouped by channel. */
  function Drain(s: Relay, now: int, gate: Gate): Relay {
    if s.queue == [] then s
    else
      var c := s.queue[0].msg.channel;
      if TerminalActive(s.terminal, c, now) then
        s.(queue := [], ledger := s.ledger.(hushed := s.ledger.hushed + Bag(s.queue)))
      else
        StartTurn(s.(queue := Collect(Channels(s.queue)[1..], s.queue)),
                  Turn(c, s.queue[0].msg.fromUser, Msgs(Of(s.queue, c)), true), gate)
  }

  function DoFinish(s: Relay, now: int, gate: Gate): Relay
    requires s.inFlight > 0
  {
    Drain(Release(s, now), now, gate)
  }

  predicate Enabled(s: Relay, e: Event) {
    match e
    case Arrive(_, _) => true
    case Fire(c, _, _) => c in s.pending
    case Finish(_, _) => s.inFlight > 0
  }

  function Step(cfg: Config, s: Relay, e: Event): Relay {
    if !Enabled(s, e) then s
    else
      match e
      case Arrive(m, at) => DoArrive(s, cfg, m, at)
      case Fire(c, at, gate) => DoFire(s, c, at, gate)
      case Finish(at, gate) => DoFinish(s, at, gate)
  }

  function Run(cfg: Config, s: Relay, es: seq<Event>): Relay
    decreases |es|
  {
    if es == [] then s else Run(cfg, Step(cfg, s, es[0]), es[1..])
  }

  // ---- Facts about the queue operations ----

  lemma {:induction false} BagOfConcat(a: seq<Queued>, b: seq<Queued>, m: Msg)
    ensures Bag(a + b)[m] == Bag(a)[m] + Bag(b)[m]
  {
    if b == [] {
      assert a + b == a;
    } else {
      BagOfConcat(a, b[..|b| - 1], m);
      assert (a + b)[..|a + b| - 1] == a + b[..|b| - 1];
    }
  }

  lemma {:induction false} BagOfMsgs(q: seq<Queued>)
    ensures multiset(Msgs(q)) == Bag(q)
  {
    if q != [] {
      BagOfMsgs(q[..|q| - 1]);
      assert Msgs(q) == Msgs(q[..|q| - 1]) + [q[|q| - 1].msg];
    }
  }

  lemma {:induction false} FreshAndStale(q: seq<Queued>, now: int, m: Msg)
    ensures Bag(q)[m] == Bag(Fresh(q, now))[m] + Bag(Stale(q, now))[m]
    ensures |Fresh(q, now)| <= |q|
  {
    if q != [] {
      var init, x := q[..|q| - 1], q[|q| - 1];
      FreshAndStale(init, now, m);
      assert Fresh(q, now) == if IsStale(x, now) then Fresh(init, now) else Fresh(init, now) + [x];
      assert Stale(q, now) == if IsStale(x, now) then Stale(init, now) + [x] else Stale(init, now);
    }
  }

  lemma {:induction false} OfBag(q: seq<Queued>, c: string, m: Msg)
    ensures Bag(Of(q, c))[m] == if m.channel == c then Bag(q)[m] else 0
  {
    if q != [] {
      var init, x := q[..|q| - 1], q[|q| - 1];
      OfBag(init, c, m);
      assert Of(q, c) == if x.msg.channel == c then Of(init, c) + [x] else Of(init, c);
    }
  }

  lemma {:induction false} OfChannel(q: seq<Queued>, c: string)
    ensures forall i :: 0 <= i < |Of(q, c)| ==> Of(q, c)[i].msg.channel == c
  {
    if q != [] {
      OfChannel(q[..|q| - 1], c);
    }
  }

  lemma {:induction false} OfAbsent(q: seq<Queued>, c: string)
    ensures c !in Channels(q) ==> Of(q, c) == []
  {
    if q != [] {
      OfAbsent(q[..|q| - 1], c);
    }
  }

  lemma {:induction false} FirstOfChannel(q: seq<Queued>)
    requires q != []
    ensures Of(q, q[0].msg.channel) != [] && Of(q, q[0].msg.channel)[0] == q[0]
  {
    if |q| > 1 {
      FirstOfChannel(q[..|q| - 1]);
    } else {
      assert q[..0] == [] && Of([], q[0].msg.channel) == [];
    }
  }

  ghost predicate Distinct(cs: seq<string>) {
    forall i, j :: 0 <= i < j < |cs| ==> cs[i] != cs[j]
  }

  lemma {:induction false} ChannelsDistinct(q: seq<Queued>)
    ensures Distinct(Channels(q))
    ensures q != [] ==> Channels(q) != [] && Channels(q)[0] == q[0].msg.channel
  {
    if q != [] {
      ChannelsDistinct(q[..|q| - 1]);
    }
  }

  lemma {:induction false} ChannelsCover(q: seq<Queued>, m: Msg)
    requires m in Bag(q)
    ensures m.channel in Channels(q)
  {
    if q[|q| - 1].msg != m {
      ChannelsCover(q[..|q| - 1], m);
    }
  }

  lemma {:induction false} CollectBag(cs: seq<string>, q: seq<Queued>, m: Msg)
    requires Distinct(cs)
    ensures Bag(Collect(cs, q))[m] == if m.channel in cs then Bag(q)[m] else 0
  {
    if cs != [] {
      var init, c := cs[..|cs| - 1], cs[|cs| - 1];
      CollectBag(init, q, m);
      OfBag(q, c, m);
      BagOfConcat(Collect(init, q), Of(q, c), m);
      assert cs == init + [c];
    }
  }

  lemma {:induction false} CollectSnoc(cs: seq<string>, q: seq<Queued>, x: Queued)
    requires Distinct(cs)
    ensures |Collect(cs, q + [x])| == |Collect(cs, q)| + if x.msg.channel in cs then 1 else 0
  {
    if cs != [] {
      var init, c := cs[..|cs| - 1], cs[|cs| - 1];
      CollectSnoc(init, q, x);
      assert (q + [x])[..|q|] == q;
      assert cs == init + [c];
    }
  }

  lemma {:induction false} CollectLength(cs: seq<string>, q: seq<Queued>)
    requires Distinct(cs)
    ensures |Collect(cs, q)| <= |q|
    decreases |q|, |cs|
  {
    if q != [] {
      CollectLength(cs, q[..|q| - 1]);
      CollectSnoc(cs, q[..|q| - 1], q[|q| - 1]);
      assert q == q[..|q| - 1] + [q[|q| - 1]];
    } else if cs != [] {
      CollectLength(cs[..|cs| - 1], q);
    }
  }

  /** Handing over the first channel and regrouping the rest loses and repeats nothing. */
  lemma RegroupBag(q: seq<Queued>, m: Msg)
    requires q != []
    ensures Bag(q)[m] == Bag(Of(q, q[0].msg.channel))[m] + Bag(Collect(Channels(q)[1..], q))[m]
    ensures |Collect(Channels(q)[1..], q)| <= |q|
  {
    hide Bag, Of, Collect, Channels;
    var cs := Channels(q);
    ChannelsDistinct(q);
    OfBag(q, cs[0], m);
    CollectBag(cs[1..], q, m);
    CollectLength(cs[1..], q);
    if m in Bag(q) {
      ChannelsCover(q, m);
    }
    assert m.channel in cs <==> m.channel == cs[0] || m.channel in cs[1..] by {
      assert cs == [cs[0]] + cs[1..];
    }
  }

  // ---- Conservation ----

  function TurnBag(turns: seq<Turn>): multiset<Msg> {
    if turns == [] then multiset{} else TurnBag(turns[..|turns| - 1]) + multiset(turns[|turns| - 1].msgs)
  }

  /** In how many places the message is: waiting in its debounce, queued, handed to a turn, or
      dropped for one of four reasons. */
  function Places(s: Relay, m: Msg): nat {
    (if m.channel in s.pending && s.pending[m.channel] == m then 1 else 0)
    + Bag(s.queue)[m] + TurnBag(s.ledger.turns)[m]
    + s.ledger.superseded[m] + s.ledger.full[m] + s.ledger.stale[m] + s.ledger.hushed[m]
  }

  /** At most one turn is in flight, it owns the flag, and the queue is bounded. */
  ghost predicate Bounded(s: Relay) {
    && s.inFlight <= 1
    && (s.inFlight == 1 ==> s.isProcessing)
    && |s.queue| <= MAX_QUEUE_SIZE
    && (forall c :: c in s.pending ==> s.pending[c].channel == c)
  }

  /** The message the event admits, if it admits one. */
  function Admitted(cfg: Config, s: Relay, e: Event): multiset<Msg> {
    if e.Arrive? && Admits(cfg, e.m)
    then multiset{Msg(s.ledger.arrivals, e.m.channel, e.m.fromUser, Truncated(e.m.body))} else multiset{}
  }

  lemma StartTurnPlaces(s: Relay, t: Turn, gate: Gate, m: Msg)
    ensures Places(StartTurn(s, t, gate), m) == Places(s, m) + multiset(t.msgs)[m]
  {
    assert (s.ledger.turns + [t])[..|s.ledger.turns|] == s.ledger.turns;
  }

  lemma FirePlaces(s: Relay, c: string, now: int, gate: Gate, m: Msg)
    requires c in s.pending && s.pending[c].channel == c
    ensures Places(DoFire(s, c, now, gate), m) == Places(s, m)
  {
    hide Places, StartTurn;
    var msg := s.pending[c];
    var fired := s.(pending := s.pending - {c});
    UnpendPlaces(s, c, m);
    if !s.isProcessing {
      StartTurnPlaces(fired, Turn(c, msg.fromUser, [msg], false), gate, m);
    } else if |s.queue| < MAX_QUEUE_SIZE {
      EnqueuePlaces(fired, Queued(msg, now), m);
    } else {
      FullPlaces(fired, msg, m);
    }
  }

  lemma UnpendPlaces(s: Relay, c: string, m: Msg)
    requires c in s.pending && s.pending[c].channel == c
    ensures Places(s.(pending := s.pending - {c}), m) == Places(s, m) - multiset{s.pending[c]}[m]
  {
    hide Bag, TurnBag;
  }

  lemma EnqueuePlaces(s: Relay, x: Queued, m: Msg)
    ensures Places(s.(queue := s.queue + [x]), m) == Places(s, m) + multiset{x.msg}[m]
  {
    hide TurnBag;
    assert (s.queue + [x])[..|s.queue|] == s.queue;
  }

  lemma FullPlaces(s: Relay, x: Msg, m: Msg)
    ensures Places(s.(ledger := s.ledger.(full := s.ledger.full + multiset{x})), m) == Places(s, m) + multiset{x}[m]
  {
    hide Bag, TurnBag;
  }

  lemma ReleasePlaces(s: Relay, now: int, m: Msg)
    requires s.inFlight > 0
    ensures Places(Release(s, now), m) == Places(s, m)
    ensures |Release(s, now).queue| <= |s.queue|
  {
    FreshAndStale(s.queue, now, m);
  }

  lemma RequeuePlaces(s: Relay, q: seq<Queued>, m: Msg)
    ensures Places(s.(queue := q), m) + Bag(s.queue)[m] == Places(s, m) + Bag(q)[m]
  {
  }

  lemma HushPlaces(s: Relay, m: Msg)
    ensures Places(s.(queue := [], ledger := s.ledger.(hushed := s.ledger.hushed + Bag(s.queue))), m) == Places(s, m)
  {
  }

  lemma StartTurnKeepsQueue(s: Relay, t: Turn, gate: Gate)
    ensures var r := StartTurn(s, t, gate);
            && r.queue == s.queue && r.pending == s.pending && r.terminal == s.terminal
            && r.ledger == s.ledger.(turns := s.ledger.turns + [t])
            && r.inFlight == s.inFlight + (if gate == ReachesTry then 1 else 0)
            && r.isProcessing == (gate != SessionBusy)
  {
  }

  lemma DrainPlaces(s: Relay, now: int, gate: Gate, m: Msg)
    ensures Places(Drain(s, now, gate), m) == Places(s, m)
    ensures |Drain(s, now, gate).queue| <= |s.queue|
  {
    hide Places, Bag, Of, Channels, Collect, TurnBag, StartTurn;
    if s.queue == [] {
    } else if TerminalActive(s.terminal, s.queue[0].msg.channel, now) {
      HushPlaces(s, m);
    } else {
      var c := s.queue[0].msg.channel;
      ChannelsDistinct(s.queue);
      StartTurnKeepsQueue(s.(queue := Collect(Channels(s.queue)[1..], s.queue)),
                          Turn(c, s.queue[0].msg.fromUser, Msgs(Of(s.queue, c)), true), gate);
      RegroupBag(s.queue, m);
      BagOfMsgs(Of(s.queue, c));
      var rest := Collect(Channels(s.queue)[1..], s.queue);
      RequeuePlaces(s, rest, m);
      StartTurnPlaces(s.(queue := rest), Turn(c, s.queue[0].msg.fromUser, Msgs(Of(s.queue, c)), true), gate, m);
    }
  }

  lemma TerminalNotePlaces(s: Relay, c: string, now: int, x: Msg)
    ensures Places(s.(terminal := s.terminal[c := now]), x) == Places(s, x)
  {
  }

  lemma DebouncedPlaces(s: Relay, m: Incoming, x: Msg)
    requires forall c :: c in s.pending ==> s.pending[c].channel == c
    ensures Places(Debounced(s, m), x)
         == Places(s, x) + multiset{Msg(s.ledger.arrivals, m.channel, m.fromUser, Truncated(m.body))}[x]
  {
    hide Truncated, Bag, TurnBag;
  }

  lemma ArrivePlaces(cfg: Config, s: Relay, m: Incoming, now: int, x: Msg)
    requires forall c :: c in s.pending ==> s.pending[c].channel == c
    ensures Places(DoArrive(s, cfg, m, now), x) == Places(s, x) + Admitted(cfg, s, Arrive(m, now))[x]
  {
    hide Admits, MarksTerminal, Truncated, Bag, TurnBag, Debounced, Places;
    TerminalNotePlaces(s, m.channel, now, x);
    DebouncedPlaces(s, m, x);
    DebouncedPlaces(s.(terminal := s.terminal[m.channel := now]), m, x);
  }

  /** A step adds a message to the books exactly when it admits it, and moves every other
      message from one place to one other place at most. */
  lemma StepPlaces(cfg: Config, s: Relay, e: Event, m: Msg)
    requires Bounded(s)
    ensures Places(Step(cfg, s, e), m) == Places(s, m) + Admitted(cfg, s, e)[m]
  {
    if Enabled(s, e) {
      match e
      case Arrive(i, at) => ArrivePlaces(cfg, s, i, at, m);
      case Fire(c, at, gate) => FirePlaces(s, c, at, gate, m);
      case Finish(at, gate) =>
        ReleasePlaces(s, at, m);
        DrainPlaces(Release(s, at), at, gate, m);
    }
  }

  lemma FinishBounded(s: Relay, now: int, gate: Gate)
    requires Bounded(s) && s.inFlight > 0
    ensures Bounded(DoFinish(s, now, gate))
  {
    hide Places, Bag, Stale, Of, Channels, Collect, StartTurn, TerminalActive, Msgs;
    var m, r := Msg(0, "", "", ""), Release(s, now);
    ReleasePlaces(s, now, m);
    DrainPlaces(r, now, gate, m);
    if r.queue != [] && !TerminalActive(s.terminal, r.queue[0].msg.channel, now) {
      var c := r.queue[0].msg.channel;
      ChannelsDistinct(r.queue);
      StartTurnKeepsQueue(r.(queue := Collect(Channels(r.queue)[1..], r.queue)),
                          Turn(c, r.queue[0].msg.fromUser, Msgs(Of(r.queue, c)), true), gate);
    }
  }

  lemma StepBounded(cfg: Config, s: Relay, e: Event)
    requires Bounded(s)
    ensures Bounded(Step(cfg, s, e))
  {
    hide DoFinish, Admits, MarksTerminal, Truncated;
    if e.Finish? && Enabled(s, e) {
      FinishBounded(s, e.finishedAt, e.nextGate);
    }
  }

  lemma StepAdmits(cfg: Config, s: Relay, e: Event)
    ensures Step(cfg, s, e).ledger.admitted == s.ledger.admitted + Admitted(cfg, s, e)
    ensures Step(cfg, s, e).ledger.arrivals == s.ledger.arrivals + |Admitted(cfg, s, e)|
  {
    hide Admits, MarksTerminal, Truncated, Bag, Stale, Fresh, Of, Channels, Collect, TerminalActive;
  }

  /** Over every run the books balance for every message, at most one turn is in flight, and the
      queue holds at most ten messages, pushed-back ones included. */
  lemma {:induction false} RunPlaces(cfg: Config, s: Relay, es: seq<Event>, m: Msg)
    requires Bounded(s) && Places(s, m) == s.ledger.admitted[m]
    ensures var t := Run(cfg, s, es); Bounded(t) && Places(t, m) == t.ledger.admitted[m]
    decreases |es|
  {
    hide Places, Step, Bounded, Admitted;
    if es != [] {
      StepPlaces(cfg, s, es[0], m);
      StepBounded(cfg, s, es[0]);
      StepAdmits(cfg, s, es[0]);
      RunPlaces(cfg, Step(cfg, s, es[0]), es[1..], m);
    }
  }

  /** Messages are told apart by the order of admission. */
  ghost predicate Numbered(s: Relay) {
    forall m :: m in s.ledger.admitted ==> s.ledger.admitted[m] == 1 && m.id < s.ledger.arrivals
  }

  lemma {:induction false} RunNumbers(cfg: Config, s: Relay, es: seq<Event>)
    requires Bounded(s) && Numbered(s)
    ensures Numbered(Run(cfg, s, es))
    decreases |es|
  {
    if es != [] {
      StepBounded(cfg, s, es[0]);
      StepAdmits(cfg, s, es[0]);
      RunNumbers(cfg, Step(cfg, s, es[0]), es[1..]);
    }
  }

  /** Each admitted message is in exactly one place in every reachable state: none is lost and
      none is handed over twice. */
  lemma EveryMessageInOnePlace(cfg: Config, es: seq<Event>, m: Msg)
    ensures var s := Run(cfg, Initial, es);
            && Places(s, m) == (if m in s.ledger.admitted then 1 else 0)
            && Bounded(s)
  {
    RunPlaces(cfg, Initial, es, m);
    RunNumbers(cfg, Initial, es);
  }
}
