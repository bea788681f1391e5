/** What holds over whole runs of the scheduler: order of hand-over, bounded waiting, and when the
    scheduler stops for good. */
module SchedulingRuns {
  import opened Prelude
  import opened Scheduling

  // ---- Hand-over order ----

  /** The ids rise strictly and stay below `bound`. */
  ghost predicate Rising(ms: seq<Msg>, bound: nat) {
    && (forall i, j :: 0 <= i < j < |ms| ==> ms[i].id < ms[j].id)
    && (forall i :: 0 <= i < |ms| ==> ms[i].id < bound)
  }

  /** The messages of channel `c` in the order in which turns received them. Without `all`, only
      those that came from the queue. */
  function HandedOn(turns: seq<Turn>, c: string, all: bool): seq<Msg> {
    if turns == [] then []
    else
      var t := turns[|turns| - 1];
      HandedOn(turns[..|turns| - 1], c, all) + if t.channel == c && (all || t.drained) then t.msgs else []
  }

  function Waiting(s: Relay, c: string): seq<Msg> {
    if c in s.pending then [s.pending[c]] else []
  }

  /** The channel's messages: those handed over, then those queued, then the one in its debounce. */
  function Trail(s: Relay, c: string, all: bool): seq<Msg> {
    HandedOn(s.ledger.turns, c, all) + Msgs(Of(s.queue, c)) + Waiting(s, c)
  }

  ghost predicate Ordered(s: Relay, c: string, all: bool) {
    Rising(Trail(s, c, all), s.ledger.arrivals)
  }

  predicate QueuesOnlyWhenBusy(s: Relay) {
    !s.isProcessing ==> s.queue == []
  }

  lemma RisingDrop(a: seq<Msg>, x: seq<Msg>, b: seq<Msg>, bound: nat)
    requires Rising(a + x + b, bound)
    ensures Rising(a + b, bound)
  {
    var whole, part := a + x + b, a + b;
    forall i | 0 <= i < |part| ensures part[i] == whole[if i < |a| then i else i + |x|] {
    }
  }

  lemma {:induction false} RisingFresh(a: seq<Msg>, q: seq<Queued>, now: int, b: seq<Msg>, bound: nat)
    requires Rising(a + Msgs(q) + b, bound)
    ensures Rising(a + Msgs(Fresh(q, now)) + b, bound)
  {
    if q == [] {
      assert Fresh(q, now) == q;
    } else {
      var init, x := q[..|q| - 1], q[|q| - 1];
      assert Msgs(q) == Msgs(init) + [x.msg];
      if IsStale(x, now) {
        assert a + Msgs(q) + b == (a + Msgs(init)) + [x.msg] + b;
        RisingDrop(a + Msgs(init), [x.msg], b, bound);
        RisingFresh(a, init, now, b, bound);
        assert Fresh(q, now) == Fresh(init, now);
      } else {
        assert a + Msgs(q) + b == a + Msgs(init) + ([x.msg] + b);
        RisingFresh(a, init, now, [x.msg] + b, bound);
        assert Msgs(Fresh(q, now)) == Msgs(Fresh(init, now)) + [x.msg];
        assert a + Msgs(Fresh(q, now)) + b == a + Msgs(Fresh(init, now)) + ([x.msg] + b);
      }
    }
  }

  lemma {:induction false} OfFresh(q: seq<Queued>, now: int, c: string)
    ensures Of(Fresh(q, now), c) == Fresh(Of(q, c), now)
  {
    if q != [] {
      var init, x := q[..|q| - 1], q[|q| - 1];
      OfFresh(init, now, c);
      OfConcat(Fresh(init, now), [x], c);
      assert [x][..0] == [];
      assert Fresh(q, now) == if IsStale(x, now) then Fresh(init, now) else Fresh(init, now) + [x];
      assert Of(q, c) == if x.msg.channel == c then Of(init, c) + [x] else Of(init, c);
      assert (Of(init, c) + [x])[..|Of(init, c)|] == Of(init, c);
    }
  }

  lemma {:induction false} OfConcat(a: seq<Queued>, b: seq<Queued>, c: string)
    ensures Of(a + b, c) == Of(a, c) + Of(b, c)
  {
    if b == [] {
      assert a + b == a;
    } else {
      OfConcat(a, b[..|b| - 1], c);
      assert (a + b)[..|a + b| - 1] == a + b[..|b| - 1];
    }
  }

  lemma {:induction false} OfOf(q: seq<Queued>, d: string, c: string)
    ensures Of(Of(q, d), c) == if c == d then Of(q, c) else []
  {
    if q != [] {
      var init, x := q[..|q| - 1], q[|q| - 1];
      OfOf(init, d, c);
      OfConcat(Of(init, d), [x], c);
      assert [x][..0] == [];
      assert Of(q, d) == if x.msg.channel == d then Of(init, d) + [x] else Of(init, d);
    }
  }

  lemma {:induction false} OfCollect(cs: seq<string>, q: seq<Queued>, c: string)
    requires Distinct(cs)
    ensures Of(Collect(cs, q), c) == if c in cs then Of(q, c) else []
  {
    if cs != [] {
      var init, d := cs[..|cs| - 1], cs[|cs| - 1];
      OfCollect(init, q, c);
      OfConcat(Collect(init, q), Of(q, d), c);
      OfOf(q, d, c);
      assert cs == init + [d];
    }
  }

  /** Regrouping keeps each remaining channel's messages in place and takes out the first channel. */
  lemma OfRegrouped(q: seq<Queued>, c: string)
    requires q != []
    ensures Channels(q) != []
    ensures Of(Collect(Channels(q)[1..], q), c) == if c == q[0].msg.channel then [] else Of(q, c)
  {
    hide Of, Collect, Channels;
    var cs := Channels(q);
    ChannelsDistinct(q);
    OfCollect(cs[1..], q, c);
    assert cs == [cs[0]] + cs[1..];
    OfAbsent(q, c);
  }

  lemma HandedOnSnoc(turns: seq<Turn>, t: Turn, c: string, all: bool)
    ensures HandedOn(turns + [t], c, all)
         == HandedOn(turns, c, all) + if t.channel == c && (all || t.drained) then t.msgs else []
  {
    assert (turns + [t])[..|turns|] == turns;
  }

  /** Starting a turn appends its messages, if they count, and moves nothing else. */
  lemma TrailOfStart(s: Relay, t: Turn, gate: Gate, c: string, all: bool)
    ensures Trail(StartTurn(s, t, gate), c, all)
         == HandedOn(s.ledger.turns, c, all) + (if t.channel == c && (all || t.drained) then t.msgs else [])
            + Msgs(Of(s.queue, c)) + Waiting(s, c)
  {
    hide HandedOn, Of;
    HandedOnSnoc(s.ledger.turns, t, c, all);
  }

  lemma HushOrdered(s: Relay, c: string, all: bool)
    requires Ordered(s, c, all)
    ensures Ordered(s.(queue := [], ledger := s.ledger.(hushed := s.ledger.hushed + Bag(s.queue))), c, all)
  {
    hide Rising, HandedOn, Bag;
    var queued := Msgs(Of(s.queue, c));
    RisingDrop(HandedOn(s.ledger.turns, c, all), queued, Waiting(s, c), s.ledger.arrivals);
    OfAbsentFromEmpty(c);
    assert HandedOn(s.ledger.turns, c, all) + [] == HandedOn(s.ledger.turns, c, all);
  }

  lemma RegroupOrdered(s: Relay, gate: Gate, c: string, all: bool)
    requires s.queue != [] && Channels(s.queue) != [] && Ordered(s, c, all)
    ensures var d := s.queue[0].msg.channel;
            Ordered(StartTurn(s.(queue := Collect(Channels(s.queue)[1..], s.queue)),
                              Turn(d, s.queue[0].msg.fromUser, Msgs(Of(s.queue, d)), true), gate), c, all)
  {
    hide Rising, HandedOn, Of, Collect, Channels, Trail, StartTurn;
    var q := s.queue;
    var d := q[0].msg.channel;
    var t := Turn(d, q[0].msg.fromUser, Msgs(Of(q, d)), true);
    var rest := s.(queue := Collect(Channels(q)[1..], q));
    OfRegrouped(q, c);
    OfAbsentFromEmpty(c);
    TrailOfStart(rest, t, gate, c, all);
    StartTurnKeepsQueue(rest, t, gate);
    TrailParts(s, c, all);
    var h := HandedOn(s.ledger.turns, c, all);
    assert h + [] == h && h + Msgs(Of(q, d)) + [] == h + Msgs(Of(q, d));
  }

  lemma TrailParts(s: Relay, c: string, all: bool)
    ensures Trail(s, c, all) == HandedOn(s.ledger.turns, c, all) + Msgs(Of(s.queue, c)) + Waiting(s, c)
  {
  }

  lemma DrainOrdered(s: Relay, now: int, gate: Gate, c: string, all: bool)
    requires Ordered(s, c, all)
    ensures Ordered(Drain(s, now, gate), c, all)
  {
    hide Ordered, Of, Collect, StartTurn, Bag;
    if s.queue != [] {
      ChannelsDistinct(s.queue);
      HushOrdered(s, c, all);
      RegroupOrdered(s, gate, c, all);
    }
  }

  lemma OfAbsentFromEmpty(c: string)
    ensures Of([], c) == [] && Msgs([]) == []
  {
  }

  lemma FinishOrdered(s: Relay, now: int, gate: Gate, c: string, all: bool)
    requires s.inFlight > 0 && Ordered(s, c, all)
    ensures Ordered(DoFinish(s, now, gate), c, all)
  {
    hide Rising, Fresh, Of, HandedOn, Drain, Stale, Bag;
    OfFresh(s.queue, now, c);
    RisingFresh(HandedOn(s.ledger.turns, c, all), Of(s.queue, c), now, Waiting(s, c), s.ledger.arrivals);
    DrainOrdered(Release(s, now), now, gate, c, all);
  }

  /** Taking the message out of the debounce takes it off the end of its channel's trail. */
  lemma UnpendOrdered(s: Relay, d: string, c: string, all: bool)
    requires d in s.pending && Ordered(s, c, all)
    ensures Ordered(s.(pending := s.pending - {d}), c, all)
    ensures var rest := Trail(s.(pending := s.pending - {d}), c, all);
            Trail(s, c, all) == if d == c then rest + [s.pending[d]] else rest
  {
    hide Rising, HandedOn, Of;
    var front := HandedOn(s.ledger.turns, c, all) + Msgs(Of(s.queue, c));
    if d == c {
      assert Trail(s, c, all) == front + [s.pending[d]] + [];
      RisingDrop(front, [s.pending[d]], [], s.ledger.arrivals);
      assert Trail(s.(pending := s.pending - {d}), c, all) == front + [];
    }
  }

  lemma EnqueueOrdered(s: Relay, x: Queued, c: string, all: bool)
    requires x.msg.channel !in s.pending
    ensures Trail(s.(queue := s.queue + [x]), c, all)
         == if x.msg.channel == c then Trail(s, c, all) + [x.msg] else Trail(s, c, all)
  {
    hide HandedOn, Of;
    OfConcat(s.queue, [x], c);
    OfSingle(x, c);
    assert Of(s.queue, c) + [] == Of(s.queue, c);
    assert Msgs(Of(s.queue, c) + [x]) == Msgs(Of(s.queue, c)) + [x.msg];
  }

  lemma StartOrdered(s: Relay, t: Turn, gate: Gate, c: string, all: bool)
    requires t.channel !in s.pending && !t.drained && (all && t.channel == c ==> Of(s.queue, c) == [])
    ensures Trail(StartTurn(s, t, gate), c, all)
         == if t.channel == c && all then Trail(s, c, all) + t.msgs else Trail(s, c, all)
  {
    hide HandedOn, Of;
    TrailOfStart(s, t, gate, c, all);
    OfAbsentFromEmpty(c);
  }

  /** The debounce fires on an idle scheduler while messages of its own channel wait in the queue. */
  predicate Overtakes(s: Relay, e: Event, c: string) {
    e.Fire? && e.channel == c && Enabled(s, e) && !s.isProcessing && Of(s.queue, c) != []
  }

  /** The turn of that debounce stands before the waiting messages, which are older. */
  lemma OvertakingBreaksOrder(s: Relay, c: string, now: int, gate: Gate)
    requires c in s.pending && Ordered(s, c, true) && !s.isProcessing && Of(s.queue, c) != []
    ensures !Ordered(DoFire(s, c, now, gate), c, true)
  {
    hide HandedOn, Of;
    var msg, h, waiting := s.pending[c], HandedOn(s.ledger.turns, c, true), Msgs(Of(s.queue, c));
    var fired := s.(pending := s.pending - {c});
    TrailOfStart(fired, Turn(c, msg.fromUser, [msg], false), gate, c, true);
    var before, after := Trail(s, c, true), Trail(DoFire(s, c, now, gate), c, true);
    assert before == h + waiting + [msg] && after == h + [msg] + waiting + [];
    assert before[|h|] == waiting[0] && before[|before| - 1] == msg;
    assert after[|h|] == msg && after[|h| + 1] == waiting[0];
  }

  lemma FireOrdered(s: Relay, d: string, now: int, gate: Gate, c: string, all: bool)
    requires d in s.pending && s.pending[d].channel == d
    requires Ordered(s, c, all) && !(all && Overtakes(s, Fire(d, now, gate), c))
    ensures Ordered(DoFire(s, d, now, gate), c, all)
  {
    hide Rising, Trail, Of;
    var msg := s.pending[d];
    var fired := s.(pending := s.pending - {d});
    UnpendOrdered(s, d, c, all);
    if !s.isProcessing {
      StartOrdered(fired, Turn(d, msg.fromUser, [msg], false), gate, c, all);
    } else if |s.queue| < MAX_QUEUE_SIZE {
      EnqueueOrdered(fired, Queued(msg, now), c, all);
    } else {
      FullKeepsTrail(fired, msg, c, all);
    }
  }

  lemma FullKeepsTrail(s: Relay, msg: Msg, c: string, all: bool)
    ensures Trail(s.(ledger := s.ledger.(full := s.ledger.full + multiset{msg})), c, all) == Trail(s, c, all)
  {
  }

  lemma OfSingle(x: Queued, c: string)
    ensures Of([x], c) == if x.msg.channel == c then [x] else []
    ensures Msgs([x]) == [x.msg]
  {
    assert [x][..0] == [];
  }

  lemma ArriveOrdered(cfg: Config, s: Relay, m: Incoming, now: int, c: string, all: bool)
    requires Ordered(s, c, all)
    ensures Ordered(DoArrive(s, cfg, m, now), c, all)
  {
    hide Admits, MarksTerminal, Truncated, Of, HandedOn;
    var r := DoArrive(s, cfg, m, now);
    if Admits(cfg, m) && m.channel == c {
      var front := HandedOn(s.ledger.turns, c, all) + Msgs(Of(s.queue, c));
      RisingDrop(front, Waiting(s, c), [], s.ledger.arrivals);
      assert front + Waiting(s, c) + [] == Trail(s, c, all) && front + [] == front;
      assert Trail(r, c, all) == front + [r.pending[c]];
    } else {
      assert Trail(r, c, all) == Trail(s, c, all);
    }
  }

  /** One step keeps the order exactly if it does not overtake. */
  lemma StepOrdered(cfg: Config, s: Relay, e: Event, c: string, all: bool)
    requires Bounded(s) && Ordered(s, c, all)
    ensures Ordered(Step(cfg, s, e), c, all) <==> !(all && Overtakes(s, e, c))
  {
    hide Ordered, DoArrive, DoFire, DoFinish, Of;
    if Enabled(s, e) {
      match e
      case Arrive(m, at) => ArriveOrdered(cfg, s, m, at, c, all);
      case Fire(d, at, gate) =>
        if all && Overtakes(s, e, c) {
          OvertakingBreaksOrder(s, c, at, gate);
        } else {
          FireOrdered(s, d, at, gate, c, all);
        }
      case Finish(at, gate) => FinishOrdered(s, at, gate, c, all);
    }
  }

  /** How the call of processMessage that the event may start leaves its first part. */
  function GateOf(e: Event): Gate {
    match e
    case Arrive(_, _) => ReachesTry
    case Fire(_, _, gate) => gate
    case Finish(_, gate) => gate
  }

  /** Without a busy return, nothing waits in the queue of an idle scheduler. */
  predicate NoBusyReturn(es: seq<Event>) {
    forall i :: 0 <= i < |es| ==> GateOf(es[i]) != SessionBusy
  }

  lemma StepQueuesOnlyWhenBusy(cfg: Config, s: Relay, e: Event)
    requires QueuesOnlyWhenBusy(s)
    requires GateOf(e) != SessionBusy
    ensures QueuesOnlyWhenBusy(Step(cfg, s, e))
  {
    hide Admits, MarksTerminal, Truncated, Bag, Of, Channels, Collect, Fresh, Stale;
    if e.Finish? && Enabled(s, e) {
      var r := Release(s, e.finishedAt);
      if r.queue != [] {
        ChannelsDistinct(r.queue);
      }
    }
  }

  /** No event of the run overtakes on the channel. */
  predicate NeverOvertaken(cfg: Config, s: Relay, es: seq<Event>, c: string)
    decreases |es|
  {
    es != [] ==> !Overtakes(s, es[0], c) && NeverOvertaken(cfg, Step(cfg, s, es[0]), es[1..], c)
  }

  /** The channel's messages are in order in every state of the run. */
  ghost predicate AlwaysOrdered(cfg: Config, s: Relay, es: seq<Event>, c: string)
    decreases |es|
  {
    Ordered(s, c, true) && (es != [] ==> AlwaysOrdered(cfg, Step(cfg, s, es[0]), es[1..], c))
  }

  lemma {:induction false} RunOrdered(cfg: Config, s: Relay, es: seq<Event>, c: string, all: bool)
    requires Bounded(s) && Ordered(s, c, all)
    requires all ==> NeverOvertaken(cfg, s, es, c)
    ensures Ordered(Run(cfg, s, es), c, all)
    decreases |es|
  {
    hide Ordered, Bounded, Step, Overtakes;
    if es != [] {
      StepOrdered(cfg, s, es[0], c, all);
      StepBounded(cfg, s, es[0]);
      RunOrdered(cfg, Step(cfg, s, es[0]), es[1..], c, all);
    }
  }

  lemma {:induction false} AlwaysOrderedExactly(cfg: Config, s: Relay, es: seq<Event>, c: string)
    requires Bounded(s) && Ordered(s, c, true)
    ensures AlwaysOrdered(cfg, s, es, c) <==> NeverOvertaken(cfg, s, es, c)
    decreases |es|
  {
    hide Ordered, Bounded, Step, Overtakes;
    if es != [] {
      StepOrdered(cfg, s, es[0], c, true);
      StepBounded(cfg, s, es[0]);
      var t := Step(cfg, s, es[0]);
      if Ordered(t, c, true) {
        AlwaysOrderedExactly(cfg, t, es[1..], c);
      }
    }
  }

  lemma {:induction false} NoBusyReturnNeverOvertakes(cfg: Config, s: Relay, es: seq<Event>, c: string)
    requires QueuesOnlyWhenBusy(s) && NoBusyReturn(es)
    ensures NeverOvertaken(cfg, s, es, c)
    decreases |es|
  {
    hide Step;
    if es != [] {
      OfAbsentFromEmpty(c);
      StepQueuesOnlyWhenBusy(cfg, s, es[0]);
      NoBusyReturnNeverOvertakes(cfg, Step(cfg, s, es[0]), es[1..], c);
    }
  }

  /** Queued messages of one channel reach turns in their order of arrival, whatever regrouping and dropping
      happens. All messages of the channel do, all along, if and only if no debounce of the channel fires on an
      idle scheduler while its messages wait; which takes a busy return before. */
  lemma HandedOverInArrivalOrder(cfg: Config, es: seq<Event>, c: string)
    ensures var s := Run(cfg, Initial, es);
            && Rising(Trail(s, c, false), s.ledger.arrivals)
            && (AlwaysOrdered(cfg, Initial, es, c) <==> NeverOvertaken(cfg, Initial, es, c))
            && (NeverOvertaken(cfg, Initial, es, c) ==> Rising(Trail(s, c, true), s.ledger.arrivals))
            && (NoBusyReturn(es) ==> NeverOvertaken(cfg, Initial, es, c))
  {
    RunOrdered(cfg, Initial, es, c, false);
    AlwaysOrderedExactly(cfg, Initial, es, c);
    if NeverOvertaken(cfg, Initial, es, c) {
      RunOrdered(cfg, Initial, es, c, true);
    }
    if NoBusyReturn(es) {
      NoBusyReturnNeverOvertakes(cfg, Initial, es, c);
    }
  }

  /** A configuration with one human, and that human's message "x" on channel `c`. */
  const DEMO := Config({"h"}, {}, "lead", _ => false, _ => false)

  function Demo(c: string): Incoming {
    Incoming(c, "h", "x", None, false)
  }

  lemma DemoIsAdmitted(c: string)
    ensures Admits(DEMO, Demo(c)) && !MarksTerminal(DEMO, Demo(c)) && Truncated("x") == "x"
  {
    assert FirstChar("x") == Some('x');
  }

  /** What the arrival of that message and its debounce do. */
  lemma DemoPost(s: Relay, c: string, now: int, gate: Gate)
    requires s.pending == map[] && |s.queue| < MAX_QUEUE_SIZE
    ensures var msg := Msg(s.ledger.arrivals, c, "h", "x");
            var t := Step(DEMO, Step(DEMO, s, Arrive(Demo(c), now)), Fire(c, now, gate));
            && t.pending == map[] && t.terminal == s.terminal && t.ledger.arrivals == s.ledger.arrivals + 1
            && (s.isProcessing ==> t.queue == s.queue + [Queued(msg, now)] && t.ledger.turns == s.ledger.turns
                                   && t.isProcessing && t.inFlight == s.inFlight)
            && (!s.isProcessing ==> t.queue == s.queue
                                    && t.ledger.turns == s.ledger.turns + [Turn(c, "h", [msg], false)]
                                    && t.isProcessing == (gate != SessionBusy)
                                    && t.inFlight == s.inFlight + if gate == ReachesTry then 1 else 0)
  {
    hide Admits, MarksTerminal, Truncated;
    DemoIsAdmitted(c);
    var u := Step(DEMO, s, Arrive(Demo(c), now));
    assert u.pending == map[c := Msg(s.ledger.arrivals, c, "h", "x")];
    assert u.pending - {c} == map[];
  }

  /** An in-flight turn, one message of channel "a" queued before one of channel "b". */
  lemma ReachTwoQueued() returns (s: Relay, es: seq<Event>)
    ensures s == Run(DEMO, Initial, es) && NoBusyReturn(es)
    ensures s.queue == [Queued(Msg(1, "a", "h", "x"), 2), Queued(Msg(2, "b", "h", "x"), 3)]
    ensures s.inFlight == 1 && s.pending == map[] && s.terminal == map[] && s.ledger.arrivals == 3
  {
    hide Step, Run;
    es := [Arrive(Demo("a"), 1), Fire("a", 1, ReachesTry), Arrive(Demo("a"), 2), Fire("a", 2, ReachesTry),
           Arrive(Demo("b"), 3), Fire("b", 3, ReachesTry)];
    DemoPost(Initial, "a", 1, ReachesTry);
    var s1 := Step(DEMO, Step(DEMO, Initial, es[0]), es[1]);
    DemoPost(s1, "a", 2, ReachesTry);
    var s2 := Step(DEMO, Step(DEMO, s1, es[2]), es[3]);
    DemoPost(s2, "b", 3, ReachesTry);
    s := Step(DEMO, Step(DEMO, s2, es[4]), es[5]);
    RunTwo(DEMO, Initial, es);
    RunTwo(DEMO, s1, es[2..]);
    RunTwo(DEMO, s2, es[4..]);
    assert es[2..][2..] == es[4..] && es[4..][2..] == [];
    RunNothing(DEMO, s);
  }

  lemma RunNothing(cfg: Config, s: Relay)
    ensures Run(cfg, s, []) == s
  {
  }

  /** The case occurs. After a busy return the message behind the suppressed turn is overtaken by a later one of its
      own channel. */
  lemma BusyReturnLetsOvertake()
    ensures exists cfg, es, more ::
      Ordered(Run(cfg, Initial, es), "b", true) && !Ordered(Run(cfg, Run(cfg, Initial, es), more), "b", true)
  {
    hide Step, Run, Ordered;
    var s3, es := ReachTwoQueued();
    HandedOverInArrivalOrder(DEMO, es, "b");
    assert Ordered(s3, "b", true) by {
      OrderedIsRising(s3, "b", true);
    }
    var b1 := s3.queue[1];
    var more := [Finish(4, SessionBusy), Arrive(Demo("b"), 5), Fire("b", 5, ReachesTry)];
    var s4 := Step(DEMO, s3, more[0]);
    SuppressedDrain(s3, 4);
    DemoPost(s4, "b", 5, ReachesTry);
    var s5 := Step(DEMO, Step(DEMO, s4, more[1]), more[2]);
    RunOne(DEMO, s3, more);
    RunTwo(DEMO, s4, more[1..]);
    assert more[1..][2..] == [];
    RunNothing(DEMO, s5);
    OvertakenTrail(s5, s4.ledger.turns, b1);
    assert !Ordered(Run(DEMO, Run(DEMO, Initial, es), more), "b", true);
  }

  lemma OrderedIsRising(s: Relay, c: string, all: bool)
    ensures Ordered(s, c, all) <==> Rising(Trail(s, c, all), s.ledger.arrivals)
  {
  }

  lemma RunOne(cfg: Config, s: Relay, es: seq<Event>)
    requires es != []
    ensures Run(cfg, s, es) == Run(cfg, Step(cfg, s, es[0]), es[1..])
  {
  }

  lemma SuppressedDrain(s: Relay, now: int)
    requires s.inFlight == 1 && s.terminal == map[] && |s.queue| == 2
    requires s.queue[0].msg.channel != s.queue[1].msg.channel
    requires !IsStale(s.queue[0], now) && !IsStale(s.queue[1], now)
    ensures var t := Step(DEMO, s, Finish(now, SessionBusy));
            && t.queue == [s.queue[1]] && !t.isProcessing && t.inFlight == 0
            && t.pending == s.pending && t.terminal == s.terminal && t.ledger.arrivals == s.ledger.arrivals
  {
    hide Fresh, Channels, Collect, Of, Stale, Bag;
    assert s.queue == [s.queue[0], s.queue[1]];
    TwoChannels(s.queue[0], s.queue[1], now);
  }

  lemma OvertakenTrail(s: Relay, turns: seq<Turn>, b1: Queued)
    requires s.queue == [b1] && b1.msg.id == 2 && b1.msg.channel == "b"
    requires s.ledger.turns == turns + [Turn("b", "h", [Msg(3, "b", "h", "x")], false)]
    ensures !Ordered(s, "b", true)
  {
    var h := HandedOn(turns, "b", true);
    HandedOnSnoc(turns, Turn("b", "h", [Msg(3, "b", "h", "x")], false), "b", true);
    OfSingle(b1, "b");
    var trail := Trail(s, "b", true);
    assert trail[|h|].id == 3 && trail[|h| + 1].id == 2;
  }

  lemma RunTwo(cfg: Config, s: Relay, es: seq<Event>)
    requires |es| >= 2
    ensures Run(cfg, s, es) == Run(cfg, Step(cfg, Step(cfg, s, es[0]), es[1]), es[2..])
  {
    hide Step;
    assert es[1..][1..] == es[2..];
  }

  lemma TwoFresh(x: Queued, y: Queued, now: int)
    requires !IsStale(x, now) && !IsStale(y, now)
    ensures Fresh([x, y], now) == [x, y]
  {
    hide IsStale;
    assert [x, y][..1] == [x] && [x][..0] == [];
    assert Fresh([x], now) == [x];
  }

  lemma TwoCollected(x: Queued, y: Queued)
    requires x.msg.channel != y.msg.channel
    ensures Collect([y.msg.channel], [x, y]) == [y]
  {
    hide Of;
    OfConcat([x], [y], y.msg.channel);
    OfSingle(x, y.msg.channel);
    OfSingle(y, y.msg.channel);
    assert [x] + [y] == [x, y];
    assert [y.msg.channel][..0] == [];
    assert [] + [y] == [y];
  }

  lemma TwoChannels(x: Queued, y: Queued, now: int)
    requires x.msg.channel != y.msg.channel && !IsStale(x, now) && !IsStale(y, now)
    ensures Channels([x, y]) == [x.msg.channel, y.msg.channel]
    ensures Fresh([x, y], now) == [x, y]
    ensures Collect([y.msg.channel], [x, y]) == [y]
  {
    hide Fresh, Collect, Of;
    TwoFresh(x, y, now);
    TwoCollected(x, y);
    assert [x, y][..1] == [x] && [x][..0] == [];
    assert Channels([x]) == [x.msg.channel];
  }

  // ---- Bounded waiting ----

  function ChannelSet(q: seq<Queued>): set<string> {
    set i | 0 <= i < |q| :: q[i].msg.channel
  }

  /** The other channels with a message queued before `m`. */
  function Ahead(q: seq<Queued>, m: Msg): set<string> {
    if q == [] then {}
    else if m in Bag(q[..|q| - 1]) then Ahead(q[..|q| - 1], m)
    else ChannelSet(q[..|q| - 1]) - {m.channel}
  }

  /** The members of `cs` before `c`. */
  function Before(cs: seq<string>, c: string): set<string> {
    if cs == [] then {}
    else if c in cs[..|cs| - 1] then Before(cs[..|cs| - 1], c)
    else set i | 0 <= i < |cs| - 1 :: cs[i]
  }

  lemma {:induction false} AheadBound(q: seq<Queued>, m: Msg)
    ensures Ahead(q, m) <= ChannelSet(q) - {m.channel}
  {
    if q != [] {
      AheadBound(q[..|q| - 1], m);
    }
  }

  lemma {:induction false} AheadConcat(a: seq<Queued>, b: seq<Queued>, m: Msg)
    requires m in Bag(a)
    ensures Ahead(a + b, m) == Ahead(a, m)
  {
    if b == [] {
      assert a + b == a;
    } else {
      AheadConcat(a, b[..|b| - 1], m);
      assert (a + b)[..|a + b| - 1] == a + b[..|b| - 1];
      BagOfConcat(a, b[..|b| - 1], m);
    }
  }

  lemma {:induction false} FreshChannels(q: seq<Queued>, now: int)
    ensures ChannelSet(Fresh(q, now)) <= ChannelSet(q)
  {
    if q != [] {
      FreshChannels(q[..|q| - 1], now);
      forall c | c in ChannelSet(Fresh(q, now)) ensures c in ChannelSet(q) {
        var i :| 0 <= i < |Fresh(q, now)| && Fresh(q, now)[i].msg.channel == c;
        if i < |Fresh(q[..|q| - 1], now)| {
          assert c in ChannelSet(Fresh(q[..|q| - 1], now));
          var j :| 0 <= j < |q| - 1 && q[..|q| - 1][j].msg.channel == c;
          assert q[j].msg.channel == c;
        } else {
          assert q[|q| - 1].msg.channel == c;
        }
      }
    }
  }

  lemma Snoc(q: seq<Queued>, x: Queued, now: int, m: Msg)
    ensures Bag(q + [x])[m] == Bag(q)[m] + if x.msg == m then 1 else 0
    ensures Ahead(q + [x], m) == if m in Bag(q) then Ahead(q, m) else ChannelSet(q) - {m.channel}
    ensures Fresh(q + [x], now) == if IsStale(x, now) then Fresh(q, now) else Fresh(q, now) + [x]
  {
    assert (q + [x])[..|q|] == q;
  }

  lemma {:induction false} AheadFresh(q: seq<Queued>, now: int, m: Msg)
    requires Bag(q)[m] <= 1 && m in Bag(Fresh(q, now))
    ensures Ahead(Fresh(q, now), m) <= Ahead(q, m)
  {
    hide Ahead, IsStale, Bag, Fresh, ChannelSet;
    NothingFresh(now, m);
    var init, x := q[..|q| - 1], q[|q| - 1];
    assert q == init + [x];
    FreshAndStale(init, now, m);
    Snoc(init, x, now, m);
    Snoc(Fresh(init, now), x, now, m);
    if m in Bag(init) {
      AheadFresh(init, now, m);
    } else {
      FreshChannels(init, now);
    }
  }

  lemma NothingFresh(now: int, m: Msg)
    ensures Fresh([], now) == [] && Bag([])[m] == 0
  {
  }

  lemma {:induction false} ChannelsWithin(q: seq<Queued>)
    ensures forall c :: c in Channels(q) <==> c in ChannelSet(q)
  {
    if q != [] {
      var init := q[..|q| - 1];
      ChannelsWithin(init);
      assert ChannelSet(q) == ChannelSet(init) + {q[|q| - 1].msg.channel} by {
        forall c | c in ChannelSet(init) ensures c in ChannelSet(q) {
          var j :| 0 <= j < |init| && init[j].msg.channel == c;
          assert q[j].msg.channel == c;
        }
      }
    }
  }

  lemma {:induction false} BeforeAhead(q: seq<Queued>, m: Msg)
    requires m in Bag(q)
    ensures Before(Channels(q), m.channel) <= Ahead(q, m)
  {
    var init, c := q[..|q| - 1], q[|q| - 1].msg.channel;
    var cs := Channels(init);
    ChannelsWithin(init);
    ChannelsDistinct(init);
    assert (cs + [c])[..|cs|] == cs;
    if m in Bag(init) {
      ChannelsCover(init, m);
      BeforeAhead(init, m);
    } else if m.channel in cs {
      BeforeBound(cs, m.channel);
    }
  }

  lemma {:induction false} BeforeBound(cs: seq<string>, c: string)
    requires c in cs && Distinct(cs)
    ensures Before(cs, c) <= (set i | 0 <= i < |cs| :: cs[i]) - {c}
  {
    if c in cs[..|cs| - 1] {
      BeforeBound(cs[..|cs| - 1], c);
    }
  }

  lemma {:induction false} BeforeTail(cs: seq<string>, c: string)
    requires Distinct(cs) && c in cs && c != cs[0]
    ensures cs[0] in Before(cs, c)
    ensures Before(cs[1..], c) <= Before(cs, c) - {cs[0]}
  {
    var init := cs[..|cs| - 1];
    assert cs[1..][..|cs| - 2] == init[1..];
    if c in init {
      BeforeTail(init, c);
    } else {
      assert c == cs[|cs| - 1] && |cs| >= 2;
    }
  }

  lemma {:induction false} CollectChannels(cs: seq<string>, q: seq<Queued>)
    ensures forall i :: 0 <= i < |Collect(cs, q)| ==> Collect(cs, q)[i].msg.channel in cs
  {
    if cs != [] {
      CollectChannels(cs[..|cs| - 1], q);
      OfChannel(q, cs[|cs| - 1]);
    }
  }

  lemma {:induction false} AheadCollect(cs: seq<string>, q: seq<Queued>, m: Msg)
    requires Distinct(cs) && m in Bag(q) && m.channel in cs
    ensures m in Bag(Collect(cs, q)) && Ahead(Collect(cs, q), m) <= Before(cs, m.channel)
  {
    var init, c := cs[..|cs| - 1], cs[|cs| - 1];
    CollectBag(cs, q, m);
    CollectBag(init, q, m);
    if m.channel in init {
      AheadCollect(init, q, m);
      AheadConcat(Collect(init, q), Of(q, c), m);
    } else {
      AheadBound(Collect(cs, q), m);
      CollectChannels(cs, q);
    }
  }

  /** A drain hands `m` over, or drops it, or strictly shrinks the set of channels ahead of it. */
  lemma FinishAdvances(s: Relay, now: int, gate: Gate, m: Msg)
    requires s.inFlight > 0 && m in Bag(s.queue) && Bag(s.queue)[m] <= 1
    ensures var r := DoFinish(s, now, gate);
            m in Bag(r.queue) ==> Bag(r.queue)[m] <= 1 && Ahead(r.queue, m) < Ahead(s.queue, m)
  {
    hide Bag, Ahead, Of, Channels, Collect, Before, Fresh, Stale;
    var q, r := Fresh(s.queue, now), DoFinish(s, now, gate);
    FreshAndStale(s.queue, now, m);
    BagOfNothing(m);
    if m in Bag(r.queue) {
      assert q != [];
      var cs := Channels(q);
      ChannelsDistinct(q);
      RegroupBag(q, m);
      StartTurnKeepsQueue(Release(s, now).(queue := Collect(cs[1..], q)),
                          Turn(cs[0], q[0].msg.fromUser, Msgs(Of(q, cs[0])), true), gate);
      assert r.queue == Collect(cs[1..], q);
      CollectBag(cs[1..], q, m);
      AheadFresh(s.queue, now, m);
      BeforeAhead(q, m);
      assert cs == [cs[0]] + cs[1..];
      AheadCollect(cs[1..], q, m);
      BeforeTail(cs, m.channel);
    }
  }

  lemma BagOfNothing(m: Msg)
    ensures Bag([])[m] == 0
  {
  }

  /** The message has been handed to a turn or dropped from the queue. */
  function Settled(s: Relay, m: Msg): nat {
    TurnBag(s.ledger.turns)[m] + s.ledger.stale[m] + s.ledger.hushed[m]
  }

  /** How many turns end in the run. */
  function Drains(cfg: Config, s: Relay, es: seq<Event>): nat
    decreases |es|
  {
    if es == [] then 0
    else (if es[0].Finish? && Enabled(s, es[0]) then 1 else 0) + Drains(cfg, Step(cfg, s, es[0]), es[1..])
  }

  lemma DrainSettles(s: Relay, now: int, gate: Gate, m: Msg)
    ensures Settled(Drain(s, now, gate), m) + Bag(Drain(s, now, gate).queue)[m] == Settled(s, m) + Bag(s.queue)[m]
  {
    hide Bag, Of, Channels, Collect, StartTurn, TurnBag;
    BagOfNothing(m);
    if s.queue != [] && !TerminalActive(s.terminal, s.queue[0].msg.channel, now) {
      var c, cs := s.queue[0].msg.channel, Channels(s.queue);
      var t := Turn(c, s.queue[0].msg.fromUser, Msgs(Of(s.queue, c)), true);
      ChannelsDistinct(s.queue);
      RegroupBag(s.queue, m);
      BagOfMsgs(Of(s.queue, c));
      StartTurnKeepsQueue(s.(queue := Collect(cs[1..], s.queue)), t, gate);
      TurnBagSnoc(s.ledger.turns, t);
    }
  }

  lemma TurnBagSnoc(turns: seq<Turn>, t: Turn)
    ensures TurnBag(turns + [t]) == TurnBag(turns) + multiset(t.msgs)
  {
    assert (turns + [t])[..|turns|] == turns;
  }

  lemma FireSettles(s: Relay, c: string, now: int, gate: Gate, m: Msg)
    requires c in s.pending
    ensures var r := DoFire(s, c, now, gate);
            && Settled(r, m) >= Settled(s, m)
            && Bag(r.queue)[m] >= Bag(s.queue)[m]
            && (m in Bag(s.queue) ==> Ahead(r.queue, m) == Ahead(s.queue, m))
  {
    hide TurnBag, Ahead;
    var msg := s.pending[c];
    TurnBagSnoc(s.ledger.turns, Turn(c, msg.fromUser, [msg], false));
    BagOfConcat(s.queue, [Queued(msg, now)], m);
    if m in Bag(s.queue) {
      AheadConcat(s.queue, [Queued(msg, now)], m);
    }
  }

  lemma ArriveKeeps(cfg: Config, s: Relay, m: Incoming, now: int)
    ensures var r := DoArrive(s, cfg, m, now);
            && r.queue == s.queue && r.ledger.turns == s.ledger.turns
            && r.ledger.stale == s.ledger.stale && r.ledger.hushed == s.ledger.hushed
  {
    hide Admits, MarksTerminal, Truncated;
  }

  lemma StepSettles(cfg: Config, s: Relay, e: Event, m: Msg)
    requires Bounded(s)
    ensures var r := Step(cfg, s, e);
            && Settled(r, m) >= Settled(s, m)
            && (!(e.Finish? && Enabled(s, e)) ==>
                  && Bag(r.queue)[m] >= Bag(s.queue)[m]
                  && (m in Bag(s.queue) ==> Ahead(r.queue, m) == Ahead(s.queue, m)))
            && (e.Finish? && Enabled(s, e) ==>
                  Settled(r, m) + Bag(r.queue)[m] == Settled(s, m) + Bag(s.queue)[m])
  {
    hide DoArrive, DoFire, DoFinish, Ahead, Bag, TurnBag, Bounded;
    if Enabled(s, e) {
      match e
      case Arrive(i, at) => ArriveKeeps(cfg, s, i, at);
      case Fire(c, at, gate) => FireSettles(s, c, at, gate, m);
      case Finish(at, gate) => FinishSettles(s, at, gate, m);
    }
  }

  lemma FinishSettles(s: Relay, now: int, gate: Gate, m: Msg)
    requires s.inFlight > 0
    ensures var r := DoFinish(s, now, gate);
            && Settled(r, m) >= Settled(s, m)
            && Settled(r, m) + Bag(r.queue)[m] == Settled(s, m) + Bag(s.queue)[m]
  {
    hide Bag, Of, Channels, Collect, StartTurn, TurnBag, Fresh, Stale;
    var r := Release(s, now);
    FreshAndStale(s.queue, now, m);
    DrainSettles(r, now, gate, m);
    if r.queue != [] {
      var c, cs := r.queue[0].msg.channel, Channels(r.queue);
      var t := Turn(c, r.queue[0].msg.fromUser, Msgs(Of(r.queue, c)), true);
      ChannelsDistinct(r.queue);
      StartTurnKeepsQueue(r.(queue := Collect(cs[1..], r.queue)), t, gate);
      TurnBagSnoc(s.ledger.turns, t);
    }
  }

  lemma {:induction false} RunSettles(cfg: Config, s: Relay, es: seq<Event>, m: Msg)
    requires Bounded(s)
    ensures Settled(Run(cfg, s, es), m) >= Settled(s, m)
    decreases |es|
  {
    hide Settled, Step, Bounded, Bag;
    if es != [] {
      StepSettles(cfg, s, es[0], m);
      StepBounded(cfg, s, es[0]);
      RunSettles(cfg, Step(cfg, s, es[0]), es[1..], m);
    }
  }

  /** A queued message with k other channels ahead of it has been handed to a turn or dropped
      once k + 1 turns have ended, whatever else arrives. */
  lemma {:induction false} ServedWithinDrains(cfg: Config, s: Relay, es: seq<Event>, m: Msg)
    requires Bounded(s) && m in Bag(s.queue)
    requires Places(s, m) == s.ledger.admitted[m] == 1 && Numbered(s)
    requires Drains(cfg, s, es) > |Ahead(s.queue, m)|
    ensures Settled(Run(cfg, s, es), m) >= 1
    decreases |es|
  {
    hide Bag, Ahead, Settled, Bounded, Admits, DoFire, DoFinish, DoArrive, Truncated, MarksTerminal;
    var e, t := es[0], Step(cfg, s, es[0]);
    StepSettles(cfg, s, e, m);
    StepBounded(cfg, s, e);
    StepPlaces(cfg, s, e, m);
    StepAdmits(cfg, s, e);
    RunNumbers(cfg, s, [e]);
    assert Run(cfg, s, [e]) == t by {
      assert [e][1..] == [];
    }
    if e.Finish? && Enabled(s, e) {
      FinishAdvances(s, e.finishedAt, e.nextGate, m);
      if m in Bag(t.queue) {
        SmallerSet(Ahead(t.queue, m), Ahead(s.queue, m));
      }
    }
    assert Places(t, m) == 1;
    if m in Bag(t.queue) {
      ServedWithinDrains(cfg, t, es[1..], m);
    } else {
      RunSettles(cfg, t, es[1..], m);
    }
  }

  /** In every reachable state: a queued message waits for at most one drain more than the number of other
      channels ahead of it. */
  lemma QueuedMessagesAreServed(cfg: Config, es: seq<Event>, more: seq<Event>, m: Msg)
    requires m in Bag(Run(cfg, Initial, es).queue)
    requires Drains(cfg, Run(cfg, Initial, es), more) > |Ahead(Run(cfg, Initial, es).queue, m)|
    ensures Settled(Run(cfg, Run(cfg, Initial, es), more), m) >= 1
  {
    hide Bag, Ahead, Settled, Drains, Run;
    EveryMessageInOnePlace(cfg, es, m);
    RunNumbers(cfg, Initial, es);
    ServedWithinDrains(cfg, Run(cfg, Initial, es), more, m);
  }

  lemma SmallerSet(a: set<string>, b: set<string>)
    requires a < b
    ensures |a| < |b|
  {
    assert b == a + (b - a);
  }

  // ---- Stopping for good ----

  /** The flag is up although no turn is in flight. */
  predicate Stuck(s: Relay) {
    s.isProcessing && s.inFlight == 0
  }

  /** Some call of processMessage in the run answers a permission prompt. */
  predicate AnswersPermission(cfg: Config, s: Relay, es: seq<Event>)
    decreases |es|
  {
    es != [] &&
    var t := Step(cfg, s, es[0]);
    || (|t.ledger.turns| > |s.ledger.turns| && GateOf(es[0]) == PermissionReply)
    || AnswersPermission(cfg, t, es[1..])
  }

  lemma StepStuck(cfg: Config, s: Relay, e: Event)
    requires Bounded(s)
    ensures var t := Step(cfg, s, e);
            && (Stuck(s) ==> Stuck(t) && t.ledger.turns == s.ledger.turns)
            && (!Stuck(s) ==> (Stuck(t) <==> |t.ledger.turns| > |s.ledger.turns| && GateOf(e) == PermissionReply))
            && (e.Finish? && Enabled(s, e) && t.queue != [] ==> |t.ledger.turns| == |s.ledger.turns| + 1)
  {
    hide Admits, MarksTerminal, Truncated, Bag, Of, Channels, Collect, Fresh, Stale, TerminalActive;
    if e.Finish? && Enabled(s, e) {
      var r := Release(s, e.finishedAt);
      if r.queue != [] {
        ChannelsDistinct(r.queue);
      }
    }
  }

  /** Once stuck, the scheduler stays stuck and never hands over another message. */
  lemma {:induction false} StuckForever(cfg: Config, s: Relay, es: seq<Event>)
    requires Bounded(s) && Stuck(s)
    ensures Stuck(Run(cfg, s, es)) && Run(cfg, s, es).ledger.turns == s.ledger.turns
    decreases |es|
  {
    hide Step, Bounded;
    if es != [] {
      StepStuck(cfg, s, es[0]);
      StepBounded(cfg, s, es[0]);
      StuckForever(cfg, Step(cfg, s, es[0]), es[1..]);
    }
  }

  /** A raised flag means a turn in flight, except after a turn that answered a permission prompt. */
  lemma {:induction false} StuckExactlyAfterPermission(cfg: Config, s: Relay, es: seq<Event>)
    requires Bounded(s) && !Stuck(s)
    ensures Stuck(Run(cfg, s, es)) <==> AnswersPermission(cfg, s, es)
    decreases |es|
  {
    hide Step, Bounded, Stuck;
    if es != [] {
      StepStuck(cfg, s, es[0]);
      StepBounded(cfg, s, es[0]);
      var t := Step(cfg, s, es[0]);
      if Stuck(t) {
        StuckForever(cfg, t, es[1..]);
      } else {
        StuckExactlyAfterPermission(cfg, t, es[1..]);
      }
    }
  }

  /** When a turn that reached its try block ends and messages are still queued, the next turn has
      been started. */
  lemma FinishStartsNextTurn(cfg: Config, s: Relay, now: int, gate: Gate)
    requires Bounded(s) && s.inFlight > 0
    ensures var t := DoFinish(s, now, gate);
            t.queue != [] ==> |t.ledger.turns| == |s.ledger.turns| + 1 && t.ledger.turns[|s.ledger.turns|].msgs != []
  {
    var t := Step(cfg, s, Finish(now, gate));
    StepStuck(cfg, s, Finish(now, gate));
    if Fresh(s.queue, now) != [] {
      FirstOfChannel(Fresh(s.queue, now));
    }
  }
}
