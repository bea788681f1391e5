/** The scheduler's decisions one by one, in plain figures: who is answered, what is dropped and when, what a turn
    holds (server/services/auto-responder.js). */
module SchedulingCases {
  import opened Prelude
  import opened Scheduling

  // ---- Who is answered ----

  /** The blanks of `trim` that the model knows. */
  lemma BlankExactly(c: char)
    ensures IsSpace(c) <==>
            c in {' ', '\t', '\n', '\r', '\U{000B}', '\U{000C}', '\U{00A0}', '\U{FEFF}'}
  {
  }

  /** The first character of the trimmed body: blanks before it, and it is no blank itself. */
  lemma {:induction false} FirstCharExactly(body: string, c: char)
    ensures FirstChar(body) == Some(c) <==>
            exists i :: 0 <= i < |body| && body[i] == c && !IsSpace(c) && forall j :: 0 <= j < i ==> IsSpace(body[j])
  {
    hide IsSpace;
    if body != [] && IsSpace(body[0]) {
      FirstCharExactly(body[1..], c);
      if i :| 0 <= i < |body| && body[i] == c && !IsSpace(c) && forall j :: 0 <= j < i ==> IsSpace(body[j]) {
        forall j | 0 <= j < i - 1 ensures IsSpace(body[1..][j]) {
          assert body[1..][j] == body[j + 1];
        }
        assert body[1..][i - 1] == c;
      }
      if FirstChar(body) == Some(c) {
        var i :| && 0 <= i < |body[1..]| && body[1..][i] == c && !IsSpace(c)
                 && forall j :: 0 <= j < i ==> IsSpace(body[1..][j]);
        forall j | 0 <= j < i + 1 ensures IsSpace(body[j]) {
          assert j > 0 ==> body[j] == body[1..][j - 1];
        }
        assert body[i + 1] == c;
      }
    } else if body != [] && FirstChar(body) == Some(c) {
      assert body[0] == c;
    }
  }

  /** What every answered message is: not blank, not from the service's own account, neither an automatic answer nor
      federated, and not for a worker by name. */
  predicate Eligible(cfg: Config, m: Incoming) {
    && FirstChar(m.body) != None && m.fromUser != "agent_darkhan"
    && m.origin != Some("auto_responder") && !m.federated && !cfg.namesWorker(m.body)
  }

  /** Of the eligible messages, the lead agent's are answered exactly if they are heartbeats; a human's exactly if
      they are no slash commands; the system heartbeat's always; a relay agent's exactly if they call the lead agent;
      and nobody else's. */
  lemma AnsweredExactly(cfg: Config, m: Incoming)
    ensures Admits(cfg, m) ==> Eligible(cfg, m)
    ensures m.fromUser == cfg.leadAgent ==>
              (Admits(cfg, m) <==> Eligible(cfg, m) && StartsWith(m.body, "HEARTBEAT:"))
    ensures m.fromUser != cfg.leadAgent && m.fromUser in cfg.humans ==>
              (Admits(cfg, m) <==> Eligible(cfg, m) && FirstChar(m.body) != Some('/'))
    ensures m.fromUser != cfg.leadAgent && m.fromUser !in cfg.humans && m.fromUser == "system_heartbeat" ==>
              (Admits(cfg, m) <==> Eligible(cfg, m))
    ensures m.fromUser != cfg.leadAgent && m.fromUser !in cfg.humans && m.fromUser != "system_heartbeat" ==>
              (Admits(cfg, m) <==> Eligible(cfg, m) && m.fromUser in cfg.relayTriggers && cfg.callsLead(m.body))
  {
    if StartsWith(m.body, "HEARTBEAT:") {
      assert m.body[0] == m.body[..10][0] == 'H';
    }
  }

  /** The eligible messages that are slash commands. */
  lemma CommandsExactly(cfg: Config, m: Incoming)
    ensures IsCommand(cfg, m) <==> Eligible(cfg, m) && m.fromUser in cfg.humans && FirstChar(m.body) == Some('/')
    ensures IsCommand(cfg, m) ==> !Admits(cfg, m)
  {
  }

  /** A post of the lead agent that is no heartbeat notes its time for the channel, worker names or not, and nothing
      else does. */
  lemma TerminalNoteExactly(cfg: Config, s: Relay, m: Incoming, now: int)
    ensures DoArrive(s, cfg, m, now).terminal ==
            if m.fromUser == cfg.leadAgent && !StartsWith(m.body, "HEARTBEAT:") && FirstChar(m.body) != None
               && m.fromUser != "agent_darkhan" && m.origin != Some("auto_responder") && !m.federated
            then s.terminal[m.channel := now] else s.terminal
  {
    hide FirstChar, Truncated;
  }

  /** Bodies of up to ten thousand characters are kept; of longer ones, that many, with a note. */
  lemma TruncationExactly(body: string)
    ensures |body| <= 10000 ==> Truncated(body) == body
    ensures |body| > 10000 ==> && Truncated(body)[..10000] == body[..10000]
                               && Truncated(body)[10000..] == "\n\n[Message truncated at 10,000 characters]"
  {
    if |body| > 10000 {
      var note := "\n\n[Message truncated at 10,000 characters]";
      assert (body[..10000] + note)[..10000] == body[..10000] && (body[..10000] + note)[10000..] == note;
    }
  }

  // ---- What a fired debounce does ----

  /** It starts a turn on an idle scheduler; on a busy one it queues its message with the time, unless ten wait. */
  lemma FireExactly(s: Relay, c: string, now: int, gate: Gate)
    requires c in s.pending
    ensures var msg, t := s.pending[c], DoFire(s, c, now, gate);
            && t.pending == s.pending - {c} && t.terminal == s.terminal
            && (!s.isProcessing ==>
                  t.ledger == s.ledger.(turns := s.ledger.turns + [Turn(c, msg.fromUser, [msg], false)])
                  && t.queue == s.queue)
            && (s.isProcessing && |s.queue| < 10 ==> t.queue == s.queue + [Queued(msg, now)] && t.ledger == s.ledger)
            && (s.isProcessing && |s.queue| >= 10 ==>
                  t.queue == s.queue && t.ledger == s.ledger.(full := s.ledger.full + multiset{msg}))
  {
  }

  // ---- What the end of a turn drops ----

  /** The queue is split by age: what has waited for more than a minute goes, the rest stays. */
  lemma {:induction false} AgeDecides(q: seq<Queued>, now: int, x: Queued)
    ensures x in Fresh(q, now) <==> x in q && (x.queuedAt == 0 || now - x.queuedAt <= 60000)
    ensures x in Stale(q, now) <==> x in q && x.queuedAt != 0 && now - x.queuedAt > 60000
  {
    if q != [] {
      var init, last := q[..|q| - 1], q[|q| - 1];
      AgeDecides(init, now, x);
      assert q == init + [last];
    }
  }

  lemma {:induction false} InBag(q: seq<Queued>, m: Msg)
    ensures m in Bag(q) <==> exists x :: x in q && x.msg == m
  {
    if q != [] {
      var init, last := q[..|q| - 1], q[|q| - 1];
      InBag(init, m);
      assert q == init + [last];
      assert last in q;
    }
  }

  /** At the end of a turn a message is dropped as stale exactly if it has waited for more than a minute. */
  lemma StaleExactly(s: Relay, now: int, gate: Gate, m: Msg)
    requires s.inFlight > 0
    ensures DoFinish(s, now, gate).ledger.stale[m] > s.ledger.stale[m] <==>
            exists x :: x in s.queue && x.msg == m && x.queuedAt != 0 && now - x.queuedAt > 60000
    ensures DoFinish(s, now, gate).ledger.full == s.ledger.full
  {
    hide Bag, Stale, Fresh, Of, Channels, Collect, Msgs, TerminalActive;
    DrainKeepsStale(Release(s, now), now, gate);
    InBag(Stale(s.queue, now), m);
    if x :| x in Stale(s.queue, now) && x.msg == m {
      AgeDecides(s.queue, now, x);
    }
    if x :| x in s.queue && x.msg == m && x.queuedAt != 0 && now - x.queuedAt > 60000 {
      AgeDecides(s.queue, now, x);
    }
  }

  lemma DrainKeepsStale(s: Relay, now: int, gate: Gate)
    ensures Drain(s, now, gate).ledger.stale == s.ledger.stale && Drain(s, now, gate).ledger.full == s.ledger.full
  {
    hide Bag, Of, Collect, Msgs, TerminalActive;
    if s.queue != [] {
      ChannelsDistinct(s.queue);
    }
  }

  /** If the lead agent's last posts from the terminal are all ten minutes old or older, nothing is dropped for them,
      and the first fresh message's channel gets the next turn. */
  lemma OldTerminalSilencesNothing(s: Relay, now: int, gate: Gate)
    requires s.inFlight > 0
    requires forall c :: c in s.terminal ==> s.terminal[c] == 0 || now - s.terminal[c] >= 600000
    ensures var t, kept := DoFinish(s, now, gate), Fresh(s.queue, now);
            && t.ledger.hushed == s.ledger.hushed
            && (kept != [] ==>
                  |t.ledger.turns| == |s.ledger.turns| + 1
                  && t.ledger.turns[|s.ledger.turns|].channel == kept[0].msg.channel)
            && (kept == [] ==> t.ledger.turns == s.ledger.turns)
  {
    hide Bag, Fresh, Stale, Of, Collect, Msgs, Channels;
    if Fresh(s.queue, now) != [] {
      ChannelsDistinct(Fresh(s.queue, now));
    }
  }

  /** If the lead agent posted from the terminal on that channel less than ten minutes ago, every fresh message is
      dropped, whatever its channel, and no turn starts. */
  lemma RecentTerminalSilencesAll(s: Relay, now: int, gate: Gate)
    requires s.inFlight > 0 && Fresh(s.queue, now) != []
    requires var c := Fresh(s.queue, now)[0].msg.channel;
             c in s.terminal && s.terminal[c] != 0 && now - s.terminal[c] < 600000
    ensures var t := DoFinish(s, now, gate);
            && t.queue == [] && t.ledger.turns == s.ledger.turns && !t.isProcessing
            && t.ledger.hushed == s.ledger.hushed + Bag(Fresh(s.queue, now))
  {
    hide Bag, Fresh, Stale, Of, Collect, Msgs, Channels;
  }

  // ---- What a turn holds ----

  /** A turn has messages, all of its channel, and is in the name of the first one's sender. */
  ghost predicate Coherent(t: Turn) {
    t.msgs != [] && t.fromUser == t.msgs[0].fromUser && forall i :: 0 <= i < |t.msgs| ==> t.msgs[i].channel == t.channel
  }

  ghost predicate AllCoherent(s: Relay) {
    forall i :: 0 <= i < |s.ledger.turns| ==> Coherent(s.ledger.turns[i])
  }

  lemma DrainCoherent(s: Relay, now: int, gate: Gate)
    requires AllCoherent(s)
    ensures AllCoherent(Drain(s, now, gate))
  {
    hide Bag, Of, Collect, Channels, TerminalActive;
    if s.queue != [] {
      var q, c := s.queue, s.queue[0].msg.channel;
      ChannelsDistinct(q);
      OfChannel(q, c);
      FirstOfChannel(q);
      assert Coherent(Turn(c, q[0].msg.fromUser, Msgs(Of(q, c)), true));
    }
  }

  lemma StepCoherent(cfg: Config, s: Relay, e: Event)
    requires Bounded(s) && AllCoherent(s)
    ensures AllCoherent(Step(cfg, s, e))
  {
    hide Admits, MarksTerminal, Truncated, Drain, Coherent, Fresh, Stale, Bag;
    if Enabled(s, e) {
      if e.Finish? {
        assert AllCoherent(Release(s, e.finishedAt));
        DrainCoherent(Release(s, e.finishedAt), e.finishedAt, e.nextGate);
      } else if e.Fire? {
        SingleCoherent(s.pending[e.channel]);
      }
    }
  }

  lemma SingleCoherent(m: Msg)
    ensures Coherent(Turn(m.channel, m.fromUser, [m], false))
  {
  }

  /** In every reachable state every turn is coherent: no turn mixes channels or answers in another's name. */
  lemma {:induction false} TurnsAreCoherent(cfg: Config, s: Relay, es: seq<Event>)
    requires Bounded(s) && AllCoherent(s)
    ensures AllCoherent(Run(cfg, s, es))
    decreases |es|
  {
    hide Step, Bounded, AllCoherent;
    if es != [] {
      StepCoherent(cfg, s, es[0]);
      StepBounded(cfg, s, es[0]);
      TurnsAreCoherent(cfg, Step(cfg, s, es[0]), es[1..]);
    }
  }
}
