/** The auto-responder as the process runs it: module-level variables updated in place, one method
    per atomic step. Each method is proved to make exactly the transition of module Scheduling. */
module AutoResponders {
  import opened Prelude
  import opened Scheduling

  class AutoResponder {
    const cfg: Config
    var isProcessing: bool
    var messageQueue: seq<Queued>
    var pendingResponses: map<string, Msg>
    var terminalClaudeActivity: map<string, int>
    // History that the program does not keep: turns inside their try block, and every message's fate.
    var inFlight: nat
    var ledger: Ledger

    ghost function View(): Relay
      reads this
    {
      Relay(isProcessing, messageQueue, pendingResponses, terminalClaudeActivity, inFlight, ledger)
    }

    constructor (cfg: Config)
      ensures this.cfg == cfg && View() == Initial
    {
      this.cfg := cfg;
      isProcessing, messageQueue := false, [];
      pendingResponses, terminalClaudeActivity := map[], map[];
      inFlight, ledger := 0, Initial.ledger;
    }

    /** The filters. `heard` messages get as far as the terminal-activity note. */
    method Screen(m: Incoming) returns (heard: bool, admitted: bool)
      ensures heard <==> Heard(m)
      ensures admitted <==> Admits(cfg, m)
    {
      if FirstChar(m.body).None? || m.fromUser == "agent_darkhan" {
        return false, false;
      }
      if m.origin == Some("auto_responder") {
        return false, false;
      }
      if m.federated && m.origin != Some("auto_responder") {
        return false, false;
      }
      if cfg.namesWorker(m.body) {
        return true, false;
      }
      if m.fromUser in cfg.humans && FirstChar(m.body) == Some('/') {
        return true, false;
      }
      var isHuman := m.fromUser in cfg.humans;
      var isAgentRelay := m.fromUser in cfg.relayTriggers && cfg.callsLead(m.body);
      var isSystemTrigger := m.fromUser == "system_heartbeat" || (m.fromUser == cfg.leadAgent && IsHeartbeat(m.body));
      if !isHuman && !isAgentRelay && !isSystemTrigger {
        return true, false;
      }
      if m.fromUser == cfg.leadAgent && !IsHeartbeat(m.body) {
        return true, false;
      }
      return true, true;
    }

    /** A message was posted: filter it, note terminal activity, (re)start the channel's debounce. */
    method OnNewMessage(m: Incoming, now: int)
      modifies this
      ensures View() == DoArrive(old(View()), cfg, m, now)
    {
      hide Admits, Heard, IsHeartbeat, Debounced;
      var heard, admitted := Screen(m);
      if heard && m.fromUser == cfg.leadAgent && !IsHeartbeat(m.body) {
        terminalClaudeActivity := terminalClaudeActivity[m.channel := now];
      }
      if admitted {
        Debounce(m);
      }
    }

    method Debounce(m: Incoming)
      modifies this
      ensures View() == Debounced(old(View()), m)
    {
      hide Truncated;
      var msg := Msg(ledger.arrivals, m.channel, m.fromUser, Truncated(m.body));
      var replaced := multiset{};
      if m.channel in pendingResponses {
        replaced := multiset{pendingResponses[m.channel]};
      }
      pendingResponses := pendingResponses[m.channel := msg];
      ledger := ledger.(arrivals := ledger.arrivals + 1, admitted := ledger.admitted + multiset{msg},
                        superseded := ledger.superseded + replaced);
    }

    /** A debounce timer fires: queue the message, drop it, or start a turn. */
    method OnDebounce(channel: string, now: int, gate: Gate)
      requires channel in pendingResponses
      modifies this
      ensures View() == DoFire(old(View()), channel, now, gate)
    {
      var msg := pendingResponses[channel];
      pendingResponses := pendingResponses - {channel};
      if isProcessing {
        if |messageQueue| >= MAX_QUEUE_SIZE {
          ledger := ledger.(full := ledger.full + multiset{msg});
          return;
        }
        messageQueue := messageQueue + [Queued(msg, now)];
        return;
      }
      ProcessMessage(Turn(channel, msg.fromUser, [msg], false), gate);
    }

    /** processMessage up to its try block. */
    method ProcessMessage(turn: Turn, gate: Gate)
      modifies this
      ensures View() == StartTurn(old(View()), turn, gate)
    {
      isProcessing := true;
      ledger := ledger.(turns := ledger.turns + [turn]);
      if gate == PermissionReply {
        return;
      }
      if gate == SessionBusy {
        isProcessing := false;
        return;
      }
      inFlight := inFlight + 1;
    }

    /** The finally block of a turn. */
    method EndTurn(now: int, gate: Gate)
      requires inFlight > 0
      modifies this
      ensures View() == DoFinish(old(View()), now, gate)
    {
      hide Fresh, Stale, Bag, Of, Channels, Collect, StartTurn;
      isProcessing := false;
      inFlight := inFlight - 1;
      var kept := DropStale(now);
      if |kept| == 0 {
        return;
      }
      if TerminalActive(terminalClaudeActivity, kept[0].msg.channel, now) {
        ledger := ledger.(hushed := ledger.hushed + Bag(kept));
        return;
      }
      HandOver(kept, gate);
    }

    /** Empties the queue, keeping what is not stale. */
    method DropStale(now: int) returns (kept: seq<Queued>)
      modifies this`messageQueue, this`ledger
      ensures kept == Fresh(old(messageQueue), now) && messageQueue == []
      ensures ledger == old(ledger).(stale := old(ledger).stale + Bag(Stale(old(messageQueue), now)))
    {
      hide Bag, IsStale;
      var all := messageQueue;
      messageQueue := [];
      kept := [];
      var dropped := [];
      assert all[..0] == [];
      for i := 0 to |all|
        invariant kept == Fresh(all[..i], now) && dropped == Stale(all[..i], now)
      {
        assert all[..i + 1][..i] == all[..i];
        if IsStale(all[i], now) {
          dropped := dropped + [all[i]];
        } else {
          kept := kept + [all[i]];
        }
      }
      assert all[..|all|] == all;
      ledger := ledger.(stale := ledger.stale + Bag(dropped));
    }

    /** Hands the first channel's messages to the next turn and pushes the others back. */
    method HandOver(kept: seq<Queued>, gate: Gate)
      requires kept != [] && messageQueue == []
      modifies this
      ensures Channels(kept) != []
      ensures var c := kept[0].msg.channel;
              View() == StartTurn(old(View()).(queue := Collect(Channels(kept)[1..], kept)),
                                  Turn(c, kept[0].msg.fromUser, Msgs(Of(kept, c)), true), gate)
    {
      hide Of, Channels, StartTurn;
      var channels, byChannel := GroupByChannel(kept);
      ChannelsDistinct(kept);
      var firstChannel := channels[0];
      var firstMessages := byChannel[firstChannel];
      FirstOfChannel(kept);
      assert channels[1..1] == [];
      for i := 1 to |channels|
        invariant messageQueue == Collect(channels[1..i], kept)
        invariant View() == old(View()).(queue := messageQueue)
      {
        assert channels[1..i + 1][..i - 1] == channels[1..i];
        messageQueue := messageQueue + byChannel[channels[i]];
      }
      assert channels[1..|channels|] == channels[1..];
      ProcessMessage(Turn(firstChannel, firstMessages[0].msg.fromUser, Msgs(firstMessages), true), gate);
    }
  }

  /** Groups messages by channel, remembering the order in which channels first occur. */
  method GroupByChannel(q: seq<Queued>) returns (channels: seq<string>, byChannel: map<string, seq<Queued>>)
    ensures channels == Channels(q)
    ensures byChannel.Keys == set c | c in channels
    ensures forall c :: c in byChannel ==> byChannel[c] == Of(q, c)
  {
    channels, byChannel := [], map[];
    assert q[..0] == [];
    for i := 0 to |q|
      invariant channels == Channels(q[..i])
      invariant byChannel.Keys == set c | c in channels
      invariant forall c :: c in byChannel ==> byChannel[c] == Of(q[..i], c)
    {
      var m := q[i];
      assert q[..i + 1][..i] == q[..i];
      OfAbsent(q[..i], m.msg.channel);
      if m.msg.channel !in byChannel {
        channels := channels + [m.msg.channel];
        byChannel := byChannel[m.msg.channel := []];
      }
      byChannel := byChannel[m.msg.channel := byChannel[m.msg.channel] + [m]];
    }
    assert q[..|q|] == q;
  }
}
