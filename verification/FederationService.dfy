/** The federation service object. */
module FederationServices {
  import opened Prelude
  import opened Federation

  class FederationService {
    const cfg: Config
    var messages: seq<Row>
    var lastPollTimestamp: Option<string>
    var dispatched: seq<string>
    var connected: bool
    var heartbeatFailures: nat

    ghost function View(): Node
      reads this
    {
      Node(messages, lastPollTimestamp, dispatched, connected, heartbeatFailures)
    }

    constructor (cfg: Config, messages: seq<Row>)
      ensures this.cfg == cfg && View() == Node(messages, None, [], false, 0)
    {
      this.cfg := cfg;
      this.messages := messages;
      lastPollTimestamp, dispatched := None, [];
      connected, heartbeatFailures := false, 0;
    }

    /** A registration; `ok` is the outcome of its request. */
    method Register(ok: bool)
      modifies this`connected
      ensures View() == if ok then Connect(old(View())) else old(View())
    {
      if ok {
        connected := true;
      }
    }

    method Heartbeat(ok: bool)
      modifies this`connected, this`heartbeatFailures
      ensures View() == Beat(old(View()), ok)
    {
      if !connected {
        if ok {
          connected := true;
          heartbeatFailures := 0;
          return;
        }
      } else if ok {
        heartbeatFailures := 0;
        return;
      }
      heartbeatFailures := heartbeatFailures + 1;
      if connected {
        if heartbeatFailures >= 3 {
          connected := false;
          heartbeatFailures := 0;
        }
      }
    }

    /** One poll: reconnect if need be, then take in the reply. `batch` is None when the request fails.
        `ackIds` is what is acknowledged; None when nothing is. */
    method Poll(registers: bool, batch: Option<seq<FedMsg>>) returns (ackIds: Option<seq<string>>)
      modifies this
      ensures var n := if old(connected) || registers then Connect(old(View())) else old(View());
              View() == if (old(connected) || registers) && batch.Some? then IngestAll(cfg, n, batch.value) else n
      ensures ackIds == if (old(connected) || registers) && batch.Some? && batch.value != []
                        then Some(Ids(batch.value)) else None
    {
      if !connected {
        Register(registers);
        if !registers {
          return None;
        }
      }
      if batch.None? || batch.value == [] {
        return None;
      }
      var ids := IngestBatch(batch.value);
      ackIds := Some(ids);
    }

    /** The loop over a reply's messages. */
    method IngestBatch(batch: seq<FedMsg>) returns (ackIds: seq<string>)
      modifies this`messages, this`lastPollTimestamp, this`dispatched
      ensures View() == IngestAll(cfg, old(View()), batch)
      ensures ackIds == Ids(batch)
    {
      hide Ingest, JsGreater;
      ackIds := [];
      assert batch[..0] == [];
      for i := 0 to |batch|
        invariant View() == IngestAll(cfg, old(View()), batch[..i])
        invariant ackIds == Ids(batch[..i])
      {
        var msg := batch[i];
        assert batch[..i + 1][..i] == batch[..i];
        if JsGreater(cfg, msg.timestamp, lastPollTimestamp) {
          lastPollTimestamp := Some(msg.timestamp);
        }
        ackIds := ackIds + [msg.id];
        IngestMessage(msg);
      }
      assert batch[..|batch|] == batch;
    }

    method IngestMessage(msg: FedMsg)
      modifies this`messages, this`dispatched
      ensures View() == Ingest(cfg, old(View()), msg)
    {
      hide HasId, RowOf;
      if ChannelOf(msg) !in cfg.channels {
        return;
      }
      var row := RowOf(cfg, msg);
      if !HasId(messages, row.id) {
        messages := messages + [row];
      }
      if OriginOf(msg) != "auto_responder" {
        dispatched := dispatched + [msg.id];
      }
    }

    /** relayMessage: one reconnect attempt, then one request. A failure drops the message. */
    method RelayMessage(registers: bool, accepted: bool) returns (relayed: bool)
      modifies this`connected
      ensures relayed <==> (old(connected) || registers) && accepted
      ensures connected <==> old(connected) || registers
    {
      if !connected {
        Register(registers);
        if !registers {
          return false;
        }
      }
      relayed := accepted;
    }
  }
}
