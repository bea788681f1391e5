/** One node of the federation and its hub (server/services/federation.js): polling with lost replies,
    lost acknowledgements and overlapping polls. */
module Federation {
  import opened Prelude

  const POLL_LIMIT := 50

  /** A message as the hub hands it out. */
  datatype FedMsg = FedMsg(
    id: string, channel: Option<string>, from: string, fromUser: string, body: string,
    timestamp: string, originalTimestamp: Option<string>, origin: Option<string>)

  /** A row of the node's messages table. */
  datatype Row = Row(
    id: string, channel: string, fromUser: string, body: string, createdAt: string,
    source: Option<string>, origin: Option<string>)

  /** `toNumber` is JavaScript's ToNumber on strings, None for NaN; `sqlTime` reformats a timestamp. */
  datatype Config = Config(channels: set<string>, toNumber: string -> Option<int>, sqlTime: string -> string)

  /** The service's fields, the messages table, and which messages were dispatched to worker listeners. */
  datatype Node = Node(
    store: seq<Row>, lastPoll: Option<string>, dispatched: seq<string>, connected: bool, heartbeatFailures: nat)

  // ---- Ingest ----

  function ChannelOf(m: FedMsg): string {
    OrElse(m.channel, "chan_coordination")
  }

  function OriginOf(m: FedMsg): string {
    OrElse(m.origin, "agent_direct")
  }

  predicate Federated(cfg: Config, m: FedMsg) {
    ChannelOf(m) in cfg.channels
  }

  function FedId(id: string): string {
    "fed_" + id
  }

  function RowOf(cfg: Config, m: FedMsg): Row {
    Row(FedId(m.id), ChannelOf(m), m.fromUser + "@" + m.from, m.body,
        cfg.sqlTime(OrElse(m.originalTimestamp, m.timestamp)), Some(m.from), Some(OriginOf(m)))
  }

  predicate HasId(store: seq<Row>, id: string) {
    exists i :: 0 <= i < |store| && store[i].id == id
  }

  /** INSERT into a table whose id is a primary key: a second row with the id is refused. */
  function Insert(store: seq<Row>, row: Row): seq<Row> {
    if HasId(store, row.id) then store else store + [row]
  }

  function Ingest(cfg: Config, n: Node, m: FedMsg): Node {
    if !Federated(cfg, m) then n
    else n.(store := Insert(n.store, RowOf(cfg, m)),
            dispatched := n.dispatched + if OriginOf(m) != "auto_responder" then [m.id] else [])
  }

  predicate LexLess(a: string, b: string) {
    b != "" && (a == "" || a[0] < b[0] || (a[0] == b[0] && LexLess(a[1..], b[1..])))
  }

  /** The order of strings: at the first difference the smaller character decides, and a prefix comes first. */
  lemma {:induction false} LexLessExactly(a: string, b: string)
    ensures LexLess(a, b) <==> exists k :: LessFrom(a, b, k)
  {
    if LexLess(a, b) {
      if a == "" || a[0] < b[0] {
        assert LessFrom(a, b, 0);
      } else {
        LexLessExactly(a[1..], b[1..]);
        var k :| LessFrom(a[1..], b[1..], k);
        assert a[..k + 1] == [a[0]] + a[1..][..k] && b[..k + 1] == [b[0]] + b[1..][..k];
        assert LessFrom(a, b, k + 1);
      }
    }
    if k :| LessFrom(a, b, k) {
      if k > 0 {
        assert a[0] == a[..k][0] == b[..k][0] == b[0];
        assert a[1..][..k - 1] == a[..k][1..] && b[1..][..k - 1] == b[..k][1..];
        assert LessFrom(a[1..], b[1..], k - 1);
        LexLessExactly(a[1..], b[1..]);
      }
    }
  }

  predicate LessFrom(a: string, b: string, k: int) {
    0 <= k <= |a| && k < |b| && a[..k] == b[..k] && (k == |a| || a[k] < b[k])
  }

  /** JavaScript's `ts > last` for a string and a string or null (section 7.2.13 of ECMA-262, IsLessThan):
      two strings compare as strings, otherwise both become numbers and null becomes 0. */
  predicate JsGreater(cfg: Config, ts: string, last: Option<string>) {
    match last
    case Some(l) => LexLess(l, ts)
    case None => cfg.toNumber(ts).Some? && cfg.toNumber(ts).value > 0
  }

  /** The loop of one poll over the messages it received. */
  function IngestAll(cfg: Config, n: Node, batch: seq<FedMsg>): Node {
    if batch == [] then n
    else
      var m, before := batch[|batch| - 1], IngestAll(cfg, n, batch[..|batch| - 1]);
      Ingest(cfg, before.(lastPoll := if JsGreater(cfg, m.timestamp, before.lastPoll) then Some(m.timestamp)
                                      else before.lastPoll), m)
  }

  // ---- Connection ----

  function Connect(n: Node): Node {
    n.(connected := true)
  }

  /** One heartbeat. `ok` is the outcome of its request: a registration when disconnected. */
  function Beat(n: Node, ok: bool): Node {
    if ok then n.(connected := true, heartbeatFailures := 0)
    else if n.connected && n.heartbeatFailures + 1 >= 3 then n.(connected := false, heartbeatFailures := 0)
    else n.(heartbeatFailures := n.heartbeatFailures + 1)
  }

  // ---- Node, hub and the requests between them ----

  /** `issued` is every message the hub ever took for this node, `hub` the ids it still holds; `replies`
      and `acks` are poll replies and acknowledgements under way. */
  datatype Net = Net(
    issued: map<string, FedMsg>, hub: set<string>, node: Node,
    replies: multiset<seq<FedMsg>>, acks: multiset<seq<string>>)

  datatype Event =
    | HubTakes(m: FedMsg)
    | Serve(ids: seq<string>, registers: bool)  // a timed or pushed poll reaches the hub
    | ReplyArrives(batch: seq<FedMsg>)
    | ReplyLost(lost: seq<FedMsg>)
    | AckArrives(acked: seq<string>)
    | AckLost(unacked: seq<string>)
    | LocalPost(row: Row)
    | Heartbeat(ok: bool)
    | Reconnect

  function Ids(batch: seq<FedMsg>): (ids: seq<string>)
    ensures |ids| == |batch| && forall i :: 0 <= i < |batch| ==> ids[i] == batch[i].id
  {
    seq(|batch|, i requires 0 <= i < |batch| => batch[i].id)
  }

  /** The messages of channel-independent ids `ids`, as the hub sends them. */
  function Reply(issued: map<string, FedMsg>, ids: seq<string>): (batch: seq<FedMsg>)
    requires forall i :: 0 <= i < |ids| ==> ids[i] in issued
    ensures |batch| == |ids| && forall i :: 0 <= i < |ids| ==> batch[i] == issued[ids[i]]
  {
    seq(|ids|, i requires 0 <= i < |ids| => issued[ids[i]])
  }

  predicate Enabled(net: Net, e: Event) {
    match e
    case HubTakes(m) => m.id !in net.issued
    case Serve(ids, registers) =>
      && (net.node.connected || registers) && |ids| <= POLL_LIMIT
      && forall i :: 0 <= i < |ids| ==> ids[i] in net.hub && ids[i] in net.issued
    case ReplyArrives(batch) => batch in net.replies
    case ReplyLost(batch) => batch in net.replies
    case AckArrives(ids) => ids in net.acks
    case AckLost(ids) => ids in net.acks
    case LocalPost(row) => !StartsWith(row.id, "fed_")
    case Heartbeat(_) => true
    case Reconnect => true
  }

  function Step(cfg: Config, net: Net, e: Event): Net {
    if !Enabled(net, e) then net
    else
      match e
      case HubTakes(m) => net.(issued := net.issued[m.id := m], hub := net.hub + {m.id})
      case Serve(ids, _) =>
        net.(node := Connect(net.node), replies := net.replies + multiset{Reply(net.issued, ids)})
      case ReplyArrives(batch) =>
        net.(node := IngestAll(cfg, net.node, batch), replies := net.replies - multiset{batch},
             acks := if batch == [] then net.acks else net.acks + multiset{Ids(batch)})
      case ReplyLost(batch) => net.(replies := net.replies - multiset{batch})
      case AckArrives(ids) =>
        net.(hub := net.hub - (set i | 0 <= i < |ids| :: ids[i]), acks := net.acks - multiset{ids})
      case AckLost(ids) => net.(acks := net.acks - multiset{ids})
      case LocalPost(row) => net.(node := net.node.(store := Insert(net.node.store, row)))
      case Heartbeat(ok) => net.(node := Beat(net.node, ok))
      case Reconnect => net.(node := Connect(net.node))
  }

  function Run(cfg: Config, net: Net, es: seq<Event>): Net {
    if es == [] then net else Step(cfg, Run(cfg, net, es[..|es| - 1]), es[|es| - 1])
  }

  // ---- Delivery ----

  ghost predicate UniqueIds(store: seq<Row>) {
    forall i, j :: 0 <= i < j < |store| ==> store[i].id != store[j].id
  }

  /** Rows with a federated id are exact copies of issued messages of federated channels. */
  ghost predicate Genuine(cfg: Config, issued: map<string, FedMsg>, store: seq<Row>) {
    forall i :: 0 <= i < |store| && StartsWith(store[i].id, "fed_") ==>
      exists id :: id in issued && Federated(cfg, issued[id]) && store[i] == RowOf(cfg, issued[id])
  }

  predicate Known(issued: map<string, FedMsg>, m: FedMsg) {
    m.id in issued && issued[m.id] == m
  }

  /** The message is no longer needed at the hub: it is stored, or its channel is not federated. */
  predicate Received(cfg: Config, issued: map<string, FedMsg>, store: seq<Row>, id: string) {
    id in issued && (Federated(cfg, issued[id]) ==> HasId(store, FedId(id)))
  }

  ghost predicate Safe(cfg: Config, net: Net) {
    && (forall id :: id in net.issued ==> net.issued[id].id == id)
    && UniqueIds(net.node.store)
    && Genuine(cfg, net.issued, net.node.store)
    && (forall b, i :: b in net.replies && 0 <= i < |b| ==> Known(net.issued, b[i]))
    && (forall a, i :: a in net.acks && 0 <= i < |a| ==> Received(cfg, net.issued, net.node.store, a[i]))
    && (forall id :: id in net.issued ==> id in net.hub || Received(cfg, net.issued, net.node.store, id))
  }

  /** A node that has never polled starts safe. */
  lemma StartsSafe(cfg: Config, node: Node)
    requires UniqueIds(node.store) && forall i :: 0 <= i < |node.store| ==> !StartsWith(node.store[i].id, "fed_")
    ensures Safe(cfg, Net(map[], {}, node, multiset{}, multiset{}))
  {
  }

  lemma InsertKeeps(cfg: Config, issued: map<string, FedMsg>, store: seq<Row>, row: Row)
    requires UniqueIds(store) && Genuine(cfg, issued, store)
    requires StartsWith(row.id, "fed_") ==>
      exists id :: id in issued && Federated(cfg, issued[id]) && row == RowOf(cfg, issued[id])
    ensures var t := Insert(store, row);
            && UniqueIds(t) && Genuine(cfg, issued, t) && HasId(t, row.id)
            && forall id :: HasId(store, id) ==> HasId(t, id)
  {
    var t := Insert(store, row);
    if !HasId(store, row.id) {
      assert t[|store|].id == row.id;
      forall id | HasId(store, id) ensures HasId(t, id) {
        var i :| 0 <= i < |store| && store[i].id == id;
        assert t[i].id == id;
      }
    }
  }

  /** Ingesting a reply stores every message of it that belongs to a federated channel, once, and
      forgets nothing. */
  lemma {:induction false} IngestAllStores(cfg: Config, issued: map<string, FedMsg>, n: Node, batch: seq<FedMsg>)
    requires forall id :: id in issued ==> issued[id].id == id
    requires forall i :: 0 <= i < |batch| ==> Known(issued, batch[i])
    requires UniqueIds(n.store) && Genuine(cfg, issued, n.store)
    ensures var t := IngestAll(cfg, n, batch);
            && UniqueIds(t.store) && Genuine(cfg, issued, t.store)
            && (forall id :: HasId(n.store, id) ==> HasId(t.store, id))
            && (forall i :: 0 <= i < |batch| ==> Received(cfg, issued, t.store, batch[i].id))
  {
    if batch != [] {
      var init, m := batch[..|batch| - 1], batch[|batch| - 1];
      IngestAllStores(cfg, issued, n, init);
      var before := IngestAll(cfg, n, init);
      assert Known(issued, m);
      if Federated(cfg, m) {
        InsertKeeps(cfg, issued, before.store, RowOf(cfg, m));
      }
      var t := IngestAll(cfg, n, batch);
      forall i | 0 <= i < |batch| ensures Received(cfg, issued, t.store, batch[i].id) {
        if i < |init| {
          assert Received(cfg, issued, before.store, init[i].id);
        }
      }
    }
  }

  lemma ReplyArrivesSafe(cfg: Config, net: Net, batch: seq<FedMsg>)
    requires Safe(cfg, net) && batch in net.replies
    ensures Safe(cfg, Step(cfg, net, ReplyArrives(batch)))
  {
    hide IngestAll, Ingest, RowOf, Genuine, UniqueIds, HasId, Federated;
    IngestAllStores(cfg, net.issued, net.node, batch);
    var t := Step(cfg, net, ReplyArrives(batch));
    forall id | Received(cfg, net.issued, net.node.store, id) ensures Received(cfg, t.issued, t.node.store, id) {
    }
    forall a, i | a in t.acks && 0 <= i < |a| ensures Received(cfg, t.issued, t.node.store, a[i]) {
      if a in net.acks {
        assert Received(cfg, net.issued, net.node.store, a[i]);
      }
    }
  }

  lemma LocalPostSafe(cfg: Config, net: Net, row: Row)
    requires Safe(cfg, net) && !StartsWith(row.id, "fed_")
    ensures Safe(cfg, Step(cfg, net, LocalPost(row)))
  {
    hide RowOf, Genuine, UniqueIds, HasId, Federated, Insert;
    InsertKeeps(cfg, net.issued, net.node.store, row);
    var t := Step(cfg, net, LocalPost(row));
    forall id | Received(cfg, net.issued, net.node.store, id) ensures Received(cfg, t.issued, t.node.store, id) {
    }
    forall a, i | a in t.acks && 0 <= i < |a| ensures Received(cfg, t.issued, t.node.store, a[i]) {
      assert Received(cfg, net.issued, net.node.store, a[i]);
    }
  }

  lemma AckArrivesSafe(cfg: Config, net: Net, ids: seq<string>)
    requires Safe(cfg, net) && ids in net.acks
    ensures Safe(cfg, Step(cfg, net, AckArrives(ids)))
  {
    hide Received, Genuine, UniqueIds;
  }

  lemma TransportSafe(cfg: Config, net: Net, e: Event)
    requires Safe(cfg, net)
    requires e.Serve? || e.ReplyLost? || e.AckLost? || e.Heartbeat? || e.Reconnect?
    ensures Safe(cfg, Step(cfg, net, e))
  {
    hide Received, Genuine, UniqueIds;
  }

  /** Every event keeps every message safe. */
  lemma StepSafe(cfg: Config, net: Net, e: Event)
    requires Safe(cfg, net)
    ensures Safe(cfg, Step(cfg, net, e))
  {
    if Enabled(net, e) {
      hide Safe, Step;
      match e
      case HubTakes(m) => HubTakesSafe(cfg, net, m);
      case ReplyArrives(batch) => ReplyArrivesSafe(cfg, net, batch);
      case LocalPost(row) => LocalPostSafe(cfg, net, row);
      case AckArrives(ids) => AckArrivesSafe(cfg, net, ids);
      case Serve(_, _) => TransportSafe(cfg, net, e);
      case ReplyLost(_) => TransportSafe(cfg, net, e);
      case AckLost(_) => TransportSafe(cfg, net, e);
      case Heartbeat(_) => TransportSafe(cfg, net, e);
      case Reconnect => TransportSafe(cfg, net, e);
    }
  }

  /** Messages under way are messages the hub took, and the hub's record of them does not change. */
  lemma StepKeepsIssued(cfg: Config, net: Net, e: Event)
    requires Safe(cfg, net)
    ensures forall id :: id in net.issued ==>
              id in Step(cfg, net, e).issued && Step(cfg, net, e).issued[id] == net.issued[id]
    ensures e.ReplyArrives? && Enabled(net, e) ==> forall i :: 0 <= i < |e.batch| ==> Known(net.issued, e.batch[i])
  {
    hide Received, Genuine, UniqueIds, IngestAll, Insert;
  }

  lemma HubTakesSafe(cfg: Config, net: Net, m: FedMsg)
    requires Safe(cfg, net) && m.id !in net.issued
    ensures Safe(cfg, Step(cfg, net, HubTakes(m)))
  {
    var t := Step(cfg, net, HubTakes(m));
    forall i | 0 <= i < |t.node.store| && StartsWith(t.node.store[i].id, "fed_")
      ensures exists id :: id in t.issued && Federated(cfg, t.issued[id]) && t.node.store[i] == RowOf(cfg, t.issued[id])
    {
      var id :| id in net.issued && Federated(cfg, net.issued[id]) && net.node.store[i] == RowOf(cfg, net.issued[id]);
      assert id in t.issued && t.issued[id] == net.issued[id];
    }
  }

  lemma {:induction false} RunSafe(cfg: Config, net: Net, es: seq<Event>)
    requires Safe(cfg, net)
    ensures Safe(cfg, Run(cfg, net, es))
  {
    if es != [] {
      RunSafe(cfg, net, es[..|es| - 1]);
      StepSafe(cfg, Run(cfg, net, es[..|es| - 1]), es[|es| - 1]);
    }
  }

  /** What a copy is: the message's id behind "fed_", its body, its sender signed with the sending node, its channel
      and origin or their defaults, the reformatted original time or else the hub's, and the sending node. */
  lemma CopyIsFaithful(cfg: Config, m: FedMsg)
    ensures var row := RowOf(cfg, m);
            && row.id == "fed_" + m.id && row.body == m.body && row.fromUser == m.fromUser + "@" + m.from
            && row.source == Some(m.from)
            && row.channel
               == (if m.channel.Some? && m.channel.value != "" then m.channel.value else "chan_coordination")
            && row.origin == Some(if m.origin.Some? && m.origin.value != "" then m.origin.value else "agent_direct")
            && row.createdAt == cfg.sqlTime(
                 if m.originalTimestamp.Some? && m.originalTimestamp.value != "" then m.originalTimestamp.value
                 else m.timestamp)
    ensures Federated(cfg, m) <==> RowOf(cfg, m).channel in cfg.channels
  {
  }

  /** Ingesting a message adds its copy at the end of the table exactly if its channel is federated and no row has its
      id, and dispatches it exactly if its channel is federated and it is no automatic answer. */
  lemma IngestExactly(cfg: Config, n: Node, m: FedMsg)
    ensures var t, row := Ingest(cfg, n, m), RowOf(cfg, m);
            && t.store == (if row.channel in cfg.channels && forall i :: 0 <= i < |n.store| ==> n.store[i].id != row.id
                           then n.store + [row] else n.store)
            && t.dispatched == (if row.channel in cfg.channels && row.origin != Some("auto_responder")
                                then n.dispatched + [m.id] else n.dispatched)
            && t.connected == n.connected && t.heartbeatFailures == n.heartbeatFailures && t.lastPoll == n.lastPoll
  {
  }

  /** Over any order of polls, pushed polls, lost replies, lost acknowledgements and reconnects, every
      message the hub took for a federated channel is still at the hub or stored in exactly one row,
      its faithful copy; a message of another channel is never stored. */
  lemma DeliveredOrHeld(cfg: Config, net: Net, es: seq<Event>, id: string)
    requires Safe(cfg, net)
    requires id in Run(cfg, net, es).issued
    ensures var t := Run(cfg, net, es); var m := t.issued[id]; var store := t.node.store;
            && (Federated(cfg, m) ==>
                  || id in t.hub
                  || exists i ::
                       && 0 <= i < |store|
                       && store[i].id == "fed_" + id && store[i].body == m.body
                       && store[i].fromUser == m.fromUser + "@" + m.from && store[i].source == Some(m.from)
                       && store[i].channel == OrElse(m.channel, "chan_coordination")
                       && store[i].origin == Some(OrElse(m.origin, "agent_direct"))
                       && store[i].createdAt == cfg.sqlTime(OrElse(m.originalTimestamp, m.timestamp))
                       && forall j :: 0 <= j < |store| && store[j].id == "fed_" + id ==> j == i)
            && (!Federated(cfg, m) ==> !HasId(store, FedId(id)))
  {
    RunSafe(cfg, net, es);
    var t := Run(cfg, net, es);
    var m, store := t.issued[id], t.node.store;
    if HasId(store, FedId(id)) {
      var i :| 0 <= i < |store| && store[i].id == FedId(id);
      assert StartsWith(store[i].id, "fed_");
      var id' :| id' in t.issued && Federated(cfg, t.issued[id']) && store[i] == RowOf(cfg, t.issued[id']);
      assert FedId(id')[4..] == id' && FedId(id)[4..] == id;
      assert store[i] == RowOf(cfg, m);
      CopyIsFaithful(cfg, m);
    }
  }

  /** A poll whose reply and acknowledgement both arrive takes its messages off the hub and leaves those
      of federated channels stored. */
  lemma CompletedPollDrains(cfg: Config, net: Net, ids: seq<string>)
    requires Safe(cfg, net) && net.node.connected && ids != []
    requires Enabled(net, Serve(ids, false))
    ensures var batch := Reply(net.issued, ids);
            var t := Step(cfg, Step(cfg, Step(cfg, net, Serve(ids, false)), ReplyArrives(batch)), AckArrives(ids));
            forall i :: 0 <= i < |ids| ==>
              ids[i] !in t.hub && (Federated(cfg, net.issued[ids[i]]) ==> HasId(t.node.store, FedId(ids[i])))
  {
    hide IngestAll, Federated, HasId, Genuine, UniqueIds;
    var batch := Reply(net.issued, ids);
    forall i | 0 <= i < |batch| ensures Known(net.issued, batch[i]) && batch[i].id == ids[i] {
      assert net.issued[ids[i]].id == ids[i];
    }
    assert Ids(batch) == ids;
    IngestAllStores(cfg, net.issued, Connect(net.node), batch);
    forall i | 0 <= i < |ids|
      ensures Received(cfg, net.issued, IngestAll(cfg, Connect(net.node), batch).store, ids[i])
    {
      assert Received(cfg, net.issued, IngestAll(cfg, Connect(net.node), batch).store, batch[i].id);
    }
  }

  // ---- What a lost acknowledgement costs ----

  function Times(s: seq<string>, id: string): nat {
    if s == [] then 0 else Times(s[..|s| - 1], id) + if s[|s| - 1] == id then 1 else 0
  }

  /** How many arriving replies carried the message, counting repetitions. */
  function Arrivals(cfg: Config, net: Net, es: seq<Event>, id: string): nat {
    if es == [] then 0
    else
      var e := es[|es| - 1];
      Arrivals(cfg, net, es[..|es| - 1], id) +
      if e.ReplyArrives? && Enabled(Run(cfg, net, es[..|es| - 1]), e) then Times(Ids(e.batch), id) else 0
  }

  lemma {:induction false} IngestAllDispatches(cfg: Config, n: Node, batch: seq<FedMsg>, m: FedMsg)
    requires forall i :: 0 <= i < |batch| && batch[i].id == m.id ==> batch[i] == m
    requires Federated(cfg, m) && OriginOf(m) != "auto_responder"
    ensures Times(IngestAll(cfg, n, batch).dispatched, m.id) == Times(n.dispatched, m.id) + Times(Ids(batch), m.id)
  {
    if batch != [] {
      var init, x := batch[..|batch| - 1], batch[|batch| - 1];
      IngestAllDispatches(cfg, n, init, m);
      assert Ids(batch)[..|batch| - 1] == Ids(init);
      var before := IngestAll(cfg, n, init).dispatched;
      assert (before + [x.id])[..|before|] == before && before + [] == before;
    }
  }

  lemma StepDispatches(cfg: Config, s: Net, e: Event, m: FedMsg)
    requires m.id in s.issued && s.issued[m.id] == m
    requires e.ReplyArrives? && Enabled(s, e) ==> forall i :: 0 <= i < |e.batch| ==> Known(s.issued, e.batch[i])
    requires Federated(cfg, m) && OriginOf(m) != "auto_responder"
    ensures Times(Step(cfg, s, e).node.dispatched, m.id)
         == Times(s.node.dispatched, m.id) + if e.ReplyArrives? && Enabled(s, e) then Times(Ids(e.batch), m.id) else 0
  {
    hide IngestAll, Federated, OriginOf, Insert;
    if e.ReplyArrives? && Enabled(s, e) {
      IngestAllDispatches(cfg, s.node, e.batch, m);
    }
  }

  /** Storing is exactly-once, dispatching is not: worker listeners see a message once for every reply
      that brings it, also when the insert is refused as a duplicate. */
  lemma {:induction false} DispatchedOncePerArrival(cfg: Config, net: Net, es: seq<Event>, m: FedMsg)
    requires Safe(cfg, net) && m.id in net.issued && net.issued[m.id] == m
    requires Federated(cfg, m) && OriginOf(m) != "auto_responder"
    ensures var t := Run(cfg, net, es);
            && m.id in t.issued && t.issued[m.id] == m
            && Times(t.node.dispatched, m.id) == Times(net.node.dispatched, m.id) + Arrivals(cfg, net, es, m.id)
  {
    hide Safe, Step, Enabled, Federated, OriginOf;
    if es != [] {
      var n := |es| - 1;
      DispatchedOncePerArrival(cfg, net, es[..n], m);
      RunSafe(cfg, net, es[..n]);
      var s := Run(cfg, net, es[..n]);
      StepKeepsIssued(cfg, s, es[n]);
      StepDispatches(cfg, s, es[n], m);
    }
  }

  // ---- The poll watermark ----

  /** `_lastPollTimestamp` leaves null exactly when a reply carries a timestamp that reads as a positive
      number. A date string reads as NaN, so it never does, and every poll asks for everything unacknowledged. */
  lemma {:induction false} WatermarkMovesOnlyOnNumbers(cfg: Config, n: Node, batch: seq<FedMsg>)
    requires n.lastPoll == None
    ensures IngestAll(cfg, n, batch).lastPoll == None <==>
            forall i :: 0 <= i < |batch| ==> !JsGreater(cfg, batch[i].timestamp, None)
  {
    if batch != [] {
      WatermarkMovesOnlyOnNumbers(cfg, n, batch[..|batch| - 1]);
    }
  }

  /** Against null a timestamp is greater exactly if it reads as a positive number, so a date string never is. */
  lemma GreaterThanNullExactly(cfg: Config, ts: string)
    ensures JsGreater(cfg, ts, None) <==> cfg.toNumber(ts) != None && cfg.toNumber(ts).value >= 1
    ensures cfg.toNumber(ts) == None ==> !JsGreater(cfg, ts, None)
  {
  }

  lemma {:induction false} WatermarkStaysNull(cfg: Config, net: Net, es: seq<Event>)
    requires Safe(cfg, net) && net.node.lastPoll == None
    requires forall id :: id in Run(cfg, net, es).issued ==>
               cfg.toNumber(Run(cfg, net, es).issued[id].timestamp) == None
    ensures Run(cfg, net, es).node.lastPoll == None
  {
    hide Safe, IngestAll, JsGreater, Insert;
    if es != [] {
      var n := |es| - 1;
      var s, t := Run(cfg, net, es[..n]), Run(cfg, net, es);
      RunSafe(cfg, net, es[..n]);
      StepKeepsIssued(cfg, s, es[n]);
      WatermarkStaysNull(cfg, net, es[..n]);
      if es[n].ReplyArrives? && Enabled(s, es[n]) {
        forall i | 0 <= i < |es[n].batch| ensures !JsGreater(cfg, es[n].batch[i].timestamp, None) {
          assert Known(s.issued, es[n].batch[i]);
          GreaterThanNullExactly(cfg, es[n].batch[i].timestamp);
        }
        WatermarkMovesOnlyOnNumbers(cfg, s.node, es[n].batch);
      }
    }
  }

  // ---- Heartbeats ----

  function Beats(n: Node, oks: seq<bool>): Node {
    if oks == [] then n else Beat(Beats(n, oks[..|oks| - 1]), oks[|oks| - 1])
  }

  /** How many failures end the sequence. */
  function TrailingFailures(oks: seq<bool>): nat {
    if oks == [] || oks[|oks| - 1] then 0 else 1 + TrailingFailures(oks[..|oks| - 1])
  }

  /** As long as only heartbeats register, a connected node stays connected until the third failure in
      a row, and from then on until the next success it is not. */
  lemma {:induction false} ThreeFailuresDisconnect(n: Node, oks: seq<bool>)
    requires n.connected && n.heartbeatFailures == 0
    ensures Beats(n, oks).connected <==> TrailingFailures(oks) < 3
    ensures Beats(n, oks).connected ==> Beats(n, oks).heartbeatFailures == TrailingFailures(oks)
  {
    if oks != [] {
      ThreeFailuresDisconnect(n, oks[..|oks| - 1]);
    }
  }

  /** A reconnect by a poll or a relay leaves the failure count in place: after two failed reconnects
      by the heartbeat, one more failure disconnects the node again. */
  lemma PollReconnectKeepsFailures(n: Node)
    requires n.connected && n.heartbeatFailures == 0
    ensures var back := Connect(Beats(n, [false, false, false, false, false]));
            back.connected && !Beat(back, false).connected
  {
    var oks := [false, false, false, false, false];
    assert oks[..4][..3] == oks[..3] && oks[..3][..2] == oks[..2] && oks[..2][..1] == oks[..1] && oks[..1][..0] == [];
    assert Beats(n, []) == n;
    assert Beats(n, oks[..1]).heartbeatFailures == 1;
    assert Beats(n, oks[..2]).heartbeatFailures == 2;
    assert !Beats(n, oks[..3]).connected;
  }

  /** A poll or a relay makes a new connection. */
  predicate Reattaches(net: Net, e: Event) {
    Enabled(net, e) && (e.Serve? || e.Reconnect?) && !net.node.connected
  }

  /** The failed heartbeats since the last success or the start of the present connection. */
  function FailuresHere(cfg: Config, net: Net, es: seq<Event>): nat {
    if es == [] then net.node.heartbeatFailures
    else
      var init, e := es[..|es| - 1], es[|es| - 1];
      if Reattaches(Run(cfg, net, init), e) || (e.Heartbeat? && e.ok) then 0
      else FailuresHere(cfg, net, init) + if e.Heartbeat? then 1 else 0
  }

  /** At every point at which the node is connected, `_heartbeatFailures` counts the failures on that connection. */
  predicate CountsPresentFailures(cfg: Config, net: Net, es: seq<Event>) {
    && (Run(cfg, net, es).node.connected ==> Run(cfg, net, es).node.heartbeatFailures == FailuresHere(cfg, net, es))
    && (es != [] ==> CountsPresentFailures(cfg, net, es[..|es| - 1]))
  }

  /** No poll or relay reconnects while failed reconnects by the heartbeat are on the count. */
  predicate ReconnectsAfresh(cfg: Config, net: Net, es: seq<Event>) {
    es != [] ==>
      && ReconnectsAfresh(cfg, net, es[..|es| - 1])
      && var s := Run(cfg, net, es[..|es| - 1]); !(Reattaches(s, es[|es| - 1]) && s.node.heartbeatFailures != 0)
  }

  lemma {:induction false} IngestKeepsConnection(cfg: Config, n: Node, batch: seq<FedMsg>)
    ensures var t := IngestAll(cfg, n, batch); t.connected == n.connected && t.heartbeatFailures == n.heartbeatFailures
  {
    if batch != [] {
      IngestKeepsConnection(cfg, n, batch[..|batch| - 1]);
    }
  }

  /** What one event does to the connection. */
  lemma StepConnection(cfg: Config, net: Net, e: Event)
    ensures var n, t := net.node, Step(cfg, net, e).node;
            && t.connected == (if e.Heartbeat? then Beat(n, e.ok).connected else n.connected || Reattaches(net, e))
            && t.heartbeatFailures == if e.Heartbeat? then Beat(n, e.ok).heartbeatFailures else n.heartbeatFailures
  {
    hide IngestAll, Insert, JsGreater;
    if e.ReplyArrives? {
      IngestKeepsConnection(cfg, net.node, e.batch);
    }
  }

  /** "Three consecutive failures on a connection", over runs of every kind of event: the stored count is that of
      the present connection, all along, if and only if no poll or relay reconnects with failures on the count. */
  lemma {:induction false} CountsPresentFailuresExactly(cfg: Config, net: Net, es: seq<Event>)
    ensures CountsPresentFailures(cfg, net, es) <==> ReconnectsAfresh(cfg, net, es)
  {
    hide Step, Enabled;
    if es != [] {
      CountsPresentFailuresExactly(cfg, net, es[..|es| - 1]);
      StepConnection(cfg, Run(cfg, net, es[..|es| - 1]), es[|es| - 1]);
    }
  }

  /** As long as that holds, a connection ends exactly with the third failure in a row on it. */
  lemma ConnectionEndsOnThirdFailure(cfg: Config, net: Net, es: seq<Event>, e: Event)
    requires ReconnectsAfresh(cfg, net, es) && Run(cfg, net, es).node.connected
    ensures !Run(cfg, net, es + [e]).node.connected <==> e == Heartbeat(false) && FailuresHere(cfg, net, es + [e]) >= 3
  {
    hide Step, Enabled;
    assert (es + [e])[..|es|] == es;
    CountsPresentFailuresExactly(cfg, net, es);
    StepConnection(cfg, Run(cfg, net, es), e);
  }
}
