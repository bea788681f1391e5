/** What one posted message sets off in a network of nodes: the relay guards of POST /api/messages,
    of the auto-responder's posts and of ingestion, put together. Worker listeners are left out. */
module Cascade {
  import opened Prelude
  import Federation
  import Scheduling

  /** The nodes are 0 .. size-1. `name` gives a node's instance id, `connected` and `channels` its
      federation state, `team` its auto-responder configuration. `posts` bounds the posts of one turn or
      slash command. */
  datatype Network = Network(
    size: nat, name: nat -> string, connected: nat -> bool, channels: nat -> set<string>,
    team: nat -> Scheduling.Config, posts: nat)

  /** Something that happens once: a post through the API, a post of the auto-responder, a message at
      the hub on its way to the other nodes, a copy ingested by a node. */
  datatype Activity =
    | ApiPost(node: nat, fromUser: string, channel: string, body: string, humanSession: bool)
    | ResponderPost(node: nat, fromUser: string, channel: string, body: string)
    | AtHub(node: nat, fromUser: string, channel: string, body: string, origin: string)
    | Ingested(node: nat, source: nat, fromUser: string, channel: string, body: string, origin: string)

  predicate Mentions(user: string) {
    exists i :: 0 <= i < |user| && user[i] == '@'
  }

  /** POST /api/messages relays after its insert. */
  predicate ApiRelays(net: Network, a: Activity)
    requires a.ApiPost?
  {
    net.connected(a.node) && !Mentions(a.fromUser) && a.channel in net.channels(a.node)
  }

  /** postToChannel relays after its insert. */
  predicate ResponderRelays(net: Network, a: Activity)
    requires a.ResponderPost?
  {
    net.connected(a.node) && a.body != "...thinking" && !Mentions(a.fromUser) && a.channel in net.channels(a.node)
  }

  /** The message as onNewMessage receives it: from the API route, or from the callback of ingestion. */
  function AsIncoming(a: Activity): Scheduling.Incoming
    requires a.ApiPost? || a.Ingested?
  {
    match a
    case ApiPost(_, u, c, b, _) => Scheduling.Incoming(c, u, b, None, false)
    case Ingested(_, _, u, c, b, o) => Scheduling.Incoming(c, u, b, Some(o), true)
  }

  /** The posts of the turn or slash command that answers `a`, as far as the federation is concerned. */
  predicate AnswerTo(net: Network, a: Activity, answer: seq<Activity>)
    requires a.ApiPost? || a.Ingested?
  {
    if Scheduling.Admits(net.team(a.node), AsIncoming(a)) || Scheduling.IsCommand(net.team(a.node), AsIncoming(a)) then
      && |answer| <= net.posts
      && forall i :: 0 <= i < |answer| ==> answer[i].ResponderPost? && answer[i].node == a.node
    else answer == []
  }

  function Copies(net: Network, a: Activity, upTo: nat): seq<Activity>
    requires a.AtHub?
  {
    if upTo == 0 then []
    else
      Copies(net, a, upTo - 1) +
      if upTo - 1 == a.node then []
      else [Ingested(upTo - 1, a.node, a.fromUser + "@" + net.name(a.node), a.channel, a.body, a.origin)]
  }

  /** `next` is what `a` directly sets off. */
  ghost predicate Causes(net: Network, a: Activity, next: seq<Activity>) {
    match a
    case ApiPost(n, u, c, b, human) =>
      exists answer :: AnswerTo(net, a, answer) &&
        next == (if ApiRelays(net, a) then [AtHub(n, u, c, b, if human then "human" else "agent_direct")] else [])
                + answer
    case ResponderPost(n, u, c, b) =>
      next == if ResponderRelays(net, a) then [AtHub(n, u, c, b, "auto_responder")] else []
    case AtHub(_, _, _, _, _) => next == Copies(net, a, net.size)
    case Ingested(_, _, _, _, _, _) => AnswerTo(net, a, next)
  }

  // ---- One hop ----

  /** An ingested copy sets off nothing: no relay, and no answer, since federated messages do not pass
      the auto-responder's filters. */
  lemma IngestedCopiesAreFinal(net: Network, a: Activity, next: seq<Activity>)
    requires a.Ingested? && Causes(net, a, next)
    ensures next == []
  {
    assert !Scheduling.Heard(AsIncoming(a));
  }

  lemma {:induction false} CopiesAreIngested(net: Network, a: Activity, upTo: nat)
    requires a.AtHub?
    ensures |Copies(net, a, upTo)| == if a.node < upTo then upTo - 1 else upTo
    ensures forall i :: 0 <= i < |Copies(net, a, upTo)| ==>
      var x := Copies(net, a, upTo)[i]; x.Ingested? && x.node != a.node && x.source == a.node && Mentions(x.fromUser)
  {
    if upTo != 0 {
      CopiesAreIngested(net, a, upTo - 1);
      var u := a.fromUser + "@" + net.name(a.node);
      assert u[|a.fromUser|] == '@';
    }
  }

  /** Nor is a copy relayed when it is posted again under the name it arrived with, through the API or by the
      auto-responder: that name carries an "@". */
  lemma CopiesAreNotRelayed(net: Network, a: Activity, i: nat, node: nat, channel: string, body: string, human: bool)
    requires a.AtHub? && i < |Copies(net, a, net.size)|
    ensures var copy := Copies(net, a, net.size)[i];
            && copy.Ingested?
            && !ApiRelays(net, ApiPost(node, copy.fromUser, channel, body, human))
            && !ResponderRelays(net, ResponderPost(node, copy.fromUser, channel, body))
  {
    CopiesAreIngested(net, a, net.size);
  }

  /** Every copy travels one hop, carries its sender's node in its name, and ends there; the answers of
      the auto-responder travel the same way and are answered by nobody. */
  lemma AnswersAreNotAnswered(
    net: Network, a: Activity, atHub: seq<Activity>, copies: seq<Activity>, i: nat, after: seq<Activity>)
    requires a.ResponderPost? && Causes(net, a, atHub) && atHub != []
    requires Causes(net, atHub[0], copies) && i < |copies|
    requires Causes(net, copies[i], after)
    ensures |atHub| == 1 && atHub[0].origin == "auto_responder"
    ensures copies[i].Ingested? && copies[i].source == a.node && copies[i].node != a.node
    ensures Mentions(copies[i].fromUser)
    ensures after == []
  {
    CopiesAreIngested(net, atHub[0], net.size);
    IngestedCopiesAreFinal(net, copies[i], after);
  }

  /** Copies are signed as the nodes that ingest them sign them, and keep channel, body and origin. */
  lemma {:induction false} CopiesAreSigned(net: Network, a: Activity, upTo: nat, i: nat)
    requires a.AtHub? && i < |Copies(net, a, upTo)|
    ensures var copy := Copies(net, a, upTo)[i];
            && copy.Ingested? && copy.fromUser == a.fromUser + "@" + net.name(a.node)
            && copy.channel == a.channel && copy.body == a.body && copy.origin == a.origin
            && forall cfg: Federation.Config, m: Federation.FedMsg ::
                 m.fromUser == a.fromUser && m.from == net.name(a.node) ==>
                   Federation.RowOf(cfg, m).fromUser == copy.fromUser
  {
    if i < |Copies(net, a, upTo - 1)| {
      CopiesAreSigned(net, a, upTo - 1, i);
    }
  }

  /** Every other node gets a copy. */
  lemma {:induction false} EveryOtherNodeGetsACopy(net: Network, a: Activity, upTo: nat, node: nat)
    requires a.AtHub? && node < upTo && node != a.node
    ensures exists i :: 0 <= i < |Copies(net, a, upTo)| && Copies(net, a, upTo)[i].node == node
  {
    if node < upTo - 1 {
      EveryOtherNodeGetsACopy(net, a, upTo - 1, node);
      var i :| 0 <= i < |Copies(net, a, upTo - 1)| && Copies(net, a, upTo - 1)[i].node == node;
      assert Copies(net, a, upTo)[i].node == node;
    } else {
      assert Copies(net, a, upTo)[|Copies(net, a, upTo)| - 1].node == node;
    }
  }

  /** What reaches the hub, and how: a post through the API exactly if its node is connected, its channel federated
      there and its author no federated one, marked by the kind of session; a post of the auto-responder likewise,
      but never the thinking indicator, and marked as automatic. It keeps author, channel and body. */
  lemma RelayedExactly(net: Network, a: Activity, next: seq<Activity>, x: Activity)
    requires Causes(net, a, next) && x.AtHub?
    ensures x in next <==>
            || (&& a.ApiPost? && net.connected(a.node) && a.channel in net.channels(a.node) && '@' !in a.fromUser
                && x == AtHub(a.node, a.fromUser, a.channel, a.body,
                              if a.humanSession then "human" else "agent_direct"))
            || (&& a.ResponderPost? && net.connected(a.node) && a.channel in net.channels(a.node) && '@' !in a.fromUser
                && a.body != "...thinking" && x == AtHub(a.node, a.fromUser, a.channel, a.body, "auto_responder"))
  {
    match a
    case ApiPost(n, u, c, b, human) =>
      var relayed := if ApiRelays(net, a) then [AtHub(n, u, c, b, if human then "human" else "agent_direct")] else [];
      var answer :| AnswerTo(net, a, answer) && next == relayed + answer;
      assert x !in answer;
    case ResponderPost(_, _, _, _) =>
    case AtHub(_, _, _, _, _) => CopiesAreIngested(net, a, net.size);
    case Ingested(_, _, _, _, _, _) =>
  }

  /** A post through the API can be answered on its node exactly if the auto-responder's filters let it through as a
      local message, or it is a slash command. */
  lemma AnsweredExactly(net: Network, a: Activity, x: Activity)
    requires a.ApiPost? && x.ResponderPost? && x.node == a.node && net.posts > 0
    ensures (exists next :: Causes(net, a, next) && x in next) <==>
            var m := Scheduling.Incoming(a.channel, a.fromUser, a.body, None, false);
            Scheduling.Admits(net.team(a.node), m) || Scheduling.IsCommand(net.team(a.node), m)
  {
    hide ApiRelays, Scheduling.Admits, Scheduling.IsCommand;
    var relayed := if ApiRelays(net, a)
      then [AtHub(a.node, a.fromUser, a.channel, a.body, if a.humanSession then "human" else "agent_direct")] else [];
    if AnswerTo(net, a, [x]) {
      assert Causes(net, a, relayed + [x]) && x in relayed + [x];
    }
    if next :| Causes(net, a, next) && x in next {
      var answer :| AnswerTo(net, a, answer) && next == relayed + answer;
      assert x in answer;
    }
  }

  // ---- The whole cascade ----

  /** An upper bound on everything an activity sets off, itself included. */
  function Weight(net: Network, a: Activity): nat {
    match a
    case ApiPost(_, _, _, _, _) => 2 + net.size + net.posts * (2 + net.size)
    case ResponderPost(_, _, _, _) => 2 + net.size
    case AtHub(_, _, _, _, _) => 1 + net.size
    case Ingested(_, _, _, _, _, _) => 1
  }

  function Total(net: Network, work: seq<Activity>): nat {
    if work == [] then 0 else Total(net, work[..|work| - 1]) + Weight(net, work[|work| - 1])
  }

  lemma {:induction false} TotalConcat(net: Network, a: seq<Activity>, b: seq<Activity>)
    ensures Total(net, a + b) == Total(net, a) + Total(net, b)
  {
    if b == [] {
      assert a + b == a;
    } else {
      TotalConcat(net, a, b[..|b| - 1]);
      assert (a + b)[..|a + b| - 1] == a + b[..|b| - 1];
    }
  }

  lemma {:induction false} TotalOfEqual(net: Network, work: seq<Activity>, w: nat)
    requires forall i :: 0 <= i < |work| ==> Weight(net, work[i]) == w
    ensures Total(net, work) == |work| * w
  {
    if work != [] {
      TotalOfEqual(net, work[..|work| - 1], w);
      assert |work| * w == (|work| - 1) * w + w;
    }
  }

  lemma TimesGrows(x: nat, y: nat, k: nat)
    requires x <= y
    ensures x * k <= y * k
  {
  }

  lemma ApiPostLightens(net: Network, a: Activity, relayed: seq<Activity>, answer: seq<Activity>)
    requires a.ApiPost? && |answer| <= net.posts && forall i :: 0 <= i < |answer| ==> answer[i].ResponderPost?
    requires relayed == [] || (|relayed| == 1 && relayed[0].AtHub?)
    ensures Total(net, relayed + answer) < Weight(net, a)
  {
    TotalConcat(net, relayed, answer);
    AtMostOneWeighs(net, relayed);
    TotalOfEqual(net, answer, 2 + net.size);
    TimesGrows(|answer|, net.posts, 2 + net.size);
  }

  lemma AtMostOneWeighs(net: Network, work: seq<Activity>)
    requires |work| <= 1
    ensures Total(net, work) == if work == [] then 0 else Weight(net, work[0])
  {
    assert Total(net, []) == 0;
    assert work != [] ==> work[..0] == [];
  }

  /** What an activity sets off weighs less than the activity. */
  lemma CausesLighten(net: Network, a: Activity, next: seq<Activity>)
    requires Causes(net, a, next)
    ensures Total(net, next) < Weight(net, a)
  {
    hide ApiRelays, Scheduling.Admits, Scheduling.IsCommand, AsIncoming, Total;
    match a
    case ApiPost(n, u, c, b, human) =>
      var relayed := if ApiRelays(net, a) then [AtHub(n, u, c, b, if human then "human" else "agent_direct")] else [];
      var answer :| AnswerTo(net, a, answer) && next == relayed + answer;
      ApiPostLightens(net, a, relayed, answer);
    case ResponderPost(_, _, _, _) =>
      AtMostOneWeighs(net, next);
    case AtHub(_, _, _, _, _) =>
      CopiesAreIngested(net, a, net.size);
      TotalOfEqual(net, next, 1);
    case Ingested(_, _, _, _, _, _) =>
      IngestedCopiesAreFinal(net, a, next);
      AtMostOneWeighs(net, []);
  }

  /** One activity of the work list happens, in any order, and adds what it sets off. */
  ghost predicate Happens(net: Network, before: seq<Activity>, after: seq<Activity>) {
    exists i, next :: 0 <= i < |before| && Causes(net, before[i], next) && after == before[..i] + before[i + 1..] + next
  }

  lemma HappensLighten(net: Network, before: seq<Activity>, after: seq<Activity>)
    requires Happens(net, before, after)
    ensures Total(net, after) < Total(net, before)
  {
    var i, next :| 0 <= i < |before| && Causes(net, before[i], next) && after == before[..i] + before[i + 1..] + next;
    CausesLighten(net, before[i], next);
    assert before == before[..i] + [before[i]] + before[i + 1..];
    TotalConcat(net, before[..i], [before[i]]);
    TotalConcat(net, before[..i] + [before[i]], before[i + 1..]);
    TotalConcat(net, before[..i], before[i + 1..]);
    TotalConcat(net, before[..i] + before[i + 1..], next);
    assert [before[i]][..0] == [];
  }

  /** A course of events: each work list follows from the one before. */
  ghost predicate Course(net: Network, works: seq<seq<Activity>>) {
    works != [] && forall i :: 0 <= i < |works| - 1 ==> Happens(net, works[i], works[i + 1])
  }

  lemma {:induction false} CoursesAreShort(net: Network, works: seq<seq<Activity>>)
    requires Course(net, works)
    ensures |works| - 1 + Total(net, works[|works| - 1]) <= Total(net, works[0])
  {
    if |works| > 1 {
      var init := works[..|works| - 1];
      forall i | 0 <= i < |init| - 1 ensures Happens(net, init[i], init[i + 1]) {
        assert Happens(net, works[i], works[i + 1]);
      }
      CoursesAreShort(net, init);
      assert Happens(net, works[|works| - 2], works[|works| - 1]);
      HappensLighten(net, works[|works| - 2], works[|works| - 1]);
    }
  }

  /** One post through the API sets off a finite cascade, whatever the order: with at most k posts a
      turn or slash command and n nodes, no more than (k + 1)(n + 2) activities, which is linear in n. */
  lemma OnePostCascadeIsLinear(net: Network, post: Activity, works: seq<seq<Activity>>)
    requires post.ApiPost? && Course(net, works) && works[0] == [post]
    ensures |works| - 1 <= (net.posts + 1) * (net.size + 2)
  {
    CoursesAreShort(net, works);
    assert [post][..0] == [];
    assert (net.posts + 1) * (net.size + 2) == net.posts * (2 + net.size) + net.size + 2;
  }
}
