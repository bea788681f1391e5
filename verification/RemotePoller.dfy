/** The remote runner's watermark polling (server/services/federated-runtime.js) over the message list
    of the server (server/routes/messages.js). */
module RemotePoller {
  import opened Prelude

  const PAGE_LIMIT := 20

  /** A row of the messages table. Stamps stand for the created_at strings, in their order. */
  datatype Row = Row(id: string, channel: string, stamp: int)

  /** The messages table, the watermark of each polled channel, and what was handed to the listeners. */
  datatype State = State(table: set<Row>, marks: map<string, int>, dispatched: seq<Row>)

  ghost predicate UniqueIds(table: set<Row>) {
    forall r, q :: r in table && q in table && r.id == q.id ==> r == q
  }

  /** Rows with a later stamp than the watermark. */
  function Unseen(table: set<Row>, channel: string, since: int): set<Row> {
    set r | r in table && r.channel == channel && r.stamp > since
  }

  ghost predicate NoRepeats(rows: seq<Row>) {
    forall i, j :: 0 <= i < j < |rows| ==> rows[i] != rows[j]
  }

  /** What `WHERE channel_id = ? AND created_at > ? ORDER BY created_at DESC LIMIT ?` may return: rows
      with equal stamps come in any order. */
  ghost predicate QueryResult(table: set<Row>, channel: string, since: int, limit: nat, rows: seq<Row>) {
    var unseen := Unseen(table, channel, since);
    && NoRepeats(rows)
    && (forall i :: 0 <= i < |rows| ==> rows[i] in unseen)
    && |rows| == (if |unseen| < limit then |unseen| else limit)
    && (forall i, j :: 0 <= i < j < |rows| ==> rows[i].stamp >= rows[j].stamp)
    && (forall r, i :: r in unseen && r !in rows && 0 <= i < |rows| ==> r.stamp <= rows[i].stamp)
  }

  /** The GET handler hands out the newest rows, oldest first. */
  ghost predicate Page(table: set<Row>, channel: string, since: int, limit: nat, page: seq<Row>) {
    QueryResult(table, channel, since, limit, Reversed(page))
  }

  function Reversed(rows: seq<Row>): (r: seq<Row>)
    ensures |r| == |rows| && forall i :: 0 <= i < |rows| ==> r[i] == rows[|rows| - 1 - i]
  {
    seq(|rows|, i requires 0 <= i < |rows| => rows[|rows| - 1 - i])
  }

  lemma ReversedMembers(page: seq<Row>)
    ensures forall r :: r in page <==> r in Reversed(page)
    ensures NoRepeats(Reversed(page)) ==> NoRepeats(page)
  {
    var rows := Reversed(page);
    forall i | 0 <= i < |page| ensures page[i] == rows[|page| - 1 - i] {
    }
    forall r | r in rows ensures r in page {
      var k :| 0 <= k < |rows| && rows[k] == r;
      assert page[|page| - 1 - k] == r;
    }
    if NoRepeats(rows) {
      forall i, j | 0 <= i < j < |page| ensures page[i] != page[j] {
        assert rows[|page| - 1 - j] != rows[|page| - 1 - i];
      }
    }
  }

  /** The page in terms of its rows: no repeats, unseen, as many as fit, newest chosen, oldest first. */
  lemma PageMeaning(table: set<Row>, channel: string, since: int, limit: nat, page: seq<Row>)
    requires Page(table, channel, since, limit, page)
    ensures NoRepeats(page)
    ensures forall r :: r in page ==> r in Unseen(table, channel, since)
    ensures |page| == if |Unseen(table, channel, since)| < limit then |Unseen(table, channel, since)| else limit
    ensures forall i, j :: 0 <= i < j < |page| ==> page[i].stamp <= page[j].stamp
    ensures forall r, i :: r in Unseen(table, channel, since) && r !in page && 0 <= i < |page| ==>
              r.stamp <= page[i].stamp
  {
    hide Unseen, NoRepeats;
    var rows, unseen, n := Reversed(page), Unseen(table, channel, since), |page|;
    ReversedMembers(page);
    forall i, j | 0 <= i < j < n ensures page[i].stamp <= page[j].stamp {
      assert page[i] == rows[n - 1 - i] && page[j] == rows[n - 1 - j];
    }
    forall r, i | r in unseen && r !in page && 0 <= i < n ensures r.stamp <= page[i].stamp {
      assert page[i] == rows[n - 1 - i];
    }
  }

  /** The watermark after the loop over a page. */
  function Advanced(mark: int, page: seq<Row>): int {
    if page == [] then mark else Max(Advanced(mark, page[..|page| - 1]), page[|page| - 1].stamp)
  }

  lemma {:induction false} AdvancedBound(mark: int, page: seq<Row>)
    ensures mark <= Advanced(mark, page)
    ensures forall i :: 0 <= i < |page| ==> page[i].stamp <= Advanced(mark, page)
    ensures Advanced(mark, page) == mark || exists i :: 0 <= i < |page| && page[i].stamp == Advanced(mark, page)
  {
    if page != [] {
      AdvancedBound(mark, page[..|page| - 1]);
    }
  }

  datatype Event =
    | Arrive(row: Row)
    | Poll(channel: string, page: seq<Row>)

  /** New rows have new ids; a poll returns a page of what is there. A failed request is a poll that does
      not happen. */
  ghost predicate Enabled(s: State, e: Event) {
    match e
    case Arrive(row) => forall r :: r in s.table ==> r.id != row.id
    case Poll(c, page) => c in s.marks && Page(s.table, c, s.marks[c], PAGE_LIMIT, page)
  }

  ghost function Step(s: State, e: Event): State {
    if !Enabled(s, e) then s
    else
      match e
      case Arrive(row) => s.(table := s.table + {row})
      case Poll(c, page) => s.(marks := s.marks[c := Advanced(s.marks[c], page)], dispatched := s.dispatched + page)
  }

  ghost function Run(s: State, es: seq<Event>): State {
    if es == [] then s else Step(Run(s, es[..|es| - 1]), es[|es| - 1])
  }

  // ---- No message twice ----

  ghost predicate Orderly(s: State) {
    && UniqueIds(s.table)
    && NoRepeats(s.dispatched)
    && (forall r :: r in s.dispatched ==> r in s.table && r.channel in s.marks && r.stamp <= s.marks[r.channel])
  }

  lemma PollOrderly(s: State, c: string, page: seq<Row>)
    requires Orderly(s) && Enabled(s, Poll(c, page))
    ensures Orderly(Step(s, Poll(c, page)))
  {
    PageMeaning(s.table, c, s.marks[c], PAGE_LIMIT, page);
    AdvancedBound(s.marks[c], page);
    var t := Step(s, Poll(c, page));
    forall i, j | 0 <= i < j < |t.dispatched| ensures t.dispatched[i] != t.dispatched[j] {
      if i < |s.dispatched| <= j {
        assert t.dispatched[i] in s.dispatched && t.dispatched[j] == page[j - |s.dispatched|];
      }
    }
    forall r | r in t.dispatched ensures r in t.table && r.channel in t.marks && r.stamp <= t.marks[r.channel] {
      assert r in s.dispatched || r in page;
    }
  }

  /** Across polls that do not overlap, whatever arrives with whatever stamp, no message is dispatched twice. */
  lemma {:induction false} NothingDispatchedTwice(s: State, es: seq<Event>)
    requires Orderly(s)
    ensures Orderly(Run(s, es))
    ensures var d := Run(s, es).dispatched; forall i, j :: 0 <= i < j < |d| ==> d[i].id != d[j].id
  {
    hide Page;
    if es != [] {
      NothingDispatchedTwice(s, es[..|es| - 1]);
      var v, e := Run(s, es[..|es| - 1]), es[|es| - 1];
      if e.Poll? && Enabled(v, e) {
        PollOrderly(v, e.channel, e.page);
      }
    }
    var d := Run(s, es).dispatched;
    forall i, j | 0 <= i < j < |d| ensures d[i].id != d[j].id {
      assert d[i] != d[j] && d[i] in d && d[j] in d;
    }
  }

  // ---- Every message once, while pages suffice ----

  /** The event brings no row between its channel's starting point and its watermark, and leaves none behind on
      the page. */
  ghost predicate Calm(s: State, e: Event, start: map<string, int>) {
    match e
    case Arrive(row) =>
      row.channel in start && row.channel in s.marks && row.stamp > start[row.channel] ==>
        row.stamp > s.marks[row.channel]
    case Poll(c, _) => c in s.marks ==> |Unseen(s.table, c, s.marks[c])| <= PAGE_LIMIT
  }

  /** Every row newer than the channel's starting point is dispatched or still ahead of the watermark. */
  ghost predicate Complete(s: State, start: map<string, int>) {
    && start.Keys == s.marks.Keys
    && forall r :: r in s.table && r.channel in start && r.stamp > start[r.channel] ==>
         r in s.dispatched || r.stamp > s.marks[r.channel]
  }

  lemma {:induction false} DistinctRows(rows: seq<Row>, all: set<Row>)
    requires NoRepeats(rows) && (forall r :: r in rows ==> r in all) && |rows| >= |all|
    ensures forall r :: r in all ==> r in rows
  {
    if rows != [] {
      var init, last := rows[..|rows| - 1], rows[|rows| - 1];
      assert rows == init + [last] && last !in init;
      DistinctRows(init, all - {last});
    } else {
      assert all == {};
    }
  }

  lemma PollComplete(s: State, c: string, page: seq<Row>, start: map<string, int>)
    requires Complete(s, start) && Enabled(s, Poll(c, page)) && Calm(s, Poll(c, page), start)
    ensures Complete(Step(s, Poll(c, page)), start)
    ensures forall r :: r in s.table && r.channel == c && r.stamp > start[c] ==> r in Step(s, Poll(c, page)).dispatched
  {
    PageMeaning(s.table, c, s.marks[c], PAGE_LIMIT, page);
    DistinctRows(page, Unseen(s.table, c, s.marks[c]));
    var t := Step(s, Poll(c, page));
    forall r | r in s.table && r.channel == c && r.stamp > start[c] ensures r in t.dispatched {
      if r !in s.dispatched {
        assert r in Unseen(s.table, c, s.marks[c]);
      }
    }
  }

  // ---- What is lost ----

  /** The row is behind the watermark without having been dispatched. */
  predicate Lost(s: State, r: Row) {
    r in s.table && r.channel in s.marks && r.stamp <= s.marks[r.channel] && r !in s.dispatched
  }

  lemma PollNeverRecovers(s: State, c: string, page: seq<Row>, r: Row)
    requires Lost(s, r) && Enabled(s, Poll(c, page))
    ensures Lost(Step(s, Poll(c, page)), r)
  {
    PageMeaning(s.table, c, s.marks[c], PAGE_LIMIT, page);
    AdvancedBound(s.marks[c], page);
    assert r !in page;
  }

  /** A lost message is never dispatched. */
  lemma {:induction false} LostForever(s: State, es: seq<Event>, r: Row)
    requires Lost(s, r)
    ensures Lost(Run(s, es), r)
  {
    hide Page;
    if es != [] {
      LostForever(s, es[..|es| - 1], r);
      var v, e := Run(s, es[..|es| - 1]), es[|es| - 1];
      if e.Poll? && Enabled(v, e) {
        PollNeverRecovers(v, e.channel, e.page, r);
      }
    }
  }

  lemma {:induction false} RowSetSize(rows: seq<Row>)
    requires NoRepeats(rows)
    ensures |set r | r in rows| == |rows|
  {
    if rows != [] {
      var init, last := rows[..|rows| - 1], rows[|rows| - 1];
      RowSetSize(init);
      assert rows == init + [last];
      assert (set r | r in rows) == (set r | r in init) + {last};
    }
  }

  /** A poll settles every unseen row of its channel for good: the newest twenty are dispatched, each of the
      others is lost. So a poll loses nothing exactly when at most twenty rows are unseen. */
  lemma PollDispatchesNewestLosesRest(s: State, c: string, page: seq<Row>)
    requires Orderly(s) && Enabled(s, Poll(c, page))
    ensures var t := Step(s, Poll(c, page)); var unseen := Unseen(s.table, c, s.marks[c]);
            && (forall r :: r in unseen ==> (r in t.dispatched <==> !Lost(t, r)))
            && |page| == (if |unseen| < 20 then |unseen| else 20)
            && |set r | r in unseen && Lost(t, r)| == (if |unseen| > 20 then |unseen| - 20 else 0)
  {
    PageMeaning(s.table, c, s.marks[c], PAGE_LIMIT, page);
    AdvancedBound(s.marks[c], page);
    var t, unseen := Step(s, Poll(c, page)), Unseen(s.table, c, s.marks[c]);
    var paged := set r | r in page;
    RowSetSize(page);
    forall r | r in unseen ensures r in t.dispatched <==> r in page {
      assert r !in s.dispatched;
    }
    forall r | r in unseen && r !in page ensures Lost(t, r) {
      assert |page| > 0;
      assert r.stamp <= page[0].stamp;
    }
    SetMinus(unseen, paged, set r | r in unseen && Lost(t, r));
  }

  lemma SetMinus(all: set<Row>, part: set<Row>, rest: set<Row>)
    requires part <= all
    requires forall r :: r in rest <==> r in all && r !in part
    ensures |rest| == |all| - |part|
  {
    assert rest == all - part;
  }

  /** The watermarks do not lie before the starting points. */
  ghost predicate Started(s: State, start: map<string, int>) {
    start.Keys == s.marks.Keys && forall c :: c in start ==> start[c] <= s.marks[c]
  }

  /** A row newer than the start is lost. */
  ghost predicate LosesSome(s: State, start: map<string, int>) {
    exists r :: r in s.table && r.channel in start && r.stamp > start[r.channel] && Lost(s, r)
  }

  lemma CompleteExactly(s: State, start: map<string, int>)
    requires Started(s, start)
    ensures Complete(s, start) <==> !LosesSome(s, start)
  {
  }

  lemma StepStarted(s: State, e: Event, start: map<string, int>)
    requires Started(s, start)
    ensures Started(Step(s, e), start)
  {
    if e.Poll? && Enabled(s, e) {
      AdvancedBound(s.marks[e.channel], e.page);
    }
  }

  /** An arrival at or below the watermark is lost at once, and so is what does not fit on the page. */
  lemma UncalmLoses(s: State, e: Event, start: map<string, int>)
    requires Orderly(s) && Started(s, start) && Enabled(s, e) && !Calm(s, e, start)
    ensures LosesSome(Step(s, e), start)
  {
    hide Page;
    var t := Step(s, e);
    match e
    case Arrive(row) =>
      assert row !in s.dispatched;
      assert Lost(t, row);
    case Poll(c, page) =>
      PollDispatchesNewestLosesRest(s, c, page);
      var lost := set r | r in Unseen(s.table, c, s.marks[c]) && Lost(t, r);
      assert lost != {};
      var r :| r in lost;
      assert r in t.table && r.stamp > start[c];
  }

  lemma CalmKeeps(s: State, e: Event, start: map<string, int>)
    requires Complete(s, start) && Enabled(s, e) && Calm(s, e, start)
    ensures Complete(Step(s, e), start)
  {
    hide Page;
    if e.Poll? {
      PollComplete(s, e.channel, e.page, start);
    }
  }

  /** All events that happen are calm. */
  ghost predicate AllCalm(s: State, es: seq<Event>, start: map<string, int>) {
    es != [] ==>
      && AllCalm(s, es[..|es| - 1], start)
      && var v := Run(s, es[..|es| - 1]); (Enabled(v, es[|es| - 1]) ==> Calm(v, es[|es| - 1], start))
  }

  lemma LossStays(s: State, e: Event, start: map<string, int>)
    requires LosesSome(s, start)
    ensures LosesSome(Step(s, e), start)
  {
    hide Step;
    var r :| r in s.table && r.channel in start && r.stamp > start[r.channel] && Lost(s, r);
    assert [e][..0] == [] && Run(s, []) == s && Run(s, [e]) == Step(s, e);
    LostForever(s, [e], r);
  }

  /** Every message newer than the start is dispatched, once, or still ahead of its watermark, after any run of
      arrivals and polls, if and only if no page overflowed and nothing arrived between start and watermark. */
  lemma {:induction false} EverythingDispatchedExactly(s: State, es: seq<Event>, start: map<string, int>)
    requires Orderly(s) && Started(s, start) && Complete(s, start)
    ensures Complete(Run(s, es), start) <==> AllCalm(s, es, start)
    ensures Started(Run(s, es), start)
  {
    hide Step, Enabled, Calm, Complete, Started, LosesSome, Orderly;
    if es != [] {
      var init, e := es[..|es| - 1], es[|es| - 1];
      EverythingDispatchedExactly(s, init, start);
      NothingDispatchedTwice(s, init);
      var v := Run(s, init);
      StepStarted(v, e, start);
      CompleteExactly(v, start);
      CompleteExactly(Step(v, e), start);
      if !Complete(v, start) {
        LossStays(v, e, start);
      } else if !Enabled(v, e) {
        DisabledStays(v, e);
      } else if Calm(v, e, start) {
        CalmKeeps(v, e, start);
      } else {
        UncalmLoses(v, e, start);
      }
    }
  }

  lemma DisabledStays(s: State, e: Event)
    requires !Enabled(s, e)
    ensures Step(s, e) == s
  {
  }

  // ---- The runtime object ----

  class FederatedRuntime {
    var lastSeen: map<string, int>
    var dispatched: seq<Row>

    /** Polling starts at the present: older messages are not processed. */
    constructor (channels: set<string>, now: int)
      ensures lastSeen == (map c | c in channels :: now) && dispatched == []
    {
      lastSeen := map c | c in channels :: now;
      dispatched := [];
    }

    /** One channel's part of a poll cycle; `reply` is None when the request fails. */
    method PollChannel(channel: string, reply: Option<seq<Row>>)
      requires channel in lastSeen
      modifies this
      ensures reply.None? ==> unchanged(this)
      ensures reply.Some? ==> dispatched == old(dispatched) + reply.value
      ensures reply.Some? ==> lastSeen == old(lastSeen)[channel := Advanced(old(lastSeen)[channel], reply.value)]
    {
      if reply.None? {
        return;
      }
      var messages := reply.value;
      assert messages[..0] == [];
      for i := 0 to |messages|
        invariant dispatched == old(dispatched) + messages[..i]
        invariant lastSeen == old(lastSeen)[channel := Advanced(old(lastSeen)[channel], messages[..i])]
      {
        assert messages[..i + 1][..i] == messages[..i];
        if messages[i].stamp > lastSeen[channel] {
          lastSeen := lastSeen[channel := messages[i].stamp];
        }
        dispatched := dispatched + [messages[i]];
      }
      assert messages[..|messages|] == messages;
    }
  }
}

/** The same polling when cycles overlap: the timer starts a cycle every five seconds, whether or not the one before
    it has its reply, or has been returned to by the listeners that it awaits. */
module OverlappingPolls {
  import opened Prelude
  import opened RemotePoller

  /** A request under way: the channel, and the watermark that was read when it was sent. */
  datatype Request = Request(channel: string, since: int)

  /** `inFlight` are rows of pages that arrived and whose turn in the loop has not come yet. */
  datatype Cycles = Cycles(
    table: set<Row>, marks: map<string, int>, requests: multiset<Request>, dispatched: multiset<Row>,
    inFlight: multiset<Row>)

  datatype Part =
    | NewRow(row: Row)
    | Send(channel: string)
    | Reply(request: Request, page: seq<Row>)  // the query is evaluated now, under the watermark of then
    | Fail(failed: Request)
    | Deliver(next: Row)                       // raises the watermark and dispatches, row by row

  ghost predicate CanHappen(s: Cycles, e: Part) {
    match e
    case NewRow(row) => forall r :: r in s.table ==> r.id != row.id
    case Send(c) => c in s.marks
    case Reply(q, page) => q in s.requests && Page(s.table, q.channel, q.since, PAGE_LIMIT, page)
    case Fail(q) => q in s.requests
    case Deliver(r) => r in s.inFlight && r.channel in s.marks
  }

  ghost function After(s: Cycles, e: Part): Cycles {
    if !CanHappen(s, e) then s
    else
      match e
      case NewRow(row) => s.(table := s.table + {row})
      case Send(c) => s.(requests := s.requests + multiset{Request(c, s.marks[c])})
      case Reply(q, page) => s.(requests := s.requests - multiset{q}, inFlight := s.inFlight + multiset(page))
      case Fail(q) => s.(requests := s.requests - multiset{q})
      case Deliver(r) =>
        s.(marks := s.marks[r.channel := Max(s.marks[r.channel], r.stamp)], inFlight := s.inFlight - multiset{r},
           dispatched := s.dispatched + multiset{r})
  }

  ghost function Course(s: Cycles, es: seq<Part>): Cycles {
    if es == [] then s else After(Course(s, es[..|es| - 1]), es[|es| - 1])
  }

  /** No row was or will be dispatched twice. */
  ghost predicate AtMostOnce(s: Cycles) {
    forall r: Row :: (s.dispatched + s.inFlight)[r] <= 1
  }

  /** The reply brings a row that is in hand or already dispatched. */
  ghost predicate BringsAgain(s: Cycles, e: Part) {
    e.Reply? && CanHappen(s, e) && exists r :: r in e.page && (r in s.inFlight || r in s.dispatched)
  }

  lemma {:induction false} PageBag(page: seq<Row>, r: Row)
    requires NoRepeats(page)
    ensures multiset(page)[r] == if r in page then 1 else 0
  {
    if page != [] {
      var init, last := page[..|page| - 1], page[|page| - 1];
      assert page == init + [last];
      PageBag(init, r);
    }
  }

  lemma StepOnce(s: Cycles, e: Part)
    ensures AtMostOnce(After(s, e)) <==> AtMostOnce(s) && !BringsAgain(s, e)
  {
    hide Page;
    if e.Reply? && CanHappen(s, e) {
      ReplyOnce(s, e.request, e.page);
    } else {
      var t := After(s, e);
      assert forall r: Row :: (t.dispatched + t.inFlight)[r] == (s.dispatched + s.inFlight)[r];
    }
  }

  lemma ReplyOnce(s: Cycles, q: Request, page: seq<Row>)
    requires CanHappen(s, Reply(q, page))
    ensures AtMostOnce(After(s, Reply(q, page))) <==> AtMostOnce(s) && !BringsAgain(s, Reply(q, page))
  {
    PageMeaning(s.table, q.channel, q.since, PAGE_LIMIT, page);
    hide Page;
    var t := After(s, Reply(q, page));
    forall r: Row
      ensures (t.dispatched + t.inFlight)[r] == (s.dispatched + s.inFlight)[r] + if r in page then 1 else 0
    {
      PageBag(page, r);
    }
    if AtMostOnce(s) && !BringsAgain(s, Reply(q, page)) {
      assert forall r: Row :: r in page ==> (s.dispatched + s.inFlight)[r] == 0;
    }
    if r :| r in page && (r in s.inFlight || r in s.dispatched) {
      assert (t.dispatched + t.inFlight)[r] >= 2;
    }
    if r: Row :| (s.dispatched + s.inFlight)[r] > 1 {
      assert (t.dispatched + t.inFlight)[r] > 1;
    }
  }

  ghost predicate NeverBringsAgain(s: Cycles, es: seq<Part>) {
    es != [] ==>
      NeverBringsAgain(s, es[..|es| - 1]) && !BringsAgain(Course(s, es[..|es| - 1]), es[|es| - 1])
  }

  /** Over any interleaving of requests, replies, failures and deliveries, no message is dispatched twice, nor ever
      will be, if and only if no reply brings a row that is in hand or already dispatched. */
  lemma {:induction false} NothingTwiceExactly(s: Cycles, es: seq<Part>)
    requires AtMostOnce(s)
    ensures AtMostOnce(Course(s, es)) <==> NeverBringsAgain(s, es)
  {
    hide AtMostOnce, BringsAgain, After;
    if es != [] {
      NothingTwiceExactly(s, es[..|es| - 1]);
      StepOnce(Course(s, es[..|es| - 1]), es[|es| - 1]);
    }
  }

  /** What was dispatched lies at or below its channel's watermark. */
  ghost predicate Behind(s: Cycles) {
    forall r: Row :: r in s.dispatched ==> r.channel in s.marks && r.stamp <= s.marks[r.channel]
  }

  lemma StepBehind(s: Cycles, e: Part)
    requires Behind(s)
    ensures Behind(After(s, e))
  {
    hide Page;
    if e.Deliver? && CanHappen(s, e) {
      var t := After(s, e);
      forall r: Row | r in t.dispatched ensures r.channel in t.marks && r.stamp <= t.marks[r.channel] {
        if r != e.next {
          assert r in s.dispatched;
        }
      }
    }
  }

  lemma {:induction false} CourseBehind(s: Cycles, es: seq<Part>)
    requires Behind(s)
    ensures Behind(Course(s, es))
  {
    hide Behind, After;
    if es != [] {
      CourseBehind(s, es[..|es| - 1]);
      StepBehind(Course(s, es[..|es| - 1]), es[|es| - 1]);
    }
  }

  /** Only a reply to a request that was overtaken brings a dispatched row again: the watermark has moved since it was
      sent, up to the row or past it. */
  lemma DispatchedRowsComeAgainLate(s: Cycles, es: seq<Part>, q: Request, page: seq<Row>, r: Row)
    requires Behind(s) && CanHappen(Course(s, es), Reply(q, page))
    requires r in page && r in Course(s, es).dispatched
    ensures q.channel in Course(s, es).marks && q.since < r.stamp <= Course(s, es).marks[q.channel]
  {
    hide Course, Page;
    CourseBehind(s, es);
    PageMeaning(Course(s, es).table, q.channel, q.since, PAGE_LIMIT, page);
  }

  /** Both ways to a second dispatch occur. A second request is sent under the same watermark while the first is under
      way, and both are answered with the one new row: if the first page is delivered before the second reply, that
      reply brings a dispatched row, otherwise one in hand. */
  lemma SlowReplyRepeats(c: string, m: Row, delivered: bool)
    requires m.channel == c && m.stamp > 0
    ensures var s := Cycles({}, map[c := 0], multiset{}, multiset{}, multiset{});
            var es := [Send(c), NewRow(m), Send(c), Reply(Request(c, 0), [m])];
            var t := Course(s, if delivered then es + [Deliver(m)] else es);
            BringsAgain(t, Reply(Request(c, 0), [m])) && (if delivered then m in t.dispatched else m in t.inFlight)
  {
    hide Course, After, BringsAgain;
    var q := Request(c, 0);
    var s := Cycles({}, map[c := 0], multiset{}, multiset{}, multiset{});
    var es := [Send(c), NewRow(m), Send(c), Reply(q, [m])];
    CourseSnoc(s, [], Send(c));
    CourseSnoc(s, [Send(c)], NewRow(m));
    CourseSnoc(s, [Send(c), NewRow(m)], Send(c));
    CourseSnoc(s, [Send(c), NewRow(m), Send(c)], Reply(q, [m]));
    CourseSnoc(s, es, Deliver(m));
    assert [] + [Send(c)] == [Send(c)] && [Send(c)] + [NewRow(m)] == [Send(c), NewRow(m)];
    assert [Send(c), NewRow(m)] + [Send(c)] == [Send(c), NewRow(m), Send(c)];
    assert [Send(c), NewRow(m), Send(c)] + [Reply(q, [m])] == es;
    SlowStates(c, m);
  }

  lemma CourseSnoc(s: Cycles, es: seq<Part>, e: Part)
    ensures Course(s, []) == s && Course(s, es + [e]) == After(Course(s, es), e)
  {
    assert (es + [e])[..|es|] == es;
  }

  lemma SlowStates(c: string, m: Row)
    requires m.channel == c && m.stamp > 0
    ensures var q := Request(c, 0);
            var s := Cycles({}, map[c := 0], multiset{}, multiset{}, multiset{});
            var got := After(After(After(After(s, Send(c)), NewRow(m)), Send(c)), Reply(q, [m]));
            && m in got.inFlight && BringsAgain(got, Reply(q, [m]))
            && m in After(got, Deliver(m)).dispatched && BringsAgain(After(got, Deliver(m)), Reply(q, [m]))
  {
    hide Page;
    SentTwice(c, m);
    AnsweredOnce(c, m);
    OneRowPage(m);
    assert m in [m];
  }

  lemma SentTwice(c: string, m: Row)
    ensures var q := Request(c, 0);
            var s := Cycles({}, map[c := 0], multiset{}, multiset{}, multiset{});
            After(After(After(s, Send(c)), NewRow(m)), Send(c))
            == Cycles({m}, map[c := 0], multiset{q, q}, multiset{}, multiset{})
  {
    hide Page;
  }

  lemma AnsweredOnce(c: string, m: Row)
    requires m.channel == c && m.stamp > 0
    ensures var q := Request(c, 0);
            var sent := Cycles({m}, map[c := 0], multiset{q, q}, multiset{}, multiset{});
            var got := Cycles({m}, map[c := 0], multiset{q}, multiset{}, multiset{m});
            && After(sent, Reply(q, [m])) == got
            && After(got, Deliver(m)) == Cycles({m}, map[c := m.stamp], multiset{q}, multiset{m}, multiset{})
  {
    hide Page;
    OneRowPage(m);
    assert multiset([m]) == multiset{m};
  }

  lemma OneRowPage(m: Row)
    requires m.stamp > 0
    ensures Page({m}, m.channel, 0, PAGE_LIMIT, [m])
  {
    assert Unseen({m}, m.channel, 0) == {m};
    assert Reversed([m]) == [m];
  }
}
