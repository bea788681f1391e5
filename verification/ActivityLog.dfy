/** SHA-256 (section 6.2 of FIPS 180-4) seen from outside: any function from strings
    to 64 lower-case hexadecimal digits. */
module Sha256 {

  predicate IsHexDigit(c: char) {
    '0' <= c <= '9' || 'a' <= c <= 'f'
  }

  predicate IsDigest(s: string) {
    |s| == 64 && forall i :: 0 <= i < |s| ==> IsHexDigit(s[i])
  }

  type Digest = s: string | IsDigest(s) witness seq(64, _ => '0')

  type HashFn = string -> Digest

  predicate Collides(h: HashFn, pair: (string, string)) {
    pair.0 != pair.1 && h(pair.0) == h(pair.1)
  }
}

/** The hash-chained activity log (server/services/activity-log.js). */
module ActivityLogs {
  import opened Prelude
  import opened Sha256

  /** One row of table activity_log. */
  datatype Row = Row(
    id: nat, actor: string, action: string, target: Option<string>, details: Option<string>,
    chainHash: Option<string>, origin: Option<string>, entryType: Option<string>)

  /** The arguments of `append`. */
  datatype Entry = Entry(
    actor: string, action: string, target: Option<string>, details: Option<string>,
    entryType: string, origin: Option<string>)

  /** What `verify` reports. */
  datatype Report = Report(
    valid: bool, entries: nat, spacers: nat, anchors: nat,
    brokenAt: Option<nat>, headHash: Option<string>)

  /** A row takes part in the chain when its chain_hash is neither null nor empty. */
  predicate Hashed(r: Row) {
    r.chainHash.Some? && r.chainHash.value != ""
  }

  function LegacyData(r: Row): string {
    r.actor + "|" + r.action + "|" + OrElse(r.target, "") + "|" + OrElse(r.details, "")
  }

  function CurrentData(inst: string, r: Row): string {
    LegacyData(r) + "|" + OrElse(r.origin, inst) + "|" + OrElse(r.entryType, "event")
  }

  /** The string that is hashed: the previous hash, or "genesis", directly followed by the data. */
  function Preimage(prev: Option<string>, data: string): string {
    OrElse(prev, "genesis") + data
  }

  function ChainHash(h: HashFn, prev: Option<string>, data: string): Digest {
    h(Preimage(prev, data))
  }

  predicate MatchesCurrent(h: HashFn, inst: string, prev: Option<string>, r: Row) {
    r.chainHash == Some(ChainHash(h, prev, CurrentData(inst, r)))
  }

  predicate MatchesLegacy(h: HashFn, prev: Option<string>, r: Row) {
    r.chainHash == Some(ChainHash(h, prev, LegacyData(r)))
  }

  predicate Linked(h: HashFn, inst: string, prev: Option<string>, r: Row) {
    Hashed(r) ==> MatchesCurrent(h, inst, prev, r) || MatchesLegacy(h, prev, r)
  }

  /** The hash of the last hashed row. */
  function Head(rows: seq<Row>): Option<string> {
    if rows == [] then None
    else if Hashed(rows[|rows| - 1]) then rows[|rows| - 1].chainHash
    else Head(rows[..|rows| - 1])
  }

  /** Every hashed row links to the hashed row before it. */
  ghost predicate Intact(h: HashFn, inst: string, rows: seq<Row>) {
    forall i :: 0 <= i < |rows| ==> Linked(h, inst, Head(rows[..i]), rows[i])
  }

  /** Intact whatever name the verifying instance has: no row relies on the default origin. */
  ghost predicate IntactEverywhere(h: HashFn, rows: seq<Row>) {
    forall inst: string :: Intact(h, inst, rows)
  }

  /** How many hashed rows carry entry type `t`. */
  function CountType(rows: seq<Row>, t: string): nat {
    if rows == [] then 0
    else
      var last := rows[|rows| - 1];
      CountType(rows[..|rows| - 1], t) +
      if Hashed(last) && OrElse(last.entryType, "event") == t then 1 else 0
  }

  /** The data string that the accepted hash of row `r` covers. */
  function Covered(h: HashFn, inst: string, prev: Option<string>, r: Row): string {
    if MatchesCurrent(h, inst, prev, r) then CurrentData(inst, r) else LegacyData(r)
  }

  /** The covered data strings of all hashed rows, oldest first. */
  function Covers(h: HashFn, inst: string, rows: seq<Row>): seq<string> {
    if rows == [] then []
    else
      var init, last := rows[..|rows| - 1], rows[|rows| - 1];
      Covers(h, inst, init) + if Hashed(last) then [Covered(h, inst, Head(init), last)] else []
  }

  // ---- Verified logs bind their contents ----

  lemma IntactPrefix(h: HashFn, inst: string, rows: seq<Row>, n: nat)
    requires Intact(h, inst, rows) && n <= |rows|
    ensures Intact(h, inst, rows[..n])
  {
    forall i | 0 <= i < n ensures Linked(h, inst, Head(rows[..n][..i]), rows[..n][i]) {
      assert rows[..n][..i] == rows[..i];
    }
  }

  /** In an intact log the head is null or a digest. */
  lemma {:induction false} HeadIsDigest(h: HashFn, inst: string, rows: seq<Row>)
    requires Intact(h, inst, rows)
    ensures Head(rows).Some? ==> IsDigest(Head(rows).value)
  {
    if rows != [] {
      var n := |rows| - 1;
      if Hashed(rows[n]) {
        assert Linked(h, inst, Head(rows[..n]), rows[n]);
      } else {
        IntactPrefix(h, inst, rows, n);
        HeadIsDigest(h, inst, rows[..n]);
      }
    }
  }

  /** The separator-free preimage decodes in one way only, since no digest starts like "genesis". */
  lemma PreimageDecodes(p: Option<string>, x: string, q: Option<string>, y: string)
    requires p.Some? ==> IsDigest(p.value)
    requires q.Some? ==> IsDigest(q.value)
    requires Preimage(p, x) == Preimage(q, y)
    ensures p == q && x == y
  {
    var s, t := OrElse(p, "genesis"), OrElse(q, "genesis");
    assert (s + x)[0] == s[0] && (t + y)[0] == t[0];
    assert p.Some? ==> IsHexDigit(s[0]);
    assert q.Some? ==> IsHexDigit(t[0]);
    assert |s| == |t|;
    assert (s + x)[..|s|] == s && (t + y)[..|t|] == t;
    assert (s + x)[|s|..] == x && (t + y)[|t|..] == y;
  }

  /** The string that the accepted hash of the last row is a hash of. */
  function LastPreimage(h: HashFn, inst: string, rows: seq<Row>): string
    requires rows != []
  {
    var init, last := rows[..|rows| - 1], rows[|rows| - 1];
    Preimage(Head(init), Covered(h, inst, Head(init), last))
  }

  /** The strings that the accepted hashes of the log are hashes of, oldest first. */
  function Preimages(h: HashFn, inst: string, rows: seq<Row>): seq<string> {
    if rows == [] then []
    else
      Preimages(h, inst, rows[..|rows| - 1]) + if Hashed(rows[|rows| - 1]) then [LastPreimage(h, inst, rows)] else []
  }

  lemma LastLink(h: HashFn, inst: string, rows: seq<Row>)
    requires Intact(h, inst, rows) && rows != [] && Hashed(rows[|rows| - 1])
    ensures var init := rows[..|rows| - 1];
            && Intact(h, inst, init)
            && (Head(init).Some? ==> IsDigest(Head(init).value))
            && Head(rows) == Some(h(LastPreimage(h, inst, rows)))
  {
    var n := |rows| - 1;
    IntactPrefix(h, inst, rows, n);
    HeadIsDigest(h, inst, rows[..n]);
    assert Linked(h, inst, Head(rows[..n]), rows[n]);
  }

  lemma LastPreimageDecodes(h: HashFn, instA: string, a: seq<Row>, instB: string, b: seq<Row>)
    requires Intact(h, instA, a) && a != [] && Hashed(a[|a| - 1])
    requires Intact(h, instB, b) && b != [] && Hashed(b[|b| - 1])
    requires LastPreimage(h, instA, a) == LastPreimage(h, instB, b)
    ensures var m, n := |a| - 1, |b| - 1;
            && Head(a[..m]) == Head(b[..n])
            && Covered(h, instA, Head(a[..m]), a[m]) == Covered(h, instB, Head(b[..n]), b[n])
  {
    hide Intact, Covered;
    var m, n := |a| - 1, |b| - 1;
    LastLink(h, instA, a);
    LastLink(h, instB, b);
    PreimageDecodes(Head(a[..m]), Covered(h, instA, Head(a[..m]), a[m]),
                    Head(b[..n]), Covered(h, instB, Head(b[..n]), b[n]));
  }

  /** Walks two intact logs with the same head backwards: either both cover the same data
      strings, or a string hashed in one collides with a different string hashed in the other. */
  function ExtractCollision(h: HashFn, instA: string, a: seq<Row>, instB: string, b: seq<Row>): Option<(string, string)>
    decreases |a| + |b|
  {
    if a != [] && !Hashed(a[|a| - 1]) then ExtractCollision(h, instA, a[..|a| - 1], instB, b)
    else if b != [] && !Hashed(b[|b| - 1]) then ExtractCollision(h, instA, a, instB, b[..|b| - 1])
    else if a == [] || b == [] then None
    else
      var x, y := LastPreimage(h, instA, a), LastPreimage(h, instB, b);
      if x != y then Some((x, y)) else ExtractCollision(h, instA, a[..|a| - 1], instB, b[..|b| - 1])
  }

  lemma {:induction false} ExtractionWorks(h: HashFn, instA: string, a: seq<Row>, instB: string, b: seq<Row>)
    requires Intact(h, instA, a) && Intact(h, instB, b)
    requires Head(a) == Head(b)
    ensures var r := ExtractCollision(h, instA, a, instB, b);
            && (r.Some? ==> r.value.0 in Preimages(h, instA, a) && r.value.1 in Preimages(h, instB, b))
            && (r.Some? ==> Collides(h, r.value))
            && (r.None? ==> Covers(h, instA, a) == Covers(h, instB, b))
    decreases |a| + |b|
  {
    hide Intact, LastPreimage, Covered, Preimage;
    if a != [] && !Hashed(a[|a| - 1]) {
      IntactPrefix(h, instA, a, |a| - 1);
      ExtractionWorks(h, instA, a[..|a| - 1], instB, b);
    } else if b != [] && !Hashed(b[|b| - 1]) {
      IntactPrefix(h, instB, b, |b| - 1);
      ExtractionWorks(h, instA, a, instB, b[..|b| - 1]);
    } else if a != [] && b != [] {
      LastLink(h, instA, a);
      LastLink(h, instB, b);
      if LastPreimage(h, instA, a) == LastPreimage(h, instB, b) {
        LastPreimageDecodes(h, instA, a, instB, b);
        ExtractionWorks(h, instA, a[..|a| - 1], instB, b[..|b| - 1]);
      }
    }
  }

  /** Two different strings, one hashed in each log, with the same digest. */
  ghost predicate Colliding(h: HashFn, instA: string, a: seq<Row>, instB: string, b: seq<Row>) {
    exists x, y :: x in Preimages(h, instA, a) && y in Preimages(h, instB, b) && Collides(h, (x, y))
  }

  /** Any edit of a verified log that leaves its head in place keeps the count, the order and
      the text of the covered strings, or the two logs themselves exhibit a collision. */
  lemma EqualHeadsBindContents(h: HashFn, instA: string, a: seq<Row>, instB: string, b: seq<Row>)
    requires Intact(h, instA, a) && Intact(h, instB, b)
    requires Head(a) == Head(b)
    ensures Covers(h, instA, a) == Covers(h, instB, b) || Colliding(h, instA, a, instB, b)
  {
    ExtractionWorks(h, instA, a, instB, b);
    var r := ExtractCollision(h, instA, a, instB, b);
    if r.Some? {
      assert Collides(h, (r.value.0, r.value.1));
    }
  }

  /** The joined string is all that is bound: two different rows can have the same one. Module FieldBinding says
      exactly when that happens. */
  lemma FieldsAreNotBound(h: HashFn, inst: string)
    ensures exists r: Row, s: Row :: r.actor != s.actor && Hashed(r) && Covers(h, inst, [r]) == Covers(h, inst, [s])
                                     && Intact(h, inst, [r]) && Intact(h, inst, [s])
  {
    var r0 := Row(1, "a|b", "c", None, None, None, Some("o"), Some("event"));
    var s0 := r0.(actor := "a", action := "b|c");
    assert LegacyData(r0) == LegacyData(s0);
    var d := ChainHash(h, None, CurrentData(inst, r0));
    var r, s := r0.(chainHash := Some(d)), s0.(chainHash := Some(d));
    assert r.actor != s.actor && Hashed(r);
    assert LegacyData(r) == LegacyData(r0) && LegacyData(s) == LegacyData(s0);
    assert CurrentData(inst, r) == CurrentData(inst, r0) && CurrentData(inst, s) == CurrentData(inst, s0);
    assert MatchesCurrent(h, inst, None, r) && MatchesCurrent(h, inst, None, s);
    assert [r][..0] == [] && [s][..0] == [];
    assert Covers(h, inst, []) == [];
    assert Covers(h, inst, [r]) == [CurrentData(inst, r0)] == Covers(h, inst, [s]);
  }

  // ---- Logs written by the service pass verification ----

  /** The table together with the service's two in-memory fields. */
  datatype Log = Log(rows: seq<Row>, lastChainHash: Option<string>, chainLength: nat)

  /** `_loadLastChainHash`: reads the last row only, hashed or not. */
  function Open(rows: seq<Row>): Log {
    if rows == [] then Log(rows, None, 0)
    else
      var last := rows[|rows| - 1];
      Log(rows, if Hashed(last) then last.chainHash else None, last.id)
  }

  function NextId(rows: seq<Row>): nat {
    if rows == [] then 1 else rows[|rows| - 1].id + 1
  }

  function NewRow(h: HashFn, inst: string, log: Log, e: Entry): Row {
    var origin := OrElse(e.origin, inst);
    var bare := Row(NextId(log.rows), e.actor, e.action, e.target, e.details, None, Some(origin), Some(e.entryType));
    bare.(chainHash := Some(ChainHash(h, log.lastChainHash, LegacyData(bare) + "|" + origin + "|" + e.entryType)))
  }

  function AppendTo(h: HashFn, inst: string, log: Log, e: Entry): Log {
    var row := NewRow(h, inst, log, e);
    Log(log.rows + [row], row.chainHash, log.chainLength + 1)
  }

  function SpacerEntry(inst: string, category: string, signature: string, json: string, origin: Option<string>): Entry {
    Entry("defense_system", "spacer_" + category, Some(signature), Some(json), "spacer", Some(OrElse(origin, inst)))
  }

  function AnchorEntry(log: Log, json: string): Entry {
    Entry("chain_service", "chain_anchor", log.lastChainHash, Some(json), "anchor", None)
  }

  /** What happens to a log over its life. Restarting may change the instance's name. */
  datatype Op =
    | Append(entry: Entry)
    | AppendSpacer(category: string, signature: string, spacerJson: string, spacerOrigin: Option<string>)
    | AppendAnchor(anchorJson: string)
    | Restart(name: string)

  /** Callers name an entry type, server.js names the instance, and plain entries are never anchors. */
  predicate Proper(op: Op) {
    match op
    case Append(e) => e.entryType != "" && e.entryType != "anchor"
    case AppendSpacer(_, _, _, _) => true
    case AppendAnchor(_) => true
    case Restart(name) => name != ""
  }

  datatype Life = Life(inst: string, log: Log)

  /** The entry an operation appends. */
  function EntryOf(s: Life, op: Op): Entry
    requires !op.Restart?
  {
    match op
    case Append(e) => e
    case AppendSpacer(c, g, j, o) => SpacerEntry(s.inst, c, g, j, o)
    case AppendAnchor(j) => AnchorEntry(s.log, j)
  }

  function Step(h: HashFn, s: Life, op: Op): Life {
    if op.Restart? then Life(op.name, Open(s.log.rows))
    else s.(log := AppendTo(h, s.inst, s.log, EntryOf(s, op)))
  }

  function Run(h: HashFn, s: Life, ops: seq<Op>): Life {
    if ops == [] then s else Step(h, Run(h, s, ops[..|ops| - 1]), ops[|ops| - 1])
  }

  /** How many operations write a row of entry type `t`. */
  function Writes(ops: seq<Op>, t: string): nat {
    if ops == [] then 0
    else
      Writes(ops[..|ops| - 1], t) + if WritesType(ops[|ops| - 1], t) then 1 else 0
  }

  predicate WritesType(op: Op, t: string) {
    match op
    case Append(e) => e.entryType == t
    case AppendSpacer(_, _, _, _) => t == "spacer"
    case AppendAnchor(_) => t == "anchor"
    case Restart(_) => false
  }

  /** Reopening finds the true head: the table has no unhashed row after a hashed one at its end. */
  predicate Resumable(rows: seq<Row>) {
    Open(rows).lastChainHash == Head(rows)
  }

  /** From row `from` on, an anchor's target is the hash of the hashed row before it. */
  ghost predicate AnchorsNameHead(rows: seq<Row>, from: nat) {
    forall i :: from <= i < |rows| && rows[i].entryType == Some("anchor") ==> rows[i].target == Head(rows[..i])
  }

  ghost predicate Healthy(h: HashFn, s: Life) {
    && s.inst != ""
    && IntactEverywhere(h, s.log.rows)
    && Resumable(s.log.rows)
    && s.log.lastChainHash == Head(s.log.rows)
    && s.log.chainLength + 1 == NextId(s.log.rows)
  }

  /** A table from before the upgrade: unhashed rows, then a chain in the four-field format. */
  ghost predicate LegacyTable(h: HashFn, rows: seq<Row>, firstHashed: nat) {
    && firstHashed <= |rows|
    && (forall i :: 0 <= i < firstHashed ==> !Hashed(rows[i]))
    && (forall i :: firstHashed <= i < |rows| ==> MatchesLegacy(h, Head(rows[..i]), rows[i]))
  }

  lemma {:induction false} UnhashedHasNoHead(rows: seq<Row>)
    requires forall i :: 0 <= i < |rows| ==> !Hashed(rows[i])
    ensures Head(rows) == None
  {
    if rows != [] {
      UnhashedHasNoHead(rows[..|rows| - 1]);
    }
  }

  lemma LegacyTablesQualify(h: HashFn, rows: seq<Row>, firstHashed: nat)
    requires LegacyTable(h, rows, firstHashed)
    ensures IntactEverywhere(h, rows) && Resumable(rows)
  {
    forall inst: string, i | 0 <= i < |rows| ensures Linked(h, inst, Head(rows[..i]), rows[i]) {
      assert i < firstHashed || MatchesLegacy(h, Head(rows[..i]), rows[i]);
    }
    if rows != [] && !Hashed(rows[|rows| - 1]) {
      UnhashedHasNoHead(rows);
    }
  }

  lemma HeadOfExtension(rows: seq<Row>, r: Row)
    requires Hashed(r)
    ensures Head(rows + [r]) == r.chainHash
    ensures Resumable(rows + [r])
  {
    assert (rows + [r])[|rows|] == r;
  }

  lemma IntactExtension(h: HashFn, inst: string, rows: seq<Row>, r: Row)
    ensures Intact(h, inst, rows + [r]) <==> Intact(h, inst, rows) && Linked(h, inst, Head(rows), r)
  {
    var ext := rows + [r];
    assert ext[..|rows|] == rows;
    if Intact(h, inst, ext) {
      IntactPrefix(h, inst, ext, |rows|);
      assert Linked(h, inst, Head(ext[..|rows|]), ext[|rows|]);
    }
    if Intact(h, inst, rows) && Linked(h, inst, Head(rows), r) {
      forall i | 0 <= i < |ext| ensures Linked(h, inst, Head(ext[..i]), ext[i]) {
        if i < |rows| {
          assert ext[..i] == rows[..i];
        }
      }
    }
  }

  lemma AppendKeepsHealthy(h: HashFn, s: Life, e: Entry)
    requires Healthy(h, s) && e.entryType != ""
    ensures Healthy(h, s.(log := AppendTo(h, s.inst, s.log, e)))
  {
    var r := NewRow(h, s.inst, s.log, e);
    HeadOfExtension(s.log.rows, r);
    forall inst: string ensures Intact(h, inst, s.log.rows + [r]) {
      assert MatchesCurrent(h, inst, Head(s.log.rows), r);
      IntactExtension(h, inst, s.log.rows, r);
    }
  }

  lemma StepKeepsHealthy(h: HashFn, s: Life, op: Op)
    requires Healthy(h, s) && Proper(op)
    ensures Healthy(h, Step(h, s, op))
  {
    if !op.Restart? {
      AppendKeepsHealthy(h, s, EntryOf(s, op));
    }
  }

  lemma StepCounts(h: HashFn, s: Life, op: Op, t: string)
    requires Proper(op)
    ensures CountType(Step(h, s, op).log.rows, t) == CountType(s.log.rows, t) + if WritesType(op, t) then 1 else 0
  {
    if !op.Restart? {
      var r := NewRow(h, s.inst, s.log, EntryOf(s, op));
      assert (s.log.rows + [r])[..|s.log.rows|] == s.log.rows;
      assert OrElse(r.entryType, "event") == EntryOf(s, op).entryType;
    }
  }

  lemma StepAnchors(h: HashFn, s: Life, op: Op, from: nat)
    requires Healthy(h, s) && Proper(op) && AnchorsNameHead(s.log.rows, from)
    ensures AnchorsNameHead(Step(h, s, op).log.rows, from)
    ensures s.log.rows <= Step(h, s, op).log.rows
  {
    if !op.Restart? {
      hide IntactEverywhere, Head;
      var r := NewRow(h, s.inst, s.log, EntryOf(s, op));
      var rows := s.log.rows + [r];
      forall i | from <= i < |rows| && rows[i].entryType == Some("anchor") ensures rows[i].target == Head(rows[..i]) {
        assert rows[..i] == s.log.rows[..i];
      }
    }
  }

  /** A log written through any run of appends and restarts on a resumable intact table stays
      intact for every verifier, ends in the hash the service holds, counts its entries exactly,
      and keeps its old rows; its anchors name the hash before them. */
  lemma {:induction false} WrittenLogsVerify(h: HashFn, inst: string, table: seq<Row>, ops: seq<Op>)
    requires inst != "" && IntactEverywhere(h, table) && Resumable(table)
    requires forall i :: 0 <= i < |ops| ==> Proper(ops[i])
    ensures var s := Run(h, Life(inst, Open(table)), ops);
            && Healthy(h, s)
            && table <= s.log.rows
            && (forall t :: t != "" ==> CountType(s.log.rows, t) == CountType(table, t) + Writes(ops, t))
            && AnchorsNameHead(s.log.rows, |table|)
  {
    if ops != [] {
      hide CountType, AnchorsNameHead, Healthy, Step, WritesType, Proper, IntactEverywhere, Resumable;
      var n := |ops| - 1;
      var s := Run(h, Life(inst, Open(table)), ops[..n]);
      WrittenLogsVerify(h, inst, table, ops[..n]);
      StepKeepsHealthy(h, s, ops[n]);
      StepAnchors(h, s, ops[n], |table|);
      forall t: string | t != ""
        ensures CountType(Step(h, s, ops[n]).log.rows, t) == CountType(table, t) + Writes(ops, t)
      {
        StepCounts(h, s, ops[n], t);
      }
    }
  }

  // ---- Where the promise stops ----

  /** The data `append` hashes, spelled as it is written. */
  function AppendedData(inst: string, log: Log, e: Entry): string {
    e.actor + "|" + e.action + "|" + OrElse(e.target, "") + "|" + OrElse(e.details, "")
    + "|" + OrElse(e.origin, inst) + "|" + e.entryType
  }

  /** Reopening resumes from the last row. If that row is unhashed although an earlier one is
      hashed, the next append starts again from "genesis" and no verifier accepts it, unless its
      preimage collides with one of the two the verifier tries. */
  lemma ResumingNeedsHashedTail(h: HashFn, inst: string, table: seq<Row>, e: Entry, verifier: string)
    requires inst != "" && e.entryType != "" && IntactEverywhere(h, table)
    ensures var r := NewRow(h, inst, Open(table), e);
            var x := Preimage(None, AppendedData(inst, Open(table), e));
            Intact(h, verifier, table + [r]) <==>
              || Resumable(table)
              || Collides(h, (x, Preimage(Head(table), CurrentData(verifier, r))))
              || Collides(h, (x, Preimage(Head(table), LegacyData(r))))
  {
    var r := NewRow(h, inst, Open(table), e);
    IntactExtension(h, verifier, table, r);
    assert Intact(h, verifier, table);
    if Resumable(table) {
      assert MatchesCurrent(h, verifier, Head(table), r);
    } else {
      HeadIsDigest(h, verifier, table);
      assert Open(table).lastChainHash == None && Head(table).Some?;
      var x := Preimage(None, AppendedData(inst, Open(table), e));
      assert x[0] == 'g' && IsHexDigit(Head(table).value[0]);
      assert forall d :: Preimage(Head(table), d)[0] == Head(table).value[0];
      assert r.chainHash == Some(h(x));
    }
  }

  /** Such tables exist: an unhashed row behind any log with a hashed one verifies, and cannot be resumed. */
  lemma UnhashedTailIsNotResumable(h: HashFn, rows: seq<Row>, r: Row)
    requires IntactEverywhere(h, rows) && Head(rows).Some? && !Hashed(r)
    ensures IntactEverywhere(h, rows + [r]) && !Resumable(rows + [r])
  {
    forall inst: string ensures Intact(h, inst, rows + [r]) {
      IntactExtension(h, inst, rows, r);
    }
    assert (rows + [r])[..|rows|] == rows;
  }

  /** `append` stores the entry type it hashed, but `verify` reads an empty one as "event":
      an entry with an empty type is not accepted, unless its preimage collides with one of the
      two the verifier tries. */
  lemma AppendNeedsEntryType(h: HashFn, s: Life, e: Entry, verifier: string)
    requires Healthy(h, s)
    ensures var r := NewRow(h, s.inst, s.log, e);
            var x := Preimage(Head(s.log.rows), AppendedData(s.inst, s.log, e));
            Intact(h, verifier, s.log.rows + [r]) <==>
              || e.entryType != ""
              || Collides(h, (x, Preimage(Head(s.log.rows), CurrentData(verifier, r))))
              || Collides(h, (x, Preimage(Head(s.log.rows), LegacyData(r))))
  {
    var r := NewRow(h, s.inst, s.log, e);
    IntactExtension(h, verifier, s.log.rows, r);
    assert Intact(h, verifier, s.log.rows);
    var head := Head(s.log.rows);
    var x := Preimage(head, AppendedData(s.inst, s.log, e));
    assert r.chainHash == Some(h(x));
    if e.entryType != "" {
      assert MatchesCurrent(h, verifier, head, r);
    } else {
      assert |Preimage(head, CurrentData(verifier, r))| == |x| + 5;
      assert |Preimage(head, LegacyData(r))| < |x|;
    }
  }

  // ---- The service ----

  /** The first broken link of the log is at row `k`. */
  ghost predicate BreaksAt(h: HashFn, inst: string, rows: seq<Row>, k: nat) {
    k < |rows| && Intact(h, inst, rows[..k]) && !Linked(h, inst, Head(rows[..k]), rows[k])
  }

  lemma WalkOn(h: HashFn, inst: string, rows: seq<Row>, i: nat)
    requires i < |rows| && Intact(h, inst, rows[..i])
    ensures BreaksAt(h, inst, rows, i) ==> !Intact(h, inst, rows)
    ensures !BreaksAt(h, inst, rows, i) ==> Intact(h, inst, rows[..i + 1])
    ensures Head(rows[..i + 1]) == if Hashed(rows[i]) then rows[i].chainHash else Head(rows[..i])
    ensures forall t :: CountType(rows[..i + 1], t) == CountType(rows[..i], t) +
                        if Hashed(rows[i]) && OrElse(rows[i].entryType, "event") == t then 1 else 0
  {
    assert rows[..i + 1] == rows[..i] + [rows[i]] && rows[..i + 1][..i] == rows[..i];
    IntactExtension(h, inst, rows[..i], rows[i]);
  }

  class ActivityLog {
    const hash: HashFn
    const instanceId: string
    var rows: seq<Row>
    var lastChainHash: Option<string>
    var chainLength: nat

    ghost function View(): Log
      reads this
    {
      Log(rows, lastChainHash, chainLength)
    }

    constructor (hash: HashFn, instanceId: string, table: seq<Row>)
      ensures this.hash == hash && this.instanceId == instanceId
      ensures View() == Open(table)
    {
      this.hash := hash;
      this.instanceId := instanceId;
      rows := table;
      if |table| > 0 {
        var last := table[|table| - 1];
        lastChainHash := if Hashed(last) then last.chainHash else None;
        chainLength := last.id;
      } else {
        lastChainHash := None;
        chainLength := 0;
      }
    }

    method Append(actor: string, action: string, target: Option<string>, details: Option<string>,
                  entryType: string, origin: Option<string>)
      returns (chainHash: string)
      modifies this
      ensures View()
              == AppendTo(hash, instanceId, old(View()), Entry(actor, action, target, details, entryType, origin))
      ensures lastChainHash == Some(chainHash) && Hashed(rows[|rows| - 1])
      ensures rows == old(rows) + [Row(if old(rows) == [] then 1 else old(rows)[|old(rows)| - 1].id + 1,
                                       actor, action, target, details, Some(chainHash),
                                       Some(OrElse(origin, instanceId)), Some(entryType))]
    {
      var entryOrigin := OrElse(origin, instanceId);
      var entryData := actor + "|" + action + "|" + OrElse(target, "") + "|" + OrElse(details, "")
                       + "|" + entryOrigin + "|" + entryType;
      chainHash := hash(Preimage(lastChainHash, entryData));
      lastChainHash := Some(chainHash);
      chainLength := chainLength + 1;
      rows := rows + [Row(NextId(rows), actor, action, target, details,
                          Some(chainHash), Some(entryOrigin), Some(entryType))];
    }

    method AppendSpacer(category: string, signature: string, json: string, origin: Option<string>)
      returns (chainHash: string)
      modifies this
      ensures View()
              == AppendTo(hash, instanceId, old(View()), SpacerEntry(instanceId, category, signature, json, origin))
      ensures var row := rows[|rows| - 1];
              && row.actor == "defense_system" && row.action == "spacer_" + category
              && row.target == Some(signature) && row.details == Some(json) && row.entryType == Some("spacer")
              && row.origin == Some(if origin.Some? && origin.value != "" then origin.value else instanceId)
    {
      chainHash := Append("defense_system", "spacer_" + category, Some(signature), Some(json), "spacer",
                          Some(OrElse(origin, instanceId)));
    }

    method AppendAnchor(json: string) returns (chainHash: string)
      modifies this
      ensures View() == AppendTo(hash, instanceId, old(View()), AnchorEntry(old(View()), json))
      ensures var row := rows[|rows| - 1];
              && row.actor == "chain_service" && row.action == "chain_anchor" && row.details == Some(json)
              && row.entryType == Some("anchor") && row.origin == Some(OrElse(None, instanceId))
      ensures rows[|rows| - 1].target == old(lastChainHash)
    {
      chainHash := Append("chain_service", "chain_anchor", lastChainHash, Some(json), "anchor", None);
    }

    /** The counts and the head that a report gives are those of `part`. */
    static predicate Tallies(report: Report, part: seq<Row>) {
      && report.headHash == Head(part)
      && report.spacers == CountType(part, "spacer")
      && report.anchors == CountType(part, "anchor")
    }

    /** Walks the rows once. The verdict is exactly `Intact`; a broken chain is reported at its
        first unlinked row, with the counts and the head of the good part. */
    method Verify() returns (report: Report)
      ensures report.valid <==> Intact(hash, instanceId, rows)
      ensures report.entries == |rows|
      ensures report.valid ==> report.brokenAt == None && Tallies(report, rows)
      ensures !report.valid ==>
        exists k: nat ::
          BreaksAt(hash, instanceId, rows, k) && report.brokenAt == Some(rows[k].id) && Tallies(report, rows[..k])
    {
      var table := rows;
      var previousHash: Option<string> := None;
      var spacers, anchors := 0, 0;
      for i := 0 to |table|
        invariant Intact(hash, instanceId, table[..i])
        invariant previousHash == Head(table[..i])
        invariant spacers == CountType(table[..i], "spacer") && anchors == CountType(table[..i], "anchor")
      {
        var row := table[i];
        WalkOn(hash, instanceId, table, i);
        if !Hashed(row) {
          continue;
        }
        var newHash := ChainHash(hash, previousHash, CurrentData(instanceId, row));
        var legacyHash := ChainHash(hash, previousHash, LegacyData(row));
        if row.chainHash != Some(newHash) && row.chainHash != Some(legacyHash) {
          assert BreaksAt(hash, instanceId, table, i);
          return Report(false, |table|, spacers, anchors, Some(row.id), previousHash);
        }
        previousHash := row.chainHash;
        if OrElse(row.entryType, "event") == "spacer" {
          spacers := spacers + 1;
        }
        if OrElse(row.entryType, "event") == "anchor" {
          anchors := anchors + 1;
        }
      }
      assert table[..|table|] == table;
      report := Report(true, |table|, spacers, anchors, None, previousHash);
    }
  }
}
