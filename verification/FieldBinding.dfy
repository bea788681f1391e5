/** What an equal chain head says about the fields of the rows, beyond the joined strings
    (server/services/activity-log.js). */
module FieldBinding {
  import opened Prelude
  import opened Sha256
  import opened ActivityLogs

  // ---- Joining with bars ----

  function Join(fields: seq<string>): string
    requires fields != []
  {
    if |fields| == 1 then fields[0] else Join(fields[..|fields| - 1]) + "|" + fields[|fields| - 1]
  }

  predicate HasBar(s: string) {
    '|' in s
  }

  predicate BarFree(fields: seq<string>) {
    forall i :: 0 <= i < |fields| ==> !HasBar(fields[i])
  }

  function Bars(s: string): nat {
    multiset(s)['|']
  }

  function TotalBars(fields: seq<string>): nat {
    if fields == [] then 0 else TotalBars(fields[..|fields| - 1]) + Bars(fields[|fields| - 1])
  }

  lemma {:induction false} JoinBars(fields: seq<string>)
    requires fields != []
    ensures Bars(Join(fields)) == |fields| - 1 + TotalBars(fields)
  {
    if |fields| == 1 {
      assert TotalBars(fields[..0]) == 0;
    } else {
      JoinBars(fields[..|fields| - 1]);
    }
  }

  lemma {:induction false} BarFreeMeansNoBars(fields: seq<string>)
    ensures BarFree(fields) <==> TotalBars(fields) == 0
  {
    if fields != [] {
      var init, last := fields[..|fields| - 1], fields[|fields| - 1];
      BarFreeMeansNoBars(init);
      assert HasBar(last) <==> '|' in multiset(last);
      assert BarFree(fields) <==> BarFree(init) && !HasBar(last) by {
        assert fields == init + [last];
      }
    }
  }

  lemma LastBar(x: string, t: string)
    requires !HasBar(t)
    ensures var s := x + "|" + t; s[|x|] == '|' && forall p :: |x| < p < |s| ==> s[p] != '|'
  {
  }

  /** What follows the last bar is determined. */
  lemma LastPart(x: string, t: string, y: string, u: string)
    requires x + "|" + t == y + "|" + u && !HasBar(t) && !HasBar(u)
    ensures x == y && t == u
  {
    var s := x + "|" + t;
    LastBar(x, t);
    LastBar(y, u);
    assert x == s[..|x|] && y == s[..|y|] && t == s[|x| + 1..] && u == s[|y| + 1..];
  }

  lemma {:induction false} BarFreeSplit(a: seq<string>, b: seq<string>)
    requires |a| == |b| > 0 && BarFree(a) && BarFree(b) && Join(a) == Join(b)
    ensures a == b
  {
    var n := |a| - 1;
    if n > 0 {
      LastPart(Join(a[..n]), a[n], Join(b[..n]), b[n]);
      BarFreeSplit(a[..n], b[..n]);
      assert a == a[..n] + [a[n]] && b == b[..n] + [b[n]];
    }
  }

  /** A list with a bar in some field has another list of the same length with the same joined string. */
  lemma {:induction false} Resplit(a: seq<string>) returns (b: seq<string>)
    requires |a| >= 2 && !BarFree(a)
    ensures |b| == |a| && b != a && Join(b) == Join(a)
  {
    var n := |a| - 1;
    if HasBar(a[n]) {
      var p :| 0 <= p < |a[n]| && a[n][p] == '|';
      var left, right := a[n][..p], a[n][p + 1..];
      assert a[n] == left + "|" + right;
      b := a[..n - 1] + [a[n - 1] + "|" + left, right];
      assert b[..n] == a[..n - 1] + [a[n - 1] + "|" + left];
      assert a[..n][..n - 1] == a[..n - 1] == b[..n][..n - 1];
      assert |b[n]| < |a[n]|;
      calc {
        Join(b);
        Join(b[..n]) + "|" + right;
        { assert n > 1 ==> Join(b[..n]) == Join(a[..n - 1]) + "|" + (a[n - 1] + "|" + left); }
        Join(a[..n]) + "|" + left + "|" + right;
        Join(a[..n]) + "|" + a[n];
      }
    } else if n > 1 {
      assert a == a[..n] + [a[n]];
      var c := Resplit(a[..n]);
      b := c + [a[n]];
      assert b[..n] == c;
    } else {
      var p :| 0 <= p < |a[0]| && a[0][p] == '|';
      var left, right := a[0][..p], a[0][p + 1..];
      b := [left, right + "|" + a[1]];
      assert b[..1] == [left] && a[..1] == [a[0]];
      assert a[0] == left + "|" + right;
      assert Join(b) == left + "|" + (right + "|" + a[1]) == a[0] + "|" + a[1] == Join(a);
      assert |b[0]| < |a[0]|;
    }
  }

  ghost predicate SplitsOneWay(a: seq<string>)
    requires a != []
  {
    forall b: seq<string> :: |b| == |a| && Join(b) == Join(a) ==> b == a
  }

  /** The joined string of two or more fields can be split in one way only, exactly when no field has a bar. */
  lemma SplitsOneWayExactly(a: seq<string>)
    requires |a| >= 2
    ensures SplitsOneWay(a) <==> BarFree(a)
  {
    if BarFree(a) {
      forall b: seq<string> | |b| == |a| && Join(b) == Join(a) ensures b == a {
        SplitOf(a, b);
      }
    } else {
      var b := Resplit(a);
    }
  }

  lemma SplitOf(a: seq<string>, b: seq<string>)
    requires |a| == |b| > 0 && BarFree(a) && Join(a) == Join(b)
    ensures a == b
  {
    JoinBars(a);
    JoinBars(b);
    BarFreeMeansNoBars(a);
    BarFreeMeansNoBars(b);
    BarFreeSplit(a, b);
  }

  // ---- The fields of rows ----

  /** The four fields of the older format; null reads as the empty string. */
  function TextFields(r: Row): seq<string> {
    [r.actor, r.action, OrElse(r.target, ""), OrElse(r.details, "")]
  }

  function TypeOf(r: Row): string {
    OrElse(r.entryType, "event")
  }

  /** The six fields as the verifier reads them. */
  function Fields(inst: string, r: Row): seq<string> {
    TextFields(r) + [OrElse(r.origin, inst), TypeOf(r)]
  }

  lemma LegacyIsJoined(r: Row)
    ensures LegacyData(r) == Join(TextFields(r))
  {
    var f := TextFields(r);
    assert f[..3][..2] == f[..2] && f[..2][..1] == f[..1];
    assert Join(f[..2]) == r.actor + "|" + r.action;
    assert Join(f[..3]) == Join(f[..2]) + "|" + OrElse(r.target, "");
  }

  lemma DataIsJoined(inst: string, r: Row)
    ensures CurrentData(inst, r) == Join(Fields(inst, r))
  {
    var f := Fields(inst, r);
    assert f[..5][..4] == f[..4] == TextFields(r);
    LegacyIsJoined(r);
  }

  /** An equal data string means equal fields, up to null, empty and default, as soon as one of the rows has no bar
      in them. */
  lemma FieldsBound(instA: string, r: Row, instB: string, s: Row)
    requires CurrentData(instA, r) == CurrentData(instB, s) && BarFree(Fields(instA, r))
    ensures Fields(instA, r) == Fields(instB, s)
  {
    DataIsJoined(instA, r);
    DataIsJoined(instB, s);
    SplitOf(Fields(instA, r), Fields(instB, s));
  }

  ghost predicate DataBindsFields(inst: string, r: Row) {
    forall s: Row :: CurrentData(inst, s) == CurrentData(inst, r) ==> Fields(inst, s) == Fields(inst, r)
  }

  /** For a row whose origin and entry type have no bar, the data string determines all six fields exactly when the
      actor, the action, the target and the details have none either. */
  lemma DataBindsFieldsExactly(inst: string, r: Row)
    requires !HasBar(OrElse(r.origin, inst)) && !HasBar(TypeOf(r))
    ensures DataBindsFields(inst, r) <==> BarFree(TextFields(r))
  {
    var f, text := Fields(inst, r), TextFields(r);
    if BarFree(text) {
      assert BarFree(f);
      forall s: Row | CurrentData(inst, s) == CurrentData(inst, r) ensures Fields(inst, s) == Fields(inst, r) {
        FieldsBound(inst, r, inst, s);
      }
    } else {
      var b := Resplit(text);
      var s := r.(actor := b[0], action := b[1], target := Some(b[2]), details := Some(b[3]));
      assert TextFields(s) == b;
      LegacyIsJoined(r);
      LegacyIsJoined(s);
      assert Fields(inst, s)[..4] == b && f[..4] == text;
    }
  }

  // ---- The fields of logs ----

  /** Every hashed row carries the hash of the current format. */
  ghost predicate CurrentFormat(h: HashFn, inst: string, rows: seq<Row>) {
    forall i :: 0 <= i < |rows| && Hashed(rows[i]) ==> MatchesCurrent(h, inst, Head(rows[..i]), rows[i])
  }

  /** So it is under every instance name: no row relies on the default origin. */
  ghost predicate CurrentFormatEverywhere(h: HashFn, rows: seq<Row>) {
    forall inst: string :: CurrentFormat(h, inst, rows)
  }

  /** An append to the true head writes a row in the current format. */
  lemma AppendKeepsFormat(h: HashFn, s: Life, e: Entry)
    requires s.inst != "" && e.entryType != "" && s.log.lastChainHash == Head(s.log.rows)
    requires CurrentFormatEverywhere(h, s.log.rows)
    ensures CurrentFormatEverywhere(h, AppendTo(h, s.inst, s.log, e).rows)
  {
    var rows := s.log.rows;
    var r := NewRow(h, s.inst, s.log, e);
    var longer := rows + [r];
    forall inst: string, i | 0 <= i < |longer| && Hashed(longer[i])
      ensures MatchesCurrent(h, inst, Head(longer[..i]), longer[i])
    {
      if i < |rows| {
        assert longer[..i] == rows[..i] && CurrentFormat(h, inst, rows);
      } else {
        assert longer[..i] == rows;
      }
    }
  }

  /** What the service writes over any run of appends and restarts, on a table in the current format, the empty one
      above all, is in the current format: the statements below apply to it. */
  lemma {:induction false} WrittenLogsAreCurrent(h: HashFn, inst: string, table: seq<Row>, ops: seq<Op>)
    requires inst != "" && IntactEverywhere(h, table) && Resumable(table) && CurrentFormatEverywhere(h, table)
    requires forall i :: 0 <= i < |ops| ==> Proper(ops[i])
    ensures CurrentFormatEverywhere(h, Run(h, Life(inst, Open(table)), ops).log.rows)
  {
    hide CurrentFormatEverywhere, IntactEverywhere, Resumable, AppendTo;
    if ops != [] {
      var n := |ops| - 1;
      var s := Run(h, Life(inst, Open(table)), ops[..n]);
      WrittenLogsAreCurrent(h, inst, table, ops[..n]);
      WrittenLogsVerify(h, inst, table, ops[..n]);
      assert Proper(ops[n]);
      if !ops[n].Restart? {
        AppendKeepsFormat(h, s, EntryOf(s, ops[n]));
      }
    }
  }

  /** The hashed rows in order. */
  function HashedRows(rows: seq<Row>): seq<Row> {
    if rows == [] then []
    else HashedRows(rows[..|rows| - 1]) + if Hashed(rows[|rows| - 1]) then [rows[|rows| - 1]] else []
  }

  function FieldLists(inst: string, rows: seq<Row>): seq<seq<string>> {
    var rs := HashedRows(rows);
    seq(|rs|, i requires 0 <= i < |rs| => Fields(inst, rs[i]))
  }

  lemma {:induction false} CoversAreData(h: HashFn, inst: string, rows: seq<Row>)
    requires CurrentFormat(h, inst, rows)
    ensures |Covers(h, inst, rows)| == |HashedRows(rows)|
    ensures forall i :: 0 <= i < |HashedRows(rows)| ==>
              Covers(h, inst, rows)[i] == CurrentData(inst, HashedRows(rows)[i])
  {
    hide CurrentData, Preimage;
    if rows != [] {
      var n := |rows| - 1;
      forall i | 0 <= i < n && Hashed(rows[..n][i])
        ensures MatchesCurrent(h, inst, Head(rows[..n][..i]), rows[..n][i])
      {
        assert rows[..n][..i] == rows[..i];
      }
      CoversAreData(h, inst, rows[..n]);
    }
  }

  /** Two verified logs in the current format with the same head, one of them free of bars, agree in every field of
      every hashed row, or exhibit a collision. */
  lemma EqualHeadsBindFields(h: HashFn, instA: string, a: seq<Row>, instB: string, b: seq<Row>)
    requires Intact(h, instA, a) && Intact(h, instB, b) && Head(a) == Head(b)
    requires CurrentFormat(h, instA, a) && CurrentFormat(h, instB, b)
    requires forall i :: 0 <= i < |HashedRows(a)| ==> BarFree(Fields(instA, HashedRows(a)[i]))
    ensures FieldLists(instA, a) == FieldLists(instB, b) || Colliding(h, instA, a, instB, b)
  {
    hide Intact, CurrentFormat, Colliding, BarFree, Fields;
    EqualHeadsBindContents(h, instA, a, instB, b);
    if Covers(h, instA, a) == Covers(h, instB, b) {
      CoversAreData(h, instA, a);
      CoversAreData(h, instB, b);
      forall i | 0 <= i < |HashedRows(a)| ensures Fields(instA, HashedRows(a)[i]) == Fields(instB, HashedRows(b)[i]) {
        FieldsBound(instA, HashedRows(a)[i], instB, HashedRows(b)[i]);
      }
    }
  }

  // ---- The counts that a verified log reports ----

  function Types(rows: seq<Row>): seq<string> {
    var rs := HashedRows(rows);
    seq(|rs|, i requires 0 <= i < |rs| => TypeOf(rs[i]))
  }

  lemma {:induction false} CountsAreOfTypes(rows: seq<Row>, t: string)
    ensures CountType(rows, t) == multiset(Types(rows))[t]
  {
    if rows != [] {
      var init, last := rows[..|rows| - 1], rows[|rows| - 1];
      CountsAreOfTypes(init, t);
      assert Types(rows) == Types(init) + if Hashed(last) then [TypeOf(last)] else [];
    }
  }

  lemma TypeIsLastPart(instA: string, r: Row, instB: string, s: Row)
    requires CurrentData(instA, r) == CurrentData(instB, s) && !HasBar(TypeOf(r)) && !HasBar(TypeOf(s))
    ensures TypeOf(r) == TypeOf(s)
  {
    hide LegacyData, HasBar;
    LastPart(LegacyData(r) + "|" + OrElse(r.origin, instA), TypeOf(r),
             LegacyData(s) + "|" + OrElse(s.origin, instB), TypeOf(s));
  }

  /** They agree in the entry types, hence in every count that `verify` reports, as soon as both logs are in the
      current format and no entry type has a bar. */
  lemma EqualHeadsBindCounts(h: HashFn, instA: string, a: seq<Row>, instB: string, b: seq<Row>)
    requires Intact(h, instA, a) && Intact(h, instB, b) && Head(a) == Head(b)
    requires CurrentFormat(h, instA, a) && CurrentFormat(h, instB, b)
    requires BarFree(Types(a)) && BarFree(Types(b))
    ensures (Types(a) == Types(b) && forall t :: CountType(a, t) == CountType(b, t)) || Colliding(h, instA, a, instB, b)
  {
    hide Intact, CurrentFormat, Colliding, CurrentData, TypeOf, Covers, HashedRows;
    EqualHeadsBindContents(h, instA, a, instB, b);
    if Covers(h, instA, a) == Covers(h, instB, b) {
      CoversAreData(h, instA, a);
      CoversAreData(h, instB, b);
      var ra, rb := HashedRows(a), HashedRows(b);
      forall i | 0 <= i < |ra| ensures Types(a)[i] == Types(b)[i] {
        assert Types(a)[i] == TypeOf(ra[i]) && Types(b)[i] == TypeOf(rb[i]);
        assert CurrentData(instA, ra[i]) == Covers(h, instA, a)[i] == CurrentData(instB, rb[i]);
        TypeIsLastPart(instA, ra[i], instB, rb[i]);
      }
      assert Types(a) == Types(b);
      forall t ensures CountType(a, t) == CountType(b, t) {
        CountsAreOfTypes(a, t);
        CountsAreOfTypes(b, t);
      }
    }
  }

  /** The row with its origin and type moved into the details, and another type in their place: its data string in
      the older format is the current one of the row. */
  function Recast(inst: string, r: Row, entryType: string): Row {
    r.(details := Some(OrElse(r.details, "") + "|" + OrElse(r.origin, inst) + "|" + TypeOf(r)),
       entryType := Some(entryType))
  }

  lemma RecastData(inst: string, r: Row, entryType: string)
    ensures LegacyData(Recast(inst, r, entryType)) == CurrentData(inst, r)
  {
    var d := OrElse(r.details, "") + "|" + OrElse(r.origin, inst) + "|" + TypeOf(r);
    var front := r.actor + "|" + r.action + "|" + OrElse(r.target, "") + "|";
    assert OrElse(Some(d), "") == d;
    assert CurrentData(inst, r) == front + OrElse(r.details, "") + "|" + OrElse(r.origin, inst) + "|" + TypeOf(r);
    assert LegacyData(Recast(inst, r, entryType)) == front + d;
  }

  lemma {:induction false} HeadOfHashes(a: seq<Row>, b: seq<Row>)
    requires |a| == |b| && forall i :: 0 <= i < |a| ==> a[i].chainHash == b[i].chainHash
    ensures Head(a) == Head(b)
  {
    if a != [] {
      HeadOfHashes(a[..|a| - 1], b[..|b| - 1]);
    }
  }

  lemma {:induction false} CountAfterUpdate(rows: seq<Row>, i: nat, r: Row, t: string)
    requires i < |rows| && Hashed(rows[i]) && Hashed(r)
    ensures CountType(rows[i := r], t) + (if TypeOf(rows[i]) == t then 1 else 0)
         == CountType(rows, t) + if TypeOf(r) == t then 1 else 0
  {
    var n := |rows| - 1;
    if i < n {
      CountAfterUpdate(rows[..n], i, r, t);
      assert rows[i := r][..n] == rows[..n][i := r];
    } else {
      assert rows[i := r][..n] == rows[..n];
    }
  }

  /** The row with another type under the hash it has. In the older format the type is not hashed at all. */
  function Relabelled(h: HashFn, inst: string, prev: Option<string>, r: Row, entryType: string): Row {
    if MatchesCurrent(h, inst, prev, r) then Recast(inst, r, entryType) else r.(entryType := Some(entryType))
  }

  lemma RelabelledLinks(h: HashFn, inst: string, prev: Option<string>, r: Row, entryType: string)
    requires Hashed(r) && Linked(h, inst, prev, r)
    ensures var t := Relabelled(h, inst, prev, r, entryType); Linked(h, inst, prev, t) && t.chainHash == r.chainHash
  {
    hide CurrentData, Preimage;
    RecastData(inst, r, entryType);
    if !MatchesCurrent(h, inst, prev, r) {
      assert LegacyData(r.(entryType := Some(entryType))) == LegacyData(r);
    }
  }

  /** The format of the rows is part of the condition: in every verified log, any hashed row can be given any other
      type, recast in the older format if need be. The log still verifies with the same head, and the reported
      counts of the two types are off by one. */
  lemma RelabelledRowsVerify(h: HashFn, inst: string, rows: seq<Row>, i: nat, entryType: string)
    requires Intact(h, inst, rows) && i < |rows| && Hashed(rows[i])
    requires entryType != "" && entryType != TypeOf(rows[i])
    ensures var forged := rows[i := Relabelled(h, inst, Head(rows[..i]), rows[i], entryType)];
            && Intact(h, inst, forged) && Head(forged) == Head(rows)
            && CountType(forged, entryType) == CountType(rows, entryType) + 1
            && CountType(forged, TypeOf(rows[i])) == CountType(rows, TypeOf(rows[i])) - 1
  {
    hide CurrentData, LegacyData, CountType, Preimage, Relabelled;
    assert Linked(h, inst, Head(rows[..i]), rows[i]);
    RelabelledLinks(h, inst, Head(rows[..i]), rows[i], entryType);
    var r := Relabelled(h, inst, Head(rows[..i]), rows[i], entryType);
    RelabelledType(h, inst, Head(rows[..i]), rows[i], entryType);
    var forged := rows[i := r];
    forall j | 0 <= j < |rows| ensures Linked(h, inst, Head(forged[..j]), forged[j]) {
      HeadOfHashes(forged[..j], rows[..j]);
      assert Linked(h, inst, Head(rows[..j]), rows[j]);
    }
    HeadOfHashes(forged, rows);
    CountAfterUpdate(rows, i, r, entryType);
    CountAfterUpdate(rows, i, r, TypeOf(rows[i]));
  }

  lemma RelabelledType(h: HashFn, inst: string, prev: Option<string>, r: Row, entryType: string)
    requires entryType != ""
    ensures TypeOf(Relabelled(h, inst, prev, r, entryType)) == entryType
  {
  }

  /** Every verified log of the same length and head, in whatever format, reports the same counts. */
  ghost predicate HeadBindsCounts(h: HashFn, inst: string, rows: seq<Row>) {
    forall other: seq<Row> :: |other| == |rows| && Intact(h, inst, other) && Head(other) == Head(rows) ==>
      forall t: string :: CountType(other, t) == CountType(rows, t)
  }

  lemma {:induction false} HeadlessCountsNothing(rows: seq<Row>, t: string)
    requires Head(rows).None?
    ensures CountType(rows, t) == 0
  {
    if rows != [] {
      HeadlessCountsNothing(rows[..|rows| - 1], t);
    }
  }

  lemma {:induction false} HeadIsOfSomeRow(rows: seq<Row>) returns (i: nat)
    requires Head(rows).Some?
    ensures i < |rows| && Hashed(rows[i])
  {
    if Hashed(rows[|rows| - 1]) {
      i := |rows| - 1;
    } else {
      i := HeadIsOfSomeRow(rows[..|rows| - 1]);
    }
  }

  /** Without a condition on the format, the head of a verified log binds the counts it reports exactly when there is
      nothing to count: no row is hashed. */
  lemma HeadBindsCountsExactly(h: HashFn, inst: string, rows: seq<Row>)
    requires Intact(h, inst, rows)
    ensures HeadBindsCounts(h, inst, rows) <==> forall i :: 0 <= i < |rows| ==> !Hashed(rows[i])
  {
    hide Intact, CountType, Relabelled;
    if Head(rows).Some? {
      var i := HeadIsOfSomeRow(rows);
      var entryType := TypeOf(rows[i]) + "x";
      assert |entryType| == |TypeOf(rows[i])| + 1;
      RelabelledRowsVerify(h, inst, rows, i, entryType);
      var forged := rows[i := Relabelled(h, inst, Head(rows[..i]), rows[i], entryType)];
      assert CountType(forged, entryType) != CountType(rows, entryType);
    } else {
      forall i | 0 <= i < |rows| ensures !Hashed(rows[i]) {
        HeadlessRowsAreUnhashed(rows, i);
      }
      forall other: seq<Row>, t: string | Head(other) == Head(rows) ensures CountType(other, t) == CountType(rows, t) {
        HeadlessCountsNothing(other, t);
        HeadlessCountsNothing(rows, t);
      }
    }
  }

  lemma {:induction false} HeadlessRowsAreUnhashed(rows: seq<Row>, i: nat)
    requires Head(rows).None? && i < |rows|
    ensures !Hashed(rows[i])
  {
    if i < |rows| - 1 {
      HeadlessRowsAreUnhashed(rows[..|rows| - 1], i);
    }
  }

  // ---- Editing, cutting and deleting rows ----

  /** An edit of one row that keeps its hash is found at that very row, unless the edited row is unhashed or still
      has its hash for its own: then the log verifies, with the same head, as before. */
  lemma EditedRowBreaksOrVerifies(h: HashFn, inst: string, rows: seq<Row>, i: nat, r: Row)
    requires Intact(h, inst, rows) && i < |rows| && r.chainHash == rows[i].chainHash
    ensures var edited := rows[i := r];
            && Head(edited) == Head(rows)
            && (Intact(h, inst, edited) <==> Linked(h, inst, Head(rows[..i]), r))
            && (!Intact(h, inst, edited) ==> BreaksAt(h, inst, edited, i))
  {
    hide Linked;
    var edited := rows[i := r];
    HeadOfHashes(edited, rows);
    forall j | 0 <= j < |rows| ensures Head(edited[..j]) == Head(rows[..j]) {
      HeadOfHashes(edited[..j], rows[..j]);
    }
    forall j | 0 <= j < |rows| && j != i ensures Linked(h, inst, Head(edited[..j]), edited[j]) {
      assert Linked(h, inst, Head(rows[..j]), rows[j]);
    }
    assert edited[i] == r && edited[..i] == rows[..i];
    IntactPrefix(h, inst, rows, i);
  }

  lemma {:induction false} HeadOfConcat(a: seq<Row>, b: seq<Row>)
    ensures Head(a + b) == if Head(b).Some? then Head(b) else Head(a)
  {
    if b == [] {
      assert a + b == a;
    } else {
      HeadOfConcat(a, b[..|b| - 1]);
      assert (a + b)[..|a + b| - 1] == a + b[..|b| - 1];
    }
  }

  lemma {:induction false} HashedRowsConcat(a: seq<Row>, b: seq<Row>)
    ensures HashedRows(a + b) == HashedRows(a) + HashedRows(b)
  {
    if b == [] {
      assert a + b == a;
    } else {
      HashedRowsConcat(a, b[..|b| - 1]);
      assert (a + b)[..|a + b| - 1] == a + b[..|b| - 1];
    }
  }

  lemma {:induction false} CoversCount(h: HashFn, inst: string, rows: seq<Row>)
    ensures |Covers(h, inst, rows)| == |HashedRows(rows)|
  {
    hide Covered;
    if rows != [] {
      CoversCount(h, inst, rows[..|rows| - 1]);
    }
  }

  /** Deleting rows, some of them hashed, from before a hashed row is found, or the two logs exhibit a collision. */
  lemma DeletedRowsBreakOrCollide(h: HashFn, inst: string, a: seq<Row>, gone: seq<Row>, b: seq<Row>)
    requires Intact(h, inst, a + gone + b) && HashedRows(gone) != [] && Head(b).Some?
    ensures !Intact(h, inst, a + b) || Colliding(h, inst, a + gone + b, inst, a + b)
  {
    hide Intact, Covers, HashedRows, Colliding;
    if Intact(h, inst, a + b) {
      HeadOfConcat(a + gone, b);
      HeadOfConcat(a, b);
      EqualHeadsBindContents(h, inst, a + gone + b, inst, a + b);
      CoversCount(h, inst, a + gone + b);
      CoversCount(h, inst, a + b);
      HashedRowsConcat(a + gone, b);
      HashedRowsConcat(a, gone);
      HashedRowsConcat(a, b);
    }
  }

  /** Cutting off the newest rows is not found: every beginning of a verified log verifies. What changes is the head,
      and only if a hashed row is cut off and no two strings of the log collide. */
  lemma CutLogsVerify(h: HashFn, inst: string, rows: seq<Row>, n: nat)
    requires Intact(h, inst, rows) && n <= |rows|
    ensures Intact(h, inst, rows[..n])
    ensures HashedRows(rows[n..]) == [] ==> Head(rows[..n]) == Head(rows)
    ensures HashedRows(rows[n..]) != [] ==> Head(rows[..n]) != Head(rows) || Colliding(h, inst, rows, inst, rows[..n])
  {
    hide Intact, Covers, Colliding;
    IntactPrefix(h, inst, rows, n);
    assert rows == rows[..n] + rows[n..];
    if HashedRows(rows[n..]) == [] {
      HeadOfConcat(rows[..n], rows[n..]);
      UnhashedHaveNoHead(rows[n..]);
    } else if Head(rows[..n]) == Head(rows) {
      EqualHeadsBindContents(h, inst, rows, inst, rows[..n]);
      CoversCount(h, inst, rows);
      CoversCount(h, inst, rows[..n]);
      HashedRowsConcat(rows[..n], rows[n..]);
    }
  }

  lemma {:induction false} UnhashedHaveNoHead(rows: seq<Row>)
    requires HashedRows(rows) == []
    ensures Head(rows) == None
  {
    if rows != [] {
      UnhashedHaveNoHead(rows[..|rows| - 1]);
    }
  }
}
