/** Rolling activity averages per agent (server/services/behavioral-baseline.js), in exact arithmetic. */
module BehavioralBaselines {

  const WINDOW_DAYS := 30
  const THRESHOLD := 3.0
  const MIN_SAMPLE_DAYS := 3

  /** One agent's counts of a day. */
  datatype Activity = Activity(messages: nat, llmCalls: nat, shellExecs: nat, fileWrites: nat)

  /** One row of agent_baselines. */
  datatype Baseline = Baseline(messages: real, llmCalls: real, shellExecs: real, fileWrites: real, sampleDays: nat)

  datatype Metric = Messages | LlmCalls | ShellExecs | FileWrites

  function CountOf(a: Activity, m: Metric): nat {
    match m
    case Messages => a.messages
    case LlmCalls => a.llmCalls
    case ShellExecs => a.shellExecs
    case FileWrites => a.fileWrites
  }

  function AverageOf(b: Baseline, m: Metric): real {
    match m
    case Messages => b.messages
    case LlmCalls => b.llmCalls
    case ShellExecs => b.shellExecs
    case FileWrites => b.fileWrites
  }

  /** The weight of the newest day: an arithmetic mean for thirty days, exponential afterwards. */
  function Alpha(days: nat): real
    requires days >= 1
  {
    1.0 / (if days < WINDOW_DAYS then days else WINDOW_DAYS) as real
  }

  function Blend(average: real, count: nat, alpha: real): real {
    average * (1.0 - alpha) + count as real * alpha
  }

  /** The averages after a series of days. */
  function Rolling(days: seq<Activity>): Baseline
    requires days != []
  {
    var a := days[|days| - 1];
    if |days| == 1 then Baseline(a.messages as real, a.llmCalls as real, a.shellExecs as real, a.fileWrites as real, 1)
    else Updated(Rolling(days[..|days| - 1]), a)
  }

  /** The row after one more day. */
  function Updated(b: Baseline, a: Activity): Baseline {
    var alpha := Alpha(b.sampleDays + 1);
    Baseline(Blend(b.messages, a.messages, alpha), Blend(b.llmCalls, a.llmCalls, alpha),
             Blend(b.shellExecs, a.shellExecs, alpha), Blend(b.fileWrites, a.fileWrites, alpha), b.sampleDays + 1)
  }

  function Sum(days: seq<Activity>, m: Metric): nat {
    if days == [] then 0 else Sum(days[..|days| - 1], m) + CountOf(days[|days| - 1], m)
  }

  lemma {:induction false} RollingDays(days: seq<Activity>)
    requires days != []
    ensures Rolling(days).sampleDays == |days|
  {
    if |days| > 1 {
      RollingDays(days[..|days| - 1]);
    }
  }

  /** What one more day does to one metric. */
  lemma RollingStep(days: seq<Activity>, m: Metric)
    requires |days| > 1
    ensures AverageOf(Rolling(days), m)
            == Blend(AverageOf(Rolling(days[..|days| - 1]), m), CountOf(days[|days| - 1], m), Alpha(|days|))
  {
    hide Blend, Alpha;
    RollingDays(days[..|days| - 1]);
  }

  function Mean(sum: nat, n: nat): real
    requires n >= 1
  {
    sum as real / n as real
  }

  lemma MeanOfFirstDay(count: nat)
    ensures Mean(count, 1) == count as real
  {
  }

  lemma MeanStep(sum: nat, n: nat, count: nat)
    requires 1 <= n < WINDOW_DAYS
    ensures Blend(Mean(sum, n), count, Alpha(n + 1)) == Mean(sum + count, n + 1)
  {
    var mean, alpha, k, c := Mean(sum, n), Alpha(n + 1), (n + 1) as real, count as real;
    assert mean * n as real == sum as real && alpha * k == 1.0;
    calc {
      (mean * (1.0 - alpha) + c * alpha) * k;
      mean * k - mean * (alpha * k) + c * (alpha * k);
      mean * k - mean + c;
      mean * n as real + c;
    }
  }

  /** For the first thirty days the stored average is the exact mean of the days. */
  lemma {:induction false} ExactMeanForThirtyDays(days: seq<Activity>, m: Metric)
    requires 1 <= |days| <= WINDOW_DAYS
    ensures AverageOf(Rolling(days), m) == Mean(Sum(days, m), |days|)
  {
    hide Blend, Alpha, Mean;
    var n := |days| - 1;
    if n == 0 {
      assert Sum(days[..0], m) == 0;
      MeanOfFirstDay(CountOf(days[0], m));
    } else {
      ExactMeanForThirtyDays(days[..n], m);
      RollingStep(days, m);
      MeanStep(Sum(days[..n], m), n, CountOf(days[n], m));
    }
  }

  lemma ProductNonNegative(x: real, y: real)
    requires x >= 0.0 && y >= 0.0
    ensures x * y >= 0.0
  {
  }

  lemma BlendBetween(average: real, count: nat, alpha: real, lo: real, hi: real)
    requires 0.0 <= alpha <= 1.0 && lo <= average <= hi && lo <= count as real <= hi
    ensures lo <= Blend(average, count, alpha) <= hi
  {
    var c := count as real;
    ProductNonNegative(average - lo, 1.0 - alpha);
    ProductNonNegative(c - lo, alpha);
    ProductNonNegative(hi - average, 1.0 - alpha);
    ProductNonNegative(hi - c, alpha);
    assert Blend(average, count, alpha) - lo == (average - lo) * (1.0 - alpha) + (c - lo) * alpha;
    assert hi - Blend(average, count, alpha) == (hi - average) * (1.0 - alpha) + (hi - c) * alpha;
  }

  lemma AlphaBetween(days: nat)
    requires days >= 1
    ensures 0.0 <= Alpha(days) <= 1.0
  {
  }

  /** However long it runs, the average stays between the smallest and the largest day. */
  lemma {:induction false} AverageStaysInRange(days: seq<Activity>, m: Metric, lo: nat, hi: nat)
    requires days != [] && forall i :: 0 <= i < |days| ==> lo <= CountOf(days[i], m) <= hi
    ensures lo as real <= AverageOf(Rolling(days), m) <= hi as real
  {
    var n := |days| - 1;
    if n > 0 {
      AverageStaysInRange(days[..n], m, lo, hi);
      RollingStep(days, m);
      AlphaBetween(n + 1);
      hide Rolling, Blend, Alpha, AverageOf;
      BlendBetween(AverageOf(Rolling(days[..n]), m), CountOf(days[n], m), Alpha(n + 1), lo as real, hi as real);
    }
  }

  /** A distance after k days of shrinking to 29/30 of itself. */
  function Faded(distance: real, k: nat): real {
    if k == 0 then distance else Faded(distance, k - 1) * 29.0 / 30.0
  }

  /** After the first thirty days, each of k equal days leaves 29/30 of the distance to their count. */
  lemma {:induction false} OldHabitsFade(days: seq<Activity>, a: Activity, k: nat, m: Metric)
    requires |days| >= WINDOW_DAYS
    ensures AverageOf(Rolling(days + seq(k, _ => a)), m) - CountOf(a, m) as real
         == Faded(AverageOf(Rolling(days), m) - CountOf(a, m) as real, k)
  {
    hide Rolling, Blend, AverageOf, CountOf;
    var all := days + seq(k, _ => a);
    if k == 0 {
      assert all == days;
    } else {
      OldHabitsFade(days, a, k - 1, m);
      assert all[..|all| - 1] == days + seq(k - 1, _ => a) && all[|all| - 1] == a;
      RollingStep(all, m);
      FadeStep(AverageOf(Rolling(all[..|all| - 1]), m), CountOf(a, m), Alpha(|all|));
    }
  }

  lemma FadeStep(average: real, count: nat, alpha: real)
    requires alpha == 1.0 / 30.0
    ensures Blend(average, count, alpha) - count as real == (average - count as real) * 29.0 / 30.0
  {
  }

  /** The metric's count of the current day is more than three times a positive baseline. */
  predicate Anomalous(b: Baseline, current: Activity, m: Metric) {
    AverageOf(b, m) > 0.0 && CountOf(current, m) as real > AverageOf(b, m) * THRESHOLD
  }

  /** `checkAgent` reports the metric. */
  predicate Flags(b: Baseline, current: Activity, m: Metric) {
    b.sampleDays >= MIN_SAMPLE_DAYS && Anomalous(b, current, m)
  }

  /** `checkAgent`: no anomaly before there are three days, then every metric in turn. */
  method CheckAgent(baseline: Baseline, current: Activity) returns (anomalies: seq<Metric>)
    ensures forall m :: m in anomalies <==> Flags(baseline, current, m)
  {
    anomalies := [];
    if baseline.sampleDays < MIN_SAMPLE_DAYS {
      return;
    }
    if baseline.messages > 0.0 && current.messages as real > baseline.messages * THRESHOLD {
      anomalies := anomalies + [Messages];
    }
    if baseline.llmCalls > 0.0 && current.llmCalls as real > baseline.llmCalls * THRESHOLD {
      anomalies := anomalies + [LlmCalls];
    }
    if baseline.shellExecs > 0.0 && current.shellExecs as real > baseline.shellExecs * THRESHOLD {
      anomalies := anomalies + [ShellExecs];
    }
    if baseline.fileWrites > 0.0 && current.fileWrites as real > baseline.fileWrites * THRESHOLD {
      anomalies := anomalies + [FileWrites];
    }
    assert AverageOf(baseline, Messages) == baseline.messages && AverageOf(baseline, LlmCalls) == baseline.llmCalls;
  }

  /** A day of at most three times the quietest day on record is never flagged. */
  lemma OrdinaryDaysAreNotFlagged(days: seq<Activity>, current: Activity, m: Metric, lo: nat, hi: nat)
    requires days != [] && forall i :: 0 <= i < |days| ==> lo <= CountOf(days[i], m) <= hi
    requires CountOf(current, m) <= 3 * lo
    ensures !Anomalous(Rolling(days), current, m)
  {
    AverageStaysInRange(days, m, lo, hi);
  }

  /** In the first thirty days a metric is flagged exactly when its count times the days exceeds three times a
      positive total. */
  lemma FlaggedExactly(days: seq<Activity>, current: Activity, m: Metric)
    requires 1 <= |days| <= WINDOW_DAYS
    ensures Anomalous(Rolling(days), current, m) <==>
            Sum(days, m) > 0 && CountOf(current, m) * |days| > 3 * Sum(days, m)
  {
    hide Rolling, Mean, Sum;
    ExactMeanForThirtyDays(days, m);
    FlaggedScaled(Sum(days, m), |days|, CountOf(current, m));
  }

  lemma FlaggedScaled(sum: nat, n: nat, count: nat)
    requires n >= 1
    ensures Mean(sum, n) > 0.0 && count as real > Mean(sum, n) * THRESHOLD <==> sum > 0 && count * n > 3 * sum
  {
    var average, k, c := Mean(sum, n), n as real, count as real;
    assert average * k == sum as real;
    Scaled(average, k);
    Scaled(c - average * THRESHOLD, k);
    calc {
      (c - average * THRESHOLD) * k;
      c * k - THRESHOLD * (average * k);
      (count * n - 3 * sum) as real;
    }
  }

  lemma Scaled(x: real, k: real)
    requires k > 0.0
    ensures x > 0.0 <==> x * k > 0.0
  {
  }

  /** The row of an agent after a day in which it was active. */
  function NextRow(rows: map<string, Baseline>, agent: string, day: Activity): Baseline {
    if agent in rows then Updated(rows[agent], day) else Rolling([day])
  }

  /** The table after a day: a row of its own for every active agent, and the others as they were. */
  ghost predicate Follows(
    before: map<string, Baseline>, activity: map<string, Activity>, after: map<string, Baseline>)
  {
    && after.Keys == before.Keys + activity.Keys
    && (forall a :: a in activity ==> after[a] == NextRow(before, a, activity[a]))
    && (forall a :: a in before && a !in activity ==> after[a] == before[a])
  }

  // ---- The table over any series of days ----

  /** The days on which the agent was active, in order. */
  function ActiveDays(days: seq<map<string, Activity>>, agent: string): seq<Activity> {
    if days == [] then []
    else
      ActiveDays(days[..|days| - 1], agent) +
      if agent in days[|days| - 1] then [days[|days| - 1][agent]] else []
  }

  /** `tables` is the table before the first day and after each of them. */
  ghost predicate History(tables: seq<map<string, Baseline>>, days: seq<map<string, Activity>>) {
    |tables| == |days| + 1 && forall i :: 0 <= i < |days| ==> Follows(tables[i], days[i], tables[i + 1])
  }

  /** Over any series of daily updates, an agent without a row at the start has one exactly if it was active, and the
      row is the rolling average of all its active days and no others. */
  lemma {:induction false} StoredRowIsRolling(
    tables: seq<map<string, Baseline>>, days: seq<map<string, Activity>>, agent: string)
    requires History(tables, days) && agent !in tables[0]
    ensures agent in tables[|days|] <==> ActiveDays(days, agent) != []
    ensures agent in tables[|days|] ==> tables[|days|][agent] == Rolling(ActiveDays(days, agent))
  {
    hide Updated;
    if days != [] {
      var n := |days| - 1;
      StoredRowIsRolling(tables[..n + 1], days[..n], agent);
      assert Follows(tables[n], days[n], tables[n + 1]);
      var before := ActiveDays(days[..n], agent);
      if agent in days[n] {
        assert (before + [days[n][agent]])[..|before|] == before;
      } else {
        assert before + [] == before;
      }
    }
  }

  /** So for the first thirty active days the stored average is their exact mean, it always lies between the quietest
      and the busiest day, and a count of at most three times the quietest day is never flagged. */
  lemma StoredRowLaws(
    tables: seq<map<string, Baseline>>, days: seq<map<string, Activity>>, agent: string, current: Activity, m: Metric,
    lo: nat, hi: nat)
    requires History(tables, days) && agent !in tables[0] && agent in tables[|days|]
    requires forall i :: 0 <= i < |ActiveDays(days, agent)| ==> lo <= CountOf(ActiveDays(days, agent)[i], m) <= hi
    ensures var row, active := tables[|days|][agent], ActiveDays(days, agent);
            && 1 <= |active| == row.sampleDays
            && (|active| <= 30 ==> AverageOf(row, m) == Mean(Sum(active, m), |active|))
            && lo as real <= AverageOf(row, m) <= hi as real
            && (Flags(row, current, m) ==> |active| >= 3 && CountOf(current, m) > 3 * lo)
  {
    hide Rolling, Mean, Sum, Anomalous, AverageOf, History;
    var active := ActiveDays(days, agent);
    StoredRowIsRolling(tables, days, agent);
    RollingDays(active);
    AverageStaysInRange(active, m, lo, hi);
    if |active| <= 30 {
      ExactMeanForThirtyDays(active, m);
    }
    if CountOf(current, m) <= 3 * lo {
      OrdinaryDaysAreNotFlagged(active, current, m, lo, hi);
    }
  }

  /** From the third to the thirtieth active day a metric is flagged exactly when its count times the days is more than
      three times a positive total; before, it is not flagged. */
  lemma StoredRowFlags(
    tables: seq<map<string, Baseline>>, days: seq<map<string, Activity>>, agent: string, current: Activity, m: Metric)
    requires History(tables, days) && agent !in tables[0] && agent in tables[|days|]
    requires |ActiveDays(days, agent)| <= 30
    ensures var active := ActiveDays(days, agent);
            Flags(tables[|days|][agent], current, m) <==>
            |active| >= 3 && Sum(active, m) > 0 && CountOf(current, m) * |active| > 3 * Sum(active, m)
  {
    hide Rolling, Sum, Anomalous, History;
    var active := ActiveDays(days, agent);
    StoredRowIsRolling(tables, days, agent);
    RollingDays(active);
    FlaggedExactly(active, current, m);
  }

  class BehavioralBaseline {
    var rows: map<string, Baseline>

    constructor ()
      ensures rows == map[]
    {
      rows := map[];
    }

    /** The daily update: a new row, or one more day, for every agent with activity. */
    method UpdateAllBaselines(activity: map<string, Activity>)
      modifies this
      ensures Follows(old(rows), activity, rows)
    {
      var agents := activity.Keys;
      ghost var before := rows;
      while agents != {}
        invariant agents <= activity.Keys
        invariant rows.Keys == before.Keys + (activity.Keys - agents)
        invariant forall a :: a in activity.Keys - agents ==> rows[a] == NextRow(before, a, activity[a])
        invariant forall a :: a in before && a !in activity.Keys - agents ==> rows[a] == before[a]
      {
        var actor :| actor in agents;
        agents := agents - {actor};
        UpdateAgent(actor, activity[actor]);
      }
    }

    /** The averaging step of one agent. */
    method UpdateAgent(actor: string, row: Activity)
      modifies this
      ensures rows == old(rows)[actor := NextRow(old(rows), actor, row)]
    {
      hide Alpha;
      if actor in rows {
        var existing := rows[actor];
        var days := existing.sampleDays + 1;
        var alpha := Alpha(days);
        var next := Baseline(
          existing.messages * (1.0 - alpha) + row.messages as real * alpha,
          existing.llmCalls * (1.0 - alpha) + row.llmCalls as real * alpha,
          existing.shellExecs * (1.0 - alpha) + row.shellExecs as real * alpha,
          existing.fileWrites * (1.0 - alpha) + row.fileWrites as real * alpha, days);
        assert next == Updated(existing, row) by { hide Alpha; }
        rows := rows[actor := next];
      } else {
        rows := rows[actor := Baseline(row.messages as real, row.llmCalls as real, row.shellExecs as real,
                                       row.fileWrites as real, 1)];
      }
    }
  }
}
