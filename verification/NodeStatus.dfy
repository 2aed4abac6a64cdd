/** FileIntegrityNodeStatus, the node_failed gauge and the node events
    (createOrUpdateNodeStatus and what it calls).

    `Record` is what one update works on: the stored status object of one node, the
    gauge of that node and the events emitted for it. The status object is updated
    in place, one result at a time; the theorems say what it is in terms of the
    whole history of results. */
module NodeStatus {
  import opened Text

  datatype Condition = Succeeded | Failed | Errored

  datatype ScanResult = ScanResult(
    time: int, condition: Condition, added: int, changed: int, removed: int, configMap: string, errorMsg: string)

  datatype Status = Status(results: seq<ScanResult>, last: ScanResult)

  datatype Event = Event(condition: Condition, added: int, changed: int, removed: int)

  datatype Record = Record(status: Option<Status>, gauge: Option<int>, events: seq<Event>)

  /** A log ConfigMap of the daemon: its error annotation, its content and its file counts. */
  datatype LogMap = LogMap(
    error: Option<string>, content: seq<int>, time: int, added: int, changed: int, removed: int, name: string)

  /** The result handleIntegrityLog makes of it. */
  function ResultOf(m: LogMap): ScanResult
  {
    if m.error.Some? then ScanResult(m.time, Errored, 0, 0, 0, "", m.error.value)
    else if m.content != [] then ScanResult(m.time, Failed, m.added, m.changed, m.removed, m.name + "-failed", "")
    else ScanResult(m.time, Succeeded, 0, 0, 0, "", "")
  }

  /** What a result has to say about its log: the time of the log always; the message of an error;
      the counts and the copy of a failure; nothing else for a success. */
  ghost predicate Reads(m: LogMap, r: ScanResult)
  {
    && r.time == m.time
    && (if m.error.Some? then r.condition.Errored? && r.errorMsg == m.error.value && r.configMap == ""
        else if m.content == [] then r.condition.Succeeded? && r.errorMsg == "" && r.configMap == ""
        else
          && r.condition.Failed? && r.errorMsg == "" && r.configMap == m.name + "-failed"
          && r.added == m.added && r.changed == m.changed && r.removed == m.removed)
    && (!r.condition.Failed? ==> r.added == r.changed == r.removed == 0)
  }

  // ---------- one update ----------

  /** isLatestScanResult */
  predicate IsLatest(r: ScanResult, last: ScanResult)
  {
    r.time > last.time
  }

  function OfOtherConditions(results: seq<ScanResult>, c: Condition): (r: seq<ScanResult>)
    ensures forall x | x in r :: x in results && x.condition != c
  {
    if results == [] then []
    else
      var rest := OfOtherConditions(results[1..], c);
      assert forall x | x in results[1..] :: x in results;
      if results[0].condition == c then rest else [results[0]] + rest
  }

  /** The latest of the kept results and the recorded last one, as the filter loop leaves it. */
  function LatestOf(last: ScanResult, results: seq<ScanResult>, c: Condition): ScanResult
  {
    if results == [] then last
    else
      var before := LatestOf(last, results[..|results| - 1], c);
      var r := results[|results| - 1];
      if r.condition != c && IsLatest(r, before) then r else before
  }

  /** The status after the filter loop, as the transition check sees it. */
  function Previous(st: Status, r: ScanResult): Status
  {
    st.(last := LatestOf(st.last, st.results, r.condition))
  }

  function Updated(st: Status, r: ScanResult): Status
  {
    var last := Previous(st, r).last;
    Status(OfOtherConditions(st.results, r.condition) + [r], if IsLatest(r, last) then r else last)
  }

  /** conditionIsNewFailureOrTransition; a gauge that is read always exists afterwards. */
  predicate NewFailureOrTransition(gauge: int, prev: ScanResult, cur: ScanResult)
  {
    if (cur.condition.Failed? && gauge == 0) || (cur.condition.Succeeded? && gauge == 1) then true
    else if cur.condition.Failed? && prev.condition.Failed? then
      cur.removed != prev.removed || cur.added != prev.added || cur.changed != prev.changed
    else cur.condition != prev.condition
  }

  /** GetFileIntegrityNodeStatus: reading creates the gauge with value 0. */
  function GaugeRead(gauge: Option<int>): int
  {
    if gauge.Some? then gauge.value else 0
  }

  /** updateNodeStatusMetrics, on the gauge. */
  function GaugeSet(gauge: Option<int>, last: ScanResult): Option<int>
  {
    match last.condition
    case Succeeded => Some(0)
    case Failed => Some(1)
    case Errored => gauge
  }

  function EventOf(last: ScanResult): Event
  {
    Event(last.condition, last.added, last.changed, last.removed)
  }

  /** createOrUpdateNodeStatus */
  function Apply(rec: Record, r: ScanResult): Record
  {
    if rec.status.None? then
      Record(Some(Status([r], r)), GaugeSet(rec.gauge, r), rec.events + [EventOf(r)])
    else
      var prev := Previous(rec.status.value, r);
      var cur := Updated(rec.status.value, r);
      var gauge := GaugeRead(rec.gauge);
      if NewFailureOrTransition(gauge, prev.last, cur.last) then
        Record(Some(cur), GaugeSet(Some(gauge), cur.last), rec.events + [EventOf(cur.last)])
      else
        Record(Some(cur), Some(gauge), rec.events)
  }

  /** The filter loop of createOrUpdateNodeStatus. */
  method KeepOthers(st: Status, r: ScanResult) returns (updateResults: seq<ScanResult>, last: ScanResult)
    ensures updateResults == OfOtherConditions(st.results, r.condition)
    ensures last == Previous(st, r).last
  {
    var results := st.results;
    updateResults, last := [], st.last;
    for i := 0 to |results|
      invariant updateResults == OfOtherConditions(results[..i], r.condition)
      invariant last == LatestOf(st.last, results[..i], r.condition)
    {
      assert results[..i + 1] == results[..i] + [results[i]];
      assert results[..i + 1][..i] == results[..i];
      OthersAppend(results[..i], [results[i]], r.condition);
      OthersOfOne(results[i], r.condition);
      if results[i].condition != r.condition {
        updateResults := updateResults + [results[i]];
        if IsLatest(results[i], last) {
          last := results[i];
        }
      }
    }
    assert results[..|results|] == results;
  }

  lemma NewestComesLast(rec: Record, r: ScanResult)
    ensures var st := Apply(rec, r).status;
            st.Some? && st.value.results != [] && st.value.results[|st.value.results| - 1] == r
  {
  }

  lemma OthersOfOne(r: ScanResult, c: Condition)
    ensures OfOtherConditions([r], c) == if r.condition == c then [] else [r]
  {
    assert [r][1..] == [];
  }

  /** The objects of one node as the controller updates them. */
  class StatusReconciler {
    var status: Option<Status>
    var gauge: Option<int>
    var events: seq<Event>
    var logs: set<LogMap>                // log ConfigMaps still to be handled
    var copies: map<string, seq<int>>    // stored copies of failed logs

    ghost function State(): Record
      reads this
    {
      Record(status, gauge, events)
    }

    constructor (logs: set<LogMap>)
      ensures State() == Record(None, None, []) && this.logs == logs && copies == map[]
    {
      status, gauge, events := None, None, [];
      this.logs, copies := logs, map[];
    }

    method UpdateNodeStatusMetrics(last: ScanResult)
      modifies this`gauge
      ensures gauge == GaugeSet(old(gauge), last)
    {
      match last.condition {
        case Succeeded => gauge := Some(0);
        case Failed => gauge := Some(1);
        case Errored =>
      }
    }

    method GetFileIntegrityNodeStatus() returns (value: int)
      modifies this`gauge
      ensures value == GaugeRead(old(gauge)) && gauge == Some(value)
    {
      if gauge.None? {
        gauge := Some(0);
      }
      value := gauge.value;
    }

    /** handleIntegrityLog, without API errors: a failed log is copied first, and the handled one
        is deleted last */
    method HandleIntegrityLog(m: LogMap)
      modifies this
      ensures State() == Apply(old(State()), ResultOf(m))
      ensures status.Some? && status.value.results != []
      ensures Reads(m, status.value.results[|status.value.results| - 1])
      ensures copies == if m.error.None? && m.content != []
                        then old(copies)[m.name + "-failed" := m.content] else old(copies)
      ensures logs == old(logs) - {m}
    {
      hide Apply;
      NewestComesLast(State(), ResultOf(m));
      if m.error.Some? {
        CreateOrUpdateNodeStatus(ScanResult(m.time, Errored, 0, 0, 0, "", m.error.value));
      } else if m.content != [] {
        var failedName := m.name + "-failed";
        copies := copies[failedName := m.content];
        CreateOrUpdateNodeStatus(ScanResult(m.time, Failed, m.added, m.changed, m.removed, failedName, ""));
      } else {
        CreateOrUpdateNodeStatus(ScanResult(m.time, Succeeded, 0, 0, 0, "", ""));
      }
      logs := logs - {m};
    }

    method CreateOrUpdateNodeStatus(r: ScanResult)
      modifies this`status, this`gauge, this`events
      ensures State() == Apply(old(State()), r)
    {
      if status.None? {
        status := Some(Status([r], r));
        UpdateNodeStatusMetrics(r);
        events := events + [EventOf(r)];
        return;
      }
      var updateResults, last := KeepOthers(status.value, r);
      updateResults := updateResults + [r];
      var curLast := if IsLatest(r, last) then r else last;
      status := Some(Status(updateResults, curLast));
      var metricValue := GetFileIntegrityNodeStatus();
      if NewFailureOrTransition(metricValue, last, curLast) {
        UpdateNodeStatusMetrics(curLast);
        events := events + [EventOf(curLast)];
      }
    }
  }

  // ---------- histories ----------

  /** The record after a whole history of results, starting without a status object. */
  function After(rec: Record, history: seq<ScanResult>): Record
  {
    if history == [] then rec else Apply(After(rec, history[..|history| - 1]), history[|history| - 1])
  }

  /** No later result of the history has the condition of the i-th. */
  predicate LastOfItsKind(history: seq<ScanResult>, i: nat)
    requires i < |history|
  {
    forall j | i < j < |history| :: history[j].condition != history[i].condition
  }

  /** The last result per condition, in order of arrival, from the i-th on. */
  function LastPerCondition(history: seq<ScanResult>, i: nat): seq<ScanResult>
    requires i <= |history|
    decreases |history| - i
  {
    if i == |history| then []
    else (if LastOfItsKind(history, i) then [history[i]] else []) + LastPerCondition(history, i + 1)
  }

  /** The earliest-arrived result of maximal probe time. */
  ghost predicate EarliestOfLatest(history: seq<ScanResult>, r: ScanResult)
  {
    exists i | 0 <= i < |history| ::
      && history[i] == r
      && (forall j | 0 <= j < |history| :: history[j].time <= r.time)
      && (forall j | 0 <= j < i :: history[j].time < r.time)
  }

  lemma {:induction false} OthersAppend(a: seq<ScanResult>, b: seq<ScanResult>, c: Condition)
    ensures OfOtherConditions(a + b, c) == OfOtherConditions(a, c) + OfOtherConditions(b, c)
  {
    if a == [] {
      assert a + b == b;
    } else {
      assert (a + b)[1..] == a[1..] + b;
      OthersAppend(a[1..], b, c);
    }
  }

  /** One more result drops the earlier one of its condition and comes last. */
  lemma {:induction false} LastPerConditionGrows(h: seq<ScanResult>, r: ScanResult, i: nat)
    requires i <= |h|
    ensures LastPerCondition(h + [r], i) == OfOtherConditions(LastPerCondition(h, i), r.condition) + [r]
    decreases |h| - i
  {
    var g := h + [r];
    if i == |h| {
      assert LastOfItsKind(g, i);
      assert LastPerCondition(g, i + 1) == [];
    } else {
      LastPerConditionGrows(h, r, i + 1);
      assert LastOfItsKind(g, i) <==> LastOfItsKind(h, i) && h[i].condition != r.condition by {
        assert g[|h|] == r;
        assert forall j | i < j < |h| :: g[j] == h[j];
      }
      var head := if LastOfItsKind(h, i) then [h[i]] else [];
      OthersAppend(head, LastPerCondition(h, i + 1), r.condition);
    }
  }

  lemma {:induction false} LatestIsLast(last: ScanResult, results: seq<ScanResult>, c: Condition)
    requires forall r | r in results :: r.time <= last.time
    ensures LatestOf(last, results, c) == last
  {
    if results != [] {
      assert results == results[..|results| - 1] + [results[|results| - 1]];
      LatestIsLast(last, results[..|results| - 1], c);
    }
  }

  /** For every history, in any time order: `results` is exactly the last result per condition
      ordered by arrival, and `last` the earliest-arrived result of maximal probe time. */
  lemma {:induction false} StatusOfHistory(gauge: Option<int>, h: seq<ScanResult>)
    requires h != []
    ensures var st := After(Record(None, gauge, []), h).status;
            && st.Some?
            && st.value.results == LastPerCondition(h, 0)
            && EarliestOfLatest(h, st.value.last)
            && (forall r | r in st.value.results :: r.time <= st.value.last.time)
  {
    var before, r := h[..|h| - 1], h[|h| - 1];
    assert h == before + [r];
    var start := Record(None, gauge, []);
    if before == [] {
      assert After(start, before) == start;
      assert LastPerCondition(h, 1) == [];
    } else {
      StatusOfHistory(gauge, before);
      var st := After(start, before).status.value;
      LatestIsLast(st.last, st.results, r.condition);
      LastPerConditionGrows(before, r, 0);
      LastGrows(before, r, st.last);
    }
  }

  lemma LastGrows(h: seq<ScanResult>, r: ScanResult, last: ScanResult)
    requires EarliestOfLatest(h, last)
    ensures EarliestOfLatest(h + [r], if IsLatest(r, last) then r else last)
  {
    var g := h + [r];
    assert g[|h|] == r;
    assert forall j | 0 <= j < |h| :: g[j] == h[j];
    var i :| 0 <= i < |h| && h[i] == last
             && (forall j | 0 <= j < |h| :: h[j].time <= last.time)
             && (forall j | 0 <= j < i :: h[j].time < last.time);
    assert g[i] == last;
  }

  /** At most three results are kept. */
  lemma AtMostThree(h: seq<ScanResult>)
    ensures |LastPerCondition(h, 0)| <= 3
  {
    KindsLeft(h, 0);
  }

  /** The conditions that still occur from the i-th result on. */
  function Kinds(h: seq<ScanResult>, i: nat): set<Condition>
    requires i <= |h|
  {
    set j | i <= j < |h| :: h[j].condition
  }

  lemma {:induction false} KindsLeft(h: seq<ScanResult>, i: nat)
    requires i <= |h|
    ensures |LastPerCondition(h, i)| == |Kinds(h, i)| <= 3
    decreases |h| - i
  {
    forall c | c in Kinds(h, i)
      ensures c in {Succeeded, Failed, Errored}
    {
      assert c.Succeeded? || c.Failed? || c.Errored?;
    }
    SubsetCount(Kinds(h, i), {Succeeded, Failed, Errored});
    if i < |h| {
      KindsLeft(h, i + 1);
      assert Kinds(h, i) == Kinds(h, i + 1) + {h[i].condition};
      assert LastOfItsKind(h, i) <==> h[i].condition !in Kinds(h, i + 1);
      if !LastOfItsKind(h, i) {
        assert Kinds(h, i) == Kinds(h, i + 1);
      }
    } else {
      assert Kinds(h, i) == {};
    }
  }

  lemma {:induction false} OthersOfOthers(a: seq<ScanResult>, c: Condition)
    requires forall r | r in a :: r.condition != c
    ensures OfOtherConditions(a, c) == a
  {
    if a != [] {
      assert forall r | r in a[1..] :: r in a;
      OthersOfOthers(a[1..], c);
    }
  }

  ghost predicate NoneNewer(st: Status)
  {
    forall r | r in st.results :: r.time <= st.last.time
  }

  lemma {:induction false} LatestIsNewest(last: ScanResult, results: seq<ScanResult>, c: Condition)
    ensures last.time <= LatestOf(last, results, c).time
    ensures forall x | x in results && x.condition != c :: x.time <= LatestOf(last, results, c).time
    ensures LatestOf(last, results, c) == last || LatestOf(last, results, c) in results
  {
    if results != [] {
      var before := results[..|results| - 1];
      assert results == before + [results[|results| - 1]];
      LatestIsNewest(last, before, c);
    }
  }

  /** Whatever status object is found, even one whose last result is not the newest: afterwards it is,
      and it is one of those that were there or the new one. */
  lemma UpdateRestoresLast(st: Status, r: ScanResult)
    ensures NoneNewer(Updated(st, r))
    ensures Updated(st, r).last in st.results + [st.last, r]
  {
    LatestIsNewest(st.last, st.results, r.condition);
  }

  lemma UpdatedNoneNewer(st: Status, r: ScanResult)
    requires NoneNewer(st)
    ensures Previous(st, r) == st && NoneNewer(Updated(st, r))
  {
    LatestIsLast(st.last, st.results, r.condition);
  }

  lemma KeptTwice(results: seq<ScanResult>, r: ScanResult)
    ensures var kept := OfOtherConditions(results, r.condition); OfOtherConditions(kept + [r], r.condition) == kept
  {
    var kept := OfOtherConditions(results, r.condition);
    OthersAppend(kept, [r], r.condition);
    OthersOfOthers(kept, r.condition);
    assert [r][1..] == [];
    assert OfOtherConditions([r], r.condition) == [];
  }

  lemma UpdatedTwice(st: Status, r: ScanResult)
    requires NoneNewer(st)
    ensures Updated(Updated(st, r), r) == Updated(st, r)
    ensures Previous(Updated(st, r), r) == Updated(st, r)
  {
    hide NoneNewer, OfOtherConditions;
    UpdatedNoneNewer(st, r);
    UpdatedNoneNewer(Updated(st, r), r);
    KeptTwice(st.results, r);
  }

  lemma CreatedTwice(r: ScanResult)
    ensures Updated(Status([r], r), r) == Status([r], r)
  {
    KeptTwice([], r);
    assert [] + [r] == [r];
    LatestIsLast(r, [r], r.condition);
  }

  lemma StatusAfter(rec: Record, r: ScanResult)
    ensures Apply(rec, r).status ==
            Some(if rec.status.None? then Status([r], r) else Updated(rec.status.value, r))
  {
  }

  /** Handling the same log again, as after a failed delete, changes neither field. */
  lemma ReplayChangesNothing(gauge: Option<int>, h: seq<ScanResult>)
    requires h != []
    ensures var rec := After(Record(None, gauge, []), h);
            Apply(rec, h[|h| - 1]).status == rec.status
  {
    hide Updated, Apply, LastPerCondition, EarliestOfLatest;
    var before, r := h[..|h| - 1], h[|h| - 1];
    StatusAfter(After(Record(None, gauge, []), before), r);
    StatusAfter(After(Record(None, gauge, []), h), r);
    if before == [] {
      CreatedTwice(r);
    } else {
      StatusOfHistory(gauge, before);
      UpdatedTwice(After(Record(None, gauge, []), before).status.value, r);
    }
  }

  // ---------- the gauge and the events over runs of the operator ----------

  /** A handled result, a restart of the operator that resets the gauges, a crash between the
      write of the status and the metrics, the deletion of the status object, or an update for
      another FileIntegrity that scans the node, given by the last result it ends with. */
  datatype Op = Handle(r: ScanResult) | Restart | CrashAfterWrite(r: ScanResult) | Delete | Other(last: ScanResult)

  function Do(rec: Record, op: Op): Record
  {
    match op
    case Handle(r) => Apply(rec, r)
    case Restart => rec.(gauge := None)
    case CrashAfterWrite(r) => rec.(status := Apply(rec, r).status, gauge := None)
    case Delete => rec.(status := None)
    case Other(last) => rec.(gauge := Some(GaugeRead(GaugeSet(rec.gauge, last))))
  }

  /** That is what an update for another FileIntegrity does to the gauge both share. */
  lemma OtherIsAnUpdate(gauge: Option<int>, status: Option<Status>, events: seq<Event>, r: ScanResult)
    requires gauge.Some? ==> gauge.value == 0 || gauge.value == 1
    ensures var u := Apply(Record(status, gauge, events), r);
            && u.status.Some?
            && GaugeRead(u.gauge) == GaugeRead(GaugeSet(gauge, u.status.value.last))
  {
  }

  function RunOps(rec: Record, ops: seq<Op>): Record
    decreases |ops|
  {
    if ops == [] then rec else RunOps(Do(rec, ops[0]), ops[1..])
  }

  predicate GaugeValid(rec: Record)
  {
    rec.gauge.Some? ==> rec.gauge.value == 0 || rec.gauge.value == 1
  }

  lemma {:induction false} GaugeStaysValid(rec: Record, ops: seq<Op>)
    requires GaugeValid(rec)
    ensures GaugeValid(RunOps(rec, ops))
    decreases |ops|
  {
    if ops != [] {
      GaugeStaysValid(Do(rec, ops[0]), ops[1..]);
    }
  }

  /** In every run, restarts, crashes and deletions included, a handled result leaves the gauge
      at 1 if the last result is Failed and at 0 if it is Succeeded. */
  lemma GaugeShowsLastResult(rec: Record, ops: seq<Op>, r: ScanResult)
    requires GaugeValid(rec)
    ensures var u := Apply(RunOps(rec, ops), r);
            && u.status.Some?
            && (u.status.value.last.condition.Failed? ==> u.gauge == Some(1))
            && (u.status.value.last.condition.Succeeded? ==> u.gauge == Some(0))
  {
    GaugeStaysValid(rec, ops);
  }

  /** Handling a log, in any state the operator gets to: its result comes last among the results,
      becomes the last result unless one not older is recorded, and then an error leaves the gauge
      as it is read, a log with content sets it to 1 and an empty one to 0. */
  lemma HandledLog(rec: Record, m: LogMap)
    requires GaugeValid(rec) && (rec.status.Some? ==> NoneNewer(rec.status.value))
    ensures var u := Apply(rec, ResultOf(m));
            && u.status.Some? && u.status.value.results != []
            && Reads(m, u.status.value.results[|u.status.value.results| - 1])
            && if rec.status.Some? && m.time <= rec.status.value.last.time
               then u.status.value.last == rec.status.value.last
               else
                 && Reads(m, u.status.value.last)
                 && GaugeRead(u.gauge) ==
                    if m.error.Some? then GaugeRead(rec.gauge) else if m.content != [] then 1 else 0
  {
    if rec.status.Some? {
      UpdatedNoneNewer(rec.status.value, ResultOf(m));
    }
  }

  /** With a gauge that shows the last result, an update emits an event exactly when it changes the
      condition of the last result or the counts of a failure, and then about the new last result. */
  lemma EventOnChange(rec: Record, r: ScanResult)
    requires rec.status.Some? && NoneNewer(rec.status.value) && GaugeValid(rec) && GaugeShows(rec)
    ensures var u, last, next := Apply(rec, r), rec.status.value.last, NextLast(rec, r);
            var changed :=
              || next.condition != last.condition
              || (next.condition.Failed? &&
                  (next.added != last.added || next.changed != last.changed || next.removed != last.removed));
            u.events == if changed
                        then rec.events + [Event(next.condition, next.added, next.changed, next.removed)]
                        else rec.events
  {
    UpdatedNoneNewer(rec.status.value, r);
  }

  /** The condition of the latest result that is not Errored. */
  function LatestVerdict(h: seq<ScanResult>): Option<Condition>
  {
    if h == [] then None
    else if !h[|h| - 1].condition.Errored? then Some(h[|h| - 1].condition)
    else LatestVerdict(h[..|h| - 1])
  }

  ghost predicate Increasing(h: seq<ScanResult>)
  {
    forall i, j | 0 <= i < j < |h| :: h[i].time < h[j].time
  }

  lemma IncreasingLast(gauge: Option<int>, h: seq<ScanResult>)
    requires h != [] && Increasing(h)
    ensures After(Record(None, gauge, []), h).status.Some?
    ensures After(Record(None, gauge, []), h).status.value.last == h[|h| - 1]
  {
    StatusOfHistory(gauge, h);
  }

  /** Without restarts and with increasing times, the gauge is 1 exactly when the latest result
      that is not Errored is Failed. */
  lemma {:induction false} GaugeShowsLatestVerdict(h: seq<ScanResult>)
    requires Increasing(h)
    ensures After(Record(None, None, []), h).gauge == Some(1) <==> LatestVerdict(h) == Some(Failed)
    ensures GaugeValid(After(Record(None, None, []), h))
  {
    if h != [] {
      var before := h[..|h| - 1];
      assert Increasing(before);
      GaugeShowsLatestVerdict(before);
      IncreasingLast(None, h);
    }
  }

  /** The gauge agrees with the last result: 1 for Failed, 0 for Succeeded, no claim for Errored. */
  predicate GaugeShows(rec: Record)
  {
    rec.status.Some? ==>
      && (rec.status.value.last.condition.Failed? ==> GaugeRead(rec.gauge) == 1)
      && (rec.status.value.last.condition.Succeeded? ==> GaugeRead(rec.gauge) == 0)
  }

  /** The last result once `r` is recorded. */
  function NextLast(rec: Record, r: ScanResult): ScanResult
  {
    if rec.status.None? || IsLatest(r, rec.status.value.last) then r else rec.status.value.last
  }

  /** Exactly when the gauge shows the last result after an operation. The gauge is keyed by node
      only, so an update for another FileIntegrity with the opposite verdict hides this one's. */
  lemma GaugeShowsIff(rec: Record, op: Op)
    requires GaugeValid(rec) && (rec.status.Some? ==> NoneNewer(rec.status.value))
    ensures GaugeShows(Do(rec, op)) <==>
            match op
            case Handle(_) | Delete => true
            case Restart => rec.status.Some? ==> !rec.status.value.last.condition.Failed?
            case CrashAfterWrite(r) => !NextLast(rec, r).condition.Failed?
            case Other(last) =>
              rec.status.None? || rec.status.value.last.condition.Errored? ||
              (if last.condition.Errored? then GaugeShows(rec) else last.condition == rec.status.value.last.condition)
  {
    if rec.status.Some? && op.CrashAfterWrite? {
      UpdatedNoneNewer(rec.status.value, op.r);
    }
  }

  /** The failing input: a success reported for another FileIntegrity on the node clears the gauge
      although the last result here is Failed. */
  lemma OtherVerdictHidesFailure(bad: ScanResult, good: ScanResult)
    requires bad.condition.Failed? && good.condition.Succeeded?
    ensures var rec := Apply(Record(None, None, []), bad);
            GaugeShows(rec) && !GaugeShows(Do(rec, Other(good)))
  {
  }

  /** The event says what the last result says. */
  predicate Matches(e: Event, last: ScanResult)
  {
    && e.condition == last.condition
    && (last.condition.Failed? ==> e.added == last.added && e.changed == last.changed && e.removed == last.removed)
  }

  /** The last event emitted matches the last result stored. */
  ghost predicate EventsCurrent(rec: Record)
  {
    rec.status.Some? ==>
      && NoneNewer(rec.status.value)
      && rec.events != [] && Matches(rec.events[|rec.events| - 1], rec.status.value.last)
  }

  /** In every run without a crash between write and metrics, the most recent event carries the
      condition of the current last result and, when Failed, its three counts, although events
      are emitted on some updates only. */
  lemma {:induction false} LastEventIsCurrent(rec: Record, ops: seq<Op>)
    requires EventsCurrent(rec)
    requires forall op | op in ops :: !op.CrashAfterWrite?
    ensures EventsCurrent(RunOps(rec, ops))
    decreases |ops|
  {
    if ops != [] {
      assert ops[0] in ops;
      if ops[0].Handle? && rec.status.Some? {
        UpdatedNoneNewer(rec.status.value, ops[0].r);
      }
      assert forall op | op in ops[1..] :: op in ops;
      LastEventIsCurrent(Do(rec, ops[0]), ops[1..]);
    }
  }

  lemma HandleAgain(cur: Status, events: seq<Event>, r: ScanResult)
    requires Updated(cur, r) == cur && Previous(cur, r) == cur
    ensures Apply(Record(Some(cur), None, events), r) ==
            if cur.last.condition.Failed? then Record(Some(cur), Some(1), events + [EventOf(cur.last)])
            else Record(Some(cur), Some(0), events)
  {
  }

  /** After such a crash the result is handled again; the last event is then current exactly when
      the result then last is Failed, or has the condition of the last event before the crash. In
      particular the first result of a node is lost to the events unless it is Failed. */
  lemma EventAfterCrash(rec: Record, r: ScanResult)
    requires EventsCurrent(rec)
    ensures EventsCurrent(Apply(Do(rec, CrashAfterWrite(r)), r)) <==>
            || NextLast(rec, r).condition.Failed?
            || (rec.events != [] && rec.events[|rec.events| - 1].condition == NextLast(rec, r).condition)
  {
    if rec.status.Some? {
      EventAfterUpdateCrash(rec, r);
    } else {
      CreatedTwice(r);
      var cur := Status([r], r);
      assert Do(rec, CrashAfterWrite(r)) == Record(Some(cur), None, rec.events);
      LatestIsLast(r, [r], r.condition);
      HandleAgain(cur, rec.events, r);
    }
  }

  /** For an update, the condition before the crash is that of the last result before it. */
  lemma EventAfterUpdateCrash(rec: Record, r: ScanResult)
    requires EventsCurrent(rec) && rec.status.Some?
    ensures var last := NextLast(rec, r).condition;
            && rec.events != []
            && rec.events[|rec.events| - 1].condition == rec.status.value.last.condition
            && (EventsCurrent(Apply(Do(rec, CrashAfterWrite(r)), r)) <==>
                last.Failed? || last == rec.status.value.last.condition)
  {
    hide Previous, Apply, Do;
    var st := rec.status.value;
    UpdatedNoneNewer(st, r);
    UpdatedTwice(st, r);
    HandleAgain(Updated(st, r), rec.events, r);
    CrashKeepsEvents(rec, r);
    LastOfUpdated(st, r);
  }

  lemma LastOfUpdated(st: Status, r: ScanResult)
    requires NoneNewer(st)
    ensures Updated(st, r).last == if IsLatest(r, st.last) then r else st.last
  {
    UpdatedNoneNewer(st, r);
  }

  /** The failing inputs: a newer success after a failure, and a first success. */
  lemma CrashHidesSuccess(bad: ScanResult, good: ScanResult)
    requires bad.condition.Failed? && good.condition.Succeeded? && good.time > bad.time
    ensures var rec := Apply(Record(None, None, []), bad);
            && EventsCurrent(rec)
            && !EventsCurrent(Apply(Do(rec, CrashAfterWrite(good)), good))
    ensures Apply(Do(Record(None, None, []), CrashAfterWrite(good)), good).events == []
  {
    var rec := Apply(Record(None, None, []), bad);
    EventAfterCrash(rec, good);
    CreatedTwice(good);
    LatestIsLast(good, [good], good.condition);
    HandleAgain(Status([good], good), [], good);
  }

  lemma CrashKeepsEvents(rec: Record, r: ScanResult)
    requires rec.status.Some?
    ensures Do(rec, CrashAfterWrite(r)) == Record(Some(Updated(rec.status.value, r)), None, rec.events)
  {
  }
}
