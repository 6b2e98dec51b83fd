/** Trajectory grouping: reading the rows of one file in order and the calls the two
    reading modes make on the trajectory model. Without a userid column every row
    goes to one trajectory committed after the last row; with one, a row either
    extends the open trajectory (same id as the previous row, ignoring case) or
    starts and at once commits a new trajectory `{userid}_0`. The lemmas replay the
    calls and show which trajectories come out. */
module Grouping {
  import opened Wrappers
  import opened ImportErrors
  import opened Text
  import opened Cells
  import opened Schema
  import opened Records
  import opened DataModel

  /** The rows read from one file before it ends or a row fails, and that failure. */
  datatype Reading = Reading(fixes: seq<Fix>, error: Option<ImportError>)

  /** Reads rows in order; the first row that fails to decode stops the reading. */
  function ReadRows(s: Schema, rows: seq<seq<string>>, parsers: Parsers, withUserId: bool): Reading
    requires WellFormed(s)
  {
    if |rows| == 0 then Reading([], None)
    else
      var n := |rows| - 1;
      var prefix := ReadRows(s, rows[..n], parsers, withUserId);
      if prefix.error.Some? then prefix
      else match RowToFix(s, rows[n], parsers, withUserId)
        case Failure(e) => Reading(prefix.fixes, Some(e))
        case Success(f) => Reading(prefix.fixes + [f], None)
  }

  /** The rows read are exactly the rows before the first failing one, each read as
      its own fix; the error is that row's, and there is none when every row reads. */
  lemma {:induction false} ReadRowsSpec(s: Schema, rows: seq<seq<string>>, parsers: Parsers, withUserId: bool)
    requires WellFormed(s)
    ensures var r := ReadRows(s, rows, parsers, withUserId);
      && |r.fixes| <= |rows|
      && (r.error.None? ==> |r.fixes| == |rows|)
      && (forall i :: 0 <= i < |r.fixes| ==> RowToFix(s, rows[i], parsers, withUserId) == Success(r.fixes[i]))
      && (r.error.Some? ==> |r.fixes| < |rows| && RowToFix(s, rows[|r.fixes|], parsers, withUserId) == Failure(r.error.value))
  {
    if |rows| > 0 {
      var n := |rows| - 1;
      ReadRowsSpec(s, rows[..n], parsers, withUserId);
    }
  }

  /** In userid mode every fix read carries a non-empty id. */
  lemma ReadRowsUserIds(s: Schema, rows: seq<seq<string>>, parsers: Parsers)
    requires WellFormed(s)
    ensures var fixes := ReadRows(s, rows, parsers, true).fixes;
      forall i :: 0 <= i < |fixes| ==> fixes[i].userid != ""
  {
    ReadRowsSpec(s, rows, parsers, true);
    var fixes := ReadRows(s, rows, parsers, true).fixes;
    forall i | 0 <= i < |fixes|
      ensures fixes[i].userid != ""
    {
      RowToFixSpec(s, rows[i], parsers, true);
    }
  }

  /** Once a row fails, later rows are never read: the reading of the whole list is
      the reading up to and including the failing row. */
  lemma {:induction false} ReadRowsStopsAtFailure(s: Schema, rows: seq<seq<string>>, j: nat, parsers: Parsers, withUserId: bool)
    requires WellFormed(s) && j <= |rows|
    requires ReadRows(s, rows[..j], parsers, withUserId).error.Some?
    ensures ReadRows(s, rows, parsers, withUserId) == ReadRows(s, rows[..j], parsers, withUserId)
    decreases |rows| - j
  {
    if j < |rows| {
      var n := |rows| - 1;
      assert rows[..n][..j] == rows[..j];
      ReadRowsStopsAtFailure(s, rows[..n], j, parsers, withUserId);
    } else {
      assert rows[..j] == rows;
    }
  }

  /** Reading one more row after a prefix that read `fixes` without failure: a
      failing row ends the reading of the whole list with its error, a row that
      reads is appended. */
  lemma ReadRowsStep(s: Schema, rows: seq<seq<string>>, i: nat, parsers: Parsers, withUserId: bool, fixes: seq<Fix>)
    requires WellFormed(s) && i < |rows|
    requires ReadRows(s, rows[..i], parsers, withUserId) == Reading(fixes, None)
    ensures var r := RowToFix(s, rows[i], parsers, withUserId);
      && (r.Failure? ==> ReadRows(s, rows, parsers, withUserId) == Reading(fixes, Some(r.error)))
      && (r.Success? ==> ReadRows(s, rows[..i + 1], parsers, withUserId) == Reading(fixes + [r.value], None))
  {
    assert rows[..i + 1][..i] == rows[..i];
    if RowToFix(s, rows[i], parsers, withUserId).Failure? {
      ReadRowsStopsAtFailure(s, rows, i + 1, parsers, withUserId);
    }
  }

  /** The point and instant a row contributes. */
  function SampleOf(f: Fix): Sample
  {
    Sample(f.point, f.time)
  }

  function Samples(fixes: seq<Fix>): (r: seq<Sample>)
  {
    seq(|fixes|, i requires 0 <= i < |fixes| => SampleOf(fixes[i]))
  }

  /** One addPoint call per row, in row order, on trajectory `tid`. */
  function PointCalls(tid: string, fixes: seq<Fix>): seq<Call>
  {
    seq(|fixes|, i requires 0 <= i < |fixes| => Call.AddPoint(tid, SampleOf(fixes[i])))
  }

  lemma PointCallsSnoc(tid: string, fixes: seq<Fix>, f: Fix)
    ensures PointCalls(tid, fixes + [f]) == PointCalls(tid, fixes) + [Call.AddPoint(tid, SampleOf(f))]
  {
  }

  /** The id the model's moving-object count gives a file without a userid column. */
  function FileTrajectoryId(count: nat): string
  {
    NatToString(count) + "_0"
  }

  /** The calls of reading without a userid column: one moving object and one
      trajectory `{count}_0` before the rows, a point per row read, and the commit
      after the last row unless a row failed. */
  function NoUserIdCalls(count: nat, reading: Reading): seq<Call>
  {
    var id := NatToString(count);
    var tid := FileTrajectoryId(count);
    [Call.NewMovingObject(id), Call.NewTrajectory(tid, id)]
    + PointCalls(tid, reading.fixes)
    + (if reading.error.None? then [Call.AddTrajectory(tid)] else [])
  }

  /** The loop variables previous_userid and current_trajectory. */
  datatype GroupingState = GroupingState(previousUserId: string, currentTrajectory: string)

  /** The calls reading one row in userid mode makes from state `st`. */
  function RowCalls(st: GroupingState, f: Fix): seq<Call>
  {
    if EqualsIgnoreCase(st.previousUserId, f.userid) then
      [Call.GetTrajectory(st.currentTrajectory), Call.AddPoint(st.currentTrajectory, SampleOf(f))]
    else
      var tid := f.userid + "_0";
      [Call.NewMovingObject(f.userid), Call.NewTrajectory(tid, f.userid), Call.AddPoint(tid, SampleOf(f)), Call.AddTrajectory(tid)]
  }

  /** The state after `fixes`, starting from two empty strings. */
  function UserIdState(fixes: seq<Fix>): GroupingState
  {
    if |fixes| == 0 then GroupingState("", "")
    else
      var n := |fixes| - 1;
      var st := UserIdState(fixes[..n]);
      var userid := fixes[n].userid;
      GroupingState(userid, if EqualsIgnoreCase(st.previousUserId, userid) then st.currentTrajectory else userid + "_0")
  }

  /** The calls of reading `fixes` in userid mode. */
  function UserIdCalls(fixes: seq<Fix>): seq<Call>
  {
    if |fixes| == 0 then []
    else
      var n := |fixes| - 1;
      UserIdCalls(fixes[..n]) + RowCalls(UserIdState(fixes[..n]), fixes[n])
  }

  /** Reading one more fix in userid mode: its calls follow the earlier ones, and
      the state moves to its id and, for a new id, to its trajectory `{userid}_0`. */
  lemma UserIdStep(fixes: seq<Fix>, x: Fix)
    ensures UserIdCalls(fixes + [x]) == UserIdCalls(fixes) + RowCalls(UserIdState(fixes), x)
    ensures var st := UserIdState(fixes);
      UserIdState(fixes + [x]) == GroupingState(x.userid, if EqualsIgnoreCase(st.previousUserId, x.userid) then st.currentTrajectory else x.userid + "_0")
  {
    assert (fixes + [x])[..|fixes|] == fixes;
  }

  /** The previous id of the loop state is the last row's id, or empty before any row. */
  lemma UserIdPrevious(fixes: seq<Fix>)
    ensures UserIdState(fixes).previousUserId == if |fixes| == 0 then "" else fixes[|fixes| - 1].userid
  {
  }

  /** The maximal runs of consecutive rows whose ids are equal ignoring case. */
  function Runs(fixes: seq<Fix>): (runs: seq<seq<Fix>>)
    ensures |runs| <= |fixes|
    ensures |fixes| > 0 ==> |runs| > 0
    ensures forall k :: 0 <= k < |runs| ==> |runs[k]| > 0
  {
    if |fixes| == 0 then []
    else
      var n := |fixes| - 1;
      var runs := Runs(fixes[..n]);
      if n > 0 && EqualsIgnoreCase(fixes[n - 1].userid, fixes[n].userid)
      then runs[..|runs| - 1] + [runs[|runs| - 1] + [fixes[n]]]
      else runs + [[fixes[n]]]
  }

  function Flatten(runs: seq<seq<Fix>>): seq<Fix>
  {
    if |runs| == 0 then [] else Flatten(runs[..|runs| - 1]) + runs[|runs| - 1]
  }

  /** Inside every run, each id equals the one before it ignoring case. */
  predicate RunsAgreeInside(runs: seq<seq<Fix>>)
  {
    forall k, j :: 0 <= k < |runs| && 0 < j < |runs[k]| ==> EqualsIgnoreCase(runs[k][j - 1].userid, runs[k][j].userid)
  }

  /** Across every cut between two runs, the ids differ ignoring case. */
  predicate RunsDisagreeAcross(runs: seq<seq<Fix>>)
    requires forall k :: 0 <= k < |runs| ==> |runs[k]| > 0
  {
    forall k :: 0 < k < |runs| ==> !EqualsIgnoreCase(runs[k - 1][|runs[k - 1]| - 1].userid, runs[k][0].userid)
  }

  lemma FlattenLast(runs: seq<seq<Fix>>)
    requires |runs| > 0 && |runs[|runs| - 1]| > 0
    ensures |Flatten(runs)| > 0
    ensures Flatten(runs)[|Flatten(runs)| - 1] == runs[|runs| - 1][|runs[|runs| - 1]| - 1]
  {
  }

  /** Extending the last run by a row whose id agrees with the run's last id keeps
      the partition properties. */
  lemma ExtendLastRun(runs: seq<seq<Fix>>, x: Fix)
    requires |runs| > 0 && forall k :: 0 <= k < |runs| ==> |runs[k]| > 0
    requires RunsAgreeInside(runs) && RunsDisagreeAcross(runs)
    requires EqualsIgnoreCase(runs[|runs| - 1][|runs[|runs| - 1]| - 1].userid, x.userid)
    ensures var m := |runs| - 1;
      var runs': seq<seq<Fix>> := runs[..m] + [runs[m] + [x]];
      && Flatten(runs') == Flatten(runs) + [x]
      && RunsAgreeInside(runs') && RunsDisagreeAcross(runs')
  {
    var m := |runs| - 1;
    var last := runs[m];
    var runs': seq<seq<Fix>> := runs[..m] + [last + [x]];
    assert runs'[..m] == runs[..m] && runs[..m] + [last] == runs;
    assert Flatten(runs') == Flatten(runs[..m]) + (last + [x]);
    assert Flatten(runs) == Flatten(runs[..m]) + last;
    ExtendLastRunAgrees(runs, x);
    ExtendLastRunDisagrees(runs, x);
  }

  lemma ExtendLastRunAgrees(runs: seq<seq<Fix>>, x: Fix)
    requires |runs| > 0 && |runs[|runs| - 1]| > 0
    requires RunsAgreeInside(runs)
    requires EqualsIgnoreCase(runs[|runs| - 1][|runs[|runs| - 1]| - 1].userid, x.userid)
    ensures RunsAgreeInside(runs[..|runs| - 1] + [runs[|runs| - 1] + [x]])
  {
    var m := |runs| - 1;
    var last := runs[m];
    var runs': seq<seq<Fix>> := runs[..m] + [last + [x]];
    forall k, j | 0 <= k < |runs'| && 0 < j < |runs'[k]|
      ensures EqualsIgnoreCase(runs'[k][j - 1].userid, runs'[k][j].userid)
    {
      if k < m {
        assert runs'[k] == runs[k];
      } else if j < |last| {
        assert runs'[k][j - 1] == last[j - 1] && runs'[k][j] == last[j];
      }
    }
  }

  lemma ExtendLastRunDisagrees(runs: seq<seq<Fix>>, x: Fix)
    requires |runs| > 0 && forall k :: 0 <= k < |runs| ==> |runs[k]| > 0
    requires RunsDisagreeAcross(runs)
    ensures RunsDisagreeAcross(runs[..|runs| - 1] + [runs[|runs| - 1] + [x]])
  {
    var m := |runs| - 1;
    var runs': seq<seq<Fix>> := runs[..m] + [runs[m] + [x]];
    forall k | 0 < k < |runs'|
      ensures !EqualsIgnoreCase(runs'[k - 1][|runs'[k - 1]| - 1].userid, runs'[k][0].userid)
    {
      assert runs'[k - 1] == runs[k - 1];
      assert runs'[k][0] == runs[k][0];
    }
  }

  /** Starting a new run with a row whose id differs from the last run's last id
      keeps the partition properties. */
  lemma StartRun(runs: seq<seq<Fix>>, x: Fix)
    requires forall k :: 0 <= k < |runs| ==> |runs[k]| > 0
    requires RunsAgreeInside(runs) && RunsDisagreeAcross(runs)
    requires |runs| > 0 ==> !EqualsIgnoreCase(runs[|runs| - 1][|runs[|runs| - 1]| - 1].userid, x.userid)
    ensures var runs' := runs + [[x]];
      && Flatten(runs') == Flatten(runs) + [x]
      && RunsAgreeInside(runs') && RunsDisagreeAcross(runs')
  {
    var runs' := runs + [[x]];
    assert runs'[..|runs|] == runs;
    forall k, j | 0 <= k < |runs'| && 0 < j < |runs'[k]|
      ensures EqualsIgnoreCase(runs'[k][j - 1].userid, runs'[k][j].userid)
    {
      assert k < |runs| && runs'[k] == runs[k];
    }
    forall k | 0 < k < |runs'|
      ensures !EqualsIgnoreCase(runs'[k - 1][|runs'[k - 1]| - 1].userid, runs'[k][0].userid)
    {
      if k < |runs| {
        assert runs'[k - 1] == runs[k - 1] && runs'[k] == runs[k];
      }
    }
  }

  /** One more row either extends the last run, when its id equals the previous
      row's ignoring case, or starts a run of its own. */
  lemma RunsSnoc(init: seq<Fix>, x: Fix)
    ensures var runs := Runs(init);
      Runs(init + [x]) == if |init| > 0 && EqualsIgnoreCase(init[|init| - 1].userid, x.userid)
                          then runs[..|runs| - 1] + [runs[|runs| - 1] + [x]]
                          else runs + [[x]]
  {
    assert (init + [x])[..|init|] == init;
  }

  /** Runs cut the rows into non-empty consecutive pieces: inside a piece each id
      equals the one before it ignoring case, and across a cut it does not. */
  lemma {:induction false} RunsArePartition(fixes: seq<Fix>)
    ensures Flatten(Runs(fixes)) == fixes
    ensures RunsAgreeInside(Runs(fixes))
    ensures RunsDisagreeAcross(Runs(fixes))
  {
    if |fixes| > 0 {
      var n := |fixes| - 1;
      var init := fixes[..n];
      var x := fixes[n];
      assert fixes == init + [x];
      RunsArePartition(init);
      RunsSnoc(init, x);
      var runs := Runs(init);
      if n > 0 {
        FlattenLast(runs);
        var last := runs[|runs| - 1];
        assert last[|last| - 1] == init[n - 1];
        if EqualsIgnoreCase(init[n - 1].userid, x.userid) {
          ExtendLastRun(runs, x);
        } else {
          StartRun(runs, x);
        }
      } else {
        StartRun(runs, x);
      }
    } else {
      assert Runs(fixes) == [];
    }
  }

  /** The trajectory a run becomes: `{id of its first row}_0`, owned by that id,
      holding the run's points in order, committed. */
  function RunTrace(run: seq<Fix>): Trace
    requires |run| > 0
  {
    Trace(run[0].userid + "_0", run[0].userid, Samples(run), true)
  }

  function RunTraces(runs: seq<seq<Fix>>): seq<Trace>
    requires forall k :: 0 <= k < |runs| ==> |runs[k]| > 0
  {
    seq(|runs|, k requires 0 <= k < |runs| => RunTrace(runs[k]))
  }

  lemma ReplayNil(start: Option<seq<Trace>>)
    ensures Replay(start, []) == start
  {
  }

  lemma ReplayCons(start: Option<seq<Trace>>, c: Call, rest: seq<Call>)
    ensures Replay(start, [c] + rest) == Replay(Step(start, c), rest)
  {
    assert ([c] + rest)[1..] == rest;
  }

  lemma ReplayTwo(start: Option<seq<Trace>>, a: Call, b: Call)
    ensures Replay(start, [a, b]) == Step(Step(start, a), b)
  {
    ReplayCons(start, a, [b]);
    ReplayCons(Step(start, a), b, []);
    assert [a] + [b] == [a, b] && [b] + [] == [b];
  }

  lemma ReplayFour(start: Option<seq<Trace>>, a: Call, b: Call, c: Call, d: Call)
    ensures Replay(start, [a, b, c, d]) == Step(Step(Step(Step(start, a), b), c), d)
  {
    ReplayAppend(start, [a, b], [c, d]);
    ReplayTwo(start, a, b);
    ReplayTwo(Step(Step(start, a), b), c, d);
    assert [a, b] + [c, d] == [a, b, c, d];
  }

  lemma {:induction false} ReplayPointCalls(ts: seq<Trace>, t: Trace, fixes: seq<Fix>)
    ensures Replay(Some(ts + [t]), PointCalls(t.tid, fixes)) == Some(ts + [t.(samples := t.samples + Samples(fixes))])
  {
    if |fixes| == 0 {
      assert PointCalls(t.tid, fixes) == [];
      ReplayNil(Some(ts + [t]));
      assert t.samples + Samples(fixes) == t.samples;
      assert t.(samples := t.samples) == t;
    } else {
      var n := |fixes| - 1;
      var c := Call.AddPoint(t.tid, SampleOf(fixes[n]));
      ReplayPointCalls(ts, t, fixes[..n]);
      assert PointCalls(t.tid, fixes) == PointCalls(t.tid, fixes[..n]) + [c];
      ReplayAppend(Some(ts + [t]), PointCalls(t.tid, fixes[..n]), [c]);
      var t' := t.(samples := t.samples + Samples(fixes[..n]));
      ReplayCons(Some(ts + [t']), c, []);
      assert [c] + [] == [c];
      ReplayNil(Step(Some(ts + [t']), c));
      assert (ts + [t'])[..|ts|] == ts;
      assert Step(Some(ts + [t']), c) == Some(ts + [t'.(samples := t'.samples + [SampleOf(fixes[n])])]);
      assert Samples(fixes) == Samples(fixes[..n]) + [SampleOf(fixes[n])];
      assert t'.samples + [SampleOf(fixes[n])] == t.samples + Samples(fixes);
    }
  }

  /** Without a userid column, the calls build exactly one trajectory `{count}_0`
      owned by moving object `{count}`, holding every row read in order; it is
      committed once, even for a file with no rows, unless a row failed. */
  lemma NoUserIdOneTrajectory(count: nat, reading: Reading)
    ensures Replay(Some([]), NoUserIdCalls(count, reading))
      == Some([Trace(FileTrajectoryId(count), NatToString(count), Samples(reading.fixes), reading.error.None?)])
  {
    var id := NatToString(count);
    var tid := FileTrajectoryId(count);
    var opening := [Call.NewMovingObject(id), Call.NewTrajectory(tid, id)];
    var points := PointCalls(tid, reading.fixes);
    var closing := if reading.error.None? then [Call.AddTrajectory(tid)] else [];
    var t := Trace(tid, id, [], false);
    ReplayTwo(Some([]), Call.NewMovingObject(id), Call.NewTrajectory(tid, id));
    assert Step(Some([]), Call.NewMovingObject(id)) == Some([]);
    assert [] + [t] == [t];
    assert Replay(Some([]), opening) == Some([t]);
    ReplayAppend(Some([]), opening, points);
    ReplayPointCalls([], t, reading.fixes);
    var filled := t.(samples := Samples(reading.fixes));
    assert t.samples + Samples(reading.fixes) == Samples(reading.fixes);
    assert [] + [filled] == [filled];
    ReplayAppend(Some([]), opening + points, closing);
    if reading.error.None? {
      ReplayCons(Some([filled]), Call.AddTrajectory(tid), []);
      assert [Call.AddTrajectory(tid)] + [] == closing;
      assert [filled][..0] + [filled.(committed := true)] == [filled.(committed := true)];
    } else {
      ReplayNil(Some([filled]));
    }
  }

  /** A row with the previous row's id (ignoring case) looks up the open trajectory,
      which is the last run's, and adds its point there. */
  lemma ReplaySameUser(runs: seq<seq<Fix>>, x: Fix)
    requires |runs| > 0 && forall k :: 0 <= k < |runs| ==> |runs[k]| > 0
    ensures var m := |runs| - 1;
      var tid := RunTrace(runs[m]).tid;
      Replay(Some(RunTraces(runs)), [Call.GetTrajectory(tid), Call.AddPoint(tid, SampleOf(x))])
        == Some(RunTraces(runs[..m] + [runs[m] + [x]]))
  {
    var m := |runs| - 1;
    var last := runs[m];
    var traces := RunTraces(runs);
    var t := traces[m];
    ReplayTwo(Some(traces), Call.GetTrajectory(t.tid), Call.AddPoint(t.tid, SampleOf(x)));
    assert Samples(last + [x]) == Samples(last) + [SampleOf(x)];
    assert (last + [x])[0] == last[0];
    var runs': seq<seq<Fix>> := runs[..m] + [last + [x]];
    assert RunTraces(runs') == traces[..m] + [t.(samples := t.samples + [SampleOf(x)])];
  }

  /** A row with a different id creates, fills and commits a new trajectory. */
  lemma ReplayNewUser(runs: seq<seq<Fix>>, x: Fix)
    requires forall k :: 0 <= k < |runs| ==> |runs[k]| > 0
    ensures var tid := x.userid + "_0";
      Replay(Some(RunTraces(runs)), [Call.NewMovingObject(x.userid), Call.NewTrajectory(tid, x.userid),
                                     Call.AddPoint(tid, SampleOf(x)), Call.AddTrajectory(tid)])
        == Some(RunTraces(runs + [[x]]))
  {
    var tid := x.userid + "_0";
    var traces := RunTraces(runs);
    ReplayFour(Some(traces), Call.NewMovingObject(x.userid), Call.NewTrajectory(tid, x.userid),
               Call.AddPoint(tid, SampleOf(x)), Call.AddTrajectory(tid));
    var t := Trace(tid, x.userid, [], false);
    var s1 := Step(Some(traces), Call.NewMovingObject(x.userid));
    assert s1 == Some(traces);
    var s2 := Step(s1, Call.NewTrajectory(tid, x.userid));
    assert s2 == Some(traces + [t]);
    var t' := t.(samples := [SampleOf(x)]);
    assert (traces + [t])[..|traces|] == traces;
    assert [] + [SampleOf(x)] == [SampleOf(x)];
    var s3 := Step(s2, Call.AddPoint(tid, SampleOf(x)));
    assert s3 == Some(traces + [t']);
    assert (traces + [t'])[..|traces|] == traces;
    var s4 := Step(s3, Call.AddTrajectory(tid));
    assert s4 == Some(traces + [t'.(committed := true)]);
    assert Samples([x]) == [SampleOf(x)];
    assert RunTrace([x]) == t'.(committed := true);
    assert RunTraces(runs + [[x]]) == traces + [RunTrace([x])];
  }

  /** With a userid column the calls build one trajectory per maximal run, in order:
      each is `{first id of the run}_0`, holds the run's rows in order and is
      committed exactly once. The loop state afterwards is the last row's id and
      the last run's trajectory. (Decoded ids are never empty.) */
  lemma {:induction false} UserIdTrajectoriesAreRuns(fixes: seq<Fix>)
    requires forall i :: 0 <= i < |fixes| ==> fixes[i].userid != ""
    ensures Replay(Some([]), UserIdCalls(fixes)) == Some(RunTraces(Runs(fixes)))
    ensures |fixes| == 0 ==> UserIdState(fixes) == GroupingState("", "")
    ensures |fixes| > 0 ==>
      (UserIdState(fixes) == GroupingState(fixes[|fixes| - 1].userid, RunTrace(Runs(fixes)[|Runs(fixes)| - 1]).tid))
  {
    if |fixes| > 0 {
      var n := |fixes| - 1;
      var init := fixes[..n];
      var x := fixes[n];
      assert fixes == init + [x];
      UserIdTrajectoriesAreRuns(init);
      UserIdStep(init, x);
      RunsSnoc(init, x);
      UserIdPrevious(init);
      var st := UserIdState(init);
      var runs := Runs(init);
      ReplayAppend(Some([]), UserIdCalls(init), RowCalls(st, x));
      if EqualsIgnoreCase(st.previousUserId, x.userid) {
        ReplaySameUser(runs, x);
      } else {
        ReplayNewUser(runs, x);
      }
    } else {
      assert UserIdCalls(fixes) == [] && Runs(fixes) == [];
      assert RunTraces([]) == [];
    }
  }

  /** The number of addTrajectory calls in a log. */
  function Commits(calls: seq<Call>): nat
  {
    if |calls| == 0 then 0 else (if calls[0].AddTrajectory? then 1 else 0) + Commits(calls[1..])
  }

  lemma {:induction false} CommitsAppend(a: seq<Call>, b: seq<Call>)
    ensures Commits(a + b) == Commits(a) + Commits(b)
    decreases |a|
  {
    if |a| == 0 {
      assert a + b == b;
    } else {
      assert (a + b)[0] == a[0] && (a + b)[1..] == a[1..] + b;
      CommitsAppend(a[1..], b);
    }
  }

  lemma {:induction false} PointCallsCommitNothing(tid: string, fixes: seq<Fix>)
    ensures Commits(PointCalls(tid, fixes)) == 0
    decreases |fixes|
  {
    if |fixes| > 0 {
      assert PointCalls(tid, fixes)[1..] == PointCalls(tid, fixes[1..]);
      PointCallsCommitNothing(tid, fixes[1..]);
    }
  }

  /** Without a userid column the file's trajectory is committed exactly once when
      every row is read, and never when a row fails. */
  lemma NoUserIdCommitsOnce(count: nat, reading: Reading)
    ensures Commits(NoUserIdCalls(count, reading)) == if reading.error.None? then 1 else 0
  {
    var id := NatToString(count);
    var tid := FileTrajectoryId(count);
    var opening := [Call.NewMovingObject(id), Call.NewTrajectory(tid, id)];
    var closing := if reading.error.None? then [Call.AddTrajectory(tid)] else [];
    CommitsAppend(opening + PointCalls(tid, reading.fixes), closing);
    CommitsAppend(opening, PointCalls(tid, reading.fixes));
    PointCallsCommitNothing(tid, reading.fixes);
    assert opening[1..][1..] == [];
    assert Commits(opening) == 0;
    if reading.error.None? {
      assert closing[1..] == [];
    }
  }

  lemma RowCallsCommits(st: GroupingState, x: Fix)
    ensures Commits(RowCalls(st, x)) == if EqualsIgnoreCase(st.previousUserId, x.userid) then 0 else 1
  {
    var calls := RowCalls(st, x);
    if EqualsIgnoreCase(st.previousUserId, x.userid) {
      assert calls[1..][1..] == [];
      assert Commits(calls[1..]) == 0;
    } else {
      assert calls[1..][1..][1..][1..] == [];
      assert Commits(calls[1..][1..][1..]) == 1;
      assert Commits(calls[1..][1..]) == 1;
      assert Commits(calls[1..]) == 1;
    }
  }

  /** With a userid column there are exactly as many commits as maximal runs of
      ids equal ignoring case. */
  lemma {:induction false} UserIdCommitsOncePerRun(fixes: seq<Fix>)
    requires forall i :: 0 <= i < |fixes| ==> fixes[i].userid != ""
    ensures Commits(UserIdCalls(fixes)) == |Runs(fixes)|
  {
    if |fixes| > 0 {
      var n := |fixes| - 1;
      var init := fixes[..n];
      var x := fixes[n];
      assert fixes == init + [x];
      UserIdCommitsOncePerRun(init);
      UserIdStep(init, x);
      RunsSnoc(init, x);
      UserIdPrevious(init);
      var st := UserIdState(init);
      CommitsAppend(UserIdCalls(init), RowCalls(st, x));
      RowCallsCommits(st, x);
    } else {
      assert UserIdCalls(fixes) == [];
    }
  }

  lemma DistinctIds()
    ensures EqualsIgnoreCase("A", "A")
    ensures !EqualsIgnoreCase("A", "B") && !EqualsIgnoreCase("B", "A")
  {
    DifferIgnoringCaseAt("A", "B", 0);
    DifferIgnoringCaseAt("B", "A", 0);
  }

  /** The runs of the rows A, A, B, A, prefix by prefix. */
  lemma RunsOfExampleRows(a1: Fix, a2: Fix, b: Fix, a3: Fix)
    requires a1.userid == "A" && a2.userid == "A" && b.userid == "B" && a3.userid == "A"
    ensures Runs([a1, a2, b]) == [[a1, a2], [b]]
    ensures Runs([a1, a2, b, a3]) == [[a1, a2], [b], [a3]]
  {
    DistinctIds();
    assert [a1][..0] == [];
    assert Runs([a1]) == [[a1]];
    assert [a1, a2][..1] == [a1];
    assert EqualsIgnoreCase([a1, a2][0].userid, [a1, a2][1].userid);
    assert [a1] + [a2] == [a1, a2];
    assert [[a1]][..0] + [[a1, a2]] == [[a1, a2]];
    assert Runs([a1, a2]) == [[a1, a2]];
    assert [a1, a2, b][..2] == [a1, a2];
    assert !EqualsIgnoreCase([a1, a2, b][1].userid, [a1, a2, b][2].userid);
    assert Runs([a1, a2, b]) == [[a1, a2], [b]];
    assert [a1, a2, b, a3][..3] == [a1, a2, b];
    assert !EqualsIgnoreCase([a1, a2, b, a3][2].userid, [a1, a2, b, a3][3].userid);
  }

  /** Rows A, A, B give two trajectories: A_0 with two points, then B_0 with one. */
  lemma TwoUsersExample(a1: Fix, a2: Fix, b: Fix)
    requires a1.userid == "A" && a2.userid == "A" && b.userid == "B"
    ensures Replay(Some([]), UserIdCalls([a1, a2, b])) == Some([
      Trace("A_0", "A", [SampleOf(a1), SampleOf(a2)], true),
      Trace("B_0", "B", [SampleOf(b)], true)])
  {
    UserIdTrajectoriesAreRuns([a1, a2, b]);
    RunsOfExampleRows(a1, a2, b, a1);
    assert Samples([a1, a2]) == [SampleOf(a1), SampleOf(a2)];
    assert Samples([b]) == [SampleOf(b)];
    assert "A" + "_0" == "A_0" && "B" + "_0" == "B_0";
    assert RunTraces([[a1, a2], [b]]) == [RunTrace([a1, a2]), RunTrace([b])];
  }

  /** There is no id-to-trajectory index: rows A, A, B, A commit A_0 twice, the
      second holding only the last row. */
  lemma NonContiguousRepeatDuplicatesTrajectory(a1: Fix, a2: Fix, b: Fix, a3: Fix)
    requires a1.userid == "A" && a2.userid == "A" && b.userid == "B" && a3.userid == "A"
    ensures Replay(Some([]), UserIdCalls([a1, a2, b, a3])) == Some([
      Trace("A_0", "A", [SampleOf(a1), SampleOf(a2)], true),
      Trace("B_0", "B", [SampleOf(b)], true),
      Trace("A_0", "A", [SampleOf(a3)], true)])
  {
    UserIdTrajectoriesAreRuns([a1, a2, b, a3]);
    RunsOfExampleRows(a1, a2, b, a3);
    assert Samples([a1, a2]) == [SampleOf(a1), SampleOf(a2)];
    assert Samples([b]) == [SampleOf(b)];
    assert Samples([a3]) == [SampleOf(a3)];
    assert "A" + "_0" == "A_0" && "B" + "_0" == "B_0";
    assert RunTraces([[a1, a2], [b], [a3]]) == [RunTrace([a1, a2]), RunTrace([b]), RunTrace([a3])];
  }
}
