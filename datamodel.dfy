/** The trajectory model the importer writes into, seen only through the calls the
    importer makes on it (its own classes are not part of this model). The model
    records those calls in order; `Replay` reads such a log back as the trajectories
    it builds. */
module DataModel {
  import opened Wrappers
  import opened Cells
  import opened Records

  /** A point added to a trajectory at an instant. */
  datatype Sample = Sample(point: Point, time: Instant)

  /** One call of the importer on the trajectory model, its factory or a trajectory. */
  datatype Call =
    | NewMovingObject(id: string)
    | NewTrajectory(tid: string, owner: string)
    | AddPoint(tid: string, sample: Sample)
    | GetTrajectory(tid: string)
    | AddTrajectory(tid: string)

  class TrajectoryModel {
    /** What getMovingObjectCount reports after a given history of calls. How the
        model keeps its count is not part of this model: any function of the calls
        received so far will do, including one that never changes. */
    const countAfter: seq<Call> -> nat
    /** Every call received, oldest first. */
    var log: seq<Call>

    constructor (countAfter: seq<Call> -> nat)
      ensures this.countAfter == countAfter && log == []
    {
      this.countAfter := countAfter;
      log := [];
    }

    /** getMovingObjectCount(): the count after the calls received so far; asking
        changes nothing. */
    method GetMovingObjectCount() returns (n: nat)
      ensures n == countAfter(log)
    {
      n := countAfter(log);
    }

    /** factory().newMovingObject(id) */
    method NewMovingObject(id: string)
      modifies this
      ensures log == old(log) + [Call.NewMovingObject(id)]
    {
      log := log + [Call.NewMovingObject(id)];
    }

    /** factory().newTrajectory(tid, movingObject) */
    method NewTrajectory(tid: string, owner: string)
      modifies this
      ensures log == old(log) + [Call.NewTrajectory(tid, owner)]
    {
      log := log + [Call.NewTrajectory(tid, owner)];
    }

    /** trajectory.addPoint(point, datetime) */
    method AddPoint(tid: string, point: Point, time: Instant)
      modifies this
      ensures log == old(log) + [Call.AddPoint(tid, Sample(point, time))]
    {
      log := log + [Call.AddPoint(tid, Sample(point, time))];
    }

    /** getTrajectory(tid) */
    method GetTrajectory(tid: string)
      modifies this
      ensures log == old(log) + [Call.GetTrajectory(tid)]
    {
      log := log + [Call.GetTrajectory(tid)];
    }

    /** addTrajectory(trajectory) */
    method AddTrajectory(tid: string)
      modifies this
      ensures log == old(log) + [Call.AddTrajectory(tid)]
    {
      log := log + [Call.AddTrajectory(tid)];
    }
  }

  /** A trajectory as a log builds it: its id, its moving object, its points in
      order, and whether it was committed with addTrajectory. */
  datatype Trace = Trace(tid: string, owner: string, samples: seq<Sample>, committed: bool)

  /** Applies one call. A point, a lookup or a commit must address the most recently
      created trajectory; a lookup must find it committed, and a commit must find it
      not yet committed. A call that breaks this discipline gives None. */
  function Step(traces: Option<seq<Trace>>, c: Call): Option<seq<Trace>>
  {
    match traces
    case None => None
    case Some(ts) =>
      match c
      case NewMovingObject(_) => traces
      case NewTrajectory(tid, owner) => Some(ts + [Trace(tid, owner, [], false)])
      case AddPoint(tid, sample) =>
        if |ts| > 0 && ts[|ts| - 1].tid == tid
        then Some(ts[..|ts| - 1] + [ts[|ts| - 1].(samples := ts[|ts| - 1].samples + [sample])])
        else None
      case GetTrajectory(tid) =>
        if |ts| > 0 && ts[|ts| - 1].tid == tid && ts[|ts| - 1].committed then traces else None
      case AddTrajectory(tid) =>
        if |ts| > 0 && ts[|ts| - 1].tid == tid && !ts[|ts| - 1].committed
        then Some(ts[..|ts| - 1] + [ts[|ts| - 1].(committed := true)])
        else None
  }

  /** Applies a log of calls, oldest first. */
  function Replay(start: Option<seq<Trace>>, log: seq<Call>): Option<seq<Trace>>
    decreases |log|
  {
    if |log| == 0 then start else Replay(Step(start, log[0]), log[1..])
  }

  lemma {:induction false} ReplayAppend(start: Option<seq<Trace>>, a: seq<Call>, b: seq<Call>)
    ensures Replay(start, a + b) == Replay(Replay(start, a), b)
    decreases |a|
  {
    if |a| > 0 {
      assert (a + b)[0] == a[0] && (a + b)[1..] == a[1..] + b;
      ReplayAppend(Step(start, a[0]), a[1..], b);
    } else {
      assert a + b == b;
    }
  }
}
