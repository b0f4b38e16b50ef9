/**
 * The single-flight link queue of db.js: the link table ordered by `nextRun`,
 * the module flag `runningJob`, and the steps that read and change them
 * (`checkQueue`, `executeQueueItem`, `moveItemToQueueFront`, `runLinkById`,
 * `runLinkByUrl`, `filterLinkOutput` and the start-time stagger of
 * `initQueue`).
 *
 * Time is integer milliseconds. The asynchronous scraping pipeline becomes
 * a start step (`Start`) and a completion step (`Succeed` or
 * `FailAsWritten`). The steps are pure functions on `QueueState`; the class
 * `Queue` holds the same state in fields and its methods are proved to
 * perform those steps.
 */
module LinkQueue {
  import opened Wrappers

  /** Spacing of the start times `initQueue` gives the links, and the period of the queue check. */
  const QueueCheckInterval: int := 30000
  /** `runPeriod` is in minutes. */
  const MinuteMs: int := 60000

  /** A row of the link table; `nextRun` is a nullable timestamp. */
  datatype Link = Link(id: int, url: string, runPeriod: int, nextRun: Option<int>)

  /** What `filterLinkOutput` hands back; `None` stands for `undefined`. */
  datatype LinkOutput = LinkOutput(id: Option<int>, url: Option<string>)

  /**
   * The link table, the `runningJob` flag (`None` for its falsy values) and
   * the link object the running pipeline holds, if a pipeline is running.
   */
  datatype QueueState = QueueState(links: seq<Link>, runningJob: Option<int>, inFlight: Option<Link>)

  /**
   * The flag names the link the pipeline runs for, and is never a falsy id;
   * a flag without a pipeline is possible (after a failure, see
   * `FailAsWritten`).
   */
  ghost predicate Inv(s: QueueState)
  {
    && (s.inFlight.Some? ==> s.runningJob == Some(s.inFlight.value.id))
    && (s.runningJob.Some? ==> s.runningJob.value != 0)
  }

  // ---------------------------------------------------------------------
  // Picking the earliest link
  // ---------------------------------------------------------------------

  /** `ORDER BY nextRun ASC` in SQLite: NULL sorts before every timestamp. */
  predicate RunsNoLaterThan(a: Option<int>, b: Option<int>)
  {
    a.None? || (b.Some? && a.value <= b.value)
  }

  /**
   * Row i is the one `findOne` with that ordering returns: no row runs
   * earlier, and rows tied with it come after it in table order.
   */
  predicate IsEarliest(links: seq<Link>, i: int)
  {
    && 0 <= i < |links|
    && (forall j | 0 <= j < |links| :: RunsNoLaterThan(links[i].nextRun, links[j].nextRun))
    && (forall j | 0 <= j < i :: !RunsNoLaterThan(links[j].nextRun, links[i].nextRun))
  }

  function EarliestIndex(links: seq<Link>): (r: Option<nat>)
    ensures r.None? <==> |links| == 0
    ensures r.Some? ==> IsEarliest(links, r.value)
  {
    if |links| == 0 then None
    else
      var init := links[..|links| - 1];
      var prev := EarliestIndex(init);
      if prev.None? then Some(0)
      else if RunsNoLaterThan(init[prev.value].nextRun, links[|links| - 1].nextRun) then
        assert forall j | 0 <= j < |init| :: links[j] == init[j];
        prev
      else
        assert forall j | 0 <= j < |init| :: links[j] == init[j];
        Some(|links| - 1)
  }

  /** At most one row is the earliest. */
  lemma EarliestUnique(links: seq<Link>, i: int, j: int)
    requires IsEarliest(links, i) && IsEarliest(links, j)
    ensures i == j
  {
    assert RunsNoLaterThan(links[i].nextRun, links[j].nextRun);
    assert RunsNoLaterThan(links[j].nextRun, links[i].nextRun);
  }

  // ---------------------------------------------------------------------
  // The due test of checkQueue
  // ---------------------------------------------------------------------

  /** The intended test of db.js:336: no start time yet, or one strictly in the past. */
  predicate Due(nextRun: Option<int>, now: int)
  {
    nextRun.None? || nextRun.value < now
  }

  /**
   * db.js:335-336 as written: the log line before the test already calls
   * `getTime` on `nextRun`, which throws for a NULL `nextRun`, so the
   * `!link.nextRun` half of the test is never reached.
   */
  function DecisionAsWritten(nextRun: Option<int>, now: int): (r: Result<bool, string>)
    ensures r.Failure? <==> nextRun.None?
    ensures nextRun.Some? ==> r == Success(Due(nextRun, now))
  {
    match nextRun
    case None => Failure("TypeError: Cannot read property 'getTime' of null")
    case Some(t) => Success(t < now)
  }

  /** The earliest link has no start time: as written, checkQueue throws where the intended test runs it. */
  lemma NullNextRunThrows(links: seq<Link>, now: int)
    requires |links| > 0 && exists k | 0 <= k < |links| :: links[k].nextRun.None?
    ensures var i := EarliestIndex(links).value;
            DecisionAsWritten(links[i].nextRun, now).Failure? && Due(links[i].nextRun, now)
  {
    var k :| 0 <= k < |links| && links[k].nextRun.None?;
    var i := EarliestIndex(links).value;
    assert RunsNoLaterThan(links[i].nextRun, links[k].nextRun);
  }

  // ---------------------------------------------------------------------
  // The steps
  // ---------------------------------------------------------------------

  /**
   * The start half of `executeQueueItem`: a missing link or one with a falsy
   * id is refused; otherwise the link starts unless a job is running. The
   * boolean says whether a pipeline was started.
   */
  function Start(s: QueueState, link: Option<Link>): (r: (QueueState, bool))
    ensures r.1 <==> link.Some? && link.value.id != 0 && s.runningJob.None?
    ensures r.1 ==> r.0 == s.(runningJob := Some(link.value.id), inFlight := link)
    ensures !r.1 ==> r.0 == s
  {
    if link.None? || link.value.id == 0 then (s, false)
    else if s.runningJob.None? then (s.(runningJob := Some(link.value.id), inFlight := link), true)
    else (s, false)
  }

  /**
   * `checkQueue` at time `now`: the earliest link is started when it is due;
   * an empty table or an earliest link not yet due changes nothing.
   */
  function Check(s: QueueState, now: int): (r: (QueueState, bool))
    ensures r.1 <==> s.runningJob.None? && exists i :: IsEarliest(s.links, i) && Due(s.links[i].nextRun, now) && s.links[i].id != 0
    ensures r.1 ==> exists i :: IsEarliest(s.links, i) && r.0 == s.(runningJob := Some(s.links[i].id), inFlight := Some(s.links[i]))
    ensures !r.1 ==> r.0 == s
  {
    var e := EarliestIndex(s.links);
    if e.None? then (s, false)
    else
      var link := s.links[e.value];
      if Due(link.nextRun, now) then
        var r := Start(s, Some(link));
        assert r.1 ==> IsEarliest(s.links, e.value);
        EarliestOnly(s.links, e.value);
        r
      else
        EarliestOnly(s.links, e.value);
        (s, false)
  }

  lemma EarliestOnly(links: seq<Link>, e: int)
    requires IsEarliest(links, e)
    ensures forall i | IsEarliest(links, i) :: i == e
  {
    forall i | IsEarliest(links, i) ensures i == e {
      EarliestUnique(links, i, e);
    }
  }

  /** `nextRun` of the rows with the given id set to `t`; every other field and row as before. */
  function SetNextRun(links: seq<Link>, id: int, t: int): (r: seq<Link>)
    ensures |r| == |links|
    ensures forall k | 0 <= k < |links| ::
      r[k] == if links[k].id == id then links[k].(nextRun := Some(t)) else links[k]
  {
    seq(|links|, k requires 0 <= k < |links| =>
      if links[k].id == id then links[k].(nextRun := Some(t)) else links[k])
  }

  /**
   * The success half of `executeQueueItem`, before its closing `checkQueue`:
   * the link the pipeline held is saved with its next start one `runPeriod`
   * (taken from the held object) after `finish`, and the flag is cleared.
   */
  function Succeed(s: QueueState, finish: int): (r: QueueState)
    requires s.inFlight.Some?
    ensures r.runningJob.None? && r.inFlight.None? && |r.links| == |s.links|
    ensures forall k | 0 <= k < |s.links| ::
      r.links[k] == if s.links[k].id == s.inFlight.value.id
                    then s.links[k].(nextRun := Some(finish + s.inFlight.value.runPeriod * MinuteMs))
                    else s.links[k]
  {
    var l := s.inFlight.value;
    QueueState(SetNextRun(s.links, l.id, finish + l.runPeriod * MinuteMs), None, None)
  }

  /**
   * The pipeline rejects: its `.then` is skipped, so nothing clears
   * `runningJob`; only the pipeline itself is gone.
   */
  function FailAsWritten(s: QueueState): (r: QueueState)
    ensures r.links == s.links && r.runningJob == s.runningJob && r.inFlight.None?
  {
    s.(inFlight := None)
  }

  /** `filterLinkOutput`; `None` stands for the `false` that `moveItemToQueueFront` returns. */
  function FilterLinkOutput(link: Option<Link>): (r: LinkOutput)
    ensures link.None? <==> r.id.None? && r.url.None?
    ensures link.Some? ==> r.id == Some(link.value.id) && r.url == Some(link.value.url)
  {
    match link
    case None => LinkOutput(None, None)
    case Some(l) => LinkOutput(Some(l.id), Some(l.url))
  }

  /** The first row the `where` condition selects, as `findOne` returns it. */
  function FirstIndex(links: seq<Link>, where: Link -> bool): (r: Option<nat>)
    ensures r.Some? ==> r.value < |links| && where(links[r.value])
                        && forall k | 0 <= k < r.value :: !where(links[k])
    ensures r.None? ==> forall k | 0 <= k < |links| :: !where(links[k])
  {
    if |links| == 0 then None
    else if where(links[0]) then Some(0)
    else
      var r := FirstIndex(links[1..], where);
      if r.None? then None else Some(r.value + 1)
  }

  /** The `where` condition of `findOne({where: {id}})`. */
  function HasId(id: int): Link -> bool
  {
    (l: Link) => l.id == id
  }

  /** The `where` condition of `findOne({where: {link: url}})`. */
  function HasUrl(url: string): Link -> bool
  {
    (l: Link) => l.url == url
  }

  /**
   * `moveItemToQueueFront` on the row the lookup found, followed by
   * `filterLinkOutput`: a missing row or one with a falsy id is left alone
   * and reported as undefined; otherwise its `nextRun` becomes `now`.
   */
  function RunNow(s: QueueState, found: Option<nat>, now: int): (r: (QueueState, LinkOutput))
    requires found.Some? ==> found.value < |s.links|
    ensures r.0.runningJob == s.runningJob && r.0.inFlight == s.inFlight && |r.0.links| == |s.links|
    ensures found.None? || s.links[found.value].id == 0 ==> r == (s, FilterLinkOutput(None))
    ensures found.Some? && s.links[found.value].id != 0 ==>
              r.0.links == s.links[found.value := s.links[found.value].(nextRun := Some(now))]
              && r.1 == FilterLinkOutput(Some(s.links[found.value]))
  {
    if found.None? || s.links[found.value].id == 0 then (s, FilterLinkOutput(None))
    else
      var l := s.links[found.value].(nextRun := Some(now));
      (s.(links := s.links[found.value := l]), FilterLinkOutput(Some(l)))
  }

  /** The start times `initQueue` writes: the link at position k starts k check intervals after `now`. */
  function Staggered(links: seq<Link>, now: int): (r: seq<Link>)
    ensures |r| == |links|
    ensures forall k | 0 <= k < |links| :: r[k] == links[k].(nextRun := Some(now + k * QueueCheckInterval))
  {
    seq(|links|, k requires 0 <= k < |links| => links[k].(nextRun := Some(now + k * QueueCheckInterval)))
  }

  // ---------------------------------------------------------------------
  // Properties of the steps
  // ---------------------------------------------------------------------

  /** Single flight: while the flag is set, neither a check nor a direct start begins a second pipeline. */
  lemma SingleFlight(s: QueueState, now: int, link: Option<Link>)
    requires s.runningJob.Some?
    ensures Check(s, now) == (s, false)
    ensures Start(s, link) == (s, false)
  {
  }

  /** An idle queue whose earliest link is due starts that link. */
  lemma DueLinkStartsWhenIdle(s: QueueState, now: int, i: int)
    requires s.runningJob.None? && IsEarliest(s.links, i) && Due(s.links[i].nextRun, now) && s.links[i].id != 0
    ensures Check(s, now).1 && Check(s, now).0.inFlight == Some(s.links[i])
  {
    EarliestOnly(s.links, i);
  }

  /** The earliest link not yet due: nothing starts, even when idle. */
  lemma NotDueNothingStarts(s: QueueState, now: int, i: int)
    requires IsEarliest(s.links, i) && !Due(s.links[i].nextRun, now)
    ensures Check(s, now) == (s, false)
  {
    EarliestOnly(s.links, i);
  }

  /**
   * After a success the finished link is not due again before its period
   * has run out, so the closing `checkQueue` does not restart it at once
   * (for a non-negative `runPeriod`).
   */
  lemma SuccessReschedules(s: QueueState, finish: int, now: int)
    requires s.inFlight.Some? && now <= finish + s.inFlight.value.runPeriod * MinuteMs
    ensures var after := Succeed(s, finish);
            forall k | 0 <= k < |after.links| && after.links[k].id == s.inFlight.value.id ::
              !Due(after.links[k].nextRun, now)
    ensures var after := Succeed(s, finish);
            forall k, later | 0 <= k < |after.links| && after.links[k].id == s.inFlight.value.id
                              && later > finish + s.inFlight.value.runPeriod * MinuteMs ::
              Due(after.links[k].nextRun, later)
    ensures var after := Succeed(s, finish);
            forall k | 0 <= k < |s.links| && s.links[k].id != s.inFlight.value.id :: after.links[k] == s.links[k]
  {
  }

  /** Run-now makes the row due at any later time and leaves a running pipeline alone. */
  lemma RunNowDueLater(s: QueueState, found: Option<nat>, now: int, later: int)
    requires found.Some? && found.value < |s.links| && s.links[found.value].id != 0 && now < later
    ensures var r := RunNow(s, found, now);
            && r.0.links[found.value] == s.links[found.value].(nextRun := Some(now))
            && Due(r.0.links[found.value].nextRun, later)
            && r.1 == LinkOutput(Some(s.links[found.value].id), Some(s.links[found.value].url))
            && (forall k | 0 <= k < |s.links| && k != found.value :: r.0.links[k] == s.links[k])
  {
  }

  /** The staggered links start in table order, one check interval apart, and the first is the earliest. */
  lemma StaggerOrder(links: seq<Link>, now: int)
    ensures var r := Staggered(links, now);
            forall i, j | 0 <= i < j < |r| ::
              r[j].nextRun.value - r[i].nextRun.value == (j - i) * QueueCheckInterval
    ensures |links| > 0 ==> EarliestIndex(Staggered(links, now)) == Some(0)
  {
    var r := Staggered(links, now);
    if |links| > 0 {
      forall j | 0 <= j < |r| ensures RunsNoLaterThan(r[0].nextRun, r[j].nextRun) {
      }
      assert IsEarliest(r, 0);
      EarliestOnly(r, 0);
    }
  }

  // ---------------------------------------------------------------------
  // Runs of events
  // ---------------------------------------------------------------------

  /** What can happen to the queue: a timer tick, a completion, or a run-now request. */
  datatype Event =
    | Tick(now: int)
    | Finished(finish: int, now: int)
    | Failed
    | RunById(id: int, now: int)
    | RunByUrl(url: string, now: int)

  /** One event; a completion without a running pipeline changes nothing. */
  function Step(s: QueueState, e: Event): QueueState
  {
    match e
    case Tick(now) => Check(s, now).0
    case Finished(finish, now) => if s.inFlight.Some? then Check(Succeed(s, finish), now).0 else s
    case Failed => if s.inFlight.Some? then FailAsWritten(s) else s
    case RunById(id, now) => RunNow(s, FirstIndex(s.links, HasId(id)), now).0
    case RunByUrl(url, now) => RunNow(s, FirstIndex(s.links, HasUrl(url)), now).0
  }

  function Run(s: QueueState, events: seq<Event>): QueueState
    decreases |events|
  {
    if |events| == 0 then s else Run(Step(s, events[0]), events[1..])
  }

  lemma StepKeepsInv(s: QueueState, e: Event)
    requires Inv(s)
    ensures Inv(Step(s, e))
  {
    match e
    case Tick(now) =>
    case Finished(finish, now) =>
    case Failed =>
    case RunById(id, now) =>
    case RunByUrl(url, now) =>
  }

  /** The flag invariant holds after any run of events. */
  lemma {:induction false} RunKeepsInv(s: QueueState, events: seq<Event>)
    requires Inv(s)
    ensures Inv(Run(s, events))
    decreases |events|
  {
    if |events| > 0 {
      StepKeepsInv(s, events[0]);
      RunKeepsInv(Step(s, events[0]), events[1..]);
    }
  }

  /**
   * After a pipeline fails the queue is stuck for good: whatever happens
   * next, the flag stays set and no pipeline is ever started again.
   */
  lemma {:induction false} FailureStallsQueue(s: QueueState, events: seq<Event>)
    requires Inv(s) && s.inFlight.Some?
    ensures Run(FailAsWritten(s), events).runningJob == s.runningJob
    ensures Run(FailAsWritten(s), events).inFlight.None?
  {
    StalledStaysStalled(FailAsWritten(s), events);
  }

  lemma {:induction false} StalledStaysStalled(s: QueueState, events: seq<Event>)
    requires s.runningJob.Some? && s.inFlight.None?
    ensures Run(s, events).runningJob == s.runningJob && Run(s, events).inFlight.None?
    decreases |events|
  {
    if |events| > 0 {
      var next := Step(s, events[0]);
      assert next.runningJob == s.runningJob && next.inFlight.None? by {
        match events[0]
        case Tick(now) => SingleFlight(s, now, None);
        case Finished(finish, now) =>
        case Failed =>
        case RunById(id, now) =>
        case RunByUrl(url, now) =>
      }
      StalledStaysStalled(next, events[1..]);
    }
  }

  // ---------------------------------------------------------------------
  // The queue as the program holds it
  // ---------------------------------------------------------------------

  class Queue {
    var links: seq<Link>
    var runningJob: Option<int>
    var inFlight: Option<Link>

    function State(): QueueState
      reads this
    {
      QueueState(links, runningJob, inFlight)
    }

    ghost predicate Valid()
      reads this
    {
      Inv(State())
    }

    /** The queue over a link table, with no job running (`runningJob = null`, db.js:12). */
    constructor (table: seq<Link>)
      ensures Valid() && State() == QueueState(table, None, None)
    {
      links, runningJob, inFlight := table, None, None;
    }

    /** The start-time stagger of `initQueue`. */
    method StaggerStartTimes(now: int)
      requires Valid()
      modifies this
      ensures Valid() && State() == old(State()).(links := Staggered(old(links), now))
    {
      ghost var table := links;
      var k := 0;
      while k < |links|
        invariant 0 <= k <= |links| == |table|
        invariant forall j | 0 <= j < k :: links[j] == table[j].(nextRun := Some(now + j * QueueCheckInterval))
        invariant forall j | k <= j < |links| :: links[j] == table[j]
        invariant runningJob == old(runningJob) && inFlight == old(inFlight)
      {
        links := links[k := links[k].(nextRun := Some(now + k * QueueCheckInterval))];
        k := k + 1;
      }
      assert links == Staggered(table, now);
    }

    /** `findOne` ordered by `nextRun`, as a scan of the table. */
    method FindEarliest() returns (r: Option<nat>)
      ensures r == EarliestIndex(links)
    {
      if |links| == 0 {
        return None;
      }
      var best := 0;
      var k := 1;
      while k < |links|
        invariant 1 <= k <= |links|
        invariant EarliestIndex(links[..k]) == Some(best)
      {
        assert links[..k + 1][..k] == links[..k];
        if !RunsNoLaterThan(links[best].nextRun, links[k].nextRun) {
          best := k;
        }
        k := k + 1;
      }
      assert links[..k] == links;
      r := Some(best);
    }

    /** The start half of `executeQueueItem`. */
    method ExecuteQueueItem(link: Option<Link>) returns (started: bool)
      requires Valid()
      modifies this
      ensures Valid() && (State(), started) == Start(old(State()), link)
    {
      if link.None? || link.value.id == 0 {
        return false;
      }
      if runningJob.None? {
        runningJob := Some(link.value.id);
        inFlight := link;
        return true;
      }
      return false;
    }

    /** `checkQueue`, with the due test as intended (see `DecisionAsWritten`). */
    method CheckQueue(now: int) returns (started: bool)
      requires Valid()
      modifies this
      ensures Valid() && (State(), started) == Check(old(State()), now)
    {
      var e := FindEarliest();
      if e.None? {
        return false;
      }
      var link := links[e.value];
      if Due(link.nextRun, now) {
        started := ExecuteQueueItem(Some(link));
      } else {
        started := false;
      }
    }

    /** The pipeline succeeded at `finish`; the closing `checkQueue` runs at `now`. */
    method CompleteSuccess(finish: int, now: int) returns (restarted: bool)
      requires Valid() && inFlight.Some?
      modifies this
      ensures Valid() && (State(), restarted) == Check(Succeed(old(State()), finish), now)
    {
      ghost var succeeded := Succeed(State(), finish);
      var l := inFlight.value;
      links := SetNextRun(links, l.id, finish + l.runPeriod * MinuteMs);
      runningJob := None;
      inFlight := None;
      assert State() == succeeded;
      restarted := CheckQueue(now);
    }

    /** The pipeline rejected. */
    method CompleteFailure()
      requires Valid() && inFlight.Some?
      modifies this
      ensures Valid() && State() == FailAsWritten(old(State()))
    {
      inFlight := None;
    }

    /** `runLinkById`. */
    method RunLinkById(id: int, now: int) returns (out: LinkOutput)
      requires Valid()
      modifies this
      ensures Valid() && (State(), out) == RunNow(old(State()), FirstIndex(old(links), HasId(id)), now)
    {
      out := MoveToFront(FirstIndex(links, HasId(id)), now);
    }

    /** `runLinkByUrl`. */
    method RunLinkByUrl(url: string, now: int) returns (out: LinkOutput)
      requires Valid()
      modifies this
      ensures Valid() && (State(), out) == RunNow(old(State()), FirstIndex(old(links), HasUrl(url)), now)
    {
      out := MoveToFront(FirstIndex(links, HasUrl(url)), now);
    }

    /** `moveItemToQueueFront` on the row a lookup found, then `filterLinkOutput`. */
    method MoveToFront(found: Option<nat>, now: int) returns (out: LinkOutput)
      requires Valid() && (found.Some? ==> found.value < |links|)
      modifies this
      ensures Valid() && (State(), out) == RunNow(old(State()), found, now)
    {
      if found.None? || links[found.value].id == 0 {
        return FilterLinkOutput(None);
      }
      var l := links[found.value].(nextRun := Some(now));
      links := links[found.value := l];
      out := FilterLinkOutput(Some(l));
    }
  }
}
