/** The commit-after-handle consumer over the partitions it owns, across crashes
    and restarts. */
module Consumer {
  import opened Domain

  /** How a commit is answered; it may have reached the broker in every case. */
  datatype Answer = Acknowledged | CommitFailed | CommitCanceled

  /** What became of one fetched message. A crash may interrupt it unsettled. */
  datatype Fate =
    | Undecodable
    | HandlerFailed
    | Handled(applied: bool, answer: Answer)
    | Interrupted
  {
    predicate Logged() { Undecodable? || HandlerFailed? }
    predicate Settled() { !Interrupted? }
    predicate Commits() { Handled? && applied }
  }

  /** One fetch in the history: which message, and its fate. */
  datatype Record = Record(partition: nat, offset: nat, fate: Fate)

  /** Where the reader is in a partition and where the group resumes. */
  datatype Cursor = Cursor(position: nat, committed: nat)

  datatype State = State(cursors: map<nat, Cursor>, history: seq<Record>)

  datatype Step = Deliver(partition: nat, fate: Fate) | Restart

  function Rewound(cursors: map<nat, Cursor>): map<nat, Cursor> {
    map p | p in cursors :: Cursor(cursors[p].committed, cursors[p].committed)
  }

  /** An acknowledged commit has been applied. */
  predicate Enabled(s: State, step: Step) {
    match step
    case Deliver(p, fate) => p in s.cursors && (fate.Handled? && fate.answer.Acknowledged? ==> fate.applied)
    case Restart => true
  }

  /** A delivery fetches the next message of its partition; committing offset n
      sets the committed position to n + 1. A crash or a restart resumes every
      partition at its committed position. */
  function Next(s: State, step: Step): State
    requires Enabled(s, step)
  {
    match step
    case Restart => s.(cursors := Rewound(s.cursors))
    case Deliver(p, fate) =>
      var at := s.cursors[p].position;
      var cursor := Cursor(at + 1, if fate.Commits() then at + 1 else s.cursors[p].committed);
      var cursors := s.cursors[p := cursor];
      State(if fate.Interrupted? then Rewound(cursors) else cursors, s.history + [Record(p, at, fate)])
  }

  ghost predicate IsRun(run: seq<State>, steps: seq<Step>) {
    && |run| == |steps| + 1
    && run[0].history == [] && run[0].cursors == Rewound(run[0].cursors)
    && forall i :: 0 <= i < |steps| ==> Enabled(run[i], steps[i]) && run[i + 1] == Next(run[i], steps[i])
  }

  /** The highest offset ever committed plus one, or the start. */
  function HighWater(history: seq<Record>, p: nat, start: nat): nat {
    if history == [] then start
    else
      var n := |history| - 1;
      var before := HighWater(history[..n], p, start);
      var r := history[n];
      if r.partition == p && r.fate.Commits() && r.offset + 1 > before then r.offset + 1 else before
  }

  /** The message was fetched and handled, or fetched and logged as failed. */
  ghost predicate WasSettled(history: seq<Record>, p: nat, offset: nat) {
    exists k :: 0 <= k < |history| && history[k].partition == p && history[k].offset == offset && history[k].fate.Settled()
  }

  ghost predicate WasHandled(history: seq<Record>, p: nat, offset: nat) {
    exists k :: 0 <= k < |history| && history[k].partition == p && history[k].offset == offset && history[k].fate.Handled?
  }

  /** A commit of a message from `offset` on has been applied. */
  ghost predicate CommittedFrom(history: seq<Record>, p: nat, offset: nat) {
    exists k :: 0 <= k < |history| && history[k].partition == p && history[k].offset >= offset && history[k].fate.Commits()
  }

  /** The message was fetched after the first `from` fetches. */
  ghost predicate FetchedSince(history: seq<Record>, from: nat, p: nat, offset: nat) {
    exists k :: from <= k < |history| && history[k].partition == p && history[k].offset == offset
  }

  /** The committed position is the high-water mark, the reader is not behind it,
      and every message before the reader has been settled. */
  ghost predicate SafeCursor(c: Cursor, history: seq<Record>, p: nat, start: nat) {
    && start <= c.committed <= c.position
    && c.committed == HighWater(history, p, start)
    && forall o :: start <= o < c.position ==> WasSettled(history, p, o)
  }

  ghost predicate SafeAt(s: State, p: nat, start: nat)
    requires p in s.cursors
  {
    SafeCursor(s.cursors[p], s.history, p, start)
  }

  lemma HighWaterSnoc(history: seq<Record>, r: Record, p: nat, start: nat)
    ensures var before := HighWater(history, p, start);
      HighWater(history + [r], p, start) ==
        if r.partition == p && r.fate.Commits() && r.offset + 1 > before then r.offset + 1 else before
  {
    assert (history + [r])[..|history|] == history;
  }

  lemma SettledStays(history: seq<Record>, r: Record, p: nat, o: nat)
    ensures WasSettled(history, p, o) ==> WasSettled(history + [r], p, o)
    ensures r.partition == p && r.offset == o && r.fate.Settled() ==> WasSettled(history + [r], p, o)
  {
    var all := history + [r];
    assert all[|history|] == r;
    if k :| 0 <= k < |history| && history[k].partition == p && history[k].offset == o && history[k].fate.Settled() {
      assert all[k] == history[k];
    }
  }

  lemma RewoundIsSafe(c: Cursor, history: seq<Record>, p: nat, start: nat)
    requires SafeCursor(c, history, p, start)
    ensures SafeCursor(Cursor(c.committed, c.committed), history, p, start)
  {
  }

  /** A fetch that commits nothing here does no harm to a cursor left in place. */
  lemma RecordIsSafe(c: Cursor, history: seq<Record>, r: Record, p: nat, start: nat)
    requires SafeCursor(c, history, p, start) && !(r.partition == p && r.fate.Commits())
    ensures SafeCursor(c, history + [r], p, start)
  {
    HighWaterSnoc(history, r, p, start);
    forall o | start <= o < c.position ensures WasSettled(history + [r], p, o) {
      SettledStays(history, r, p, o);
    }
  }

  /** A settled fetch moves the reader, and the committed position if it commits. */
  lemma FetchIsSafe(c: Cursor, history: seq<Record>, p: nat, start: nat, fate: Fate)
    requires SafeCursor(c, history, p, start) && fate.Settled()
    ensures SafeCursor(Cursor(c.position + 1, if fate.Commits() then c.position + 1 else c.committed),
                       history + [Record(p, c.position, fate)], p, start)
  {
    var r := Record(p, c.position, fate);
    HighWaterSnoc(history, r, p, start);
    forall o | start <= o < c.position + 1 ensures WasSettled(history + [r], p, o) {
      SettledStays(history, r, p, o);
    }
  }

  /** What a delivery leaves of the cursor of each partition. */
  lemma CursorAfter(s: State, step: Step, p: nat)
    requires Enabled(s, step) && p in s.cursors
    ensures var (c, s') := (s.cursors[p], Next(s, step));
      && p in s'.cursors
      && match step
         case Restart => s'.cursors[p] == Cursor(c.committed, c.committed)
         case Deliver(q, fate) =>
           if fate.Interrupted? then s'.cursors[p] == Cursor(c.committed, c.committed)
           else if q != p then s'.cursors[p] == c
           else s'.cursors[p] == Cursor(c.position + 1, if fate.Commits() then c.position + 1 else c.committed)
  {
  }

  lemma StepKeepsSafe(s: State, step: Step, p: nat, start: nat)
    requires Enabled(s, step) && p in s.cursors && SafeAt(s, p, start)
    ensures var s' := Next(s, step);
      p in s'.cursors && SafeAt(s', p, start) && s.cursors[p].committed <= s'.cursors[p].committed
  {
    var c := s.cursors[p];
    CursorAfter(s, step, p);
    match step
    case Restart => RewoundIsSafe(c, s.history, p, start);
    case Deliver(q, fate) =>
      var r := Record(q, s.cursors[q].position, fate);
      if fate.Interrupted? {
        RecordIsSafe(c, s.history, r, p, start);
        RewoundIsSafe(c, s.history + [r], p, start);
      } else if q != p {
        RecordIsSafe(c, s.history, r, p, start);
      } else {
        FetchIsSafe(c, s.history, p, start, fate);
      }
  }

  lemma {:induction false} RunIsSafe(run: seq<State>, steps: seq<Step>, i: nat, p: nat)
    requires IsRun(run, steps) && i < |run| && p in run[0].cursors
    ensures p in run[i].cursors && SafeAt(run[i], p, run[0].cursors[p].committed)
    decreases i
  {
    if i == 0 {
      assert run[0].cursors[p] == Rewound(run[0].cursors)[p];
    } else {
      RunIsSafe(run, steps, i - 1, p);
      StepKeepsSafe(run[i - 1], steps[i - 1], p, run[0].cursors[p].committed);
      assert run[i - 1 + 1] == Next(run[i - 1], steps[i - 1]);
    }
  }

  lemma {:induction false} HighWaterIsCommit(history: seq<Record>, p: nat, start: nat, o: nat)
    requires start <= o
    ensures HighWater(history, p, start) >= start
    ensures HighWater(history, p, start) > o <==> CommittedFrom(history, p, o)
    decreases |history|
  {
    if history != [] {
      var n := |history| - 1;
      HighWaterIsCommit(history[..n], p, start, o);
      if k :| 0 <= k < n && history[k].partition == p && history[k].offset >= o && history[k].fate.Commits() {
        assert history[..n][k] == history[k];
      }
    }
  }

  lemma {:induction false} HighWaterSource(history: seq<Record>, p: nat, start: nat)
    ensures var h := HighWater(history, p, start);
      h == start || (h > 0 && WasHandled(history, p, h - 1))
    decreases |history|
  {
    if history != [] {
      var n := |history| - 1;
      HighWaterSource(history[..n], p, start);
      assert forall k :: 0 <= k < n ==> history[..n][k] == history[k];
    }
  }

  /** Consumer safety, in every state any crashes and restarts can reach: the
      committed position is the start or one past a message that was handled, and
      every offset below it was fetched and handled or logged as failed; where
      nothing was ever logged as failed, handled. */
  lemma ConsumerSafety(run: seq<State>, steps: seq<Step>, i: nat, p: nat)
    requires IsRun(run, steps) && i < |run| && p in run[0].cursors
    ensures p in run[i].cursors
    ensures var (start, c, history) := (run[0].cursors[p].committed, run[i].cursors[p].committed, run[i].history);
      && (c == start || (c > 0 && WasHandled(history, p, c - 1)))
      && (forall o :: start <= o < c ==> WasSettled(history, p, o))
      && ((forall r :: r in history ==> !r.fate.Logged()) ==>
            forall o :: start <= o < c ==> WasHandled(history, p, o))
  {
    RunIsSafe(run, steps, i, p);
    var (start, history) := (run[0].cursors[p].committed, run[i].history);
    HighWaterSource(history, p, start);
    if forall r :: r in history ==> !r.fate.Logged() {
      forall o | start <= o < run[i].cursors[p].committed
        ensures WasHandled(history, p, o)
      {
        assert WasSettled(history, p, o);
        var k :| 0 <= k < |history| && history[k].partition == p && history[k].offset == o && history[k].fate.Settled();
        assert history[k] in history && !history[k].fate.Logged();
      }
    }
  }

  /** The exact fate of a message that failed and whose redeliveries, if any,
      were not committed either: a restart resumes at or before it exactly when
      no later message of the partition has been committed. */
  lemma FailedMessageFate(run: seq<State>, steps: seq<Step>, i: nat, p: nat, o: nat)
    requires IsRun(run, steps) && i < |run| && p in run[0].cursors && run[0].cursors[p].committed <= o
    requires forall r :: r in run[i].history && r.partition == p && r.offset == o ==> !r.fate.Commits()
    ensures p in run[i].cursors
    ensures run[i].cursors[p].committed <= o <==> !CommittedFrom(run[i].history, p, o + 1)
  {
    RunIsSafe(run, steps, i, p);
    var history := run[i].history;
    HighWaterIsCommit(history, p, run[0].cursors[p].committed, o);
    assert forall k :: 0 <= k < |history| ==> history[k] in history;
  }

  lemma {:induction false} HistoryGrows(run: seq<State>, steps: seq<Step>, i: nat, j: nat, p: nat)
    requires IsRun(run, steps) && i <= j < |run| && p in run[0].cursors
    ensures p in run[i].cursors && p in run[j].cursors
    ensures run[i].history <= run[j].history
    ensures run[i].cursors[p].committed <= run[j].cursors[p].committed
    decreases j
  {
    RunIsSafe(run, steps, i, p);
    if i < j {
      HistoryGrows(run, steps, i, j - 1, p);
      RunIsSafe(run, steps, j - 1, p);
      StepKeepsSafe(run[j - 1], steps[j - 1], p, run[0].cursors[p].committed);
      assert run[j - 1 + 1] == Next(run[j - 1], steps[j - 1]);
    }
  }

  /** Once the committed position is past a message it is never fetched again. */
  lemma {:induction false} PassedIsGone(run: seq<State>, steps: seq<Step>, i: nat, j: nat, p: nat, o: nat)
    requires IsRun(run, steps) && i <= j < |run| && p in run[0].cursors && p in run[i].cursors
    requires run[i].cursors[p].committed > o
    ensures run[i].history <= run[j].history
    ensures forall k :: |run[i].history| <= k < |run[j].history| && run[j].history[k].partition == p ==>
      run[j].history[k].offset > o
    decreases j
  {
    HistoryGrows(run, steps, i, j, p);
    if i < j {
      PassedIsGone(run, steps, i, j - 1, p, o);
      HistoryGrows(run, steps, i, j - 1, p);
      RunIsSafe(run, steps, j - 1, p);
      assert run[j - 1 + 1] == Next(run[j - 1], steps[j - 1]);
    }
  }

  /** And until then it is not skipped: whenever the reader moves from at or
      before a message to past it, restarts in between or not, it fetches it. */
  lemma {:induction false} NotSkipped(run: seq<State>, steps: seq<Step>, i: nat, j: nat, p: nat, o: nat)
    requires IsRun(run, steps) && i <= j < |run| && p in run[0].cursors
    requires p in run[i].cursors && p in run[j].cursors
    requires run[i].cursors[p].position <= o < run[j].cursors[p].position
    ensures run[i].history <= run[j].history
    ensures FetchedSince(run[j].history, |run[i].history|, p, o)
    decreases j
  {
    HistoryGrows(run, steps, i, j, p);
    HistoryGrows(run, steps, i, j - 1, p);
    RunIsSafe(run, steps, j - 1, p);
    var s := run[j - 1];
    assert run[j - 1 + 1] == Next(s, steps[j - 1]);
    if o < s.cursors[p].position {
      NotSkipped(run, steps, i, j - 1, p, o);
      var k :| |run[i].history| <= k < |s.history| && s.history[k].partition == p && s.history[k].offset == o;
      assert run[j].history[k] == s.history[k];
    } else {
      assert run[j].history[|s.history|] == Record(p, o, steps[j - 1].fate);
    }
  }

  /** The step resumes every partition at its committed position. */
  predicate Resumes(step: Step) {
    step.Restart? || step.fate.Interrupted?
  }

  /** Between the a-th and the j-th state some step resumed the partition at or
      before the message. */
  ghost predicate ResumedAt(run: seq<State>, steps: seq<Step>, a: nat, j: nat, p: nat, o: nat)
    requires |run| == |steps| + 1 && j < |run|
  {
    exists m :: a <= m < j && Resumes(steps[m]) && p in run[m + 1].cursors && run[m + 1].cursors[p].committed <= o
  }

  /** The reader turns back only by resuming. */
  lemma {:induction false} MovesOn(run: seq<State>, steps: seq<Step>, a: nat, j: nat, p: nat, o: nat)
    requires IsRun(run, steps) && a <= j < |run| && p in run[0].cursors
    requires p in run[a].cursors && run[a].cursors[p].position > o
    ensures p in run[j].cursors && run[a].history <= run[j].history
    ensures ResumedAt(run, steps, a, j, p, o) ||
      (run[j].cursors[p].position > o && !FetchedSince(run[j].history, |run[a].history|, p, o))
    decreases j
  {
    HistoryGrows(run, steps, a, j, p);
    if a < j && !ResumedAt(run, steps, a, j, p, o) {
      var s, step := run[j - 1], steps[j - 1];
      assert run[j - 1 + 1] == Next(s, step);
      MovesOn(run, steps, a, j - 1, p, o);
      CursorAfter(s, step, p);
    }
  }

  /** When a message the reader has passed is fetched again: not before a step
      resumes the partition at or before it, and then whenever the reader gets
      past it once more. */
  lemma FetchedAgainExactly(run: seq<State>, steps: seq<Step>, a: nat, j: nat, p: nat, o: nat)
    requires IsRun(run, steps) && a <= j < |run| && p in run[0].cursors
    requires p in run[a].cursors && run[a].cursors[p].position > o
    ensures p in run[j].cursors
    ensures FetchedSince(run[j].history, |run[a].history|, p, o) ==> ResumedAt(run, steps, a, j, p, o)
    ensures run[j].cursors[p].position > o ==>
      (FetchedSince(run[j].history, |run[a].history|, p, o) <==> ResumedAt(run, steps, a, j, p, o))
  {
    MovesOn(run, steps, a, j, p, o);
    if ResumedAt(run, steps, a, j, p, o) && run[j].cursors[p].position > o {
      var m :| a <= m < j && Resumes(steps[m]) && p in run[m + 1].cursors && run[m + 1].cursors[p].committed <= o;
      RunIsSafe(run, steps, m, p);
      CursorAfter(run[m], steps[m], p);
      assert run[m + 1] == Next(run[m], steps[m]);
      NotSkipped(run, steps, m + 1, j, p, o);
      HistoryGrows(run, steps, a, m + 1, p);
    }
  }

  /** Between the a-th and the j-th state the partition was resumed before any
      message behind this one had been committed. */
  ghost predicate ResumedBeforeCommit(run: seq<State>, steps: seq<Step>, a: nat, j: nat, p: nat, o: nat)
    requires |run| == |steps| + 1 && j < |run|
  {
    exists m :: a <= m < j && Resumes(steps[m]) && !CommittedFrom(run[m + 1].history, p, o + 1)
  }

  /** So a message that failed (no fetch of it has been committed yet) is fetched
      again exactly when a restart follows before any later message of its
      partition has been committed, and the reader comes past it again. */
  lemma FailedIsRedeliveredExactly(run: seq<State>, steps: seq<Step>, a: nat, j: nat, p: nat, o: nat)
    requires IsRun(run, steps) && a <= j < |run| && p in run[0].cursors && run[0].cursors[p].committed <= o
    requires p in run[a].cursors && run[a].cursors[p].position > o
    requires forall r :: r in run[a].history && r.partition == p && r.offset == o ==> !r.fate.Commits()
    ensures p in run[j].cursors
    ensures FetchedSince(run[j].history, |run[a].history|, p, o) ==> ResumedBeforeCommit(run, steps, a, j, p, o)
    ensures run[j].cursors[p].position > o ==>
      (FetchedSince(run[j].history, |run[a].history|, p, o) <==> ResumedBeforeCommit(run, steps, a, j, p, o))
  {
    FetchedAgainExactly(run, steps, a, j, p, o);
    if ResumedAt(run, steps, a, j, p, o) {
      var m :| a <= m < j && Resumes(steps[m]) && p in run[m + 1].cursors && run[m + 1].cursors[p].committed <= o;
      CommittedFromCursor(run, steps, m + 1, p, o);
      assert !CommittedFrom(run[m + 1].history, p, o + 1);
    }
    if m :| a <= m < j && Resumes(steps[m]) && !CommittedFrom(run[m + 1].history, p, o + 1) {
      CommittedFromCursor(run, steps, m + 1, p, o);
      if CommittedFrom(run[m + 1].history, p, o) {
        CommitIsNewFetch(run, steps, a, m + 1, j, p, o);
      }
    }
  }

  lemma CommittedFromCursor(run: seq<State>, steps: seq<Step>, i: nat, p: nat, o: nat)
    requires IsRun(run, steps) && i < |run| && p in run[0].cursors && run[0].cursors[p].committed <= o
    ensures p in run[i].cursors
    ensures run[i].cursors[p].committed <= o <==> !CommittedFrom(run[i].history, p, o)
  {
    RunIsSafe(run, steps, i, p);
    HighWaterIsCommit(run[i].history, p, run[0].cursors[p].committed, o);
  }

  /** A commit of a message that had not been committed is a fetch since. */
  lemma CommitIsNewFetch(run: seq<State>, steps: seq<Step>, a: nat, m: nat, j: nat, p: nat, o: nat)
    requires IsRun(run, steps) && a <= m <= j < |run| && p in run[0].cursors
    requires forall r :: r in run[a].history && r.partition == p && r.offset == o ==> !r.fate.Commits()
    requires CommittedFrom(run[m].history, p, o) && !CommittedFrom(run[m].history, p, o + 1)
    ensures FetchedSince(run[j].history, |run[a].history|, p, o)
  {
    HistoryGrows(run, steps, a, m, p);
    HistoryGrows(run, steps, m, j, p);
    var k :| 0 <= k < |run[m].history| && run[m].history[k].partition == p && run[m].history[k].offset >= o
             && run[m].history[k].fate.Commits();
    assert run[j].history[k] == run[m].history[k];
  }

  /** A running consumer never comes back to a failed message: the reader moves
      on, and nothing is committed. */
  lemma NoRestartNoRedelivery(p: nat, start: nat) returns (run: seq<State>, steps: seq<Step>)
    ensures IsRun(run, steps) && run[0].cursors == map[p := Cursor(start, start)]
    ensures steps == [Deliver(p, HandlerFailed), Deliver(p, HandlerFailed)]
    ensures run[2].cursors == map[p := Cursor(start + 2, start)]
    ensures !CommittedFrom(run[2].history, p, start) && !FetchedSince(run[2].history, |run[1].history|, p, start)
  {
    var s0 := State(map[p := Cursor(start, start)], []);
    steps := [Deliver(p, HandlerFailed), Deliver(p, HandlerFailed)];
    var s1 := Next(s0, steps[0]);
    run := [s0, s1, Next(s1, steps[1])];
    assert Rewound(s0.cursors) == s0.cursors;
    assert run[2].history == [Record(p, start, HandlerFailed), Record(p, start + 1, HandlerFailed)];
  }

  /** A failed message is not redelivered unconditionally: handled success right
      behind it moves the resume position past both. */
  lemma FailureCanBeLost(p: nat, start: nat) returns (run: seq<State>, steps: seq<Step>)
    ensures IsRun(run, steps) && run[0].cursors == map[p := Cursor(start, start)] && |steps| == 3
    ensures steps[2].Restart? && run[3] == State(
      map[p := Cursor(start + 2, start + 2)],
      [Record(p, start, HandlerFailed), Record(p, start + 1, Handled(true, Acknowledged))])
  {
    var s0 := State(map[p := Cursor(start, start)], []);
    steps := [Deliver(p, HandlerFailed), Deliver(p, Handled(true, Acknowledged)), Restart];
    var s1 := Next(s0, steps[0]);
    var s2 := Next(s1, steps[1]);
    run := [s0, s1, s2, Next(s2, steps[2])];
    assert Rewound(s0.cursors) == s0.cursors;
    assert Rewound(s2.cursors) == map[p := Cursor(start + 2, start + 2)];
  }

  // ---- the loop ----

  /** One turn of the loop: the reader fails, or yields a message. */
  datatype Turn =
    | FetchFails(canceled: bool)
    | Message(partition: nat, decodes: bool, handles: bool, applied: bool, answer: Answer)

  datatype Exit = StillRunning | Stopped | Fatal

  function FateOf(turn: Turn): Fate
    requires turn.Message?
  {
    if !turn.decodes then Undecodable
    else if !turn.handles then HandlerFailed
    else Handled(turn.applied || turn.answer.Acknowledged?, turn.answer)
  }

  /** The turn ends the loop. */
  predicate Ends(turn: Turn) {
    match turn
    case FetchFails(_) => true
    case Message(_, decodes, handles, _, answer) => decodes && handles && answer.CommitCanceled?
  }

  /** The deliveries made until the loop ends, and how it ends. */
  function Deliveries(turns: seq<Turn>): seq<Step> {
    if turns == [] then []
    else
      var now := if turns[0].Message? then [Deliver(turns[0].partition, FateOf(turns[0]))] else [];
      now + if Ends(turns[0]) then [] else Deliveries(turns[1..])
  }

  function ExitOf(turns: seq<Turn>): Exit {
    if turns == [] then StillRunning
    else if Ends(turns[0]) then (if turns[0].FetchFails? && !turns[0].canceled then Fatal else Stopped)
    else ExitOf(turns[1..])
  }

  /** The state after some steps, all of them over owned partitions. */
  function Final(s: State, steps: seq<Step>): State
    decreases steps
  {
    if steps == [] || !Enabled(s, steps[0]) then s else Final(Next(s, steps[0]), steps[1..])
  }

  /** The reader yields messages of owned partitions only. */
  predicate Owned(cursors: map<nat, Cursor>, turns: seq<Turn>) {
    forall k :: 0 <= k < |turns| && turns[k].Message? ==> turns[k].partition in cursors
  }

  class Loop {
    var cursors: map<nat, Cursor>
    var history: seq<Record>

    constructor (start: map<nat, nat>)
      ensures Snapshot() == State(map p | p in start :: Cursor(start[p], start[p]), [])
    {
      cursors, history := map p | p in start :: Cursor(start[p], start[p]), [];
    }

    function Snapshot(): State
      reads this
    {
      State(cursors, history)
    }

    method FetchMessage(p: nat) returns (offset: nat)
      requires p in cursors
      modifies this`cursors
      ensures offset == old(cursors[p].position)
      ensures cursors == old(cursors)[p := Cursor(offset + 1, old(cursors[p].committed))]
    {
      offset := cursors[p].position;
      cursors := cursors[p := cursors[p].(position := offset + 1)];
    }

    method CommitMessages(p: nat, offset: nat, applied: bool)
      requires p in cursors
      modifies this`cursors
      ensures cursors == if applied then old(cursors)[p := Cursor(old(cursors[p].position), offset + 1)] else old(cursors)
    {
      if applied {
        cursors := cursors[p := cursors[p].(committed := offset + 1)];
      }
    }

    method Restart()
      modifies this
      ensures Snapshot() == Next(old(Snapshot()), Step.Restart)
    {
      cursors := Rewound(cursors);
    }

    /** Run, given what the reader, the decoder, the handler and the broker do in
        its first turns. */
    method Run(turns: seq<Turn>) returns (exit: Exit)
      requires Owned(cursors, turns)
      modifies this
      ensures Snapshot() == Final(old(Snapshot()), Deliveries(turns))
      ensures exit == ExitOf(turns)
    {
      ghost var end := Final(Snapshot(), Deliveries(turns));
      var i := 0;
      while i < |turns|
        invariant 0 <= i <= |turns|
        invariant cursors.Keys == old(cursors).Keys
        invariant Final(Snapshot(), Deliveries(turns[i..])) == end
        invariant ExitOf(turns[i..]) == ExitOf(turns)
      {
        var turn := turns[i];
        ghost var before, at := Snapshot(), i;
        i := i + 1;
        if turn.FetchFails? {
          assert turns[at..][0] == turn;
          return if turn.canceled then Stopped else Fatal;
        }
        var offset := FetchMessage(turn.partition);
        if !turn.decodes {
          history := history + [Record(turn.partition, offset, Undecodable)];
          TurnIs(before, Snapshot(), turns, at);
          continue;
        }
        if !turn.handles {
          history := history + [Record(turn.partition, offset, HandlerFailed)];
          TurnIs(before, Snapshot(), turns, at);
          continue;
        }
        var applied := turn.applied || turn.answer.Acknowledged?;
        CommitMessages(turn.partition, offset, applied);
        history := history + [Record(turn.partition, offset, Handled(applied, turn.answer))];
        TurnIs(before, Snapshot(), turns, at);
        if turn.answer.CommitCanceled? {
          return Stopped;
        }
      }
      exit := StillRunning;
    }
  }

  /** Unfolding one turn of the loop. */
  lemma TurnIs(s: State, s': State, turns: seq<Turn>, i: nat)
    requires i < |turns| && turns[i].Message? && turns[i].partition in s.cursors
    requires s' == Next(s, Deliver(turns[i].partition, FateOf(turns[i])))
    ensures Final(s, Deliveries(turns[i..])) == if Ends(turns[i]) then s' else Final(s', Deliveries(turns[i + 1..]))
    ensures ExitOf(turns[i..]) == if Ends(turns[i]) then Stopped else ExitOf(turns[i + 1..])
  {
    assert turns[i..][0] == turns[i] && turns[i..][1..] == turns[i + 1..];
    var d := Deliver(turns[i].partition, FateOf(turns[i]));
    var later := if Ends(turns[i]) then [] else Deliveries(turns[i + 1..]);
    assert Deliveries(turns[i..]) == [d] + later;
    assert ([d] + later)[0] == d && ([d] + later)[1..] == later;
  }

  // ---- what the loop does, from its turns alone ----

  /** A message after which the loop goes on: any but one handled and with its
      commit cancelled. */
  predicate GoesOn(turn: Turn) {
    turn.Message? && !(turn.decodes && turn.handles && turn.answer.CommitCanceled?)
  }

  /** The first turn that ends the loop, or their number. */
  function StopOf(turns: seq<Turn>): (n: nat)
    ensures n <= |turns| && (n < |turns| ==> !GoesOn(turns[n]))
    ensures forall i :: 0 <= i < n ==> GoesOn(turns[i])
  {
    if turns == [] || !GoesOn(turns[0]) then 0 else 1 + StopOf(turns[1..])
  }

  /** How many messages the loop takes: up to the stop and, if that is a message,
      including it. */
  function Taken(turns: seq<Turn>): (m: nat)
    ensures m <= |turns| && forall k :: 0 <= k < m ==> turns[k].Message?
  {
    var n := StopOf(turns);
    if n < |turns| && turns[n].Message? then n + 1 else n
  }

  /** How many of the first k turns are messages of the partition. */
  function Fetched(turns: seq<Turn>, k: nat, p: nat): nat
    requires k <= |turns|
  {
    if k == 0 then 0
    else Fetched(turns, k - 1, p) + if turns[k - 1].Message? && turns[k - 1].partition == p then 1 else 0
  }

  /** Only a decoded and handled message is committed, if its commit is applied;
      an acknowledged one is. */
  predicate CommitsTurn(turn: Turn) {
    turn.Message? && turn.decodes && turn.handles && (turn.applied || turn.answer.Acknowledged?)
  }

  /** The committed position after k turns from a cursor: one past the last message
      committed, or what it was. */
  function CommittedAfter(turns: seq<Turn>, k: nat, p: nat, c: Cursor): nat
    requires k <= |turns|
  {
    if k == 0 then c.committed
    else if CommitsTurn(turns[k - 1]) && turns[k - 1].partition == p then c.position + Fetched(turns, k, p)
    else CommittedAfter(turns, k - 1, p, c)
  }

  /** The record tells what became of the turn's message: not decoded, not
      handled, or handled; and whether it is committed. */
  predicate Tells(r: Record, turn: Turn) {
    && turn.Message? && r.partition == turn.partition
    && (r.fate.Undecodable? <==> !turn.decodes)
    && (r.fate.HandlerFailed? <==> turn.decodes && !turn.handles)
    && (r.fate.Handled? <==> turn.decodes && turn.handles)
    && (r.fate.Handled? ==> r.fate.answer == turn.answer && (r.fate.applied <==> CommitsTurn(turn)))
  }

  /** The i-th new record tells the i-th message, and is at the next offset of its
      partition. */
  predicate RecordOf(r: Record, cursors: map<nat, Cursor>, turns: seq<Turn>, i: nat)
    requires i < |turns|
  {
    && Tells(r, turns[i])
    && (r.partition in cursors ==> r.offset == cursors[r.partition].position + Fetched(turns, i, r.partition))
  }

  predicate RecordsOf(records: seq<Record>, cursors: map<nat, Cursor>, turns: seq<Turn>)
    requires |records| <= |turns|
  {
    forall i :: 0 <= i < |records| ==> RecordOf(records[i], cursors, turns, i)
  }

  function CursorAt(turns: seq<Turn>, k: nat, p: nat, c: Cursor): Cursor
    requires k <= |turns|
  {
    Cursor(c.position + Fetched(turns, k, p), CommittedAfter(turns, k, p, c))
  }

  /** What the first turns make of a state: a record for each message and nothing
      else, and the cursors of every partition. */
  ghost predicate Follows(s: State, s': State, turns: seq<Turn>, k: nat)
    requires k <= |turns|
  {
    && |s'.history| == |s.history| + k && s.history <= s'.history
    && RecordsOf(s'.history[|s.history|..], s.cursors, turns)
    && s'.cursors == map p | p in s.cursors :: CursorAt(turns, k, p, s.cursors[p])
  }

  lemma FollowsStep(s: State, s': State, turns: seq<Turn>, k: nat)
    requires k < |turns| && turns[k].Message? && turns[k].partition in s.cursors && Follows(s, s', turns, k)
    ensures Follows(s, Next(s', Deliver(turns[k].partition, FateOf(turns[k]))), turns, k + 1)
  {
    var p, fate := turns[k].partition, FateOf(turns[k]);
    var next := Next(s', Deliver(p, fate));
    var r := Record(p, s'.cursors[p].position, fate);
    var added := s'.history[|s.history|..];
    assert next.history == s'.history + [r];
    assert next.history[|s.history|..] == added + [r];
    RecordsSnoc(added, r, s.cursors, turns);
    CursorsStep(s.cursors, s'.cursors, turns, k);
  }

  lemma RecordsSnoc(added: seq<Record>, r: Record, cursors: map<nat, Cursor>, turns: seq<Turn>)
    requires |added| < |turns| && RecordsOf(added, cursors, turns) && RecordOf(r, cursors, turns, |added|)
    ensures RecordsOf(added + [r], cursors, turns)
  {
  }

  lemma CursorsStep(cursors: map<nat, Cursor>, cursors': map<nat, Cursor>, turns: seq<Turn>, k: nat)
    requires k < |turns| && turns[k].Message? && turns[k].partition in cursors
    requires cursors' == map p | p in cursors :: CursorAt(turns, k, p, cursors[p])
    ensures var (q, at) := (turns[k].partition, cursors'[turns[k].partition]);
      cursors'[q := Cursor(at.position + 1, if CommitsTurn(turns[k]) then at.position + 1 else at.committed)] ==
        map p | p in cursors :: CursorAt(turns, k + 1, p, cursors[p])
  {
  }

  /** The step can be taken in every state that owns these partitions. */
  predicate Deliverable(cursors: map<nat, Cursor>, step: Step) {
    step.Deliver? && step.partition in cursors && (step.fate.Handled? && step.fate.answer.Acknowledged? ==> step.fate.applied)
  }

  lemma {:induction false} FinalSnoc(s: State, steps: seq<Step>, d: Step)
    requires Deliverable(s.cursors, d) && forall x :: x in steps ==> Deliverable(s.cursors, x)
    ensures var s' := Final(s, steps);
      Enabled(s', d) && Final(s, steps + [d]) == Next(s', d)
    decreases steps
  {
    if steps == [] {
      assert (steps + [d])[1..] == [];
    } else {
      assert steps[0] in steps;
      var next := Next(s, steps[0]);
      assert next.cursors.Keys == s.cursors.Keys;
      assert forall x :: x in steps[1..] ==> x in steps;
      assert (steps + [d])[1..] == steps[1..] + [d];
      FinalSnoc(next, steps[1..], d);
    }
  }

  /** The deliveries are those of the messages taken, and the exit is that of the
      turn that stops the loop. */
  lemma {:induction false} DeliveriesTaken(turns: seq<Turn>)
    ensures var (n, m, ds) := (StopOf(turns), Taken(turns), Deliveries(turns));
      && |ds| == m && (forall k :: 0 <= k < m ==> ds[k] == Deliver(turns[k].partition, FateOf(turns[k])))
      && ExitOf(turns) == if n == |turns| then StillRunning
                          else if turns[n] == FetchFails(false) then Fatal else Stopped
    decreases turns
  {
    if turns != [] && GoesOn(turns[0]) {
      var rest := turns[1..];
      DeliveriesTaken(rest);
      assert Deliveries(turns) == [Deliver(turns[0].partition, FateOf(turns[0]))] + Deliveries(rest);
      assert Taken(turns) == 1 + Taken(rest);
      forall k | 0 < k < Taken(turns)
        ensures Deliveries(turns)[k] == Deliver(turns[k].partition, FateOf(turns[k]))
      {
        assert Deliveries(turns)[k] == Deliveries(rest)[k - 1] && turns[k] == rest[k - 1];
      }
    }
  }

  lemma FinalTake(s: State, turns: seq<Turn>, k: nat)
    requires Owned(s.cursors, turns) && k < Taken(turns)
    ensures |Deliveries(turns)| == Taken(turns)
    ensures var ds := Deliveries(turns);
      var d := Deliver(turns[k].partition, FateOf(turns[k]));
      Enabled(Final(s, ds[..k]), d) && Final(s, ds[..k + 1]) == Next(Final(s, ds[..k]), d)
  {
    var ds := Deliveries(turns);
    DeliveriesTaken(turns);
    forall x | x in ds[..k + 1] ensures Deliverable(s.cursors, x) {
      var i :| 0 <= i <= k && ds[i] == x;
      assert x == Deliver(turns[i].partition, FateOf(turns[i]));
    }
    assert ds[..k + 1] == ds[..k] + [ds[k]];
    assert ds[k] in ds[..k + 1];
    FinalSnoc(s, ds[..k], ds[k]);
  }

  lemma {:induction false} FirstTurnsFollow(s: State, turns: seq<Turn>, k: nat)
    requires Owned(s.cursors, turns) && k <= Taken(turns) && Taken(turns) == |Deliveries(turns)|
    ensures Follows(s, Final(s, Deliveries(turns)[..k]), turns, k)
    decreases k
  {
    if k == 0 {
      assert Follows(s, s, turns, 0);
    } else {
      FirstTurnsFollow(s, turns, k - 1);
      FinalTake(s, turns, k - 1);
      FollowsStep(s, Final(s, Deliveries(turns)[..k - 1]), turns, k - 1);
    }
  }

  /** What the loop has done when it stops or runs out of turns. */
  lemma LoopFollowsTurns(s: State, turns: seq<Turn>)
    requires Owned(s.cursors, turns)
    ensures Follows(s, Final(s, Deliveries(turns)), turns, Taken(turns))
  {
    DeliveriesTaken(turns);
    FirstTurnsFollow(s, turns, Taken(turns));
    assert Deliveries(turns)[..Taken(turns)] == Deliveries(turns);
  }

  /** Its exit is fatal exactly when the first turn that ends it is a fetch error
      other than a cancellation; it is still running when no turn ends it. */
  lemma ExitExactly(turns: seq<Turn>)
    ensures ExitOf(turns) == Fatal <==> exists n :: 0 <= n < |turns| && turns[n] == FetchFails(false)
                                          && forall i :: 0 <= i < n ==> GoesOn(turns[i])
    ensures ExitOf(turns) == StillRunning <==> forall i :: 0 <= i < |turns| ==> GoesOn(turns[i])
  {
    DeliveriesTaken(turns);
    var n := StopOf(turns);
    assert n < |turns| ==> !GoesOn(turns[n]);
  }

  /** Turns of which none is handled leave every committed position as it was. */
  lemma {:induction false} NoneHandledNoneCommitted(turns: seq<Turn>, k: nat, p: nat, c: Cursor)
    requires k <= |turns| && forall i :: 0 <= i < k && turns[i].Message? ==> !(turns[i].decodes && turns[i].handles)
    ensures CommittedAfter(turns, k, p, c) == c.committed
    decreases k
  {
    if k > 0 { NoneHandledNoneCommitted(turns, k - 1, p, c); }
  }

  /** Whatever the turns were, the loop leaves a safe partition safe. */
  lemma {:induction false} LoopStaysSafe(s: State, steps: seq<Step>, p: nat, start: nat)
    requires p in s.cursors && SafeAt(s, p, start)
    ensures var s' := Final(s, steps);
      p in s'.cursors && SafeAt(s', p, start) && s.cursors[p].committed <= s'.cursors[p].committed
    decreases steps
  {
    if steps != [] && Enabled(s, steps[0]) {
      StepKeepsSafe(s, steps[0], p, start);
      LoopStaysSafe(Next(s, steps[0]), steps[1..], p, start);
    }
  }
}
