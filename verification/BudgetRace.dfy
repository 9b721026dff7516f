/**
 * Concurrent polls of the water budget. A poll awaits between reading the state and writing the
 * stepped one, so polls interleave; each action below is what one poll does between two awaits.
 */
module BudgetRace {
  import opened Common
  import opened SoilMoisture
  import opened StateStore
  import opened WaterBudget

  /** Where a poll is; read is the state it saw, next the state it is about to write. */
  datatype Proc =
    | Fetching
    | Deciding
    | AwaitingBaseline(read: Option<BudgetState>)
    | Writing(next: BudgetState, answer: Answer)
    | Finished(result: Result<Answer, int>)

  datatype System = System(store: map<string, BudgetState>, procs: seq<Proc>)

  function Read(sys: System, key: string): Option<BudgetState> {
    Lookup(sys.store, key)
  }

  /** The next action of one poll. */
  function Act(sys: System, polls: seq<Poll>, i: nat): System
    requires i < |sys.procs| == |polls|
  {
    var poll := polls[i];
    match sys.procs[i]
    case Fetching => sys.(procs := sys.procs[i := Deciding])
    case Deciding =>
      var prev := Read(sys, poll.key);
      var proc := match AfterRead(prev, poll)
                  case Return(answer) => Finished(answer)
                  case Advance => AwaitingBaseline(prev);
      sys.(procs := sys.procs[i := proc])
    case AwaitingBaseline(read) =>
      if poll.weather.Unavailable? then sys
      else
        var r := Step(read, InputOf(poll));
        sys.(procs := sys.procs[i := Writing(r.state, AdvancedAnswer(poll, r))])
    case Writing(next, answer) =>
      System(sys.store[poll.key := next], sys.procs[i := Finished(Ok(answer))])
    case Finished(_) => sys
  }

  predicate Schedules(schedule: seq<nat>, polls: seq<Poll>) {
    forall k :: 0 <= k < |schedule| ==> schedule[k] < |polls|
  }

  /** The system after the polls have acted in the order of the schedule. */
  function Execute(sys: System, polls: seq<Poll>, schedule: seq<nat>): (end: System)
    requires |sys.procs| == |polls| && Schedules(schedule, polls)
    ensures |end.procs| == |polls|
  {
    if schedule == [] then sys
    else
      var before := Execute(sys, polls, schedule[..|schedule| - 1]);
      Act(before, polls, schedule[|schedule| - 1])
  }

  predicate Fresh(sys: System, polls: seq<Poll>) {
    |sys.procs| == |polls| && forall i :: 0 <= i < |polls| ==> sys.procs[i] == Fetching
  }

  /** A poll of the location with usable weather. */
  predicate Counts(poll: Poll, key: string) {
    poll.key == key && HasWeather(poll)
  }

  /** All polls of the location with usable weather see the same local date. */
  predicate ShareDate(polls: seq<Poll>, key: string, date: int) {
    forall poll <- polls :: Counts(poll, key) ==> poll.weather.today == date
  }

  /** The stepped state of the given poll, had it run alone on the base state. */
  function SoloState(base: Option<BudgetState>, poll: Poll): BudgetState
    requires poll.weather.Available?
  {
    Step(base, InputOf(poll)).state
  }

  /** The base state itself, or one poll's step from it. */
  ghost predicate OneStep(state: Option<BudgetState>, base: Option<BudgetState>, polls: seq<Poll>, key: string) {
    || state == base
    || exists i :: 0 <= i < |polls| && Counts(polls[i], key) && state == Some(SoloState(base, polls[i]))
  }

  ghost predicate ProcOk(proc: Proc, base: Option<BudgetState>, poll: Poll) {
    match proc
    case AwaitingBaseline(read) => HasWeather(poll) && read == base
    case Writing(next, answer) => HasWeather(poll) && next == SoloState(base, poll)
                                    && answer.heldScale == next.lastScale
    case Finished(Ok(answer)) => answer.kind.Advanced? ==>
      HasWeather(poll) && answer.heldScale == SoloState(base, poll).lastScale
    case _ => true
  }

  ghost predicate Invariant(sys: System, base: Option<BudgetState>, polls: seq<Poll>, key: string) {
    && |sys.procs| == |polls|
    && OneStep(Read(sys, key), base, polls, key)
    && forall i :: 0 <= i < |polls| && polls[i].key == key ==> ProcOk(sys.procs[i], base, polls[i])
  }

  /** A stepped state locks its day, so whoever goes on to the model has read the base state. */
  lemma SteppedStateIsLocked(base: Option<BudgetState>, poll: Poll)
    requires poll.weather.Available?
    ensures Some(SoloState(base, poll)) == base || Locked(Some(SoloState(base, poll)), poll.weather.today)
  {
  }

  lemma OnlyBaseGoesOn(state: Option<BudgetState>, base: Option<BudgetState>, polls: seq<Poll>, key: string, date: int,
                       i: nat)
    requires OneStep(state, base, polls, key) && ShareDate(polls, key, date)
    requires i < |polls| && polls[i].key == key && AfterRead(state, polls[i]).Advance?
    ensures state == base && HasWeather(polls[i])
  {
    if state != base {
      var j :| 0 <= j < |polls| && Counts(polls[j], key) && state == Some(SoloState(base, polls[j]));
      assert polls[i] in polls && polls[j] in polls;
      SteppedStateIsLocked(base, polls[j]);
    }
  }

  lemma ActKeepsInvariant(sys: System, base: Option<BudgetState>, polls: seq<Poll>, key: string, date: int, i: nat)
    requires Invariant(sys, base, polls, key) && ShareDate(polls, key, date) && i < |polls|
    ensures Invariant(Act(sys, polls, i), base, polls, key)
  {
    if polls[i].key == key && sys.procs[i] == Deciding && AfterRead(Read(sys, key), polls[i]).Advance? {
      OnlyBaseGoesOn(Read(sys, key), base, polls, key, date, i);
    }
    var next := Act(sys, polls, i);
    if sys.procs[i].Writing? {
      if polls[i].key == key {
        assert Read(next, key) == Some(SoloState(base, polls[i]));
      } else {
        assert Read(next, key) == Read(sys, key);
      }
    } else {
      assert next.store == sys.store;
    }
  }

  lemma {:induction false} ExecuteKeepsInvariant(sys: System, polls: seq<Poll>, key: string, date: int,
                                                 schedule: seq<nat>)
    requires Fresh(sys, polls) && ShareDate(polls, key, date) && Schedules(schedule, polls)
    ensures Invariant(Execute(sys, polls, schedule), Read(sys, key), polls, key)
  {
    if schedule != [] {
      var n := |schedule| - 1;
      ExecuteKeepsInvariant(sys, polls, key, date, schedule[..n]);
      ActKeepsInvariant(Execute(sys, polls, schedule[..n]), Read(sys, key), polls, key, date, schedule[n]);
    }
  }

  /**
   * However many polls of one location and date race, under every schedule the persisted state is
   * the day's starting state or exactly one step from it.
   */
  lemma DayIsCreditedOnce(sys: System, polls: seq<Poll>, key: string, date: int, schedule: seq<nat>)
    requires Fresh(sys, polls) && ShareDate(polls, key, date) && Schedules(schedule, polls)
    ensures OneStep(Read(Execute(sys, polls, schedule), key), Read(sys, key), polls, key)
  {
    ExecuteKeepsInvariant(sys, polls, key, date, schedule);
  }

  /** In water: the bank moved by one poll's ledger of the day, or not at all. */
  lemma RaceMovesOneDaysWater(sys: System, polls: seq<Poll>, key: string, date: int, schedule: seq<nat>)
    requires Fresh(sys, polls) && ShareDate(polls, key, date) && Schedules(schedule, polls)
    ensures var base, now := Read(sys, key), Read(Execute(sys, polls, schedule), key);
            || now == base
            || exists i :: 0 <= i < |polls| && Counts(polls[i], key) &&
                           (var day := DayLedger(base, InputOf(polls[i]));
                            Bank(base) + day.rain == day.met + day.spill + day.dropped + Bank(now))
  {
    var base, now := Read(sys, key), Read(Execute(sys, polls, schedule), key);
    DayIsCreditedOnce(sys, polls, key, date, schedule);
    if now != base {
      var i :| 0 <= i < |polls| && Counts(polls[i], key) && now == Some(SoloState(base, polls[i]));
      ParametersAreUsable(polls[i]);
      DayConserves(base, InputOf(polls[i]));
    }
  }

  /** Every poll that went through the model answers as if it had been alone that day. */
  lemma AdvancedPollsAnswerAlone(sys: System, polls: seq<Poll>, key: string, date: int, schedule: seq<nat>, i: nat)
    requires Fresh(sys, polls) && ShareDate(polls, key, date) && Schedules(schedule, polls)
    requires i < |polls| && polls[i].key == key
    ensures var proc := Execute(sys, polls, schedule).procs[i];
            proc.Finished? && proc.result.Ok? && proc.result.value.kind.Advanced? ==>
              HasWeather(polls[i]) && proc.result.value.heldScale == SoloState(Read(sys, key), polls[i]).lastScale
  {
    ExecuteKeepsInvariant(sys, polls, key, date, schedule);
  }

  // ------------------------------------------------------------------ when the stored date can go back

  /** The first state is not newer than the second. */
  predicate NotLater(a: Option<BudgetState>, b: Option<BudgetState>) {
    a.Some? ==> b.Some? && a.value.lastUpdated <= b.value.lastUpdated
  }

  /** Under no schedule does the stored date of the location go back. */
  ghost predicate NeverRewinds(sys: System, polls: seq<Poll>, key: string)
    requires |sys.procs| == |polls|
  {
    forall schedule: seq<nat>, m: nat | Schedules(schedule, polls) && m <= |schedule| ::
      NotLater(Read(Execute(sys, polls, schedule[..m]), key), Read(Execute(sys, polls, schedule), key))
  }

  /** The usable polls of the location share one date, and the state that they start from is not newer. */
  predicate OneDateNotBefore(base: Option<BudgetState>, polls: seq<Poll>, key: string) {
    && (forall p <- polls :: Counts(p, key) ==> base.None? || base.value.lastUpdated <= p.weather.today)
    && (forall p <- polls, q <- polls :: Counts(p, key) && Counts(q, key) ==> p.weather.today == q.weather.today)
  }

  /**
   * The stored date never goes back, whatever the schedule, exactly when the location's usable
   * polls share one date and start from a state that is not newer.
   */
  lemma NeverRewindsIff(sys: System, polls: seq<Poll>, key: string)
    requires Fresh(sys, polls)
    ensures NeverRewinds(sys, polls, key) <==> OneDateNotBefore(Read(sys, key), polls, key)
  {
    var base := Read(sys, key);
    if OneDateNotBefore(base, polls, key) {
      forall schedule: seq<nat>, m: nat | Schedules(schedule, polls) && m <= |schedule|
        ensures NotLater(Read(Execute(sys, polls, schedule[..m]), key), Read(Execute(sys, polls, schedule), key))
      {
        DatesOnlyGrow(sys, polls, key, schedule, m);
      }
    } else if i :| 0 <= i < |polls| && Counts(polls[i], key) &&
                   base.Some? && base.value.lastUpdated > polls[i].weather.today {
      SoloRunWrites(sys, polls, [], i);
      assert !NotLater(Read(Execute(sys, polls, ([] + Solo(i))[..0]), key),
                       Read(Execute(sys, polls, [] + Solo(i)), key));
    } else {
      var p, q :| p in polls && q in polls && Counts(p, key) && Counts(q, key) && p.weather.today < q.weather.today;
      var i, j :| 0 <= i < |polls| && 0 <= j < |polls| && polls[i] == p && polls[j] == q;
      LaterThenEarlier(sys, polls, key, i, j);
    }
  }

  /** The common date of the usable polls, or the stored one when there are none. */
  ghost predicate Dated(base: Option<BudgetState>, polls: seq<Poll>, key: string, date: int) {
    ShareDate(polls, key, date) && (base.Some? ==> base.value.lastUpdated <= date)
  }

  lemma CommonDate(base: Option<BudgetState>, polls: seq<Poll>, key: string) returns (date: int)
    requires OneDateNotBefore(base, polls, key)
    ensures Dated(base, polls, key, date)
  {
    if p :| p in polls && Counts(p, key) {
      date := p.weather.today;
    } else {
      date := if base.Some? then base.value.lastUpdated else 0;
    }
  }

  lemma ActNeverRewinds(sys: System, base: Option<BudgetState>, polls: seq<Poll>, key: string, date: int, i: nat)
    requires Invariant(sys, base, polls, key) && Dated(base, polls, key, date) && i < |polls|
    ensures NotLater(Read(sys, key), Read(Act(sys, polls, i), key))
  {
    assert Read(sys, key).Some? ==> Read(sys, key).value.lastUpdated <= date;
    if sys.procs[i].Writing? && polls[i].key == key {
      assert polls[i] in polls;
      assert SoloState(base, polls[i]).lastUpdated == date;
    }
  }

  lemma {:induction false} DatesOnlyGrow(sys: System, polls: seq<Poll>, key: string, schedule: seq<nat>, m: nat)
    requires Fresh(sys, polls) && OneDateNotBefore(Read(sys, key), polls, key)
    requires Schedules(schedule, polls) && m <= |schedule|
    ensures NotLater(Read(Execute(sys, polls, schedule[..m]), key), Read(Execute(sys, polls, schedule), key))
  {
    var n := |schedule| - 1;
    if m == |schedule| {
      assert schedule[..m] == schedule;
    } else {
      var date := CommonDate(Read(sys, key), polls, key);
      assert schedule[..n][..m] == schedule[..m];
      DatesOnlyGrow(sys, polls, key, schedule[..n], m);
      ExecuteKeepsInvariant(sys, polls, key, date, schedule[..n]);
      ActNeverRewinds(Execute(sys, polls, schedule[..n]), Read(sys, key), polls, key, date, schedule[n]);
    }
  }

  // ------------------------------------------------------------------ schedules that rewind

  /** A poll's four actions in a row. */
  function Solo(i: nat): seq<nat> {
    [i, i] + [i, i]
  }

  /** A poll that nobody interrupts leaves the step from the state it found, unless its date is stored already. */
  lemma SoloRunWrites(sys: System, polls: seq<Poll>, schedule: seq<nat>, i: nat)
    requires |sys.procs| == |polls| && Schedules(schedule, polls) && i < |polls| && HasWeather(polls[i])
    requires Execute(sys, polls, schedule).procs[i] == Fetching
    ensures var s, t, key := Execute(sys, polls, schedule), Execute(sys, polls, schedule + Solo(i)), polls[i].key;
            && Read(t, key).Some? && Read(t, key).value.lastUpdated == polls[i].weather.today
            && forall j :: 0 <= j < |polls| && j != i ==> t.procs[j] == s.procs[j]
  {
    var s, key := Execute(sys, polls, schedule), polls[i].key;
    assert schedule + Solo(i) == schedule + [i, i] + [i, i];
    if AfterRead(Read(s, key), polls[i]).Advance? {
      ReachesModel(sys, polls, schedule, i);
      WritesBack(sys, polls, schedule + [i, i], i);
      assert SoloState(Read(s, key), polls[i]).lastUpdated == polls[i].weather.today;
    } else {
      ExecuteTwice(sys, polls, schedule, i);
      ExecuteTwice(sys, polls, schedule + [i, i], i);
    }
  }

  /** A poll that nobody interrupts is the whole poll: same answer, same state. */
  lemma SoloRunIsPollOnce(sys: System, polls: seq<Poll>, schedule: seq<nat>, i: nat)
    requires |sys.procs| == |polls| && Schedules(schedule, polls) && i < |polls|
    requires Execute(sys, polls, schedule).procs[i] == Fetching
    ensures var s, t := Execute(sys, polls, schedule), Execute(sys, polls, schedule + Solo(i));
            var (answer, next) := PollOnce(Read(s, polls[i].key), polls[i]);
            t.procs == s.procs[i := Finished(answer)] && t.store == Updated(s.store, polls[i].key, next)
  {
    var s := Execute(sys, polls, schedule);
    assert schedule + Solo(i) == schedule + [i, i] + [i, i];
    ExecuteTwice(sys, polls, schedule, i);
    ExecuteTwice(sys, polls, schedule + [i, i], i);
    var deciding := s.(procs := s.procs[i := Deciding]);
    assert Act(s, polls, i) == deciding;
    if AfterRead(Read(s, polls[i].key), polls[i]).Advance? {
      ReachesModel(sys, polls, schedule, i);
    } else {
      assert Act(deciding, polls, i).procs == s.procs[i := Finished(PollOnce(Read(s, polls[i].key), polls[i]).0)];
    }
  }

  /** One poll after the other, the later date first, puts the stored date back. */
  lemma LaterThenEarlier(sys: System, polls: seq<Poll>, key: string, i: nat, j: nat)
    requires Fresh(sys, polls) && i < |polls| && j < |polls|
    requires Counts(polls[i], key) && Counts(polls[j], key) && polls[i].weather.today < polls[j].weather.today
    ensures !NeverRewinds(sys, polls, key)
  {
    SoloRunWrites(sys, polls, [], j);
    SoloRunWrites(sys, polls, [] + Solo(j), i);
    var first, then_ := [] + Solo(j), [] + Solo(j) + Solo(i);
    assert then_[..|first|] == first;
    assert !NotLater(Read(Execute(sys, polls, then_[..|first|]), key), Read(Execute(sys, polls, then_), key));
  }

  /**
   * Two polls that started in the order of their dates can do it as well: the one of the old day
   * reads before midnight and writes last, and puts the old day's state back over the new day's,
   * so that the new day can be credited again. Any state that neither date is stored in will do.
   */
  lemma CrossMidnightWriterRewinds(sys: System, polls: seq<Poll>, key: string, i: nat, j: nat)
    returns (early: seq<nat>, late: seq<nat>)
    requires Fresh(sys, polls) && i < |polls| && j < |polls|
    requires Counts(polls[i], key) && Counts(polls[j], key) && polls[i].weather.today < polls[j].weather.today
    requires Advances(Read(sys, key), polls[i]) && Advances(Read(sys, key), polls[j])
    ensures Schedules(late, polls) && early <= late && late != [] && late[0] == i
    ensures var base, first, then_ := Read(sys, key), Execute(sys, polls, early), Execute(sys, polls, late);
            && Read(first, key) == Some(SoloState(base, polls[j]))
            && Read(then_, key) == Some(SoloState(base, polls[i]))
            && Read(then_, key).value.lastUpdated < Read(first, key).value.lastUpdated
            && Advances(Read(then_, key), polls[j])
  {
    var oldRead := [] + [i, i];
    var bothRead := oldRead + [j, j];
    early := bothRead + [j, j];
    late := early + [i, i];
    ReachesModel(sys, polls, [], i);
    ReachesModel(sys, polls, oldRead, j);
    WritesBack(sys, polls, bothRead, j);
    WritesBack(sys, polls, early, i);
  }

  lemma ReachesModel(sys: System, polls: seq<Poll>, schedule: seq<nat>, i: nat)
    requires |sys.procs| == |polls| && Schedules(schedule, polls) && i < |polls|
    requires var s := Execute(sys, polls, schedule);
             s.procs[i] == Fetching && AfterRead(Read(s, polls[i].key), polls[i]).Advance?
    ensures var s := Execute(sys, polls, schedule);
            Execute(sys, polls, schedule + [i, i]) == s.(procs := s.procs[i := AwaitingBaseline(Read(s, polls[i].key))])
  {
    var s := Execute(sys, polls, schedule);
    ExecuteTwice(sys, polls, schedule, i);
    var deciding := s.(procs := s.procs[i := Deciding]);
    assert Act(s, polls, i) == deciding;
    assert Act(deciding, polls, i).procs == s.procs[i := AwaitingBaseline(Read(s, polls[i].key))];
  }

  lemma WritesBack(sys: System, polls: seq<Poll>, schedule: seq<nat>, i: nat)
    requires |sys.procs| == |polls| && Schedules(schedule, polls) && i < |polls| && polls[i].weather.Available?
    requires Execute(sys, polls, schedule).procs[i].AwaitingBaseline?
    ensures var s, t := Execute(sys, polls, schedule), Execute(sys, polls, schedule + [i, i]);
            && t.store == s.store[polls[i].key := SoloState(s.procs[i].read, polls[i])]
            && forall j :: 0 <= j < |polls| && j != i ==> t.procs[j] == s.procs[j]
  {
    ExecuteTwice(sys, polls, schedule, i);
  }

  lemma ExecuteTwice(sys: System, polls: seq<Poll>, schedule: seq<nat>, i: nat)
    requires |sys.procs| == |polls| && Schedules(schedule, polls) && i < |polls|
    ensures Execute(sys, polls, schedule + [i, i]) == Act(Act(Execute(sys, polls, schedule), polls, i), polls, i)
  {
    ExecuteExtends(sys, polls, schedule, i);
    ExecuteExtends(sys, polls, schedule + [i], i);
    assert schedule + [i] + [i] == schedule + [i, i];
  }

  lemma ExecuteExtends(sys: System, polls: seq<Poll>, schedule: seq<nat>, i: nat)
    requires |sys.procs| == |polls| && Schedules(schedule, polls) && i < |polls|
    ensures Execute(sys, polls, schedule + [i]) == Act(Execute(sys, polls, schedule), polls, i)
  {
    assert (schedule + [i])[..|schedule|] == schedule;
  }
}
