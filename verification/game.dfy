/**
 * The whole page as a state machine: the events a participant (or the
 * splash timer) produces, one transition per event, and runs of events.
 */
module Game {
  import opened Options
  import opened Clock
  import opened Screens
  import opened Quiz
  import opened State
  import CodeEntry
  import opened Riddles
  import opened Score

  datatype Event =
    | SplashDone
    | SubmitCode(input: string)
    | StartRiddles
    | AnswerOne(single: SingleNo, answer: string)
    | AnswerAll(multi: MultiNo, answers: seq<string>)
    | ClickHint(index: nat)
    | ContinueModal
    | PreScoreButton
    | ScoreContinue

  /** An event with the clock reading (milliseconds) at which it happens. */
  datatype Timed = Timed(at: int, event: Event)

  /**
   * The page right after loading, given what browser storage holds. The
   * splash shows while the configuration loads; when loading fails the
   * page goes to the code screen.
   */
  function Boot(loaded: Option<Config>, userCode: string, startTime: Option<int>,
                lastSuccessTime: Option<int>, totalErrors: nat, totalHints: nat): (s: Session)
    ensures s.screen == (if loaded.Some? then Splash else Code)
    ensures s.modal.None? && s.usedHints == {} && s.hintsShown == {}
    ensures s.userCode == userCode && s.startTime == startTime && s.lastSuccessTime == lastSuccessTime
    ensures s.totalErrors == totalErrors && s.totalHints == totalHints
  {
    Session(userCode, startTime, lastSuccessTime, totalErrors, totalHints,
            if loaded.Some? then Splash else Code, None, {}, {})
  }

  /** `hideSplash`: the splash gives way to the code screen. */
  function HideSplash(s: Session): (r: (Session, Feedback))
    ensures OnlyNavigation(s, r.0) && r.0.modal == s.modal
    ensures r.0.screen == Code && r.1 == Moved(Code)
  {
    (s.(screen := Code), Moved(Code))
  }

  /** The instructions button: the first riddle is shown. */
  function EnterRiddles(s: Session): (r: (Session, Feedback))
    ensures OnlyNavigation(s, r.0) && r.0.modal == s.modal
    ensures r.0.screen == RiddleScreen(1) && r.1 == Moved(RiddleScreen(1))
  {
    (s.(screen := RiddleScreen(1)), Moved(RiddleScreen(1)))
  }

  /**
   * The continue action of the success modal (its button or its backdrop):
   * the modal closes and its continuation shows the screen it leads to.
   * Closing never changes where the participant is headed.
   */
  function CloseModal(s: Session): (r: (Session, Feedback))
    ensures s.modal.None? ==> r == (s, Ignored)
    ensures s.modal.Some? ==>
      && OnlyNavigation(s, r.0)
      && r.0.modal.None?
      && r.0.screen == s.modal.value
      && r.1 == Continued(s.modal.value)
    ensures Pending(r.0) == Pending(s)
  {
    match s.modal
    case None => (s, Ignored)
    case Some(target) => (s.(screen := target, modal := None), Continued(target))
  }

  /**
   * The pre-score button: it has a handler only when the configuration has
   * a pre-score page; it shows the score screen and fills it in.
   */
  function OpenScore(cfg: Config, s: Session, now: int): (r: (Session, Feedback))
    ensures !cfg.hasPreScorePage ==> r == (s, Ignored)
    ensures cfg.hasPreScorePage ==>
      && OnlyNavigation(s, r.0)
      && r.0.modal == s.modal
      && r.0.screen == Score
      && r.1 == ShowScore(s, now)
  {
    if cfg.hasPreScorePage then
      var shown := s.(screen := Score);
      (shown, ShowScore(shown, now))
    else (s, Ignored)
  }

  /** The score screen's continue button: the post-score screen is shown. */
  function LeaveScore(s: Session): (r: (Session, Feedback))
    ensures OnlyNavigation(s, r.0) && r.0.modal == s.modal
    ensures r.0.screen == PostScore && r.1 == Moved(PostScore)
  {
    (s.(screen := PostScore), Moved(PostScore))
  }

  /**
   * One event. Without a configuration no handler was ever installed, so
   * every event is ignored. Each stored value changes only under the
   * feedback of the handler that writes it.
   */
  function Step(loaded: Option<Config>, s: Session, e: Event, now: int): (r: (Session, Feedback))
    ensures loaded.None? ==> r == (s, Ignored)
    ensures r.1 == Ignored ==> r.0 == s
    ensures r.1.Moved? || r.1.Continued? || r.1.ScoreShown? ==> OnlyNavigation(s, r.0)
    ensures !r.1.CodeAccepted? ==> r.0.userCode == s.userCode && r.0.startTime == s.startTime
    ensures !(r.1.CodeAccepted? || r.1.Solved?) ==> r.0.lastSuccessTime == s.lastSuccessTime
    ensures !(r.1.CodeAccepted? || r.1.HintToggled?) ==> r.0.totalHints == s.totalHints
    ensures !r.1.HintToggled? ==> r.0.usedHints == s.usedHints && r.0.hintsShown == s.hintsShown
  {
    match loaded
    case None => (s, Ignored)
    case Some(cfg) =>
      match e
      case SplashDone => HideSplash(s)
      case SubmitCode(input) => CodeEntry.SubmitCode(cfg, s, input, now)
      case StartRiddles => EnterRiddles(s)
      case AnswerOne(n, answer) => ValidateSingle(cfg, s, n, answer, now)
      case AnswerAll(n, answers) => ValidateMulti(cfg, s, n, answers, now)
      case ClickHint(i) => RevealHint(cfg, s, i)
      case ContinueModal => CloseModal(s)
      case PreScoreButton => OpenScore(cfg, s, now)
      case ScoreContinue => LeaveScore(s)
  }

  /**
   * Whether the control behind an event can be reached: it lives on the
   * visible screen and no modal covers the page; while the modal is open
   * only its continue action (button or backdrop) can be used.
   */
  predicate Enabled(s: Session, e: Event) {
    match e
    case SplashDone => s.screen == Splash && s.modal.None?
    case SubmitCode(_) => s.screen == Code && s.modal.None?
    case StartRiddles => s.screen == Instructions && s.modal.None?
    case AnswerOne(n, _) => s.screen == RiddleScreen(n) && s.modal.None?
    case AnswerAll(n, _) => s.screen == RiddleScreen(n) && s.modal.None?
    case ClickHint(_) => s.screen == RiddleScreen(2) && s.modal.None?
    case ContinueModal => s.modal.Some?
    case PreScoreButton => s.screen == PreScore && s.modal.None?
    case ScoreContinue => s.screen == Score && s.modal.None?
  }

  /** Feedback that means the participant moved one screen forward (or has a modal leading there). */
  predicate Advances(f: Feedback) {
    f.CodeAccepted? || f.Solved? || f.Moved? || f.ScoreShown?
  }

  /**
   * A transition keeps the participant's destination, or moves it to the
   * next screen in the fixed order exactly when its feedback says so.
   */
  predicate FollowsOrder(s: Session, r: (Session, Feedback)) {
    && (Advances(r.1) ==> Pending(s) != PostScore && Pending(r.0) == Next(Pending(s)))
    && (!Advances(r.1) ==> Pending(r.0) == Pending(s))
  }

  lemma SubmitFollowsOrder(cfg: Config, s: Session, input: string, now: int)
    requires s.screen == Code && s.modal.None?
    ensures FollowsOrder(s, CodeEntry.SubmitCode(cfg, s, input, now))
  {
  }

  lemma SingleFollowsOrder(cfg: Config, s: Session, n: SingleNo, answer: string, now: int)
    requires s.screen == RiddleScreen(n) && s.modal.None?
    ensures FollowsOrder(s, ValidateSingle(cfg, s, n, answer, now))
  {
  }

  lemma MultiFollowsOrder(cfg: Config, s: Session, n: MultiNo, answers: seq<string>, now: int)
    requires s.screen == RiddleScreen(n) && s.modal.None?
    ensures FollowsOrder(s, ValidateMulti(cfg, s, n, answers, now))
  {
  }

  /**
   * Progression follows the fixed screen order: an enabled event either
   * leaves the participant's destination alone or moves it to the next
   * screen, and it moves exactly when the feedback says so.
   */
  lemma StepFollowsOrder(loaded: Option<Config>, s: Session, e: Event, now: int)
    requires Enabled(s, e)
    ensures var (s', f) := Step(loaded, s, e, now);
      && (Advances(f) ==> Pending(s) != PostScore && Pending(s') == Next(Pending(s)))
      && (!Advances(f) ==> Pending(s') == Pending(s))
  {
    if loaded.Some? {
      var cfg := loaded.value;
      match e
      case SubmitCode(input) => SubmitFollowsOrder(cfg, s, input, now);
      case AnswerOne(n, answer) => SingleFollowsOrder(cfg, s, n, answer, now);
      case AnswerAll(n, answers) => MultiFollowsOrder(cfg, s, n, answers, now);
      case _ =>
    }
  }

  /** The riddle an answer event is for. */
  function RiddleOf(e: Event): RiddleNo
    requires e.AnswerOne? || e.AnswerAll?
  {
    if e.AnswerOne? then e.single else e.multi
  }

  /** Solving riddle n < 5 keeps its screen under the modal; continuing then shows riddle n + 1. */
  lemma SolveThenContinue(cfg: Config, s: Session, e: Event, now: int, later: int)
    requires (e.AnswerOne? || e.AnswerAll?) && RiddleOf(e) < 5 && Enabled(s, e)
    requires Step(Some(cfg), s, e, now).1.Solved?
    ensures var s1 := Step(Some(cfg), s, e, now).0;
      && s1.screen == RiddleScreen(RiddleOf(e))
      && s1.modal.Some?
      && Step(Some(cfg), s1, ContinueModal, later).0.screen == RiddleScreen(RiddleOf(e) + 1)
  {
  }

  /** Riddle 5 leads straight to the pre-score screen, whose button leads to the score. */
  lemma LastRiddleToScore(cfg: Config, s: Session, answer: string, now: int, later: int)
    requires cfg.hasPreScorePage && Enabled(s, AnswerOne(5, answer))
    requires Step(Some(cfg), s, AnswerOne(5, answer), now).1.Solved?
    ensures var s1 := Step(Some(cfg), s, AnswerOne(5, answer), now).0;
      && s1.screen == PreScore && s1.modal.None?
      && Step(Some(cfg), s1, PreScoreButton, later).0.screen == Score
  {
  }

  /** A run of timed events, with the feedback of each. */
  function Run(loaded: Option<Config>, s: Session, evs: seq<Timed>): (Session, seq<Feedback>)
    decreases |evs|
  {
    if |evs| == 0 then (s, [])
    else
      var (s1, f) := Step(loaded, s, evs[0].event, evs[0].at);
      var (sn, fs) := Run(loaded, s1, evs[1..]);
      (sn, [f] + fs)
  }

  /** Every event of the run is enabled when it happens. */
  predicate EnabledRun(loaded: Option<Config>, s: Session, evs: seq<Timed>)
    decreases |evs|
  {
    |evs| == 0 ||
    (Enabled(s, evs[0].event) && EnabledRun(loaded, Step(loaded, s, evs[0].event, evs[0].at).0, evs[1..]))
  }

  function CountAdvances(fs: seq<Feedback>): nat {
    if |fs| == 0 then 0 else (if Advances(fs[0]) then 1 else 0) + CountAdvances(fs[1..])
  }

  /** Along an enabled run the destination moves forward once per advancing feedback, never back. */
  lemma {:induction false} RunFollowsOrder(loaded: Option<Config>, s: Session, evs: seq<Timed>)
    requires EnabledRun(loaded, s, evs)
    ensures Rank(Pending(Run(loaded, s, evs).0)) == Rank(Pending(s)) + CountAdvances(Run(loaded, s, evs).1)
    decreases |evs|
  {
    if |evs| > 0 {
      var (s1, f) := Step(loaded, s, evs[0].event, evs[0].at);
      StepFollowsOrder(loaded, s, evs[0].event, evs[0].at);
      RunFollowsOrder(loaded, s1, evs[1..]);
      var fs := Run(loaded, s1, evs[1..]).1;
      assert ([f] + fs)[1..] == fs;
    }
  }

  predicate IsError(f: Feedback) {
    f.WrongAnswer? || f.WrongAnswers?
  }

  function CountErrors(fs: seq<Feedback>): nat {
    if |fs| == 0 then 0 else (if IsError(fs[0]) then 1 else 0) + CountErrors(fs[1..])
  }

  /** Apart from accepting a code, an event adds one error exactly when its feedback reports one. */
  lemma StepCountsErrors(loaded: Option<Config>, s: Session, e: Event, now: int)
    ensures var (s', f) := Step(loaded, s, e, now);
      f != CodeAccepted ==> s'.totalErrors == s.totalErrors + (if IsError(f) then 1 else 0)
  {
  }

  /**
   * Until a new code is accepted, the error counter grows by one for each
   * wrong validation and by nothing else.
   */
  lemma {:induction false} RunCountsErrors(loaded: Option<Config>, s: Session, evs: seq<Timed>)
    requires CodeAccepted !in Run(loaded, s, evs).1
    ensures Run(loaded, s, evs).0.totalErrors == s.totalErrors + CountErrors(Run(loaded, s, evs).1)
    decreases |evs|
  {
    if |evs| > 0 {
      var (s1, f) := Step(loaded, s, evs[0].event, evs[0].at);
      var fs := Run(loaded, s1, evs[1..]).1;
      assert Run(loaded, s, evs).1 == [f] + fs;
      assert ([f] + fs)[1..] == fs;
      assert CodeAccepted !in fs;
      StepCountsErrors(loaded, s, evs[0].event, evs[0].at);
      RunCountsErrors(loaded, s1, evs[1..]);
    }
  }

  /** When the configuration failed to load, nothing the participant does changes the session. */
  lemma {:induction false} RunWithoutConfig(s: Session, evs: seq<Timed>)
    ensures Run(None, s, evs).0 == s
  {
    if |evs| > 0 {
      RunWithoutConfig(s, evs[1..]);
    }
  }

  /**
   * The stored times are chained: once a start time is stored, the last
   * success time is stored too and lies between the start and the clock.
   */
  predicate Chronological(s: Session, clock: int) {
    s.startTime.Some? ==>
      s.lastSuccessTime.Some? && s.startTime.value <= s.lastSuccessTime.value <= clock
  }

  lemma StepKeepsChronology(loaded: Option<Config>, s: Session, e: Event, clock: int, now: int)
    requires Chronological(s, clock) && clock <= now
    ensures Chronological(Step(loaded, s, e, now).0, now)
  {
  }

  /** Every event happens no earlier than the one before it, the first no earlier than `clock`. */
  predicate ClockFrom(evs: seq<Timed>, clock: int)
    decreases |evs|
  {
    |evs| == 0 || (clock <= evs[0].at && ClockFrom(evs[1..], evs[0].at))
  }

  lemma {:induction false} RunKeepsChronology(loaded: Option<Config>, s: Session, evs: seq<Timed>, clock: int)
    requires Chronological(s, clock) && ClockFrom(evs, clock)
    ensures Chronological(Run(loaded, s, evs).0, if |evs| == 0 then clock else evs[|evs| - 1].at)
    decreases |evs|
  {
    if |evs| > 0 {
      var s1 := Step(loaded, s, evs[0].event, evs[0].at).0;
      StepKeepsChronology(loaded, s, evs[0].event, clock, evs[0].at);
      RunKeepsChronology(loaded, s1, evs[1..], evs[0].at);
      if |evs| > 1 {
        assert evs[1..][|evs[1..]| - 1] == evs[|evs| - 1];
      }
    }
  }

  /**
   * On a chronological session with a positive start time, the seconds
   * reported at a success are present, non-negative, and at most the
   * seconds since the start.
   */
  lemma SolvedDeltaBounded(loaded: Option<Config>, s: Session, e: Event, clock: int, now: int)
    requires Chronological(s, clock) && clock <= now
    requires s.startTime.Some? && s.startTime.value > 0
    requires Step(loaded, s, e, now).1.Solved?
    ensures var d := Step(loaded, s, e, now).1.delta;
      && d.Some? && 0 <= d.value <= SecondsSince(s.startTime, now).value
  {
    var last := s.lastSuccessTime.value;
    WholeSecondsMonotonic(now - last, now - s.startTime.value);
    WholeSecondsMonotonic(0, now - last);
  }
}
