/**
 * The session record: the five values the page keeps in browser storage,
 * plus the page state the transitions act on (visible screen, open modal,
 * and the hint bookkeeping of riddle 2).
 */
module State {
  import opened Options
  import opened Screens

  datatype Session = Session(
    userCode: string,
    /** Stored start time; `None` when absent or not a number. */
    startTime: Option<int>,
    /** Stored time of the last success (or of code entry). */
    lastSuccessTime: Option<int>,
    totalErrors: nat,
    totalHints: nat,
    /** The one visible screen. */
    screen: Screen,
    /** The success modal, when open, with the screen its continue action shows. */
    modal: Option<Screen>,
    /** Riddle-2 sub-questions whose hint has been revealed at least once on this page load. */
    usedHints: set<nat>,
    /** Riddle-2 sub-questions whose hint text is currently displayed. */
    hintsShown: set<nat>)

  /** Where the participant is headed: the open modal's target, or else the current screen. */
  function Pending(s: Session): Screen {
    if s.modal.Some? then s.modal.value else s.screen
  }

  /** The fields a riddle success leaves alone. */
  predicate SameProgress(a: Session, b: Session) {
    && a.userCode == b.userCode
    && a.startTime == b.startTime
    && a.totalErrors == b.totalErrors
    && a.totalHints == b.totalHints
    && a.usedHints == b.usedHints
    && a.hintsShown == b.hintsShown
  }

  /** `b` differs from `a` at most in the visible screen and the modal. */
  predicate OnlyNavigation(a: Session, b: Session) {
    b == a.(screen := b.screen, modal := b.modal)
  }

  /** What a handler reports: the message it shows and the analytics event it sends. */
  datatype Feedback =
    | Ignored
    | CodeRejected
    | CodeFault
    | CodeAccepted
    | ChooseOption
    | WrongAnswer(riddle: RiddleNo)
    | WrongAnswers(riddle: RiddleNo, correct: nat, total: nat)
    | Solved(riddle: RiddleNo, delta: Option<int>)
    | HintToggled(index: nat, firstUse: bool)
    | Moved(to: Screen)
    | Continued(to: Screen)
    | ScoreShown(time: string, errors: nat, hints: nat)
}
