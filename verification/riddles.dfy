/**
 * The five riddle handlers: answer validation for single-answer riddles
 * (1, 4, 5) and multi-question riddles (2, 3), and the hint toggles of
 * riddle 2.
 */
module Riddles {
  import opened Options
  import opened Clock
  import opened Screens
  import opened Quiz
  import opened State

  /** Riddles answered by picking one option. */
  type SingleNo = n: RiddleNo | n == 1 || n == 4 || n == 5 witness 1

  /** Riddles made of several sub-questions. */
  type MultiNo = n: RiddleNo | n == 2 || n == 3 witness 2

  /**
   * The common success path: report the whole seconds since the previous
   * success, stamp the success time, then move on — riddles 1 to 4 through a
   * modal whose continue action shows the next riddle, riddle 5 straight to
   * the pre-score screen.
   */
  function Succeed(s: Session, n: RiddleNo, now: int): (r: (Session, Feedback))
    ensures r.1 == Solved(n, SecondsSince(s.lastSuccessTime, now))
    ensures r.0.lastSuccessTime == Some(now)
    ensures SameProgress(s, r.0)
    ensures n < 5 ==> r.0.screen == s.screen && r.0.modal == Some(Next(RiddleScreen(n)))
    ensures n == 5 ==> r.0.screen == Next(RiddleScreen(5)) && r.0.modal == s.modal
  {
    var stamped := s.(lastSuccessTime := Some(now));
    var delta := SecondsSince(s.lastSuccessTime, now);
    if n == 5 then (stamped.(screen := PreScore), Solved(n, delta))
    else (stamped.(modal := Some(RiddleScreen(n + 1))), Solved(n, delta))
  }

  /** Validation of a single-answer riddle; `answer` is the selected option, "" when none is. */
  function ValidateSingle(cfg: Config, s: Session, n: SingleNo, answer: string, now: int): (r: (Session, Feedback))
    ensures FindRiddle(cfg.riddles, n).None? ==> r == (s, Ignored)
    ensures answer == "" ==> r.0 == s
    ensures FindRiddle(cfg.riddles, n).Some? && answer == "" ==> r.1 == ChooseOption
    ensures r.1.WrongAnswer? <==>
      FindRiddle(cfg.riddles, n).Some? && answer != "" && FindRiddle(cfg.riddles, n).value.correct != Some(answer)
    ensures r.1.WrongAnswer? ==> r.0 == s.(totalErrors := s.totalErrors + 1) && r.1 == WrongAnswer(n)
    ensures r.1.Solved? <==>
      FindRiddle(cfg.riddles, n).Some? && answer != "" && FindRiddle(cfg.riddles, n).value.correct == Some(answer)
    ensures r.1.Solved? ==> r == Succeed(s, n, now) && r.0.totalErrors == s.totalErrors
  {
    match FindRiddle(cfg.riddles, n)
    case None => (s, Ignored)
    case Some(riddle) =>
      if answer == "" then (s, ChooseOption)
      else if riddle.correct != Some(answer) then (s.(totalErrors := s.totalErrors + 1), WrongAnswer(n))
      else Succeed(s, n, now)
  }

  /** The answer to sub-question `i`: the value of its select, or "" when the select is missing. */
  function AnswerAt(answers: seq<string>, i: nat): string {
    if i < |answers| then answers[i] else ""
  }

  /** `answer && answer === q.correct`: an empty answer never counts. */
  predicate Matches(q: Question, answer: string) {
    answer != "" && q.correct == Some(answer)
  }

  /** Sub-question `i` exists and its answer matches its key. */
  predicate Hit(qs: seq<Question>, answers: seq<string>, i: nat) {
    i < |qs| && Matches(qs[i], AnswerAt(answers, i))
  }

  /** The sub-questions whose answer matches their key. */
  function Hits(qs: seq<Question>, answers: seq<string>): set<nat> {
    set i: nat | i < |qs| && Hit(qs, answers, i)
  }

  /** Number of sub-questions answered correctly. */
  function CountCorrect(qs: seq<Question>, answers: seq<string>): (k: nat)
    ensures k <= |qs|
    ensures k == |qs| <==> forall i :: 0 <= i < |qs| ==> Matches(qs[i], AnswerAt(answers, i))
  {
    if |qs| == 0 then 0
    else
      var init := qs[..|qs| - 1];
      var last := if Matches(qs[|qs| - 1], AnswerAt(answers, |qs| - 1)) then 1 else 0;
      assert forall i :: 0 <= i < |init| ==> init[i] == qs[i];
      CountCorrect(init, answers) + last
  }

  /** Unfolds the count at the last sub-question. */
  lemma CountCorrectLast(qs: seq<Question>, answers: seq<string>)
    requires |qs| > 0
    ensures CountCorrect(qs, answers) ==
      CountCorrect(qs[..|qs| - 1], answers) + (if Hit(qs, answers, |qs| - 1) then 1 else 0)
  {
  }

  /** Extending the sub-questions by one adds at most that last index to the matching set. */
  lemma HitsLast(qs: seq<Question>, answers: seq<string>)
    requires |qs| > 0
    ensures |Hits(qs, answers)| == |Hits(qs[..|qs| - 1], answers)| + (if Hit(qs, answers, |qs| - 1) then 1 else 0)
  {
    var n := |qs| - 1;
    var init := qs[..n];
    var extra: set<nat> := if Hit(qs, answers, n) then {n} else {};
    forall i: nat ensures i in Hits(qs, answers) <==> i in Hits(init, answers) + extra {
      if i < n {
        assert init[i] == qs[i];
        assert Hit(qs, answers, i) == Hit(init, answers, i);
      }
    }
    assert Hits(qs, answers) == Hits(init, answers) + extra;
    assert n !in Hits(init, answers);
  }

  /** The count is the number of sub-questions whose answer matches their key. */
  lemma {:induction false} CountCorrectIsHits(qs: seq<Question>, answers: seq<string>)
    ensures CountCorrect(qs, answers) == |Hits(qs, answers)|
  {
    if |qs| > 0 {
      CountCorrectIsHits(qs[..|qs| - 1], answers);
      CountCorrectLast(qs, answers);
      HitsLast(qs, answers);
    }
  }

  /** The counting loop of the validate handler of riddles 2 and 3. */
  method CountCorrectLoop(qs: seq<Question>, answers: seq<string>) returns (k: nat)
    ensures k == CountCorrect(qs, answers)
    ensures k <= |qs|
  {
    k := 0;
    var i := 0;
    while i < |qs|
      invariant 0 <= i <= |qs|
      invariant k == CountCorrect(qs[..i], answers)
    {
      assert qs[..i + 1][..i] == qs[..i];
      if Matches(qs[i], AnswerAt(answers, i)) {
        k := k + 1;
      }
      i := i + 1;
    }
    assert qs[..i] == qs;
  }

  /** A blank sub-answer always makes the count fall short. */
  lemma BlankAnswerFallsShort(qs: seq<Question>, answers: seq<string>, i: nat)
    requires i < |qs| && AnswerAt(answers, i) == ""
    ensures CountCorrect(qs, answers) < |qs|
  {
  }

  /** Validation of a multi-question riddle: it succeeds only when every sub-answer is right. */
  function ValidateMulti(cfg: Config, s: Session, n: MultiNo, answers: seq<string>, now: int): (r: (Session, Feedback))
    ensures FindRiddle(cfg.riddles, n).None? ==> r == (s, Ignored)
    ensures FindRiddle(cfg.riddles, n).Some? ==>
      var qs := FindRiddle(cfg.riddles, n).value.questions;
      && (r.1.Solved? <==> forall i :: 0 <= i < |qs| ==> Matches(qs[i], AnswerAt(answers, i)))
      && (!r.1.Solved? ==>
            && r.0 == s.(totalErrors := s.totalErrors + 1)
            && r.1.WrongAnswers?
            && r.1.riddle == n
            && r.1.correct == CountCorrect(qs, answers)
            && r.1.correct < r.1.total == |qs|)
    ensures r.1.Solved? ==> r == Succeed(s, n, now) && r.0.totalErrors == s.totalErrors
  {
    match FindRiddle(cfg.riddles, n)
    case None => (s, Ignored)
    case Some(riddle) =>
      var qs := riddle.questions;
      var correct := CountCorrect(qs, answers);
      if correct != |qs| then (s.(totalErrors := s.totalErrors + 1), WrongAnswers(n, correct, |qs|))
      else Succeed(s, n, now)
  }

  /**
   * A click on the hint button of sub-question `i` of riddle 2: the hint
   * text toggles; only the first reveal of that sub-question counts.
   */
  function RevealHint(cfg: Config, s: Session, i: nat): (r: (Session, Feedback))
    ensures r.1 == Ignored <==> FindRiddle(cfg.riddles, 2).None? || i >= |FindRiddle(cfg.riddles, 2).value.questions|
    ensures r.1 == Ignored ==> r.0 == s
    ensures r.1 != Ignored ==>
      && r.1 == HintToggled(i, i !in s.usedHints)
      && r.0.totalHints == s.totalHints + (if i in s.usedHints then 0 else 1)
      && r.0.usedHints == s.usedHints + {i}
      && (forall j :: j in r.0.hintsShown <==> (j in s.hintsShown) != (j == i))
      && r.0 == s.(totalHints := r.0.totalHints, usedHints := r.0.usedHints, hintsShown := r.0.hintsShown)
  {
    match FindRiddle(cfg.riddles, 2)
    case None => (s, Ignored)
    case Some(riddle) =>
      if i >= |riddle.questions| then (s, Ignored)
      else
        var shown := if i in s.hintsShown then s.hintsShown - {i} else s.hintsShown + {i};
        var first := i !in s.usedHints;
        var s' := s.(
          hintsShown := shown,
          usedHints := s.usedHints + {i},
          totalHints := s.totalHints + (if first then 1 else 0));
        (s', HintToggled(i, first))
  }

  /** A sequence of hint clicks, in order. */
  function RevealHints(cfg: Config, s: Session, clicks: seq<nat>): Session
  {
    if |clicks| == 0 then s
    else RevealHint(cfg, RevealHints(cfg, s, clicks[..|clicks| - 1]), clicks[|clicks| - 1]).0
  }

  /** How many times index `j` was clicked. */
  function ClickCount(clicks: seq<nat>, j: nat): nat {
    if |clicks| == 0 then 0
    else ClickCount(clicks[..|clicks| - 1], j) + (if clicks[|clicks| - 1] == j then 1 else 0)
  }

  function Elems(clicks: seq<nat>): set<nat> {
    set i | i in clicks
  }

  /** The clicks must hit existing hint buttons of riddle 2. */
  predicate ValidClicks(cfg: Config, clicks: seq<nat>) {
    && FindRiddle(cfg.riddles, 2).Some?
    && forall k :: 0 <= k < |clicks| ==> clicks[k] < |FindRiddle(cfg.riddles, 2).value.questions|
  }

  /** Unfolds the last click of a sequence. */
  lemma RevealLast(cfg: Config, s: Session, clicks: seq<nat>)
    requires ValidClicks(cfg, clicks) && |clicks| > 0
    ensures ValidClicks(cfg, clicks[..|clicks| - 1])
    ensures var r := RevealHint(cfg, RevealHints(cfg, s, clicks[..|clicks| - 1]), clicks[|clicks| - 1]);
      r.1 != Ignored && RevealHints(cfg, s, clicks) == r.0
  {
    var init := clicks[..|clicks| - 1];
    assert forall k :: 0 <= k < |init| ==> init[k] == clicks[k];
  }

  /** The last click of a valid sequence toggles its own hint and no other. */
  lemma LastClickToggles(cfg: Config, s: Session, clicks: seq<nat>)
    requires ValidClicks(cfg, clicks) && |clicks| > 0
    ensures ValidClicks(cfg, clicks[..|clicks| - 1])
    ensures forall j :: j in RevealHints(cfg, s, clicks).hintsShown <==>
      (j in RevealHints(cfg, s, clicks[..|clicks| - 1]).hintsShown) != (j == clicks[|clicks| - 1])
  {
    RevealLast(cfg, s, clicks);
  }

  /** The last click of a valid sequence counts a hint exactly when its index was not used yet. */
  lemma LastClickCounts(cfg: Config, s: Session, clicks: seq<nat>)
    requires ValidClicks(cfg, clicks) && |clicks| > 0
    ensures ValidClicks(cfg, clicks[..|clicks| - 1])
    ensures var mid := RevealHints(cfg, s, clicks[..|clicks| - 1]);
      RevealHints(cfg, s, clicks).totalHints ==
        mid.totalHints + (if clicks[|clicks| - 1] in mid.usedHints then 0 else 1)
  {
    RevealLast(cfg, s, clicks);
  }

  /** After any sequence of valid hint clicks, the used set has grown by exactly the clicked indices. */
  lemma {:induction false} HintsUsed(cfg: Config, s: Session, clicks: seq<nat>)
    requires ValidClicks(cfg, clicks)
    ensures RevealHints(cfg, s, clicks).usedHints == s.usedHints + Elems(clicks)
    ensures RevealHints(cfg, s, clicks).totalErrors == s.totalErrors
  {
    if |clicks| > 0 {
      var init := clicks[..|clicks| - 1];
      RevealLast(cfg, s, clicks);
      HintsUsed(cfg, s, init);
      assert clicks == init + [clicks[|clicks| - 1]];
      ElemsSnoc(init, clicks[|clicks| - 1]);
    }
  }

  /** The hint counter as the clicks drive it: each click adds one when its index is fresh. */
  function Tally(total: nat, used: set<nat>, clicks: seq<nat>): nat {
    if |clicks| == 0 then total
    else
      var init := clicks[..|clicks| - 1];
      Tally(total, used, init) + (if clicks[|clicks| - 1] in used + Elems(init) then 0 else 1)
  }

  /** The tally adds the number of distinct clicked indices that were not used before. */
  lemma {:induction false} TallyCountsFresh(total: nat, used: set<nat>, clicks: seq<nat>)
    ensures Tally(total, used, clicks) == total + |Elems(clicks) - used|
  {
    if |clicks| > 0 {
      var init := clicks[..|clicks| - 1];
      var x := clicks[|clicks| - 1];
      TallyCountsFresh(total, used, init);
      assert clicks == init + [x];
      ElemsSnoc(init, x);
      FreshCount(Elems(init), used, x);
    }
  }

  /** The session's hint counter follows the tally along valid clicks. */
  lemma {:induction false} HintsTally(cfg: Config, s: Session, clicks: seq<nat>)
    requires ValidClicks(cfg, clicks)
    ensures RevealHints(cfg, s, clicks).totalHints == Tally(s.totalHints, s.usedHints, clicks)
  {
    if |clicks| > 0 {
      var init := clicks[..|clicks| - 1];
      LastClickCounts(cfg, s, clicks);
      HintsTally(cfg, s, init);
      HintsUsed(cfg, s, init);
    }
  }

  /**
   * Over any sequence of clicks on existing hint buttons, the hint counter
   * rises by the number of distinct sub-questions not revealed before.
   */
  lemma HintCount(cfg: Config, s: Session, clicks: seq<nat>)
    requires ValidClicks(cfg, clicks)
    ensures RevealHints(cfg, s, clicks).totalHints == s.totalHints + |Elems(clicks) - s.usedHints|
  {
    HintsTally(cfg, s, clicks);
    TallyCountsFresh(s.totalHints, s.usedHints, clicks);
  }

  /**
   * Each click toggles its hint: a hint is displayed exactly when it was
   * displayed before and clicked an even number of times, or hidden before
   * and clicked an odd number of times.
   */
  lemma {:induction false} HintVisibility(cfg: Config, s: Session, clicks: seq<nat>)
    requires ValidClicks(cfg, clicks)
    ensures forall j :: j in RevealHints(cfg, s, clicks).hintsShown <==>
      (j in s.hintsShown) != (ClickCount(clicks, j) % 2 == 1)
  {
    if |clicks| > 0 {
      var init := clicks[..|clicks| - 1];
      var x := clicks[|clicks| - 1];
      var mid := RevealHints(cfg, s, init);
      var after := RevealHints(cfg, s, clicks);
      LastClickToggles(cfg, s, clicks);
      HintVisibility(cfg, s, init);
      forall j ensures j in after.hintsShown <==> (j in s.hintsShown) != (ClickCount(clicks, j) % 2 == 1) {
        assert ClickCount(clicks, j) == ClickCount(init, j) + (if j == x then 1 else 0);
      }
    }
  }

  lemma ElemsSnoc(init: seq<nat>, x: nat)
    ensures Elems(init + [x]) == Elems(init) + {x}
  {
  }

  /** Adding `x` to the clicked set adds one fresh index exactly when `x` was neither used nor clicked. */
  lemma FreshCount(clicked: set<nat>, used: set<nat>, x: nat)
    ensures |(clicked + {x}) - used| == |clicked - used| + (if x in used + clicked then 0 else 1)
  {
    if x !in used + clicked {
      assert (clicked + {x}) - used == (clicked - used) + {x};
    } else {
      assert (clicked + {x}) - used == clicked - used;
    }
  }
}
