/**
 * The screens of the quiz page and the navigator that shows one of them.
 * Each screen is a DOM element of class `screen` with a fixed id.
 */
module Screens {
  import Text

  /** Riddle numbers: the configuration holds riddles 1 to 5, played in ascending order. */
  type RiddleNo = n: int | 1 <= n <= 5 witness 1

  datatype Screen =
    | Splash
    | Code
    | Instructions
    | RiddleScreen(n: RiddleNo)
    | PreScore
    | Score
    | PostScore

  /** The element id of each screen. */
  function Id(s: Screen): string {
    match s
    case Splash => "screen-splash"
    case Code => "screen-code"
    case Instructions => "screen-instructions"
    case RiddleScreen(n) => "screen-riddle" + [Text.Digit(n)]
    case PreScore => "screen-preScore"
    case Score => "screen-score"
    case PostScore => "screen-postScore"
  }

  /** The screens in the order a participant goes through them. */
  const Order: seq<Screen> := [
    Splash, Code, Instructions,
    RiddleScreen(1), RiddleScreen(2), RiddleScreen(3), RiddleScreen(4), RiddleScreen(5),
    PreScore, Score, PostScore]

  /** Position of a screen in `Order`. */
  function Rank(s: Screen): (k: nat)
    ensures k < |Order| && Order[k] == s
  {
    match s
    case Splash => 0
    case Code => 1
    case Instructions => 2
    case RiddleScreen(n) => 2 + n
    case PreScore => 8
    case Score => 9
    case PostScore => 10
  }

  /** The screen that follows `s`; the post-score screen is the last. */
  function Next(s: Screen): (r: Screen)
    requires s != PostScore
    ensures Rank(r) == Rank(s) + 1
  {
    Order[Rank(s) + 1]
  }

  /**
   * The ids the handlers pass to `showScreen`, taken to be exactly the
   * page's screen elements, listed in the fixed screen order.
   */
  function PageIds(): (ids: seq<string>)
    ensures |ids| == |Order|
    ensures forall k :: 0 <= k < |Order| ==> ids[k] == Id(Order[k])
  {
    assert Id(RiddleScreen(1)) == "screen-riddle1";
    assert Id(RiddleScreen(2)) == "screen-riddle2";
    assert Id(RiddleScreen(3)) == "screen-riddle3";
    assert Id(RiddleScreen(4)) == "screen-riddle4";
    assert Id(RiddleScreen(5)) == "screen-riddle5";
    ["screen-splash", "screen-code", "screen-instructions",
     "screen-riddle1", "screen-riddle2", "screen-riddle3", "screen-riddle4", "screen-riddle5",
     "screen-preScore", "screen-score", "screen-postScore"]
  }

  /** No two screens share an id. */
  lemma IdInjective(a: Screen, b: Screen)
    ensures Id(a) == Id(b) ==> a == b
  {
    if Id(a) == Id(b) && a.RiddleScreen? && b.RiddleScreen? {
      assert Id(a)[13] == Id(b)[13];
    }
  }

  /**
   * `showScreen`: walks over the screens of the page and makes an element
   * visible exactly when its id is the target; `found` records whether any
   * element had that id.
   */
  method Show(ids: seq<string>, target: string) returns (visible: seq<bool>, found: bool)
    ensures |visible| == |ids|
    ensures forall k :: 0 <= k < |ids| ==> (visible[k] <==> ids[k] == target)
    ensures found <==> target in ids
  {
    visible := [];
    found := false;
    var k := 0;
    while k < |ids|
      invariant 0 <= k <= |ids|
      invariant |visible| == k
      invariant forall j :: 0 <= j < k ==> (visible[j] <==> ids[j] == target)
      invariant found <==> target in ids[..k]
    {
      var isTarget := ids[k] == target;
      visible := visible + [isTarget];
      if isTarget {
        found := true;
      }
      assert ids[..k + 1] == ids[..k] + [ids[k]];
      k := k + 1;
    }
    assert ids[..k] == ids;
  }

  /** With distinct ids, at most one element is visible after `Show`. */
  lemma AtMostOneVisible(ids: seq<string>, target: string, visible: seq<bool>, i: int, j: int)
    requires forall a, b :: 0 <= a < b < |ids| ==> ids[a] != ids[b]
    requires |visible| == |ids|
    requires forall k :: 0 <= k < |ids| ==> (visible[k] <==> ids[k] == target)
    requires 0 <= i < |ids| && 0 <= j < |ids| && visible[i] && visible[j]
    ensures i == j
  {
  }

  /** On the quiz page, showing a known screen makes exactly that screen visible. */
  method ShowScreen(s: Screen) returns (visible: seq<bool>)
    ensures |visible| == |Order|
    ensures forall k :: 0 <= k < |Order| ==> (visible[k] <==> Order[k] == s)
  {
    var found;
    visible, found := Show(PageIds(), Id(s));
    forall k | 0 <= k < |Order| ensures visible[k] <==> Order[k] == s {
      IdInjective(Order[k], s);
    }
  }

  /** On the quiz page, an id that names no screen leaves every screen hidden. */
  lemma UnknownIdHidesAll(target: string, visible: seq<bool>)
    requires forall s: Screen :: Id(s) != target
    requires |visible| == |Order|
    requires forall k :: 0 <= k < |Order| ==> (visible[k] <==> PageIds()[k] == target)
    ensures forall k :: 0 <= k < |Order| ==> !visible[k]
  {
  }
}
