/**
 * The parts of the quiz configuration document (`config.json`) that the
 * session logic consumes. Missing JSON fields are `None` or empty.
 */
module Quiz {
  import opened Options

  /** One sub-question of a multi-question riddle; only its expected answer matters here. */
  datatype Question = Question(correct: Option<string>)

  /**
   * A riddle entry. Riddles 1, 4 and 5 are answered through `correct`,
   * riddles 2 and 3 through `questions`; the page reads whichever field
   * its handler expects and treats a missing one as absent.
   */
  datatype Riddle = Riddle(id: int, correct: Option<string>, questions: seq<Question>)

  datatype Config = Config(
    validPrefixes: Option<seq<string>>,
    riddles: seq<Riddle>,
    hasPreScorePage: bool)

  /** Position of the first riddle with the given id, as `Array.prototype.find` picks it. */
  function FindIndex(riddles: seq<Riddle>, id: int): (r: Option<nat>)
    ensures r.None? <==> forall k :: 0 <= k < |riddles| ==> riddles[k].id != id
    ensures r.Some? ==> r.value < |riddles| && riddles[r.value].id == id
    ensures r.Some? ==> forall k :: 0 <= k < r.value ==> riddles[k].id != id
  {
    if |riddles| == 0 then None
    else if riddles[0].id == id then Some(0)
    else
      match FindIndex(riddles[1..], id)
      case None => None
      case Some(k) => Some(k + 1)
  }

  /** The first riddle with the given id, or `None` when the configuration has none. */
  function FindRiddle(riddles: seq<Riddle>, id: int): (r: Option<Riddle>)
    ensures r.None? <==> forall k :: 0 <= k < |riddles| ==> riddles[k].id != id
    ensures r.Some? ==> r.value.id == id
    ensures r.Some? ==> FindIndex(riddles, id).Some? && r.value == riddles[FindIndex(riddles, id).value]
  {
    match FindIndex(riddles, id)
    case None => None
    case Some(k) => Some(riddles[k])
  }
}
