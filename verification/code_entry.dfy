/**
 * The code-entry handler: the participant types a code; its first four
 * characters, upper-cased, must be one of the configured prefixes. On
 * acceptance the session starts.
 */
module CodeEntry {
  import opened Options
  import opened Text
  import opened Screens
  import opened Quiz
  import opened State

  /** `raw.slice(0, 4).toUpperCase()`. */
  function Prefix(raw: string): (p: string)
    ensures |p| == if |raw| < 4 then |raw| else 4
    ensures forall i :: 0 <= i < |p| ==> p[i] == UpperChar(raw[i])
  {
    Upper(raw[..if |raw| < 4 then |raw| else 4])
  }

  /**
   * Validates a typed code at time `now`. A prefix shorter than four
   * characters is rejected before the configuration is consulted; a
   * configuration without `validPrefixes` makes the check fault.
   */
  function SubmitCode(cfg: Config, s: Session, input: string, now: int): (r: (Session, Feedback))
    ensures r.1 == CodeAccepted || r.1 == CodeRejected || r.1 == CodeFault
    ensures r.1 == CodeAccepted <==>
      && cfg.validPrefixes.Some?
      && |Prefix(Trim(input))| == 4
      && Prefix(Trim(input)) in cfg.validPrefixes.value
    ensures r.1 == CodeFault <==> cfg.validPrefixes.None? && |Trim(input)| >= 4
    ensures r.1 != CodeAccepted ==> r.0 == s
    ensures r.1 == CodeAccepted ==>
      && r.0.userCode == Trim(input)
      && r.0.startTime == Some(now)
      && r.0.lastSuccessTime == Some(now)
      && r.0.totalErrors == 0
      && r.0.totalHints == 0
      && r.0.screen == Instructions
      && r.0.modal == s.modal
      && r.0.usedHints == s.usedHints
      && r.0.hintsShown == s.hintsShown
  {
    var raw := Trim(input);
    var prefix := Prefix(raw);
    if |prefix| < 4 then (s, CodeRejected)
    else
      match cfg.validPrefixes
      case None => (s, CodeFault)
      case Some(valid) =>
        if prefix !in valid then (s, CodeRejected)
        else
          var started := s.(
            userCode := raw,
            startTime := Some(now),
            lastSuccessTime := Some(now),
            totalErrors := 0,
            totalHints := 0,
            screen := Instructions);
          (started, CodeAccepted)
  }

  /** Whitespace around the typed code changes nothing: neither the verdict nor the stored code. */
  lemma SubmitIgnoresPadding(cfg: Config, s: Session, p: string, input: string, q: string, now: int)
    requires AllSpace(p) && AllSpace(q)
    ensures SubmitCode(cfg, s, p + input + q, now) == SubmitCode(cfg, s, input, now)
  {
    TrimAbsorbsSpace(p, input, q);
  }

  /** The verdict does not depend on the case of ASCII letters in the code. */
  lemma SubmitIgnoresCase(cfg: Config, s: Session, input: string, now: int)
    ensures SubmitCode(cfg, s, Upper(input), now).1 == SubmitCode(cfg, s, input, now).1
  {
    UpperCommutesWithTrim(input);
    PrefixOfUpper(Trim(input));
  }

  lemma PrefixOfUpper(raw: string)
    ensures Prefix(Upper(raw)) == Prefix(raw)
  {
    var a, b := Prefix(Upper(raw)), Prefix(raw);
    assert |a| == |b|;
    forall i | 0 <= i < |a| ensures a[i] == b[i] {
      assert Upper(raw)[i] == UpperChar(raw[i]);
    }
  }

  /** Only upper-case prefixes can ever match: an accepted prefix has no lower-case letter. */
  lemma AcceptedPrefixIsUpperCase(cfg: Config, s: Session, input: string, now: int)
    requires SubmitCode(cfg, s, input, now).1 == CodeAccepted
    ensures forall i :: 0 <= i < 4 ==> !IsLowerAscii(Prefix(Trim(input))[i])
  {
  }

  lemma TrimOfPaddedExample()
    ensures Trim(" abcd1234 ") == "abcd1234"
  {
    assert " abcd1234 " == " " + "abcd1234" + " ";
    TrimUnique(" ", "abcd1234", " ");
  }

  lemma PrefixExample()
    ensures Prefix("abcd1234") == "ABCD"
  {
    var p := Prefix("abcd1234");
    assert p[0] == 'A' && p[1] == 'B' && p[2] == 'C' && p[3] == 'D';
  }

  /** A code of eight characters whose first four are a valid prefix is accepted and starts the session. */
  lemma AcceptsListedPrefix(s: Session, now: int)
    ensures var r := SubmitCode(Config(Some(["ABCD"]), [], true), s, " abcd1234 ", now);
      && r.1 == CodeAccepted
      && r.0.userCode == "abcd1234"
      && r.0.totalErrors == 0 && r.0.totalHints == 0
      && r.0.screen == Instructions
  {
    TrimOfPaddedExample();
    PrefixExample();
    assert "ABCD" in ["ABCD"];
  }
}
