/**
 * The score manager: the current score, the high score and whether it has
 * been read from the high-score file yet. The file is modelled as its text
 * (`None` when it is absent or cannot be read); saving writes the decimal
 * form of an int and loading parses it back, falling back to 0.
 */
module Score {
  import opened Wrappers
  import opened Numerics
  import Difficulty

  // ---------------------------------------------------------------------
  // Decimal text: `int.ToString()` and `int.TryParse`, invariant culture

  predicate IsDigit(c: char) {
    '0' <= c <= '9'
  }

  predicate AllDigits(s: string) {
    forall i :: 0 <= i < |s| ==> IsDigit(s[i])
  }

  /** The characters .NET number parsing skips around a number: space and U+0009 to U+000D. */
  predicate IsWhite(c: char) {
    c == ' ' || 9 <= c as int <= 13
  }

  function DigitChar(d: nat): (c: char)
    requires d < 10
    ensures IsDigit(c) && c as int - '0' as int == d
  {
    ('0' as int + d) as char
  }

  /** Decimal digits of `n`, most significant first, without leading zeros. */
  function Digits(n: nat): (s: string)
    ensures |s| > 0 && AllDigits(s)
  {
    if n < 10 then [DigitChar(n)] else Digits(n / 10) + [DigitChar(n % 10)]
  }

  /** The number a string of decimal digits denotes. */
  function DigitsValue(s: string): nat
    requires AllDigits(s)
  {
    if s == [] then 0 else DigitsValue(s[..|s| - 1]) * 10 + (s[|s| - 1] as int - '0' as int)
  }

  lemma {:induction false} DigitsValueOfDigits(n: nat)
    ensures DigitsValue(Digits(n)) == n
  {
    if n >= 10 {
      var s := Digits(n);
      assert s[..|s| - 1] == Digits(n / 10);
      DigitsValueOfDigits(n / 10);
    }
  }

  /** `value.ToString()`: an optional minus sign followed by the decimal digits. */
  function Render(value: int32): string {
    if value < 0 then "-" + Digits(-(value as int)) else Digits(value)
  }

  function TrimStart(s: string): (r: string)
    ensures |r| <= |s|
  {
    if s != [] && IsWhite(s[0]) then TrimStart(s[1..]) else s
  }

  function TrimEnd(s: string): (r: string)
    ensures |r| <= |s|
  {
    if s != [] && IsWhite(s[|s| - 1]) then TrimEnd(s[..|s| - 1]) else s
  }

  /**
   * `int.TryParse(text, out value)`: surrounding white space, then an
   * optional `+` or `-`, then one or more decimal digits whose signed value
   * fits in 32 bits; anything else fails.
   */
  function TryParse(text: string): Option<int32> {
    var t := TrimEnd(TrimStart(text));
    var negative := |t| > 0 && t[0] == '-';
    var body := if |t| > 0 && (t[0] == '-' || t[0] == '+') then t[1..] else t;
    if body == [] || !AllDigits(body) then None
    else
      var magnitude := DigitsValue(body);
      var value: int := if negative then 0 - magnitude else magnitude;
      if InInt32(value) then Some(value) else None
  }

  /** `Render` produces no white space at either end. */
  lemma RenderIsTrimmed(value: int32)
    ensures TrimEnd(TrimStart(Render(value))) == Render(value)
  {
    var s := Render(value);
    assert !IsWhite(s[0]);
    assert IsDigit(s[|s| - 1]);
  }

  /** Parsing what was written gives back the value; no string written by `Render` is rejected. */
  lemma {:induction false} TryParseRender(value: int32)
    ensures TryParse(Render(value)) == Some(value)
  {
    RenderIsTrimmed(value);
    var s := Render(value);
    if value < 0 {
      var d := Digits(-(value as int));
      assert s[1..] == d;
      DigitsValueOfDigits(-(value as int));
    } else {
      DigitsValueOfDigits(value);
    }
  }

  // ---------------------------------------------------------------------
  // The persisted high score

  /** `LoadHighScore`: the parsed file contents, or 0 when the file is missing or does not hold an int. */
  function StoredHighScore(stored: Option<string>): (r: int32)
    ensures stored.None? ==> r == 0
  {
    match stored
    case None => 0
    case Some(text) => TryParse(text).GetOr(0)
  }

  /** The file after `SaveHighScore(value)`. */
  function Saved(value: int32): Option<string> {
    Some(Render(value))
  }

  /** Loading after saving gives back exactly the saved value. */
  lemma LoadAfterSave(value: int32)
    ensures StoredHighScore(Saved(value)) == value
  {
    TryParseRender(value);
  }

  /** Text that is not a 32-bit decimal int loads as 0; surrounding white space is tolerated. */
  lemma LoadExamples()
    ensures StoredHighScore(Some("")) == 0
    ensures StoredHighScore(Some("12a")) == 0
    ensures StoredHighScore(Some(" -42\n")) == -42
  {
    assert TrimEnd(TrimStart(" -42\n")) == "-42" by {
      assert TrimStart(" -42\n") == TrimStart("-42\n");
      assert TrimEnd("-42\n") == TrimEnd("-42");
    }
    assert "-42"[1..] == "42";
    assert DigitsValue("42") == 42 by {
      assert "42"[..1] == "4";
      assert "4"[..0] == "";
    }
    assert TrimEnd(TrimStart("12a")) == "12a";
    assert !IsDigit("12a"[2]);
  }

  // ---------------------------------------------------------------------
  // The score state machine

  datatype ScoreState = ScoreState(score: int32, highScore: int32, highScoreLoaded: bool, stored: Option<string>)

  /** The high score `UpdateCurrentScore` compares against: the remembered one, or the file's on the first call. */
  function Baseline(s: ScoreState): int32 {
    if s.highScoreLoaded then s.highScore else StoredHighScore(s.stored)
  }

  /** The score state after `UpdateCurrentScore`: load once, then raise and save the high score when surpassed. */
  function Refreshed(s: ScoreState): ScoreState {
    var loaded := s.(highScore := Baseline(s), highScoreLoaded := true);
    if loaded.score > loaded.highScore
    then loaded.(highScore := loaded.score, stored := Saved(loaded.score))
    else loaded
  }

  /** The score state after `Start`: load the high score, then `UpdateCurrentScore`. */
  function Started(s: ScoreState): ScoreState {
    Refreshed(s.(highScore := StoredHighScore(s.stored), highScoreLoaded := true))
  }

  /** The score state after `ManageFinalScore`: reload the file and save the score only if it beats the file's value. */
  function Finalized(s: ScoreState): ScoreState {
    if s.score > StoredHighScore(s.stored)
    then s.(stored := Saved(s.score), highScore := s.score)
    else s
  }

  /**
   * `ManageFinalScore` throws, before it loads or saves anything, exactly
   * when the final text is assigned and the current text is not: it then
   * calls `HideCurrentScore`, which dereferences the missing reference.
   */
  predicate FinalScoreThrows(hasFinalScoreText: bool, hasCurrentScoreText: bool) {
    hasFinalScoreText && !hasCurrentScoreText
  }

  /** The persisted high score never exceeds the one in memory. */
  ghost predicate Persisted(s: ScoreState) {
    s.highScoreLoaded ==> StoredHighScore(s.stored) <= s.highScore
  }

  function Max(a: int, b: int): int {
    if a < b then b else a
  }

  /**
   * After `UpdateCurrentScore` the high score is the larger of the baseline
   * and the score, so it is at least the score; the score is unchanged and
   * the high score counts as loaded.
   */
  lemma RefreshedHighScoreIsMax(s: ScoreState)
    ensures Refreshed(s).highScore == Max(Baseline(s), s.score)
    ensures Refreshed(s).highScore >= Refreshed(s).score == s.score
    ensures Refreshed(s).highScoreLoaded
  {
  }

  /** Once loaded, the high score never decreases across `AddScore` and `UpdateCurrentScore`. */
  lemma RefreshedMonotone(s: ScoreState, amount: int32)
    requires s.highScoreLoaded
    ensures Refreshed(s).highScore >= s.highScore
    ensures Refreshed(s.(score := Add(s.score, amount))).highScore >= s.highScore
  {
  }

  /**
   * The file is written only when the score surpasses the baseline, and it
   * then holds the score, which is also what a later load returns.
   */
  lemma RefreshedSavesOnlyWhenSurpassed(s: ScoreState)
    ensures s.score > Baseline(s) ==> Refreshed(s).stored == Saved(s.score)
    ensures s.score <= Baseline(s) ==> Refreshed(s).stored == s.stored
    ensures s.score > Baseline(s) ==> StoredHighScore(Refreshed(s).stored) == Refreshed(s).highScore
  {
    LoadAfterSave(s.score);
  }

  /**
   * The file is read only on the first call: a second `UpdateCurrentScore`
   * changes nothing, and once loaded the outcome does not depend on what
   * the file holds.
   */
  lemma RefreshedLoadsOnce(s: ScoreState, other: Option<string>)
    ensures Refreshed(Refreshed(s)) == Refreshed(s)
    ensures s.highScoreLoaded ==> Refreshed(s.(stored := other)).highScore == Refreshed(s).highScore
  {
  }

  /** `UpdateCurrentScore` establishes, and then keeps, that the file never holds more than the high score. */
  lemma {:induction false} RefreshedPersists(s: ScoreState)
    requires Persisted(s)
    ensures Persisted(Refreshed(s))
  {
    LoadAfterSave(s.score);
  }

  /** Once loaded, the high score in memory is exactly what the file holds. */
  ghost predicate InSync(s: ScoreState) {
    s.highScoreLoaded ==> StoredHighScore(s.stored) == s.highScore
  }

  /** `Start` leaves the high score in memory equal to the file's. */
  lemma {:induction false} StartedInSync(s: ScoreState)
    ensures InSync(Started(s))
  {
    LoadAfterSave(s.score);
  }

  /** `UpdateCurrentScore` (and so `AddScore`) keeps the high score in memory equal to the file's. */
  lemma {:induction false} RefreshedKeepsInSync(s: ScoreState)
    requires InSync(s)
    ensures InSync(Refreshed(s))
  {
    LoadAfterSave(s.score);
  }

  /**
   * `ManageFinalScore` keeps the high score in memory equal to the file's,
   * and, once the high score is loaded, never lowers it.
   */
  lemma {:induction false} FinalizedKeepsInSync(s: ScoreState)
    requires InSync(s)
    ensures InSync(Finalized(s))
    ensures s.highScoreLoaded ==> Finalized(s).highScore >= s.highScore
  {
    LoadAfterSave(s.score);
  }

  /**
   * `ManageFinalScore` saves, and sets the high score to the score, exactly
   * when the score beats the freshly loaded value; afterwards the file holds
   * the larger of the two.
   */
  lemma {:induction false} FinalizedSavesOnlyWhenBeaten(s: ScoreState)
    ensures s.score > StoredHighScore(s.stored) ==>
              Finalized(s) == s.(stored := Saved(s.score), highScore := s.score)
    ensures s.score <= StoredHighScore(s.stored) ==> Finalized(s) == s
    ensures StoredHighScore(Finalized(s).stored) == Max(StoredHighScore(s.stored), s.score)
  {
    LoadAfterSave(s.score);
  }

  /**
   * The score manager. `stored` is the text of the high-score file;
   * `difficultyManager` is the object the scene lookup finds (or null).
   */
  class ScoreManager {
    var score: int32
    var highScore: int32
    var highScoreLoaded: bool
    var stored: Option<string>
    const difficultyManager: Difficulty.DifficultyManager?
    /** Whether the inspector references `currentScoreText` and `finalScoreText` are assigned. */
    const hasCurrentScoreText: bool
    const hasFinalScoreText: bool

    ghost predicate Valid()
      reads this, difficultyManager
    {
      difficultyManager != null ==> difficultyManager.Valid()
    }

    function State(): ScoreState
      reads this
    {
      ScoreState(score, highScore, highScoreLoaded, stored)
    }

    /**
     * The component as the engine creates it: `score` holds its inspector
     * value, the high score is 0 and nothing is loaded yet.
     */
    constructor (initialScore: int32, stored: Option<string>, difficultyManager: Difficulty.DifficultyManager?,
                 hasCurrentScoreText: bool, hasFinalScoreText: bool)
      requires difficultyManager != null ==> difficultyManager.Valid()
      ensures Valid()
      ensures State() == ScoreState(initialScore, 0, false, stored)
      ensures this.difficultyManager == difficultyManager
      ensures this.hasCurrentScoreText == hasCurrentScoreText && this.hasFinalScoreText == hasFinalScoreText
    {
      score := initialScore;
      highScore := 0;
      highScoreLoaded := false;
      this.stored := stored;
      this.difficultyManager := difficultyManager;
      this.hasCurrentScoreText := hasCurrentScoreText;
      this.hasFinalScoreText := hasFinalScoreText;
    }

    /** Reads the file; changes nothing. */
    method LoadHighScore() returns (value: int32)
      ensures value == StoredHighScore(stored)
      ensures stored.Some? && TryParse(stored.value).Some? ==> value == TryParse(stored.value).value
      ensures stored.None? || TryParse(stored.value).None? ==> value == 0
    {
      value := 0;
      if stored.Some? {
        var parsed := TryParse(stored.value);
        if parsed.Some? {
          value := parsed.value;
        }
      }
    }

    /** Overwrites the file with the decimal text of `value`. */
    method SaveHighScore(value: int32)
      modifies this`stored
      ensures stored == Saved(value)
      ensures StoredHighScore(stored) == value
    {
      stored := Some(Render(value));
      LoadAfterSave(value);
    }

    /** Calls `IncreaseDifficulty(score)` on the difficulty manager, if there is one and the score is nonzero. */
    method CheckForDifficultyUpdate()
      requires Valid()
      modifies difficultyManager
      ensures Valid()
      ensures difficultyManager != null ==>
                (difficultyManager.World()
                 == if score != 0 then Difficulty.Escalated(difficultyManager.config, old(difficultyManager.World()), score)
                    else old(difficultyManager.World()))
    {
      if difficultyManager != null && score != 0 {
        difficultyManager.IncreaseDifficulty(score);
      }
    }

    method UpdateCurrentScore()
      requires Valid()
      modifies this, difficultyManager
      ensures Valid()
      ensures State() == Refreshed(old(State()))
      ensures difficultyManager != null ==>
                (difficultyManager.World()
                 == if score != 0 then Difficulty.Escalated(difficultyManager.config, old(difficultyManager.World()), score)
                    else old(difficultyManager.World()))
    {
      if !highScoreLoaded {
        highScore := LoadHighScore();
        highScoreLoaded := true;
      }
      if score > highScore {
        highScore := score;
        SaveHighScore(highScore);
      }
      CheckForDifficultyUpdate();
    }

    method Start()
      requires Valid()
      modifies this, difficultyManager
      ensures Valid()
      ensures State() == Started(old(State()))
      ensures difficultyManager != null ==>
                (difficultyManager.World()
                 == if score != 0 then Difficulty.Escalated(difficultyManager.config, old(difficultyManager.World()), score)
                    else old(difficultyManager.World()))
    {
      highScore := LoadHighScore();
      highScoreLoaded := true;
      UpdateCurrentScore();
    }

    /** Adds `amount` (possibly negative, wrapping at 32 bits) and refreshes. */
    method AddScore(amount: int32)
      requires Valid()
      modifies this, difficultyManager
      ensures Valid()
      ensures score == Add(old(score), amount)
      ensures State() == Refreshed(old(State()).(score := Add(old(score), amount)))
      ensures difficultyManager != null ==>
                (difficultyManager.World()
                 == if score != 0 then Difficulty.Escalated(difficultyManager.config, old(difficultyManager.World()), score)
                    else old(difficultyManager.World()))
    {
      score := Add(score, amount);
      UpdateCurrentScore();
    }

    /**
     * `HideCurrentScore`: dereferences `currentScoreText` without a null
     * check, so it throws (`thrown`) exactly when that reference is unassigned.
     */
    method HideCurrentScore() returns (thrown: bool)
      ensures thrown == !hasCurrentScoreText
    {
      thrown := !hasCurrentScoreText;
    }

    /**
     * The end-of-game bookkeeping. With the final text assigned it first
     * hides the current text; if that throws, the method stops there and
     * the score state is untouched. Otherwise the state becomes `Finalized`.
     */
    method ManageFinalScore() returns (thrown: bool)
      modifies this
      ensures thrown == FinalScoreThrows(hasFinalScoreText, hasCurrentScoreText)
      ensures State() == if thrown then old(State()) else Finalized(old(State()))
    {
      thrown := false;
      if hasFinalScoreText {
        thrown := HideCurrentScore();
        if thrown {
          return;
        }
      }
      var existingHigh := LoadHighScore();
      if score > existingHigh {
        SaveHighScore(score);
        highScore := score;
      }
    }
  }
}
