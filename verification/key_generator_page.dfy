/** The key-generator page: the local strength score, the label table it
    shares with the strength service, the segment bar, the generate guard
    and the option editor. */
module KeyGeneratorPage {
  import opened Wrappers
  import opened Text
  import opened Types
  import opened PageCommon
  import AppContext

  // ------------------------------------------------------- character classes

  predicate IsLowerAscii(c: char) { 'a' <= c <= 'z' }
  predicate IsUpperAscii(c: char) { 'A' <= c <= 'Z' }
  predicate IsDigitAscii(c: char) { '0' <= c <= '9' }
  /** The class `[^a-zA-Z0-9]`: anything that is not an ASCII letter or digit. */
  predicate IsSymbol(c: char) { !IsLowerAscii(c) && !IsUpperAscii(c) && !IsDigitAscii(c) }

  datatype CharClass = LowerClass | UpperClass | DigitClass | SymbolClass

  predicate InClass(c: char, k: CharClass) {
    match k
    case LowerClass => IsLowerAscii(c)
    case UpperClass => IsUpperAscii(c)
    case DigitClass => IsDigitAscii(c)
    case SymbolClass => IsSymbol(c)
  }

  predicate Enabled(o: PasswordOptions, k: CharClass) {
    match k
    case LowerClass => o.includeLowercase
    case UpperClass => o.includeUppercase
    case DigitClass => o.includeNumbers
    case SymbolClass => o.includeSymbols
  }

  /** The regular-expression test `/[class]/.test(key)`. */
  predicate Present(key: string, k: CharClass) {
    exists i :: 0 <= i < |key| && InClass(key[i], k)
  }

  /** A class counts when its option is enabled and the key contains it. */
  function Counts(key: string, o: PasswordOptions, k: CharClass): nat {
    if Enabled(o, k) && Present(key, k) then 1 else 0
  }

  function Variety(key: string, o: PasswordOptions): (r: nat)
    ensures r <= 4
  {
    Counts(key, o, LowerClass) + Counts(key, o, UpperClass)
    + Counts(key, o, DigitClass) + Counts(key, o, SymbolClass)
  }

  /** Variety is 4 exactly when all four classes are enabled and present,
      and 0 exactly when no class is both enabled and present. */
  lemma VarietyExtremes(key: string, o: PasswordOptions)
    ensures Variety(key, o) == 4 <==> forall k: CharClass :: Enabled(o, k) && Present(key, k)
    ensures Variety(key, o) == 0 <==> forall k: CharClass :: !(Enabled(o, k) && Present(key, k))
  {
    if Variety(key, o) != 4 {
      var k: CharClass :| Counts(key, o, k) == 0;
      assert !(Enabled(o, k) && Present(key, k));
    }
    if Variety(key, o) != 0 {
      var k: CharClass :| Counts(key, o, k) == 1;
      assert Enabled(o, k) && Present(key, k);
    }
  }

  /** Every character belongs to exactly one class, so a non-empty key with
      every class enabled has variety at least 1. */
  lemma EveryCharHasOneClass(c: char)
    ensures InClass(c, LowerClass) || InClass(c, UpperClass) || InClass(c, DigitClass) || InClass(c, SymbolClass)
    ensures InClass(c, SymbolClass) <==> !(InClass(c, LowerClass) || InClass(c, UpperClass) || InClass(c, DigitClass))
  {
  }

  // ------------------------------------------------------------- the score

  function LengthBand(length: nat): (r: nat)
    ensures r <= 3
  {
    if length < 8 then 0 else if length < 12 then 1 else if length < 16 then 2 else 3
  }

  function Clamp(lo: int, hi: int, x: int): int
    requires lo <= hi
  {
    if x < lo then lo else if x > hi then hi else x
  }

  /** The length band, one bonus for three or more classes, another for all
      four classes at 16 characters or more, clamped to 0..4. */
  function Score(length: nat, variety: nat): (r: StrengthScore)
    ensures LengthBand(length) <= r <= LengthBand(length) + 2
    ensures variety < 3 ==> r == LengthBand(length)
  {
    var bonus := (if variety >= 3 then 1 else 0) + (if variety == 4 && length >= 16 then 1 else 0);
    Clamp(0, 4, LengthBand(length) + bonus)
  }

  /** With the same variety, a longer key never scores lower. */
  lemma ScoreMonotoneInLength(shorter: nat, longer: nat, variety: nat)
    requires shorter <= longer
    ensures Score(shorter, variety) <= Score(longer, variety)
  {
  }

  /** With the same length, more variety never scores lower. */
  lemma ScoreMonotoneInVariety(length: nat, less: nat, more: nat)
    requires less <= more <= 4
    ensures Score(length, less) <= Score(length, more)
  {
  }

  /** The top score needs 16 characters and three classes; the bottom score
      is for keys under 8 characters with fewer than three classes. */
  lemma ScoreExtremes(length: nat, variety: nat)
    requires variety <= 4
    ensures Score(length, variety) == 4 <==> length >= 16 && variety >= 3
    ensures Score(length, variety) == 0 <==> length < 8 && variety < 3
  {
  }

  // -------------------------------------------------------- the label table

  /** What the page shows for a key: a score with a label key and a text
      colour. The service's score is shown as it arrives, so it is any
      number the service returns, not only 0..4. */
  datatype StrengthDetails = StrengthDetails(score: int, labelKey: string, colorClass: string)

  /** The fixed label and text colour of each local score. */
  function Tier(score: StrengthScore): (r: StrengthDetails)
    ensures r.score == score
  {
    match score
    case 0 => StrengthDetails(0, "keyStrengthTooShort", "text-red-400 dark:text-red-300")
    case 1 => StrengthDetails(1, "keyStrengthWeak", "text-orange-400 dark:text-orange-300")
    case 2 => StrengthDetails(2, "keyStrengthModerate", "text-yellow-400 dark:text-yellow-300")
    case 3 => StrengthDetails(3, "keyStrengthStrong", "text-lime-400 dark:text-lime-300")
    case _ => StrengthDetails(4, "keyStrengthVeryStrong", "text-green-400 dark:text-green-300")
  }

  /** Distinct scores have distinct labels and distinct colours. */
  lemma TierInjective(a: StrengthScore, b: StrengthScore)
    ensures Tier(a).labelKey == Tier(b).labelKey ==> a == b
    ensures Tier(a).colorClass == Tier(b).colorClass ==> a == b
  {
  }

  /** `calculateLocalKeyStrength`: nothing for an empty key, otherwise the
      score with its tier. */
  function CalculateLocalKeyStrength(key: string, o: PasswordOptions): (r: Option<StrengthDetails>)
    ensures r.None? <==> key == ""
    ensures r.Some? ==> 0 <= r.value.score <= 4 && r.value == Tier(r.value.score)
    ensures r.Some? ==> r.value.score == Score(|key|, Variety(key, o))
  {
    if key == "" then None else Some(Tier(Score(|key|, Variety(key, o))))
  }

  /** A key of at least 16 characters with all four classes enabled and
      present scores exactly 4: the raw 5 is clamped. */
  lemma FullVarietyLongKeyIsVeryStrong(key: string, o: PasswordOptions)
    requires |key| >= 16
    requires forall k: CharClass :: Enabled(o, k) && Present(key, k)
    ensures CalculateLocalKeyStrength(key, o) == Some(Tier(4))
    ensures LengthBand(|key|) + 2 == 5
  {
    VarietyExtremes(key, o);
  }

  /** The label and colour `mapAIScoreToLocal` starts from, kept when the
      service's score matches none of the switch's cases. */
  const DefaultAILabel := "keyStrengthWeak"
  const DefaultAIColor := "text-orange-400 dark:text-orange-300"

  /** The switch of `mapAIScoreToLocal`, written separately from the local
      table: a case for each of 0..4, the starting label otherwise. */
  function AILabel(score: int): (r: (string, string))
    ensures !(0 <= score <= 4) ==> r == (DefaultAILabel, DefaultAIColor)
  {
    match score
    case 0 => ("keyStrengthTooShort", "text-red-400 dark:text-red-300")
    case 1 => ("keyStrengthWeak", "text-orange-400 dark:text-orange-300")
    case 2 => ("keyStrengthModerate", "text-yellow-400 dark:text-yellow-300")
    case 3 => ("keyStrengthStrong", "text-lime-400 dark:text-lime-300")
    case 4 => ("keyStrengthVeryStrong", "text-green-400 dark:text-green-300")
    case _ => (DefaultAILabel, DefaultAIColor)
  }

  /** On the declared scores 0..4 the service's switch and the local table
      give the same label and colour. */
  lemma AILabelMatchesTier(score: int)
    ensures 0 <= score <= 4 ==> AILabel(score) == (Tier(score).labelKey, Tier(score).colorClass)
  {
  }

  /** The service's feedback: the warning, else the suggestions joined by a
      space, else the empty string. */
  function AIFeedbackText(ai: AIStrengthResult): string {
    if ai.feedback.Some? && Truthy(ai.feedback.value.warning) then
      ai.feedback.value.warning.value
    else if ai.feedback.Some? && ai.feedback.value.suggestions.Some? then
      Join(ai.feedback.value.suggestions.value, " ")
    else ""
  }

  /** `mapAIScoreToLocal`: the service's score passes through unchanged; a
      declared score gets the local tier, any other number the starting weak
      label; the feedback is the non-empty warning, else the suggestions,
      else empty. */
  function MapAIScoreToLocal(ai: AIStrengthResult): (r: (StrengthDetails, string))
    ensures r.0.score == ai.score
    ensures 0 <= ai.score <= 4 ==> r.0 == Tier(ai.score)
    ensures !(0 <= ai.score <= 4) ==> r.0.labelKey == DefaultAILabel && r.0.colorClass == DefaultAIColor
    ensures ai.feedback.Some? && Truthy(ai.feedback.value.warning) ==> r.1 == ai.feedback.value.warning.value
    ensures ai.feedback.Some? && !Truthy(ai.feedback.value.warning) && ai.feedback.value.suggestions.Some? ==>
              r.1 == Join(ai.feedback.value.suggestions.value, " ")
    ensures ai.feedback.None? || (!Truthy(ai.feedback.value.warning) && ai.feedback.value.suggestions.None?) ==>
              r.1 == ""
  {
    AILabelMatchesTier(ai.score);
    var shown := AILabel(ai.score);
    (StrengthDetails(ai.score, shown.0, shown.1), AIFeedbackText(ai))
  }

  /** The local and the service path show the same label and colour for the
      same score. */
  lemma AIAndLocalAgree(key: string, o: PasswordOptions, ai: AIStrengthResult)
    requires key != "" && ai.score == Score(|key|, Variety(key, o))
    ensures Some(MapAIScoreToLocal(ai).0) == CalculateLocalKeyStrength(key, o)
  {
  }

  // ------------------------------------------------------------ the bar

  const SegmentCount := 5

  const StrengthColors := ["bg-red-500", "bg-orange-500", "bg-yellow-500", "bg-lime-500", "bg-green-500"]

  /** `Math.max(1, Math.min(segments, Math.ceil(score)))`; the score is an
      integer, so the ceiling is the score itself. */
  function ActiveSegments(score: int): (r: int)
    ensures 1 <= r <= SegmentCount
    ensures 1 <= score <= SegmentCount ==> r == score
    ensures score < 1 ==> r == 1
    ensures score > SegmentCount ==> r == SegmentCount
  {
    var c := score;
    if c < SegmentCount then (if 1 < c then c else 1) else (if 1 < SegmentCount then SegmentCount else 1)
  }

  /** `strengthColors[score]` inside a template string: the score's colour,
      or the text `undefined` for an index outside the array. */
  function ScoreColor(score: int): (r: string)
    ensures 0 <= score < |StrengthColors| ==> r == StrengthColors[score]
    ensures !(0 <= score < |StrengthColors|) ==> r == "undefined"
  {
    if 0 <= score < |StrengthColors| then StrengthColors[score] else "undefined"
  }

  function UnlitColor(theme: Theme): string {
    if theme == Dark then "bg-knoux-dark-bg" else "bg-gray-300"
  }

  /** The background class of each of the five segments. */
  function SegmentColors(score: int, theme: Theme): (r: seq<string>)
    ensures |r| == SegmentCount
  {
    seq(SegmentCount, i requires 0 <= i < SegmentCount =>
      if i < ActiveSegments(score) then ScoreColor(score) else UnlitColor(theme))
  }

  /** A segment shows the score's colour exactly when its index is below
      the active count; a declared score 0..4 leaves the fifth unlit, and a
      score above 4 lights all five with no valid colour. */
  lemma SegmentsLit(score: int, theme: Theme)
    ensures forall i :: 0 <= i < SegmentCount ==>
              (SegmentColors(score, theme)[i] == ScoreColor(score) <==> i < ActiveSegments(score))
    ensures 0 <= score <= 4 ==> SegmentColors(score, theme)[SegmentCount - 1] == UnlitColor(theme)
    ensures score > 4 ==> forall i :: 0 <= i < SegmentCount ==> SegmentColors(score, theme)[i] == "undefined"
  {
    var r := SegmentColors(score, theme);
    forall i | 0 <= i < SegmentCount
      ensures r[i] == ScoreColor(score) <==> i < ActiveSegments(score)
    {
      assert r[i] == if i < ActiveSegments(score) then ScoreColor(score) else UnlitColor(theme);
      assert |ScoreColor(score)| != |UnlitColor(theme)| || ScoreColor(score)[3] != UnlitColor(theme)[3];
    }
  }

  // --------------------------------------------------------- page state

  datatype AIStatus = Idle | Used | Fallback | Unavailable

  /** What `window.electronAPI.checkPasswordStrengthAI` did: absent, a
      result (`None` when it is falsy or its score is not a number), or a
      rejection. */
  datatype AIOutcome = NoAIApi | AIReturned(result: Option<AIStrengthResult>) | AIThrew

  datatype KeyGenState = KeyGenState(
    options: PasswordOptions,
    generatedKey: string,
    isCopied: bool,
    strength: Option<StrengthDetails>,
    aiStatus: AIStatus,
    suggestion: Option<string>)

  function InitialState(): (r: KeyGenState)
    ensures r.options.length == 24 && !AppContext.NoClassEnabled(r.options)
    ensures r.generatedKey == "" && r.strength.None?
  {
    KeyGenState(PasswordOptions(24, true, true, true, true), "", false, None, Idle, None)
  }

  /** `updateKeyStrength` for the current key and options. The fallback
      paths leave the previous suggestion in place. */
  function UpdateKeyStrength(st: KeyGenState, ai: AIOutcome): (r: KeyGenState)
    ensures r.options == st.options && r.generatedKey == st.generatedKey && r.isCopied == st.isCopied
    ensures st.generatedKey == "" ==> r.strength.None? && r.aiStatus == Idle && r.suggestion.None?
    ensures st.generatedKey != "" && ai.AIReturned? && ai.result.Some? ==>
              && r.aiStatus == Used
              && r.strength == Some(MapAIScoreToLocal(ai.result.value).0)
              && (r.suggestion.Some? <==> MapAIScoreToLocal(ai.result.value).1 != "")
              && (r.suggestion.Some? ==> r.suggestion.value == MapAIScoreToLocal(ai.result.value).1)
    ensures st.generatedKey != "" && !(ai.AIReturned? && ai.result.Some?) ==>
              r.strength == CalculateLocalKeyStrength(st.generatedKey, st.options) && r.suggestion == st.suggestion
    ensures r.aiStatus == Unavailable <==> st.generatedKey != "" && ai.NoAIApi?
    ensures r.aiStatus == Fallback <==> st.generatedKey != "" && (ai.AIThrew? || ai == AIReturned(None))
    ensures r.strength.None? <==> st.generatedKey == ""
  {
    if st.generatedKey == "" then
      st.(strength := None, aiStatus := Idle, suggestion := None)
    else
      match ai
      case AIReturned(Some(res)) =>
        var (details, feedback) := MapAIScoreToLocal(res);
        st.(strength := Some(details), aiStatus := Used, suggestion := if feedback == "" then None else Some(feedback))
      case AIReturned(None) =>
        st.(strength := CalculateLocalKeyStrength(st.generatedKey, st.options), aiStatus := Fallback)
      case AIThrew =>
        st.(strength := CalculateLocalKeyStrength(st.generatedKey, st.options), aiStatus := Fallback)
      case NoAIApi =>
        st.(strength := CalculateLocalKeyStrength(st.generatedKey, st.options), aiStatus := Unavailable)
  }

  /** Re-scoring overwrites everything an earlier scoring with the same
      outcome wrote, whatever the options were edited to in between. */
  lemma RescoreForgetsPrevious(st: KeyGenState, o: PasswordOptions, ai: AIOutcome)
    ensures UpdateKeyStrength(UpdateKeyStrength(st, ai).(options := o), ai) == UpdateKeyStrength(st.(options := o), ai)
  {
  }

  /** Scoring is a fixpoint: the effect that re-scores an already scored key
      with the same outcome changes nothing. */
  lemma {:induction false} RescoreIsFixpoint(st: KeyGenState, ai: AIOutcome)
    ensures UpdateKeyStrength(UpdateKeyStrength(st, ai), ai) == UpdateKeyStrength(st, ai)
  {
    RescoreForgetsPrevious(st, st.options, ai);
    assert st.(options := st.options) == st;
    assert UpdateKeyStrength(st, ai).(options := st.options) == UpdateKeyStrength(st, ai);
  }

  /** A service verdict equal to the local score shows what the local
      fallback would have shown. */
  lemma AIPathShowsLocalStrength(st: KeyGenState, res: AIStrengthResult)
    requires st.generatedKey != ""
    requires res.score == Score(|st.generatedKey|, Variety(st.generatedKey, st.options))
    ensures UpdateKeyStrength(st, AIReturned(Some(res))).strength == UpdateKeyStrength(st, NoAIApi).strength
  {
    AIAndLocalAgree(st.generatedKey, st.options, res);
  }

  /** The outcome of `handleGenerateKey`. */
  datatype GenerateResult = GenerateResult(state: KeyGenState, alert: Option<string>, drafts: seq<LogDraft>)

  /** `handleGenerateKey`: refused with an alert when every class is off;
      otherwise the key is replaced, the copy flag reset, the strength
      recomputed and one `key_generate` entry logged. */
  method HandleGenerateKey(st: KeyGenState, loc: AppContext.Locale, backend: Option<string>,
                           draws: seq<nat>, ai: AIOutcome) returns (r: GenerateResult)
    requires |draws| >= st.options.length
    ensures AppContext.NoClassEnabled(st.options) ==>
              r.state == st && r.drafts == [] && r.alert == Some(AppContext.T(loc, "selectAtLeastOneCharType"))
    ensures !AppContext.NoClassEnabled(st.options) ==> r.alert.None? && !r.state.isCopied
    ensures !AppContext.NoClassEnabled(st.options) ==> r.state.options == st.options
    ensures !AppContext.NoClassEnabled(st.options) && backend.None? ==>
              |r.state.generatedKey| == (if st.options.length < 0 then 0 else st.options.length)
    ensures !AppContext.NoClassEnabled(st.options) && backend.None? ==>
              forall i :: 0 <= i < |r.state.generatedKey| ==> r.state.generatedKey[i] in AppContext.Charset(st.options)
    ensures !AppContext.NoClassEnabled(st.options) ==>
              r.drafts == [Draft(KeyGenerate, "Generated a " + IntToString(st.options.length) + "-character key.", Success)]
    ensures !AppContext.NoClassEnabled(st.options) ==>
              r.state == UpdateKeyStrength(st.(generatedKey := r.state.generatedKey, isCopied := false), ai)
    // the effect that re-scores the new key with the same outcome changes nothing
    ensures !AppContext.NoClassEnabled(st.options) ==> UpdateKeyStrength(r.state, ai) == r.state
  {
    if AppContext.NoClassEnabled(st.options) {
      r := GenerateResult(st, Some(AppContext.T(loc, "selectAtLeastOneCharType")), []);
      return;
    }
    var key := AppContext.GeneratePassword(st.options, backend, draws);
    var next := UpdateKeyStrength(st.(generatedKey := key, isCopied := false), ai);
    RescoreIsFixpoint(st.(generatedKey := key, isCopied := false), ai);
    r := GenerateResult(next, None,
      [Draft(KeyGenerate, "Generated a " + IntToString(st.options.length) + "-character key.", Success)]);
  }

  /** Mounting the page: the strength effect first scores the still empty
      key, then the mount effect generates a key with the default options.
      The generator never refuses here, and the strength effect that follows
      the new key is already satisfied. */
  method Mount(loc: AppContext.Locale, backend: Option<string>, draws: seq<nat>, ai: AIOutcome)
    returns (r: GenerateResult)
    requires |draws| >= 24
    ensures r.alert.None? && r.state.options == InitialState().options && !r.state.isCopied
    ensures r.drafts == [Draft(KeyGenerate, "Generated a 24-character key.", Success)]
    ensures backend.None? ==> |r.state.generatedKey| == 24
    ensures r.state.strength.Some? <==> r.state.generatedKey != ""
    ensures UpdateKeyStrength(r.state, ai) == r.state
  {
    var st := UpdateKeyStrength(InitialState(), ai);
    assert IntToString(24) == "24" by {
      assert NatToString(2) == [DigitChar(2)] == "2";
      assert NatToString(24) == NatToString(2) + [DigitChar(4)];
    }
    assert st.options.length == 24;
    assert "Generated a " + IntToString(st.options.length) + "-character key." == "Generated a 24-character key.";
    r := HandleGenerateKey(st, loc, backend, draws, ai);
  }

  /** An edit of one option: the length, or one of the four flags. */
  datatype OptionEdit = SetLength(n: int) | SetFlag(k: CharClass, on: bool)

  /** `handleOptionChange`: the one edited field changes, the others keep
      their values. */
  function HandleOptionChange(o: PasswordOptions, e: OptionEdit): (r: PasswordOptions)
    ensures e.SetLength? ==> r.length == e.n && forall k :: Enabled(r, k) == Enabled(o, k)
    ensures e.SetFlag? ==> r.length == o.length && Enabled(r, e.k) == e.on
    ensures e.SetFlag? ==> forall k :: k != e.k ==> Enabled(r, k) == Enabled(o, k)
  {
    match e
    case SetLength(n) => o.(length := n)
    case SetFlag(LowerClass, on) => o.(includeLowercase := on)
    case SetFlag(UpperClass, on) => o.(includeUppercase := on)
    case SetFlag(DigitClass, on) => o.(includeNumbers := on)
    case SetFlag(SymbolClass, on) => o.(includeSymbols := on)
  }

  /** The two edits touch the same field. */
  predicate SameField(e1: OptionEdit, e2: OptionEdit) {
    (e1.SetLength? && e2.SetLength?) || (e1.SetFlag? && e2.SetFlag? && e1.k == e2.k)
  }

  /** Options are determined by their length and their four flags. */
  lemma OptionsByFields(a: PasswordOptions, b: PasswordOptions)
    requires a.length == b.length && forall k :: Enabled(a, k) == Enabled(b, k)
    ensures a == b
  {
    assert Enabled(a, LowerClass) == Enabled(b, LowerClass);
    assert Enabled(a, UpperClass) == Enabled(b, UpperClass);
    assert Enabled(a, DigitClass) == Enabled(b, DigitClass);
    assert Enabled(a, SymbolClass) == Enabled(b, SymbolClass);
  }

  /** A second edit of the same field overrides the first. */
  lemma OptionEditOverrides(o: PasswordOptions, e1: OptionEdit, e2: OptionEdit)
    requires SameField(e1, e2)
    ensures HandleOptionChange(HandleOptionChange(o, e1), e2) == HandleOptionChange(o, e2)
  {
    OptionsByFields(HandleOptionChange(HandleOptionChange(o, e1), e2), HandleOptionChange(o, e2));
  }

  /** Edits of different fields commute. */
  lemma OptionEditsCommute(o: PasswordOptions, e1: OptionEdit, e2: OptionEdit)
    requires !SameField(e1, e2)
    ensures HandleOptionChange(HandleOptionChange(o, e1), e2) == HandleOptionChange(HandleOptionChange(o, e2), e1)
  {
    OptionsByFields(HandleOptionChange(HandleOptionChange(o, e1), e2), HandleOptionChange(HandleOptionChange(o, e2), e1));
  }

  /** An option edit together with the effect it triggers: the current key
      is kept and re-scored with the edited options. */
  function ChangeOption(st: KeyGenState, e: OptionEdit, ai: AIOutcome): (r: KeyGenState)
    ensures r.generatedKey == st.generatedKey && r.isCopied == st.isCopied
    ensures r.options == HandleOptionChange(st.options, e)
    ensures st.generatedKey != "" && !(ai.AIReturned? && ai.result.Some?) ==>
              r.strength == CalculateLocalKeyStrength(st.generatedKey, HandleOptionChange(st.options, e))
    ensures UpdateKeyStrength(r, ai) == r
  {
    var next := st.(options := HandleOptionChange(st.options, e));
    RescoreIsFixpoint(next, ai);
    UpdateKeyStrength(next, ai)
  }

  /** On the page, a second edit of the same field overrides the first. */
  lemma {:induction false} ChangeOptionOverrides(st: KeyGenState, e1: OptionEdit, e2: OptionEdit, ai: AIOutcome)
    requires SameField(e1, e2)
    ensures ChangeOption(ChangeOption(st, e1, ai), e2, ai) == ChangeOption(st, e2, ai)
  {
    var mid := st.(options := HandleOptionChange(st.options, e1));
    OptionEditOverrides(st.options, e1, e2);
    RescoreForgetsPrevious(mid, HandleOptionChange(st.options, e2), ai);
    assert mid.(options := HandleOptionChange(st.options, e2)) == st.(options := HandleOptionChange(st.options, e2));
  }

  /** On the page, edits of different fields commute. */
  lemma {:induction false} ChangeOptionsCommute(st: KeyGenState, e1: OptionEdit, e2: OptionEdit, ai: AIOutcome)
    requires !SameField(e1, e2)
    ensures ChangeOption(ChangeOption(st, e1, ai), e2, ai) == ChangeOption(ChangeOption(st, e2, ai), e1, ai)
  {
    var both := HandleOptionChange(HandleOptionChange(st.options, e1), e2);
    OptionEditsCommute(st.options, e1, e2);
    var m1 := st.(options := HandleOptionChange(st.options, e1));
    var m2 := st.(options := HandleOptionChange(st.options, e2));
    RescoreForgetsPrevious(m1, both, ai);
    RescoreForgetsPrevious(m2, both, ai);
    assert m1.(options := both) == m2.(options := both);
  }
}
