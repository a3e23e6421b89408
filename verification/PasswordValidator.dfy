/**
  The password validator (`PasswordValidator`): a response envelope, the
  active policy and the message language. Validation matches the password
  against the policy's pattern and, when it fails, writes the localised list
  of reasons into the envelope's error list.
 */
module PasswordValidator {
  import opened JsonResp
  import opened PasswordPolicy
  import PhpString

  datatype Validator = Validator(env: Envelope, config: Config, language: string)

  /** The one language tag that selects French; every other tag means English. */
  const French := "fr_FR"

  // ---------------------------------------------------------------------------
  // Construction and configuration

  /** `new PasswordValidator($data, $lang)`: a fresh envelope over the data,
      the given language, and the light preset. */
  function NewValidator(data: seq<Entry>, lang: string): (v: Validator)
    ensures v.env == NewEnvelope(data)
    ensures v.language == lang
    ensures v.config == LightConfig
  {
    SetLightConfig(Validator(NewEnvelope(data), LightConfig, lang))
  }

  /** The constructor with its default language argument. */
  function NewValidatorDefault(data: seq<Entry>): (v: Validator)
    ensures v.language == French
    ensures v == NewValidator(data, French)
  {
    NewValidator(data, French)
  }

  /** `setLightConfig`: at least 6 and at most 100 characters, a digit required. */
  function SetLightConfig(v: Validator): (r: Validator)
    ensures r.config.min == 6 && r.config.max == 100
    ensures !r.config.uppercase && r.config.digits && !r.config.symbols
    ensures r.config.name == Light
    ensures r.env == v.env && r.language == v.language
  {
    v.(config := LightConfig)
  }

  /** `setMediumConfig`: at least 10 and at most 100 characters, every class required. */
  function SetMediumConfig(v: Validator): (r: Validator)
    ensures r.config.min == 10 && r.config.max == 100
    ensures r.config.uppercase && r.config.digits && r.config.symbols
    ensures r.config.name == Medium
    ensures r.env == v.env && r.language == v.language
  {
    v.(config := MediumConfig)
  }

  /** `setHardConfig`: at least 20 and at most 100 characters, every class required. */
  function SetHardConfig(v: Validator): (r: Validator)
    ensures r.config.min == 20 && r.config.max == 100
    ensures r.config.uppercase && r.config.digits && r.config.symbols
    ensures r.config.name == Hard
    ensures r.env == v.env && r.language == v.language
  {
    v.(config := HardConfig)
  }

  /** `setCustomConfig`: the five arguments, stored verbatim. */
  function SetCustomConfig(v: Validator, min: int, max: int, uppercase: bool, digits: bool, symbols: bool): (r: Validator)
    ensures r.config.min == min && r.config.max == max
    ensures r.config.uppercase == uppercase && r.config.digits == digits && r.config.symbols == symbols
    ensures r.config.name == Custom
    ensures r.env == v.env && r.language == v.language
  {
    v.(config := CustomConfig(min, max, uppercase, digits, symbols))
  }

  /** `getCurrentConfigName`. */
  function GetCurrentConfigName(v: Validator): (r: string)
    ensures r == "light" || r == "medium" || r == "hard" || r == "custom"
  {
    ConfigNameText(v.config.name)
  }

  /** `getRegex`. */
  function GetRegex(v: Validator): string {
    Pattern(v.config)
  }

  /** Two validators with the same required classes and the same pattern text
      enforce the same length bounds. */
  lemma RegexIdentifiesBounds(v: Validator, w: Validator)
    requires v.config.uppercase == w.config.uppercase && v.config.digits == w.config.digits
    requires v.config.symbols == w.config.symbols
    ensures GetRegex(v) == GetRegex(w) ==> v.config.min == w.config.min && v.config.max == w.config.max
  {
    if GetRegex(v) == GetRegex(w) {
      PatternDeterminesBounds(v.config, w.config);
    }
  }

  /** A fresh validator's pattern: one digit required, six to a hundred
      authorised characters. */
  lemma DefaultRegex(data: seq<Entry>, language: string)
    ensures GetRegex(NewValidator(data, language)) == "/^" + DigitLookahead + AuthorizedClass + "{6,100}" + "$/"
  {
    LightPattern();
    assert PatternHead(LightConfig) == "/^" + DigitLookahead + AuthorizedClass;
  }

  /** The calls that change the policy. */
  datatype Setter =
    | ToLight
    | ToMedium
    | ToHard
    | ToCustom(min: int, max: int, uppercase: bool, digits: bool, symbols: bool)

  function ApplySetter(v: Validator, s: Setter): Validator {
    match s
    case ToLight => SetLightConfig(v)
    case ToMedium => SetMediumConfig(v)
    case ToHard => SetHardConfig(v)
    case ToCustom(a, b, u, d, y) => SetCustomConfig(v, a, b, u, d, y)
  }

  function ApplySetters(v: Validator, ss: seq<Setter>): Validator
    decreases |ss|
  {
    if |ss| == 0 then v else ApplySetter(ApplySetters(v, ss[..|ss| - 1]), ss[|ss| - 1])
  }

  /** The policy after any chain of setters is the one the last setter writes:
      nothing survives from earlier configurations, and the name reports the
      last setter. The envelope and the language are never touched. */
  lemma {:induction false} LastSetterWins(v: Validator, ss: seq<Setter>, w: Validator)
    requires |ss| > 0
    ensures ApplySetters(v, ss).config == ApplySetter(w, ss[|ss| - 1]).config
    ensures ApplySetters(v, ss).env == v.env && ApplySetters(v, ss).language == v.language
    decreases |ss|
  {
    SettersKeepEnvelope(v, ss[..|ss| - 1]);
  }

  lemma {:induction false} SettersKeepEnvelope(v: Validator, ss: seq<Setter>)
    ensures ApplySetters(v, ss).env == v.env && ApplySetters(v, ss).language == v.language
    decreases |ss|
  {
    if |ss| > 0 {
      SettersKeepEnvelope(v, ss[..|ss| - 1]);
    }
  }

  /** `getCurrentConfigName` names the setter called last. */
  lemma ConfigNameFollowsSetter(v: Validator, s: Setter)
    ensures GetCurrentConfigName(ApplySetter(v, s)) ==
      match s
      case ToLight => "light"
      case ToMedium => "medium"
      case ToHard => "hard"
      case ToCustom(_, _, _, _, _) => "custom"
  {
  }

  // ---------------------------------------------------------------------------
  // Messages

  /** The wording of one language: the header, the text around the minimum
      length, and the three requirement lines. */
  datatype Wording = Wording(header: string, minBefore: string, minAfter: string, upper: string, digit: string, symbol: string)

  const FrenchWording := Wording("Mot de passe invalide", "-", " caractères minimum", "- 1 majuscule requise", "- 1 chiffre requis", "- 1 symbole requise")
  const EnglishWording := Wording("Invalid Password", "- at least ", " characters long", "uppercases required", "digits required", "symbols required")

  function MinLine(w: Wording, c: Config): string {
    w.minBefore + PhpString.IntToString(c.min) + w.minAfter
  }

  function Flag(b: bool): nat {
    if b then 1 else 0
  }

  /** The number of required classes. */
  function FlagCount(c: Config): nat {
    Flag(c.uppercase) + Flag(c.digits) + Flag(c.symbols)
  }

  /** The reasons for a rejection, as one list: the header, the minimum-length
      line, then a line per required class in the order uppercase, digit,
      symbol. The maximum length is never mentioned. */
  function Messages(w: Wording, c: Config): (r: seq<string>)
    ensures |r| == 2 + FlagCount(c)
    ensures r[0] == w.header && r[1] == MinLine(w, c)
    ensures c.uppercase ==> r[2] == w.upper
    ensures c.digits ==> r[2 + Flag(c.uppercase)] == w.digit
    ensures c.symbols ==> r[2 + Flag(c.uppercase) + Flag(c.digits)] == w.symbol
  {
    var symbol := if c.symbols then [w.symbol] else [];
    var digit := (if c.digits then [w.digit] else []) + symbol;
    var upper := (if c.uppercase then [w.upper] else []) + digit;
    [w.header, MinLine(w, c)] + upper
  }

  /** The calls `_addErrMsg` makes for one language: one `addErrMsg` per line
      of the list, in order, each guarded line only when its class is required. */
  function EmitMessages(e: Envelope, w: Wording, c: Config): (r: Envelope)
    ensures r.errors == e.errors + Messages(w, c)
    ensures r.data == e.data && r.status == e.status && r.response == e.response
  {
    AddErrMsgsAppend(e, Messages(w, c));
    Run(e, AddCalls(Messages(w, c)))
  }

  /** `_addErrMsg`: the French lines are appended to whatever errors the
      envelope already holds; for any other language the list is then cleared
      and holds the English lines alone. */
  function AddPolicyErrors(v: Validator): (r: Validator)
    ensures v.language == French ==> r.env.errors == v.env.errors + Messages(FrenchWording, v.config)
    ensures v.language != French ==> r.env.errors == Messages(EnglishWording, v.config)
    ensures r.env.data == v.env.data && r.env.status == v.env.status && r.env.response == v.env.response
    ensures r.config == v.config && r.language == v.language
  {
    var fr := EmitMessages(v.env, FrenchWording, v.config);
    if v.language == French then v.(env := fr)
    else v.(env := EmitMessages(ClearErrMsg(fr), EnglishWording, v.config))
  }

  /** The maximum length plays no part in the messages, nor does the label. */
  lemma MessagesIgnoreMax(w: Wording, c: Config, max: int, n: ConfigName)
    ensures Messages(w, c.(max := max, name := n)) == Messages(w, c)
  {
  }

  // ---------------------------------------------------------------------------
  // Validation

  /** The validator after a call and the boolean the call returned. */
  datatype Checked = Checked(validator: Validator, valid: bool)

  /** `isValidPassword`. */
  function IsValidPassword(v: Validator, pw: string): (r: Checked)
    ensures r.valid <==> Matches(v.config, pw)
    ensures r.valid ==> r.validator == v
    ensures !r.valid ==> r.validator.config == v.config && r.validator.language == v.language
    ensures !r.valid ==> r.validator.env.data == v.env.data && r.validator.env.response == v.env.response
    ensures !r.valid ==> r.validator.env.status == v.env.status
    ensures !r.valid && v.language == French ==>
      r.validator.env.errors == v.env.errors + Messages(FrenchWording, v.config)
    ensures !r.valid && v.language != French ==>
      r.validator.env.errors == Messages(EnglishWording, v.config)
  {
    var isValid := Matches(v.config, pw);
    if !isValid then Checked(AddPolicyErrors(v), false) else Checked(v, true)
  }

  /** A rejection adds 2 + (number of required classes) lines in French; in
      any other language the list ends up holding exactly that many. */
  lemma RejectionCount(v: Validator, pw: string)
    requires !Matches(v.config, pw)
    ensures v.language == French ==>
      ErrorCount(IsValidPassword(v, pw).validator.env) == ErrorCount(v.env) + 2 + FlagCount(v.config)
    ensures v.language != French ==>
      ErrorCount(IsValidPassword(v, pw).validator.env) == 2 + FlagCount(v.config)
    ensures IsError(IsValidPassword(v, pw).validator.env)
  {
  }

  /** Validating the same password twice gives the same answer. On a
      rejection, English leaves the same list both times, while French adds
      the same lines a second time. */
  lemma ValidateTwice(v: Validator, pw: string)
    ensures var once := IsValidPassword(v, pw);
            var twice := IsValidPassword(once.validator, pw);
            && twice.valid == once.valid
            && twice.validator.config == v.config
            && (v.language != French ==> twice.validator == once.validator)
            && (!once.valid && v.language == French ==>
                twice.validator.env.errors == once.validator.env.errors + Messages(FrenchWording, v.config))
  {
  }

  /** An accepted password leaves the validator exactly as it was; a rejected
      one changes only the error list. The policy is never changed. */
  lemma ValidationTouchesOnlyErrors(v: Validator, pw: string)
    ensures IsValidPassword(v, pw).validator.config == v.config
    ensures IsValidPassword(v, pw).validator.env.(errors := v.env.errors) == v.env
    ensures IsValidPassword(v, pw).validator.language == v.language
  {
  }

  /** Under the light preset a password without a final newline is accepted
      exactly when it has 6 to 100 authorised characters, one of them a digit.
      `IsValidPassword` answers `Matches` of the validator's policy. */
  lemma LightAccepts(pw: string)
    requires !EndsInNewline(pw)
    ensures Matches(LightConfig, pw) <==>
      && 6 <= |pw| <= 100
      && CharClasses.All(pw, CharClasses.Authorized)
      && CharClasses.Contains(pw, CharClasses.Digit)
  {
    MatchesPlain(LightConfig, pw);
    CharClasses.AllMeansEvery(pw, CharClasses.Authorized);
    CharClasses.ContainsMeansSome(pw, CharClasses.Digit);
  }

  /** Under the medium and hard presets, a password without a final newline is
      accepted exactly when its length is within bounds, all its characters
      are authorised, and it holds an uppercase letter and a digit: the
      uppercase letter already meets the symbol requirement. */
  lemma StrongPresetsAccept(c: Config, pw: string)
    requires (c == MediumConfig || c == HardConfig) && !EndsInNewline(pw)
    ensures Matches(c, pw) <==>
      && c.min <= |pw| <= 100
      && CharClasses.All(pw, CharClasses.Authorized)
      && CharClasses.Contains(pw, CharClasses.Upper)
      && CharClasses.Contains(pw, CharClasses.Digit)
  {
    MatchesPlain(c, pw);
    CharClasses.AllMeansEvery(pw, CharClasses.Authorized);
    CharClasses.ContainsMeansSome(pw, CharClasses.Upper);
    CharClasses.ContainsMeansSome(pw, CharClasses.Digit);
    if CharClasses.Contains(pw, CharClasses.Upper) {
      var i :| 0 <= i < |pw| && CharClasses.IsUpper(pw[i]);
      CharClasses.UpperIsSymbol(pw[i]);
    }
  }
}
