/**
  A password policy and the meaning of the PCRE pattern it compiles to.

  The pattern (`_regex`) is `/^` + one lookahead per required class +
  the authorised class repeated `{min,max}` + `$/`. Rather than run a regex
  engine, `Matches` states what PHP's `preg_match` answers for that pattern,
  including the PCRE behaviours the pattern inherits:
  - `$` without the D modifier also matches just before a final "\n";
  - `{min,max}` is a quantifier only when both bounds are digit strings; a
    negative bound makes it literal text, matched character for character;
  - a quantifier with min > max, or with a bound above 65535, does not
    compile, and a pattern that does not compile makes `preg_match` return
    false and raise a warning (the warning itself is not modelled).
 */
module PasswordPolicy {
  import opened CharClasses
  import PhpString

  datatype ConfigName = Light | Medium | Hard | Custom

  /** What `getCurrentConfigName` returns for each configuration. */
  function ConfigNameText(n: ConfigName): string {
    match n
    case Light => "light"
    case Medium => "medium"
    case Hard => "hard"
    case Custom => "custom"
  }

  /** The five policy scalars and the label of the setter that wrote them. */
  datatype Config = Config(min: int, max: int, uppercase: bool, digits: bool, symbols: bool, name: ConfigName)

  const LightConfig := Config(6, 100, false, true, false, Light)
  const MediumConfig := Config(10, 100, true, true, true, Medium)
  const HardConfig := Config(20, 100, true, true, true, Hard)

  /** `setCustomConfig`: the arguments are stored as given, without range checks. */
  function CustomConfig(min: int, max: int, uppercase: bool, digits: bool, symbols: bool): (c: Config)
    ensures c.name == Custom
    ensures c.min == min && c.max == max
    ensures c.uppercase == uppercase && c.digits == digits && c.symbols == symbols
  {
    Config(min, max, uppercase, digits, symbols, Custom)
  }

  /** The largest repeat count PCRE accepts in a `{n,m}` quantifier. */
  const MaxRepeat := 65535

  /** PCRE reads `{min,max}` as a quantifier only when both bounds are
      written with digits alone. A negative bound puts a '-' in it, and the
      braces, the numbers and the comma are then ordinary characters to match. */
  predicate IsQuantifier(c: Config) {
    0 <= c.min && 0 <= c.max
  }

  /** The pattern compiles: a quantifier needs min <= max <= 65535, literal
      text always compiles. */
  predicate Compiles(c: Config) {
    IsQuantifier(c) ==> c.min <= c.max <= MaxRepeat
  }

  /** The part of the pattern between `^` and the end anchor, over the whole
      of `s`: the lookaheads, then either the authorised class repeated min to
      max times, or (with a negative bound) one authorised character followed
      by the literal text `{min,max}`. */
  predicate Body(c: Config, s: string)
    ensures Body(c, s) <==>
      && (IsQuantifier(c) ==>
            c.min <= |s| <= c.max && forall i :: 0 <= i < |s| ==> InClass(s[i], Authorized))
      && (!IsQuantifier(c) ==>
            |s| > 0 && InClass(s[0], Authorized) && s[1..] == Quantifier(c))
      && (c.uppercase ==> exists i :: 0 <= i < |s| && IsUpper(s[i]))
      && (c.digits ==> exists i :: 0 <= i < |s| && IsDigit(s[i]))
      && (c.symbols ==> exists i :: 0 <= i < |s| && IsSymbol(s[i]))
  {
    AllMeansEvery(s, Authorized);
    ContainsMeansSome(s, Upper);
    ContainsMeansSome(s, Digit);
    ContainsMeansSome(s, Symbol);
    && (if IsQuantifier(c) then c.min <= |s| <= c.max && All(s, Authorized)
        else |s| > 0 && InClass(s[0], Authorized) && s[1..] == Quantifier(c))
    && (c.uppercase ==> Contains(s, Upper))
    && (c.digits ==> Contains(s, Digit))
    && (c.symbols ==> Contains(s, Symbol))
  }

  predicate EndsInNewline(s: string) {
    |s| > 0 && s[|s| - 1] == '\n'
  }

  /** `preg_match(_regex(), pw)` is 1. The lookaheads' `.*` cannot cross a
      newline, but neither an authorised character nor the text `{min,max}`
      is one, so a match before the final "\n" sees the same characters as
      the body. */
  predicate Matches(c: Config, pw: string) {
    && Compiles(c)
    && (Body(c, pw) || (EndsInNewline(pw) && Body(c, pw[..|pw| - 1])))
  }

  // ---------------------------------------------------------------------------
  // The pattern as text (`getRegex`)

  const UpperLookahead := "(?=.*[A-Z])"
  const DigitLookahead := "(?=.*\\d)"
  const SymbolLookahead := "(?=.*[!@#$%^&*(),.?:{}|<>-_])"
  const AuthorizedClass := "[A-Za-z\\d!@#$%^&*(),.?:{}|<>-_]"

  /** The lookaheads the flags switch on, in the order uppercase, digit, symbol. */
  function Lookaheads(c: Config): string {
    (if c.uppercase then UpperLookahead else "")
    + (if c.digits then DigitLookahead else "")
    + (if c.symbols then SymbolLookahead else "")
  }

  /** The `{min,max}` quantifier with both bounds in decimal. */
  function Quantifier(c: Config): string {
    "{" + PhpString.IntToString(c.min) + "," + PhpString.IntToString(c.max) + "}"
  }

  /** Everything before the quantifier: the start anchor, the lookaheads and
      the authorised class. */
  function PatternHead(c: Config): string {
    "/^" + Lookaheads(c) + AuthorizedClass
  }

  /** `_regex()` / `getRegex()`. */
  function Pattern(c: Config): string {
    PatternHead(c) + Quantifier(c) + "$/"
  }

  lemma CancelAffixes(p: string, a: string, b: string, s: string)
    requires p + a + s == p + b + s
    ensures a == b
  {
    var x := p + a + s;
    assert |a| == |b|;
    assert a == x[|p|..|p| + |a|];
    assert b == (p + b + s)[|p|..|p| + |b|];
  }

  /** In `a + "," + b` with no comma in `a`, no comma comes before position |a|. */
  lemma CommaNotBefore(a: string, b: string, j: int)
    requires forall k :: 0 <= k < |a| ==> a[k] != ','
    requires 0 <= j < |a| + 1 + |b| && (a + "," + b)[j] == ','
    ensures |a| <= j
  {
    assert forall k :: 0 <= k < |a| ==> (a + "," + b)[k] == a[k];
  }

  lemma SplitAtComma(a1: string, b1: string, a2: string, b2: string)
    requires forall k :: 0 <= k < |a1| ==> a1[k] != ','
    requires forall k :: 0 <= k < |a2| ==> a2[k] != ','
    requires a1 + "," + b1 == a2 + "," + b2
    ensures a1 == a2 && b1 == b2
  {
    var x := a1 + "," + b1;
    assert (a2 + "," + b2)[|a2|] == ',';
    CommaNotBefore(a1, b1, |a2|);
    assert x[|a1|] == ',';
    CommaNotBefore(a2, b2, |a1|);
    assert a1 == x[..|a1|];
    assert a2 == (a2 + "," + b2)[..|a2|];
    assert b1 == x[|a1| + 1..];
    assert b2 == (a2 + "," + b2)[|a2| + 1..];
  }

  lemma NoCommaInNumber(n: int)
    ensures forall k :: 0 <= k < |PhpString.IntToString(n)| ==> PhpString.IntToString(n)[k] != ','
  {
    var s := PhpString.IntToString(n);
    forall k | 0 <= k < |s|
      ensures s[k] != ','
    {
      if n < 0 && k > 0 {
        assert s[k] == s[1..][k - 1];
      }
    }
  }

  /** A `{a,b}` text splits back into its two parts when `a` has no comma. */
  lemma BracesSplit(a1: string, b1: string, a2: string, b2: string)
    requires forall k :: 0 <= k < |a1| ==> a1[k] != ','
    requires forall k :: 0 <= k < |a2| ==> a2[k] != ','
    requires "{" + a1 + "," + b1 + "}" == "{" + a2 + "," + b2 + "}"
    ensures a1 == a2 && b1 == b2
  {
    assert "{" + a1 + "," + b1 + "}" == "{" + (a1 + "," + b1) + "}";
    assert "{" + a2 + "," + b2 + "}" == "{" + (a2 + "," + b2) + "}";
    CancelAffixes("{", a1 + "," + b1, a2 + "," + b2, "}");
    SplitAtComma(a1, b1, a2, b2);
  }

  /** The bounds can be read back from the quantifier text. */
  lemma QuantifierDeterminesBounds(c1: Config, c2: Config)
    requires Quantifier(c1) == Quantifier(c2)
    ensures c1.min == c2.min && c1.max == c2.max
  {
    NoCommaInNumber(c1.min);
    NoCommaInNumber(c2.min);
    BracesSplit(PhpString.IntToString(c1.min), PhpString.IntToString(c1.max),
                PhpString.IntToString(c2.min), PhpString.IntToString(c2.max));
    PhpString.IntToStringInjective(c1.min, c2.min);
    PhpString.IntToStringInjective(c1.max, c2.max);
  }

  /** The quantifier's bounds can be read back from the pattern text: two
      policies requiring the same classes and compiling to the same pattern
      have the same length bounds. */
  lemma PatternDeterminesBounds(c1: Config, c2: Config)
    requires c1.uppercase == c2.uppercase && c1.digits == c2.digits && c1.symbols == c2.symbols
    requires Pattern(c1) == Pattern(c2)
    ensures c1.min == c2.min && c1.max == c2.max
  {
    var h := PatternHead(c1);
    assert Lookaheads(c1) == Lookaheads(c2);
    assert h == PatternHead(c2);
    CancelAffixes(h, Quantifier(c1), Quantifier(c2), "$/");
    QuantifierDeterminesBounds(c1, c2);
  }

  /** The light preset's pattern: only the digit lookahead, and `{6,100}`. */
  lemma LightPattern()
    ensures Lookaheads(LightConfig) == DigitLookahead
    ensures Quantifier(LightConfig) == "{6,100}"
  {
    assert "" + DigitLookahead + "" == DigitLookahead;
    assert PhpString.NatToString(10) == "10";
    assert PhpString.IntToString(100) == "100";
  }

  /** The characters the text `{min,max}` can hold. */
  predicate QuantifierTextChar(ch: char) {
    ch == '{' || ch == ',' || ch == '}' || ch == '-' || IsDigit(ch)
  }

  predicate QuantifierText(s: string) {
    forall k :: 0 <= k < |s| ==> QuantifierTextChar(s[k])
  }

  lemma QuantifierTextConcat(x: string, y: string)
    requires QuantifierText(x) && QuantifierText(y)
    ensures QuantifierText(x + y)
  {
    assert forall k :: 0 <= k < |y| ==> (x + y)[|x| + k] == y[k];
  }

  lemma NumberIsQuantifierText(n: int)
    ensures QuantifierText(PhpString.IntToString(n))
  {
    PhpString.IntToStringChars(n);
  }

  /** What the literal text `{min,max}` is made of: it opens with '{', ends
      with '}', holds a digit, and has no uppercase letter and no newline. */
  lemma QuantifierChars(c: Config)
    ensures Quantifier(c)[0] == '{' && Quantifier(c)[|Quantifier(c)| - 1] == '}'
    ensures forall k :: 0 <= k < |Quantifier(c)| ==> !IsUpper(Quantifier(c)[k]) && Quantifier(c)[k] != '\n'
    ensures exists k :: 0 <= k < |Quantifier(c)| && IsDigit(Quantifier(c)[k])
  {
    QuantifierIsText(c);
    QuantifierHasDigit(c);
  }

  lemma QuantifierIsText(c: Config)
    ensures QuantifierText(Quantifier(c))
  {
    var a := PhpString.IntToString(c.min);
    var b := PhpString.IntToString(c.max);
    NumberIsQuantifierText(c.min);
    NumberIsQuantifierText(c.max);
    QuantifierTextConcat("{", a);
    QuantifierTextConcat("{" + a, ",");
    QuantifierTextConcat("{" + a + ",", b);
    QuantifierTextConcat("{" + a + "," + b, "}");
  }

  lemma QuantifierHasDigit(c: Config)
    ensures exists k :: 0 <= k < |Quantifier(c)| && IsDigit(Quantifier(c)[k])
  {
    var a := PhpString.IntToString(c.min);
    PhpString.IntToStringChars(c.min);
    var h := "{" + a;
    assert IsDigit(h[|a|]);
    assert Quantifier(c) == h + ("," + PhpString.IntToString(c.max) + "}");
    assert Quantifier(c)[|a|] == h[|a|];
  }

  // ---------------------------------------------------------------------------
  // Properties of acceptance

  /** The length bounds hold regardless of content: under a quantifier a match
      has between min and max characters, or max + 1 when the last is a
      newline; under literal text it is one character longer than the text
      `{min,max}`, or two with the newline. */
  lemma LengthBound(c: Config, pw: string)
    requires Matches(c, pw)
    ensures IsQuantifier(c) ==> c.min <= |pw| <= c.max + 1
    ensures IsQuantifier(c) && !EndsInNewline(pw) ==> |pw| <= c.max
    ensures !IsQuantifier(c) ==> |pw| == |Quantifier(c)| + 1 || |pw| == |Quantifier(c)| + 2
    ensures !IsQuantifier(c) && !EndsInNewline(pw) ==> |pw| == |Quantifier(c)| + 1
  {
  }

  /** A quantifier whose minimum exceeds its maximum accepts nothing. */
  lemma InvertedBoundsRejectAll(c: Config, pw: string)
    requires 0 <= c.max < c.min
    ensures !Matches(c, pw)
  {
  }

  /** Without a final newline and under a quantifier, acceptance is exactly the
      five constraints: length within bounds, all characters authorised, and
      each required class present somewhere — provided the pattern compiles. */
  lemma MatchesPlain(c: Config, pw: string)
    requires !EndsInNewline(pw)
    ensures IsQuantifier(c) ==> (Matches(c, pw) <==>
      && Compiles(c)
      && c.min <= |pw| <= c.max
      && (forall i :: 0 <= i < |pw| ==> InClass(pw[i], Authorized))
      && (c.uppercase ==> exists i :: 0 <= i < |pw| && IsUpper(pw[i]))
      && (c.digits ==> exists i :: 0 <= i < |pw| && IsDigit(pw[i]))
      && (c.symbols ==> exists i :: 0 <= i < |pw| && IsSymbol(pw[i])))
  {
  }

  /** The body over literal text: one authorised character, uppercase when an
      uppercase letter is required, then exactly `{min,max}`. The digit and
      symbol lookaheads are met by the text itself. */
  lemma LiteralBody(c: Config, s: string)
    requires !IsQuantifier(c)
    ensures Body(c, s) <==>
      |s| > 0 && InClass(s[0], Authorized) && (c.uppercase ==> IsUpper(s[0])) && s[1..] == Quantifier(c)
  {
    QuantifierChars(c);
    var q := Quantifier(c);
    if |s| > 0 && s[1..] == q {
      assert forall k :: 0 <= k < |q| ==> s[1 + k] == q[k];
      assert IsSymbol(s[1]);
      var j :| 0 <= j < |q| && IsDigit(q[j]);
      assert IsDigit(s[1 + j]);
    }
  }

  /** With a negative bound the password must be one authorised character
      (uppercase when required) followed by the text `{min,max}`, optionally
      followed by one newline. */
  lemma LiteralPattern(c: Config, pw: string)
    requires !IsQuantifier(c)
    ensures Matches(c, pw) <==>
      && |pw| > 0 && InClass(pw[0], Authorized) && (c.uppercase ==> IsUpper(pw[0]))
      && (pw[1..] == Quantifier(c) || pw[1..] == Quantifier(c) + "\n")
  {
    QuantifierChars(c);
    LiteralBody(c, pw);
    if EndsInNewline(pw) {
      LiteralBody(c, pw[..|pw| - 1]);
    }
    NewlineAlternatives(pw, Quantifier(c));
  }

  /** The text after the first character is `q`, either in the whole of `pw`
      or in `pw` without its final newline, exactly when it is `q` or `q`
      plus a newline; `q` itself does not end in one. */
  lemma NewlineAlternatives(pw: string, q: string)
    requires |q| > 0 && q[|q| - 1] != '\n'
    ensures EndsInNewline(pw) && |pw| > 1 ==> pw[..|pw| - 1][0] == pw[0]
    ensures (|pw| > 0 && pw[1..] == q) || (EndsInNewline(pw) && |pw| > 1 && pw[..|pw| - 1][1..] == q)
      <==> |pw| > 0 && (pw[1..] == q || pw[1..] == q + "\n")
  {
    if EndsInNewline(pw) && |pw| > 1 {
      var s := pw[..|pw| - 1];
      assert pw[1..] == s[1..] + "\n";
      assert pw[1..][|pw| - 2] == '\n';
    }
    if |pw| > 0 && pw[1..] == q + "\n" {
      assert pw[|pw| - 1] == (q + "\n")[|q|];
      assert pw[..|pw| - 1][1..] == q;
    }
  }

  /** A password followed by one newline is accepted exactly when the password
      is, so long as the password itself does not end in a newline. */
  lemma TrailingNewlineAccepted(c: Config, pw: string)
    requires !EndsInNewline(pw)
    ensures Matches(c, pw + "\n") <==> Matches(c, pw)
  {
    var s := pw + "\n";
    assert s[..|s| - 1] == pw;
    assert !InClass(s[|s| - 1], Authorized);
    QuantifierChars(c);
    assert |s| >= 2 ==> s[1..][|s| - 2] == '\n';
  }

  /** With the symbol requirement on, an uppercase letter already satisfies it. */
  lemma UpperSatisfiesSymbols(c: Config, pw: string)
    requires c.symbols
    requires Matches(c.(symbols := false), pw)
    requires exists i :: 0 <= i < |pw| && IsUpper(pw[i])
    ensures Matches(c, pw)
  {
    var i :| 0 <= i < |pw| && IsUpper(pw[i]);
    if Body(c.(symbols := false), pw) {
      BodyUpperIsSymbol(c, pw, i);
    } else {
      var s := pw[..|pw| - 1];
      assert i < |s| && s[i] == pw[i];
      BodyUpperIsSymbol(c, s, i);
    }
  }

  lemma BodyUpperIsSymbol(c: Config, s: string, i: int)
    requires c.symbols && 0 <= i < |s| && IsUpper(s[i])
    requires Body(c.(symbols := false), s)
    ensures Body(c, s)
  {
    UpperIsSymbol(s[i]);
    assert Quantifier(c) == Quantifier(c.(symbols := false));
  }

  /** Between quantifiers, a policy that asks for more accepts less: a larger
      minimum, a smaller maximum or an extra required class can only reject
      more passwords. */
  lemma StricterAcceptsLess(strict: Config, loose: Config, pw: string)
    requires 0 <= loose.min <= strict.min && 0 <= strict.max <= loose.max <= MaxRepeat
    requires loose.uppercase ==> strict.uppercase
    requires loose.digits ==> strict.digits
    requires loose.symbols ==> strict.symbols
    requires Matches(strict, pw)
    ensures Matches(loose, pw)
  {
  }

  /** The presets are nested: hard accepts a subset of medium, which accepts a
      subset of light. */
  lemma PresetsNested(pw: string)
    ensures Matches(HardConfig, pw) ==> Matches(MediumConfig, pw)
    ensures Matches(MediumConfig, pw) ==> Matches(LightConfig, pw)
  {
    if Matches(HardConfig, pw) {
      StricterAcceptsLess(HardConfig, MediumConfig, pw);
    }
    if Matches(MediumConfig, pw) {
      StricterAcceptsLess(MediumConfig, LightConfig, pw);
    }
  }

  /** Acceptance depends on the five scalars only, never on the label. */
  lemma LabelIrrelevant(c: Config, n: ConfigName, pw: string)
    ensures Matches(c.(name := n), pw) <==> Matches(c, pw)
    ensures Pattern(c.(name := n)) == Pattern(c)
  {
  }
}
