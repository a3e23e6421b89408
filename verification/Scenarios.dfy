/**
  Concrete cases: the examples the repository's tests exercise, stated
  against the model.
 */
module Scenarios {
  import opened JsonResp
  import opened PasswordPolicy
  import opened PasswordValidator
  import opened Wrappers

  // ---------------------------------------------------------------------------
  // Password validation

  /** A literal whose halves are authorised character by character is
      authorised as a whole; checking the halves separately keeps the
      evaluation small. */
  lemma AuthorizedHalves(a: string, b: string)
    requires forall i :: 0 <= i < |a| ==> CharClasses.InClass(a[i], CharClasses.Authorized)
    requires forall i :: 0 <= i < |b| ==> CharClasses.InClass(b[i], CharClasses.Authorized)
    ensures forall i :: 0 <= i < |a + b| ==> CharClasses.InClass((a + b)[i], CharClasses.Authorized)
  {
    CharClasses.AllMeansEvery(a, CharClasses.Authorized);
    CharClasses.AllMeansEvery(b, CharClasses.Authorized);
    CharClasses.AllConcat(a, b, CharClasses.Authorized);
    CharClasses.AllMeansEvery(a + b, CharClasses.Authorized);
  }

  /** Under the light preset, "", "short" and "nodigit" are rejected and
      "1digit" (six characters, one a digit) is accepted. */
  lemma LightPresetCases(data: seq<Entry>)
    ensures !IsValidPassword(NewValidatorDefault(data), "").valid
    ensures !IsValidPassword(NewValidatorDefault(data), "short").valid
    ensures !IsValidPassword(NewValidatorDefault(data), "nodigit").valid
    ensures IsValidPassword(NewValidatorDefault(data), "1digit").valid
  {
    assert NewValidatorDefault(data).config == LightConfig;
    LightRejectsShort();
    LightRejectsNoDigit();
    LightAcceptsOneDigit();
  }

  lemma LightRejectsShort()
    ensures !Matches(LightConfig, "") && !Matches(LightConfig, "short")
  {
    assert |"short"| == 5;
    MatchesPlain(LightConfig, "");
    MatchesPlain(LightConfig, "short");
  }

  lemma LightRejectsNoDigit()
    ensures !Matches(LightConfig, "nodigit")
  {
    var t := "nodigit";
    assert forall i :: 0 <= i < |t| ==> !CharClasses.IsDigit(t[i]);
    MatchesPlain(LightConfig, t);
  }

  lemma LightAcceptsOneDigit()
    ensures Matches(LightConfig, "1digit")
  {
    var s := "1digit";
    assert CharClasses.IsDigit(s[0]);
    assert forall i :: 0 <= i < |s| ==> CharClasses.InClass(s[i], CharClasses.Authorized);
    MatchesPlain(LightConfig, s);
  }

  /** The pattern's `$` also matches before a final newline, so "1digit\n"
      passes the light preset too. */
  lemma LightAcceptsTrailingNewline(data: seq<Entry>)
    ensures IsValidPassword(NewValidatorDefault(data), "1digit\n").valid
  {
    LightAcceptsOneDigit();
    TrailingNewlineAccepted(LightConfig, "1digit");
    assert "1digit" + "\n" == "1digit\n";
  }

  /** A rejected empty password under the default French validator leaves the
      header and a minimum-length line naming 6, then the digit line. */
  lemma EmptyPasswordMessages(data: seq<Entry>)
    ensures IsValidPassword(NewValidatorDefault(data), "").validator.env.errors ==
      ["Mot de passe invalide", "-6 caractères minimum", "- 1 chiffre requis"]
  {
    var v := NewValidatorDefault(data);
    LightRejectsShort();
    LightMessages();
    assert v.env.errors == [];
    assert [] + Messages(FrenchWording, LightConfig) == Messages(FrenchWording, LightConfig);
  }

  /** The same rejection in English replaces the list with the English lines. */
  lemma EmptyPasswordMessagesEnglish(data: seq<Entry>)
    ensures IsValidPassword(NewValidator(data, "en_US"), "").validator.env.errors ==
      ["Invalid Password", "- at least 6 characters long", "digits required"]
  {
    var v := NewValidator(data, "en_US");
    assert v.language != French;
    LightRejectsShort();
    LightMessages();
  }

  /** The two message lists the light preset produces. */
  lemma LightMessages()
    ensures Messages(FrenchWording, LightConfig) == ["Mot de passe invalide", "-6 caractères minimum", "- 1 chiffre requis"]
    ensures Messages(EnglishWording, LightConfig) == ["Invalid Password", "- at least 6 characters long", "digits required"]
  {
    FrenchMinLineSix();
    EnglishMinLineSix();
  }

  lemma FrenchMinLineSix()
    ensures MinLine(FrenchWording, LightConfig) == "-6 caractères minimum"
  {
    assert PhpString.IntToString(6) == "6";
  }

  lemma EnglishMinLineSix()
    ensures MinLine(EnglishWording, LightConfig) == "- at least 6 characters long"
  {
    assert PhpString.IntToString(6) == "6";
  }

  /** Under the medium preset "1_Medium_Pass" is accepted and "1digitvalid"
      (no uppercase letter) is rejected. */
  lemma MediumPresetCases(data: seq<Entry>)
    ensures IsValidPassword(SetMediumConfig(NewValidatorDefault(data)), "1_Medium_Pass").valid
    ensures !IsValidPassword(SetMediumConfig(NewValidatorDefault(data)), "1digitvalid").valid
  {
    MediumAcceptsSample();
    MediumRejectsNoUpper();
  }

  lemma MediumAcceptsSample()
    ensures Matches(MediumConfig, "1_Medium_Pass")
  {
    var s, a, b := "1_Medium_Pass", "1_Medi", "um_Pass";
    assert forall i :: 0 <= i < |a| ==> CharClasses.InClass(a[i], CharClasses.Authorized);
    assert forall i :: 0 <= i < |b| ==> CharClasses.InClass(b[i], CharClasses.Authorized);
    AuthorizedHalves(a, b);
    assert a + b == s;
    assert CharClasses.IsDigit(s[0]) && CharClasses.IsSymbol(s[1]) && CharClasses.IsUpper(s[2]);
    MatchesPlain(MediumConfig, s);
  }

  lemma MediumRejectsNoUpper()
    ensures !Matches(MediumConfig, "1digitvalid")
  {
    var t := "1digitvalid";
    assert forall i :: 0 <= i < |t| ==> !CharClasses.IsUpper(t[i]);
    MatchesPlain(MediumConfig, t);
  }

  /** Under the medium preset an uppercase letter stands in for the symbol:
      "Abcdefghi1" holds no listed symbol yet is accepted, while the hyphen in
      "Abcd-efgh1" is not authorised at all. */
  lemma MediumRangeQuirks(data: seq<Entry>)
    ensures IsValidPassword(SetMediumConfig(NewValidatorDefault(data)), "Abcdefghi1").valid
    ensures !IsValidPassword(SetMediumConfig(NewValidatorDefault(data)), "Abcd-efgh1").valid
  {
    MediumAcceptsUpperAsSymbol();
    MediumRejectsHyphen();
  }

  lemma MediumAcceptsUpperAsSymbol()
    ensures Matches(MediumConfig, "Abcdefghi1")
  {
    var s, a, b := "Abcdefghi1", "Abcde", "fghi1";
    assert forall i :: 0 <= i < |a| ==> CharClasses.InClass(a[i], CharClasses.Authorized);
    assert forall i :: 0 <= i < |b| ==> CharClasses.InClass(b[i], CharClasses.Authorized);
    AuthorizedHalves(a, b);
    assert a + b == s;
    assert CharClasses.IsUpper(s[0]) && CharClasses.IsSymbol(s[0]) && CharClasses.IsDigit(s[9]);
    MatchesPlain(MediumConfig, s);
  }

  lemma MediumRejectsHyphen()
    ensures !Matches(MediumConfig, "Abcd-efgh1")
  {
    var t := "Abcd-efgh1";
    assert t[4] == '-';
    assert !CharClasses.InClass(t[4], CharClasses.Authorized);
    MatchesPlain(MediumConfig, t);
  }

  /** A custom policy of exactly four characters with every class required
      accepts "A$1e" and rejects "toolong". */
  lemma CustomPolicyCases(data: seq<Entry>)
    ensures IsValidPassword(SetCustomConfig(NewValidatorDefault(data), 4, 4, true, true, true), "A$1e").valid
    ensures !IsValidPassword(SetCustomConfig(NewValidatorDefault(data), 4, 4, true, true, true), "toolong").valid
  {
    var c := CustomConfig(4, 4, true, true, true);
    var s := "A$1e";
    MatchesPlain(c, s);
    assert CharClasses.IsUpper(s[0]) && CharClasses.IsSymbol(s[1]) && CharClasses.IsDigit(s[2]);
    assert forall i :: 0 <= i < |s| ==> CharClasses.InClass(s[i], CharClasses.Authorized);
  }

  /** A custom policy whose bound exceeds what PCRE accepts rejects even a
      password that satisfies it on paper. */
  lemma OversizedBoundRejects(data: seq<Entry>)
    ensures !IsValidPassword(SetCustomConfig(NewValidatorDefault(data), 0, 70000, false, false, false), "abc").valid
  {
  }

  /** With a negative maximum the braces are plain text: the custom policy
      (0, -1) accepts "a{0,-1}", which the wider policy (0, 100) rejects
      because '-' is not authorised. */
  lemma NegativeMaxIsLiteral(data: seq<Entry>)
    ensures IsValidPassword(SetCustomConfig(NewValidatorDefault(data), 0, -1, false, false, false), "a{0,-1}").valid
    ensures !IsValidPassword(SetCustomConfig(NewValidatorDefault(data), 0, 100, false, false, false), "a{0,-1}").valid
  {
    var c := CustomConfig(0, -1, false, false, false);
    var s := "a{0,-1}";
    assert PhpString.IntToString(0) == "0";
    assert PhpString.IntToString(-1) == "-1";
    assert Quantifier(c) == "{0,-1}";
    assert s[1..] == Quantifier(c);
    LiteralPattern(c, s);
    assert s[4] == '-' && !CharClasses.InClass(s[4], CharClasses.Authorized);
    MatchesPlain(CustomConfig(0, 100, false, false, false), s);
  }

  // ---------------------------------------------------------------------------
  // Envelope

  /** Strings lose their surrounding whitespace, and exact "true"/"false"
      become booleans. */
  lemma PaddedStringTrimmed()
    ensures NormalizeValue(Str("  x  ")) == Str("x")
  {
    var sp := "  ";
    var x := "x";
    assert sp + x + sp == "  x  ";
    assert PhpString.AllSpace(sp) && PhpString.NoEdgeSpace(x);
    assert x != "true" && x != "false";
    NormalizePaddedString(sp, x, sp);
  }

  lemma TrueFalseConverted()
    ensures NormalizeValue(Str("true")) == Bool(true)
    ensures NormalizeValue(Str("false")) == Bool(false)
  {
    TrueConverted();
    FalseConverted();
  }

  lemma TrueConverted()
    ensures NormalizeValue(Str("true")) == Bool(true)
  {
    var t := "true";
    assert t[0] == 't' && t[|t| - 1] == 'e';
    PhpString.TrimFixed(t);
    assert t != "false" by { assert |t| != |"false"|; }
  }

  lemma FalseConverted()
    ensures NormalizeValue(Str("false")) == Bool(false)
  {
    var f := "false";
    assert f[0] == 'f' && f[|f| - 1] == 'e';
    assert !PhpString.IsTrimSpace(f[0]) && !PhpString.IsTrimSpace(f[|f| - 1]);
    PhpString.TrimFixed(f);
  }

  /** The boolean conversion is case-sensitive: "TRUE" stays a string. */
  lemma UppercaseTrueStaysString()
    ensures NormalizeValue(Str("TRUE")) == Str("TRUE")
  {
    var s := "TRUE";
    assert s[0] == 'T' && s[|s| - 1] == 'E';
    PhpString.TrimFixed(s);
    assert s != "true" by { assert s[0] != "true"[0]; }
    assert s != "false" by { assert |s| != |"false"|; }
  }

  /** The test record `['user' => 'John']` is stored unchanged. */
  lemma JohnStored()
    ensures NormalizeData([Entry(Name("user"), Str("John"))]) == [Entry(Name("user"), Str("John"))]
  {
    var j := "John";
    assert j[0] == 'J' && j[|j| - 1] == 'n';
    PhpString.TrimFixed(j);
    assert j != "true" && j != "false" by { assert j[0] != "true"[0] && j[0] != "false"[0]; }
  }

  /** Data and no error export as success with the data and no response key. */
  lemma ExportSuccessWithData()
    ensures ReturnResponse(SetData(NewEnvelope([]), [Entry(Name("user"), Str("John"))])).out ==
      Export("success", [], Some([Entry(Name("user"), Str("John"))]), None)
  {
    JohnStored();
  }

  /** An error added before the data exports as error, carrying both. */
  lemma ExportErrorWithData()
    ensures ReturnResponse(SetData(AddErrMsg(NewEnvelope([]), "Invalid input"), [Entry(Name("user"), Str("John"))])).out ==
      Export("error", ["Invalid input"], Some([Entry(Name("user"), Str("John"))]), None)
  {
    JohnStored();
  }

  /** An error and nothing else exports without the data and response keys. */
  lemma ExportOmitsEmpty()
    ensures ReturnResponse(AddErrMsg(NewEnvelope([]), "Error")).out ==
      Export("error", ["Error"], None, None)
  {
  }

  /** Once exported clean, the envelope keeps reporting success even after
      an error is added. */
  lemma StickySuccessExample()
    ensures var e := ReturnResponse(NewEnvelope([])).env;
            ReturnResponse(AddErrMsg(e, "late")).out.status == "success"
  {
  }
}
