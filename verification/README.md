# php-json-response in Dafny

A Dafny model of the two classes of the `php-json-response` library:

- `JsonResp`, a response envelope. It holds normalised request data, an
  ordered list of error messages, an opaque response payload and a status
  that turns from "error" to "success" the first time the envelope is
  exported with no error pending.
- `PasswordValidator`, which extends the envelope with a password policy
  (minimum and maximum length, three "class required" flags, a config label)
  and a message language. It checks a password against the PCRE pattern the
  policy compiles to and, on a rejection, writes the localised list of
  reasons into the envelope's error list.

Every PHP object is an immutable datatype here, and every method a pure
function from the old state to the new one (`Envelope`, `Validator`). The
regular expression is not executed: `PasswordPolicy.Matches` states what
`preg_match` answers for the compiled pattern, character classes read
literally as PCRE reads them.

Modules:

| file | module | models |
|---|---|---|
| Wrappers.dfy | Wrappers | `Option` |
| PhpString.dfy | PhpString | PHP `trim` with its default character list; decimal rendering of an `int` in string concatenation |
| CharClasses.dfy | CharClasses | the PCRE classes `[A-Z]`, `\d`, `[!@#$%^&*(),.?:{}\|<>-_]` and the authorised class |
| JsonResp.dfy | JsonResp | `src/JsonResp.php` |
| PasswordPolicy.dfy | PasswordPolicy | the policy, the pattern `_regex()` builds and what it accepts |
| PasswordValidator.dfy | PasswordValidator | `src/PasswordValidator.php` |
| Scenarios.dfy | Scenarios | concrete cases from the repository's tests and from the pattern's quirks |

Behaviours of the code worth noting:

- A rejection in `fr_FR` appends the French lines to the existing error
  list; only other languages clear the list first
  (src/PasswordValidator.php:163).
- `>-_` inside the symbol class is a range from '>' to '_'. It makes every
  uppercase letter a symbol and leaves '-' unauthorised
  (src/PasswordValidator.php:136-137).
- `setData` trims a string before comparing it to "true"/"false", so
  `" true "` becomes the boolean (src/JsonResp.php:47-49).
- The test at tests/PasswordValidatorTest.php:25-26 expects "1digit" to be
  rejected under the light preset. It has six authorised characters, one
  of them a digit, so the pattern accepts it; the model accepts it
  (`Scenarios.LightPresetCases`).

PCRE behaviours of the pattern that the model includes rather than excludes:

- `$` without the D modifier also matches just before a final "\n", so a
  valid password followed by one newline is accepted.
- `{min,max}` is a quantifier only when both bounds are non-negative, so
  that both render as digit strings (`PasswordPolicy.IsQuantifier`). With a
  negative bound, for example `setCustomConfig(0, -1, …)`, the braces are
  literal text: the pattern then accepts one authorised character followed
  by exactly `{0,-1}` (and optionally a final newline), so "a{0,-1}" is
  valid (`PasswordPolicy.LiteralPattern`, `Scenarios.NegativeMaxIsLiteral`).
- A quantifier `{min,max}` with min > max, or with a bound above 65535
  (`PasswordPolicy.MaxRepeat`), does not compile. `preg_match` then returns
  false and raises a warning. Under PHP's default error handling the
  password is rejected and the messages are written; that is the path the
  model follows.

## Model

| member | source | states |
|---|---|---|
| CharClasses.ContainsMeansSome | src/PasswordValidator.php:134-136 | a lookahead `(?=.*[k])` holds exactly when some character of the password lies in class k |
| CharClasses.AllMeansEvery | src/PasswordValidator.php:137-138 | the repeated authorised class covers the password exactly when every character lies in it |
| CharClasses.AllConcat | src/PasswordValidator.php:137-138 | a repeated class covers a concatenation exactly when it covers both parts |
| CharClasses.ClassesAreAuthorized | src/PasswordValidator.php:134-137 | every class a lookahead asks for lies inside the authorised class |
| CharClasses.UpperIsSymbol | src/PasswordValidator.php:136 | because of the range `>-_`, every uppercase letter is in the symbol class |
| CharClasses.AuthorizedPrintable | src/PasswordValidator.php:137 | a printable ASCII character is authorised exactly when it is not space, `" ' + - / ; =`, backtick or `~` |
| CharClasses.AuthorizedIsPrintable | src/PasswordValidator.php:137 | no control character, newline or non-ASCII character is authorised |
| PhpString.TrimLeft | src/JsonResp.php:47 | the result is what is left of the string after its longest prefix of trim characters |
| PhpString.TrimRight | src/JsonResp.php:47 | the result is what is left of the string after its longest suffix of trim characters |
| PhpString.Trim | src/JsonResp.php:47 | the trimmed string has no trim character at either end and is no longer than the input |
| PhpString.TrimUnique | src/JsonResp.php:47 | a core without edge spaces, wrapped in any runs of trim characters, is exactly what `trim` returns |
| PhpString.TrimDecomposes | src/JsonResp.php:47 | every string is trim characters, then its trimmed core, then trim characters |
| PhpString.TrimFixed | src/JsonResp.php:47 | a string with no trim character at either end is its own trim |
| PhpString.TrimIdempotent | src/JsonResp.php:47 | trimming twice is trimming once |
| PhpString.NatToString | src/PasswordValidator.php:159 | a natural number renders as a non-empty run of digits without a leading zero, one digit exactly below 10 |
| PhpString.ParseNatToString | src/PasswordValidator.php:159 | reading back the digits of a rendered natural number gives the number |
| PhpString.IntToString | src/PasswordValidator.php:138 | an integer renders with a leading '-' exactly when it is negative |
| PhpString.IntToStringRoundTrip | src/PasswordValidator.php:138 | parsing the rendering of any integer gives the integer back |
| PhpString.IntToStringInjective | src/PasswordValidator.php:138 | two integers with the same rendering are equal |
| PhpString.IntToStringChars | src/PasswordValidator.php:138 | the rendering of an integer holds only '-' and digits and ends in a digit |
| JsonResp.NormalizeValue | src/JsonResp.php:47-49 | a string becomes its trim, or true/false exactly when the trim is "true"/"false"; any other value passes unchanged |
| JsonResp.NormalizeData | src/JsonResp.php:43-53 | each entry keeps its key and position and has its value normalised on its own |
| JsonResp.NormalizePaddedString | src/JsonResp.php:47-49 | a padded string is stored without its padding, or as the boolean it spells |
| JsonResp.NormalizeValueIdempotent | src/JsonResp.php:47-49 | normalising a stored value again changes nothing |
| JsonResp.NormalizeDataIdempotent | src/JsonResp.php:43-53 | feeding `getData()` back into `setData` leaves the data unchanged |
| JsonResp.GetDataAfterSetData | src/JsonResp.php:23-53 | `getData` returns the normalised data `setData` stored, and storing it again changes nothing |
| JsonResp.NewEnvelope | src/JsonResp.php:15-18 | a new envelope holds the normalised data, status error, no errors and a null payload |
| JsonResp.SetData | src/JsonResp.php:43-53 | the data is replaced wholesale by the normalised input; status, errors and payload are untouched |
| JsonResp.ClearData | src/JsonResp.php:32-35 | the data becomes empty and nothing else changes |
| JsonResp.AddErrMsg | src/JsonResp.php:58-61 | the message lands at the end, after every earlier message, and nothing else changes |
| JsonResp.SetErrMsg | src/JsonResp.php:66-69 | the list becomes exactly the given one and nothing else changes |
| JsonResp.ClearErrMsg | src/JsonResp.php:103-106 | no error remains and nothing else changes |
| JsonResp.IsSuccess | src/JsonResp.php:75-79 | success exactly when the error count is zero |
| JsonResp.IsError | src/JsonResp.php:85-89 | error is always the negation of success |
| JsonResp.SetResponse | src/JsonResp.php:113-116 | `getResponse` then returns the stored payload and nothing else changes |
| JsonResp.ReturnResponse | src/JsonResp.php:122-136 | status promoted to success when no error is pending, never demoted; the export carries the status text and the error list, and the data and payload exactly when they are not PHP-empty |
| JsonResp.StepStatus | src/JsonResp.php:124 | one call makes the status success exactly when it already was, or the call is an export with no error pending |
| JsonResp.ExportedCleanSnoc | src/JsonResp.php:124 | a clean export happened in a call sequence plus one call exactly when it happened before or that call is one |
| JsonResp.StatusSticky | src/JsonResp.php:8 | after any call sequence the status is success exactly when it started so or some export found no error pending |
| JsonResp.AddErrMsgsAppend | src/JsonResp.php:58-61 | adding messages one by one is setting the list to the old list followed by the messages |
| JsonResp.ErrorCountAfterAdds | src/JsonResp.php:94-97 | the error count grows by one per added message, and the envelope is in error exactly when it was or something was added |
| JsonResp.CallsAreIndependent | src/JsonResp.php:32-116 | error-list calls leave data and payload alone; data calls leave the errors alone |
| PasswordPolicy.CustomConfig | src/PasswordValidator.php:92-101 | the custom policy stores its five arguments verbatim under the label custom |
| PasswordPolicy.Body | src/PasswordValidator.php:133-138 | under a quantifier the pattern body matches exactly when the length is within bounds and every character is authorised; with a negative bound, when the text is one authorised character followed by `{min,max}` literally; in both cases each required class occurs |
| PasswordPolicy.Matches | src/PasswordValidator.php:122 | `preg_match` succeeds exactly when the pattern compiles and the body matches the password, or the password without its final newline |
| PasswordPolicy.Pattern | src/PasswordValidator.php:131-141 | the pattern text: `/^`, the lookaheads of the required classes in the order uppercase, digit, symbol, the authorised class, `{min,max}`, `$/`; what the text determines is stated by PatternDeterminesBounds and LightPattern |
| PasswordPolicy.MatchesPlain | src/PasswordValidator.php:120-141 | under a quantifier, without a final newline a password is accepted exactly when the pattern compiles, its length is within bounds, all characters are authorised and each required class occurs |
| PasswordPolicy.QuantifierChars | src/PasswordValidator.php:138 | the text `{min,max}` opens with '{', closes with '}', holds a digit, and has no uppercase letter and no newline |
| PasswordPolicy.LiteralBody | src/PasswordValidator.php:133-138 | with a negative bound the body matches one authorised character (uppercase when required) followed by exactly `{min,max}`; the text itself meets the digit and symbol lookaheads |
| PasswordPolicy.LiteralPattern | src/PasswordValidator.php:120-141 | with a negative bound a password is accepted exactly when it is one authorised character (uppercase when required) followed by `{min,max}`, optionally plus a final newline |
| PasswordPolicy.TrailingNewlineAccepted | src/PasswordValidator.php:139 | a password plus one final newline is accepted exactly when the password is |
| PasswordPolicy.LengthBound | src/PasswordValidator.php:138 | under a quantifier an accepted password has min to max characters, or max + 1 when the last is a newline; with a negative bound it is one character longer than the text `{min,max}`, or two with a final newline |
| PasswordPolicy.InvertedBoundsRejectAll | src/PasswordValidator.php:138 | when min exceeds a non-negative max the quantifier does not compile and every password is rejected |
| PasswordPolicy.UpperSatisfiesSymbols | src/PasswordValidator.php:136 | an accepted password with an uppercase letter stays accepted when symbols are also required |
| PasswordPolicy.StricterAcceptsLess | src/PasswordValidator.php:131-141 | between compiling quantifiers, a larger minimum, a smaller maximum or an extra required class only rejects more |
| PasswordPolicy.PresetsNested | src/PasswordValidator.php:34-81 | whatever hard accepts medium accepts, and whatever medium accepts light accepts |
| PasswordPolicy.LabelIrrelevant | src/PasswordValidator.php:131-141 | neither acceptance nor the pattern text depends on the config label |
| PasswordPolicy.QuantifierDeterminesBounds | src/PasswordValidator.php:138 | the `{min,max}` text determines both bounds |
| PasswordPolicy.PatternDeterminesBounds | src/PasswordValidator.php:131-141 | two policies requiring the same classes and compiling to the same pattern text have the same bounds |
| PasswordPolicy.LightPattern | src/PasswordValidator.php:133-139 | the light pattern carries only the digit lookahead and the quantifier `{6,100}` |
| PasswordValidator.RegexIdentifiesBounds | src/PasswordValidator.php:147-150 | two validators requiring the same classes whose `getRegex` texts agree enforce the same bounds |
| PasswordValidator.DefaultRegex | src/PasswordValidator.php:20-24 | a fresh validator's `getRegex` is `/^`, the digit lookahead, the authorised class, `{6,100}`, `$/` |
| PasswordValidator.NewValidator | src/PasswordValidator.php:20-24 | a new validator holds a new envelope over the data, the given language and the light preset |
| PasswordValidator.NewValidatorDefault | src/PasswordValidator.php:20 | the default language is fr_FR |
| PasswordValidator.SetLightConfig | src/PasswordValidator.php:34-43 | the policy becomes 6 to 100 characters with a digit, label light; envelope and language unchanged |
| PasswordValidator.SetMediumConfig | src/PasswordValidator.php:53-62 | the policy becomes 10 to 100 characters with every class, label medium; envelope and language unchanged |
| PasswordValidator.SetHardConfig | src/PasswordValidator.php:72-81 | the policy becomes 20 to 100 characters with every class, label hard; envelope and language unchanged |
| PasswordValidator.SetCustomConfig | src/PasswordValidator.php:92-101 | the policy holds the five arguments verbatim, label custom; envelope and language unchanged |
| PasswordValidator.GetCurrentConfigName | src/PasswordValidator.php:111-114 | the name is one of light, medium, hard, custom |
| PasswordValidator.ConfigNameFollowsSetter | src/PasswordValidator.php:111-114 | the name reported is the one of the setter called last |
| PasswordValidator.LastSetterWins | src/PasswordValidator.php:34-101 | after any chain of setters the policy is the one the last setter writes, whatever came before |
| PasswordValidator.SettersKeepEnvelope | src/PasswordValidator.php:34-101 | no chain of setters touches the envelope or the language |
| PasswordValidator.Messages | src/PasswordValidator.php:156-171 | a rejection lists the header, the minimum-length line, then one line per required class in the order uppercase, digit, symbol: 2 + the number of required classes lines |
| PasswordValidator.MessagesIgnoreMax | src/PasswordValidator.php:156-171 | the maximum length and the label never change the messages |
| PasswordValidator.EmitMessages | src/PasswordValidator.php:158-162 | issuing the guarded `addErrMsg` calls appends the message list and changes nothing else |
| PasswordValidator.AddPolicyErrors | src/PasswordValidator.php:156-172 | French appends its lines to the existing errors; any other language leaves exactly the English lines |
| PasswordValidator.IsValidPassword | src/PasswordValidator.php:120-125 | the answer is the pattern's verdict; acceptance changes nothing; a rejection writes the localised messages and changes nothing but the error list |
| PasswordValidator.RejectionCount | src/PasswordValidator.php:122-123 | a rejection leaves the envelope in error with 2 + the number of required classes new (French) or total (English) messages |
| PasswordValidator.ValidateTwice | src/PasswordValidator.php:120-125 | a second validation gives the same answer; English leaves the same list, French adds the lines again |
| PasswordValidator.ValidationTouchesOnlyErrors | src/PasswordValidator.php:120-125 | validation never changes the policy, the language, the data, the status or the payload |
| PasswordValidator.LightAccepts | src/PasswordValidator.php:34-43 | the light policy accepts a password without a final newline exactly when it has 6 to 100 authorised characters, one a digit (`IsValidPassword` answers this verdict) |
| PasswordValidator.StrongPresetsAccept | src/PasswordValidator.php:131-141 | the medium and hard policies accept a password without a final newline exactly when its length is within bounds, every character is authorised and it holds an uppercase letter and a digit |
| Scenarios.LightPresetCases | tests/PasswordValidatorTest.php:12-26 | "", "short" and "nodigit" are rejected; "1digit" is accepted, contrary to the expectation at lines 25-26 |
| Scenarios.LightRejectsShort | tests/PasswordValidatorTest.php:16-20 | the empty password and "short" fail the light pattern |
| Scenarios.LightRejectsNoDigit | tests/PasswordValidatorTest.php:22-23 | "nodigit" fails the light pattern |
| Scenarios.LightAcceptsOneDigit | src/PasswordValidator.php:131-141 | "1digit" matches the light pattern |
| Scenarios.LightAcceptsTrailingNewline | src/PasswordValidator.php:139 | "1digit\n" is accepted under light |
| Scenarios.EmptyPasswordMessages | src/PasswordValidator.php:156-163 | an empty password under the default validator leaves the three French lines for the light preset |
| Scenarios.EmptyPasswordMessagesEnglish | src/PasswordValidator.php:163-171 | the same rejection in English leaves the three English lines |
| Scenarios.LightMessages | src/PasswordValidator.php:156-171 | the French and English message lists of the light preset, literally |
| Scenarios.FrenchMinLineSix | src/PasswordValidator.php:159 | the French minimum-length line for 6 reads "-6 caractères minimum" |
| Scenarios.EnglishMinLineSix | src/PasswordValidator.php:168 | the English minimum-length line for 6 reads "- at least 6 characters long" |
| Scenarios.MediumPresetCases | src/PasswordValidator.php:53-62 | under medium "1_Medium_Pass" is accepted and "1digitvalid" is rejected |
| Scenarios.MediumAcceptsSample | src/PasswordValidator.php:131-141 | "1_Medium_Pass" matches the medium pattern |
| Scenarios.MediumRejectsNoUpper | src/PasswordValidator.php:134 | "1digitvalid" fails the medium pattern for lack of an uppercase letter |
| Scenarios.MediumRangeQuirks | src/PasswordValidator.php:136-137 | under medium "Abcdefghi1" (no listed symbol) is accepted and "Abcd-efgh1" (a hyphen) is rejected |
| Scenarios.MediumAcceptsUpperAsSymbol | src/PasswordValidator.php:136 | "Abcdefghi1" matches the medium pattern, its 'A' serving as the symbol |
| Scenarios.MediumRejectsHyphen | src/PasswordValidator.php:137 | "Abcd-efgh1" fails the medium pattern because '-' is not authorised |
| Scenarios.CustomPolicyCases | src/PasswordValidator.php:92-101 | a custom 4-to-4 policy with every class accepts "A$1e" and rejects "toolong" |
| Scenarios.OversizedBoundRejects | src/PasswordValidator.php:138 | a custom maximum of 70000 rejects even "abc" |
| Scenarios.NegativeMaxIsLiteral | src/PasswordValidator.php:92-101 | the custom policy (0, -1) accepts "a{0,-1}", which the wider policy (0, 100) rejects |
| Scenarios.PaddedStringTrimmed | tests/JsonRespTest.php:28-35 | "  x  " is stored as "x" |
| Scenarios.TrueFalseConverted | tests/JsonRespTest.php:37-44 | "true" and "false" are stored as booleans |
| Scenarios.TrueConverted | tests/JsonRespTest.php:39-42 | "true" is stored as true |
| Scenarios.FalseConverted | tests/JsonRespTest.php:39-43 | "false" is stored as false |
| Scenarios.UppercaseTrueStaysString | tests/JsonRespTest.php:264-280 | "TRUE" stays a string |
| Scenarios.JohnStored | tests/JsonRespTest.php:159 | `['user' => 'John']` is stored unchanged |
| Scenarios.ExportSuccessWithData | tests/JsonRespTest.php:157-167 | data without errors exports success, no errors, the data and no response key |
| Scenarios.ExportErrorWithData | tests/JsonRespTest.php:169-179 | an error added before the data exports error with the message and the data |
| Scenarios.ExportOmitsEmpty | tests/JsonRespTest.php:181-188 | an error with no data exports without the data and response keys |
| Scenarios.StickySuccessExample | src/JsonResp.php:124 | after one clean export, a later export reports success even with an error pending |

`JsonResp.GetData`, `JsonResp.GetResponse`, `JsonResp.ErrorCount` and
`PasswordValidator.GetRegex` are plain reads of the state with no contract
of their own; what they return is stated by `GetDataAfterSetData`,
`SetResponse`, `IsSuccess`, `ErrorCountAfterAdds`, `RegexIdentifiesBounds`
and `DefaultRegex`.

## Left out

- PasswordPolicy.Matches: a pattern that does not compile also makes
  `preg_match` raise a PHP warning, which is not modelled. The model follows
  the default handler's path: `preg_match` returns false and the messages
  are written. Under a handler that turns warnings into exceptions,
  `isValidPassword` throws at src/PasswordValidator.php:122 instead and no
  message is written.
- `returnResponse(true)` and `returnJson`: JSON encoding is a call into
  PHP's `json_encode`, which this model does not describe; only the array
  form of `returnResponse` is modelled.
- Floating-point values in the data and the payload: they are folded into
  `Value.Other`, which is never empty, so a payload of `0.0` (empty in PHP)
  is not represented.
- Object identity of the payload: `Value.Other` carries a tag and nothing
  else.
- `getErrMsg`, which the tests call, is not defined in src/JsonResp.php;
  the model reads the error list from the envelope directly.
- JsonResp.SetErrMsg: takes a list of strings. PHP accepts any array, with
  string keys, gaps in the keys or non-string values; those are not
  modelled, and `returnResponse` would export them as given.
- PasswordPolicy.StricterAcceptsLess: holds only between policies whose
  bounds are non-negative. With a negative bound the braces are literal
  text, and (0, -1) accepts "a{0,-1}" while the wider (0, 100) rejects it
  (`Scenarios.NegativeMaxIsLiteral`).
- PasswordPolicy.InvertedBoundsRejectAll: needs a non-negative maximum. A
  negative maximum is literal text, which accepts some passwords
  (`PasswordPolicy.LiteralPattern`).
- Integer width: PHP's `int` is 64 bits; the model's bounds are unbounded
  integers. No operation here does arithmetic on them, so no wrap-around
  can occur.
- Byte length versus character length: PCRE without the u modifier counts
  bytes. Every authorised character is a single ASCII byte, so any
  non-ASCII character already makes the password fail; the model counts
  characters.
- Non-string password arguments (the parameter of `isValidPassword` is
  untyped): passwords are strings here.
- PasswordValidator.GetRegex: carries no contract of its own; the pattern
  text is described by `PasswordValidator.RegexIdentifiesBounds`,
  `PasswordValidator.DefaultRegex` and `PasswordPolicy.LightPattern`, not
  character by character for every policy.
