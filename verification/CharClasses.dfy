/**
  The PCRE character classes the compiled password pattern uses, read
  literally. In `[!@#$%^&*(),.?:{}|<>-_]` the sequence `>-_` is a range from
  '>' (0x3E) to '_' (0x5F), so the class holds `! # $ % & ( ) * , . : < { | }`
  and the whole block `> ? @ A-Z [ \ ] ^ _`, but no literal '-'.
 */
module CharClasses {

  datatype Class =
    | Upper       // [A-Z]
    | Digit       // \d without the u modifier: ASCII digits only
    | Symbol      // [!@#$%^&*(),.?:{}|<>-_]
    | Authorized  // [A-Za-z\d!@#$%^&*(),.?:{}|<>-_]

  predicate IsUpper(c: char) { 'A' <= c <= 'Z' }

  predicate IsLower(c: char) { 'a' <= c <= 'z' }

  predicate IsDigit(c: char) { '0' <= c <= '9' }

  /** Membership in `[!@#$%^&*(),.?:{}|<>-_]`: the listed characters plus the
      range `>-_`. */
  predicate IsSymbol(c: char) {
    || c == '!' || c == '@' || c == '#' || c == '$' || c == '%' || c == '^'
    || c == '&' || c == '*' || c == '(' || c == ')' || c == ',' || c == '.'
    || c == '?' || c == ':' || c == '{' || c == '}' || c == '|' || c == '<'
    || ('>' <= c <= '_')
  }

  predicate InClass(c: char, k: Class) {
    match k
    case Upper => IsUpper(c)
    case Digit => IsDigit(c)
    case Symbol => IsSymbol(c)
    case Authorized => IsUpper(c) || IsLower(c) || IsDigit(c) || IsSymbol(c)
  }

  /** A lookahead `(?=.*[k])`: some character of `s` lies in the class. */
  predicate Contains(s: string, k: Class) {
    |s| > 0 && (InClass(s[0], k) || Contains(s[1..], k))
  }

  lemma {:induction false} ContainsMeansSome(s: string, k: Class)
    ensures Contains(s, k) <==> exists i :: 0 <= i < |s| && InClass(s[i], k)
  {
    if |s| > 0 {
      ContainsMeansSome(s[1..], k);
      assert forall i :: 1 <= i < |s| ==> s[i] == s[1..][i - 1];
    }
  }

  /** A repeated class `[k]{n,m}`: every character of `s` lies in the class. */
  predicate All(s: string, k: Class) {
    |s| == 0 || (InClass(s[0], k) && All(s[1..], k))
  }

  lemma {:induction false} AllMeansEvery(s: string, k: Class)
    ensures All(s, k) <==> forall i :: 0 <= i < |s| ==> InClass(s[i], k)
  {
    if |s| > 0 {
      AllMeansEvery(s[1..], k);
      assert forall i :: 1 <= i < |s| ==> s[i] == s[1..][i - 1];
    }
  }

  /** A repeated class matches a concatenation exactly when it matches both
      parts. */
  lemma {:induction false} AllConcat(a: string, b: string, k: Class)
    ensures All(a + b, k) <==> All(a, k) && All(b, k)
  {
    if |a| == 0 {
      assert a + b == b;
    } else {
      assert (a + b)[0] == a[0];
      assert (a + b)[1..] == a[1..] + b;
      AllConcat(a[1..], b, k);
    }
  }

  /** Every class the lookaheads ask for lies inside the authorised class. */
  lemma ClassesAreAuthorized(c: char, k: Class)
    requires InClass(c, k)
    ensures InClass(c, Authorized)
  {
  }

  /** Because of the range `>-_`, every uppercase letter is also a symbol. */
  lemma UpperIsSymbol(c: char)
    requires InClass(c, Upper)
    ensures InClass(c, Symbol)
  {
  }

  /** The printable ASCII characters the authorised class refuses are exactly
      space, `" ' + - / ; =`, backtick and `~`. */
  lemma AuthorizedPrintable(c: char)
    requires ' ' <= c <= '~'
    ensures InClass(c, Authorized) <==>
      !(c == ' ' || c == '"' || c == '\'' || c == '+' || c == '-' || c == '/' || c == ';' || c == '=' || c == '`' || c == '~')
  {
  }

  /** Nothing outside printable ASCII is authorised: no control character,
      no newline, nothing beyond 0x7E. */
  lemma AuthorizedIsPrintable(c: char)
    requires InClass(c, Authorized)
    ensures ' ' < c <= '~'
  {
  }
}
