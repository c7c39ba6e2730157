/**
  NormalizedUser: one line of the user list after name normalisation, with
  the first/last name split and a naive login derived from it.
 */
module NormalizedUsers {
  import opened Chars
  import opened Text

  datatype NormalizedUser = NormalizedUser(
    originalName: string,
    normalizedName: string,
    firstName: string,
    lastName: string,
    generatedLogin: string,
    isValid: bool,
    validationError: string)

  const CouldNotSplit := "Invalid name format: could not split into first and last name"
  const EmptyPart := "Invalid name format: first or last name is empty"

  /** The default constructor: every string empty and the record invalid. */
  function Default(): (u: NormalizedUser)
    ensures !u.isValid
    ensures u.originalName == u.normalizedName == u.firstName == u.lastName == ""
    ensures u.generatedLogin == u.validationError == ""
  {
    NormalizedUser("", "", "", "", "", false, "")
  }

  /** parseFromNormalized: the space-separated tokens of the normalized name
      give the first name (first token) and the last name (the remaining
      tokens joined by single spaces); the login is the upper-cased initial
      followed by the last name verbatim. With fewer than two tokens only the
      error message changes. */
  function Parse(u: NormalizedUser): (r: NormalizedUser)
    ensures r.originalName == u.originalName && r.normalizedName == u.normalizedName
    ensures u.isValid ==> r.isValid
  {
    var parts := Split(u.normalizedName, ' ');
    if |parts| >= 2 then
      var first := parts[0];
      var last := Join(parts[1..], " ");
      if first != "" && last != "" then
        u.(firstName := first, lastName := last, isValid := true,
           generatedLogin := [ToUpper(first[0])] + last)
      else
        u.(firstName := first, lastName := last, validationError := EmptyPart)
    else
      u.(validationError := CouldNotSplit)
  }

  /** The two-argument constructor: a fresh invalid record, then parsed. */
  function Create(original: string, normalized: string): (u: NormalizedUser)
    ensures u.originalName == original && u.normalizedName == normalized
  {
    Parse(NormalizedUser(original, normalized, "", "", "", false, ""))
  }

  lemma {:induction false} JoinNonEmpty(ws: seq<string>)
    requires |ws| > 0
    requires forall i :: 0 <= i < |ws| ==> ws[i] != []
    ensures Join(ws, " ") != []
  {
    if |ws| > 1 {
      assert |ws[0] + " " + Join(ws[1..], " ")| > 0;
    }
  }

  /** With two or more tokens the split always yields a non-empty first and
      last name, so the "first or last name is empty" branch cannot be taken. */
  lemma EmptyPartUnreachable(u: NormalizedUser)
    ensures Parse(u).validationError != EmptyPart || u.validationError == EmptyPart
  {
    var parts := Split(u.normalizedName, ' ');
    if |parts| >= 2 {
      JoinNonEmpty(parts[1..]);
    }
  }

  /** A successful parse splits the name: the first name is the first
      space-free token, the last name the remaining tokens joined by single
      spaces, and "first last" has exactly the tokens of the normalized name,
      so no token is lost or invented. The login starts with the upper-cased
      initial and ends with the whole last name, spaces included. */
  lemma ParseSplitsName(u: NormalizedUser)
    requires |Split(u.normalizedName, ' ')| >= 2
    ensures var r := Parse(u);
      && r.isValid && r.validationError == u.validationError
      && r.firstName != [] && NoSep(r.firstName, Char(' '))
      && r.firstName == Split(u.normalizedName, ' ')[0]
      && r.lastName == Join(Split(u.normalizedName, ' ')[1..], " ")
      && Split(r.firstName + " " + r.lastName, ' ') == Split(u.normalizedName, ' ')
      && r.generatedLogin == [ToUpper(r.firstName[0])] + r.lastName
  {
    var parts := Split(u.normalizedName, ' ');
    JoinNonEmpty(parts[1..]);
    assert parts[1..][0] == parts[1];
    TokensOfJoin(parts, ' ', Char(' '));
  }

  /** With fewer than two tokens nothing but the error message changes. */
  lemma ParseCouldNotSplit(u: NormalizedUser)
    requires |Split(u.normalizedName, ' ')| < 2
    ensures Parse(u) == u.(validationError := CouldNotSplit)
  {
  }

  /** Parsing twice is parsing once. */
  lemma ParseIdempotent(u: NormalizedUser)
    ensures Parse(Parse(u)) == Parse(u)
  {
  }

  /** A name made of one word is invalid and keeps its empty name fields. */
  lemma SingleWordInvalid()
    ensures Create("Ivan", "Ivan") ==
      NormalizedUser("Ivan", "Ivan", "", "", "", false, CouldNotSplit)
  {
    TokensOfToken("Ivan", Char(' '));
  }

  /** A three-word name keeps the two last words together as the last name,
      and the login keeps their space: "Ivan Petro Shevchenko" gives the
      login "IPetro Shevchenko", with no transliteration. */
  lemma MultiWordSurname(first: string, w1: string, w2: string)
    requires first != [] && w1 != [] && w2 != []
    requires NoSep(first, Char(' ')) && NoSep(w1, Char(' ')) && NoSep(w2, Char(' '))
    ensures var u := Create("", first + " " + w1 + " " + w2);
      && u.isValid && u.firstName == first && u.lastName == w1 + " " + w2
      && u.generatedLogin == [ToUpper(first[0])] + w1 + " " + w2
  {
    var ws := [first, w1, w2];
    assert Join(ws[1..], " ") == w1 + " " + w2 by {
      assert ws[1..][1..] == [w2];
    }
    assert Join(ws, [' ']) == first + " " + w1 + " " + w2;
    TokensOfJoin(ws, ' ', Char(' '));
  }
}
