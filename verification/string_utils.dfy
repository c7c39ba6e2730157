/**
  StringUtils: Ukrainian-Cyrillic to Latin transliteration, login derivation
  and sanitising, Ukrainian-name checks and normalisation, and case-style
  converters.
 */
module StringUtils {
  import opened Chars
  import opened Text
  import opened Options

  type AsciiLetter = c: char | IsAsciiLetter(c) witness 'A'

  /** The fixed transliteration table: close to the 2010 national
      romanisation, except that Г maps to G and the word-initial forms of
      Є/Ї/Й/Ю/Я are used in every position. Characters outside the table
      have no entry. */
  function TableEntry(c: char): Option<seq<AsciiLetter>> {
    match c
    case 'А' => Some("A")    case 'а' => Some("a")
    case 'Б' => Some("B")    case 'б' => Some("b")
    case 'В' => Some("V")    case 'в' => Some("v")
    case 'Г' => Some("G")    case 'г' => Some("g")
    case 'Ґ' => Some("G")    case 'ґ' => Some("g")
    case 'Д' => Some("D")    case 'д' => Some("d")
    case 'Е' => Some("E")    case 'е' => Some("e")
    case 'Є' => Some("Ye")   case 'є' => Some("ye")
    case 'Ж' => Some("Zh")   case 'ж' => Some("zh")
    case 'З' => Some("Z")    case 'з' => Some("z")
    case 'И' => Some("Y")    case 'и' => Some("y")
    case 'І' => Some("I")    case 'і' => Some("i")
    case 'Ї' => Some("Yi")   case 'ї' => Some("yi")
    case 'Й' => Some("Y")    case 'й' => Some("y")
    case 'К' => Some("K")    case 'к' => Some("k")
    case 'Л' => Some("L")    case 'л' => Some("l")
    case 'М' => Some("M")    case 'м' => Some("m")
    case 'Н' => Some("N")    case 'н' => Some("n")
    case 'О' => Some("O")    case 'о' => Some("o")
    case 'П' => Some("P")    case 'п' => Some("p")
    case 'Р' => Some("R")    case 'р' => Some("r")
    case 'С' => Some("S")    case 'с' => Some("s")
    case 'Т' => Some("T")    case 'т' => Some("t")
    case 'У' => Some("U")    case 'у' => Some("u")
    case 'Ф' => Some("F")    case 'ф' => Some("f")
    case 'Х' => Some("Kh")   case 'х' => Some("kh")
    case 'Ц' => Some("Ts")   case 'ц' => Some("ts")
    case 'Ч' => Some("Ch")   case 'ч' => Some("ch")
    case 'Ш' => Some("Sh")   case 'ш' => Some("sh")
    case 'Щ' => Some("Shch") case 'щ' => Some("shch")
    case 'Ь' => Some("")     case 'ь' => Some("")
    case 'Ю' => Some("Yu")   case 'ю' => Some("yu")
    case 'Я' => Some("Ya")   case 'я' => Some("ya")
    case _ => None
  }

  predicate AllAsciiLetters(s: string) {
    forall i :: 0 <= i < |s| ==> IsAsciiLetter(s[i])
  }

  /** Every table image is at most four ASCII letters. */
  lemma TableImages(c: char)
    ensures TableEntry(c).Some? ==> AllAsciiLetters(TableEntry(c).value) && |TableEntry(c).value| <= 4
  {
  }

  /** The soft sign maps to nothing, Щ to a four-letter group, Г and Ґ both
      to G, and Є/Ї/Ю/Я to two letters. */
  lemma TableSamples()
    ensures TableEntry('Ь') == Some("") && TableEntry('ь') == Some("")
    ensures TableEntry('Щ') == Some("Shch") && TableEntry('щ') == Some("shch")
    ensures TableEntry('Є') == Some("Ye") && TableEntry('Ї') == Some("Yi")
    ensures TableEntry('Ю') == Some("Yu") && TableEntry('Я') == Some("Ya")
    ensures TableEntry('Г') == Some("G") && TableEntry('Ґ') == Some("G")
  {
    SoftSignSample();
    ShchSample();
    IotatedSamples();
    GheSample();
  }

  lemma SoftSignSample()
    ensures TableEntry('Ь') == Some("") && TableEntry('ь') == Some("")
  {
  }

  lemma ShchSample()
    ensures TableEntry('Щ') == Some("Shch") && TableEntry('щ') == Some("shch")
  {
  }

  lemma IotatedSamples()
    ensures TableEntry('Є') == Some("Ye") && TableEntry('Ї') == Some("Yi")
    ensures TableEntry('Ю') == Some("Yu") && TableEntry('Я') == Some("Ya")
  {
  }

  lemma GheSample()
    ensures TableEntry('Г') == Some("G") && TableEntry('Ґ') == Some("G")
  {
  }

  /** What one character becomes: its table image, or itself. */
  function Image(c: char): string {
    match TableEntry(c)
    case Some(t) => t
    case None => [c]
  }

  /** transliterateUkrToLatin: each character is replaced by its table
      image, characters outside the table are copied. Every output character
      is an input character or an ASCII letter. */
  function TransliterateUkrToLatin(s: string): (r: string)
    ensures |r| <= 4 * |s|
    ensures forall i :: 0 <= i < |r| ==> r[i] in s || IsAsciiLetter(r[i])
  {
    if |s| == 0 then ""
    else
      var head := Image(s[0]);
      var rest := TransliterateUkrToLatin(s[1..]);
      TableImages(s[0]);
      assert forall i :: 0 <= i < |rest| ==> rest[i] in s || IsAsciiLetter(rest[i]) by {
        forall i | 0 <= i < |rest| && rest[i] in s[1..] ensures rest[i] in s { }
      }
      head + rest
  }

  /** Transliteration works character by character, so it distributes over
      concatenation. */
  lemma {:induction false} TransliterateConcat(a: string, b: string)
    ensures TransliterateUkrToLatin(a + b) == TransliterateUkrToLatin(a) + TransliterateUkrToLatin(b)
  {
    if |a| == 0 {
      assert a + b == b;
    } else {
      assert (a + b)[0] == a[0];
      assert (a + b)[1..] == a[1..] + b;
      TransliterateConcat(a[1..], b);
    }
  }

  /** Text without any table character comes back unchanged. */
  lemma {:induction false} TransliterateIdentity(s: string)
    requires forall i :: 0 <= i < |s| ==> TableEntry(s[i]).None?
    ensures TransliterateUkrToLatin(s) == s
  {
    if |s| > 0 {
      TransliterateIdentity(s[1..]);
    }
  }

  /** Text made only of table characters becomes plain ASCII letters. */
  lemma {:induction false} TransliterateTableText(s: string)
    requires forall i :: 0 <= i < |s| ==> TableEntry(s[i]).Some?
    ensures AllAsciiLetters(TransliterateUkrToLatin(s))
  {
    if |s| > 0 {
      TableImages(s[0]);
      TransliterateTableText(s[1..]);
    }
  }

  /** transliterateLatinToUkr is not implemented by the tool: it returns its
      argument. */
  function TransliterateLatinToUkr(s: string): string {
    s
  }

  /** So it leaves every text unchanged and does not undo
      transliterateUkrToLatin: "Ш" goes to "Sh" and stays "Sh". */
  lemma LatinToUkrIsNotAnInverse(s: string)
    ensures TransliterateLatinToUkr(s) == s
    ensures TransliterateLatinToUkr(TransliterateUkrToLatin("Ш")) == "Sh" != "Ш"
  {
    assert "Ш"[1..] == "";
  }

  /** sanitizeLoginName: keeps the letters and digits, in order. */
  function SanitizeLoginName(login: string): (r: string)
    ensures |r| <= |login|
    ensures forall i :: 0 <= i < |r| ==> IsLetterOrNumber(r[i])
    ensures (forall i :: 0 <= i < |login| ==> IsLetterOrNumber(login[i])) ==> r == login
  {
    if |login| == 0 then ""
    else if IsLetterOrNumber(login[0]) then [login[0]] + SanitizeLoginName(login[1..])
    else SanitizeLoginName(login[1..])
  }

  /** Sanitising is a filter: a single character is kept exactly when it is a
      letter or digit, the result of a concatenation is the concatenation of
      the results, and sanitising twice is sanitising once. */
  lemma {:induction false} SanitizeIsFilter(a: string, b: string, c: char)
    ensures SanitizeLoginName([c]) == (if IsLetterOrNumber(c) then [c] else "")
    ensures SanitizeLoginName(a + b) == SanitizeLoginName(a) + SanitizeLoginName(b)
    ensures SanitizeLoginName(SanitizeLoginName(a)) == SanitizeLoginName(a)
  {
    assert [c][1..] == "";
    SanitizeConcat(a, b);
  }

  lemma {:induction false} SanitizeConcat(a: string, b: string)
    ensures SanitizeLoginName(a + b) == SanitizeLoginName(a) + SanitizeLoginName(b)
  {
    if |a| == 0 {
      assert a + b == b;
    } else {
      assert (a + b)[0] == a[0];
      assert (a + b)[1..] == a[1..] + b;
      SanitizeConcat(a[1..], b);
    }
  }

  /** The first character of a name, or nothing: QString::left(1). */
  function Initial(s: string): string {
    if |s| == 0 then "" else s[..1]
  }

  /** generateLoginFromName: the upper-cased transliteration of the first
      character of the first name followed by the transliterated last name,
      sanitised. There is no lower-casing and no length limit. */
  function GenerateLoginFromName(firstName: string, lastName: string): (r: string)
    ensures forall i :: 0 <= i < |r| ==> IsLetterOrNumber(r[i])
  {
    SanitizeLoginName(UpperStr(TransliterateUkrToLatin(Initial(firstName))) + TransliterateUkrToLatin(lastName))
  }

  /** Membership in the fixed set of Ukrainian letters plus the ASCII
      apostrophe that the name checks accept: А..Щ, Ь, Ю, Я, Є, І, Ї, Ґ in
      both cases (no Ё, Ъ, Ы or Э). */
  predicate IsUkrChar(c: char) {
    || '\U{0410}' <= c <= '\U{0429}' || c == '\U{042C}' || c == '\U{042E}' || c == '\U{042F}'
    || '\U{0430}' <= c <= '\U{0449}' || c == '\U{044C}' || c == '\U{044E}' || c == '\U{044F}'
    || c == '\U{0404}' || c == '\U{0406}' || c == '\U{0407}' || c == '\U{0490}'
    || c == '\U{0454}' || c == '\U{0456}' || c == '\U{0457}' || c == '\U{0491}'
    || c == '\''
  }

  /** The same set written out letter by letter. */
  lemma UkrCharsListed(c: char)
    ensures IsUkrChar(c) <==> (c in
      {'А', 'а', 'Б', 'б', 'В', 'в', 'Г', 'г', 'Ґ', 'ґ', 'Д', 'д', 'Е', 'е', 'Є', 'є',
       'Ж', 'ж', 'З', 'з', 'И', 'и', 'І', 'і', 'Ї', 'ї', 'Й', 'й', 'К', 'к', 'Л', 'л',
       'М', 'м', 'Н', 'н', 'О', 'о', 'П', 'п', 'Р', 'р', 'С', 'с', 'Т', 'т', 'У', 'у',
       'Ф', 'ф', 'Х', 'х', 'Ц', 'ц', 'Ч', 'ч', 'Ш', 'ш', 'Щ', 'щ', 'Ь', 'ь', 'Ю', 'ю',
       'Я', 'я', '\''})
  {
  }

  /** Every character of the Ukrainian set other than the apostrophe has a
      table entry; no ASCII letter, digit, space or hyphen is in the set. */
  lemma UkrCharsInTable(c: char)
    ensures IsUkrChar(c) && c != '\'' <==> TableEntry(c).Some?
    ensures IsAsciiLetter(c) || IsAsciiDigit(c) || IsSpace(c) || c == '-' ==> !IsUkrChar(c)
  {
  }

  predicate IsUkrainianText(s: string) {
    forall i :: 0 <= i < |s| ==> IsUkrChar(s[i])
  }

  lemma TransliterateCons(s: string)
    requires |s| > 0
    ensures TransliterateUkrToLatin(s) == Image(s[0]) + TransliterateUkrToLatin(s[1..])
  {
  }

  lemma AsciiLettersConcat(a: string, b: string)
    requires AllAsciiLetters(a) && AllAsciiLetters(b)
    ensures AllAsciiLetters(a + b)
  {
  }

  /** An ASCII-letter string survives sanitising and upper-casing as ASCII
      letters. */
  lemma AsciiLettersKept(t: string)
    requires AllAsciiLetters(t)
    ensures SanitizeLoginName(t) == t && AllAsciiLetters(UpperStr(t))
  {
  }

  /** A Ukrainian character contributes only ASCII letters to a login: its
      table image (upper-cased or not), or nothing for the apostrophe. */
  lemma ImageLogin(c: char)
    requires IsUkrChar(c)
    ensures AllAsciiLetters(SanitizeLoginName(Image(c)))
    ensures AllAsciiLetters(SanitizeLoginName(UpperStr(Image(c))))
  {
    UkrCharsInTable(c);
    if c == '\'' {
      assert Image(c) == "'";
      assert UpperStr("'") == "'";
      assert SanitizeLoginName("'") == "" by { assert "'"[1..] == ""; }
    } else {
      var t := TableEntry(c).value;
      assert Image(c) == t;
      AsciiLettersKept(t);
      AsciiLettersKept(UpperStr(t));
    }
  }

  lemma {:induction false} UkrainianTextLogin(s: string)
    requires IsUkrainianText(s)
    ensures AllAsciiLetters(SanitizeLoginName(TransliterateUkrToLatin(s)))
  {
    if |s| > 0 {
      TransliterateCons(s);
      UkrainianTextLogin(s[1..]);
      ImageLogin(s[0]);
      SanitizeConcat(Image(s[0]), TransliterateUkrToLatin(s[1..]));
      AsciiLettersConcat(SanitizeLoginName(Image(s[0])), SanitizeLoginName(TransliterateUkrToLatin(s[1..])));
    }
  }

  lemma TransliterateInitial(firstName: string)
    requires |firstName| > 0
    ensures TransliterateUkrToLatin(Initial(firstName)) == Image(firstName[0])
  {
    var i := Initial(firstName);
    assert i == [firstName[0]];
    TransliterateCons(i);
    assert i[1..] == "";
  }

  /** A login generated from Ukrainian names is pure ASCII letters. */
  lemma GenerateLoginAscii(firstName: string, lastName: string)
    requires IsUkrainianText(firstName) && IsUkrainianText(lastName)
    ensures AllAsciiLetters(GenerateLoginFromName(firstName, lastName))
  {
    var head := UpperStr(TransliterateUkrToLatin(Initial(firstName)));
    var tail := TransliterateUkrToLatin(lastName);
    SanitizeConcat(head, tail);
    UkrainianTextLogin(lastName);
    if |firstName| > 0 {
      TransliterateInitial(firstName);
      ImageLogin(firstName[0]);
    } else {
      assert head == "";
    }
    AsciiLettersConcat(SanitizeLoginName(head), SanitizeLoginName(tail));
  }

  lemma ShchUpper()
    ensures UpperStr("Shch") == "SHCH" && UpperStr("shch") == "SHCH"
    ensures AllAsciiLetters("SHCH")
  {
    var u := UpperStr("Shch");
    assert u[0] == 'S' && u[1] == 'H' && u[2] == 'C' && u[3] == 'H';
    var v := UpperStr("shch");
    assert v[0] == 'S' && v[1] == 'H' && v[2] == 'C' && v[3] == 'H';
  }

  /** An initial Щ yields the four-letter group "SHCH" in front of the
      sanitised transliterated last name. */
  lemma GenerateLoginShch(firstName: string, lastName: string)
    requires |firstName| > 0 && (firstName[0] == 'Щ' || firstName[0] == 'щ')
    ensures GenerateLoginFromName(firstName, lastName)
      == "SHCH" + SanitizeLoginName(TransliterateUkrToLatin(lastName))
  {
    var head := UpperStr(TransliterateUkrToLatin(Initial(firstName)));
    TransliterateInitial(firstName);
    TableSamples();
    ShchUpper();
    if firstName[0] == 'Щ' {
      assert Image('Щ') == "Shch";
    } else {
      assert Image('щ') == "shch";
    }
    assert head == "SHCH";
    AsciiLettersKept(head);
    SanitizeConcat(head, TransliterateUkrToLatin(lastName));
  }

  /** There is no lower-casing and no length limit: with no first name, a
      Latin last name passes through with its case and length intact. */
  lemma GenerateLoginLatin(lastName: string)
    requires AllAsciiLetters(lastName)
    ensures GenerateLoginFromName("", lastName) == lastName
  {
    forall i | 0 <= i < |lastName| ensures TableEntry(lastName[i]).None? {
      UkrCharsInTable(lastName[i]);
    }
    TransliterateIdentity(lastName);
    assert UpperStr(TransliterateUkrToLatin(Initial(""))) == "";
    assert "" + lastName == lastName;
    AsciiLettersKept(lastName);
  }

  /** normalizeSpaces: QString::simplified. */
  function NormalizeSpaces(text: string): string {
    Simplified(text)
  }

  /** removeSpecialCharacters: keeps letters and digits, and whitespace too
      when `keepSpaces` is set. */
  function RemoveSpecialCharacters(text: string, keepSpaces: bool): (r: string)
    ensures |r| <= |text|
    ensures forall i :: 0 <= i < |r| ==> IsLetterOrNumber(r[i]) || (keepSpaces && IsSpace(r[i]))
    ensures forall i :: 0 <= i < |text| && (IsLetterOrNumber(text[i]) || (keepSpaces && IsSpace(text[i]))) ==>
      text[i] in r
  {
    if |text| == 0 then ""
    else
      var rest := RemoveSpecialCharacters(text[1..], keepSpaces);
      assert forall i :: 1 <= i < |text| && (IsLetterOrNumber(text[i]) || (keepSpaces && IsSpace(text[i]))) ==>
        text[i] in rest by {
        forall i | 1 <= i < |text| && (IsLetterOrNumber(text[i]) || (keepSpaces && IsSpace(text[i])))
          ensures text[i] in rest
        {
          assert text[1..][i - 1] == text[i];
        }
      }
      if IsLetterOrNumber(text[0]) || (keepSpaces && IsSpace(text[0])) then [text[0]] + rest
      else rest
  }

  /** Removing special characters is a filter: a single character is kept
      exactly when it is a letter or digit, or whitespace with `keepSpaces`,
      and the result of a concatenation is the concatenation of the results,
      so the kept characters of mixed text stay in order. */
  lemma {:induction false} RemoveSpecialCharactersIsFilter(a: string, b: string, c: char, keepSpaces: bool)
    ensures RemoveSpecialCharacters([c], keepSpaces) ==
      (if IsLetterOrNumber(c) || (keepSpaces && IsSpace(c)) then [c] else "")
    ensures RemoveSpecialCharacters(a + b, keepSpaces) ==
      RemoveSpecialCharacters(a, keepSpaces) + RemoveSpecialCharacters(b, keepSpaces)
  {
    assert [c][1..] == "";
    RemoveSpecialCharactersConcat(a, b, keepSpaces);
  }

  lemma {:induction false} RemoveSpecialCharactersConcat(a: string, b: string, keepSpaces: bool)
    ensures RemoveSpecialCharacters(a + b, keepSpaces) ==
      RemoveSpecialCharacters(a, keepSpaces) + RemoveSpecialCharacters(b, keepSpaces)
  {
    if |a| == 0 {
      assert a + b == b;
    } else {
      assert (a + b)[0] == a[0];
      assert (a + b)[1..] == a[1..] + b;
      RemoveSpecialCharactersConcat(a[1..], b, keepSpaces);
    }
  }

  /** Without `keepSpaces`, removing special characters is login sanitising;
      with it, text made of letters, digits and whitespace is left alone. */
  lemma {:induction false} RemoveSpecialCharactersFacts(text: string)
    ensures RemoveSpecialCharacters(text, false) == SanitizeLoginName(text)
    ensures (forall i :: 0 <= i < |text| ==> IsLetterOrNumber(text[i]) || IsSpace(text[i])) ==>
      RemoveSpecialCharacters(text, true) == text
  {
    RemoveWithoutSpaces(text);
    if forall i :: 0 <= i < |text| ==> IsLetterOrNumber(text[i]) || IsSpace(text[i]) {
      RemoveAllowedOnly(text);
    }
  }

  lemma {:induction false} RemoveWithoutSpaces(text: string)
    ensures RemoveSpecialCharacters(text, false) == SanitizeLoginName(text)
  {
    if |text| > 0 {
      RemoveWithoutSpaces(text[1..]);
    }
  }

  lemma {:induction false} RemoveAllowedOnly(text: string)
    requires forall i :: 0 <= i < |text| ==> IsLetterOrNumber(text[i]) || IsSpace(text[i])
    ensures RemoveSpecialCharacters(text, true) == text
  {
    if |text| > 0 {
      assert forall i :: 0 <= i < |text[1..]| ==> text[1..][i] == text[i + 1];
      RemoveAllowedOnly(text[1..]);
    }
  }

  /** The scan of isValidUkrainianName: fails at the first character that is
      neither whitespace nor in the Ukrainian set, and otherwise reports
      whether a Ukrainian character was seen. */
  function ScanUkrainianName(name: string, seen: bool): (r: bool)
    ensures r <==> (forall i :: 0 <= i < |name| ==> IsSpace(name[i]) || IsUkrChar(name[i]))
                   && (seen || exists i :: 0 <= i < |name| && IsUkrChar(name[i]))
  {
    if |name| == 0 then seen
    else if !IsSpace(name[0]) && !IsUkrChar(name[0]) then false
    else
      var r := ScanUkrainianName(name[1..], seen || IsUkrChar(name[0]));
      assert (exists i :: 0 <= i < |name[1..]| && IsUkrChar(name[1..][i])) ==>
        (exists i :: 0 <= i < |name| && IsUkrChar(name[i])) by {
        if exists i :: 0 <= i < |name[1..]| && IsUkrChar(name[1..][i]) {
          var i :| 0 <= i < |name[1..]| && IsUkrChar(name[1..][i]);
          assert IsUkrChar(name[i + 1]);
        }
      }
      r
  }

  /** isValidUkrainianName: true exactly when every character is whitespace
      or in the Ukrainian set (apostrophe included) and at least one is in
      the set. */
  function IsValidUkrainianName(name: string): (r: bool)
    ensures r <==> (forall i :: 0 <= i < |name| ==> IsSpace(name[i]) || IsUkrChar(name[i]))
                   && (exists i :: 0 <= i < |name| && IsUkrChar(name[i]))
  {
    ScanUkrainianName(name, false)
  }

  /** So the empty and all-blank names are rejected, and a hyphen, digit or
      Latin letter anywhere rejects the name. */
  lemma UkrainianNameRejects(name: string, i: nat)
    ensures IsBlank(name) ==> !IsValidUkrainianName(name)
    ensures i < |name| && (name[i] == '-' || IsAsciiLetter(name[i]) || IsAsciiDigit(name[i])) ==>
      !IsValidUkrainianName(name)
  {
    if i < |name| {
      UkrCharsInTable(name[i]);
    }
    if IsBlank(name) {
      forall j | 0 <= j < |name| ensures !IsUkrChar(name[j]) { UkrCharsInTable(name[j]); }
    }
  }

  /** A double-barrelled name joined by a hyphen is rejected. */
  lemma HyphenatedNameRejected()
    ensures !IsValidUkrainianName("Іван-Петро")
  {
    UkrainianNameRejects("Іван-Петро", 4);
  }

  /** Ukrainian words separated by a space, apostrophe included, are accepted. */
  lemma SpacedNameAccepted()
    ensures IsValidUkrainianName("Мар'яна Ярош")
  {
    var good := "Мар'яна Ярош";
    assert IsUkrChar(good[0]);
  }

  /** One word with its first character upper-cased and the rest
      lower-cased; hyphen-joined parts after the first are lower-cased too. */
  function Capitalize(w: string): (r: string)
    ensures |r| == |w|
    ensures |w| > 0 ==> r[0] == ToUpper(w[0])
    ensures forall i :: 1 <= i < |w| ==> r[i] == ToLower(w[i])
  {
    if |w| == 0 then w else [ToUpper(w[0])] + LowerStr(w[1..])
  }

  function CapitalizeAll(ws: seq<string>): (r: seq<string>)
    ensures |r| == |ws| && forall i :: 0 <= i < |ws| ==> r[i] == Capitalize(ws[i])
  {
    seq(|ws|, i requires 0 <= i < |ws| => Capitalize(ws[i]))
  }

  /** normalizeUkrainianName: simplified, then every space-separated word
      capitalised, joined by single spaces. */
  function NormalizeUkrainianName(name: string): string {
    Join(CapitalizeAll(Split(Simplified(name), ' ')), " ")
  }

  lemma CapitalizeKeepsWord(w: string)
    requires w != [] && NoSep(w, Whitespace)
    ensures Capitalize(w) != [] && NoSep(Capitalize(w), Whitespace)
    ensures Capitalize(Capitalize(w)) == Capitalize(w)
  {
    var c := Capitalize(w);
    forall i | 0 <= i < |w| ensures !IsSpace(c[i]) { CaseMappingFacts(w[i]); }
    forall i | 0 <= i < |w| ensures Capitalize(c)[i] == c[i] { CaseMappingFacts(w[i]); }
  }

  /** The words of the normalised name are the capitalised words of the
      input, and the output is trimmed and single-spaced (simplifying it
      changes nothing). Normalising twice is normalising once. */
  lemma NormalizeUkrainianNameFacts(name: string)
    ensures Words(NormalizeUkrainianName(name)) == CapitalizeAll(Words(name))
    ensures Split(NormalizeUkrainianName(name), ' ') == CapitalizeAll(Words(name))
    ensures Simplified(NormalizeUkrainianName(name)) == NormalizeUkrainianName(name)
    ensures NormalizeUkrainianName(NormalizeUkrainianName(name)) == NormalizeUkrainianName(name)
  {
    WordsOfSimplified(name);
    var ws := Words(name);
    var cs := CapitalizeAll(ws);
    forall i | 0 <= i < |cs| ensures cs[i] != [] && NoSep(cs[i], Whitespace) && NoSep(cs[i], Char(' ')) {
      CapitalizeKeepsWord(ws[i]);
    }
    var out := Join(cs, " ");
    TokensOfJoin(cs, ' ', Whitespace);
    TokensOfJoin(cs, ' ', Char(' '));
    assert Simplified(out) == out;
    WordsOfSimplified(out);
    forall i | 0 <= i < |cs| ensures Capitalize(cs[i]) == cs[i] { CapitalizeKeepsWord(ws[i]); }
    assert CapitalizeAll(cs) == cs;
  }

  /** The toCamelCase scan: letters and digits are kept, the others dropped;
      a kept character is upper-cased when the scan is in upper mode, which
      starts as requested and is switched on by every dropped character. */
  function CamelFrom(text: string, nextUpper: bool): (r: string)
    ensures |r| <= |text|
    ensures forall i :: 0 <= i < |r| ==> IsLetterOrNumber(r[i])
  {
    if |text| == 0 then ""
    else if IsLetterOrNumber(text[0]) then
      CaseMappingFacts(text[0]);
      [if nextUpper then ToUpper(text[0]) else ToLower(text[0])] + CamelFrom(text[1..], false)
    else CamelFrom(text[1..], true)
  }

  /** toCamelCase */
  function ToCamelCase(text: string, capitalizeFirstLetter: bool): string {
    CamelFrom(text, capitalizeFirstLetter)
  }

  /** Whether the character at `i` is upper-cased: at position 0 exactly when
      asked for, elsewhere exactly when the preceding input character was
      dropped. */
  predicate CamelUpperAt(text: string, capitalizeFirstLetter: bool, i: nat)
    requires i < |text|
  {
    if i == 0 then capitalizeFirstLetter else !IsLetterOrNumber(text[i - 1])
  }

  /** Position-wise description of camel casing from position `i` on. */
  function CamelSpec(text: string, capitalizeFirstLetter: bool, i: nat): string
    requires i <= |text|
    decreases |text| - i
  {
    if i == |text| then ""
    else
      (if !IsLetterOrNumber(text[i]) then ""
       else if CamelUpperAt(text, capitalizeFirstLetter, i) then [ToUpper(text[i])]
       else [ToLower(text[i])])
      + CamelSpec(text, capitalizeFirstLetter, i + 1)
  }

  lemma {:induction false} CamelFromSpec(text: string, cap: bool, i: nat)
    requires i <= |text|
    ensures CamelFrom(text[i..], i == |text| || CamelUpperAt(text, cap, i)) == CamelSpec(text, cap, i)
    decreases |text| - i
  {
    if i < |text| {
      assert text[i..][1..] == text[i + 1..];
      assert text[i..][0] == text[i];
      CamelFromSpec(text, cap, i + 1);
    }
  }

  /** toCamelCase keeps exactly the letters and digits in order, and a kept
      character is upper-cased iff the input character before it was dropped
      (or it is the first input character and capitalisation was asked for). */
  lemma ToCamelCaseSpec(text: string, capitalizeFirstLetter: bool)
    ensures ToCamelCase(text, capitalizeFirstLetter) == CamelSpec(text, capitalizeFirstLetter, 0)
  {
    CamelFromSpec(text, capitalizeFirstLetter, 0);
    assert text[0..] == text;
  }

  /** First pass of toSnakeCase: every character lower-cased, with an
      underscore put before each upper-case character that is not the first. */
  function SnakeMarks(text: string, atStart: bool): (r: string)
    ensures |r| >= |text|
  {
    if |text| == 0 then ""
    else (if IsUpper(text[0]) && !atStart then "_" else "") + [ToLower(text[0])] + SnakeMarks(text[1..], false)
  }

  predicate IsSnakeChar(c: char) { IsAsciiLower(c) || IsAsciiDigit(c) }

  /** Second pass: every maximal run of characters outside [a-z0-9] replaced
      by one underscore (`inRun` says a run is already being replaced). */
  function CollapseRuns(s: string, inRun: bool): (r: string)
    ensures forall i :: 0 <= i < |r| ==> IsSnakeChar(r[i]) || r[i] == '_'
    ensures forall i :: 0 <= i < |r| - 1 ==> !(r[i] == '_' && r[i + 1] == '_')
    ensures inRun && |r| > 0 ==> r[0] != '_'
  {
    if |s| == 0 then ""
    else if IsSnakeChar(s[0]) then [s[0]] + CollapseRuns(s[1..], false)
    else if inRun then CollapseRuns(s[1..], true)
    else "_" + CollapseRuns(s[1..], true)
  }

  /** toSnakeCase: only lower-case ASCII letters, digits and single
      underscores remain. */
  function ToSnakeCase(text: string): (r: string)
    ensures forall i :: 0 <= i < |r| ==> IsSnakeChar(r[i]) || r[i] == '_'
    ensures forall i :: 0 <= i < |r| - 1 ==> !(r[i] == '_' && r[i + 1] == '_')
  {
    CollapseRuns(SnakeMarks(text, true), false)
  }

  /** The [a-z0-9] characters of a string, in order. */
  function SnakeChars(s: string): (r: string)
    ensures |r| <= |s|
    ensures forall i :: 0 <= i < |r| ==> IsSnakeChar(r[i])
  {
    if |s| == 0 then ""
    else (if IsSnakeChar(s[0]) then [s[0]] else "") + SnakeChars(s[1..])
  }

  /** Collapsing runs drops only characters outside [a-z0-9]: the [a-z0-9]
      characters survive, all of them and in order. */
  lemma {:induction false} CollapseRunsKeepsContent(s: string, inRun: bool)
    ensures SnakeChars(CollapseRuns(s, inRun)) == SnakeChars(s)
  {
    if |s| > 0 {
      CollapseRunsKeepsContent(s[1..], !IsSnakeChar(s[0]));
      if IsSnakeChar(s[0]) {
        var rest := CollapseRuns(s[1..], false);
        assert ([s[0]] + rest)[1..] == rest;
      } else if !inRun {
        var rest := CollapseRuns(s[1..], true);
        assert ("_" + rest)[1..] == rest;
      }
    }
  }

  /** Text made only of [a-z0-9] has no run to collapse. */
  lemma {:induction false} CollapseRunsIdentity(s: string, inRun: bool)
    requires forall i :: 0 <= i < |s| ==> IsSnakeChar(s[i])
    ensures CollapseRuns(s, inRun) == s
  {
    if |s| > 0 {
      CollapseRunsIdentity(s[1..], false);
    }
  }

  /** The first pass adds only underscores and lower-cases: its [a-z0-9]
      characters are those of the lower-cased input. */
  lemma {:induction false} SnakeMarksKeepsContent(text: string, atStart: bool)
    ensures SnakeChars(SnakeMarks(text, atStart)) == SnakeChars(LowerStr(text))
  {
    if |text| > 0 {
      SnakeMarksKeepsContent(text[1..], false);
      var mark := if IsUpper(text[0]) && !atStart then "_" else "";
      var tail := [ToLower(text[0])] + SnakeMarks(text[1..], false);
      SnakeCharsConcat(mark, tail);
      assert SnakeChars(mark) == "";
      assert tail[1..] == SnakeMarks(text[1..], false);
      assert LowerStr(text)[1..] == LowerStr(text[1..]);
    }
  }

  lemma {:induction false} SnakeCharsConcat(a: string, b: string)
    ensures SnakeChars(a + b) == SnakeChars(a) + SnakeChars(b)
  {
    if |a| == 0 {
      assert a + b == b;
    } else {
      assert (a + b)[0] == a[0];
      assert (a + b)[1..] == a[1..] + b;
      SnakeCharsConcat(a[1..], b);
    }
  }

  /** Text without upper-case letters only gets lower-cased by the first
      pass: no underscore is inserted. */
  lemma {:induction false} SnakeMarksNoUpper(text: string, atStart: bool)
    requires forall i :: 0 <= i < |text| ==> !IsUpper(text[i])
    ensures SnakeMarks(text, atStart) == text
  {
    if |text| > 0 {
      SnakeMarksNoUpper(text[1..], false);
    }
  }

  /** toSnakeCase keeps the content: the [a-z0-9] characters of the result
      are those of the lower-cased input, in order; text already made of
      [a-z0-9] comes back unchanged; and "HelloWorld" becomes "hello_world". */
  lemma ToSnakeCaseContent(text: string)
    ensures SnakeChars(ToSnakeCase(text)) == SnakeChars(LowerStr(text))
    ensures (forall i :: 0 <= i < |text| ==> IsSnakeChar(text[i])) ==> ToSnakeCase(text) == text
    ensures ToSnakeCase("HelloWorld") == "hello_world"
  {
    SnakeMarksKeepsContent(text, true);
    CollapseRunsKeepsContent(SnakeMarks(text, true), false);
    if forall i :: 0 <= i < |text| ==> IsSnakeChar(text[i]) {
      SnakeMarksNoUpper(text, true);
      CollapseRunsIdentity(text, false);
    }
    HelloWorldSnake();
  }

  lemma HelloWorldSnake()
    ensures ToSnakeCase("HelloWorld") == "hello_world"
  {
    assert "HelloWorld" == "Hello" + "World";
    SnakeMarksConcat("Hello", "World", true);
    HelloMarks();
    WorldMarks();
    assert "hello" + "_world" == "hello_world";
    CollapseRunsSplit("hello", "_world");
    WorldCollapse();
  }

  lemma HelloMarks()
    ensures SnakeMarks("Hello", true) == "hello"
  {
    assert "Hello"[1..] == "ello";
    SnakeMarksNoUpper("ello", false);
  }

  lemma WorldMarks()
    ensures SnakeMarks("World", false) == "_world"
  {
    assert "World"[1..] == "orld";
    SnakeMarksNoUpper("orld", false);
  }

  lemma WorldCollapse()
    ensures CollapseRuns("_world", false) == "_world"
  {
    assert "_world"[1..] == "world";
    CollapseRunsIdentity("world", true);
  }

  lemma {:induction false} SnakeMarksConcat(a: string, b: string, atStart: bool)
    requires |a| > 0
    ensures SnakeMarks(a + b, atStart) == SnakeMarks(a, atStart) + SnakeMarks(b, false)
  {
    assert (a + b)[0] == a[0];
    assert (a + b)[1..] == a[1..] + b;
    if |a| == 1 {
      assert a[1..] + b == b;
    } else {
      SnakeMarksConcat(a[1..], b, false);
    }
  }

  lemma {:induction false} CollapseRunsSplit(a: string, b: string)
    requires forall i :: 0 <= i < |a| ==> IsSnakeChar(a[i])
    ensures CollapseRuns(a + b, false) == a + CollapseRuns(b, false)
  {
    if |a| > 0 {
      assert (a + b)[0] == a[0];
      assert (a + b)[1..] == a[1..] + b;
      CollapseRunsSplit(a[1..], b);
    } else {
      assert a + b == b;
    }
  }

  /** toKebabCase: toSnakeCase with every underscore turned into a hyphen. */
  function ToKebabCase(text: string): (r: string)
    ensures |r| == |ToSnakeCase(text)|
    ensures forall i :: 0 <= i < |r| ==>
      (ToSnakeCase(text)[i] == '_' ==> r[i] == '-') && (ToSnakeCase(text)[i] != '_' ==> r[i] == ToSnakeCase(text)[i])
    ensures forall i :: 0 <= i < |r| ==> IsSnakeChar(r[i]) || r[i] == '-'
    ensures forall i :: 0 <= i < |r| - 1 ==> !(r[i] == '-' && r[i + 1] == '-')
  {
    var s := ToSnakeCase(text);
    seq(|s|, i requires 0 <= i < |s| => if s[i] == '_' then '-' else s[i])
  }
}
