/**
  String helpers standing in for the QString operations the tool relies on:
  `split(sep, Qt::SkipEmptyParts)`, `split(sep)` keeping empty parts,
  `QStringList::join`, `simplified()`, `trimmed()`, `contains(substring)`,
  `toLower()`/`toUpper()` and `QString::number`.
 */
module Text {
  import opened Chars

  /** What a split cuts on: one given character, or any whitespace. */
  datatype Separator = Char(c: char) | Whitespace

  predicate IsSep(sep: Separator, c: char) {
    match sep
    case Char(d) => c == d
    case Whitespace => IsSpace(c)
  }

  predicate NoSep(s: string, sep: Separator) {
    forall i :: 0 <= i < |s| ==> !IsSep(sep, s[i])
  }

  /** Length of the longest prefix of `s` free of separators. */
  function RunLength(s: string, sep: Separator): (n: nat)
    ensures n <= |s|
    ensures NoSep(s[..n], sep)
    ensures n < |s| ==> IsSep(sep, s[n])
  {
    if |s| == 0 || IsSep(sep, s[0]) then 0
    else
      var m := RunLength(s[1..], sep);
      assert s[..1 + m] == [s[0]] + s[1..][..m];
      1 + m
  }

  /** The maximal non-empty runs of non-separator characters of `s`, in
      order: QString::split with Qt::SkipEmptyParts. */
  function Tokens(s: string, sep: Separator): (r: seq<string>)
    ensures forall i :: 0 <= i < |r| ==> r[i] != [] && NoSep(r[i], sep)
    decreases |s|
  {
    if |s| == 0 then []
    else if IsSep(sep, s[0]) then Tokens(s[1..], sep)
    else
      var n := RunLength(s, sep);
      [s[..n]] + Tokens(s[n..], sep)
  }

  /** QString::split(c, Qt::SkipEmptyParts) */
  function Split(s: string, c: char): seq<string> {
    Tokens(s, Char(c))
  }

  /** Whitespace-separated words, as `simplified()` sees them. */
  function Words(s: string): seq<string> {
    Tokens(s, Whitespace)
  }

  /** QStringList::join */
  function Join(parts: seq<string>, d: string): string {
    if |parts| == 0 then ""
    else if |parts| == 1 then parts[0]
    else parts[0] + d + Join(parts[1..], d)
  }

  /** QString::simplified: whitespace trimmed at both ends and every inner
      whitespace run replaced by one space. */
  function Simplified(s: string): string {
    Join(Words(s), " ")
  }

  /** QString::trimmed().isEmpty() */
  predicate IsBlank(s: string) {
    forall i :: 0 <= i < |s| ==> IsSpace(s[i])
  }

  lemma RunLengthPrefix(a: string, d: char, b: string, sep: Separator)
    requires IsSep(sep, d)
    ensures RunLength(a + [d] + b, sep) == RunLength(a, sep)
  {
    if |a| > 0 && !IsSep(sep, a[0]) {
      assert (a + [d] + b)[1..] == a[1..] + [d] + b;
      RunLengthPrefix(a[1..], d, b, sep);
    }
  }

  lemma RunLengthWhole(w: string, sep: Separator)
    requires NoSep(w, sep)
    ensures RunLength(w, sep) == |w|
  {
    if |w| > 0 {
      RunLengthWhole(w[1..], sep);
    }
  }

  /** Splitting distributes over a separator: cutting `a + [d] + b` on a
      separator `d` gives the tokens of `a` followed by those of `b`. In
      particular empty segments (doubled or trailing separators) vanish. */
  lemma {:induction false} TokensConcat(a: string, d: char, b: string, sep: Separator)
    requires IsSep(sep, d)
    ensures Tokens(a + [d] + b, sep) == Tokens(a, sep) + Tokens(b, sep)
    decreases |a|
  {
    var s := a + [d] + b;
    if |a| == 0 {
      assert s[1..] == b;
    } else if IsSep(sep, a[0]) {
      assert s[1..] == a[1..] + [d] + b;
      TokensConcat(a[1..], d, b, sep);
    } else {
      RunLengthPrefix(a, d, b, sep);
      var n := RunLength(a, sep);
      assert s[0] == a[0];
      assert s[..n] == a[..n];
      assert s[n..] == a[n..] + [d] + b;
      assert Tokens(s, sep) == [a[..n]] + Tokens(a[n..] + [d] + b, sep);
      assert Tokens(a, sep) == [a[..n]] + Tokens(a[n..], sep);
      TokensConcat(a[n..], d, b, sep);
    }
  }

  lemma TokensOfToken(w: string, sep: Separator)
    requires w != [] && NoSep(w, sep)
    ensures Tokens(w, sep) == [w]
  {
    RunLengthWhole(w, sep);
    assert w[..|w|] == w;
    assert w[|w|..] == [];
  }

  /** Joining tokens on a separator and splitting again gives the tokens back. */
  lemma {:induction false} TokensOfJoin(ws: seq<string>, d: char, sep: Separator)
    requires IsSep(sep, d)
    requires forall i :: 0 <= i < |ws| ==> ws[i] != [] && NoSep(ws[i], sep)
    ensures Tokens(Join(ws, [d]), sep) == ws
  {
    if |ws| == 1 {
      TokensOfToken(ws[0], sep);
    } else if |ws| > 1 {
      TokensConcat(ws[0], d, Join(ws[1..], [d]), sep);
      TokensOfToken(ws[0], sep);
      TokensOfJoin(ws[1..], d, sep);
    }
  }

  lemma NoWhitespaceNoSpace(w: string)
    requires NoSep(w, Whitespace)
    ensures NoSep(w, Char(' '))
  {
  }

  /** The words of a simplified string are the words of the original. */
  lemma WordsOfSimplified(s: string)
    ensures Words(Simplified(s)) == Words(s)
    ensures Split(Simplified(s), ' ') == Words(s)
  {
    var ws := Words(s);
    TokensOfJoin(ws, ' ', Whitespace);
    forall i | 0 <= i < |ws|
      ensures NoSep(ws[i], Char(' '))
    {
      NoWhitespaceNoSpace(ws[i]);
    }
    TokensOfJoin(ws, ' ', Char(' '));
  }

  /** `simplified()` is idempotent. */
  lemma SimplifiedIdempotent(s: string)
    ensures Simplified(Simplified(s)) == Simplified(s)
  {
    WordsOfSimplified(s);
  }

  /** A simplified string has no leading, trailing or doubled whitespace, and
      its only whitespace characters are plain spaces. */
  lemma {:induction false} JoinShape(ws: seq<string>)
    requires forall i :: 0 <= i < |ws| ==> ws[i] != [] && NoSep(ws[i], Whitespace)
    ensures var s := Join(ws, " ");
      && (|s| > 0 ==> !IsSpace(s[0]) && !IsSpace(s[|s| - 1]))
      && (forall i :: 0 <= i < |s| && IsSpace(s[i]) ==> s[i] == ' ')
      && (forall i :: 0 <= i < |s| - 1 ==> !(IsSpace(s[i]) && IsSpace(s[i + 1])))
  {
    if |ws| > 1 {
      JoinShape(ws[1..]);
      var t := Join(ws[1..], " ");
      var s := ws[0] + " " + t;
      assert s == Join(ws, " ");
      assert t != [] by { assert |t| >= |ws[1]| by { JoinLength(ws[1..]); } }
      forall i | 0 <= i < |s| - 1
        ensures !(IsSpace(s[i]) && IsSpace(s[i + 1]))
      {
        if i < |ws[0]| {
          assert s[i] == ws[0][i];
        } else if i > |ws[0]| {
          assert s[i] == t[i - |ws[0]| - 1];
          assert s[i + 1] == t[i + 1 - |ws[0]| - 1];
        }
      }
    }
  }

  lemma {:induction false} JoinLength(ws: seq<string>)
    requires |ws| > 0
    ensures |Join(ws, " ")| >= |ws[0]|
  {
  }

  lemma SimplifiedShape(s: string)
    ensures var t := Simplified(s);
      && (|t| > 0 ==> !IsSpace(t[0]) && !IsSpace(t[|t| - 1]))
      && (forall i :: 0 <= i < |t| && IsSpace(t[i]) ==> t[i] == ' ')
      && (forall i :: 0 <= i < |t| - 1 ==> !(IsSpace(t[i]) && IsSpace(t[i + 1])))
  {
    JoinShape(Words(s));
  }

  /** QString::split(c) keeping empty parts: the segments between the
      occurrences of `c`, always at least one. */
  function SplitAll(s: string, c: char): (r: seq<string>)
    ensures |r| >= 1
    ensures forall i :: 0 <= i < |r| ==> NoSep(r[i], Char(c))
    decreases |s|
  {
    var n := RunLength(s, Char(c));
    if n == |s| then [s]
    else [s[..n]] + SplitAll(s[n + 1..], c)
  }

  /** Joining the segments on the separator rebuilds the string. */
  lemma {:induction false} SplitAllJoin(s: string, c: char)
    ensures Join(SplitAll(s, c), [c]) == s
    decreases |s|
  {
    var n := RunLength(s, Char(c));
    if n < |s| {
      var rest := SplitAll(s[n + 1..], c);
      assert SplitAll(s, c) == [s[..n]] + rest;
      assert ([s[..n]] + rest)[1..] == rest;
      assert Join([s[..n]] + rest, [c]) == s[..n] + [c] + Join(rest, [c]);
      SplitAllJoin(s[n + 1..], c);
      assert s == s[..n] + [c] + s[n + 1..];
    }
  }

  /** A segment free of the separator followed by the separator contributes
      exactly one segment. */
  lemma SplitAllCons(a: string, c: char, b: string)
    requires NoSep(a, Char(c))
    ensures SplitAll(a + [c] + b, c) == [a] + SplitAll(b, c)
  {
    var s := a + [c] + b;
    RunLengthPrefix(a, c, b, Char(c));
    RunLengthWhole(a, Char(c));
    assert s[..|a|] == a;
    assert s[|a| + 1..] == b;
  }

  lemma SplitAllSingle(a: string, c: char)
    requires NoSep(a, Char(c))
    ensures SplitAll(a, c) == [a]
  {
    RunLengthWhole(a, Char(c));
  }

  /** `pat` occurs in `s` at some position: QString::contains(substring). */
  predicate Contains(s: string, pat: string) {
    exists i :: 0 <= i <= |s| - |pat| && OccursAt(s, pat, i)
  }

  predicate OccursAt(s: string, pat: string, i: int) {
    0 <= i <= |s| - |pat| && s[i..i + |pat|] == pat
  }

  /** QString::toLower */
  function LowerStr(s: string): (r: string)
    ensures |r| == |s| && forall i :: 0 <= i < |s| ==> r[i] == ToLower(s[i])
  {
    seq(|s|, i requires 0 <= i < |s| => ToLower(s[i]))
  }

  /** QString::toUpper */
  function UpperStr(s: string): (r: string)
    ensures |r| == |s| && forall i :: 0 <= i < |s| ==> r[i] == ToUpper(s[i])
  {
    seq(|s|, i requires 0 <= i < |s| => ToUpper(s[i]))
  }

  predicate AllDigits(s: string) {
    forall i :: 0 <= i < |s| ==> IsAsciiDigit(s[i])
  }

  /** The number a string of decimal digits denotes. */
  function DigitsValue(s: string): nat
    requires AllDigits(s)
  {
    if |s| == 0 then 0
    else DigitsValue(s[..|s| - 1]) * 10 + (s[|s| - 1] as int - '0' as int)
  }

  function DigitChar(d: nat): (c: char)
    requires d < 10
    ensures IsAsciiDigit(c) && c as int - '0' as int == d
  {
    ('0' as int + d) as char
  }

  /** QString::number for a non-negative value: its decimal digits, which
      read back as the same number. */
  function NatToString(n: nat): (r: string)
    ensures |r| >= 1 && AllDigits(r)
    ensures DigitsValue(r) == n
  {
    if n < 10 then [DigitChar(n)]
    else
      var p := NatToString(n / 10);
      var r := p + [DigitChar(n % 10)];
      assert r[..|r| - 1] == p;
      r
  }

  lemma NatToStringInjective(a: nat, b: nat)
    requires NatToString(a) == NatToString(b)
    ensures a == b
  {
  }

  /** QString::number(int) */
  function IntToString(n: int): (r: string)
    ensures n >= 0 ==> AllDigits(r) && DigitsValue(r) == n
    ensures n < 0 ==> |r| >= 2 && r[0] == '-' && AllDigits(r[1..]) && DigitsValue(r[1..]) == -n
  {
    if n < 0 then "-" + NatToString(-n) else NatToString(n)
  }

  /** A pattern whose first character is absent does not occur. */
  lemma MissingFirstChar(s: string, pat: string)
    requires |pat| > 0 && pat[0] !in s
    ensures !Contains(s, pat)
  {
    forall i | 0 <= i <= |s| - |pat| ensures !OccursAt(s, pat, i) {
      assert s[i..i + |pat|][0] == s[i];
    }
  }
}
