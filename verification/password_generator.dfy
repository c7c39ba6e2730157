/**
  PasswordGenerator: character-set construction from a policy, the
  required-type and policy checks, the clamped strength score, and
  rejection-sampling generation driven by an abstract random oracle.
 */
module PasswordGenerator {
  import opened Chars
  import opened Options
  import Sets

  /** PasswordPolicy, with the defaults of its declaration. */
  datatype PasswordPolicy = PasswordPolicy(
    minLength: int,
    maxLength: int,
    includeUppercase: bool,
    includeLowercase: bool,
    includeNumbers: bool,
    includeSymbols: bool,
    excludeChars: string,
    requireEachType: bool)

  const DefaultPolicy := PasswordPolicy(12, 16, true, true, true, true, "0O1lI", true)

  /** The fixed alphabets: look-alike characters (l, I, O, 0, 1) are already
      left out of them. */
  const LowerAlphabet: string := "abcdefghijkmnpqrstuvwxyz"
  const UpperAlphabet: string := "ABCDEFGHJKLMNPQRSTUVWXYZ"
  const DigitAlphabet: string := "23456789"
  const SymbolAlphabet: string := "!@#$%^&*()-_=+[]{}|;:,.<>?"

  /** The four classes the generator and the strength score sort characters
      into: lower-case, else upper-case, else digit, else symbol. */
  datatype CharClass = Lower | Upper | Digit | Symbol

  function ClassOf(c: char): CharClass {
    if IsLower(c) then Lower
    else if IsUpper(c) then Upper
    else if IsDigit(c) then Digit
    else Symbol
  }

  /** The classes partition the characters: lower-case and upper-case
      letters are disjoint, digits are neither, and a symbol is anything
      else. */
  lemma ClassOfMeaning(c: char)
    ensures ClassOf(c) == Lower <==> IsLower(c)
    ensures ClassOf(c) == Upper <==> IsUpper(c)
    ensures ClassOf(c) == Digit <==> IsDigit(c)
    ensures ClassOf(c) == Symbol <==> !IsLower(c) && !IsUpper(c) && !IsDigit(c)
  {
  }

  /** Each alphabet lies wholly in its class. */
  lemma LowerAlphabetClass(c: char)
    requires c in LowerAlphabet
    ensures ClassOf(c) == Lower
  {
  }

  lemma UpperAlphabetClass(c: char)
    requires c in UpperAlphabet
    ensures ClassOf(c) == Upper
  {
  }

  lemma DigitAlphabetClass(c: char)
    requires c in DigitAlphabet
    ensures ClassOf(c) == Digit
  {
  }

  lemma SymbolAlphabetClass(c: char)
    requires c in SymbolAlphabet
    ensures ClassOf(c) == Symbol
  {
  }

  /** No alphabet holds a look-alike character. */
  lemma NoLookAlikes(c: char)
    requires c in "lIO01"
    ensures c !in LowerAlphabet && c !in UpperAlphabet && c !in DigitAlphabet && c !in SymbolAlphabet
  {
  }

  /** The enabled alphabets, in the order lower, upper, digit, symbol. */
  function Enabled(policy: PasswordPolicy): string {
    (if policy.includeLowercase then LowerAlphabet else "")
    + (if policy.includeUppercase then UpperAlphabet else "")
    + (if policy.includeNumbers then DigitAlphabet else "")
    + (if policy.includeSymbols then SymbolAlphabet else "")
  }

  /** QString::remove(QChar): every occurrence of `c` removed. */
  function RemoveChar(s: string, c: char): (r: string)
    ensures forall x :: x in r <==> x in s && x != c
  {
    if |s| == 0 then ""
    else if s[0] == c then RemoveChar(s[1..], c)
    else [s[0]] + RemoveChar(s[1..], c)
  }

  /** The removal loop over the excluded characters. */
  function RemoveChars(s: string, excluded: string): (r: string)
    ensures forall x :: x in r <==> x in s && x !in excluded
    decreases |excluded|
  {
    if |excluded| == 0 then s
    else RemoveChars(RemoveChar(s, excluded[0]), excluded[1..])
  }

  /** getCharacterSet */
  function CharacterSet(policy: PasswordPolicy): (r: string)
    ensures forall x :: x in r <==> x in Enabled(policy) && x !in policy.excludeChars
  {
    RemoveChars(Enabled(policy), policy.excludeChars)
  }

  /** A single order-preserving filter, as an independent description of the
      removal loop. */
  function KeepAllowed(s: string, excluded: string): string {
    if |s| == 0 then ""
    else if s[0] in excluded then KeepAllowed(s[1..], excluded)
    else [s[0]] + KeepAllowed(s[1..], excluded)
  }

  lemma {:induction false} KeepAllowedAfterRemove(s: string, c: char, excluded: string)
    ensures KeepAllowed(RemoveChar(s, c), excluded) == KeepAllowed(s, [c] + excluded)
  {
    if |s| > 0 {
      KeepAllowedAfterRemove(s[1..], c, excluded);
    }
  }

  lemma {:induction false} KeepAllowedNothing(s: string)
    ensures KeepAllowed(s, "") == s
  {
    if |s| > 0 {
      KeepAllowedNothing(s[1..]);
    }
  }

  lemma {:induction false} RemoveCharsIsFilter(s: string, excluded: string)
    ensures RemoveChars(s, excluded) == KeepAllowed(s, excluded)
    decreases |excluded|
  {
    if |excluded| == 0 {
      KeepAllowedNothing(s);
    } else {
      RemoveCharsIsFilter(RemoveChar(s, excluded[0]), excluded[1..]);
      KeepAllowedAfterRemove(s, excluded[0], excluded[1..]);
      assert [excluded[0]] + excluded[1..] == excluded;
    }
  }

  /** The character set is the enabled alphabets, in order lower, upper,
      digit, symbol, with every excluded character filtered out; it never
      holds a look-alike character whatever the policy, and with every
      category switched off it is empty (there is no fallback). */
  lemma CharacterSetFacts(policy: PasswordPolicy, c: char)
    ensures CharacterSet(policy) == KeepAllowed(Enabled(policy), policy.excludeChars)
    ensures c in "lIO01" ==> c !in CharacterSet(policy)
    ensures (!policy.includeLowercase && !policy.includeUppercase && !policy.includeNumbers
             && !policy.includeSymbols) ==> CharacterSet(policy) == ""
  {
    RemoveCharsIsFilter(Enabled(policy), policy.excludeChars);
    if c in "lIO01" {
      NoLookAlikes(c);
    }
    if !policy.includeLowercase && !policy.includeUppercase && !policy.includeNumbers && !policy.includeSymbols {
      assert Enabled(policy) == "";
    }
  }

  /** The classes present somewhere in `pw`. */
  predicate Has(pw: string, k: CharClass) {
    exists i :: 0 <= i < |pw| && ClassOf(pw[i]) == k
  }

  /** The classification loop shared by hasRequiredTypes and
      calculateStrength: the classes seen so far, extended by `pw`. */
  function ScanTypes(pw: string, seen: set<CharClass>): set<CharClass> {
    if |pw| == 0 then seen
    else ScanTypes(pw[1..], seen + {ClassOf(pw[0])})
  }

  /** The scan collects exactly the classes present, so it never finds more
      classes than there are characters. */
  lemma {:induction false} ScanTypesMeaning(pw: string, seen: set<CharClass>)
    ensures forall k :: k in ScanTypes(pw, seen) <==> k in seen || Has(pw, k)
    ensures |ScanTypes(pw, seen)| <= |seen| + |pw|
  {
    if |pw| > 0 {
      ScanTypesMeaning(pw[1..], seen + {ClassOf(pw[0])});
      forall k | Has(pw[1..], k) ensures Has(pw, k) {
        var i :| 0 <= i < |pw[1..]| && ClassOf(pw[1..][i]) == k;
        assert ClassOf(pw[i + 1]) == k;
      }
      forall k | Has(pw, k) && ClassOf(pw[0]) != k ensures Has(pw[1..], k) {
        var i :| 0 <= i < |pw| && ClassOf(pw[i]) == k;
        assert pw[1..][i - 1] == pw[i];
      }
    }
  }

  /** The classes the policy asks for. */
  function EnabledClasses(policy: PasswordPolicy): set<CharClass> {
    (if policy.includeLowercase then {Lower} else {})
    + (if policy.includeUppercase then {Upper} else {})
    + (if policy.includeNumbers then {Digit} else {})
    + (if policy.includeSymbols then {Symbol} else {})
  }

  /** hasRequiredTypes: whether the classes seen include every enabled
      category. */
  function HasRequiredTypes(pw: string, policy: PasswordPolicy): bool {
    var seen := ScanTypes(pw, {});
    (!policy.includeLowercase || Lower in seen)
    && (!policy.includeUppercase || Upper in seen)
    && (!policy.includeNumbers || Digit in seen)
    && (!policy.includeSymbols || Symbol in seen)
  }

  /** Spelled out: each enabled category has a witness, where any character
      that is not lower-case, upper-case or a digit counts as a symbol. */
  lemma HasRequiredTypesMeaning(pw: string, policy: PasswordPolicy)
    ensures HasRequiredTypes(pw, policy) <==>
      (policy.includeLowercase ==> exists i :: 0 <= i < |pw| && IsLower(pw[i]))
      && (policy.includeUppercase ==> exists i :: 0 <= i < |pw| && IsUpper(pw[i]))
      && (policy.includeNumbers ==> exists i :: 0 <= i < |pw| && IsDigit(pw[i]))
      && (policy.includeSymbols ==> exists i :: 0 <= i < |pw| && !IsLower(pw[i]) && !IsUpper(pw[i]) && !IsDigit(pw[i]))
  {
    ScanTypesMeaning(pw, {});
    forall i | 0 <= i < |pw| { ClassOfMeaning(pw[i]); }
  }

  /** Equivalently, the enabled categories are among the classes seen. */
  lemma RequiredAsSubset(pw: string, policy: PasswordPolicy)
    ensures HasRequiredTypes(pw, policy) <==> EnabledClasses(policy) <= ScanTypes(pw, {})
  {
  }

  /** A password shorter than the number of enabled categories can never
      have every required type. */
  lemma ShortPasswordsLackTypes(pw: string, policy: PasswordPolicy)
    requires |pw| < |EnabledClasses(policy)|
    ensures !HasRequiredTypes(pw, policy)
  {
    var seen := ScanTypes(pw, {});
    RequiredAsSubset(pw, policy);
    ScanTypesMeaning(pw, {});
    if EnabledClasses(policy) <= seen {
      Sets.SubsetSize(EnabledClasses(policy), seen);
    }
  }

  /** `pw` contains one of the characters of `excluded`. */
  function ContainsAnyOf(pw: string, excluded: string): (r: bool)
    ensures r <==> exists i :: 0 <= i < |excluded| && excluded[i] in pw
  {
    if |excluded| == 0 then false
    else if excluded[0] in pw then true
    else
      var r := ContainsAnyOf(pw, excluded[1..]);
      assert (exists i :: 0 <= i < |excluded| && excluded[i] in pw) ==>
        (exists i :: 0 <= i < |excluded[1..]| && excluded[1..][i] in pw) by {
        if exists i :: 0 <= i < |excluded| && excluded[i] in pw {
          var i :| 0 <= i < |excluded| && excluded[i] in pw;
          assert excluded[1..][i - 1] == excluded[i];
        }
      }
      r
  }

  /** meetsPolicy: the length is within bounds, no excluded character
      occurs, and the required types are present when asked for. There is no
      check against weak substrings. */
  function MeetsPolicy(pw: string, policy: PasswordPolicy): (r: bool)
    ensures r <==> policy.minLength <= |pw| <= policy.maxLength
                   && (forall c :: c in pw ==> c !in policy.excludeChars)
                   && (!policy.requireEachType || HasRequiredTypes(pw, policy))
  {
    if |pw| < policy.minLength || |pw| > policy.maxLength then false
    else if ContainsAnyOf(pw, policy.excludeChars) then false
    else !policy.requireEachType || HasRequiredTypes(pw, policy)
  }

  // ----- strength score -----

  /** Occurrences of `c` in `s`. */
  function Occurrences(s: string, c: char): nat {
    if |s| == 0 then 0
    else Occurrences(s[..|s| - 1], c) + (if s[|s| - 1] == c then 1 else 0)
  }

  lemma {:induction false} OccurrencesPositive(s: string, c: char)
    ensures Occurrences(s, c) > 0 <==> c in s
  {
    if |s| > 0 {
      OccurrencesPositive(s[..|s| - 1], c);
      assert s == s[..|s| - 1] + [s[|s| - 1]];
    }
  }

  /** Bonus for the classes present: 5 each for lower, upper and digit,
      10 for a symbol. */
  function TypeBonus(seen: set<CharClass>): nat {
    (if Lower in seen then 5 else 0) + (if Upper in seen then 5 else 0)
    + (if Digit in seen then 5 else 0) + (if Symbol in seen then 10 else 0)
  }

  /** Positions 1 <= j < i holding a non-letter. */
  function NonLettersBelow(pw: string, i: nat): nat
    requires i <= |pw|
  {
    if i <= 1 then 0
    else NonLettersBelow(pw, i - 1) + (if !IsLetter(pw[i - 1]) then 1 else 0)
  }

  /** Non-letters strictly inside the password (neither first nor last). */
  function InteriorNonLetters(pw: string): nat {
    if |pw| < 2 then 0 else NonLettersBelow(pw, |pw| - 1)
  }

  /** Whether positions j-1 and j are both lower-case, both upper-case or both
      digits. */
  predicate SameTypePair(pw: string, j: nat)
    requires 1 <= j < |pw|
  {
    (IsLower(pw[j]) && IsLower(pw[j - 1]))
    || (IsUpper(pw[j]) && IsUpper(pw[j - 1]))
    || (IsDigit(pw[j]) && IsDigit(pw[j - 1]))
  }

  /** Adjacent same-type pairs ending below `i`. */
  function SameTypePairsBelow(pw: string, i: nat): nat
    requires i <= |pw|
  {
    if i <= 1 then 0
    else SameTypePairsBelow(pw, i - 1) + (if SameTypePair(pw, i - 1) then 1 else 0)
  }

  /** Positions of `s` whose character is in `chars` and occurs more than
      once in `full`. */
  function RepeatedIn(s: string, chars: set<char>, full: string): nat {
    if |s| == 0 then 0
    else RepeatedIn(s[..|s| - 1], chars, full)
         + (if s[|s| - 1] in chars && Occurrences(full, s[|s| - 1]) > 1 then 1 else 0)
  }

  /** The repeat penalty: a character occurring k > 1 times costs k (not
      k - 1), which is one per position holding a repeated character. */
  function RepeatPenalty(pw: string): nat {
    RepeatedIn(pw, (set c | c in pw), pw)
  }

  /** The score before clamping. */
  function RawStrength(pw: string): int {
    4 * |pw| + TypeBonus(ScanTypes(pw, {})) + 2 * InteriorNonLetters(pw)
    - 2 * SameTypePairsBelow(pw, |pw|) - RepeatPenalty(pw)
  }

  /** How far apart two integers are. */
  function Distance(a: int, b: int): nat {
    if a >= b then a - b else b - a
  }

  /** qBound(0, x, 100) */
  function Clamp(x: int): (r: int)
    ensures 0 <= r <= 100
    ensures 0 <= x <= 100 ==> r == x
    ensures x < 0 ==> r == 0
    ensures x > 100 ==> r == 100
    ensures forall y :: 0 <= y <= 100 ==> Distance(r, x) <= Distance(y, x)
  {
    if x < 0 then 0 else if x > 100 then 100 else x
  }

  lemma {:induction false} RepeatedInAddChar(s: string, chars: set<char>, c: char, full: string)
    requires c !in chars
    ensures RepeatedIn(s, chars + {c}, full)
      == RepeatedIn(s, chars, full) + (if Occurrences(full, c) > 1 then Occurrences(s, c) else 0)
  {
    if |s| > 0 {
      RepeatedInAddChar(s[..|s| - 1], chars, c, full);
    }
  }

  lemma {:induction false} RepeatedInSameOnChars(s: string, a: set<char>, b: set<char>, full: string)
    requires forall x :: x in s ==> (x in a <==> x in b)
    ensures RepeatedIn(s, a, full) == RepeatedIn(s, b, full)
  {
    if |s| > 0 {
      var p := s[..|s| - 1];
      assert forall x :: x in p ==> x in s;
      RepeatedInSameOnChars(p, a, b, full);
    }
  }

  /** The classification loop of calculateStrength. */
  method ScanClasses(pw: string) returns (seen: set<CharClass>)
    ensures seen == ScanTypes(pw, {})
  {
    seen := {};
    var i := 0;
    while i < |pw|
      invariant 0 <= i <= |pw|
      invariant ScanTypes(pw[i..], seen) == ScanTypes(pw, {})
    {
      assert pw[i..][1..] == pw[i + 1..];
      seen := seen + {ClassOf(pw[i])};
      i := i + 1;
    }
    assert pw[|pw|..] == "";
  }

  /** The loop over positions 1 .. |pw| - 2 counting non-letters. */
  method CountInteriorNonLetters(pw: string) returns (count: nat)
    ensures count == InteriorNonLetters(pw)
  {
    count := 0;
    if |pw| < 2 {
      return;
    }
    var i := 1;
    while i < |pw| - 1
      invariant 1 <= i <= |pw| - 1
      invariant count == NonLettersBelow(pw, i)
    {
      if !IsLetter(pw[i]) {
        count := count + 1;
      }
      i := i + 1;
    }
  }

  /** The loop over adjacent pairs counting same-type pairs. */
  method CountSameTypePairs(pw: string) returns (count: nat)
    ensures count == SameTypePairsBelow(pw, |pw|)
  {
    count := 0;
    if |pw| == 0 {
      return;
    }
    var i := 1;
    while i < |pw|
      invariant 1 <= i <= |pw|
      invariant count == SameTypePairsBelow(pw, i)
    {
      if SameTypePair(pw, i) {
        count := count + 1;
      }
      i := i + 1;
    }
  }

  /** The table of character counts (QMap<QChar, int>). */
  method CountCharacters(pw: string) returns (counts: map<char, nat>)
    ensures counts.Keys == set c | c in pw
    ensures forall c :: c in counts ==> counts[c] == Occurrences(pw, c)
  {
    counts := map[];
    var i := 0;
    while i < |pw|
      invariant 0 <= i <= |pw|
      invariant forall c :: c in counts <==> c in pw[..i]
      invariant forall c :: c in counts ==> counts[c] == Occurrences(pw[..i], c)
    {
      var c := pw[i];
      assert pw[..i + 1][..i] == pw[..i];
      assert pw[..i + 1] == pw[..i] + [c];
      if c !in counts {
        OccurrencesPositive(pw[..i], c);
      }
      counts := counts[c := (if c in counts then counts[c] else 0) + 1];
      i := i + 1;
    }
    assert pw[..|pw|] == pw;
  }

  /** The loop over the count table: a character counted k > 1 times costs k. */
  method SumRepeats(pw: string, counts: map<char, nat>) returns (penalty: nat)
    requires counts.Keys == set c | c in pw
    requires forall c :: c in counts ==> counts[c] == Occurrences(pw, c)
    ensures penalty == RepeatPenalty(pw)
  {
    var todo := counts.Keys;
    penalty := 0;
    RepeatedInNothing(pw, pw);
    assert counts.Keys - todo == {};
    while todo != {}
      invariant todo <= counts.Keys
      invariant penalty == RepeatedIn(pw, counts.Keys - todo, pw)
      decreases |todo|
    {
      var c :| c in todo;
      RepeatedInAddChar(pw, counts.Keys - todo, c, pw);
      assert counts.Keys - (todo - {c}) == (counts.Keys - todo) + {c};
      if counts[c] > 1 {
        penalty := penalty + counts[c];
      }
      todo := todo - {c};
    }
    assert counts.Keys - todo == counts.Keys;
  }

  /** calculateStrength: 4 per character, type bonuses, 2 per interior
      non-letter, minus 2 per adjacent same-type pair and the repeat
      penalty, clamped to [0, 100]. */
  method CalculateStrength(pw: string) returns (strength: int)
    ensures strength == Clamp(RawStrength(pw))
    ensures 0 <= strength <= 100
    ensures |pw| == 0 ==> strength == 0
  {
    var seen := ScanClasses(pw);
    var interior := CountInteriorNonLetters(pw);
    var pairs := CountSameTypePairs(pw);
    var counts := CountCharacters(pw);
    var penalty := SumRepeats(pw, counts);
    var raw := 4 * |pw| + TypeBonus(seen) + 2 * interior - 2 * pairs - penalty;
    strength := Clamp(raw);
    if |pw| == 0 {
      assert RepeatPenalty(pw) == 0;
    }
  }

  lemma {:induction false} RepeatedInNothing(s: string, full: string)
    ensures RepeatedIn(s, {}, full) == 0
  {
    if |s| > 0 {
      RepeatedInNothing(s[..|s| - 1], full);
    }
  }

  /** A repeated character costs its full count: "aa" scores 8 for length,
      5 for a lower-case letter, minus 2 for the lower-lower pair and minus
      2 (not 1) for the two a's. */
  lemma DoubledLetterScore()
    ensures RepeatPenalty("aa") == 2
    ensures RawStrength("aa") == 9
  {
    var s := "aa";
    assert s[..1] == "a" && s[1..] == "a";
    assert "a"[..0] == "" && "a"[1..] == "";
    assert Occurrences("a", 'a') == 1;
    assert Occurrences(s, 'a') == 2;
    assert (set c | c in s) == {'a'};
    assert RepeatedIn("a", {'a'}, s) == 1;
    assert RepeatedIn(s, {'a'}, s) == 2;
    assert ScanTypes(s, {}) == {Lower};
    assert SameTypePairsBelow(s, 2) == 1;
    assert InteriorNonLetters(s) == 0;
  }

  lemma {:induction false} NoRepeatNoPenaltyIn(s: string, chars: set<char>, full: string)
    requires forall c :: c in full ==> Occurrences(full, c) <= 1
    requires forall c :: c in s ==> c in full
    ensures RepeatedIn(s, chars, full) == 0
  {
    if |s| > 0 {
      var p := s[..|s| - 1];
      assert forall x :: x in p ==> x in s;
      assert s[|s| - 1] in s;
      NoRepeatNoPenaltyIn(p, chars, full);
    }
  }

  /** A password with no repeated character has no repeat penalty. */
  lemma NoRepeatNoPenalty(pw: string)
    requires forall c :: c in pw ==> Occurrences(pw, c) <= 1
    ensures RepeatPenalty(pw) == 0
  {
    NoRepeatNoPenaltyIn(pw, (set c | c in pw), pw);
  }

  // ----- generation -----

  /** `n` characters drawn from `cs`, the i-th indexed by the oracle's value
      at `start + i` (bounded(|cs|) as rand(k) % |cs|). */
  function DrawChars(cs: string, rand: nat -> nat, start: nat, n: nat): (r: string)
    requires |cs| > 0
    ensures |r| == n
    ensures forall i :: 0 <= i < n ==> r[i] == cs[rand(start + i) % |cs|]
  {
    if n == 0 then "" else DrawChars(cs, rand, start, n - 1) + [cs[rand(start + n - 1) % |cs|]]
  }

  /** A generated password and the next unused oracle index. */
  datatype Generated = Generated(password: string, next: nat)

  /** The length drawn once per call: bounded(minLength, maxLength + 1). */
  function ChosenLength(policy: PasswordPolicy, rand: nat -> nat, start: nat): (len: int)
    requires policy.minLength <= policy.maxLength
    ensures policy.minLength <= len <= policy.maxLength
  {
    policy.minLength + rand(start) % (policy.maxLength - policy.minLength + 1)
  }

  /** The test that ends the do-while. */
  predicate Accepts(policy: PasswordPolicy, pw: string) {
    !policy.requireEachType || HasRequiredTypes(pw, policy)
  }

  /** The rejection loop with the test `accept`, making at most `fuel`
      attempts: None means that many attempts were rejected (the tool would
      keep drawing). */
  function Attempts(accept: string -> bool, cs: string, n: nat, rand: nat -> nat, start: nat, fuel: nat): Option<Generated>
    requires |cs| > 0
    decreases fuel
  {
    if fuel == 0 then None
    else
      var pw := DrawChars(cs, rand, start, n);
      if accept(pw) then Some(Generated(pw, start + n))
      else Attempts(accept, cs, n, rand, start + n, fuel - 1)
  }

  /** generatePassword as a function of the oracle: one length draw at
      `start` (a negative length gives the empty password), then the
      attempts. */
  function Generate(policy: PasswordPolicy, rand: nat -> nat, start: nat, fuel: nat): Option<Generated>
    requires |CharacterSet(policy)| > 0 && policy.minLength <= policy.maxLength
  {
    var len := ChosenLength(policy, rand, start);
    Attempts((pw: string) => Accepts(policy, pw), CharacterSet(policy), if len < 0 then 0 else len, rand, start + 1, fuel)
  }

  /** What an accepted attempt delivers: a password of the drawn length made
      of characters of the set and passing the test. */
  lemma {:induction false} AttemptsFacts(accept: string -> bool, cs: string, n: nat, rand: nat -> nat, start: nat, fuel: nat)
    requires |cs| > 0
    ensures var r := Attempts(accept, cs, n, rand, start, fuel);
      r.Some? ==> |r.value.password| == n && accept(r.value.password)
                  && (forall c :: c in r.value.password ==> c in cs)
                  && r.value.next >= start
    decreases fuel
  {
    if fuel > 0 && !accept(DrawChars(cs, rand, start, n)) {
      AttemptsFacts(accept, cs, n, rand, start + n, fuel - 1);
    }
  }

  /** If no string of length `n` over `cs` passes the test, every attempt
      fails. */
  lemma {:induction false} AllRejected(accept: string -> bool, cs: string, n: nat, rand: nat -> nat, start: nat, fuel: nat)
    requires |cs| > 0
    requires forall pw: string :: |pw| == n && (forall c :: c in pw ==> c in cs) ==> !accept(pw)
    ensures Attempts(accept, cs, n, rand, start, fuel) == None
    decreases fuel
  {
    if fuel > 0 {
      var pw := DrawChars(cs, rand, start, n);
      assert !accept(pw);
      AllRejected(accept, cs, n, rand, start + n, fuel - 1);
    }
  }

  /** What generatePassword delivers: a password whose length is the drawn
      one (between minLength and maxLength, or empty when that is negative),
      made of characters of the set, and meeting the policy whenever
      minLength is not negative. */
  lemma GenerateFacts(policy: PasswordPolicy, rand: nat -> nat, start: nat, fuel: nat)
    requires |CharacterSet(policy)| > 0 && policy.minLength <= policy.maxLength
    ensures var r := Generate(policy, rand, start, fuel);
      r.Some? ==>
        && r.value.next > start
        && (forall c :: c in r.value.password ==> c in CharacterSet(policy))
        && (policy.minLength >= 0 ==>
              policy.minLength <= |r.value.password| <= policy.maxLength
              && MeetsPolicy(r.value.password, policy))
  {
    var len := ChosenLength(policy, rand, start);
    var accept := (pw: string) => Accepts(policy, pw);
    AttemptsFacts(accept, CharacterSet(policy), if len < 0 then 0 else len, rand, start + 1, fuel);
  }

  /** When an enabled category is required but has no character left in the
      set (it was wholly excluded), no attempt is ever accepted: the tool's
      loop does not terminate, and here every fuel bound is exhausted. */
  lemma MissingCategoryNeverAccepted(policy: PasswordPolicy, rand: nat -> nat, start: nat, fuel: nat, k: CharClass)
    requires |CharacterSet(policy)| > 0 && policy.minLength <= policy.maxLength
    requires policy.requireEachType && k in EnabledClasses(policy)
    requires forall c :: c in CharacterSet(policy) ==> ClassOf(c) != k
    ensures Generate(policy, rand, start, fuel) == None
  {
    var cs := CharacterSet(policy);
    var len := ChosenLength(policy, rand, start);
    var accept := (pw: string) => Accepts(policy, pw);
    forall pw: string | (forall c :: c in pw ==> c in cs) ensures !accept(pw) {
      ScanTypesMeaning(pw, {});
      RequiredAsSubset(pw, policy);
      assert !Has(pw, k) by {
        forall i | 0 <= i < |pw| ensures ClassOf(pw[i]) != k {
          assert pw[i] in cs;
        }
      }
    }
    AllRejected(accept, cs, if len < 0 then 0 else len, rand, start + 1, fuel);
  }

  /** Likewise when even maxLength is shorter than the number of required
      categories. */
  lemma TooShortNeverAccepted(policy: PasswordPolicy, rand: nat -> nat, start: nat, fuel: nat)
    requires |CharacterSet(policy)| > 0 && policy.minLength <= policy.maxLength
    requires 0 <= policy.minLength && policy.requireEachType && policy.maxLength < |EnabledClasses(policy)|
    ensures Generate(policy, rand, start, fuel) == None
  {
    var cs := CharacterSet(policy);
    var n: nat := ChosenLength(policy, rand, start);
    var accept := (pw: string) => Accepts(policy, pw);
    forall pw: string | |pw| == n ensures !accept(pw) {
      ShortPasswordsLackTypes(pw, policy);
    }
    AllRejected(accept, cs, n, rand, start + 1, fuel);
  }

  /** One attempt: `n` characters drawn from the oracle. */
  method DrawPassword(cs: string, rand: nat -> nat, start: nat, n: nat) returns (pw: string)
    requires |cs| > 0
    ensures pw == DrawChars(cs, rand, start, n)
  {
    pw := "";
    var j := 0;
    while j < n
      invariant 0 <= j <= n
      invariant pw == DrawChars(cs, rand, start, j)
    {
      pw := pw + [cs[rand(start + j) % |cs|]];
      j := j + 1;
    }
  }

  /** The do-while: whole passwords are drawn until one passes `accept`. */
  method RunAttempts(accept: string -> bool, cs: string, n: nat, rand: nat -> nat, start: nat, fuel: nat)
    returns (r: Option<Generated>)
    requires |cs| > 0
    ensures r == Attempts(accept, cs, n, rand, start, fuel)
  {
    var k: nat := start;
    var left := fuel;
    while left > 0
      invariant Attempts(accept, cs, n, rand, k, left) == Attempts(accept, cs, n, rand, start, fuel)
      decreases left
    {
      var pw := DrawPassword(cs, rand, k, n);
      if accept(pw) {
        return Some(Generated(pw, k + n));
      }
      k := k + n;
      left := left - 1;
    }
    r := None;
  }

  /** generatePassword: the length is drawn once, then whole passwords are
      drawn until one is accepted. The caller must supply a non-empty
      character set and minLength <= maxLength, which the tool assumes
      without checking. */
  method GeneratePassword(policy: PasswordPolicy, rand: nat -> nat, start: nat, fuel: nat) returns (r: Option<Generated>)
    requires |CharacterSet(policy)| > 0 && policy.minLength <= policy.maxLength
    ensures r == Generate(policy, rand, start, fuel)
    ensures r.Some? ==> r.value.next > start
    ensures r.Some? ==> forall c :: c in r.value.password ==> c in CharacterSet(policy)
    ensures r.Some? && policy.minLength >= 0 ==>
      policy.minLength <= |r.value.password| <= policy.maxLength && MeetsPolicy(r.value.password, policy)
  {
    var len := ChosenLength(policy, rand, start);
    r := RunAttempts((pw: string) => Accepts(policy, pw), CharacterSet(policy), if len < 0 then 0 else len, rand, start + 1, fuel);
    GenerateFacts(policy, rand, start, fuel);
  }

  /** `count` passwords from successive generatePassword calls, each call
      starting at the oracle position where the previous one stopped; None
      when one of them runs out of attempts. */
  function GenerateAll(count: nat, policy: PasswordPolicy, rand: nat -> nat, start: nat, fuel: nat): (r: Option<seq<string>>)
    requires |CharacterSet(policy)| > 0 && policy.minLength <= policy.maxLength
    ensures r.Some? ==> |r.value| == count
    decreases count
  {
    if count == 0 then Some([])
    else
      match Generate(policy, rand, start, fuel)
      case None => None
      case Some(g) => Prepend([g.password], GenerateAll(count - 1, policy, rand, g.next, fuel))
  }

  function Prepend(ps: seq<string>, o: Option<seq<string>>): Option<seq<string>> {
    match o
    case None => None
    case Some(rest) => Some(ps + rest)
  }

  /** What a generatePassword result guarantees: only set characters, and
      the policy met. */
  predicate Produced(pw: string, policy: PasswordPolicy) {
    && (forall c :: c in pw ==> c in CharacterSet(policy))
    && (policy.minLength >= 0 ==> MeetsPolicy(pw, policy))
  }

  /** Every chained password is a generatePassword result. */
  lemma {:induction false} GenerateAllFacts(count: nat, policy: PasswordPolicy, rand: nat -> nat, start: nat, fuel: nat)
    requires |CharacterSet(policy)| > 0 && policy.minLength <= policy.maxLength
    ensures var r := GenerateAll(count, policy, rand, start, fuel);
      r.Some? ==> forall i :: 0 <= i < |r.value| ==> Produced(r.value[i], policy)
    decreases count
  {
    var r := GenerateAll(count, policy, rand, start, fuel);
    if count > 0 && Generate(policy, rand, start, fuel).Some? {
      var g := Generate(policy, rand, start, fuel).value;
      GenerateFacts(policy, rand, start, fuel);
      assert Produced(g.password, policy);
      var rest := GenerateAll(count - 1, policy, rand, g.next, fuel);
      GenerateAllFacts(count - 1, policy, rand, g.next, fuel);
      assert r == Prepend([g.password], rest);
      if rest.Some? {
        assert r.value == [g.password] + rest.value;
        forall i | 0 <= i < |r.value| ensures Produced(r.value[i], policy) {
          if i == 0 {
            assert r.value[i] == g.password;
          } else {
            assert r.value[i] == rest.value[i - 1];
          }
        }
      }
    }
  }

  /** generatePasswords: `count` passwords drawn one after another from the
      same oracle (none for a negative count): the i-th is the password of
      the i-th chained generatePassword call; None when one of them runs out
      of attempts. */
  method GeneratePasswords(count: int, policy: PasswordPolicy, rand: nat -> nat, fuel: nat) returns (r: Option<seq<string>>)
    requires |CharacterSet(policy)| > 0 && policy.minLength <= policy.maxLength
    ensures r == GenerateAll(if count < 0 then 0 else count, policy, rand, 0, fuel)
    ensures r.Some? ==> |r.value| == (if count < 0 then 0 else count)
    ensures r.Some? ==> forall i :: 0 <= i < |r.value| ==>
      (forall c :: c in r.value[i] ==> c in CharacterSet(policy))
      && (policy.minLength >= 0 ==> MeetsPolicy(r.value[i], policy))
  {
    var n: nat := if count < 0 then 0 else count;
    var passwords: seq<string> := [];
    var next: nat := 0;
    var i := 0;
    PrependNothing(GenerateAll(n, policy, rand, 0, fuel));
    while i < n
      invariant 0 <= i <= n && |passwords| == i
      invariant GenerateAll(n, policy, rand, 0, fuel) == Prepend(passwords, GenerateAll(n - i, policy, rand, next, fuel))
    {
      var g := GeneratePassword(policy, rand, next, fuel);
      GenerateAllStep(n - i, policy, rand, next, fuel);
      if g.None? {
        r := None;
        return;
      }
      PrependTwice(passwords, [g.value.password], GenerateAll(n - i - 1, policy, rand, g.value.next, fuel));
      passwords := passwords + [g.value.password];
      next := g.value.next;
      i := i + 1;
    }
    r := Some(passwords);
    assert passwords + [] == passwords;
    GenerateAllFacts(n, policy, rand, 0, fuel);
  }

  /** One step of the chain: the first call, then the rest from where it
      stopped. */
  lemma GenerateAllStep(count: nat, policy: PasswordPolicy, rand: nat -> nat, start: nat, fuel: nat)
    requires |CharacterSet(policy)| > 0 && policy.minLength <= policy.maxLength
    requires count > 0
    ensures var g := Generate(policy, rand, start, fuel);
      GenerateAll(count, policy, rand, start, fuel)
        == if g.None? then None
           else Prepend([g.value.password], GenerateAll(count - 1, policy, rand, g.value.next, fuel))
  {
  }

  lemma PrependNothing(o: Option<seq<string>>)
    ensures Prepend([], o) == o
  {
    if o.Some? {
      assert [] + o.value == o.value;
    }
  }

  lemma PrependTwice(a: seq<string>, b: seq<string>, o: Option<seq<string>>)
    ensures Prepend(a, Prepend(b, o)) == Prepend(a + b, o)
  {
    if o.Some? {
      assert a + (b + o.value) == (a + b) + o.value;
    }
  }
}
