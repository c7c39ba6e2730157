# A verified model of the RDP user-provisioning core

The repository is a Qt desktop tool. It turns a list of Ukrainian names into
directory (Active Directory) users on remote-desktop servers. It normalises the
names, transliterates them to Latin logins, checks each field, generates
passwords, and keeps its settings and server records as JSON trees.

This Dafny project models the logic under that tool: everything that is string,
list or JSON-tree processing. Each source file of that core becomes one module:

| module | models |
|---|---|
| `Chars` | the `QChar` predicates and case mapping, over ASCII plus the Ukrainian Cyrillic letters |
| `Text` | `QString::split` (with and without empty parts), `join`, `simplified`, `toLower`/`toUpper`, decimal numbers |
| `Options` | the optional value used for error paths |
| `Sets` | one shared fact about finite sets |
| `JsonValue` | `QJsonValue`/`QJsonObject`, with their lenient conversions |
| `JsonHelper` | `src/utils/JsonHelper.cpp` |
| `StringUtils` | `src/utils/StringUtils.cpp` |
| `PasswordGenerator` | `src/services/PasswordGenerator.cpp` |
| `DataValidator` | `src/utils/DataValidator.cpp` |
| `NormalizedUsers` | `src/models/NormalizedUser.cpp` |
| `UserInfos` | `src/models/UserInfo.cpp` |
| `ServerInfos` | `src/models/ServerInfo.cpp` |
| `ConfigManager` | the in-memory part of `src/services/ConfigManager.cpp` |
| `ADManager` | the login-uniqueness and DN-string part of `src/services/ADManager.cpp` |
| `LLMService` | the request and reply structure of `src/services/LLMService.cpp` |
| `ServerTree` | the environment heuristic and grouping of `src/ui/ServerTreeWidget.cpp` |

Objects with mutable fields become immutable datatypes, and each setter becomes
a datatype update. The validators' thread-local "last error" is threaded through
explicitly: each check takes the previous error and returns a `Checked(ok,
lastError)` pair.

The model treats several things as parameters:

- Randomness is an index oracle `rand: nat -> nat`.
- The JSON text parser is a function `string -> Option<Json>`.
- The directory's "does this login exist" query is a connection flag plus a finite set of taken logins.

## Model

| member | source | states |
|---|---|---|
| `Chars.ToUpper` | src/utils/StringUtils.cpp:213 | upper-casing maps lower-case letters to upper-case ones, leaves everything else alone and keeps ASCII letters ASCII |
| `Chars.CaseMappingFacts` | src/utils/StringUtils.cpp:213-218 | lower- and upper-casing undo each other on letters of the modelled alphabet |
| `Text.Tokens` | src/models/NormalizedUser.cpp:15 | splitting with empty parts skipped yields non-empty, separator-free tokens |
| `Text.TokensOfJoin` | src/models/NormalizedUser.cpp:15-26 | splitting the single-separator join of separator-free, non-empty words gives the words back |
| `Text.WordsOfSimplified` | src/utils/StringUtils.cpp:172-174 | `simplified` keeps the whitespace-separated words exactly, and its result splits at single spaces into those words |
| `Text.SimplifiedIdempotent` | src/utils/StringUtils.cpp:172-174 | simplifying twice equals simplifying once |
| `Text.SimplifiedShape` | src/utils/StringUtils.cpp:172-174 | a simplified string has no leading, trailing or doubled whitespace and no whitespace other than plain spaces |
| `Text.SplitAllJoin` | src/utils/DataValidator.cpp:137 | splitting with empty parts kept is the inverse of joining on the same separator |
| `Text.NatToString` | src/models/UserInfo.cpp:34 | the decimal form of n is a non-empty digit string whose value is n |
| `Text.NatToStringInjective` | src/services/ADManager.cpp:464 | different numbers have different decimal forms |
| `JsonHelper.TypedGetters` | src/utils/JsonHelper.cpp:31-50 | getString/getInt/getBool give the stored value when the key holds that type and the caller's default when the key is missing or holds another type |
| `JsonHelper.GetStringArray` | src/utils/JsonHelper.cpp:52-65 | a missing or non-array key gives []; otherwise every string element of the array is returned and nothing else is |
| `JsonHelper.StringsIsFilter` | src/utils/JsonHelper.cpp:52-65 | one element reads as its string or as nothing, and the strings of a concatenation are the concatenation of the strings, so every string element is kept in order |
| `JsonHelper.GetStringArrayOrder` | src/utils/JsonHelper.cpp:52-65 | each element's string, if it is one, comes out after the strings of the elements before it and before those of the elements after it |
| `JsonHelper.StringsOfStrings` | src/utils/JsonHelper.cpp:52-65 | an array of strings reads back as those strings in order, and one non-string element at the front, the end or between two string runs is skipped without disturbing the rest |
| `JsonHelper.GetAtSetAt` | src/utils/JsonHelper.cpp:67-105 | after storing an object at a non-empty path, reading that path, or any path extending it, sees the stored object |
| `JsonHelper.SetAtFrame` | src/utils/JsonHelper.cpp:91-102 | storing at a path leaves every path that is neither its prefix nor its extension unchanged |
| `JsonHelper.SetAt` | src/utils/JsonHelper.cpp:91-102 | a set keeps every sibling key of the path at the top level, and makes the path's first step an object even when it was missing or not an object |
| `JsonHelper.SetThenGet` | src/utils/JsonHelper.cpp:67-105 | getObjectAtPath after setObjectAtPath on the same path returns the stored object; other disjoint paths read as before |
| `JsonHelper.SplitSkipsEmptySegments` | src/utils/JsonHelper.cpp:68 | doubled and trailing separators in a path produce no empty segment |
| `JsonHelper.EmptySegmentsIgnored` | src/utils/JsonHelper.cpp:68-88 | "a//b" and "a/b", "a/" and "a" address the same object for both get and set |
| `JsonHelper.EmptyPath` | src/utils/JsonHelper.cpp:67-88 | an empty path reads the root and a set with it replaces the whole root |
| `StringUtils.TableImages` | src/utils/StringUtils.cpp:6-75 | every table image is at most four ASCII letters |
| `StringUtils.TableSamples` | src/utils/StringUtils.cpp:6-75 | Ь/ь map to "", Щ/щ to "Shch"/"shch", Є Ї Ю Я to two Latin letters, and Г and Ґ both to "G" |
| `StringUtils.UkrCharsListed` | src/utils/StringUtils.cpp:190 | the Ukrainian character set is exactly the listed 66 letters plus the apostrophe |
| `StringUtils.UkrCharsInTable` | src/utils/StringUtils.cpp:6-75 | every letter of the set but the apostrophe has a table entry; no ASCII letter, digit, whitespace or hyphen is in the set |
| `StringUtils.TransliterateUkrToLatin` | src/utils/StringUtils.cpp:77-86 | every output character is an input character or an ASCII letter, and the output is at most four times as long |
| `StringUtils.TransliterateConcat` | src/utils/StringUtils.cpp:77-86 | transliteration works character by character: it distributes over concatenation |
| `StringUtils.TransliterateIdentity` | src/utils/StringUtils.cpp:77-86 | text with no table character comes back unchanged |
| `StringUtils.TransliterateTableText` | src/utils/StringUtils.cpp:6-86 | text made only of table characters becomes ASCII letters only |
| `StringUtils.LatinToUkrIsNotAnInverse` | src/utils/StringUtils.cpp:89-95 | transliterateLatinToUkr returns its input, so it does not undo transliterateUkrToLatin ("Ш" gives "Sh" and stays "Sh") |
| `StringUtils.SanitizeLoginName` | src/utils/StringUtils.cpp:146-157 | the result has only letters and digits, and input made of letters and digits is kept as is |
| `StringUtils.SanitizeIsFilter` | src/utils/StringUtils.cpp:146-157 | sanitising keeps exactly the letter/digit characters in order (a filter: one character at a time, over concatenation) and is idempotent |
| `StringUtils.GenerateLoginFromName` | src/utils/StringUtils.cpp:136-144 | the generated login contains only letters and digits |
| `StringUtils.GenerateLoginAscii` | src/utils/StringUtils.cpp:136-144 | a Ukrainian first and last name give a login of ASCII letters only |
| `StringUtils.GenerateLoginShch` | src/utils/StringUtils.cpp:136-144 | an initial Щ yields the four-letter prefix "SHCH"; there is no lower-casing or length cap |
| `StringUtils.GenerateLoginLatin` | src/utils/StringUtils.cpp:136-144 | an empty first name and a Latin last name give the last name unchanged |
| `StringUtils.RemoveSpecialCharacters` | src/utils/StringUtils.cpp:176-186 | the result keeps only letters, digits and, when asked, whitespace, and every such character of the input appears in it |
| `StringUtils.RemoveSpecialCharactersIsFilter` | src/utils/StringUtils.cpp:176-186 | one character is kept exactly when it is a letter, a digit or (when asked) whitespace, and the result distributes over concatenation, so the kept characters of mixed text stay in order |
| `StringUtils.RemoveSpecialCharactersFacts` | src/utils/StringUtils.cpp:146-186 | without spaces it equals sanitizeLoginName; text of letters, digits and whitespace is kept unchanged when spaces are kept |
| `StringUtils.IsValidUkrainianName` | src/utils/StringUtils.cpp:188-203 | true iff every character is whitespace or in the Ukrainian set and at least one is in the set |
| `StringUtils.UkrainianNameRejects` | src/utils/StringUtils.cpp:188-203 | blank input, a hyphen, an ASCII letter or a digit make the check fail |
| `StringUtils.HyphenatedNameRejected` | src/utils/StringUtils.cpp:188-203 | "Іван-Петро" is rejected |
| `StringUtils.SpacedNameAccepted` | src/utils/StringUtils.cpp:188-203 | "Мар'яна Ярош" is accepted |
| `StringUtils.Capitalize` | src/utils/StringUtils.cpp:211-219 | a word keeps its length, its first character is upper-cased and every later one (hyphen segments included) lower-cased |
| `StringUtils.NormalizeUkrainianNameFacts` | src/utils/StringUtils.cpp:205-223 | the result's words are the capitalised input words, it is already simplified, and normalising twice equals normalising once |
| `StringUtils.CamelFromSpec` | src/utils/StringUtils.cpp:97-111 | the camel-case scan agrees with the position-wise reference at every starting point |
| `StringUtils.ToCamelCaseSpec` | src/utils/StringUtils.cpp:97-111 | toCamelCase keeps only letters/digits in order, upper-casing a kept character iff the preceding input character was dropped (or it is first and capitalizeFirstLetter) |
| `StringUtils.CollapseRuns` | src/utils/StringUtils.cpp:113-128 | after the second pass only [a-z0-9] and single underscores remain |
| `StringUtils.ToSnakeCase` | src/utils/StringUtils.cpp:113-128 | snake case has only [a-z0-9_] and never two underscores in a row |
| `StringUtils.CollapseRunsKeepsContent` | src/utils/StringUtils.cpp:124-125 | collapsing runs keeps every [a-z0-9] character, in order |
| `StringUtils.SnakeMarksKeepsContent` | src/utils/StringUtils.cpp:116-122 | the first pass adds only underscores: its [a-z0-9] characters are those of the lower-cased input |
| `StringUtils.ToSnakeCaseContent` | src/utils/StringUtils.cpp:113-128 | the [a-z0-9] characters of the result are those of the lower-cased input, in order; [a-z0-9] text is returned unchanged; "HelloWorld" gives "hello_world" |
| `StringUtils.ToKebabCase` | src/utils/StringUtils.cpp:130-134 | kebab case is snake case with each '_' replaced by '-' and every other character kept |
| `PasswordGenerator.ClassOfMeaning` | src/services/PasswordGenerator.cpp:184-201 | each character has one class, and anything that is not lower, upper or digit counts as a symbol |
| `PasswordGenerator.NoLookAlikes` | src/services/PasswordGenerator.cpp:160-170 | none of l, I, O, 0, 1 is in any of the four fixed alphabets |
| `PasswordGenerator.CharacterSet` | src/services/PasswordGenerator.cpp:157-182 | a character is in the set iff an enabled alphabet has it and it is not excluded |
| `PasswordGenerator.RemoveCharsIsFilter` | src/services/PasswordGenerator.cpp:176-179 | removing the excluded characters one after another is the single filter "keep what is not excluded", in order |
| `PasswordGenerator.CharacterSetFacts` | src/services/PasswordGenerator.cpp:157-182 | the set is the enabled alphabets in order lower/upper/digit/symbol minus the exclusions; it never holds a look-alike and is empty when no category is enabled |
| `PasswordGenerator.ScanTypesMeaning` | src/services/PasswordGenerator.cpp:184-201 | the scan collects exactly the classes that occur |
| `PasswordGenerator.HasRequiredTypesMeaning` | src/services/PasswordGenerator.cpp:184-201 | true iff each enabled category has a witness character |
| `PasswordGenerator.ShortPasswordsLackTypes` | src/services/PasswordGenerator.cpp:184-201 | a password shorter than the number of enabled categories cannot have them all |
| `PasswordGenerator.MeetsPolicy` | src/services/PasswordGenerator.cpp:140-155 | true iff the length is within [min, max], no excluded character occurs, and each type is present when required |
| `PasswordGenerator.Clamp` | src/services/PasswordGenerator.cpp:136-137 | the score is in [0, 100]: values in range are kept, negative values become 0 and values above 100 become 100, so the result is the nearest point of [0, 100] |
| `PasswordGenerator.CountSameTypePairs` | src/services/PasswordGenerator.cpp:111-124 | the loop counts the adjacent lower-lower, upper-upper and digit-digit pairs |
| `PasswordGenerator.CountCharacters` | src/services/PasswordGenerator.cpp:127-130 | the count map has exactly the password's characters as keys and each one's number of occurrences |
| `PasswordGenerator.SumRepeats` | src/services/PasswordGenerator.cpp:132-134 | the penalty is the sum of k over characters occurring k > 1 times |
| `PasswordGenerator.CalculateStrength` | src/services/PasswordGenerator.cpp:81-137 | the score is the clamped sum of length, class bonuses, interior non-letters and the two penalties; it lies in [0, 100] and the empty string scores 0 |
| `PasswordGenerator.DoubledLetterScore` | src/services/PasswordGenerator.cpp:84-137 | "aa" pays 2 for the repeat (k, not k-1) and scores 9 |
| `PasswordGenerator.NoRepeatNoPenalty` | src/services/PasswordGenerator.cpp:126-134 | without a repeated character there is no repeat penalty |
| `PasswordGenerator.ChosenLength` | src/services/PasswordGenerator.cpp:33 | the drawn length lies in [minLength, maxLength] |
| `PasswordGenerator.DrawChars` | src/services/PasswordGenerator.cpp:45-63 | a draw has the requested length and every character comes from the set at the drawn index |
| `PasswordGenerator.AttemptsFacts` | src/services/PasswordGenerator.cpp:37-66 | an accepted attempt has the drawn length, passes the acceptance test and uses only set characters |
| `PasswordGenerator.AllRejected` | src/services/PasswordGenerator.cpp:37-66 | when no string over the set passes, no attempt is ever accepted |
| `PasswordGenerator.GenerateFacts` | src/services/PasswordGenerator.cpp:29-69 | a generated password uses only the character set, has a length within the policy and meets the policy |
| `PasswordGenerator.MissingCategoryNeverAccepted` | src/services/PasswordGenerator.cpp:37-66 | when exclusions empty an enabled required category, the loop never accepts |
| `PasswordGenerator.TooShortNeverAccepted` | src/services/PasswordGenerator.cpp:37-66 | when maxLength is below the number of required categories, the loop never accepts |
| `PasswordGenerator.GeneratePassword` | src/services/PasswordGenerator.cpp:29-69 | with a non-empty set and min ≤ max, a returned password has a length within the policy, uses only set characters and meets the policy |
| `PasswordGenerator.GenerateAllFacts` | src/services/PasswordGenerator.cpp:71-79 | every password of a chain of generatePassword calls uses only set characters and meets the policy |
| `PasswordGenerator.GeneratePasswords` | src/services/PasswordGenerator.cpp:71-79 | returns max(count, 0) passwords; the i-th is the password of the i-th generatePassword call, each call starting at the oracle position where the previous one stopped; each uses only set characters and meets the policy |
| `DataValidator.AllMatch` | src/utils/DataValidator.cpp:21-22 | true iff every character satisfies the class |
| `DataValidator.IsValidLogin` | src/utils/DataValidator.cpp:7-34 | accepts iff 1 ≤ length ≤ 20, all characters in [A-Za-z0-9_-] and the first an ASCII letter; each failure reports the first failing rule's message and success keeps the previous error |
| `DataValidator.LoginStartsWithAsciiLetter` | src/utils/DataValidator.cpp:7-34 | an accepted login begins with an ASCII letter |
| `DataValidator.LoginExamples` | src/utils/DataValidator.cpp:7-34 | "1abc" fails with the starts-with message, "abc_1" passes, "ab c" fails with the characters message |
| `DataValidator.IsValidFullName` | src/utils/DataValidator.cpp:36-64 | accepts iff not blank, at most 64 characters, at least two space-separated words and only letters, whitespace, ' and -; each failure has its own message |
| `DataValidator.OneWordIsNotAFullName` | src/utils/DataValidator.cpp:36-64 | a single word is rejected |
| `DataValidator.TwoWordsAreAFullName` | src/utils/DataValidator.cpp:36-64 | two letter-only words joined by a space are accepted |
| `DataValidator.IsValidPassword` | src/utils/DataValidator.cpp:66-98 | accepts iff non-empty, at least minLength long and with an upper-case letter, a lower-case letter and a digit; a symbol is never required |
| `DataValidator.PasswordTooShortExample` | src/utils/DataValidator.cpp:74-77 | a short password reports "Password must be at least 8 characters long" |
| `DataValidator.PasswordComplexityExample` | src/utils/DataValidator.cpp:66-98 | "Ab1" passes with minimum 3 and "ab1" fails for lack of an upper-case letter |
| `DataValidator.IsValidServerName` | src/utils/DataValidator.cpp:100-127 | accepts iff 1 to 15 characters from [A-Za-z0-9-] that neither start nor end with '-' |
| `DataValidator.IsValidDomainName` | src/utils/DataValidator.cpp:129-145 | accepts iff there are at least two dot-separated labels, each non-empty over [A-Za-z0-9-] and starting and ending with a letter or digit |
| `DataValidator.DomainNameBySegments` | src/utils/DataValidator.cpp:129-145 | the segment-wise check agrees with "is the join of a valid label sequence" |
| `DataValidator.TwoLabelsAreADomainName` | src/utils/DataValidator.cpp:129-145 | two valid labels joined by a dot form a valid domain name |
| `DataValidator.MalformedDomainNames` | src/utils/DataValidator.cpp:129-145 | a single label, a doubled dot, a leading dot and a trailing dot are all rejected |
| `DataValidator.IsValidDistinguishedName` | src/utils/DataValidator.cpp:147-162 | accepts iff non-empty and containing both '=' and ','; each failure has its own message |
| `DataValidator.InvalidLines` | src/utils/DataValidator.cpp:176-181 | the report has at most one line per user |
| `DataValidator.InvalidLinesEmpty` | src/utils/DataValidator.cpp:176-181 | the report is empty iff every user is valid |
| `DataValidator.InvalidLinesConcat` | src/utils/DataValidator.cpp:176-181 | each invalid user contributes exactly its own "original: error" line, in list order |
| `DataValidator.ValidateNormalizedUsers` | src/utils/DataValidator.cpp:168-189 | an empty list fails with "No users to validate"; otherwise passes iff every user is valid, keeping the previous error, and fails with a report listing exactly the invalid users |
| `NormalizedUsers.Default` | src/models/NormalizedUser.cpp:4-5 | a default record is invalid with every string empty |
| `NormalizedUsers.Parse` | src/models/NormalizedUser.cpp:13-38 | the names given are kept, and parsing never turns a valid record invalid |
| `NormalizedUsers.ParseSplitsName` | src/models/NormalizedUser.cpp:15-31 | with two or more words the record becomes valid, the first word is the first name, the rest joined by single spaces is the last name, and the login is the upper-cased initial followed by the last name verbatim |
| `NormalizedUsers.EmptyPartUnreachable` | src/models/NormalizedUser.cpp:15-33 | the "first or last name is empty" branch cannot be taken, since splitting skips empty parts |
| `NormalizedUsers.ParseCouldNotSplit` | src/models/NormalizedUser.cpp:35-36 | with fewer than two words only the error message changes |
| `NormalizedUsers.ParseIdempotent` | src/models/NormalizedUser.cpp:13-38 | re-parsing a parsed record changes nothing, so validity persists |
| `NormalizedUsers.SingleWordInvalid` | src/models/NormalizedUser.cpp:35-36 | "Ivan" alone gives the could-not-split error |
| `NormalizedUsers.MultiWordSurname` | src/models/NormalizedUser.cpp:25-31 | a two-word surname stays in the last name with its space, and the space is kept in the login |
| `UserInfos.Default` | src/models/UserInfo.cpp:4 | a default user is active with every string empty |
| `UserInfos.Create` | src/models/UserInfo.cpp:7-19 | the user is active; the first name is the first word and the last name the last word, one word leaves the last name empty, none leaves both empty |
| `UserInfos.SplitRulesDiffer` | src/models/UserInfo.cpp:11-14 | the same first name as NormalizedUser, and the same last name exactly when there are two words |
| `UserInfos.DisplayName` | src/models/UserInfo.cpp:21-26 | the login alone without a full name; otherwise the full name can be read back as the prefix and the login as the text inside the closing " (…)" |
| `UserInfos.DisplayNameDistinguishes` | src/models/UserInfo.cpp:21-26 | two users with one login and non-empty full names show the same display name only if the full names agree |
| `UserInfos.RdpConnectionStringParses` | src/models/UserInfo.cpp:28-36 | the connection string is login:password@host:port, the host being the argument if given and the stored server otherwise; cutting at '@' and ':' recovers the four fields |
| `ServerInfos.Default` | src/models/ServerInfo.cpp:4 | a default server has port 3389, environment "dev" and nothing else |
| `ServerInfos.Create` | src/models/ServerInfo.cpp:7-9 | the two-argument constructor is the default with name and DN set |
| `ServerInfos.AddUser` | src/models/ServerInfo.cpp:11-15 | the name ends up listed; existing entries keep their order; it adds at most one entry and never a duplicate; nothing else changes |
| `ServerInfos.AddUserIdempotent` | src/models/ServerInfo.cpp:11-15 | adding twice equals adding once, and adding a listed name changes nothing |
| `ServerInfos.RemoveOne` | src/models/ServerInfo.cpp:17-19 | a name that is absent leaves the list as it is; a present one makes it one shorter |
| `ServerInfos.FirstIndexOf` | src/models/ServerInfo.cpp:17-19 | the position found holds the name and no earlier position does |
| `ServerInfos.RemoveOneRemovesFirst` | src/models/ServerInfo.cpp:17-19 | exactly the first occurrence is removed, the others stay in order |
| `ServerInfos.RemoveUser` | src/models/ServerInfo.cpp:17-19 | reports true iff the name was listed; an unlisted name changes nothing; a listed one has its first occurrence cut out of the list, and no other field changes |
| `ServerInfos.RemoveUserNoDuplicates` | src/models/ServerInfo.cpp:17-19 | in a duplicate-free list the name disappears and every other name stays |
| `ServerInfos.AddThenRemove` | src/models/ServerInfo.cpp:11-19 | adding an unlisted name and removing it restores the server and reports success |
| `ServerInfos.ToJson` | src/models/ServerInfo.cpp:21-40 | the object has exactly the seven documented keys |
| `ServerInfos.FromJson` | src/models/ServerInfo.cpp:42-63 | the port is the stored integer or 3389, and the list has one entry per array element |
| `ServerInfos.FromToJson` | src/models/ServerInfo.cpp:21-63 | reading back the JSON form gives the same server, field by field |
| `ServerInfos.FromJsonDefaults` | src/models/ServerInfo.cpp:42-63 | an empty object reads as the default server, and a non-string list entry reads as "" |
| `ConfigManager.PlaceInverse` | src/services/ConfigManager.cpp:79-565 | every setting is found again from its section and key |
| `ConfigManager.PlacesAreDistinct` | src/services/ConfigManager.cpp:79-565 | two settings never share a section and key, and none lives in the password policy section |
| `ConfigManager.Get` | src/services/ConfigManager.cpp:79-86 | a getter returns the stored value when its section is an object and its key holds the right type, and its hard-coded default otherwise |
| `ConfigManager.Set` | src/services/ConfigManager.cpp:115-137 | a setter adds only its section to the top-level keys and leaves every other section unchanged |
| `ConfigManager.SetterStylesAgree` | src/services/ConfigManager.cpp:202-258 | the setters that first reset a missing or malformed section and those that do not behave alike |
| `ConfigManager.SetThenGet` | src/services/ConfigManager.cpp:106-137 | a getter returns the value its setter stored |
| `ConfigManager.SetFrame` | src/services/ConfigManager.cpp:115-137 | a setter changes no other getter and not the password policy |
| `ConfigManager.GetPasswordPolicy` | src/services/ConfigManager.cpp:260-266 | {} when the section is absent or not an object |
| `ConfigManager.SetPasswordPolicy` | src/services/ConfigManager.cpp:268-270 | storing a policy changes no other getter |
| `ConfigManager.SetThenGetPasswordPolicy` | src/services/ConfigManager.cpp:260-270 | the policy read back is the one stored |
| `ConfigManager.DefaultsRead` | src/services/ConfigManager.cpp:298-352 | after construction every getter returns the value in the default tree; the domain is "example.local" although its getter's own fallback is "" |
| `ConfigManager.DefaultExamples` | src/services/ConfigManager.cpp:298-352 | the default model is "gpt-4" and the maximum login length 20 |
| `ConfigManager.DefaultPasswordPolicy` | src/services/ConfigManager.cpp:321-330 | the default policy has lengths 12 ≤ 16, all four categories, exclusions "0O1lI" and requireEachType, as the generator's default |
| `ADManager.AsciiAlnumOnly` | src/services/ADManager.cpp:457 | removal of [^a-zA-Z0-9] keeps only ASCII letters and digits, and keeps strings already of that form |
| `ADManager.CandidatesDistinct` | src/services/ADManager.cpp:460-465 | base, base1, base2, … are pairwise different even after lower-casing |
| `ADManager.Probed` | src/services/ADManager.cpp:460-465 | the first k lower-cased candidates form a set of exactly k names |
| `ADManager.FirstFreeUnique` | src/services/ADManager.cpp:463-465 | there is only one "first free" position |
| `ADManager.GenerateUniqueLogin` | src/services/ADManager.cpp:447-468 | "" when disconnected; otherwise the first candidate that is not taken, every earlier one taken, reached after at most as many probes as there are taken logins |
| `ADManager.CyrillicNamesVanish` | src/services/ADManager.cpp:454-457 | a Cyrillic name leaves an empty base login: it is deleted, not transliterated |
| `ADManager.LatinNameBase` | src/services/ADManager.cpp:454-457 | a Latin name gives the upper-cased initial followed by the last name |
| `ADManager.MockExamples` | src/services/ADManager.cpp:429-445 | lookup is case-insensitive: "User1" is taken, "User11" is the first free candidate for it, and "Devuser" is free |
| `ADManager.BuildUserDN` | src/services/ADManager.cpp:486-491 | with an "LDAP://d" domain the user DN is "CN=login,OU=server,d" |
| `ADManager.BuildServerGroupDN` | src/services/ADManager.cpp:493-498 | with an "LDAP://d" domain the group DN is "CN=server-Group,OU=server,d" |
| `ADManager.BuildServerOUDN` | src/services/ADManager.cpp:500-504 | with an "LDAP://d" domain the OU DN is "OU=server,d" |
| `ADManager.BuiltNamesAreDistinguishedNames` | src/services/ADManager.cpp:486-504 | every built name passes the distinguished-name check |
| `ADManager.UserDNInsideServerOU` | src/services/ADManager.cpp:486-504 | the user DN is "CN=login," followed by the server's OU DN |
| `ADManager.EnvironmentOf` | src/services/ADManager.cpp:116-117 | "dev" iff the lower-cased name contains "dev", "prod" iff it contains neither "dev" nor "test", "test" otherwise |
| `ADManager.EnvironmentExamples` | src/services/ADManager.cpp:116-117 | DEVSERVER is dev, TESTSERVER test and SERVER01 prod |
| `LLMService.BuildPrompt` | src/services/LLMService.cpp:75-119 | the request carries the model and exactly two messages, system then user; the user content is the fixed head, the raw list verbatim, then the fixed tail |
| `LLMService.PromptDeterminesList` | src/services/LLMService.cpp:75-119 | two requests for one model are equal exactly when their lists are |
| `LLMService.ChoiceContent` | src/services/LLMService.cpp:124-136 | there is no content exactly when "choices" is absent, not an array or empty |
| `LLMService.UserOf` | src/services/LLMService.cpp:146-156 | each user is marked valid with no error; a non-object element gives a user with every name empty |
| `LLMService.ParseResponseErrorPaths` | src/services/LLMService.cpp:121-145 | a reply without "choices", or whose first choice's text is not JSON or not a JSON array, yields no user |
| `LLMService.ParsedUsersAreValid` | src/services/LLMService.cpp:155 | every parsed user is valid, so the user-list validation reports no invalid user |
| `LLMService.UserOfUserJson` | src/services/LLMService.cpp:150-154 | a valid user with no error survives the trip through its five-key object |
| `LLMService.ParseResponseRoundTrip` | src/services/LLMService.cpp:121-161 | a reply whose content parses to the users' objects gives exactly those users back |
| `LLMService.NonObjectElementGivesEmptyUser` | src/services/LLMService.cpp:147-156 | a non-object array element still yields one user, with every name empty |
| `LLMService.IsValidUkrainianName` | src/services/LLMService.cpp:163-175 | true iff every character is whitespace, punctuation or in the Ukrainian set; the empty string passes |
| `LLMService.ServiceCheckIsWeaker` | src/services/LLMService.cpp:163-175 | every name the StringUtils check accepts passes here too, while "" and a hyphenated name pass only here |
| `LLMService.NormalizeUkrainianName` | src/services/LLMService.cpp:177-180 | the words are kept exactly and the result splits at single spaces into them |
| `LLMService.NormalizeIdempotent` | src/services/LLMService.cpp:177-180 | normalising twice equals normalising once |
| `ServerTree.EnvironmentOf` | src/ui/ServerTreeWidget.cpp:131-143 | always prod, test or dev; prod iff "prod" or "prd" occurs (this wins), test iff not prod and "test", "tst" or "stg" occurs |
| `ServerTree.EnvironmentRulesDisagree` | src/ui/ServerTreeWidget.cpp:131-143 | the tree and the directory classify "proddev" and "stg1" differently |
| `ServerTree.ServersIn` | src/ui/ServerTreeWidget.cpp:39-52 | a group holds exactly the servers of its environment |
| `ServerTree.ServersInConcat` | src/ui/ServerTreeWidget.cpp:39-52 | grouping keeps insertion order (the displayed order is sorted) |
| `ServerTree.ClearAsWrittenKeepsOdd` | src/ui/ServerTreeWidget.cpp:25-36 | the clear loop as written leaves the n / 2 children at odd positions |
| `ServerTree.ClearAsWrittenCounterexample` | src/ui/ServerTreeWidget.cpp:25-28 | of two children, the one at position 1 is still there after the clear |
| `ServerTree.SetServersAsWritten` | src/ui/ServerTreeWidget.cpp:23-52 | setServers as written: each group keeps its old children at odd positions, followed by the given servers of its environment in insertion order (the displayed order is sorted) |
| `ServerTree.StaleServerSurvives` | src/ui/ServerTreeWidget.cpp:23-52 | reloading with no servers still shows a stale one |
| `ServerTree.ClearDown` | src/ui/ServerTreeWidget.cpp:25-36 | removing from the last position down leaves exactly the children not yet visited |
| `ServerTree.Clear` | src/ui/ServerTreeWidget.cpp:24-36 | the corrected clear leaves no child |
| `ServerTree.SetServers` | src/ui/ServerTreeWidget.cpp:23-52 | setServers with the clear corrected (see Findings): each group holds exactly the given servers of its environment, in insertion order (the displayed order is sorted) |
| `ServerTree.SetServersPartitions` | src/ui/ServerTreeWidget.cpp:39-52 | every server is in the group of its environment and the group sizes add up to the number of servers |
| `ServerTree.SetServersSeparates` | src/ui/ServerTreeWidget.cpp:39-52 | no server is listed under a group other than its environment's |
| `ServerTree.SetServersForgetsOld` | src/ui/ServerTreeWidget.cpp:23-52 | with the corrected clear, the groups do not depend on what was shown before |

## Left out

- Features the code does not have, and the model does not add:
  - transliterateLatinToUkr returns its input, with no Latin→Cyrillic mapping.
  - The password character set has no fallback when empty.
  - meetsPolicy has no weak-substring check.
  - sanitizeLoginName neither lower-cases nor truncates.
  - normalizeUkrainianName does not capitalise after hyphens.
  - generateUniqueLogin has no retry cap.
- Strings are sequences of Unicode scalar values, not UTF-16 code units. Every length and every per-character scan counts scalars: the 20-, 64- and 15-character limits of DataValidator, the minimum password length, and the length, pair and repeat terms of calculateStrength. Text outside the Basic Multilingual Plane is therefore measured differently: Qt counts each such character as two `QChar`s.
- Qt's `QChar` predicates and case mapping are modelled over ASCII, Latin-1 spaces and the Ukrainian Cyrillic letters only. Other Unicode letters, digits and punctuation are treated as none of those.
- `removeAccents` (Unicode NFD decomposition) is not modelled.
- Regular expressions are modelled as whole-string character-class checks:
  - The PCRE corner where `$` also matches before a final newline is not modelled.
  - `\s` is taken as ASCII whitespace.
  - `\p{L}` is taken as the modelled letters.
- `DataValidator::isValidUkrainianName` only delegates to `StringUtils.IsValidUkrainianName`, and has no separate member.
- Randomness: `rand` is an oracle, and a draw in [0, n) is `rand(k) % n`. The CryptoAPI and QRandomGenerator sources, seeding and modulo bias are not modelled.
- PasswordGenerator.Generate: the do-while rejection loop is bounded by a `fuel` count and yields None when the fuel runs out. Termination of the source loop for policies that can be met is therefore not stated.
- PasswordGenerator.GeneratePassword: requires a non-empty character set and minLength ≤ maxLength. The source divides by zero on an empty set and draws from an empty range otherwise.
- JSON numbers are integers: fractional values and the 32-bit range of `toInt` are not modelled. The `temperature` field of the LLM request (a floating-point 0.1) is not modelled.
- JSON text parsing and printing, file loading and saving, and the default configuration path are I/O and are not modelled:
  - JsonHelper jsonToString, stringToJson, loadFromFile and saveToFile;
  - ConfigManager loadConfig, saveConfig and getDefaultConfigPath.
- `include/services/ConfigManager.h` declares fewer accessors than the .cpp defines. The model follows the .cpp.
- The network exchange of LLMService (processUserList, handleNetworkReply) is not modelled, nor are the signals it emits.
- The ADSI/COM layer of ADManager is not modelled: connecting, object binding, attribute get/set, server and user queries, metadata. The mock lists appear only as the set of taken logins. On a build without Windows, userExists is always false, which is the empty set.
- ADManager.BuildUserDN: requires that no argument but the last contains '%'. Chained `QString::arg` would read such a character as a placeholder.
- ADManager.BuildServerGroupDN: requires no '%' in the server name, for the same reason.
- ADManager.BuildServerOUDN: requires no '%' in the server name, for the same reason.
- JsonHelper.GetObjectAtPath and JsonHelper.SetObjectAtPath: the separator is a single character. The source takes a string with "/" as its default; multi-character and empty separators are not modelled.
- UserInfo's creation and last-login timestamps (`QDateTime`) are not modelled.
- The setters of UserInfo and ServerInfo are not modelled separately. Each is a datatype update, which changes only its own field by construction.
- The tree widget itself is not modelled: items, icons, sorting, expansion, selection and context menu. A group is the sequence of server names added to it.

## Findings

| source | as written | input that shows it | evidently intended | confidence | as-written member | corrected member |
|---|---|---|---|---|---|---|
| src/ui/ServerTreeWidget.cpp:25-36 | `removeChild(child(i))` inside a loop whose `i` also advances, so every removal shifts the next child into the slot just visited | a group showing two servers, then `setServers` with any list: one of the two stays; of n stale children, n / 2 (rounded down) survive | every previously shown server removed before the new list is added | high, not executed | `ServerTree.ClearAsWrittenCounterexample` | `ServerTree.Clear` |
