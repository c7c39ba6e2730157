/**
  LLMService: the request sent to a chat-completion service to normalise a
  list of Ukrainian names, and the structural walk of its reply into
  NormalizedUser records. The network exchange is not modelled, and the
  reply text is turned into JSON by a parser passed in as a function.
 */
module LLMService {
  import opened Chars
  import opened Text
  import opened Options
  import opened JsonValue
  import opened NormalizedUsers
  import StringUtils
  import DataValidator

  // ---- the request -----------------------------------------------------------

  const SystemPrompt :=
    "Ты эксперт по нормализации украинских имен и фамилий. "
    + "Твоя задача - преобразовать список имен в структуру 'Имя Фамилия' "
    + "и сгенерировать логины в виде YFamiliya, где Y - первая буква имени."

  /** The user prompt around the placeholder for the raw list. */
  const UserPromptHead :=
    "Нормализуй список украинских имен в формат «Имя Фамилия» "
    + "и сгенерируй логины в формате YFamiliya, где Y - первая буква имени.\n\n"
    + "Входные данные:\n"

  const UserPromptTail :=
    "\n\nВерни результат только в виде массива JSON объектов:\n"
    + "[\n"
    + "  {\n"
    + "    \"original\": \"Баришовець Ірана\",\n"
    + "    \"normalized\": \"Ірина Баришовець\",\n"
    + "    \"firstName\": \"Ірина\",\n"
    + "    \"lastName\": \"Баришовець\",\n"
    + "    \"login\": \"IBaryshoveats\"\n"
    + "  }\n"
    + "]\n"

  function Message(role: string, content: string): Json {
    JObj(map["role" := JStr(role), "content" := JStr(content)])
  }

  /** The messages of a request, [] when there are none. */
  function Messages(request: Object): seq<Json> {
    ToArray(Lookup(request, "messages"))
  }

  function Role(message: Json): string {
    ToStringOr(Lookup(ToObject(message), "role"), "")
  }

  function Content(message: Json): string {
    ToStringOr(Lookup(ToObject(message), "content"), "")
  }

  /** buildPrompt: the configured model and two messages, the fixed system
      instruction and then the user prompt with the raw list substituted
      for its single placeholder. */
  function BuildPrompt(model: string, userList: string): (r: Object)
    ensures Lookup(r, "model") == JStr(model)
    ensures |Messages(r)| == 2
    ensures Role(Messages(r)[0]) == "system" && Role(Messages(r)[1]) == "user"
    ensures Content(Messages(r)[0]) == SystemPrompt
    ensures var user := Content(Messages(r)[1]);
      && OccursAt(user, userList, |UserPromptHead|)
      && user[..|UserPromptHead|] == UserPromptHead
      && user[|UserPromptHead| + |userList|..] == UserPromptTail
  {
    var userPrompt := UserPromptHead + userList + UserPromptTail;
    assert userPrompt[|UserPromptHead|..|UserPromptHead| + |userList|] == userList;
    map[
      "model" := JStr(model),
      "messages" := JArr([Message("system", SystemPrompt), Message("user", userPrompt)])]
  }

  /** The raw list can be read back from the request: the user message is
      the list framed by the fixed head and tail, so two requests for the
      same model agree exactly when the lists agree. */
  lemma PromptDeterminesList(model: string, a: string, b: string)
    ensures BuildPrompt(model, a) == BuildPrompt(model, b) <==> a == b
  {
    if BuildPrompt(model, a) == BuildPrompt(model, b) {
      var ua := Content(Messages(BuildPrompt(model, a))[1]);
      assert ua == UserPromptHead + a + UserPromptTail;
      assert ua == UserPromptHead + b + UserPromptTail;
      assert |a| == |b|;
      assert a == ua[|UserPromptHead|..|UserPromptHead| + |a|];
      assert b == ua[|UserPromptHead|..|UserPromptHead| + |b|];
    }
  }

  // ---- the reply -------------------------------------------------------------

  /** The text of the first choice's message: None when "choices" is absent,
      not an array, or empty; a first choice or message that is not an object
      reads as an empty one, and a missing or non-string content as "". */
  function ChoiceContent(response: Object): (r: Option<string>)
    ensures r.None? <==> "choices" !in response || !response["choices"].JArr? || response["choices"].items == []
  {
    if "choices" !in response || !response["choices"].JArr? then None
    else
      var choices := response["choices"].items;
      if |choices| == 0 then None
      else
        var message := ToObject(Lookup(ToObject(choices[0]), "message"));
        Some(ToStringOr(Lookup(message, "content"), ""))
  }

  /** One array element as a user: the five name fields from their keys, ""
      for a missing or non-string value (and for everything when the element
      is not an object), marked valid with no error. */
  function UserOf(v: Json): (u: NormalizedUser)
    ensures u.isValid && u.validationError == ""
    ensures !v.JObj? ==> u == Default().(isValid := true)
  {
    var o := ToObject(v);
    Default().(
      originalName := ToStringOr(Lookup(o, "original"), ""),
      normalizedName := ToStringOr(Lookup(o, "normalized"), ""),
      firstName := ToStringOr(Lookup(o, "firstName"), ""),
      lastName := ToStringOr(Lookup(o, "lastName"), ""),
      generatedLogin := ToStringOr(Lookup(o, "login"), ""),
      isValid := true)
  }

  /** The elements of the array the first choice's content parses to, with
      `parse` standing for the JSON text parser (None when the text is not a
      JSON document); None when there is no content or it is not an array. */
  function ContentArray(response: Object, parse: string -> Option<Json>): (r: Option<seq<Json>>)
    ensures r.Some? <==> (ChoiceContent(response).Some? && parse(ChoiceContent(response).value).Some?
                          && parse(ChoiceContent(response).value).value.JArr?)
  {
    match ChoiceContent(response)
    case None => None
    case Some(content) =>
      match parse(content)
      case None => None
      case Some(doc) => if doc.JArr? then Some(doc.items) else None
  }

  /** parseResponse: empty unless the first choice's content parses as an
      array, and then one user per element, in order. */
  function ParseResponse(response: Object, parse: string -> Option<Json>): (r: seq<NormalizedUser>)
    ensures ContentArray(response, parse).None? ==> r == []
    ensures ContentArray(response, parse).Some? ==>
      var items := ContentArray(response, parse).value;
      && |r| == |items|
      && forall i :: 0 <= i < |items| ==> r[i] == UserOf(items[i])
  {
    match ContentArray(response, parse)
    case None => []
    case Some(items) => seq(|items|, i requires 0 <= i < |items| => UserOf(items[i]))
  }

  /** Every parsed user is valid with an empty error whatever the reply
      says, so a non-empty result always passes the user-list validation:
      its report of invalid users is empty. */
  lemma ParsedUsersAreValid(response: Object, parse: string -> Option<Json>)
    ensures var users := ParseResponse(response, parse);
      && (forall i :: 0 <= i < |users| ==> users[i].isValid && users[i].validationError == "")
      && DataValidator.InvalidLines(users) == []
  {
    DataValidator.InvalidLinesEmpty(ParseResponse(response, parse));
  }

  /** The shape the prompt asks for: one object per user with the five
      keys. */
  function UserJson(u: NormalizedUser): (j: Json)
    ensures j.JObj? && j.fields.Keys == {"original", "normalized", "firstName", "lastName", "login"}
  {
    JObj(map[
      "original" := JStr(u.originalName),
      "normalized" := JStr(u.normalizedName),
      "firstName" := JStr(u.firstName),
      "lastName" := JStr(u.lastName),
      "login" := JStr(u.generatedLogin)])
  }

  /** A valid user with no error survives the trip through its JSON
      object. */
  lemma UserOfUserJson(u: NormalizedUser)
    requires u.isValid && u.validationError == ""
    ensures UserOf(UserJson(u)) == u
  {
  }

  /** A reply whose first choice carries text that parses to the array of
      the users' objects gives back exactly those users. */
  lemma ParseResponseRoundTrip(users: seq<NormalizedUser>, text: string, parse: string -> Option<Json>)
    requires forall i :: 0 <= i < |users| ==> users[i].isValid && users[i].validationError == ""
    requires parse(text) == Some(JArr(seq(|users|, i requires 0 <= i < |users| => UserJson(users[i]))))
    ensures ParseResponse(map["choices" := JArr([JObj(map["message" := Message("assistant", text)])])], parse) == users
  {
    var response := map["choices" := JArr([JObj(map["message" := Message("assistant", text)])])];
    assert ChoiceContent(response) == Some(text);
    var r := ParseResponse(response, parse);
    forall i | 0 <= i < |users| ensures r[i] == users[i] {
      UserOfUserJson(users[i]);
    }
  }

  /** The reply yields no user when it has no "choices", when the first
      choice's text is not JSON, or when that JSON is not an array. */
  lemma ParseResponseErrorPaths(response: Object, text: string, parse: string -> Option<Json>)
    ensures "choices" !in response ==> ParseResponse(response, parse) == []
    ensures parse(text).None? || !parse(text).value.JArr? ==>
      ParseResponse(map["choices" := JArr([JObj(map["message" := Message("assistant", text)])])], parse) == []
  {
    var reply := map["choices" := JArr([JObj(map["message" := Message("assistant", text)])])];
    assert ChoiceContent(reply) == Some(text);
  }

  /** An element that is not an object still yields a user, with every
      name empty. */
  lemma NonObjectElementGivesEmptyUser(text: string, parse: string -> Option<Json>)
    requires parse(text) == Some(JArr([JInt(7)]))
    ensures ParseResponse(map["choices" := JArr([JObj(map["message" := Message("assistant", text)])])], parse)
      == [Default().(isValid := true)]
  {
    var response := map["choices" := JArr([JObj(map["message" := Message("assistant", text)])])];
    assert ChoiceContent(response) == Some(text);
  }

  // ---- name checks -----------------------------------------------------------

  predicate IsNameChar(c: char) {
    IsSpace(c) || IsPunct(c) || StringUtils.IsUkrChar(c)
  }

  /** isValidUkrainianName of the service: every character is whitespace,
      punctuation or in the Ukrainian set. No Ukrainian letter is required,
      so the empty string passes. */
  function IsValidUkrainianName(name: string): (r: bool)
    ensures r <==> forall i :: 0 <= i < |name| ==> IsNameChar(name[i])
  {
    if |name| == 0 then true
    else
      var rest := IsValidUkrainianName(name[1..]);
      assert (forall i :: 0 <= i < |name| ==> IsNameChar(name[i]))
        <==> IsNameChar(name[0]) && forall i :: 0 <= i < |name[1..]| ==> IsNameChar(name[1..][i]) by {
        if forall i :: 0 <= i < |name[1..]| ==> IsNameChar(name[1..][i]) {
          forall i | 1 <= i < |name| ensures IsNameChar(name[i]) {
            assert name[i] == name[1..][i - 1];
          }
        }
      }
      IsNameChar(name[0]) && rest
  }

  /** The service's check is strictly weaker than the one in StringUtils:
      every name accepted there is accepted here, while the empty string and
      a hyphenated name are accepted only here. */
  lemma ServiceCheckIsWeaker(name: string, a: char, b: char)
    requires StringUtils.IsUkrChar(a) && StringUtils.IsUkrChar(b)
    ensures StringUtils.IsValidUkrainianName(name) ==> IsValidUkrainianName(name)
    ensures IsValidUkrainianName("") && !StringUtils.IsValidUkrainianName("")
    ensures IsValidUkrainianName([a, '-', b]) && !StringUtils.IsValidUkrainianName([a, '-', b])
  {
    StringUtils.UkrCharsInTable('-');
    assert !IsSpace([a, '-', b][1]);
  }

  /** normalizeUkrainianName of the service: whitespace trimmed and inner
      runs collapsed; the words are kept exactly, and the result splits at
      single spaces into those words. */
  function NormalizeUkrainianName(name: string): (r: string)
    ensures Words(r) == Words(name)
    ensures Split(r, ' ') == Words(name)
  {
    WordsOfSimplified(name);
    Simplified(name)
  }

  lemma NormalizeIdempotent(name: string)
    ensures NormalizeUkrainianName(NormalizeUkrainianName(name)) == NormalizeUkrainianName(name)
  {
    SimplifiedIdempotent(name);
  }
}
