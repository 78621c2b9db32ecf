/** src/utils/localization.ts: message keys translated to English or Kinyarwanda. */
module Localization {
  import opened Wrappers
  import opened Strings

  datatype Language = En | Rw

  const EnTable: map<string, string> := map[
    "user.registered" := "User registered successfully",
    "user.retrieved" := "User retrieved successfully",
    "user.verified" := "User verified successfully",
    "property.created" := "Property created successfully",
    "property.retrieved" := "Property retrieved successfully",
    "property.updated" := "Property updated successfully",
    "property.verified" := "Property verified successfully",
    "request.created" := "Request created successfully",
    "request.retrieved" := "Request retrieved successfully",
    "request.connected" := "Request connected successfully",
    "request.completed" := "Request completed successfully",
    "commission.created" := "Commission recorded successfully",
    "commission.retrieved" := "Commission retrieved successfully",
    "auth.login.success" := "Login successful",
    "auth.login.failed" := "Invalid credentials",
    "auth.unauthorized" := "Unauthorized access",
    "auth.forbidden" := "Forbidden: Insufficient permissions",
    "validation.failed" := "Validation failed",
    "not.found" := "Resource not found",
    "server.error" := "Internal server error"
  ]

  const RwTable: map<string, string> := map[
    "user.registered" := "Umukoresha wiyandikishije neza",
    "user.retrieved" := "Umukoresha wabonetse neza",
    "user.verified" := "Umukoresha wemejwe neza",
    "property.created" := "Inzu yashyizweho neza",
    "property.retrieved" := "Inzu yabonetse neza",
    "property.updated" := "Inzu yahinduwe neza",
    "property.verified" := "Inzu yemejwe neza",
    "request.created" := "Gusaba kwashyizweho neza",
    "request.retrieved" := "Gusaba kwabonetse neza",
    "request.connected" := "Gusaba kwiyunze neza",
    "request.completed" := "Gusaba gwarangiye neza",
    "commission.created" := "Komisiyo yanditswe neza",
    "commission.retrieved" := "Komisiyo yabonetse neza",
    "auth.login.success" := "Kwinjira byagenze neza",
    "auth.login.failed" := "Amakuru atari ukuri",
    "auth.unauthorized" := "Ntugomba kwinjira",
    "auth.forbidden" := "Ntugomba kugira uburenganzira",
    "validation.failed" := "Gukemura byanze",
    "not.found" := "Ntibyabonetse",
    "server.error" := "Ikosa mu seriveri"
  ]

  function TableOf(lang: Language): map<string, string> {
    match lang
    case En => EnTable
    case Rw => RwTable
  }

  /**
   * `translate(key, lang = 'en')`: the table's text when it is there and
   * non-empty (`|| key`), otherwise the key itself.
   */
  function Translate(key: string, lang: Language := En): (t: string)
    ensures key in TableOf(lang) && TableOf(lang)[key] != "" ==> t == TableOf(lang)[key]
    ensures key !in TableOf(lang) ==> t == key
  {
    var table := TableOf(lang);
    if key in table && table[key] != "" then table[key] else key
  }

  /**
   * `getLanguageFromHeader`: Kinyarwanda exactly when the lower-cased header
   * contains "rw" anywhere, English otherwise and when the header is absent
   * or empty.
   */
  function GetLanguageFromHeader(acceptLanguage: Option<string>): (lang: Language)
    ensures acceptLanguage.None? || acceptLanguage.value == "" ==> lang == En
    ensures lang == Rw <==> acceptLanguage.Some? && Includes(Lower(acceptLanguage.value), "rw")
  {
    if acceptLanguage.None? || acceptLanguage.value == "" then En
    else if Includes(Lower(acceptLanguage.value), "rw") then Rw
    else En
  }

  /** Both tables define the same keys. */
  lemma SameKeys()
    ensures EnTable.Keys == RwTable.Keys
  {
  }

  /** The keys of the user, property and request messages. */
  const RecordKeys: set<string> := {
    "user.registered", "user.retrieved", "user.verified", "property.created", "property.retrieved",
    "property.updated", "property.verified", "request.created", "request.retrieved", "request.connected"}

  /** The keys of the remaining messages. */
  const OtherKeys: set<string> := {
    "request.completed", "commission.created", "commission.retrieved", "auth.login.success",
    "auth.login.failed", "auth.unauthorized", "auth.forbidden", "validation.failed", "not.found",
    "server.error"}

  lemma KeysListed()
    ensures EnTable.Keys == RecordKeys + OtherKeys
  {
  }

  lemma RecordKeysDistinct()
    ensures |RecordKeys| == 10
  {
  }

  lemma OtherKeysDistinct()
    ensures |OtherKeys| == 10
  {
  }

  lemma KeyGroupsDisjoint()
    ensures RecordKeys !! OtherKeys
  {
  }

  /** There are twenty of them, all distinct. */
  lemma TwentyKeys()
    ensures |EnTable| == 20
  {
    KeysListed();
    RecordKeysDistinct();
    OtherKeysDistinct();
    KeyGroupsDisjoint();
    assert |EnTable| == |EnTable.Keys|;
  }

  /** No English text is empty, so `|| key` never replaces a defined entry. */
  lemma NoEmptyEnglishText()
    ensures forall k :: k in EnTable ==> EnTable[k] != ""
  {
  }

  /** No Kinyarwanda text is empty either. */
  lemma NoEmptyKinyarwandaText()
    ensures forall k :: k in RwTable ==> RwTable[k] != ""
  {
  }

  /** Every key a table defines is translated by that table; no other entry is consulted. */
  lemma DefinedKeysTranslate(key: string, lang: Language)
    requires key in EnTable
    ensures Translate(key, lang) == TableOf(lang)[key]
  {
    SameKeys();
    NoEmptyEnglishText();
    NoEmptyKinyarwandaText();
  }

  /** The language parameter defaults to English. */
  lemma DefaultIsEnglish(key: string)
    ensures Translate(key) == Translate(key, En)
  {
  }

  /** "rw" is found anywhere, in either case and even inside a word. */
  lemma RwAnywhere(before: string, after: string)
    requires before == Lower(before) && after == Lower(after)
    ensures GetLanguageFromHeader(Some(before + "RW" + after)) == Rw
  {
    LowerConcat(before + "RW", after);
    LowerConcat(before, "RW");
    assert Lower("RW") == "rw";
    IncludesMiddle(before, "rw", after);
  }
}
