/**
 * The password generator's translations: the English and Chinese tables,
 * `t`'s lookup with fallback to English and then to the key itself, its
 * first-occurrence `{name}` substitution, and `getLanguage`.
 */
module Translations {

  import opened Base
  import opened Strings

  /**
   * The message keys: the property names of the English table, which is
   * the type `t` accepts for its key (`keyof typeof translations.en`).
   */
  datatype Key =
    | SearchPlaceholder | Results | ItemsCount | Source | Regenerate | OpenPreferences
    | CopyPassword | CopyPlaintext | PasswordCopied | PlaintextCopied | GeneratedPassword
    | Components | TransformationRules | WordList | Separator | Casing | LeetSpeak | PrefixSuffix | NoneText
    | Yes | No | WordCount | TotalLength | StrengthScore | Entropy | SourceList
    | StrengthVeryStrong | StrengthStrong | StrengthModerate | StrengthWeak | MaxCountError
    | WordListDropdownTitle | AllWordLists | CopyActions | GenerationActions | SystemActions | EmptyTitle | EmptyDescription
    | Oxford | Idioms | Poetry | Tech | Nature | Custom
    | StrengthLabel | ComponentsLabel | GeneratedAt

  /** The property name of each key, which `t` falls back to when no table has a text. */
  function KeyName(k: Key): string
  {
    match k
    case SearchPlaceholder => "searchPlaceholder"
    case Results => "results"
    case ItemsCount => "itemsCount"
    case Source => "source"
    case Regenerate => "regenerate"
    case OpenPreferences => "openPreferences"
    case CopyPassword => "copyPassword"
    case CopyPlaintext => "copyPlaintext"
    case PasswordCopied => "passwordCopied"
    case PlaintextCopied => "plaintextCopied"
    case GeneratedPassword => "generatedPassword"
    case Components => "components"
    case TransformationRules => "transformationRules"
    case WordList => "wordList"
    case Separator => "separator"
    case Casing => "casing"
    case LeetSpeak => "leetSpeak"
    case PrefixSuffix => "prefixSuffix"
    case NoneText => "none"
    case Yes => "yes"
    case No => "no"
    case WordCount => "wordCount"
    case TotalLength => "totalLength"
    case StrengthScore => "strengthScore"
    case Entropy => "entropy"
    case SourceList => "sourceList"
    case StrengthVeryStrong => "strengthVeryStrong"
    case StrengthStrong => "strengthStrong"
    case StrengthModerate => "strengthModerate"
    case StrengthWeak => "strengthWeak"
    case MaxCountError => "maxCountError"
    case WordListDropdownTitle => "wordListDropdownTitle"
    case AllWordLists => "allWordLists"
    case CopyActions => "copyActions"
    case GenerationActions => "generationActions"
    case SystemActions => "systemActions"
    case EmptyTitle => "emptyTitle"
    case EmptyDescription => "emptyDescription"
    case Oxford => "oxford"
    case Idioms => "idioms"
    case Poetry => "poetry"
    case Tech => "tech"
    case Nature => "nature"
    case Custom => "custom"
    case StrengthLabel => "strengthLabel"
    case ComponentsLabel => "componentsLabel"
    case GeneratedAt => "generatedAt"
  }

  /** `translations.en`. */
  function EnglishText(k: Key): string
  {
    match k
    // The list view and its actions
    case SearchPlaceholder => "Filter by password or plaintext words..."
    case Results => "Results"
    case ItemsCount => "{count} items"
    case Source => "Source"
    case Regenerate => "Regenerate"
    case OpenPreferences => "Open Extension Preferences"
    // Copying and its confirmations
    case CopyPassword => "Copy Password"
    case CopyPlaintext => "Copy Plaintext"
    case PasswordCopied => "Password copied to clipboard"
    case PlaintextCopied => "Plaintext copied to clipboard"
    case GeneratedPassword => "Generated Password"
    // The detail panel's section titles
    case Components => "Components"
    case TransformationRules => "Transformation Rules"
    case WordList => "Word List"
    case Separator => "Separator"
    case Casing => "Casing"
    case LeetSpeak => "LeetSpeak"
    case PrefixSuffix => "Prefix/Suffix"
    case NoneText => "(none)"
    // The detail panel's values
    case Yes => "Yes"
    case No => "No"
    case WordCount => "Word Count"
    case TotalLength => "Total Length"
    case StrengthScore => "Strength Score"
    case Entropy => "Entropy"
    case SourceList => "Source List"
    // The strength labels and the count error
    case StrengthVeryStrong => "Very Strong"
    case StrengthStrong => "Strong"
    case StrengthModerate => "Moderate"
    case StrengthWeak => "Weak"
    case MaxCountError => "Count cannot be greater than 99"
    // The dropdown, the action sections and the empty view
    case WordListDropdownTitle => "Word List"
    case AllWordLists => "All Word Lists"
    case CopyActions => "Password Actions"
    case GenerationActions => "Generation"
    case SystemActions => "System"
    case EmptyTitle => "No Passwords Found"
    case EmptyDescription => "Try adjusting your word count or search query."
    // The word-list names
    case Oxford => "Oxford 3000"
    case Idioms => "Chinese Idioms"
    case Poetry => "Chinese Poetry"
    case Tech => "Technology"
    case Nature => "Nature"
    case Custom => "Custom File"
    // The metadata labels
    case StrengthLabel => "Strength"
    case ComponentsLabel => "Components"
    case GeneratedAt => "Generated at"
  }

  /** `translations.zh`. */
  function ChineseText(k: Key): string
  {
    match k
    // The list view and its actions
    case SearchPlaceholder => "通过密码或原始词汇过滤..."
    case Results => "生成结果"
    case ItemsCount => "{count} 个项目"
    case Source => "来源"
    case Regenerate => "重新生成"
    case OpenPreferences => "打开扩展设置"
    // Copying and its confirmations
    case CopyPassword => "复制密码"
    case CopyPlaintext => "复制原始词汇序列"
    case PasswordCopied => "密码已复制"
    case PlaintextCopied => "序列已复制"
    case GeneratedPassword => "生成的密码"
    // The detail panel's section titles
    case Components => "组成部分"
    case TransformationRules => "转换规则"
    case WordList => "词库"
    case Separator => "分隔符"
    case Casing => "大小写"
    case LeetSpeak => "字符替换 (Leet)"
    case PrefixSuffix => "前缀 / 后缀"
    case NoneText => "(无)"
    // The detail panel's values
    case Yes => "是"
    case No => "否"
    case WordCount => "单词数"
    case TotalLength => "总长度"
    case StrengthScore => "强度评分"
    case Entropy => "熵值 (Entropy)"
    case SourceList => "词库来源"
    // The strength labels and the count error
    case StrengthVeryStrong => "极高强度"
    case StrengthStrong => "高强度"
    case StrengthModerate => "中等强度"
    case StrengthWeak => "弱强度"
    case MaxCountError => "数量不能超过 99"
    // The dropdown, the action sections and the empty view
    case WordListDropdownTitle => "切换词库"
    case AllWordLists => "全部词库"
    case CopyActions => "密码操作"
    case GenerationActions => "生成控制"
    case SystemActions => "系统设置"
    case EmptyTitle => "未找到密码"
    case EmptyDescription => "请尝试调整单词数量或搜索关键词"
    // The word-list names
    case Oxford => "牛津 3000"
    case Idioms => "中文成语"
    case Poetry => "精选诗词"
    case Tech => "技术术语"
    case Nature => "自然地理"
    case Custom => "自定义文件"
    // The metadata labels
    case StrengthLabel => "安全强度"
    case ComponentsLabel => "组成单词"
    case GeneratedAt => "生成于"
  }

  /** One language's table: the text of each key it defines. */
  type Table = Key -> Option<string>

  /** Both languages' tables; `Messages` is the `translations` object. */
  datatype Catalog = Catalog(english: Table, chinese: Table)

  const Messages := Catalog((k: Key) => Some(EnglishText(k)), (k: Key) => Some(ChineseText(k)))

  /** `translations[lang]`: only "en" and "zh" have a table. */
  function TableOf(c: Catalog, lang: string): (table: Option<Table>)
    ensures table.Some? <==> lang == "en" || lang == "zh"
  {
    if lang == "en" then Some(c.english) else if lang == "zh" then Some(c.chinese) else None
  }

  /** Every text of a table is non-empty. */
  ghost predicate TextsNonEmpty(t: Table)
  {
    forall k :: t(k).Some? ==> t(k).value != ""
  }

  /** Both tables define the same keys and no empty text. */
  ghost predicate WellFormed(c: Catalog)
  {
    && (forall k :: c.english(k).Some? <==> c.chinese(k).Some?)
    && TextsNonEmpty(c.english) && TextsNonEmpty(c.chinese)
  }

  /** A key's text in a table, a missing key reading as the empty (falsy) text. */
  function Entry(t: Table, key: Key): string
  {
    if t(key).Some? then t(key).value else ""
  }

  /**
   * `translations[lang][key] || translations.en[key] || key`, the last being
   * the key's name; `None` (a TypeError) when `lang` has no table.
   */
  function Lookup(c: Catalog, key: Key, lang: string): (r: Option<string>)
    ensures r.None? <==> TableOf(c, lang).None?
    ensures r.Some? && r.value != KeyName(key) ==> TableOf(c, lang).value(key) == r || c.english(key) == r
  {
    match TableOf(c, lang)
    case None => None
    case Some(table) =>
      var own := Entry(table, key);
      var english := Entry(c.english, key);
      Some(if own != "" then own else if english != "" then english else KeyName(key))
  }

  /** A substitution value: `String(v)` of a string or of an integer. */
  datatype VarValue = Str(text: string) | Num(n: int)

  function Show(v: VarValue): string
  {
    match v
    case Str(s) => s
    case Num(n) => IntToString(n)
  }

  /** Every value's text is free of `$` (see `NoDollar`). */
  predicate PlainVars(vars: seq<(string, VarValue)>)
  {
    forall i :: 0 <= i < |vars| ==> NoDollar(Show(vars[i].1))
  }

  /** A printed integer never holds a `$`. */
  lemma NumberIsPlain(n: int)
    ensures NoDollar(Show(Num(n)))
  {
    assert AllDigits(NatToString(if n < 0 then -n else n));
  }

  /** The `forEach` over the variables: each one replaces the first `{name}` in the text so far. */
  function Substitute(text: string, vars: seq<(string, VarValue)>): string
    requires PlainVars(vars)
    decreases |vars|
  {
    if |vars| == 0 then text
    else Substitute(ReplaceFirst(text, Placeholder(vars[0].0), Show(vars[0].1)), vars[1..])
  }

  /** `t(key, lang, variables)` over a catalog; absent variables skip the substitution. */
  function T(c: Catalog, key: Key, lang: string, vars: Option<seq<(string, VarValue)>>): (r: Option<string>)
    requires vars.Some? ==> PlainVars(vars.value)
    ensures r.None? <==> TableOf(c, lang).None?
    ensures vars.None? ==> r == Lookup(c, key, lang)
  {
    match Lookup(c, key, lang)
    case None => None
    case Some(text) =>
      match vars
      case None => Some(text)
      case Some(vs) => Some(Substitute(text, vs))
  }

  /** `getLanguage`: "auto" follows the environment ("zh" or else "en"); anything else is kept. */
  function GetLanguage(preference: string, environmentLanguage: string): (lang: string)
    ensures preference != "auto" ==> lang == preference
    ensures preference == "auto" ==> (lang == "zh" <==> environmentLanguage == "zh")
    ensures preference == "auto" ==> lang == "zh" || lang == "en"
  {
    if preference == "auto" then (if environmentLanguage == "zh" then "zh" else "en")
    else preference
  }

  // ---------------------------------------------------------------------
  // The lookup rule
  // ---------------------------------------------------------------------

  /** In a well-formed catalog a known key reads its own language's text. */
  lemma LookupKnownKey(c: Catalog, key: Key, lang: string)
    requires WellFormed(c) && TableOf(c, lang).Some? && c.english(key).Some?
    ensures TableOf(c, lang).value(key).Some?
    ensures Lookup(c, key, lang) == TableOf(c, lang).value(key)
    ensures Lookup(c, key, lang).value != ""
  {
  }

  /** In a well-formed catalog a key neither table defines comes back as its own name. */
  lemma LookupUnknownKey(c: Catalog, key: Key, lang: string)
    requires WellFormed(c) && TableOf(c, lang).Some? && c.english(key).None?
    ensures Lookup(c, key, lang) == Some(KeyName(key))
  {
  }

  /** A key missing from the Chinese table falls back to the English text. */
  lemma LookupFallsBackToEnglish(c: Catalog, key: Key)
    requires c.chinese(key).None? && c.english(key).Some? && c.english(key).value != ""
    ensures Lookup(c, key, "zh") == c.english(key)
  {
  }

  /** A non-empty entry of the language's own table is the result, whatever the English table holds. */
  lemma LookupOwnText(c: Catalog, key: Key, lang: string, text: string)
    requires TableOf(c, lang).Some? && TableOf(c, lang).value(key) == Some(text) && text != ""
    ensures Lookup(c, key, lang) == Some(text)
  {
  }

  /** An own entry that is empty or missing gives way to a non-empty English text. */
  lemma LookupEmptyFallsBack(c: Catalog, key: Key, lang: string, english: string)
    requires TableOf(c, lang).Some?
    requires TableOf(c, lang).value(key).None? || TableOf(c, lang).value(key) == Some("")
    requires c.english(key) == Some(english) && english != ""
    ensures Lookup(c, key, lang) == Some(english)
  {
  }

  /** When both the own and the English entry are empty or missing, the key's name is the result. */
  lemma LookupBothEmpty(c: Catalog, key: Key, lang: string)
    requires TableOf(c, lang).Some?
    requires TableOf(c, lang).value(key).None? || TableOf(c, lang).value(key) == Some("")
    requires c.english(key).None? || c.english(key) == Some("")
    ensures Lookup(c, key, lang) == Some(KeyName(key))
  {
  }

  /** Every preference the settings offer ("auto", "en", "zh") picks a language with a table. */
  lemma PreferenceHasTable(c: Catalog, preference: string, environmentLanguage: string)
    requires preference == "auto" || preference == "en" || preference == "zh"
    ensures TableOf(c, GetLanguage(preference, environmentLanguage)).Some?
  {
  }

  /** Only the first `{name}` is replaced, and a variable whose placeholder is absent changes nothing. */
  lemma SubstituteOne(text: string, name: string, v: VarValue)
    requires NoDollar(Show(v))
    ensures var r := Substitute(text, [(name, v)]);
            && (!Contains(text, Placeholder(name)) ==> r == text)
            && (Contains(text, Placeholder(name)) ==>
                  exists k :: && OccursAt(text, Placeholder(name), k)
                              && (forall j :: 0 <= j < k ==> !OccursAt(text, Placeholder(name), j))
                              && r == text[..k] + Show(v) + text[k + |Placeholder(name)|..])
  {
    assert [(name, v)][1..] == [];
  }

  /** Substituting into a text that starts with the placeholder puts the value in front. */
  lemma SubstituteAtStart(rest: string, name: string, v: VarValue)
    requires NoDollar(Show(v))
    ensures Substitute(Placeholder(name) + rest, [(name, v)]) == Show(v) + rest
  {
    var text := Placeholder(name) + rest;
    var q := Placeholder(name);
    assert OccursAt(text, q, 0);
    SubstituteOne(text, name, v);
    assert text[|q|..] == rest;
  }

  // ---------------------------------------------------------------------
  // The two tables
  // ---------------------------------------------------------------------

  lemma EnglishTextsNonEmpty()
    ensures forall k :: EnglishText(k) != ""
  {
  }

  lemma ChineseTextsNonEmpty()
    ensures forall k :: ChineseText(k) != ""
  {
  }

  /** The source's tables define the same keys, and no text is empty. */
  lemma MessagesWellFormed()
    ensures WellFormed(Messages)
  {
    EnglishTextsNonEmpty();
    ChineseTextsNonEmpty();
  }

  /** `t` finds "itemsCount" in the English table. */
  lemma ItemsCountLookup()
    ensures Lookup(Messages, ItemsCount, "en") == Some("{count} items")
  {
  }

  lemma CountPlaceholder()
    ensures Placeholder("count") + " items" == "{count} items"
  {
  }

  /** `t("itemsCount", "en", {count: n})` is "n items". */
  lemma ItemsCountEnglish(n: int)
    ensures NoDollar(Show(Num(n)))
    ensures T(Messages, ItemsCount, "en", Some([("count", Num(n))])) == Some(IntToString(n) + " items")
  {
    NumberIsPlain(n);
    ItemsCountLookup();
    CountPlaceholder();
    SubstituteAtStart(" items", "count", Num(n));
  }

  /** The keys of the four strength labels. */
  predicate IsStrengthKey(key: Key)
  {
    key == StrengthVeryStrong || key == StrengthStrong || key == StrengthModerate || key == StrengthWeak
  }

  /** `t` reads every key's own text from the English table. */
  lemma LookupEnglishText(key: Key)
    ensures Lookup(Messages, key, "en") == Some(EnglishText(key))
    ensures EnglishText(key) != ""
  {
    MessagesWellFormed();
    LookupKnownKey(Messages, key, "en");
  }

  /** `t` reads every key's own text from the Chinese table. */
  lemma LookupChineseText(key: Key)
    ensures Lookup(Messages, key, "zh") == Some(ChineseText(key))
    ensures ChineseText(key) != ""
  {
    MessagesWellFormed();
    LookupKnownKey(Messages, key, "zh");
  }
}
