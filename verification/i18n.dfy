/**
 * The browser's translation layer: `{{ name }}` placeholders filled from a
 * parameter object, lookup of a message from the current language to
 * English to the key itself, the choice of language from storage and the
 * browser, and the `lang` and `dir` attributes of the document.
 *
 * The translation table is a map from language code to dictionary; its
 * contents are not part of the model.
 */
module I18n {
  import opened Common

  type Dictionary = map<string, string>

  /** `TRANSLATIONS`: one dictionary per supported language. */
  type Catalog = map<string, Dictionary>

  const DefaultLang: string := "en"

  // ---------------------------------------------------------------------
  // Template substitution

  /** JavaScript's `\w`. */
  predicate IsWordChar(c: char) {
    'a' <= c <= 'z' || 'A' <= c <= 'Z' || '0' <= c <= '9' || c == '_'
  }

  /** The end of the run of spaces that starts at `i`. */
  function SkipSpaces(s: string, i: nat): (j: nat)
    requires i <= |s|
    ensures i <= j <= |s|
    ensures forall k :: i <= k < j ==> IsJsSpace(s[k])
    ensures j == |s| || !IsJsSpace(s[j])
    decreases |s| - i
  {
    if i < |s| && IsJsSpace(s[i]) then SkipSpaces(s, i + 1) else i
  }

  /** The end of the run of word characters that starts at `i`. */
  function SkipWord(s: string, i: nat): (j: nat)
    requires i <= |s|
    ensures i <= j <= |s|
    ensures forall k :: i <= k < j ==> IsWordChar(s[k])
    ensures j == |s| || !IsWordChar(s[j])
    decreases |s| - i
  {
    if i < |s| && IsWordChar(s[i]) then SkipWord(s, i + 1) else i
  }

  predicate AllJsSpaces(s: string) {
    forall k :: 0 <= k < |s| ==> IsJsSpace(s[k])
  }

  /** `\w+`: one or more word characters. */
  predicate IsWord(s: string) {
    s != [] && forall k :: 0 <= k < |s| ==> IsWordChar(s[k])
  }

  /** `m` is, as a whole, a match of `{{\s*(\w+)\s*}}` that captures
      `name`. */
  ghost predicate MatchesPlaceholder(m: string, name: string) {
    exists before, after :: AllJsSpaces(before) && AllJsSpaces(after) && IsWord(name)
      && m == "{{" + before + name + after + "}}"
  }

  /** A match of `{{\s*(\w+)\s*}}` at the start of a text: the captured
      name and the length of the match. */
  datatype Placeholder = Placeholder(name: string, length: nat)

  /** The match of `{{\s*(\w+)\s*}}` at the start of `s`, if there is
      one: a match found is a real one (and every real one is found, as
      `PlaceholderAtFindsEveryMatch` shows). */
  function PlaceholderAt(s: string): (r: Option<Placeholder>)
    ensures r.Some? ==> r.value.length <= |s| && MatchesPlaceholder(s[..r.value.length], r.value.name)
  {
    if |s| >= 2 && s[0] == '{' && s[1] == '{' then
      var a := SkipSpaces(s, 2);
      var b := SkipWord(s, a);
      var c := SkipSpaces(s, b);
      if a < b && c + 2 <= |s| && s[c] == '}' && s[c + 1] == '}' then
        ScannedIsMatch(s, a, b, c);
        Some(Placeholder(s[a..b], c + 2))
      else None
    else None
  }

  /** Whatever prefix of `s` matches `{{\s*(\w+)\s*}}` is the one
      `PlaceholderAt` reports, with its captured name. */
  lemma PlaceholderAtFindsEveryMatch(s: string, n: nat, name: string)
    requires n <= |s| && MatchesPlaceholder(s[..n], name)
    ensures PlaceholderAt(s) == Some(Placeholder(name, n))
  {
    ScannerFindsMatch(s, n, name);
  }

  /** The scanner of `PlaceholderAt` accepts the first `n` characters of
      `s` with the captured `name`. */
  predicate MatchIsScanned(s: string, n: nat, name: string) {
    && |s| >= 2 && s[0] == '{' && s[1] == '{'
    && var a := SkipSpaces(s, 2);
    var b := SkipWord(s, a);
    var c := SkipSpaces(s, b);
    a < b && c + 2 == n <= |s| && s[c] == '}' && s[c + 1] == '}' && s[a..b] == name
  }

  lemma ScannedIsMatch(s: string, a: nat, b: nat, c: nat)
    requires 2 <= a < b <= c && c + 2 <= |s| && s[..2] == "{{" && s[c] == '}' && s[c + 1] == '}'
    requires forall k :: 2 <= k < a ==> IsJsSpace(s[k])
    requires forall k :: a <= k < b ==> IsWordChar(s[k])
    requires forall k :: b <= k < c ==> IsJsSpace(s[k])
    ensures MatchesPlaceholder(s[..c + 2], s[a..b])
  {
    var before, name, after := s[2..a], s[a..b], s[b..c];
    assert s[..c + 2] == "{{" + before + name + after + "}}";
    assert AllJsSpaces(before) && AllJsSpaces(after) && IsWord(name);
  }

  lemma ScannerFindsMatch(s: string, n: nat, name: string)
    requires n <= |s| && MatchesPlaceholder(s[..n], name)
    ensures MatchIsScanned(s, n, name)
  {
    var before, after :| AllJsSpaces(before) && AllJsSpaces(after) && IsWord(name)
      && s[..n] == "{{" + before + name + after + "}}";
    MatchParts(s, n, before, name, after);
    ScannerFindsParts(s, 2 + |before|, 2 + |before| + |name|, n - 2);
  }

  /** The parts of a placeholder match at the start of `s`, located by
      index. */
  lemma MatchParts(s: string, n: nat, before: string, name: string, after: string)
    requires n <= |s| && s[..n] == "{{" + before + name + after + "}}"
    requires AllJsSpaces(before) && AllJsSpaces(after) && IsWord(name)
    ensures n == |before| + |name| + |after| + 4
    ensures s[0] == '{' && s[1] == '{' && s[n - 2] == '}' && s[n - 1] == '}'
    ensures forall k :: 2 <= k < 2 + |before| ==> IsJsSpace(s[k])
    ensures forall k :: 2 + |before| <= k < 2 + |before| + |name| ==> IsWordChar(s[k])
    ensures s[2 + |before|..2 + |before| + |name|] == name
    ensures forall k :: 2 + |before| + |name| <= k < n - 2 ==> IsJsSpace(s[k])
  {
    var m := s[..n];
    var a := 2 + |before|;
    var b := a + |name|;
    MatchLayout(m, before, name, after);
    assert s[0] == m[0] && s[1] == m[1] && s[n - 2] == m[n - 2] && s[n - 1] == m[n - 1];
    PrefixSlice(s, n, 2, a);
    PrefixSlice(s, n, a, b);
    PrefixSlice(s, n, b, n - 2);
    SpacesAt(s, 2, a);
    WordAt(s, a, b);
    SpacesAt(s, b, n - 2);
  }

  /** Where the parts of a placeholder match sit. */
  lemma MatchLayout(m: string, before: string, name: string, after: string)
    requires m == "{{" + before + name + after + "}}"
    ensures |m| == |before| + |name| + |after| + 4
    ensures m[0] == '{' && m[1] == '{'
    ensures m[2..2 + |before|] == before
    ensures m[2 + |before|..2 + |before| + |name|] == name
    ensures m[2 + |before| + |name|..|m| - 2] == after
    ensures m[|m| - 2] == '}' && m[|m| - 1] == '}'
  {
  }

  lemma PrefixSlice(s: string, n: nat, i: nat, j: nat)
    requires i <= j <= n <= |s|
    ensures s[i..j] == s[..n][i..j]
  {
    assert forall k :: 0 <= k < j - i ==> s[i..j][k] == s[i + k] == s[..n][i..j][k];
  }

  lemma SpacesAt(s: string, i: nat, j: nat)
    requires i <= j <= |s| && AllJsSpaces(s[i..j])
    ensures forall k :: i <= k < j ==> IsJsSpace(s[k])
  {
    forall k | i <= k < j
      ensures IsJsSpace(s[k])
    {
      assert s[k] == s[i..j][k - i];
    }
  }

  lemma WordAt(s: string, i: nat, j: nat)
    requires i <= j <= |s| && forall k :: 0 <= k < j - i ==> IsWordChar(s[i..j][k])
    ensures forall k :: i <= k < j ==> IsWordChar(s[k])
  {
    forall k | i <= k < j
      ensures IsWordChar(s[k])
    {
      assert s[k] == s[i..j][k - i];
    }
  }

  lemma ScannerFindsParts(s: string, a: nat, b: nat, c: nat)
    requires 2 <= a < b <= c && c + 2 <= |s| && s[0] == '{' && s[1] == '{' && s[c] == '}' && s[c + 1] == '}'
    requires forall k :: 2 <= k < a ==> IsJsSpace(s[k])
    requires forall k :: a <= k < b ==> IsWordChar(s[k])
    requires forall k :: b <= k < c ==> IsJsSpace(s[k])
    ensures MatchIsScanned(s, c + 2, s[a..b])
  {
    assert !IsJsSpace(s[a]) && !IsWordChar(s[b]) && !IsJsSpace(s[c]);
    SkipSpacesOver(s, 2, a);
    SkipWordOver(s, a, b);
    SkipSpacesOver(s, b, c);
  }

  /** The text that replaces a placeholder: the parameter's own value, or
      the empty string. */
  function ParamText(params: map<string, string>, name: string): string {
    if name in params then params[name] else ""
  }

  /** `formatTemplate`: a global replace scanning from left to right; where
      no placeholder starts, the character is copied, so a template without
      an opening brace comes back unchanged. */
  function FormatTemplate(template: string, params: map<string, string>): (r: string)
    ensures NoBrace(template) ==> r == template
    decreases |template|
  {
    if template == [] then []
    else match PlaceholderAt(template)
      case Some(p) => ParamText(params, p.name) + FormatTemplate(template[p.length..], params)
      case None =>
        assert NoBrace(template) ==> NoBrace(template[1..]);
        [template[0]] + FormatTemplate(template[1..], params)
  }

  /** `s` holds no opening brace, so no placeholder can start in it. */
  predicate NoBrace(s: string) {
    forall i :: 0 <= i < |s| ==> s[i] != '{'
  }

  /** No placeholder starts anywhere in `s`. */
  predicate NoPlaceholder(s: string) {
    forall i :: 0 <= i < |s| ==> PlaceholderAt(s[i..]).None?
  }

  /** A template without placeholders comes back unchanged. */
  lemma {:induction false} FormatWithoutPlaceholder(template: string, params: map<string, string>)
    requires NoPlaceholder(template)
    ensures FormatTemplate(template, params) == template
  {
    if template != [] {
      assert template[0..] == template;
      var rest := template[1..];
      forall i | 0 <= i < |rest|
        ensures PlaceholderAt(rest[i..]).None?
      {
        assert rest[i..] == template[i + 1..];
      }
      FormatWithoutPlaceholder(rest, params);
    }
  }

  /** Text without an opening brace is copied as it is. */
  lemma {:induction false} FormatKeepsPlainText(plain: string, rest: string, params: map<string, string>)
    requires NoBrace(plain)
    ensures FormatTemplate(plain + rest, params) == plain + FormatTemplate(rest, params)
  {
    if plain != [] {
      assert plain[0] != '{' && NoBrace(plain[1..]);
      AppendTail(plain, rest);
      FormatCopies(plain + rest, params);
      FormatKeepsPlainText(plain[1..], rest, params);
      AppendTail(plain, FormatTemplate(rest, params));
    } else {
      assert plain + rest == rest;
    }
  }

  lemma AppendTail(a: string, b: string)
    requires a != []
    ensures (a + b)[0] == a[0] && (a + b)[1..] == a[1..] + b
    ensures a + b == [a[0]] + (a[1..] + b)
  {
  }

  /** A leading character other than `{` is copied. */
  lemma FormatCopies(s: string, params: map<string, string>)
    requires s != [] && s[0] != '{'
    ensures FormatTemplate(s, params) == [s[0]] + FormatTemplate(s[1..], params)
  {
    assert PlaceholderAt(s).None?;
  }

  lemma {:induction false} SkipSpacesOver(s: string, i: nat, j: nat)
    requires i <= j <= |s|
    requires forall k :: i <= k < j ==> IsJsSpace(s[k])
    requires j == |s| || !IsJsSpace(s[j])
    ensures SkipSpaces(s, i) == j
    decreases j - i
  {
    if i < j {
      SkipSpacesOver(s, i + 1, j);
    }
  }

  lemma {:induction false} SkipWordOver(s: string, i: nat, j: nat)
    requires i <= j <= |s|
    requires forall k :: i <= k < j ==> IsWordChar(s[k])
    requires j == |s| || !IsWordChar(s[j])
    ensures SkipWord(s, i) == j
    decreases j - i
  {
    if i < j {
      SkipWordOver(s, i + 1, j);
    }
  }

  /** Every placeholder, spaces inside the braces or not, is replaced by
      its parameter's value (or nothing), and scanning goes on after it. */
  lemma FormatReplacesPlaceholder(before: string, name: string, after: string, rest: string, params: map<string, string>)
    requires AllJsSpaces(before) && AllJsSpaces(after) && IsWord(name)
    ensures FormatTemplate("{{" + before + name + after + "}}" + rest, params) == ParamText(params, name) + FormatTemplate(rest, params)
  {
    var m := "{{" + before + name + after + "}}";
    var s := m + rest;
    assert s[..|m|] == m && s[|m|..] == rest;
    assert MatchesPlaceholder(m, name);
    PlaceholderAtFindsEveryMatch(s, |m|, name);
  }

  // ---------------------------------------------------------------------
  // Lookup

  /** The template `translateKey` formats: the current language's entry,
      else the English entry, else the key itself. An entry that exists is
      used even when it is empty. */
  function TemplateFor(catalog: Catalog, current: string, key: string): (r: string)
    requires DefaultLang in catalog
    ensures current in catalog && key in catalog[current] ==> r == catalog[current][key]
    ensures (current !in catalog || key !in catalog[current]) && key in catalog[DefaultLang] ==> r == catalog[DefaultLang][key]
    ensures (current !in catalog || key !in catalog[current]) && key !in catalog[DefaultLang] ==> r == key
  {
    var dictionary := if current in catalog then catalog[current] else catalog[DefaultLang];
    var fallback := catalog[DefaultLang];
    if key in dictionary then dictionary[key]
    else if key in fallback then fallback[key]
    else key
  }

  // ---------------------------------------------------------------------
  // Choice of language

  /** The names every JavaScript object inherits from `Object.prototype`;
      indexing the translation table with one of them yields a truthy
      value although no such language exists. */
  const PrototypeNames: set<string> := {
    "constructor", "__proto__", "__defineGetter__", "__defineSetter__", "__lookupGetter__",
    "__lookupSetter__", "hasOwnProperty", "isPrototypeOf", "propertyIsEnumerable",
    "toLocaleString", "toString", "valueOf"
  }

  /** `TRANSLATIONS[lang]` is truthy, as the source tests it. */
  predicate TruthyAsWritten(catalog: Catalog, lang: string) {
    lang in catalog || lang in PrototypeNames
  }

  /** `setLanguage`'s choice as written. */
  function SelectLanguageAsWritten(catalog: Catalog, lang: string): (r: string)
    ensures lang in catalog ==> r == lang
    ensures r == lang || r == DefaultLang
    ensures r !in catalog ==> r == DefaultLang || r in PrototypeNames
  {
    if TruthyAsWritten(catalog, lang) then lang else DefaultLang
  }

  /** As written, a name inherited from `Object.prototype` is taken for a
      language. */
  lemma AsWrittenSelectsUnsupported(catalog: Catalog)
    requires DefaultLang in catalog && "constructor" !in catalog
    ensures SelectLanguageAsWritten(catalog, "constructor") == "constructor"
    ensures SelectLanguageAsWritten(catalog, "constructor") !in catalog
  {
  }

  /** `setLanguage`'s choice with the table's own languages only: the
      language asked for when it is supported, English otherwise. */
  function SelectLanguage(catalog: Catalog, lang: string): (r: string)
    requires DefaultLang in catalog
    ensures r in catalog
    ensures lang in catalog ==> r == lang
    ensures lang !in catalog ==> r == DefaultLang
  {
    if lang in catalog then lang else DefaultLang
  }

  /** The tag of the browser's first preferred language: the first entry of
      `navigator.languages`, else `navigator.language`, else English;
      an empty string counts as missing. */
  function BrowserTag(languages: seq<string>, language: Option<string>): (r: string)
    ensures r != ""
    ensures |languages| > 0 && languages[0] != "" ==> r == languages[0]
    ensures (|languages| == 0 || languages[0] == "") && language.Some? && language.value != "" ==> r == language.value
    ensures (|languages| == 0 || languages[0] == "") && (language.None? || language.value == "") ==> r == DefaultLang
    ensures r == DefaultLang || (|languages| > 0 && r == languages[0]) || (language.Some? && r == language.value)
  {
    if |languages| > 0 && languages[0] != "" then languages[0]
    else if language.Some? && language.value != "" then language.value
    else DefaultLang
  }

  /** The text before the first `-`, or all of it. */
  function BeforeDash(s: string): (r: string)
    ensures |r| <= |s| && r == s[..|r|]
    ensures '-' !in r
    ensures |r| < |s| ==> s[|r|] == '-'
  {
    if s == [] || s[0] == '-' then []
    else
      var t := BeforeDash(s[1..]);
      assert s[1..][..|t|] == s[1..|t| + 1];
      [s[0]] + t
  }

  /** The browser's primary language subtag, lower-cased: the candidate
      `detectLanguage` tries after the stored choice. */
  function BrowserChoice(languages: seq<string>, language: Option<string>): string {
    Lower(BeforeDash(BrowserTag(languages, language)))
  }

  /** A stored choice `detectLanguage` accepts: present, non-empty and a
      language of the table. */
  predicate UsableStored(catalog: Catalog, stored: Option<string>) {
    stored.Some? && stored.value != "" && stored.value in catalog
  }

  /** `detectLanguage`: a non-empty stored choice the table supports, else the
      lower-cased primary subtag of the browser's tag when supported, else
      English. `stored` is `None` when storage is unavailable. */
  function DetectLanguage(catalog: Catalog, stored: Option<string>, languages: seq<string>, language: Option<string>): (r: string)
    requires DefaultLang in catalog
    ensures r in catalog
    ensures UsableStored(catalog, stored) ==> r == stored.value
    ensures !UsableStored(catalog, stored) ==> r == SelectLanguage(catalog, BrowserChoice(languages, language))
  {
    if UsableStored(catalog, stored) then stored.value
    else
      var primary := BrowserChoice(languages, language);
      if primary in catalog then primary else DefaultLang
  }

  /** Without a usable stored choice, the browser's tag decides, with or
      without a region: `fr` and `fr-CA` both select French when the table
      has it, and English otherwise. */
  lemma DetectFromBrowser(catalog: Catalog, stored: Option<string>, languages: seq<string>, language: Option<string>,
                          primary: string, region: Option<string>)
    requires DefaultLang in catalog && !UsableStored(catalog, stored)
    requires '-' !in primary
    requires BrowserTag(languages, language) == if region.Some? then primary + "-" + region.value else primary
    ensures Lower(primary) in catalog ==> DetectLanguage(catalog, stored, languages, language) == Lower(primary)
    ensures Lower(primary) !in catalog ==> DetectLanguage(catalog, stored, languages, language) == DefaultLang
  {
    if region.Some? {
      var tag := primary + "-" + region.value;
      assert tag[..|primary|] == primary && tag[|primary|] == '-';
      PrefixBeforeDash(tag, primary);
    } else {
      WholeBeforeDash(primary);
    }
  }

  /** With storage unavailable and no browser language at all, the page is
      in English. */
  lemma DetectDefaultsToEnglish(catalog: Catalog)
    requires DefaultLang in catalog
    ensures DetectLanguage(catalog, None, [], None) == DefaultLang
  {
    DetectFromBrowser(catalog, None, [], None, DefaultLang, None);
  }

  lemma {:induction false} WholeBeforeDash(s: string)
    requires '-' !in s
    ensures BeforeDash(s) == s
  {
    if s != [] {
      assert s[0] in s;
      assert forall c :: c in s[1..] ==> c in s;
      WholeBeforeDash(s[1..]);
    }
  }

  /** `detectLanguage` as written: both tests take any truthy property of
      the table, including names inherited from `Object.prototype`. */
  function DetectLanguageAsWritten(catalog: Catalog, stored: Option<string>, languages: seq<string>, language: Option<string>): (r: string)
    ensures UsableStored(catalog, stored) ==> r == stored.value
    ensures r !in catalog ==> r == DefaultLang || r in PrototypeNames
  {
    if stored.Some? && stored.value != "" && TruthyAsWritten(catalog, stored.value) then stored.value
    else
      var primary := BrowserChoice(languages, language);
      if TruthyAsWritten(catalog, primary) then primary else DefaultLang
  }

  /** As written, `"constructor"` left in storage is restored as the
      language, although the table has no such language. */
  lemma AsWrittenDetectsUnsupported(catalog: Catalog, languages: seq<string>, language: Option<string>)
    requires DefaultLang in catalog && "constructor" !in catalog
    ensures DetectLanguageAsWritten(catalog, Some("constructor"), languages, language) == "constructor"
    ensures DetectLanguageAsWritten(catalog, Some("constructor"), languages, language) !in catalog
  {
  }

  /** Away from the inherited names, the code as written and the corrected
      `DetectLanguage` choose alike. */
  lemma AsWrittenDetectAgrees(catalog: Catalog, stored: Option<string>, languages: seq<string>, language: Option<string>)
    requires DefaultLang in catalog
    requires stored.Some? ==> stored.value !in PrototypeNames
    requires BrowserChoice(languages, language) !in PrototypeNames
    ensures DetectLanguageAsWritten(catalog, stored, languages, language) == DetectLanguage(catalog, stored, languages, language)
  {
  }

  lemma {:induction false} PrefixBeforeDash(s: string, p: string)
    requires |p| < |s| && s[..|p|] == p && s[|p|] == '-' && '-' !in p
    ensures BeforeDash(s) == p
  {
    if p != [] {
      assert s[1..][..|p| - 1] == p[1..];
      PrefixBeforeDash(s[1..], p[1..]);
    }
  }

  // ---------------------------------------------------------------------
  // Document attributes

  /** The `lang` attribute: Simplified Chinese is tagged `zh-Hans`. */
  function LangAttribute(lang: string): (r: string)
    ensures lang == "zh" ==> r == "zh-Hans"
    ensures lang != "zh" ==> r == lang
  {
    if lang == "zh" then "zh-Hans" else lang
  }

  const RtlLanguages: set<string> := {"ar"}

  /** The `dir` attribute: right to left exactly for Arabic. */
  function Direction(lang: string): (r: string)
    ensures r == "rtl" <==> lang == "ar"
    ensures r == "rtl" || r == "ltr"
  {
    if lang in RtlLanguages then "rtl" else "ltr"
  }

  // ---------------------------------------------------------------------
  // The module's state

  /** The script's state: the current language, the attributes it writes
      on the document, what it stores, and the languages announced by
      `languagechange` events. */
  class Localizer {
    const catalog: Catalog
    var currentLang: string
    var documentLang: string
    var documentDir: string
    var stored: Option<string>
    var announced: seq<string>

    ghost predicate Valid()
      reads this
    {
      && DefaultLang in catalog
      && currentLang in catalog
      && documentLang == LangAttribute(currentLang)
      && documentDir == Direction(currentLang)
    }

    /** Loading the script: detect the language and set the document's
        attributes for it. */
    constructor (catalog: Catalog, stored: Option<string>, languages: seq<string>, language: Option<string>)
      requires DefaultLang in catalog
      ensures Valid()
      ensures this.catalog == catalog && this.stored == stored && announced == []
      ensures currentLang == DetectLanguage(catalog, stored, languages, language)
    {
      this.catalog := catalog;
      var lang := DetectLanguage(catalog, stored, languages, language);
      currentLang := lang;
      documentLang := LangAttribute(lang);
      documentDir := Direction(lang);
      this.stored := stored;
      announced := [];
    }

    /** `translateKey` in the current language: the current language's
        template, else the English one, formatted with the parameters; a key
        neither has is shown as it is unless it holds a placeholder. */
    function Translate(key: string, params: map<string, string>): (r: string)
      reads this
      requires Valid()
      ensures key in catalog[currentLang] ==> r == FormatTemplate(catalog[currentLang][key], params)
      ensures key !in catalog[currentLang] && key in catalog[DefaultLang] ==> r == FormatTemplate(catalog[DefaultLang][key], params)
      ensures key !in catalog[currentLang] && key !in catalog[DefaultLang] && NoPlaceholder(key) ==> r == key
    {
      var template := TemplateFor(catalog, currentLang, key);
      if template == key && NoPlaceholder(key) then
        FormatWithoutPlaceholder(key, params);
        FormatTemplate(template, params)
      else
        FormatTemplate(template, params)
    }

    /** `setLanguage`: switch to the language when supported (English
        otherwise) and set the document's attributes; unless silent, store
        the choice and announce it. */
    method SetLanguage(lang: string, silent: bool)
      requires Valid()
      modifies this
      ensures Valid()
      ensures currentLang == SelectLanguage(catalog, lang)
      ensures silent ==> stored == old(stored) && announced == old(announced)
      ensures !silent ==> stored == Some(currentLang) && announced == old(announced) + [currentLang]
    {
      var target := if lang in catalog then lang else DefaultLang;
      currentLang := target;
      documentLang := if target == "zh" then "zh-Hans" else target;
      documentDir := if target in RtlLanguages then "rtl" else "ltr";
      if !silent {
        stored := Some(target);
        announced := announced + [target];
      }
    }
  }
}
