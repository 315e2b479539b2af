/**
 * The two string classifiers of process_survey_data.py: the heuristic
 * language-mention test and the data-science role test. Both lower-case
 * their inputs first, so upper and lower case never matter.
 */
module Classifiers {
  import opened Text

  /**
   * `check_for_lang(lang, s)`: the lower-cased `s` contains `lang + ";"`,
   * `";" + lang` or `"; " + lang`, or equals `lang`, all lower-cased.
   * This is a heuristic, not a tokenizer: it also fires on a token that merely
   * ends or starts with `lang` next to a semicolon.
   */
  predicate CheckForLang(lang: string, text: string) {
    var l, t := Lower(lang), Lower(text);
    Contains(t, l + ";") || Contains(t, ";" + l) || Contains(t, "; " + l) || t == l
  }

  /** The three role fragments `check_for_dev_types` looks for. */
  const DataScientist := "data scientist"
  const MachineLearning := "machine learning"
  const Statistics := "statistics"

  /** `check_for_dev_types(s)`: plain substring containment after lower-casing. */
  predicate CheckForDevTypes(text: string) {
    var t := Lower(text);
    Contains(t, DataScientist) || Contains(t, MachineLearning) || Contains(t, Statistics)
  }

  /** Two texts that agree after lower-casing classify alike, for language and text. */
  lemma CheckForLangIgnoresCase(lang: string, lang': string, text: string, text': string)
    requires Lower(lang) == Lower(lang') && Lower(text) == Lower(text')
    ensures CheckForLang(lang, text) == CheckForLang(lang', text')
  {
  }

  /** In particular, upper- or lower-casing either argument never changes the answer. */
  lemma CheckForLangCaseChange(lang: string, text: string)
    ensures CheckForLang(Upper(lang), text) == CheckForLang(lang, text)
    ensures CheckForLang(lang, Upper(text)) == CheckForLang(lang, text)
    ensures CheckForLang(Lower(lang), Lower(text)) == CheckForLang(lang, text)
  {
    LowerOfUpper(lang);
    LowerOfUpper(text);
    LowerIdempotent(lang);
    LowerIdempotent(text);
  }

  /** Exact match, ignoring case: `("R", "r")` is a mention. */
  lemma CheckForLangExactMatch(lang: string, text: string)
    requires Lower(text) == Lower(lang)
    ensures CheckForLang(lang, text)
  {
  }

  /** A language followed by a semicolon anywhere in the text, in any case, is a mention. */
  lemma CheckForLangBeforeDelimiter(lang: string, text: string)
    requires Contains(text, lang + ";")
    ensures CheckForLang(lang, text)
  {
    ContainsLower(text, lang + ";");
    LowerConcat(lang, ";");
    assert Lower(";") == ";";
  }

  /** A language preceded by ";" or "; " anywhere in the text, in any case, is a mention. */
  lemma CheckForLangAfterDelimiter(lang: string, text: string, delimiter: string)
    requires delimiter == ";" || delimiter == "; "
    requires Contains(text, delimiter + lang)
    ensures CheckForLang(lang, text)
  {
    ContainsLower(text, delimiter + lang);
    LowerConcat(delimiter, lang);
    assert Lower(delimiter) == delimiter;
  }

  /**
   * No false negatives for a list separated by ";" or "; ": a language that
   * stands as a whole entry (first, last, in the middle or alone) is always
   * detected.
   */
  lemma CheckForLangListedEntry(lang: string, before: string, after: string)
    requires before == [] || before[|before| - 1] == ';' || (|before| >= 2 && before[|before| - 2..] == "; ")
    requires after == [] || after[0] == ';'
    ensures CheckForLang(lang, before + lang + after)
  {
    var text := before + lang + after;
    if after != [] {
      assert text[|before|..|before| + |lang + ";"|] == lang + ";";
      ContainsAt(text, lang + ";", |before|);
      CheckForLangBeforeDelimiter(lang, text);
    } else if before != [] {
      var delimiter := if before[|before| - 1] == ';' then ";" else "; ";
      var at := |before| - |delimiter|;
      assert text[at..at + |delimiter + lang|] == delimiter + lang;
      ContainsAt(text, delimiter + lang, at);
      CheckForLangAfterDelimiter(lang, text, delimiter);
    } else {
      assert text == lang;
      assert Lower(text) == Lower(lang);
    }
  }

  /** A lower-cased character of `c in Lower(text)` is `';'` only if `text` has a `';'`. */
  lemma SemicolonInLower(text: string)
    requires ';' in Lower(text)
    ensures ';' in text
  {
    InLower(text, ';');
    var i :| 0 <= i < |text| && LowerChar(text[i]) == ';';
    assert text[i] == ';';
  }

  /**
   * Without any semicolon only the exact match can succeed; so a null field,
   * stringified to "nan", never mentions Python, R or Julia.
   */
  lemma CheckForLangNeedsDelimiter(lang: string, text: string)
    requires ';' !in text && Lower(text) != Lower(lang)
    ensures !CheckForLang(lang, text)
  {
    var l, t := Lower(lang), Lower(text);
    if Contains(t, l + ";") {
      ContainsChar(t, l + ";", ';');
      SemicolonInLower(text);
    } else if Contains(t, ";" + l) {
      ContainsChar(t, ";" + l, ';');
      SemicolonInLower(text);
    } else if Contains(t, "; " + l) {
      ContainsChar(t, "; " + l, ';');
      SemicolonInLower(text);
    }
  }

  /** Every letter of the (lower-cased) language must appear in the lower-cased text. */
  lemma CheckForLangNeedsEveryLetter(lang: string, text: string, c: char)
    requires c in Lower(lang) && c !in Lower(text)
    ensures !CheckForLang(lang, text)
  {
    var l, t := Lower(lang), Lower(text);
    if Contains(t, l + ";") {
      ContainsChar(t, l + ";", c);
    } else if Contains(t, ";" + l) {
      ContainsChar(t, ";" + l, c);
    } else if Contains(t, "; " + l) {
      ContainsChar(t, "; " + l, c);
    }
  }

  /** The documented behaviour on concrete answers: a listed language is found, after ";" or "; "... */
  lemma CheckForLangFindsListed(lang: string, text: string)
    requires || (lang == "Python" && text == "python;c++;java") || (lang == "R" && text == "r")
             || (lang == "R" && text == "Python; R")
    ensures CheckForLang(lang, text)
  {
    if text == "Python; R" {
      var before := "Python; ";
      assert text == before + lang + [];
      assert before[|before| - 2..] == "; ";
      CheckForLangListedEntry(lang, before, []);
    } else if lang == "Python" {
      var l := Lower(lang);
      assert l == "python";
      assert Lower(text)[0..7] == l + ";";
      ContainsAt(Lower(text), l + ";", 0);
    } else {
      assert Lower(text) == "r" == Lower(lang);
    }
  }

  /** ...and an unlisted one, or a missing answer ("nan"), is not. */
  lemma CheckForLangRejectsUnlisted(lang: string, text: string)
    requires (lang == "Python" && text == "java;c++") || (lang in ["Python", "R", "Julia"] && text == "nan")
    ensures !CheckForLang(lang, text)
  {
    if text == "nan" {
      assert Lower(text) == "nan";
      assert Lower(lang)[0] != 'n';
      CheckForLangNeedsDelimiter(lang, text);
    } else {
      assert Lower(lang)[0] == 'p';
      assert 'p' !in Lower(text);
      CheckForLangNeedsEveryLetter(lang, text, 'p');
    }
  }

  /**
   * The heuristic's known looseness, kept on purpose: "R" is reported for
   * "Elixir;Python" (via "r;") and for "Python;Ruby" (via ";r").
   */
  lemma CheckForLangLooseMatches()
    ensures CheckForLang("R", "Elixir;Python")
    ensures CheckForLang("R", "Python;Ruby")
  {
    var l := Lower("R");
    assert l == "r";
    var t := Lower("Elixir;Python");
    assert t[5..7] == l + ";";
    ContainsAt(t, l + ";", 5);
    var t' := Lower("Python;Ruby");
    assert t'[6..8] == ";" + l;
    ContainsAt(t', ";" + l, 6);
  }

  /** The role test only looks at the lower-cased text. */
  lemma CheckForDevTypesIgnoresCase(text: string, text': string)
    requires Lower(text) == Lower(text')
    ensures CheckForDevTypes(text) == CheckForDevTypes(text')
  {
  }

  /** Any of the three fragments, in any case and anywhere in the text, selects the role. */
  lemma CheckForDevTypesFragment(text: string, fragment: string)
    requires fragment == DataScientist || fragment == MachineLearning || fragment == Statistics
    requires Contains(text, fragment) || Contains(text, Upper(fragment))
    ensures CheckForDevTypes(text)
  {
    assert Lower(fragment) == fragment;
    LowerOfUpper(fragment);
    if Contains(text, fragment) {
      ContainsLower(text, fragment);
    } else {
      ContainsLower(text, Upper(fragment));
    }
  }

  /**
   * A sufficient test for rejection: 'a', 'c' and 'i' occur in all three
   * fragments, so a text that lacks one of them in either case is not a
   * data-science role.
   */
  lemma CheckForDevTypesNeedsLetter(text: string, c: char)
    requires c in DataScientist && c in MachineLearning && c in Statistics
    requires c !in Lower(text)
    ensures !CheckForDevTypes(text)
  {
    var t := Lower(text);
    if Contains(t, DataScientist) {
      ContainsChar(t, DataScientist, c);
    } else if Contains(t, MachineLearning) {
      ContainsChar(t, MachineLearning, c);
    } else if Contains(t, Statistics) {
      ContainsChar(t, Statistics, c);
    }
  }

  /** Documented role answers that select the respondent. */
  lemma CheckForDevTypesSelects()
    ensures CheckForDevTypes("Data Scientist")
    ensures CheckForDevTypes("Biostatistics")
  {
    var t := Lower("Data Scientist");
    assert t[0..14] == DataScientist;
    ContainsAt(t, DataScientist, 0);
    var t' := Lower("Biostatistics");
    assert t'[3..13] == Statistics;
    ContainsAt(t', Statistics, 3);
  }

  /**
   * Documented role answers that do not select the respondent, including a
   * null field stringified to "nan", and "ML Engineer", which mentions no
   * fragment literally.
   */
  lemma CheckForDevTypesRejects(text: string)
    requires text == "Backend Developer" || text == "nan" || text == "ML Engineer"
    ensures !CheckForDevTypes(text)
  {
    if text == "ML Engineer" {
      assert 'a' !in Lower(text);
      CheckForDevTypesNeedsLetter(text, 'a');
    } else {
      assert 'i' !in Lower(text);
      CheckForDevTypesNeedsLetter(text, 'i');
    }
  }
}
