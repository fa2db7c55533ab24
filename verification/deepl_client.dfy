/**
 * The newer client's request builders: parameter validation, the indexed
 * parameters of multilingual glossaries, the language query string, the
 * rephrasing parameters, and the glossary requests that use them.
 */
module Client {
  import opened Wrappers
  import opened Text
  import opened Errors
  import opened LanguageCode
  import opened Content
  import opened Http
  import opened Glossary
  import opened Translation

  // ---------------------------------------------------------------------------
  // Validation

  /** A parameter value that is present and not empty. */
  predicate Given(value: Option<string>) {
    value.Some? && value.value != ""
  }

  /** validateParameter: a missing or empty value is rejected, naming the parameter. */
  function ValidateParameter(name: string, value: Option<string>): (r: Outcome<Error>)
    ensures r.Pass? <==> Given(value)
    ensures r.Fail? ==> r.error == IllegalArgument(EmptyParameter(name))
  {
    if value.None? || value.value == "" then Fail(IllegalArgument(EmptyParameter(name))) else Pass
  }

  /**
   * The guards of createMultilingualGlossary: the name is validated first,
   * then the list of dictionaries must not be empty.
   */
  function CheckNewGlossary(name: Option<string>, dictionaryCount: nat): (r: Outcome<Error>)
    ensures r.Pass? <==> Given(name) && dictionaryCount > 0
    ensures !Given(name) ==> r == Fail(IllegalArgument(EmptyParameter("name")))
    ensures Given(name) && dictionaryCount == 0 ==> r == Fail(IllegalArgument(EmptyDictionaries))
  {
    match ValidateParameter("name", name)
    case Fail(e) => Fail(e)
    case Pass => if dictionaryCount == 0 then Fail(IllegalArgument(EmptyDictionaries)) else Pass
  }

  // ---------------------------------------------------------------------------
  // Glossary dictionary parameters

  /** The four fields every dictionary is sent with, in order. */
  const DictionaryFields: seq<string> := ["source_lang", "target_lang", "entries", "entries_format"]

  /** The key "dictionaries[<i>].<field>" with the index in decimal. */
  function IndexedKey(i: nat, field: string): string {
    "dictionaries[" + NatToString(i) + "]." + field
  }

  /** The four pairs of dictionary number i. */
  function DictionaryPairs(i: nat, sourceLang: string, targetLang: string, entries: string, format: string): Params {
    [(IndexedKey(i, DictionaryFields[0]), sourceLang), (IndexedKey(i, DictionaryFields[1]), targetLang),
     (IndexedKey(i, DictionaryFields[2]), entries), (IndexedKey(i, DictionaryFields[3]), format)]
  }

  /** createGlossaryDictionariesHttpParams: the pairs of a single dictionary, numbered 0. */
  method CreateGlossaryDictionariesHttpParams(sourceLang: string, targetLang: string, entries: string, format: string)
    returns (r: Params)
    ensures r == DictionaryPairs(0, sourceLang, targetLang, entries, format)
  {
    assert NatToString(0) == "0";
    assert IndexedKey(0, DictionaryFields[0]) == "dictionaries[0].source_lang";
    assert IndexedKey(0, DictionaryFields[1]) == "dictionaries[0].target_lang";
    assert IndexedKey(0, DictionaryFields[2]) == "dictionaries[0].entries";
    assert IndexedKey(0, DictionaryFields[3]) == "dictionaries[0].entries_format";
    r := [];
    r := r + [("dictionaries[0].source_lang", sourceLang)];
    r := r + [("dictionaries[0].target_lang", targetLang)];
    r := r + [("dictionaries[0].entries", entries)];
    r := r + [("dictionaries[0].entries_format", format)];
  }

  /** The position of the first `c` in `s`, or |s| if there is none. */
  function FindChar(s: string, c: char): (r: nat)
    ensures r <= |s|
    ensures forall k :: 0 <= k < r ==> s[k] != c
    ensures r < |s| ==> s[r] == c
  {
    if |s| == 0 || s[0] == c then 0 else 1 + FindChar(s[1..], c)
  }

  lemma FindCharAt(a: string, b: string, c: char)
    requires c !in a && |b| > 0 && b[0] == c
    ensures FindChar(a + b, c) == |a|
  {
    var n := FindChar(a + b, c);
    assert (a + b)[|a|] == c;
    assert forall k :: 0 <= k < |a| ==> (a + b)[k] == a[k];
  }

  /** A number in decimal holds no ']'. */
  lemma NoBracketInDigits(n: nat)
    ensures ']' !in NatToString(n)
  {
    var a := NatToString(n);
    assert forall k :: 0 <= k < |a| ==> IsDigit(a[k]);
  }

  /** Strings of the form x + "]." + y with no ']' in x split uniquely at their first ']'. */
  lemma SplitAtBracket(a: string, b: string, f: string, g: string)
    requires ']' !in a && ']' !in b && a + "]." + f == b + "]." + g
    ensures a == b && f == g
  {
    var t := a + "]." + f;
    assert t == a + ("]." + f) && t == b + ("]." + g);
    FindCharAt(a, "]." + f, ']');
    FindCharAt(b, "]." + g, ']');
    assert t[..|a|] == a;
    assert (b + "]." + g)[..|b|] == b;
    assert t[|a| + 2..] == f;
    assert (b + "]." + g)[|b| + 2..] == g;
  }

  /** Each key names one dictionary and one field: two keys are equal exactly when their indices and fields are. */
  lemma IndexedKeyInjective(i: nat, j: nat, f: string, g: string)
    ensures IndexedKey(i, f) == IndexedKey(j, g) <==> i == j && f == g
  {
    if IndexedKey(i, f) == IndexedKey(j, g) {
      var a, b := NatToString(i), NatToString(j);
      var prefix := "dictionaries[";
      assert IndexedKey(i, f) == prefix + (a + "]." + f);
      assert IndexedKey(j, g) == prefix + (b + "]." + g);
      assert (prefix + (a + "]." + f))[|prefix|..] == a + "]." + f;
      assert (prefix + (b + "]." + g))[|prefix|..] == b + "]." + g;
      NoBracketInDigits(i);
      NoBracketInDigits(j);
      SplitAtBracket(a, b, f, g);
      NatToStringRoundTrip(i);
      NatToStringRoundTrip(j);
    }
  }

  /** A dictionary as sent: its language codes and its entries in TSV form. */
  datatype DictionaryRequest = DictionaryRequest(sourceLang: string, targetLang: string, tsv: string)

  /** The pairs of all dictionaries, numbered from 0 in list order. */
  function AllDictionaryPairs(dicts: seq<DictionaryRequest>): (r: Params)
    ensures |r| == 4 * |dicts|
  {
    if |dicts| == 0 then []
    else
      var last := dicts[|dicts| - 1];
      AllDictionaryPairs(dicts[..|dicts| - 1]) + DictionaryPairs(|dicts| - 1, last.sourceLang, last.targetLang, last.tsv, "tsv")
  }

  /** The specification of createGlossaryHttpParams: the name, then each dictionary's four pairs. */
  function GlossaryParams(name: string, dicts: seq<DictionaryRequest>): Params {
    [("name", name)] + AllDictionaryPairs(dicts)
  }

  /**
   * The glossary parameters are 1 + 4n pairs: the name first, then for
   * dictionary i, at positions 1 + 4i to 4 + 4i, its source language,
   * target language, entries and the format "tsv".
   */
  lemma {:induction false} GlossaryParamsShape(name: string, dicts: seq<DictionaryRequest>)
    ensures |GlossaryParams(name, dicts)| == 1 + 4 * |dicts|
    ensures GlossaryParams(name, dicts)[0] == ("name", name)
    ensures forall i, j :: 0 <= i < |dicts| && 0 <= j < 4 ==>
      GlossaryParams(name, dicts)[1 + 4 * i + j] ==
        DictionaryPairs(i, dicts[i].sourceLang, dicts[i].targetLang, dicts[i].tsv, "tsv")[j]
    decreases |dicts|
  {
    if |dicts| > 0 {
      var init := dicts[..|dicts| - 1];
      GlossaryParamsShape(name, init);
      var n := |init|;
      var last := dicts[n];
      assert GlossaryParams(name, dicts) == GlossaryParams(name, init) +
        DictionaryPairs(n, last.sourceLang, last.targetLang, last.tsv, "tsv");
      forall i, j | 0 <= i < |dicts| && 0 <= j < 4
        ensures GlossaryParams(name, dicts)[1 + 4 * i + j] ==
          DictionaryPairs(i, dicts[i].sourceLang, dicts[i].targetLang, dicts[i].tsv, "tsv")[j]
      {
        if i < n {
          assert dicts[i] == init[i];
        }
      }
    }
  }

  /** The four pairs of dictionary i carry the keys of its four fields, in order. */
  lemma DictionaryPairKeys(i: nat, sourceLang: string, targetLang: string, entries: string, format: string, j: nat)
    requires j < 4
    ensures DictionaryPairs(i, sourceLang, targetLang, entries, format)[j].0 == IndexedKey(i, DictionaryFields[j])
  {
  }

  /** Every parameter after the name carries the key of field (p - 1) % 4 of dictionary (p - 1) / 4. */
  lemma KeyAt(name: string, dicts: seq<DictionaryRequest>, p: nat)
    requires 1 <= p < |GlossaryParams(name, dicts)|
    ensures (p - 1) / 4 < |dicts|
    ensures GlossaryParams(name, dicts)[p].0 == IndexedKey((p - 1) / 4, DictionaryFields[(p - 1) % 4])
  {
    GlossaryParamsShape(name, dicts);
    var i, j := (p - 1) / 4, (p - 1) % 4;
    assert 1 + 4 * i + j == p;
    var d := dicts[i];
    DictionaryPairKeys(i, d.sourceLang, d.targetLang, d.tsv, "tsv", j);
  }

  /** Positions after the name with the same dictionary and field are the same position. */
  lemma SamePosition(p: nat, q: nat)
    requires 1 <= p && 1 <= q
    ensures p == q <==> (p - 1) / 4 == (q - 1) / 4 && (p - 1) % 4 == (q - 1) % 4
  {
  }

  /** No two glossary parameters share a key, so the server can tell every dictionary's fields apart. */
  lemma GlossaryKeysDistinct(name: string, dicts: seq<DictionaryRequest>)
    ensures var ps := GlossaryParams(name, dicts);
      forall p, q :: 0 <= p < q < |ps| ==> ps[p].0 != ps[q].0
  {
    var ps := GlossaryParams(name, dicts);
    forall p, q | 0 <= p < q < |ps|
      ensures ps[p].0 != ps[q].0
    {
      KeyAt(name, dicts, q);
      if p == 0 {
        GlossaryParamsShape(name, dicts);
        assert ps[q].0[0] == 'd';
      } else {
        KeyAt(name, dicts, p);
        var i1, j1, i2, j2 := (p - 1) / 4, (p - 1) % 4, (q - 1) / 4, (q - 1) % 4;
        IndexedKeyInjective(i1, i2, DictionaryFields[j1], DictionaryFields[j2]);
        SamePosition(p, q);
        assert j1 != j2 ==> DictionaryFields[j1] != DictionaryFields[j2];
      }
    }
  }

  /** A dictionary of a new multilingual glossary: its language codes and its entries object. */
  datatype DictionaryEntries = DictionaryEntries(sourceLang: string, targetLang: string, entries: GlossaryEntries)

  /** The dictionaries as sent, given the TSV each one's entries serialised to. */
  function Requests(dicts: seq<DictionaryEntries>, tsvs: seq<string>): (r: seq<DictionaryRequest>)
    requires |tsvs| == |dicts|
    ensures |r| == |dicts|
  {
    seq(|dicts|, i requires 0 <= i < |dicts| => DictionaryRequest(dicts[i].sourceLang, dicts[i].targetLang, tsvs[i]))
  }

  /**
   * createGlossaryHttpParams: the name, then for each dictionary in order
   * its four indexed pairs, the entries serialised by toTsv.
   */
  method CreateGlossaryHttpParams(name: string, dicts: seq<DictionaryEntries>)
    returns (r: Params, tsvs: seq<string>)
    ensures |tsvs| == |dicts|
    ensures forall i :: 0 <= i < |dicts| ==> IsTsvOf(tsvs[i], dicts[i].entries.entries)
    ensures r == GlossaryParams(name, Requests(dicts, tsvs))
  {
    r := [("name", name)];
    tsvs := [];
    for i := 0 to |dicts|
      invariant |tsvs| == i
      invariant forall k :: 0 <= k < i ==> IsTsvOf(tsvs[k], dicts[k].entries.entries)
      invariant r == GlossaryParams(name, Requests(dicts[..i], tsvs))
    {
      var d := dicts[i];
      var tsv;
      ghost var order;
      tsv, order := d.entries.ToTsv();
      ghost var before := r;
      r := r + [(IndexedKey(i, "source_lang"), d.sourceLang)];
      r := r + [(IndexedKey(i, "target_lang"), d.targetLang)];
      r := r + [(IndexedKey(i, "entries"), tsv)];
      r := r + [(IndexedKey(i, "entries_format"), "tsv")];
      assert r == before + DictionaryPairs(i, d.sourceLang, d.targetLang, tsv, "tsv");
      assert IsTsvOf(tsv, d.entries.entries);
      RequestsSnoc(dicts, tsvs, tsv);
      GlossaryParamsSnoc(name, Requests(dicts[..i], tsvs), DictionaryRequest(d.sourceLang, d.targetLang, tsv));
      tsvs := tsvs + [tsv];
    }
    assert dicts[..|dicts|] == dicts;
  }

  /** One more dictionary and its TSV add one more request at the end. */
  lemma RequestsSnoc(dicts: seq<DictionaryEntries>, tsvs: seq<string>, tsv: string)
    requires |tsvs| < |dicts|
    ensures var i := |tsvs|;
      Requests(dicts[..i + 1], tsvs + [tsv]) ==
      Requests(dicts[..i], tsvs) + [DictionaryRequest(dicts[i].sourceLang, dicts[i].targetLang, tsv)]
  {
  }

  /** One more dictionary adds its four pairs, numbered by its position, at the end. */
  lemma GlossaryParamsSnoc(name: string, dicts: seq<DictionaryRequest>, d: DictionaryRequest)
    ensures GlossaryParams(name, dicts + [d]) ==
      GlossaryParams(name, dicts) + DictionaryPairs(|dicts|, d.sourceLang, d.targetLang, d.tsv, "tsv")
  {
    assert (dicts + [d])[..|dicts|] == dicts;
  }

  // ---------------------------------------------------------------------------
  // Language query

  /** One query assignment "name=value". */
  function Assignment(name: string, value: string): string {
    name + "=" + value
  }

  /**
   * createLanguageQueryParams: both codes are validated, source first; then
   * the query "?source_lang=<code>&target_lang=<code>" with the codes URL-encoded.
   */
  function LanguageQuery(sourceLang: Option<string>, targetLang: Option<string>, enc: string -> string)
    : (r: Result<string, Error>)
    ensures r.Success? <==> Given(sourceLang) && Given(targetLang)
    ensures !Given(sourceLang) ==> r == Failure(IllegalArgument(EmptyParameter("sourceLanguageCode")))
    ensures Given(sourceLang) && !Given(targetLang) ==> r == Failure(IllegalArgument(EmptyParameter("targetLanguageCode")))
    ensures r.Success? ==>
      r.value == "?" + Assignment("source_lang", enc(sourceLang.value)) + "&" + Assignment("target_lang", enc(targetLang.value))
  {
    match ValidateParameter("sourceLanguageCode", sourceLang)
    case Fail(e) => Failure(e)
    case Pass =>
      match ValidateParameter("targetLanguageCode", targetLang)
      case Fail(e) => Failure(e)
      case Pass =>
        var a, b := Assignment("source_lang", enc(sourceLang.value)), Assignment("target_lang", enc(targetLang.value));
        JoinTwo(a, b, "&");
        Success("?" + Join([a, b], "&"))
  }

  lemma JoinTwo(a: string, b: string, sep: string)
    ensures Join([a, b], sep) == a + sep + b
  {
    assert [a, b][..1] == [a];
  }

  /**
   * With an encoder that never emits '&' or '=', the query after its '?'
   * splits into the two assignments, and each into its name and encoded code.
   */
  lemma LanguageQueryReadBack(sourceLang: string, targetLang: string, enc: string -> string)
    requires sourceLang != "" && targetLang != ""
    requires forall s :: '&' !in enc(s) && '=' !in enc(s)
    ensures var q := LanguageQuery(Some(sourceLang), Some(targetLang), enc).value;
      var a, b := Assignment("source_lang", enc(sourceLang)), Assignment("target_lang", enc(targetLang));
      && q[0] == '?'
      && SplitOn(q[1..], '&') == [a, b]
      && SplitOn(a, '=') == ["source_lang", enc(sourceLang)]
      && SplitOn(b, '=') == ["target_lang", enc(targetLang)]
  {
    var a, b := Assignment("source_lang", enc(sourceLang)), Assignment("target_lang", enc(targetLang));
    var q := LanguageQuery(Some(sourceLang), Some(targetLang), enc).value;
    assert q[1..] == a + ['&'] + b;
    PlainName("source_lang");
    PlainName("target_lang");
    AssignmentPieces("source_lang", enc(sourceLang));
    AssignmentPieces("target_lang", enc(targetLang));
    SplitOnPair(a, b, '&');
  }

  lemma PlainName(name: string)
    requires name == "source_lang" || name == "target_lang"
    ensures '&' !in name && '=' !in name
  {
  }

  /** An assignment whose name and value hold no '&' or '=' splits back at its '='. */
  lemma AssignmentPieces(name: string, value: string)
    requires '&' !in name && '=' !in name && '&' !in value && '=' !in value
    ensures '&' !in Assignment(name, value)
    ensures SplitOn(Assignment(name, value), '=') == [name, value]
  {
    assert Assignment(name, value) == name + ['='] + value;
    SplitOnPair(name, value, '=');
  }

  // ---------------------------------------------------------------------------
  // Rephrasing

  /** The rephrasing options: a writing style and a tone, each optional. */
  datatype RephraseOptions = RephraseOptions(writingStyle: Option<string>, tone: Option<string>)

  function StyleOf(options: Option<RephraseOptions>): Option<string> {
    if options.Some? then options.value.writingStyle else None
  }

  function ToneOf(options: Option<RephraseOptions>): Option<string> {
    if options.Some? then options.value.tone else None
  }

  /**
   * createWriteHttpParams as intended: a given target language is
   * standardised and checked, and sent first; a missing one is left out.
   * Then the writing style and tone if set, then each text in order; an
   * empty text is rejected.
   */
  function WriteParams(texts: seq<string>, targetLang: Option<string>, options: Option<RephraseOptions>)
    : (r: Result<Params, Error>)
    ensures r.Failure? ==> r.error.IllegalArgument?
  {
    var target := if targetLang.Some? then Some(Standardize(targetLang.value)) else None;
    var valid := if target.Some? then CheckValidLanguages(None, target.value) else Pass;
    if valid.Fail? then Failure(valid.error)
    else if "" in texts then Failure(IllegalArgument(EmptyText))
    else Success(Opt("target_lang", target) + Opt("writing_style", StyleOf(options)) + Opt("tone", ToneOf(options)) +
                 KeyedPairs("text", texts))
  }

  /**
   * createWriteHttpParams as written: the target language is standardised
   * ahead of the null check, so a missing target language is a null
   * dereference; a given one takes the path above.
   */
  function WriteParamsAsWritten(texts: seq<string>, targetLang: Option<string>, options: Option<RephraseOptions>)
    : (r: Result<Params, Error>)
    ensures targetLang.Some? ==> r == WriteParams(texts, targetLang, options)
  {
    if targetLang.None? then Failure(NullReference) else WriteParams(texts, targetLang, options)
  }

  /**
   * The two part ways on every call without a target language: one text
   * "Hello" is sent as a single "text" pair by the intended builder but
   * fails with a null dereference as written.
   */
  lemma NullTargetFails(texts: seq<string>, options: Option<RephraseOptions>)
    requires "" !in texts
    ensures WriteParamsAsWritten(texts, None, options) == Failure(NullReference)
    ensures WriteParams(texts, None, options).Success?
    ensures WriteParams(["Hello"], None, None) == Success([("text", "Hello")])
  {
    assert KeyedPairs("text", ["Hello"]) == [("text", "Hello")];
    assert [] + [] + [] + [("text", "Hello")] == [("text", "Hello")];
  }

  /**
   * The rephrasing parameters: they are built exactly when the target, if
   * given, passes the language check and no text is empty; a given target
   * comes first in standard form; the texts follow in input order.
   */
  lemma WriteParamsContent(texts: seq<string>, targetLang: Option<string>, options: Option<RephraseOptions>)
    ensures var r := WriteParams(texts, targetLang, options);
      && (r.Success? <==>
            (targetLang.None? || CheckValidLanguages(None, Standardize(targetLang.value)).Pass?) && "" !in texts)
      && (r.Success? && targetLang.Some? ==> r.value[0] == ("target_lang", Standardize(targetLang.value)))
      && (r.Success? ==> ValuesOf(r.value, "text") == texts)
      && (r.Success? ==> r.value[|r.value| - |texts|..] == KeyedPairs("text", texts))
  {
    var r := WriteParams(texts, targetLang, options);
    if r.Success? {
      var target := if targetLang.Some? then Some(Standardize(targetLang.value)) else None;
      var head := Opt("target_lang", target) + Opt("writing_style", StyleOf(options)) + Opt("tone", ToneOf(options));
      assert r.value == head + KeyedPairs("text", texts);
      ValuesOfAppend(head, KeyedPairs("text", texts), "text");
      OptValues("target_lang", target, "text");
      OptValues("writing_style", StyleOf(options), "text");
      OptValues("tone", ToneOf(options), "text");
      ValuesOfAppend(Opt("target_lang", target), Opt("writing_style", StyleOf(options)), "text");
      ValuesOfAppend(Opt("target_lang", target) + Opt("writing_style", StyleOf(options)), Opt("tone", ToneOf(options)), "text");
      KeyedPairsValues("text", texts, "text");
      assert r.value[|r.value| - |texts|..] == KeyedPairs("text", texts);
    }
  }

  /** An ambiguous target such as "EN" is rejected by the rephrasing builder too. */
  lemma WriteRejectsAmbiguousTarget(texts: seq<string>, targetLang: string, options: Option<RephraseOptions>)
    requires '-' !in targetLang && Lower(targetLang) in {"en", "pt"}
    ensures WriteParams(texts, Some(targetLang), options) == Failure(IllegalArgument(TargetLangNotAllowed(Lower(targetLang))))
  {
    AmbiguousTargetRejected(None, targetLang);
  }

  /** createWriteHttpParams, with a missing target language left out of the parameters. */
  method CreateWriteHttpParams(texts: seq<string>, targetLang: Option<string>, options: Option<RephraseOptions>)
    returns (r: Result<Params, Error>)
    ensures r == WriteParams(texts, targetLang, options)
  {
    var target: Option<string> := None;
    if targetLang.Some? {
      target := Some(Standardize(targetLang.value));
      var valid := CheckValidLanguages(None, target.value);
      if valid.Fail? {
        return Failure(valid.error);
      }
    }
    var params: Params := [];
    if target.Some? {
      params := params + [("target_lang", target.value)];
    }
    AppendOpt([], "target_lang", target);
    ghost var p1 := params;
    if options.Some? && options.value.writingStyle.Some? {
      params := params + [("writing_style", options.value.writingStyle.value)];
    }
    AppendOpt(p1, "writing_style", StyleOf(options));
    ghost var p2 := params;
    if options.Some? && options.value.tone.Some? {
      params := params + [("tone", options.value.tone.value)];
    }
    AppendOpt(p2, "tone", ToneOf(options));
    assert params == Opt("target_lang", target) + Opt("writing_style", StyleOf(options)) + Opt("tone", ToneOf(options));
    r := AddTexts(params, texts);
  }

  // ---------------------------------------------------------------------------
  // Glossary requests

  /** The body of a dictionary replacement: languages, entries and their format, unindexed. */
  function ReplacePairs(sourceLang: string, targetLang: string, entries: string, format: string): Params {
    [("source_lang", sourceLang), ("target_lang", targetLang), ("entries", entries), ("entries_format", format)]
  }

  /**
   * The validations of the dictionary replace and update requests, in the
   * order they run: glossary ID, source code, target code, entries.
   */
  function CheckDictionaryRequest(glossaryId: Option<string>, sourceLang: Option<string>, targetLang: Option<string>,
                                  entries: Option<string>): (r: Outcome<Error>)
    ensures r.Pass? <==> Given(glossaryId) && Given(sourceLang) && Given(targetLang) && Given(entries)
    ensures !Given(glossaryId) ==> r == Fail(IllegalArgument(EmptyParameter("glossaryId")))
    ensures Given(glossaryId) && !Given(sourceLang) ==> r == Fail(IllegalArgument(EmptyParameter("sourceLanguageCode")))
    ensures Given(glossaryId) && Given(sourceLang) && !Given(targetLang) ==>
      r == Fail(IllegalArgument(EmptyParameter("targetLanguageCode")))
    ensures Given(glossaryId) && Given(sourceLang) && Given(targetLang) && !Given(entries) ==>
      r == Fail(IllegalArgument(EmptyParameter("entries")))
  {
    var checks := [ValidateParameter("glossaryId", glossaryId), ValidateParameter("sourceLanguageCode", sourceLang),
                   ValidateParameter("targetLanguageCode", targetLang), ValidateParameter("entries", entries)];
    if checks[0].Fail? then checks[0]
    else if checks[1].Fail? then checks[1]
    else if checks[2].Fail? then checks[2]
    else checks[3]
  }

  /** The newer client: the methods it adds to the client it extends. */
  class DeepLClient {
    const base: Translator

    constructor (base: Translator)
      ensures this.base == base
    {
      this.base := base;
    }

    /**
     * createMultilingualGlossary: the guards run before any request; then
     * the glossary parameters are posted to /v3/glossaries and the response checked.
     */
    method CreateMultilingualGlossary(name: Option<string>, dicts: seq<DictionaryEntries>, enc: string -> string,
                                      env: Environment, parse: string -> Option<string>)
      returns (r: Result<HttpResponse, Error>, tsvs: seq<string>, ghost trace: seq<Event>)
      requires ValidEnvironment(env)
      ensures CheckNewGlossary(name, |dicts|).Fail? ==> r == Failure(CheckNewGlossary(name, |dicts|).error)
      ensures CheckNewGlossary(name, |dicts|).Pass? ==>
        && |tsvs| == |dicts| && (forall i :: 0 <= i < |dicts| ==> IsTsvOf(tsvs[i], dicts[i].entries.entries))
        && var content := FormContent(Some(GlossaryParams(name.value, Requests(dicts, tsvs))), enc);
           var run := RunFromStart(base.http.Configuration(), Call(POST, "/v3/glossaries", Some(content)), env);
           r == Checked(ToStringResult(run.result), false, false, parse)
      ensures CheckNewGlossary(name, |dicts|).Fail? ==> trace == []
      ensures CheckNewGlossary(name, |dicts|).Pass? && |tsvs| == |dicts| ==>
        var content := FormContent(Some(GlossaryParams(name.value, Requests(dicts, tsvs))), enc);
        trace == RunFromStart(base.http.Configuration(), Call(POST, "/v3/glossaries", Some(content)), env).trace
    {
      tsvs := [];
      if name.None? || name.value == "" {
        return Failure(IllegalArgument(EmptyParameter("name"))), tsvs, [];
      }
      if |dicts| == 0 {
        return Failure(IllegalArgument(EmptyDictionaries)), tsvs, [];
      }
      var params;
      params, tsvs := CreateGlossaryHttpParams(name.value, dicts);
      var response;
      response, trace := base.http.Post("/v3/glossaries", Some(params), enc, env);
      r := Checked(response, false, false, parse);
    }

    /** createGlossaryFromCsvInternal: the single dictionary's pairs in CSV format, then the name; no validation. */
    method CreateGlossaryFromCsv(name: string, sourceLang: string, targetLang: string, csv: string,
                                 enc: string -> string, env: Environment, parse: string -> Option<string>)
      returns (r: Result<HttpResponse, Error>, ghost trace: seq<Event>)
      requires ValidEnvironment(env)
      ensures var params := DictionaryPairs(0, sourceLang, targetLang, csv, "csv") + [("name", name)];
        var run := RunFromStart(base.http.Configuration(), Call(POST, "/v3/glossaries", Some(FormContent(Some(params), enc))), env);
        r == Checked(ToStringResult(run.result), false, false, parse)
      ensures var params := DictionaryPairs(0, sourceLang, targetLang, csv, "csv") + [("name", name)];
        trace == RunFromStart(base.http.Configuration(), Call(POST, "/v3/glossaries", Some(FormContent(Some(params), enc))), env).trace
    {
      var params := CreateGlossaryDictionariesHttpParams(sourceLang, targetLang, csv, "csv");
      params := params + [("name", name)];
      var response;
      response, trace := base.http.Post("/v3/glossaries", Some(params), enc, env);
      r := Checked(response, false, false, parse);
    }

    /**
     * replaceGlossaryDictionaryInternal: validate the glossary ID, both codes
     * and the entries in that order, before any request; then PUT the
     * unindexed dictionary to /v3/glossaries/<id>/dictionaries.
     */
    method ReplaceDictionary(glossaryId: Option<string>, sourceLang: Option<string>, targetLang: Option<string>,
                             entries: Option<string>, format: string, enc: string -> string, env: Environment,
                             parse: string -> Option<string>)
      returns (r: Result<HttpResponse, Error>, ghost trace: seq<Event>)
      requires ValidEnvironment(env)
      ensures var checked := CheckDictionaryRequest(glossaryId, sourceLang, targetLang, entries);
        checked.Fail? ==> r == Failure(checked.error)
      ensures CheckDictionaryRequest(glossaryId, sourceLang, targetLang, entries).Pass? ==>
        var params := ReplacePairs(sourceLang.value, targetLang.value, entries.value, format);
        var url := "/v3/glossaries/" + glossaryId.value + "/dictionaries";
        var run := RunFromStart(base.http.Configuration(), Call(PUT, url, Some(FormContent(Some(params), enc))), env);
        r == Checked(ToStringResult(run.result), false, true, parse)
      ensures var checked := CheckDictionaryRequest(glossaryId, sourceLang, targetLang, entries);
        checked.Fail? ==> trace == []
      ensures CheckDictionaryRequest(glossaryId, sourceLang, targetLang, entries).Pass? ==>
        var params := ReplacePairs(sourceLang.value, targetLang.value, entries.value, format);
        var url := "/v3/glossaries/" + glossaryId.value + "/dictionaries";
        trace == RunFromStart(base.http.Configuration(), Call(PUT, url, Some(FormContent(Some(params), enc))), env).trace
    {
      var checked := CheckDictionaryRequest(glossaryId, sourceLang, targetLang, entries);
      if checked.Fail? {
        return Failure(checked.error), [];
      }
      var params: Params := [];
      params := params + [("source_lang", sourceLang.value)];
      params := params + [("target_lang", targetLang.value)];
      params := params + [("entries", entries.value)];
      params := params + [("entries_format", format)];
      assert params == ReplacePairs(sourceLang.value, targetLang.value, entries.value, format);
      var response;
      response, trace := base.http.Put("/v3/glossaries/" + glossaryId.value + "/dictionaries", Some(params), enc, env);
      r := Checked(response, false, true, parse);
    }

    /**
     * updateGlossaryDictionaryInternal: the same validations; then a single
     * PATCH of the dictionary's index-0 pairs to /v3/glossaries/<id>.
     */
    method UpdateDictionary(glossaryId: Option<string>, sourceLang: Option<string>, targetLang: Option<string>,
                            entries: Option<string>, format: string, enc: string -> string,
                            clock: nat -> int, reply: Request -> PatchReply, parse: string -> Option<string>)
      returns (r: Result<HttpResponse, Error>, ghost trace: seq<Event>)
      ensures var checked := CheckDictionaryRequest(glossaryId, sourceLang, targetLang, entries);
        checked.Fail? ==> r == Failure(checked.error)
      ensures CheckDictionaryRequest(glossaryId, sourceLang, targetLang, entries).Pass? ==>
        var params := DictionaryPairs(0, sourceLang.value, targetLang.value, entries.value, format);
        var request := base.http.PatchRequest("/v3/glossaries/" + glossaryId.value, Some(params), enc, clock);
        && request.verb == PATCH
        && request.url == base.http.serverUrl + "/v3/glossaries/" + glossaryId.value
        && request.content == Some(FormContent(Some(params), enc))
        && r == Checked(PatchOutcome(reply(request)), false, true, parse)
      ensures var checked := CheckDictionaryRequest(glossaryId, sourceLang, targetLang, entries);
        checked.Fail? ==> trace == []
      ensures CheckDictionaryRequest(glossaryId, sourceLang, targetLang, entries).Pass? ==>
        var params := DictionaryPairs(0, sourceLang.value, targetLang.value, entries.value, format);
        trace == [Sent(base.http.PatchRequest("/v3/glossaries/" + glossaryId.value, Some(params), enc, clock))]
    {
      var checked := CheckDictionaryRequest(glossaryId, sourceLang, targetLang, entries);
      if checked.Fail? {
        return Failure(checked.error), [];
      }
      var params := CreateGlossaryDictionariesHttpParams(sourceLang.value, targetLang.value, entries.value, format);
      var response;
      response, trace := base.http.Patch("/v3/glossaries/" + glossaryId.value, Some(params), enc, clock, reply);
      r := Checked(response, false, true, parse);
    }

    /** updateMultilingualGlossaryName: a single PATCH of the name, with no validation. */
    method UpdateGlossaryName(glossaryId: string, name: string, enc: string -> string,
                              clock: nat -> int, reply: Request -> PatchReply, parse: string -> Option<string>)
      returns (r: Result<HttpResponse, Error>, ghost trace: seq<Event>)
      ensures var request := base.http.PatchRequest("/v3/glossaries/" + glossaryId, Some([("name", name)]), enc, clock);
        && request.verb == PATCH
        && request.url == base.http.serverUrl + "/v3/glossaries/" + glossaryId
        && request.content == Some(FormContent(Some([("name", name)]), enc))
        && r == Checked(PatchOutcome(reply(request)), false, true, parse)
      ensures trace == [Sent(base.http.PatchRequest("/v3/glossaries/" + glossaryId, Some([("name", name)]), enc, clock))]
    {
      var params: Params := [];
      params := params + [("name", name)];
      var response;
      response, trace := base.http.Patch("/v3/glossaries/" + glossaryId, Some(params), enc, clock, reply);
      r := Checked(response, false, true, parse);
    }
  }
}
