/**
 * The request logic of the translation client: account set-up from the
 * authentication key, validation of language codes, the request parameter
 * lists, the classification of error responses, and the document
 * translation sequence of upload, polling and download.
 */
module Translation {
  import opened Wrappers
  import opened Text
  import opened Errors
  import opened LanguageCode
  import opened Content
  import opened Http
  import opened Glossary
  import Documents

  // ---------------------------------------------------------------------------
  // Account set-up

  const ServerUrlFree: string := "https://api-free.deepl.com"
  const ServerUrlPro: string := "https://api.deepl.com"
  const LibraryVersion: string := "deepl-java/1.13.0"

  /** The leading characters String.trim removes: everything up to and including ' '. */
  function TrimFront(s: string): (r: string)
    ensures |r| <= |s| && r == s[|s| - |r|..]
    ensures r == [] || r[0] > ' '
    ensures forall i :: 0 <= i < |s| - |r| ==> s[i] <= ' '
    decreases |s|
  {
    if |s| > 0 && s[0] <= ' ' then TrimFront(s[1..]) else s
  }

  /** The trailing characters String.trim removes. */
  function TrimBack(s: string): (r: string)
    ensures |r| <= |s| && r == s[..|r|]
    ensures r == [] || r[|r| - 1] > ' '
    ensures forall i :: |r| <= i < |s| ==> s[i] <= ' '
    decreases |s|
  {
    if |s| > 0 && s[|s| - 1] <= ' ' then TrimBack(s[..|s| - 1]) else s
  }

  /** String.trim: drop leading and trailing characters up to ' '. */
  function JavaTrim(s: string): string {
    TrimBack(TrimFront(s))
  }

  /** isFreeAccountAuthKey: a key of an API Free account ends in ":fx". */
  predicate IsFreeAccountAuthKey(authKey: Option<string>)
    ensures IsFreeAccountAuthKey(authKey) <==>
      authKey.Some? && |authKey.value| >= 3 && authKey.value[|authKey.value| - 3..] == ":fx"
  {
    authKey.Some? && EndsWith(authKey.value, ":fx")
  }

  /** The platform properties the user agent reports: OS name, version and architecture, and the Java version. */
  datatype Platform = Platform(osName: string, osVersion: string, osArch: string, javaVersion: string)

  /** An application's name and version, reported in the user agent. */
  datatype AppInfo = AppInfo(appName: string, appVersion: string)

  /** The options the client is set up with; the timeout is the minimum request timeout in ns. */
  datatype TranslatorOptions = TranslatorOptions(serverUrl: Option<string>, headers: Option<map<string, string>>,
                                                 sendPlatformInfo: bool, appInfo: Option<AppInfo>,
                                                 timeout: nat, maxRetries: int, apiVersion: string)

  /**
   * constructUserAgentString: the library version, then the platform in
   * parentheses with the Java version if requested, then "name/version" of
   * the application if given.
   */
  function UserAgent(sendPlatformInfo: bool, appInfo: Option<AppInfo>, platform: Platform): (r: string)
    ensures StartsWith(r, LibraryVersion)
    ensures appInfo.Some? ==> EndsWith(r, " " + appInfo.value.appName + "/" + appInfo.value.appVersion)
    ensures !sendPlatformInfo && appInfo.None? ==> r == LibraryVersion
  {
    var platformPart := if sendPlatformInfo then
      " (" + platform.osName + "-" + platform.osVersion + "-" + platform.osArch + ") java/" + platform.javaVersion
      else "";
    var appPart := if appInfo.Some? then " " + appInfo.value.appName + "/" + appInfo.value.appVersion else "";
    ConcatEnds(LibraryVersion, platformPart);
    ConcatEnds(LibraryVersion + platformPart, appPart);
    StartsWithLonger(LibraryVersion + platformPart + appPart, LibraryVersion + platformPart, LibraryVersion);
    LibraryVersion + platformPart + appPart
  }

  lemma ConcatEnds(a: string, b: string)
    ensures StartsWith(a + b, a) && EndsWith(a + b, b)
  {
    assert (a + b)[..|a|] == a;
    assert (a + b)[|a|..] == b;
  }

  lemma StartsWithLonger(s: string, p: string, q: string)
    requires StartsWith(s, p) && StartsWith(p, q)
    ensures StartsWith(s, q)
  {
    assert s[..|q|] == p[..|q|];
  }

  /** The server the client talks to: the configured one, or the Free or Pro server by the key. */
  function ServerUrl(options: TranslatorOptions, sanitizedAuthKey: string): (r: string)
    ensures options.serverUrl.Some? ==> r == options.serverUrl.value
    ensures options.serverUrl.None? ==> (r == ServerUrlFree <==> IsFreeAccountAuthKey(Some(sanitizedAuthKey)))
    ensures options.serverUrl.None? ==> (r == ServerUrlPro <==> !IsFreeAccountAuthKey(Some(sanitizedAuthKey)))
  {
    if options.serverUrl.Some? then options.serverUrl.value
    else if IsFreeAccountAuthKey(Some(sanitizedAuthKey)) then ServerUrlFree
    else ServerUrlPro
  }

  /** Map.putIfAbsent. */
  function PutIfAbsent(m: map<string, string>, k: string, v: string): map<string, string> {
    if k in m then m else m[k := v]
  }

  /**
   * The request headers: the user's headers, kept as given, plus an
   * Authorization and a User-Agent header where the user gave none.
   */
  function Headers(user: Option<map<string, string>>, sanitizedAuthKey: string, userAgent: string)
    : (r: map<string, string>)
    ensures user.Some? ==> forall k :: k in user.value ==> k in r && r[k] == user.value[k]
    ensures r.Keys == (if user.Some? then user.value.Keys else {}) + {"Authorization", "User-Agent"}
    ensures (user.None? || "Authorization" !in user.value) ==> r["Authorization"] == "DeepL-Auth-Key " + sanitizedAuthKey
    ensures (user.None? || "User-Agent" !in user.value) ==> r["User-Agent"] == userAgent
  {
    var headers := if user.Some? then user.value else map[];
    var headers := PutIfAbsent(headers, "Authorization", "DeepL-Auth-Key " + sanitizedAuthKey);
    PutIfAbsent(headers, "User-Agent", userAgent)
  }

  // ---------------------------------------------------------------------------
  // Language codes

  /**
   * checkValidLanguages: a source language, if given, must not be empty; the
   * target must not be empty, nor one of the ambiguous codes "en" and "pt".
   */
  function CheckValidLanguages(sourceLang: Option<string>, targetLang: string): (r: Outcome<Error>)
    ensures r.Pass? <==>
      ((sourceLang.None? || |sourceLang.value| > 0) && |targetLang| > 0 && targetLang != "en" && targetLang != "pt")
    ensures r.Fail? ==> r.error.IllegalArgument?
  {
    if sourceLang.Some? && |sourceLang.value| == 0 then Fail(IllegalArgument(EmptySourceLang))
    else if |targetLang| == 0 then Fail(IllegalArgument(EmptyTargetLang))
    else if targetLang == "en" || targetLang == "pt" then Fail(IllegalArgument(TargetLangNotAllowed(targetLang)))
    else Pass
  }

  /**
   * The check runs on standardised codes, so a target with no region that
   * lower-cases to "en" or "pt" ("EN", "Pt", ...) is rejected too.
   */
  lemma AmbiguousTargetRejected(sourceLang: Option<string>, targetLang: string)
    requires sourceLang.None? || |sourceLang.value| > 0
    requires '-' !in targetLang && Lower(targetLang) in {"en", "pt"}
    ensures CheckValidLanguages(sourceLang, Standardize(targetLang)) ==
      Fail(IllegalArgument(TargetLangNotAllowed(Lower(targetLang))))
  {
    StandardizeWithoutDash(targetLang);
  }

  // ---------------------------------------------------------------------------
  // Parameter lists

  /** A request's parameters: key/value pairs in order, keys may repeat. */
  type Params = seq<(string, string)>

  function Keys(ps: Params): (r: seq<string>)
    ensures |r| == |ps| && forall i :: 0 <= i < |ps| ==> r[i] == ps[i].0
  {
    seq(|ps|, i requires 0 <= i < |ps| => ps[i].0)
  }

  /** The values of the pairs with key k, in order. */
  function ValuesOf(ps: Params, k: string): seq<string> {
    if |ps| == 0 then []
    else ValuesOf(ps[..|ps| - 1], k) + (if ps[|ps| - 1].0 == k then [ps[|ps| - 1].1] else [])
  }

  lemma {:induction false} ValuesOfAppend(ps: Params, qs: Params, k: string)
    ensures ValuesOf(ps + qs, k) == ValuesOf(ps, k) + ValuesOf(qs, k)
    decreases |qs|
  {
    if |qs| == 0 {
      assert ps + qs == ps;
    } else {
      assert (ps + qs)[..|ps + qs| - 1] == ps + qs[..|qs| - 1];
      ValuesOfAppend(ps, qs[..|qs| - 1], k);
    }
  }

  lemma {:induction false} ValuesOfAbsent(ps: Params, k: string)
    requires k !in Keys(ps)
    ensures ValuesOf(ps, k) == []
    decreases |ps|
  {
    if |ps| > 0 {
      assert Keys(ps[..|ps| - 1]) == Keys(ps)[..|ps| - 1];
      assert ps[|ps| - 1].0 == Keys(ps)[|ps| - 1];
      ValuesOfAbsent(ps[..|ps| - 1], k);
    }
  }

  /** A pair for an optional value: none when the value is absent. */
  function Opt(key: string, value: Option<string>): (r: Params)
    ensures |r| <= 1
  {
    if value.Some? then [(key, value.value)] else []
  }

  /** The Formality option. */
  datatype Formality = Default | More | Less | PreferMore | PreferLess

  function FormalityValue(f: Formality): string {
    match f
    case More => "more"
    case Less => "less"
    case PreferMore => "prefer_more"
    case PreferLess => "prefer_less"
    case Default => "default"
  }

  /** The key order of the common parameters, with the optional ones left out where absent. */
  function CommonKeys(hasSource: bool, hasFormality: bool, hasGlossary: bool): seq<string> {
    (if hasSource then ["source_lang"] else []) + ["target_lang"] +
    (if hasFormality then ["formality"] else []) + (if hasGlossary then ["glossary_id"] else [])
  }

  function StandardizeOpt(code: Option<string>): Option<string> {
    if code.Some? then Some(Standardize(code.value)) else None
  }

  /**
   * createHttpParamsCommon: standardise both codes and check them; then the
   * source language if given, the target language, the formality if given and
   * the glossary if given, which needs a source language.
   */
  function ParamsCommon(sourceLang: Option<string>, targetLang: string, formality: Option<Formality>,
                        glossaryId: Option<string>): (r: Result<Params, Error>)
    ensures r.Success? <==>
      (CheckValidLanguages(StandardizeOpt(sourceLang), Standardize(targetLang)).Pass? &&
       (glossaryId.Some? ==> sourceLang.Some?))
    ensures r.Failure? ==> r.error.IllegalArgument?
    ensures glossaryId.Some? && sourceLang.None? ==> r.Failure?
    ensures r.Success? ==> Keys(r.value) == CommonKeys(sourceLang.Some?, formality.Some?, glossaryId.Some?)
    ensures r.Success? ==> r.value[if sourceLang.Some? then 1 else 0] == ("target_lang", Standardize(targetLang))
    ensures r.Success? && sourceLang.Some? ==> r.value[0] == ("source_lang", Standardize(sourceLang.value))
  {
    var target := Standardize(targetLang);
    var source := StandardizeOpt(sourceLang);
    match CheckValidLanguages(source, target)
    case Fail(e) => Failure(e)
    case Pass =>
      if glossaryId.Some? && source.None? then Failure(IllegalArgument(GlossaryWithoutSourceLang))
      else
        var formalityValue := if formality.Some? then Some(FormalityValue(formality.value)) else None;
        CommonParamsShape(source, target, formalityValue, glossaryId);
        Success(Opt("source_lang", source) + [("target_lang", target)] + Opt("formality", formalityValue) +
                Opt("glossary_id", glossaryId))
  }

  /** The common pairs carry the common keys, the source language first when given and the target language next. */
  lemma CommonParamsShape(source: Option<string>, target: string, formalityValue: Option<string>, glossaryId: Option<string>)
    ensures var ps := Opt("source_lang", source) + [("target_lang", target)] + Opt("formality", formalityValue) +
                      Opt("glossary_id", glossaryId);
      && Keys(ps) == CommonKeys(source.Some?, formalityValue.Some?, glossaryId.Some?)
      && ps[if source.Some? then 1 else 0] == ("target_lang", target)
      && (source.Some? ==> ps[0] == ("source_lang", source.value))
  {
  }

  /** createHttpParamsCommon, adding to a list. */
  method CreateHttpParamsCommon(sourceLang: Option<string>, targetLang: string, formality: Option<Formality>,
                                glossaryId: Option<string>) returns (r: Result<Params, Error>)
    ensures r == ParamsCommon(sourceLang, targetLang, formality, glossaryId)
  {
    var target := Standardize(targetLang);
    var source := if sourceLang.Some? then Some(Standardize(sourceLang.value)) else None;
    var check := CheckValidLanguages(source, target);
    if check.Fail? {
      return Failure(check.error);
    }
    var params: Params := [];
    if source.Some? {
      params := params + [("source_lang", source.value)];
    }
    assert params == Opt("source_lang", source);
    params := params + [("target_lang", target)];
    ghost var formalityValue := if formality.Some? then Some(FormalityValue(formality.value)) else None;
    if formality.Some? {
      params := params + [("formality", FormalityValue(formality.value))];
    }
    assert params == Opt("source_lang", source) + [("target_lang", target)] + Opt("formality", formalityValue);
    if glossaryId.Some? {
      if source.None? {
        return Failure(IllegalArgument(GlossaryWithoutSourceLang));
      }
      params := params + [("glossary_id", glossaryId.value)];
    }
    assert params == Opt("source_lang", source) + [("target_lang", target)] + Opt("formality", formalityValue) +
      Opt("glossary_id", glossaryId);
    return Success(params);
  }

  // Extra body parameters

  /** The pairs whose key is not one of the extra parameters', in their order. */
  function WithoutKeys(ps: Params, extra: map<string, string>): (r: Params)
    ensures |r| <= |ps|
    ensures forall i :: 0 <= i < |r| ==> r[i].0 !in extra
  {
    if |ps| == 0 then []
    else WithoutKeys(ps[..|ps| - 1], extra) + (if ps[|ps| - 1].0 in extra then [] else [ps[|ps| - 1]])
  }

  function ExtraPairs(extra: map<string, string>, order: seq<string>): (r: Params)
    requires forall i :: 0 <= i < |order| ==> order[i] in extra
    ensures |r| == |order|
  {
    seq(|order|, i requires 0 <= i < |order| => (order[i], extra[order[i]]))
  }

  /**
   * The specification of addExtraBodyParameters: drop every pair whose key
   * is an extra parameter's, then append the extra parameters in the map's
   * iteration order `order`.
   */
  function WithExtras(ps: Params, extra: Option<map<string, string>>, order: seq<string>): Params
    requires extra.Some? ==> IsEnumeration(order, extra.value.Keys)
  {
    if extra.None? then ps else WithoutKeys(ps, extra.value) + ExtraPairs(extra.value, order)
  }

  lemma {:induction false} WithoutKeysAppend(ps: Params, qs: Params, extra: map<string, string>)
    ensures WithoutKeys(ps + qs, extra) == WithoutKeys(ps, extra) + WithoutKeys(qs, extra)
    decreases |qs|
  {
    if |qs| == 0 {
      assert ps + qs == ps;
    } else {
      assert (ps + qs)[..|ps + qs| - 1] == ps + qs[..|qs| - 1];
      WithoutKeysAppend(ps, qs[..|qs| - 1], extra);
    }
  }

  lemma {:induction false} WithoutKeysKeeps(ps: Params, extra: map<string, string>)
    requires forall i :: 0 <= i < |ps| ==> ps[i].0 !in extra
    ensures WithoutKeys(ps, extra) == ps
    decreases |ps|
  {
    if |ps| > 0 {
      WithoutKeysKeeps(ps[..|ps| - 1], extra);
    }
  }

  lemma {:induction false} WithoutKeysValues(ps: Params, extra: map<string, string>, k: string)
    requires k !in extra
    ensures ValuesOf(WithoutKeys(ps, extra), k) == ValuesOf(ps, k)
    decreases |ps|
  {
    if |ps| > 0 {
      var init, last := ps[..|ps| - 1], ps[|ps| - 1];
      WithoutKeysValues(init, extra, k);
      ValuesOfAppend(WithoutKeys(init, extra), if last.0 in extra then [] else [last], k);
      if last.0 !in extra {
        assert ValuesOf([last], k) == ValuesOf([] + [last], k);
      }
    }
  }

  /** After addExtraBodyParameters every extra key occurs, carrying the extra value. */
  lemma ExtrasPresent(ps: Params, extra: map<string, string>, order: seq<string>)
    requires IsEnumeration(order, extra.Keys)
    ensures var r := WithExtras(ps, Some(extra), order);
      forall k :: k in extra ==> exists i :: 0 <= i < |r| && r[i] == (k, extra[k])
  {
    var kept, added := WithoutKeys(ps, extra), ExtraPairs(extra, order);
    var r := kept + added;
    forall k | k in extra
      ensures exists i :: 0 <= i < |r| && r[i] == (k, extra[k])
    {
      var j :| 0 <= j < |order| && order[j] == k;
      assert r[|kept| + j] == (k, extra[k]);
    }
    assert WithExtras(ps, Some(extra), order) == r;
  }

  /** ... and it occurs only once. */
  lemma ExtrasOnce(ps: Params, extra: map<string, string>, order: seq<string>)
    requires IsEnumeration(order, extra.Keys)
    ensures var r := WithExtras(ps, Some(extra), order);
      forall i, j :: 0 <= i < |r| && 0 <= j < |r| && r[i].0 in extra && r[i].0 == r[j].0 ==> i == j
  {
    var kept, added := WithoutKeys(ps, extra), ExtraPairs(extra, order);
    var r := kept + added;
    forall i, j | 0 <= i < |r| && 0 <= j < |r| && r[i].0 in extra && r[i].0 == r[j].0
      ensures i == j
    {
      assert i >= |kept| && j >= |kept|;
      assert order[i - |kept|] == r[i].0 && order[j - |kept|] == r[j].0;
    }
  }

  /** ... and the pairs with other keys are those of before, in the same order. */
  lemma ExtrasKeepOthers(ps: Params, extra: map<string, string>, order: seq<string>)
    requires IsEnumeration(order, extra.Keys)
    ensures WithoutKeys(WithExtras(ps, Some(extra), order), extra) == WithoutKeys(ps, extra)
  {
    var kept, added := WithoutKeys(ps, extra), ExtraPairs(extra, order);
    WithoutKeysAppend(kept, added, extra);
    WithoutKeysKeeps(kept, extra);
    WithoutKeysDrops(added, extra);
    assert kept + [] == kept;
  }

  lemma {:induction false} WithoutKeysDrops(ps: Params, extra: map<string, string>)
    requires forall i :: 0 <= i < |ps| ==> ps[i].0 in extra
    ensures WithoutKeys(ps, extra) == []
    decreases |ps|
  {
    if |ps| > 0 {
      WithoutKeysDrops(ps[..|ps| - 1], extra);
    }
  }

  /** removeIf: drop the pairs whose key is an extra parameter's. */
  method RemoveOverridden(params: Params, m: map<string, string>) returns (r: Params)
    ensures r == WithoutKeys(params, m)
  {
    r := [];
    for i := 0 to |params|
      invariant r == WithoutKeys(params[..i], m)
    {
      assert params[..i + 1][..i] == params[..i];
      if params[i].0 !in m {
        r := r + [params[i]];
      }
    }
    assert params[..|params|] == params;
  }

  /**
   * addExtraBodyParameters: when extra parameters are given, remove every
   * pair they override, then add each of them, in the map's iteration order.
   */
  method AddExtraBodyParameters(params: Params, extra: Option<map<string, string>>)
    returns (r: Params, ghost order: seq<string>)
    ensures extra.Some? ==> IsEnumeration(order, extra.value.Keys)
    ensures r == WithExtras(params, extra, order)
  {
    order := [];
    if extra.None? {
      return params, order;
    }
    var m := extra.value;
    r := RemoveOverridden(params, m);
    ghost var kept := r;
    var remaining := m.Keys;
    while remaining != {}
      invariant remaining <= m.Keys
      invariant forall i :: 0 <= i < |order| ==> order[i] in m && order[i] !in remaining
      invariant forall k :: k in m && k !in remaining ==> k in order
      invariant forall i, j :: 0 <= i < j < |order| ==> order[i] != order[j]
      invariant r == kept + ExtraPairs(m, order)
      decreases remaining
    {
      var k :| k in remaining;
      assert ExtraPairs(m, order + [k]) == ExtraPairs(m, order) + [(k, m[k])];
      r := r + [(k, m[k])];
      order := order + [k];
      remaining := remaining - {k};
    }
  }

  // Text and document translation parameters

  /** How the server splits the input into sentences. */
  datatype SentenceSplitting = Off | NoNewlines | All

  function SplittingValue(m: SentenceSplitting): string {
    match m
    case Off => "0"
    case NoNewlines => "nonewlines"
    case All => "1"
  }

  /** The text translation options the request reads. */
  datatype TextOptions = TextOptions(
    formality: Option<Formality>, glossaryId: Option<string>, sentenceSplittingMode: Option<SentenceSplitting>,
    preserveFormatting: bool, context: Option<string>, modelType: Option<string>, tagHandling: Option<string>,
    tagHandlingVersion: Option<string>, outlineDetection: bool, splittingTags: Option<seq<string>>,
    nonSplittingTags: Option<seq<string>>, ignoreTags: Option<seq<string>>, styleId: Option<string>,
    customInstructions: Option<seq<string>>, extraBodyParameters: Option<map<string, string>>)

  /** The document translation options the request reads. */
  datatype DocumentOptions = DocumentOptions(formality: Option<Formality>, glossaryId: Option<string>,
                                             extraBodyParameters: Option<map<string, string>>)

  /** joinTags: the tags separated by ",". */
  function JoinTags(tags: Option<seq<string>>): Option<string> {
    if tags.Some? then Some(Join(tags.value, ",")) else None
  }

  /** One pair with the fixed key per value, in order: the texts' "text" pairs and the "custom_instructions" pairs. */
  function KeyedPairs(key: string, values: seq<string>): (r: Params)
    ensures |r| == |values|
  {
    seq(|values|, i requires 0 <= i < |values| => (key, values[i]))
  }

  /** The pairs the text options add after the texts, before the extra parameters are applied. */
  function OptionPairs(o: TextOptions): Params {
    FormattingPairs(o) + TagPairs(o) + StylePairs(o)
  }

  function FormattingPairs(o: TextOptions): Params {
    Opt("split_sentences", if o.sentenceSplittingMode.Some? then Some(SplittingValue(o.sentenceSplittingMode.value)) else None) +
    Opt("preserve_formatting", if o.preserveFormatting then Some("1") else None) +
    Opt("context", o.context) + Opt("model_type", o.modelType)
  }

  function TagPairs(o: TextOptions): Params {
    Opt("tag_handling", o.tagHandling) + Opt("tag_handling_version", o.tagHandlingVersion) +
    Opt("outline_detection", if o.outlineDetection then None else Some("0")) +
    Opt("splitting_tags", JoinTags(o.splittingTags))
  }

  function StylePairs(o: TextOptions): Params {
    Opt("non_splitting_tags", JoinTags(o.nonSplittingTags)) + Opt("ignore_tags", JoinTags(o.ignoreTags)) +
    Opt("style_id", o.styleId) + KeyedPairs("custom_instructions", if o.customInstructions.Some? then o.customInstructions.value else [])
  }

  function ExtrasOf(options: Option<TextOptions>): Option<map<string, string>> {
    if options.Some? then options.value.extraBodyParameters else None
  }

  /**
   * The specification of createHttpParams for texts: the common parameters,
   * the texts (none may be empty), show_billed_characters=1, then the options'
   * pairs, and finally the extra parameters applied to the whole list.
   */
  function TextParams(texts: seq<string>, sourceLang: Option<string>, targetLang: string,
                      options: Option<TextOptions>, order: seq<string>): (r: Result<Params, Error>)
    requires ExtrasOf(options).Some? ==> IsEnumeration(order, ExtrasOf(options).value.Keys)
    ensures r.Failure? ==> r.error.IllegalArgument?
  {
    var formality := if options.Some? then options.value.formality else None;
    var glossaryId := if options.Some? then options.value.glossaryId else None;
    match ParamsCommon(sourceLang, targetLang, formality, glossaryId)
    case Failure(e) => Failure(e)
    case Success(common) =>
      if "" in texts then Failure(IllegalArgument(EmptyText))
      else
        var ps := common + KeyedPairs("text", texts) + [("show_billed_characters", "1")];
        if options.None? then Success(ps)
        else Success(WithExtras(ps + OptionPairs(options.value), options.value.extraBodyParameters, order))
  }

  lemma OptValues(key: string, value: Option<string>, k: string)
    requires key != k
    ensures ValuesOf(Opt(key, value), k) == []
  {
    if value.Some? {
      assert ValuesOf(Opt(key, value), k) == ValuesOf([], k) + [];
    }
  }

  lemma ValuesOfNone(a: Params, b: Params, c: Params, d: Params, k: string)
    requires ValuesOf(a, k) == [] && ValuesOf(b, k) == [] && ValuesOf(c, k) == [] && ValuesOf(d, k) == []
    ensures ValuesOf(a + b + c + d, k) == []
  {
    ValuesOfAppend(a, b, k);
    ValuesOfAppend(a + b, c, k);
    ValuesOfAppend(a + b + c, d, k);
  }

  lemma OptionPairsHaveNoText(o: TextOptions)
    ensures ValuesOf(OptionPairs(o), "text") == []
  {
    OptValues("split_sentences", if o.sentenceSplittingMode.Some? then Some(SplittingValue(o.sentenceSplittingMode.value)) else None, "text");
    OptValues("preserve_formatting", if o.preserveFormatting then Some("1") else None, "text");
    OptValues("context", o.context, "text");
    OptValues("model_type", o.modelType, "text");
    OptValues("tag_handling", o.tagHandling, "text");
    OptValues("tag_handling_version", o.tagHandlingVersion, "text");
    OptValues("outline_detection", if o.outlineDetection then None else Some("0"), "text");
    OptValues("splitting_tags", JoinTags(o.splittingTags), "text");
    OptValues("non_splitting_tags", JoinTags(o.nonSplittingTags), "text");
    OptValues("ignore_tags", JoinTags(o.ignoreTags), "text");
    OptValues("style_id", o.styleId, "text");
    KeyedPairsValues("custom_instructions", if o.customInstructions.Some? then o.customInstructions.value else [], "text");
    ValuesOfNone(Opt("split_sentences", if o.sentenceSplittingMode.Some? then Some(SplittingValue(o.sentenceSplittingMode.value)) else None),
                 Opt("preserve_formatting", if o.preserveFormatting then Some("1") else None),
                 Opt("context", o.context), Opt("model_type", o.modelType), "text");
    ValuesOfNone(Opt("tag_handling", o.tagHandling), Opt("tag_handling_version", o.tagHandlingVersion),
                 Opt("outline_detection", if o.outlineDetection then None else Some("0")),
                 Opt("splitting_tags", JoinTags(o.splittingTags)), "text");
    ValuesOfNone(Opt("non_splitting_tags", JoinTags(o.nonSplittingTags)), Opt("ignore_tags", JoinTags(o.ignoreTags)),
                 Opt("style_id", o.styleId),
                 KeyedPairs("custom_instructions", if o.customInstructions.Some? then o.customInstructions.value else []), "text");
    ValuesOfNone(FormattingPairs(o), TagPairs(o), StylePairs(o), [], "text");
    assert OptionPairs(o) + [] == OptionPairs(o);
  }

  /** The values read back under a key are the values exactly when it is the fixed key, and none otherwise. */
  lemma {:induction false} KeyedPairsValues(key: string, values: seq<string>, k: string)
    ensures ValuesOf(KeyedPairs(key, values), k) == if k == key then values else []
    decreases |values|
  {
    if |values| > 0 {
      var init := values[..|values| - 1];
      assert KeyedPairs(key, values)[..|values| - 1] == KeyedPairs(key, init);
      KeyedPairsValues(key, init, k);
    }
  }

  lemma CommonKeysHaveNoText(hasSource: bool, hasFormality: bool, hasGlossary: bool)
    ensures "text" !in CommonKeys(hasSource, hasFormality, hasGlossary)
  {
  }

  /** The texts, in input order, are the "text" values of the common pairs, the texts and the billing flag. */
  lemma BaseParamsTexts(common: Params, texts: seq<string>)
    requires "text" !in Keys(common)
    ensures ValuesOf(common + KeyedPairs("text", texts) + [("show_billed_characters", "1")], "text") == texts
  {
    var billed: Params := [("show_billed_characters", "1")];
    ValuesOfAbsent(common, "text");
    assert ValuesOf(billed, "text") == ValuesOf([], "text") + [];
    KeyedPairsValues("text", texts, "text");
    ValuesOfAppend(common, KeyedPairs("text", texts), "text");
    ValuesOfAppend(common + KeyedPairs("text", texts), billed, "text");
  }

  /** Neither the options' pairs nor extra parameters that leave "text" alone change the "text" values. */
  lemma OptionsKeepTexts(ps: Params, o: TextOptions, order: seq<string>)
    requires o.extraBodyParameters.Some? ==> IsEnumeration(order, o.extraBodyParameters.value.Keys)
    requires o.extraBodyParameters.None? || "text" !in o.extraBodyParameters.value
    ensures ValuesOf(WithExtras(ps + OptionPairs(o), o.extraBodyParameters, order), "text") == ValuesOf(ps, "text")
  {
    var all := ps + OptionPairs(o);
    OptionPairsHaveNoText(o);
    ValuesOfAppend(ps, OptionPairs(o), "text");
    var extra := o.extraBodyParameters;
    if extra.Some? {
      var added := ExtraPairs(extra.value, order);
      WithoutKeysValues(all, extra.value, "text");
      assert "text" !in Keys(added);
      ValuesOfAbsent(added, "text");
      ValuesOfAppend(WithoutKeys(all, extra.value), added, "text");
    }
  }

  /**
   * Once the languages pass, the request is built exactly when no text is
   * empty; an empty text is rejected with IllegalArgument.
   */
  lemma TextParamsEmptyText(texts: seq<string>, sourceLang: Option<string>, targetLang: string,
                            options: Option<TextOptions>, order: seq<string>)
    requires ExtrasOf(options).Some? ==> IsEnumeration(order, ExtrasOf(options).value.Keys)
    requires ParamsCommon(sourceLang, targetLang, if options.Some? then options.value.formality else None,
                          if options.Some? then options.value.glossaryId else None).Success?
    ensures TextParams(texts, sourceLang, targetLang, options, order).Success? <==> "" !in texts
    ensures "" in texts ==> TextParams(texts, sourceLang, targetLang, options, order) == Failure(IllegalArgument(EmptyText))
  {
  }

  /**
   * The texts are sent as "text" pairs in input order and, when no extra
   * parameter overrides "text", they are the only "text" values of the request.
   */
  lemma TextParamsTexts(texts: seq<string>, sourceLang: Option<string>, targetLang: string,
                        options: Option<TextOptions>, order: seq<string>)
    requires ExtrasOf(options).Some? ==> IsEnumeration(order, ExtrasOf(options).value.Keys)
    requires TextParams(texts, sourceLang, targetLang, options, order).Success?
    requires ExtrasOf(options).None? || "text" !in ExtrasOf(options).value
    ensures ValuesOf(TextParams(texts, sourceLang, targetLang, options, order).value, "text") == texts
  {
    var formality := if options.Some? then options.value.formality else None;
    var glossaryId := if options.Some? then options.value.glossaryId else None;
    var common := ParamsCommon(sourceLang, targetLang, formality, glossaryId).value;
    CommonKeysHaveNoText(sourceLang.Some?, formality.Some?, glossaryId.Some?);
    BaseParamsTexts(common, texts);
    if options.Some? {
      OptionsKeepTexts(common + KeyedPairs("text", texts) + [("show_billed_characters", "1")], options.value, order);
    }
  }

  /** Without options the texts come last but one, followed by show_billed_characters=1. */
  lemma TextParamsTail(texts: seq<string>, sourceLang: Option<string>, targetLang: string)
    requires TextParams(texts, sourceLang, targetLang, None, []).Success?
    ensures var r := TextParams(texts, sourceLang, targetLang, None, []).value;
      |r| > |texts| && r[|r| - 1] == ("show_billed_characters", "1") && r[|r| - 1 - |texts|..|r| - 1] == KeyedPairs("text", texts)
  {
    var common := ParamsCommon(sourceLang, targetLang, None, None).value;
    var r := common + KeyedPairs("text", texts) + [("show_billed_characters", "1")];
    assert r[|r| - 1 - |texts|..|r| - 1] == KeyedPairs("text", texts);
  }

  /** Some iteration order of a finite set of keys. */
  lemma SomeEnumeration(keys: set<string>) returns (order: seq<string>)
    ensures IsEnumeration(order, keys)
    decreases keys
  {
    if keys == {} {
      order := [];
    } else {
      var k :| k in keys;
      var rest := SomeEnumeration(keys - {k});
      order := rest + [k];
    }
  }

  /**
   * createHttpParams for texts: the common parameters, then each text in
   * order (an empty one is rejected), show_billed_characters=1, the options'
   * pairs, and the extra parameters.
   */
  method CreateHttpParams(texts: seq<string>, sourceLang: Option<string>, targetLang: string,
                          options: Option<TextOptions>)
    returns (r: Result<Params, Error>, ghost order: seq<string>)
    ensures ExtrasOf(options).Some? ==> IsEnumeration(order, ExtrasOf(options).value.Keys)
    ensures r == TextParams(texts, sourceLang, targetLang, options, order)
  {
    order := [];
    if ExtrasOf(options).Some? {
      order := SomeEnumeration(ExtrasOf(options).value.Keys);
    }
    var formality := if options.Some? then options.value.formality else None;
    var glossaryId := if options.Some? then options.value.glossaryId else None;
    var common := CreateHttpParamsCommon(sourceLang, targetLang, formality, glossaryId);
    if common.Failure? {
      return Failure(common.error), order;
    }
    var withTexts := AddTexts(common.value, texts);
    if withTexts.Failure? {
      return withTexts, order;
    }
    var params := withTexts.value + [("show_billed_characters", "1")];
    if options.Some? {
      var o := options.value;
      params := AddFormattingOptions(params, o);
      params := AddTagOptions(params, o);
      params := AddStyleOptions(params, o);
      Assoc3(withTexts.value + [("show_billed_characters", "1")], FormattingPairs(o), TagPairs(o), StylePairs(o));
      params, order := AddExtraBodyParameters(params, o.extraBodyParameters);
    }
    return Success(params), order;
  }

  /** texts.forEach: reject an empty text, otherwise add a "text" pair for each, in order. */
  method AddTexts(params: Params, texts: seq<string>) returns (r: Result<Params, Error>)
    ensures "" in texts ==> r == Failure(IllegalArgument(EmptyText))
    ensures "" !in texts ==> r == Success(params + KeyedPairs("text", texts))
  {
    var ps := params;
    for i := 0 to |texts|
      invariant ps == params + KeyedPairs("text", texts[..i])
      invariant "" !in texts[..i]
    {
      if texts[i] == "" {
        assert texts[i] in texts;
        return Failure(IllegalArgument(EmptyText));
      }
      assert KeyedPairs("text", texts[..i + 1]) == KeyedPairs("text", texts[..i]) + [("text", texts[i])];
      assert texts[..i + 1] == texts[..i] + [texts[i]];
      ps := ps + [("text", texts[i])];
    }
    assert texts[..|texts|] == texts;
    return Success(ps);
  }

  lemma Assoc3(p: Params, a: Params, b: Params, c: Params)
    ensures p + a + b + c == p + (a + b + c)
  {
  }

  lemma Assoc4(p: Params, a: Params, b: Params, c: Params, d: Params)
    ensures p + a + b + c + d == p + (a + b + c + d)
  {
  }

  lemma AppendOpt(r: Params, key: string, value: Option<string>)
    ensures r + Opt(key, value) == if value.Some? then r + [(key, value.value)] else r
  {
    if value.None? {
      assert r + [] == r;
    }
  }

  method AddFormattingOptions(params: Params, o: TextOptions) returns (r: Params)
    ensures r == params + FormattingPairs(o)
  {
    var splitting := if o.sentenceSplittingMode.Some? then Some(SplittingValue(o.sentenceSplittingMode.value)) else None;
    r := params;
    if o.sentenceSplittingMode.Some? {
      match o.sentenceSplittingMode.value {
        case Off => r := r + [("split_sentences", "0")];
        case NoNewlines => r := r + [("split_sentences", "nonewlines")];
        case All => r := r + [("split_sentences", "1")];
      }
    }
    AppendOpt(params, "split_sentences", splitting);
    ghost var r1 := r;
    if o.preserveFormatting {
      r := r + [("preserve_formatting", "1")];
    }
    AppendOpt(r1, "preserve_formatting", if o.preserveFormatting then Some("1") else None);
    ghost var r2 := r;
    if o.context.Some? {
      r := r + [("context", o.context.value)];
    }
    AppendOpt(r2, "context", o.context);
    ghost var r3 := r;
    if o.modelType.Some? {
      r := r + [("model_type", o.modelType.value)];
    }
    AppendOpt(r3, "model_type", o.modelType);
    Assoc4(params, Opt("split_sentences", splitting), Opt("preserve_formatting", if o.preserveFormatting then Some("1") else None),
           Opt("context", o.context), Opt("model_type", o.modelType));
  }

  method AddTagOptions(params: Params, o: TextOptions) returns (r: Params)
    ensures r == params + TagPairs(o)
  {
    r := params;
    if o.tagHandling.Some? {
      r := r + [("tag_handling", o.tagHandling.value)];
    }
    AppendOpt(params, "tag_handling", o.tagHandling);
    ghost var r1 := r;
    if o.tagHandlingVersion.Some? {
      r := r + [("tag_handling_version", o.tagHandlingVersion.value)];
    }
    AppendOpt(r1, "tag_handling_version", o.tagHandlingVersion);
    ghost var r2 := r;
    if !o.outlineDetection {
      r := r + [("outline_detection", "0")];
    }
    AppendOpt(r2, "outline_detection", if o.outlineDetection then None else Some("0"));
    ghost var r3 := r;
    if o.splittingTags.Some? {
      r := r + [("splitting_tags", Join(o.splittingTags.value, ","))];
    }
    AppendOpt(r3, "splitting_tags", JoinTags(o.splittingTags));
    Assoc4(params, Opt("tag_handling", o.tagHandling), Opt("tag_handling_version", o.tagHandlingVersion),
           Opt("outline_detection", if o.outlineDetection then None else Some("0")), Opt("splitting_tags", JoinTags(o.splittingTags)));
  }

  method AddStyleOptions(params: Params, o: TextOptions) returns (r: Params)
    ensures r == params + StylePairs(o)
  {
    r := params;
    if o.nonSplittingTags.Some? {
      r := r + [("non_splitting_tags", Join(o.nonSplittingTags.value, ","))];
    }
    AppendOpt(params, "non_splitting_tags", JoinTags(o.nonSplittingTags));
    ghost var r1 := r;
    if o.ignoreTags.Some? {
      r := r + [("ignore_tags", Join(o.ignoreTags.value, ","))];
    }
    AppendOpt(r1, "ignore_tags", JoinTags(o.ignoreTags));
    ghost var r2 := r;
    if o.styleId.Some? {
      r := r + [("style_id", o.styleId.value)];
    }
    AppendOpt(r2, "style_id", o.styleId);
    ghost var r3 := r;
    var instructions := if o.customInstructions.Some? then o.customInstructions.value else [];
    if o.customInstructions.Some? {
      for j := 0 to |instructions|
        invariant r == r3 + KeyedPairs("custom_instructions", instructions[..j])
      {
        assert KeyedPairs("custom_instructions", instructions[..j + 1]) == KeyedPairs("custom_instructions", instructions[..j]) + [("custom_instructions", instructions[j])];
        r := r + [("custom_instructions", instructions[j])];
      }
      assert instructions[..|instructions|] == instructions;
    } else {
      assert r3 + KeyedPairs("custom_instructions", []) == r3;
    }
    Assoc4(params, Opt("non_splitting_tags", JoinTags(o.nonSplittingTags)), Opt("ignore_tags", JoinTags(o.ignoreTags)),
           Opt("style_id", o.styleId), KeyedPairs("custom_instructions", instructions));
  }

  /** The specification of createHttpParams for documents: the common parameters, then the extra parameters. */
  function DocumentParams(sourceLang: Option<string>, targetLang: string, options: Option<DocumentOptions>,
                          order: seq<string>): (r: Result<Params, Error>)
    requires options.Some? && options.value.extraBodyParameters.Some? ==>
      IsEnumeration(order, options.value.extraBodyParameters.value.Keys)
    ensures r.Failure? ==> r.error.IllegalArgument?
  {
    var formality := if options.Some? then options.value.formality else None;
    var glossaryId := if options.Some? then options.value.glossaryId else None;
    match ParamsCommon(sourceLang, targetLang, formality, glossaryId)
    case Failure(e) => Failure(e)
    case Success(common) => Success(WithExtras(common, if options.Some? then options.value.extraBodyParameters else None, order))
  }

  /** createHttpParams for documents. */
  method CreateDocumentHttpParams(sourceLang: Option<string>, targetLang: string, options: Option<DocumentOptions>)
    returns (r: Result<Params, Error>, ghost order: seq<string>)
    ensures options.Some? && options.value.extraBodyParameters.Some? ==>
      IsEnumeration(order, options.value.extraBodyParameters.value.Keys)
    ensures r == DocumentParams(sourceLang, targetLang, options, order)
  {
    order := [];
    if options.Some? && options.value.extraBodyParameters.Some? {
      order := SomeEnumeration(options.value.extraBodyParameters.value.Keys);
    }
    var formality := if options.Some? then options.value.formality else None;
    var glossaryId := if options.Some? then options.value.glossaryId else None;
    var common := CreateHttpParamsCommon(sourceLang, targetLang, formality, glossaryId);
    if common.Failure? {
      return Failure(common.error), order;
    }
    var params;
    params, order := AddExtraBodyParameters(common.value, if options.Some? then options.value.extraBodyParameters else None);
    return Success(params), order;
  }

  // ---------------------------------------------------------------------------
  // Error responses

  /**
   * The detail appended to an error's message: nothing for an empty body,
   * the message parsed from a JSON error body, or else the raw body.
   */
  function MessageSuffix(body: string, parse: string -> Option<string>): string {
    if body == "" then ""
    else match parse(body)
      case Some(message) => ", error message: " + message
      case None => ", response: " + body
  }

  /** The server detail an error carries, if it is one of the classified HTTP failures. */
  function SuffixOf(e: Error): Option<string> {
    match e
    case BadRequest(s) => Some(s)
    case Authorization(s) => Some(s)
    case NotFound(s) => Some(s)
    case GlossaryNotFound(s) => Some(s)
    case TooManyRequests(s) => Some(s)
    case QuotaExceeded(s) => Some(s)
    case DocumentNotReady(s) => Some(s)
    case ServiceUnavailable(s) => Some(s)
    case Unknown(s) => Some(s)
    case _ => None
  }

  /** The status codes with a class of their own; any other failing code is an unknown error. */
  predicate IsClassifiedCode(code: int) {
    code == 400 || code == 403 || code == 404 || code == 429 || code == 456 || code == 503
  }

  /**
   * checkResponse for a string response: a 2xx code passes; any other code
   * fails with the class of its status code, carrying the body's detail.
   */
  function CheckResponse(response: HttpResponse, inDocumentDownload: bool, usingGlossary: bool,
                         parse: string -> Option<string>): (r: Outcome<Error>)
    ensures r.Pass? <==> 200 <= response.code < 300
    ensures r.Fail? ==> SuffixOf(r.error) == Some(MessageSuffix(response.body, parse))
    ensures r.Fail? ==> (r.error.BadRequest? <==> response.code == 400)
    ensures r.Fail? ==> (r.error.Authorization? <==> response.code == 403)
    ensures r.Fail? ==> (r.error.GlossaryNotFound? <==> response.code == 404 && usingGlossary)
    ensures r.Fail? ==> (r.error.NotFound? <==> response.code == 404 && !usingGlossary)
    ensures r.Fail? ==> (r.error.TooManyRequests? <==> response.code == 429)
    ensures r.Fail? ==> (r.error.QuotaExceeded? <==> response.code == 456)
    ensures r.Fail? ==> (r.error.DocumentNotReady? <==> response.code == 503 && inDocumentDownload)
    ensures r.Fail? ==> (r.error.ServiceUnavailable? <==> response.code == 503 && !inDocumentDownload)
    ensures r.Fail? ==> (r.error.Unknown? <==> !IsClassifiedCode(response.code))
  {
    if 200 <= response.code < 300 then Pass
    else
      var suffix := MessageSuffix(response.body, parse);
      if response.code == 400 then Fail(BadRequest(suffix))
      else if response.code == 403 then Fail(Authorization(suffix))
      else if response.code == 404 then
        (if usingGlossary then Fail(GlossaryNotFound(suffix)) else Fail(NotFound(suffix)))
      else if response.code == 429 then Fail(TooManyRequests(suffix))
      else if response.code == 456 then Fail(QuotaExceeded(suffix))
      else if response.code == 503 then
        (if inDocumentDownload then Fail(DocumentNotReady(suffix)) else Fail(ServiceUnavailable(suffix)))
      else Fail(Unknown(suffix))
  }

  /**
   * The detail of a failure can be read back: an empty body adds nothing, a
   * parsable one its message, any other body itself.
   */
  lemma SuffixReadBack(response: HttpResponse, inDocumentDownload: bool, usingGlossary: bool,
                       parse: string -> Option<string>)
    requires !(200 <= response.code < 300)
    ensures var e := CheckResponse(response, inDocumentDownload, usingGlossary, parse).error;
      && (response.body == "" <==> SuffixOf(e) == Some(""))
      && (response.body != "" && parse(response.body).None? ==>
            StartsWith(SuffixOf(e).value, ", response: ") && SuffixOf(e).value[12..] == response.body)
      && (response.body != "" && parse(response.body).Some? ==>
            StartsWith(SuffixOf(e).value, ", error message: ") && SuffixOf(e).value[17..] == parse(response.body).value)
  {
    var e := CheckResponse(response, inDocumentDownload, usingGlossary, parse).error;
    if response.body != "" {
      match parse(response.body)
      case Some(m) => ConcatEnds(", error message: ", m);
      case None => ConcatEnds(", response: ", response.body);
    }
  }

  /** A request's outcome after checkResponse: a response with a failing status becomes its error. */
  function Checked(response: Result<HttpResponse, Error>, inDocumentDownload: bool, usingGlossary: bool,
                   parse: string -> Option<string>): (r: Result<HttpResponse, Error>)
    ensures r.Success? <==> response.Success? && 200 <= response.value.code < 300
    ensures r.Success? ==> r == response
    ensures response.Failure? ==> r == response
  {
    match response
    case Failure(e) => Failure(e)
    case Success(resp) =>
      match CheckResponse(resp, inDocumentDownload, usingGlossary, parse)
      case Fail(e) => Failure(e)
      case Pass => Success(resp)
  }

  /**
   * checkResponse for a download stream: any code of 200..399 passes; a
   * failure without a body stream is reported as such; otherwise the body is
   * read and classified as in a document download.
   */
  function CheckResponseStream(response: ResponseStream, parse: string -> Option<string>): (r: Outcome<Error>)
    ensures r.Pass? <==> 200 <= response.code < 400
    ensures r.Fail? && response.body.None? ==> r.error == EmptyResponseStream
    ensures r.Fail? && response.body.Some? ==> SuffixOf(r.error) == Some(MessageSuffix(response.body.value, parse))
  {
    if 200 <= response.code < 400 then Pass
    else if response.body.None? then Fail(EmptyResponseStream)
    else CheckResponse(ToStringResponse(response), true, false, parse)
  }

  /**
   * The two checks part ways on redirects and on 404 and 503: a 3xx passes a
   * download but fails a string response as an unknown error, a download's
   * 503 is "document not ready" rather than "service unavailable", and a
   * download's 404 is never a missing glossary.
   */
  lemma StreamCheckDiffers(response: ResponseStream, parse: string -> Option<string>)
    requires response.body.Some?
    ensures 300 <= response.code < 400 ==>
      CheckResponseStream(response, parse).Pass? &&
      CheckResponse(ToStringResponse(response), false, false, parse).Fail? &&
      CheckResponse(ToStringResponse(response), false, false, parse).error.Unknown?
    ensures response.code == 503 ==>
      CheckResponseStream(response, parse) == Fail(DocumentNotReady(MessageSuffix(response.body.value, parse))) &&
      CheckResponse(ToStringResponse(response), false, false, parse) == Fail(ServiceUnavailable(MessageSuffix(response.body.value, parse)))
    ensures response.code == 404 ==>
      CheckResponseStream(response, parse) == Fail(NotFound(MessageSuffix(response.body.value, parse)))
  {
  }

  // ---------------------------------------------------------------------------
  // Document translation

  /** calculateDocumentWaitTimeMillis: a constant interval, whatever the estimate of seconds remaining. */
  function CalculateDocumentWaitTimeMillis(secondsRemaining: Option<int>): (r: nat)
    ensures r == 5000
  {
    5000
  }

  /** Every estimate gives the same wait. */
  lemma WaitIgnoresEstimate(a: Option<int>, b: Option<int>)
    ensures CalculateDocumentWaitTimeMillis(a) == CalculateDocumentWaitTimeMillis(b) > 0
  {
  }

  /** A status reply on which the polling loop goes on: received, ok and not done. */
  predicate Continues(s: Result<Documents.DocumentStatus, Error>) {
    s.Success? && Documents.Ok(s.value) && !Documents.IsDone(s.value)
  }

  /** Poll k ends the loop: its reply does not continue it, or the sleep after it is interrupted. */
  predicate Stops(poll: nat -> Result<Documents.DocumentStatus, Error>, interrupted: nat -> bool, k: nat) {
    !Continues(poll(k)) || interrupted(k)
  }

  /** The first poll at or after `from` that ends the loop. */
  function FirstStop(poll: nat -> Result<Documents.DocumentStatus, Error>, interrupted: nat -> bool,
                     from: nat, bound: nat): (r: nat)
    requires from <= bound && Stops(poll, interrupted, bound)
    ensures from <= r <= bound && Stops(poll, interrupted, r)
    ensures forall j :: from <= j < r ==> !Stops(poll, interrupted, j)
    decreases bound - from
  {
    if Stops(poll, interrupted, from) then from else FirstStop(poll, interrupted, from + 1, bound)
  }

  /** The end of polling on a reply that does not continue it: a failed translation is an error. */
  function Finish(s: Result<Documents.DocumentStatus, Error>): (r: Result<Documents.DocumentStatus, Error>)
    requires !Continues(s)
    ensures r.Success? ==> Documents.IsDone(r.value) && s == r
  {
    match s
    case Failure(e) => Failure(e)
    case Success(status) =>
      if !Documents.Ok(status) then
        Failure(DocumentFailed(FailureMessage(status.errorMessage)))
      else Success(status)
  }

  /** The specification of translateDocumentWaitUntilDone: the outcome at the first poll that ends the loop. */
  function WaitResult(poll: nat -> Result<Documents.DocumentStatus, Error>, interrupted: nat -> bool,
                      bound: nat): Result<Documents.DocumentStatus, Error>
    requires Stops(poll, interrupted, bound)
  {
    var n := FirstStop(poll, interrupted, 0, bound);
    if Continues(poll(n)) then Failure(Interrupted) else Finish(poll(n))
  }

  /**
   * translateDocumentWaitUntilDone: poll the status; while it is ok and not
   * done, sleep the constant interval and poll again; then fail with the
   * server's error message, or "Unknown error", unless the status is done.
   * `poll(k)` is the outcome of the k-th status request and `interrupted(k)`
   * whether the sleep after it is interrupted; polling is assumed to end by
   * poll `bound`. `sleeps` holds the interval of every sleep begun.
   */
  method WaitUntilDone(poll: nat -> Result<Documents.DocumentStatus, Error>, interrupted: nat -> bool, ghost bound: nat)
    returns (r: Result<Documents.DocumentStatus, Error>, sleeps: seq<nat>)
    requires Stops(poll, interrupted, bound)
    ensures r == WaitResult(poll, interrupted, bound)
    ensures var n := FirstStop(poll, interrupted, 0, bound);
      |sleeps| == (if Continues(poll(n)) then n + 1 else n)
    ensures forall i :: 0 <= i < |sleeps| ==> sleeps[i] == 5000
  {
    var k := 0;
    var status := poll(0);
    sleeps := [];
    while Continues(status)
      invariant k <= bound && status == poll(k)
      invariant forall j :: 0 <= j < k ==> !Stops(poll, interrupted, j)
      invariant |sleeps| == k && forall i :: 0 <= i < k ==> sleeps[i] == 5000
      decreases bound - k
    {
      var wait := CalculateDocumentWaitTimeMillis(status.value.secondsRemaining);
      sleeps := sleeps + [wait];
      if interrupted(k) {
        FirstStopIs(poll, interrupted, k, bound);
        return Failure(Interrupted), sleeps;
      }
      k := k + 1;
      status := poll(k);
    }
    FirstStopIs(poll, interrupted, k, bound);
    if status.Failure? {
      return Failure(status.error), sleeps;
    }
    if !Documents.Ok(status.value) {
      var message := if status.value.errorMessage.Some? then status.value.errorMessage.value else "Unknown error";
      return Failure(DocumentFailed(message)), sleeps;
    }
    return status, sleeps;
  }

  /** The first stop is the stopping poll before which none stops. */
  lemma FirstStopIs(poll: nat -> Result<Documents.DocumentStatus, Error>, interrupted: nat -> bool, k: nat, bound: nat)
    requires Stops(poll, interrupted, bound) && Stops(poll, interrupted, k)
    requires forall j :: 0 <= j < k ==> !Stops(poll, interrupted, j)
    ensures FirstStop(poll, interrupted, 0, bound) == k
  {
  }

  /** The message a failed translation is reported with: the server's, or "Unknown error". */
  function FailureMessage(errorMessage: Option<string>): string {
    match errorMessage case Some(m) => m case None => "Unknown error"
  }

  /**
   * Waiting succeeds only with a done status, the reply of the first poll
   * that is neither queued nor translating, after polls that all were; an
   * error status fails with the server's message, and a received status
   * fails only when it is an error status.
   */
  lemma WaitResultDone(poll: nat -> Result<Documents.DocumentStatus, Error>, interrupted: nat -> bool, bound: nat)
    requires Stops(poll, interrupted, bound)
    ensures var r := WaitResult(poll, interrupted, bound);
      var n := FirstStop(poll, interrupted, 0, bound);
      && (r.Success? ==> Documents.IsDone(r.value) && r == poll(n) && forall j :: 0 <= j < n ==> Continues(poll(j)))
      && (poll(n).Success? && !Documents.Ok(poll(n).value) ==>
            r == Failure(DocumentFailed(FailureMessage(poll(n).value.errorMessage))))
      && (r.Failure? && poll(n).Success? && !Continues(poll(n)) ==> !Documents.Ok(poll(n).value))
  {
    var n := FirstStop(poll, interrupted, 0, bound);
    forall j | 0 <= j < n
      ensures Continues(poll(j))
    {
      assert !Stops(poll, interrupted, j);
    }
  }

  /** The outcome of waiting does not depend on which stopping poll bounds the loop. */
  lemma WaitResultIndependent(poll: nat -> Result<Documents.DocumentStatus, Error>, interrupted: nat -> bool,
                              b1: nat, b2: nat)
    requires Stops(poll, interrupted, b1) && Stops(poll, interrupted, b2)
    ensures WaitResult(poll, interrupted, b1) == WaitResult(poll, interrupted, b2)
  {
    var n := FirstStop(poll, interrupted, 0, b1);
    FirstStopIs(poll, interrupted, n, b2);
  }

  /**
   * The specification of translateDocument: upload, wait until done, then
   * download; any failure is wrapped together with the handle, which is
   * known exactly when the upload succeeded.
   */
  function DocumentResult(upload: Result<DocumentHandle, Error>, waited: Result<Documents.DocumentStatus, Error>,
                          download: Result<ResponseStream, Error>, parse: string -> Option<string>)
    : (r: Result<Documents.DocumentStatus, Error>)
    ensures r.Failure? ==> r.error.DocumentTranslation? && (r.error.handle.None? <==> upload.Failure?)
    ensures r.Success? ==> upload.Success? && r == waited
  {
    match upload
    case Failure(e) => Failure(DocumentTranslation(e, None))
    case Success(handle) =>
      match waited
      case Failure(e) => Failure(DocumentTranslation(e, Some(handle)))
      case Success(status) =>
        match download
        case Failure(e) => Failure(DocumentTranslation(e, Some(handle)))
        case Success(stream) =>
          match CheckResponseStream(stream, parse)
          case Fail(e) => Failure(DocumentTranslation(e, Some(handle)))
          case Pass => Success(status)
  }

  /**
   * translateDocument: upload, wait until done and download, turning any
   * failure into a document translation error that keeps the handle once
   * there is one. The upload's and the download's outcomes are given; the
   * status polls and interrupts are as for WaitUntilDone.
   */
  method TranslateDocument(upload: Result<DocumentHandle, Error>,
                           poll: nat -> Result<Documents.DocumentStatus, Error>, interrupted: nat -> bool,
                           ghost bound: nat, download: Result<ResponseStream, Error>,
                           parse: string -> Option<string>)
    returns (r: Result<Documents.DocumentStatus, Error>)
    requires Stops(poll, interrupted, bound)
    ensures r == DocumentResult(upload, WaitResult(poll, interrupted, bound), download, parse)
  {
    var handle: Option<DocumentHandle> := None;
    if upload.Failure? {
      return Failure(DocumentTranslation(upload.error, handle));
    }
    handle := Some(upload.value);
    var status, _ := WaitUntilDone(poll, interrupted, bound);
    if status.Failure? {
      return Failure(DocumentTranslation(status.error, handle));
    }
    if download.Failure? {
      return Failure(DocumentTranslation(download.error, handle));
    }
    var checked := CheckResponseStream(download.value, parse);
    if checked.Fail? {
      return Failure(DocumentTranslation(checked.error, handle));
    }
    return status;
  }

  /** A translated document's status is done; a failed polling keeps the handle. */
  lemma TranslateDocumentDone(upload: Result<DocumentHandle, Error>,
                              poll: nat -> Result<Documents.DocumentStatus, Error>, interrupted: nat -> bool,
                              bound: nat, download: Result<ResponseStream, Error>, parse: string -> Option<string>)
    requires Stops(poll, interrupted, bound)
    ensures var r := DocumentResult(upload, WaitResult(poll, interrupted, bound), download, parse);
      && (r.Success? ==> Documents.IsDone(r.value))
      && (upload.Success? && WaitResult(poll, interrupted, bound).Failure? ==>
            r == Failure(DocumentTranslation(WaitResult(poll, interrupted, bound).error, Some(upload.value))))
  {
    WaitResultDone(poll, interrupted, bound);
  }

  // ---------------------------------------------------------------------------
  // The client

  /** A key that ends in ":fx" keeps that ending when String.trim sanitises it. */
  lemma TrimKeepsFreeSuffix(authKey: string)
    requires EndsWith(authKey, ":fx")
    ensures IsFreeAccountAuthKey(Some(JavaTrim(authKey)))
  {
    var n := |authKey|;
    assert authKey[n - 3..] == ":fx";
    assert authKey[n - 3] == ':' && authKey[n - 1] == 'x';
    var f := TrimFront(authKey);
    assert |f| >= 3;
    assert f[|f| - 3..] == authKey[n - 3..];
    assert f[|f| - 1] > ' ';
  }

  /** The client: its HTTP client wrapper, set up for one server and account, and the API version. */
  class Translator {
    const http: HttpClientWrapper
    const apiVersion: string

    /**
     * The constructor after the key check: trim the key, choose the server,
     * and add the Authorization and User-Agent headers where the user's
     * headers have none.
     */
    constructor (authKey: string, options: TranslatorOptions, platform: Platform)
      ensures apiVersion == options.apiVersion
      ensures http.serverUrl == ServerUrl(options, JavaTrim(authKey))
      ensures http.headers == Headers(options.headers, JavaTrim(authKey),
                                      UserAgent(options.sendPlatformInfo, options.appInfo, platform))
      ensures http.minTimeout == options.timeout && http.maxRetries == options.maxRetries
    {
      var sanitizedAuthKey := JavaTrim(authKey);
      apiVersion := options.apiVersion;
      var serverUrl := if options.serverUrl.Some? then options.serverUrl.value
        else if IsFreeAccountAuthKey(Some(sanitizedAuthKey)) then ServerUrlFree
        else ServerUrlPro;
      var headers: map<string, string> := map[];
      if options.headers.Some? {
        headers := options.headers.value;
      }
      if "Authorization" !in headers {
        headers := headers["Authorization" := "DeepL-Auth-Key " + sanitizedAuthKey];
      }
      if "User-Agent" !in headers {
        headers := headers["User-Agent" := UserAgent(options.sendPlatformInfo, options.appInfo, platform)];
      }
      http := new HttpClientWrapper(serverUrl, headers, options.timeout, options.maxRetries);
    }
  }

  /** new Translator(authKey, options): a missing or empty key is rejected before anything is set up. */
  method NewTranslator(authKey: Option<string>, options: TranslatorOptions, platform: Platform)
    returns (r: Result<Translator, Error>)
    ensures authKey.None? || authKey == Some("") <==> r.Failure?
    ensures r.Failure? ==> r.error == IllegalArgument(EmptyAuthKey)
    ensures r.Success? ==> fresh(r.value) && r.value.apiVersion == options.apiVersion
    ensures r.Success? ==> r.value.http.serverUrl == ServerUrl(options, JavaTrim(authKey.value))
    ensures r.Success? ==> r.value.http.headers == Headers(options.headers, JavaTrim(authKey.value),
                                                           UserAgent(options.sendPlatformInfo, options.appInfo, platform))
  {
    if authKey.None? || authKey.value == "" {
      return Failure(IllegalArgument(EmptyAuthKey));
    }
    var t := new Translator(authKey.value, options, platform);
    return Success(t);
  }
}
