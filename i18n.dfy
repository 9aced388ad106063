/**
 * The translation manager (`I18nManager`): language packs flattened to dotted
 * keys, the translate fallback chain with a time-limited cache, `{name}`
 * parameter substitution, `Accept-Language` detection and the effective-language
 * rules.
 */
module I18n {
  import opened Wrappers
  import opened Text
  import opened Sequences

  // ------------------------------------------------------------ flattening

  /** A parsed JSON document; object members in key order, as `serde_json::Map` iterates. */
  datatype Json =
    | JNull
    | JBool(b: bool)
    | JNumber(text: string)
    | JString(s: string)
    | JArray(items: seq<Json>)
    | JObject(members: seq<Member>)

  datatype Member = Member(key: string, value: Json)

  /** The key of a nested member: the member's own key under an empty prefix, else `prefix.key`. */
  function DotJoin(prefix: string, key: string): string {
    if prefix == [] then key else prefix + "." + key
  }

  /**
   * `flatten_json`: a non-object is stored under `prefix`; an object contributes
   * its members in order, nested objects flattened under the extended key and
   * later entries overwriting earlier ones with the same key.
   */
  function FlattenJson(v: Json, prefix: string): (r: map<string, Json>)
    ensures forall k | k in r :: !r[k].JObject?
    ensures !v.JObject? ==> r == map[prefix := v]
    decreases v, 1
  {
    match v
    case JObject(ms) => FlattenMembers(v, |ms|, prefix)
    case _ => map[prefix := v]
  }

  /** The first `n` members of the object `obj`, flattened. */
  function FlattenMembers(obj: Json, n: nat, prefix: string): (r: map<string, Json>)
    requires obj.JObject? && n <= |obj.members|
    ensures forall k | k in r :: !r[k].JObject?
    decreases obj, 0, n
  {
    if n == 0 then map[]
    else
      var m := obj.members[n - 1];
      assert m in obj.members;
      var acc := FlattenMembers(obj, n - 1, prefix);
      var key := DotJoin(prefix, m.key);
      if m.value.JObject? then acc + FlattenJson(m.value, key) else acc[key := m.value]
  }

  /**
   * The key and value reached from `v` by following the member indices `idx`,
   * extending `prefix` with each member's key.
   */
  function Follow(v: Json, prefix: string, idx: seq<nat>): Option<(string, Json)>
    decreases idx
  {
    if idx == [] then Some((prefix, v))
    else
      match v
      case JObject(ms) =>
        if idx[0] < |ms| then Follow(ms[idx[0]].value, DotJoin(prefix, ms[idx[0]].key), idx[1..]) else None
      case _ => None
  }

  /** Every entry of `r` is a leaf reached from `v` by some path, stored under that path's key. */
  ghost predicate LeavesOf(v: Json, prefix: string, r: map<string, Json>) {
    forall k | k in r :: exists idx: seq<nat> :: Follow(v, prefix, idx) == Some((k, r[k]))
  }

  /** Every flattened entry is a leaf of the document, stored under the key of its path. */
  lemma {:induction false} FlattenSound(v: Json, prefix: string)
    ensures LeavesOf(v, prefix, FlattenJson(v, prefix))
    decreases v, 1
  {
    match v
    case JObject(ms) =>
      MembersSound(v, |ms|, prefix);
    case _ =>
      assert Follow(v, prefix, []) == Some((prefix, v));
  }

  lemma {:induction false} MembersSound(obj: Json, n: nat, prefix: string)
    requires obj.JObject? && n <= |obj.members|
    ensures LeavesOf(obj, prefix, FlattenMembers(obj, n, prefix))
    decreases obj, 0, n
  {
    if n > 0 {
      var m := obj.members[n - 1];
      assert m in obj.members;
      var key := DotJoin(prefix, m.key);
      var r := FlattenMembers(obj, n, prefix);
      var acc := FlattenMembers(obj, n - 1, prefix);
      MembersSound(obj, n - 1, prefix);
      forall k | k in r ensures exists idx: seq<nat> :: Follow(obj, prefix, idx) == Some((k, r[k])) {
        if m.value.JObject? && k in FlattenJson(m.value, key) {
          FlattenSound(m.value, key);
          var idx :| Follow(m.value, key, idx) == Some((k, FlattenJson(m.value, key)[k]));
          assert ([n - 1] + idx)[1..] == idx;
          assert Follow(obj, prefix, [n - 1] + idx) == Some((k, r[k]));
        } else if !m.value.JObject? && k == key {
          assert [n - 1][1..] == [];
          assert Follow(obj, prefix, [n - 1]) == Some((k, r[k]));
        } else {
          assert k in acc && r[k] == acc[k];
          var idx :| Follow(obj, prefix, idx) == Some((k, acc[k]));
          assert Follow(obj, prefix, idx) == Some((k, r[k]));
        }
      }
    }
  }

  /** Every leaf of the document that is not an object gets an entry under the key of its path. */
  lemma {:induction false} FlattenComplete(v: Json, prefix: string, idx: seq<nat>)
    requires Follow(v, prefix, idx).Some? && !Follow(v, prefix, idx).value.1.JObject?
    ensures Follow(v, prefix, idx).value.0 in FlattenJson(v, prefix)
    decreases v, 1
  {
    if v.JObject? {
      MembersComplete(v, |v.members|, prefix, idx);
    }
  }

  lemma {:induction false} MembersComplete(obj: Json, n: nat, prefix: string, idx: seq<nat>)
    requires obj.JObject? && n <= |obj.members|
    requires idx != [] && idx[0] < n
    requires Follow(obj, prefix, idx).Some? && !Follow(obj, prefix, idx).value.1.JObject?
    ensures Follow(obj, prefix, idx).value.0 in FlattenMembers(obj, n, prefix)
    decreases obj, 0, n
  {
    var m := obj.members[n - 1];
    assert m in obj.members;
    var key := DotJoin(prefix, m.key);
    if idx[0] == n - 1 {
      if m.value.JObject? {
        FlattenComplete(m.value, key, idx[1..]);
      }
    } else {
      MembersComplete(obj, n - 1, prefix, idx);
    }
  }

  // ------------------------------------------------------------ parameters

  /** `format!("{{{}}}", key)`. */
  function Placeholder(key: string): (p: string)
    ensures p != []
  {
    "{" + key + "}"
  }

  /** `order` lists the keys of `params`, each once. */
  predicate IsKeyOrderOf(order: seq<string>, params: map<string, string>) {
    && (forall i | 0 <= i < |order| :: order[i] in params)
    && (forall k | k in params :: k in order)
    && (forall i, j | 0 <= i < j < |order| :: order[i] != order[j])
  }

  /** Each placeholder of `order` replaced in turn by its value. */
  function ApplyParams(text: string, params: map<string, string>, order: seq<string>): string
    requires forall i | 0 <= i < |order| :: order[i] in params
    decreases |order|
  {
    if order == [] then text
    else
      var n := |order| - 1;
      ReplaceAll(ApplyParams(text, params, order[..n]), Placeholder(order[n]), params[order[n]])
  }

  /** The result of `replace_params`: the text itself without params, else the replacements in some key order. */
  ghost predicate IsParamsResult(text: string, params: Option<map<string, string>>, r: string) {
    match params
    case None => r == text
    case Some(p) => exists order | IsKeyOrderOf(order, p) :: r == ApplyParams(text, p, order)
  }

  /** Text without any of the placeholders comes back unchanged, whatever the order. */
  lemma {:induction false} ParamsWithoutPlaceholders(text: string, params: map<string, string>, order: seq<string>)
    requires forall i | 0 <= i < |order| :: order[i] in params
    requires forall i | 0 <= i < |order| :: !Contains(text, Placeholder(order[i]))
    ensures ApplyParams(text, params, order) == text
    decreases |order|
  {
    if order != [] {
      var n := |order| - 1;
      ParamsWithoutPlaceholders(text, params, order[..n]);
      ReplaceAllAbsent(text, Placeholder(order[n]), params[order[n]]);
    }
  }

  /**
   * `replace_params`: without params the text is returned as is; otherwise every
   * `{key}` is replaced by its value, key by key in the map's iteration order.
   */
  method ReplaceParams(text: string, params: Option<map<string, string>>) returns (r: string)
    ensures IsParamsResult(text, params, r)
  {
    if params.None? {
      return text;
    }
    var p := params.value;
    r := text;
    var remaining := p.Keys;
    ghost var order: seq<string> := [];
    while remaining != {}
      invariant remaining <= p.Keys
      invariant forall i | 0 <= i < |order| :: order[i] in p && order[i] !in remaining
      invariant forall k | k in p :: k in order || k in remaining
      invariant forall i, j | 0 <= i < j < |order| :: order[i] != order[j]
      invariant r == ApplyParams(text, p, order)
      decreases remaining
    {
      var k :| k in remaining;
      assert (order + [k])[..|order|] == order;
      r := ReplaceAll(r, Placeholder(k), p[k]);
      order := order + [k];
      remaining := remaining - {k};
    }
    assert IsKeyOrderOf(order, p);
  }

  // ------------------------------------------------------------ lookup

  /** The string stored for `key` in the pack of `lang` (`as_str`: other JSON values do not count). */
  function PackString(translations: map<string, map<string, Json>>, lang: string, key: string): Option<string> {
    if lang in translations && key in translations[lang] && translations[lang][key].JString?
    then Some(translations[lang][key].s)
    else None
  }

  /**
   * The fallback chain of `translate`: the string of the requested language, else
   * (for another language than the default) the string of the default language,
   * else the key itself.
   */
  function Resolve(translations: map<string, map<string, Json>>, defaultLanguage: string, lang: string, key: string): (r: string)
    ensures PackString(translations, lang, key).Some? ==> r == PackString(translations, lang, key).value
    ensures (PackString(translations, lang, key).None? && lang != defaultLanguage &&
             PackString(translations, defaultLanguage, key).Some?) ==>
      r == PackString(translations, defaultLanguage, key).value
    ensures (PackString(translations, lang, key).None? &&
             (lang == defaultLanguage || PackString(translations, defaultLanguage, key).None?)) ==> r == key
    ensures r == key || exists l | l in translations :: key in translations[l] && translations[l][key] == JString(r)
  {
    match PackString(translations, lang, key)
    case Some(s) => s
    case None =>
      if lang != defaultLanguage && PackString(translations, defaultLanguage, key).Some?
      then PackString(translations, defaultLanguage, key).value
      else key
  }

  /** A key that no pack holds as a string translates to itself, in every language. */
  lemma MissingKeyTranslatesToItself(translations: map<string, map<string, Json>>, defaultLanguage: string, lang: string, key: string)
    requires forall l | l in translations :: key !in translations[l] || !translations[l][key].JString?
    ensures Resolve(translations, defaultLanguage, lang, key) == key
  {
    assert PackString(translations, lang, key).None?;
    assert PackString(translations, defaultLanguage, key).None?;
  }

  // ------------------------------------------------------------ cache time

  const U64_LIMIT: int := 0x1_0000_0000_0000_0000

  type U64 = x: int | 0 <= x < U64_LIMIT

  /**
   * `now - item.timestamp < self.cache_expire_minutes * 60` on `u64`, with the
   * wrap-around of a release build.
   */
  predicate Fresh(now: U64, timestamp: U64, expireMinutes: U64) {
    (now - timestamp) % U64_LIMIT < (expireMinutes * 60) % U64_LIMIT
  }

  /** When the clock has not gone back and the limit does not overflow, freshness is plain age < limit. */
  lemma FreshWithoutWrap(now: U64, timestamp: U64, expireMinutes: U64)
    requires timestamp <= now && expireMinutes * 60 < U64_LIMIT
    ensures Fresh(now, timestamp, expireMinutes) <==> now - timestamp < expireMinutes * 60
  {
    assert (now - timestamp) % U64_LIMIT == now - timestamp;
    assert (expireMinutes * 60) % U64_LIMIT == expireMinutes * 60;
  }

  /** An entry stamped after `now` (a clock set back) looks older than any limit below 2^64 - (timestamp - now). */
  lemma ClockSetBackExpires(now: U64, timestamp: U64, expireMinutes: U64)
    requires now < timestamp && expireMinutes * 60 <= U64_LIMIT - (timestamp - now)
    ensures !Fresh(now, timestamp, expireMinutes)
  {
    assert (now - timestamp) % U64_LIMIT == now - timestamp + U64_LIMIT;
    assert (expireMinutes * 60) % U64_LIMIT <= expireMinutes * 60;
  }

  // ------------------------------------------------------------ cache keys

  datatype CacheItem = CacheItem(value: string, timestamp: U64)

  /** `format!("{}:{}", lang, key)`: the cache key as written. */
  function CacheKeyAsWritten(lang: string, key: string): string {
    lang + ":" + key
  }

  /**
   * The cache flow of `translate` as written, for a call without params: a fresh
   * entry under `lang:key` is returned, otherwise the chain is resolved and
   * stored under that key.
   */
  function TranslateAsWritten(cache: map<string, CacheItem>, translations: map<string, map<string, Json>>,
                              defaultLanguage: string, expireMinutes: U64, lang: string, key: string, now: U64)
    : (r: (string, map<string, CacheItem>))
    ensures var ck := CacheKeyAsWritten(lang, key);
      if ck in cache && Fresh(now, cache[ck].timestamp, expireMinutes) then r == (cache[ck].value, cache)
      else r.0 == Resolve(translations, defaultLanguage, lang, key) && r.1 == cache[ck := CacheItem(r.0, now)]
  {
    var ck := CacheKeyAsWritten(lang, key);
    if ck in cache && Fresh(now, cache[ck].timestamp, expireMinutes) then (cache[ck].value, cache)
    else
      var result := Resolve(translations, defaultLanguage, lang, key);
      (result, cache[ck := CacheItem(result, now)])
  }

  /**
   * The language "zh:a" with key "b" and the language "zh" with key "a:b" share the
   * cache key "zh:a:b". The batch endpoint takes the language from the request
   * body, so after translating "b" for "zh:a", translating "a:b" for "zh" within
   * the expiry returns "b" although the "zh" pack maps "a:b" to "X".
   */
  lemma CacheKeysCollide()
    ensures CacheKeyAsWritten("zh:a", "b") == CacheKeyAsWritten("zh", "a:b")
    ensures var translations := map["zh" := map["a:b" := JString("X")]];
      var first := TranslateAsWritten(map[], translations, "zh", 60, "zh:a", "b", 1000);
      var second := TranslateAsWritten(first.1, translations, "zh", 60, "zh", "a:b", 1000);
      second.0 == "b" && Resolve(translations, "zh", "zh", "a:b") == "X"
  {
    var translations := map["zh" := map["a:b" := JString("X")]];
    assert "zh:a" + ":" + "b" == "zh" + ":" + "a:b";
    assert PackString(translations, "zh:a", "b").None?;
    assert PackString(translations, "zh", "b").None?;
    assert Resolve(translations, "zh", "zh:a", "b") == "b";
    assert PackString(translations, "zh", "a:b") == Some("X");
    assert Fresh(1000, 1000, 60);
  }

  /** The cache key as intended: the (language, key) pair itself, so distinct pairs never share an entry. */
  datatype CacheKey = CacheKey(lang: string, key: string)

  // ------------------------------------------------------------ languages

  datatype LanguageInfo = LanguageInfo(code: string, name: string, nativeName: string, isRtl: bool)

  /** `init_language_info`: Chinese, English, Arabic and Uyghur; the last two are written right to left. */
  function InitLanguageInfo(): (info: map<string, LanguageInfo>)
    ensures info.Keys == {"zh", "en", "ar", "ug"}
    ensures forall c | c in info :: info[c].code == c && (info[c].isRtl <==> c == "ar" || c == "ug")
  {
    map[
      "zh" := LanguageInfo("zh", "Chinese", "中文", false),
      "en" := LanguageInfo("en", "English", "English", false),
      "ar" := LanguageInfo("ar", "Arabic", "العربية", true),
      "ug" := LanguageInfo("ug", "Uyghur", "ئۇيغۇرچە", true)]
  }

  /** The configured codes that have language information, in configured order. */
  function KnownLanguages(codes: seq<string>, info: map<string, LanguageInfo>): (r: seq<LanguageInfo>)
    ensures |r| <= |codes|
    ensures forall x | x in r :: exists c | c in codes && c in info :: x == info[c]
    ensures forall c | c in codes && c in info :: info[c] in r
    decreases |codes|
  {
    if codes == [] then []
    else
      var rest := KnownLanguages(codes[1..], info);
      assert forall c | c in codes[1..] :: c in codes;
      assert forall c | c in codes :: c == codes[0] || c in codes[1..];
      if codes[0] in info then [info[codes[0]]] + rest else rest
  }

  /** The information of a code, when there is any. */
  function InfoOf(info: map<string, LanguageInfo>): string -> Option<LanguageInfo> {
    (c: string) => if c in info then Some(info[c]) else None
  }

  /**
   * The known languages are exactly the information of the configured codes that
   * have some, each code once and in configured order.
   */
  lemma KnownLanguagesInOrder(codes: seq<string>, info: map<string, LanguageInfo>)
    ensures IsFilterMap(KnownLanguages(codes, info), codes, InfoOf(info))
  {
    KnownLanguagesIsFilterMap(codes, info);
    FilterMapIsFilterMap(codes, InfoOf(info));
  }

  lemma {:induction false} KnownLanguagesIsFilterMap(codes: seq<string>, info: map<string, LanguageInfo>)
    ensures KnownLanguages(codes, info) == FilterMap(codes, InfoOf(info))
    decreases |codes|
  {
    if codes != [] {
      KnownLanguagesIsFilterMap(codes[1..], info);
      assert InfoOf(info)(codes[0]) == if codes[0] in info then Some(info[codes[0]]) else None;
    }
  }

  /** The packs of the configured languages that loaded, flattened (`load_all_translations`). */
  function LoadedPacks(codes: seq<string>, packs: map<string, Json>): (t: map<string, map<string, Json>>)
    ensures forall l :: l in t <==> l in codes && l in packs
  {
    map l | l in codes && l in packs :: FlattenJson(packs[l], "")
  }

  /** The primary subtag of one `Accept-Language` range: before ';' and '-', trimmed, lower case. */
  function PrimaryTag(range: string): string {
    ToLowerAscii(Split(Trim(Split(range, ';')[0]), '-')[0])
  }

  /** The primary subtags of the ranges, in list order. */
  function PrimaryTags(ranges: seq<string>): (tags: seq<string>)
    ensures |tags| == |ranges| && forall i | 0 <= i < |ranges| :: tags[i] == PrimaryTag(ranges[i])
  {
    seq(|ranges|, i requires 0 <= i < |ranges| => PrimaryTag(ranges[i]))
  }

  /** The index of the first tag from `i` on, in list order, that is supported. */
  function FirstSupported(tags: seq<string>, supported: seq<string>, i: nat): (f: nat)
    requires i <= |tags|
    ensures i <= f <= |tags|
    ensures f < |tags| ==> tags[f] in supported
    ensures forall j | i <= j < f :: tags[j] !in supported
    decreases |tags| - i
  {
    if i == |tags| then i
    else if tags[i] in supported then i
    else FirstSupported(tags, supported, i + 1)
  }

  /** `HeaderValue::to_str`: only visible ASCII and tab are readable. */
  function HeaderText(raw: string): (r: Option<string>)
    ensures r.Some? <==> forall i | 0 <= i < |raw| :: raw[i] == '\t' || (32 <= raw[i] as int < 127)
    ensures r.Some? ==> r.value == raw
  {
    if forall i | 0 <= i < |raw| :: raw[i] == '\t' || (32 <= raw[i] as int < 127) then Some(raw) else None
  }

  // ------------------------------------------------------------ the manager

  class I18nManager {
    const defaultLanguage: string
    const supportedLanguages: seq<string>
    const autoDetect: bool
    const cacheEnabled: bool
    const cacheExpireMinutes: U64
    const multilingualEnabled: bool
    const languageInfo: map<string, LanguageInfo>
    /** Language code to its flattened pack. */
    var translations: map<string, map<string, Json>>
    var cache: map<CacheKey, CacheItem>

    /**
     * Every cached text is what the fallback chain gives for its own language and
     * key under the current packs, and nothing is cached while caching is off.
     */
    ghost predicate Valid()
      reads this
    {
      && (forall k | k in cache :: cache[k].value == Resolve(translations, defaultLanguage, k.lang, k.key))
      && (!cacheEnabled ==> cache == map[])
    }

    /**
     * `I18nManager::new` once the settings are read: the packs that loaded
     * (`packs`, language code to parsed file) are flattened, the cache is empty.
     */
    constructor (defaultLanguage: string, supportedLanguages: seq<string>, autoDetect: bool, cacheEnabled: bool,
                 cacheExpireMinutes: U64, multilingualEnabled: bool, packs: map<string, Json>)
      ensures Valid()
      ensures this.defaultLanguage == defaultLanguage && this.supportedLanguages == supportedLanguages
      ensures this.autoDetect == autoDetect && this.cacheEnabled == cacheEnabled
      ensures this.cacheExpireMinutes == cacheExpireMinutes && this.multilingualEnabled == multilingualEnabled
      ensures languageInfo == InitLanguageInfo()
      ensures translations == LoadedPacks(supportedLanguages, packs) && cache == map[]
    {
      this.defaultLanguage := defaultLanguage;
      this.supportedLanguages := supportedLanguages;
      this.autoDetect := autoDetect;
      this.cacheEnabled := cacheEnabled;
      this.cacheExpireMinutes := cacheExpireMinutes;
      this.multilingualEnabled := multilingualEnabled;
      languageInfo := InitLanguageInfo();
      translations := LoadedPacks(supportedLanguages, packs);
      cache := map[];
    }

    /** `load_all_translations`: the packs of the configured languages, replacing the old ones. */
    method LoadAllTranslations(packs: map<string, Json>)
      modifies this`translations
      ensures translations == LoadedPacks(supportedLanguages, packs)
    {
      var loaded: map<string, map<string, Json>> := map[];
      for i := 0 to |supportedLanguages|
        invariant forall l :: l in loaded <==> l in supportedLanguages[..i] && l in packs
        invariant forall l | l in loaded :: loaded[l] == FlattenJson(packs[l], "")
      {
        var lang := supportedLanguages[i];
        if lang in packs {
          loaded := loaded[lang := FlattenJson(packs[lang], "")];
        }
        assert forall l | l in supportedLanguages[..i + 1] :: l in supportedLanguages[..i] || l == lang;
      }
      assert supportedLanguages[..|supportedLanguages|] == supportedLanguages;
      translations := loaded;
    }

    /** `get_from_cache`: the cached text, when there is an entry and it has not expired. */
    function GetFromCache(k: CacheKey, now: U64): (r: Option<string>)
      reads this
      ensures r.Some? <==> k in cache && Fresh(now, cache[k].timestamp, cacheExpireMinutes)
      ensures r.Some? ==> r.value == cache[k].value
    {
      if k in cache && Fresh(now, cache[k].timestamp, cacheExpireMinutes) then Some(cache[k].value) else None
    }

    /** `set_cache`: the entry is (re)written with the current time. */
    method SetCache(k: CacheKey, value: string, now: U64)
      modifies this`cache
      ensures cache == old(cache)[k := CacheItem(value, now)]
    {
      cache := cache[k := CacheItem(value, now)];
    }

    /** `cleanup_cache`: exactly the entries that have not expired are kept. */
    method CleanupCache(now: U64)
      modifies this`cache
      ensures cache == map k | k in old(cache) && Fresh(now, old(cache)[k].timestamp, cacheExpireMinutes) :: old(cache)[k]
      ensures forall k :: GetFromCache(k, now) == old(GetFromCache(k, now))
      ensures Valid() <== old(Valid())
    {
      cache := map k | k in cache && Fresh(now, cache[k].timestamp, cacheExpireMinutes) :: cache[k];
    }

    /**
     * `translate`: with caching on, a fresh entry for (lang, key) is used; otherwise
     * the fallback chain is resolved and, with caching on, stored. Either way the
     * text is the chain's answer for the current packs with the params applied.
     */
    method Translate(key: string, lang: string, params: Option<map<string, string>>, now: U64) returns (text: string)
      requires Valid()
      modifies this`cache
      ensures Valid()
      ensures IsParamsResult(Resolve(translations, defaultLanguage, lang, key), params, text)
      ensures var ck := CacheKey(lang, key);
        if !cacheEnabled || old(GetFromCache(ck, now)).Some? then cache == old(cache)
        else cache == old(cache)[ck := CacheItem(Resolve(translations, defaultLanguage, lang, key), now)]
    {
      var ck := CacheKey(lang, key);
      if cacheEnabled {
        var cached := GetFromCache(ck, now);
        if cached.Some? {
          text := ReplaceParams(cached.value, params);
          return;
        }
      }
      var result := Resolve(translations, defaultLanguage, lang, key);
      if cacheEnabled {
        SetCache(ck, result, now);
      }
      text := ReplaceParams(result, params);
    }

    /**
     * `detect_language_from_headers`: with detection on and a readable
     * `Accept-Language` header, the primary subtag of the first range (in list
     * order; q-weights are not consulted) that is supported; otherwise the default.
     */
    function DetectLanguage(acceptLanguage: Option<string>): (r: string)
      ensures r == defaultLanguage || r in supportedLanguages
      ensures !autoDetect || acceptLanguage.None? ==> r == defaultLanguage
      ensures autoDetect && acceptLanguage.Some? && HeaderText(acceptLanguage.value).None? ==> r == defaultLanguage
      ensures autoDetect && acceptLanguage.Some? && HeaderText(acceptLanguage.value).Some? ==>
        var ranges := Split(acceptLanguage.value, ',');
        var f := FirstSupported(PrimaryTags(ranges), supportedLanguages, 0);
        r == (if f < |ranges| then PrimaryTag(ranges[f]) else defaultLanguage)
    {
      if !autoDetect then defaultLanguage
      else match acceptLanguage
        case None => defaultLanguage
        case Some(raw) =>
          match HeaderText(raw)
          case None => defaultLanguage
          case Some(header) =>
            var ranges := Split(header, ',');
            var f := FirstSupported(PrimaryTags(ranges), supportedLanguages, 0);
            if f < |ranges| then PrimaryTag(ranges[f]) else defaultLanguage
    }

    /** `get_supported_languages`: the configured codes that have language information, in order. */
    function GetSupportedLanguages(): (r: seq<LanguageInfo>)
      reads this
      ensures forall x | x in r :: exists c | c in supportedLanguages && c in languageInfo :: x == languageInfo[c]
      ensures forall c | c in supportedLanguages && c in languageInfo :: languageInfo[c] in r
      ensures r == FilterMap(supportedLanguages, InfoOf(languageInfo))
    {
      KnownLanguagesIsFilterMap(supportedLanguages, languageInfo);
      KnownLanguages(supportedLanguages, languageInfo)
    }

    /**
     * `get_effective_language`: the requested language when multilingual mode is
     * on and it is supported, the default otherwise.
     */
    function GetEffectiveLanguage(requested: string): (r: string)
      ensures multilingualEnabled && requested in supportedLanguages ==> r == requested
      ensures r == defaultLanguage || (multilingualEnabled && r in supportedLanguages)
      ensures !multilingualEnabled ==> r == defaultLanguage
    {
      if !multilingualEnabled then defaultLanguage
      else if requested in supportedLanguages then requested
      else defaultLanguage
    }

    /**
     * `get_effective_supported_languages`: with multilingual mode off, only the
     * default language's information (if any); otherwise all supported languages.
     */
    function GetEffectiveSupportedLanguages(): (r: seq<LanguageInfo>)
      reads this
      ensures !multilingualEnabled ==>
        && |r| <= 1
        && (r == [] <==> defaultLanguage !in languageInfo)
        && (r != [] ==> r[0] == languageInfo[defaultLanguage])
      ensures multilingualEnabled ==> r == GetSupportedLanguages()
    {
      if !multilingualEnabled then
        if defaultLanguage in languageInfo then [languageInfo[defaultLanguage]] else []
      else GetSupportedLanguages()
    }

    /**
     * `reload_translations`: the packs are loaded again and, with caching on, the
     * cache is cleared, so no text of the old packs survives.
     */
    method ReloadTranslations(packs: map<string, Json>)
      requires Valid()
      modifies this`translations, this`cache
      ensures Valid()
      ensures translations == LoadedPacks(supportedLanguages, packs)
      ensures cache == map[]
    {
      LoadAllTranslations(packs);
      if cacheEnabled {
        cache := map[];
      }
    }
  }
}
