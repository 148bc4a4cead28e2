/** The localisation helpers of utils/i18n.js: locale normalisation and
    resolution, dotted-path lookup and update in nested dictionaries,
    `{token}` interpolation, and the `translate` fallback chain. The locale
    dictionaries are given as data. */
module I18n {

  import opened Wrappers
  import opened Js
  import Cards

  /** A JSON value as the helpers see it: a string, an object, or any other
      value (a number, a boolean, `null`) with its truthiness. */
  datatype Value = Str(s: string) | Dict(entries: map<string, Value>) | Scalar(truthy: bool)

  const SupportedLocales: seq<string> := ["en", "ja"]
  const DefaultLocale: string := "en"
  const FallbackNamespaces: seq<string> := ["common", "actions"]

  /** JavaScript truthiness: objects always, strings when non-empty. */
  predicate Truthy(v: Value) {
    match v
    case Str(s) => s != ""
    case Dict(_) => true
    case Scalar(b) => b
  }

  // ---------------------------------------------------------------- locales

  /** `normalizeLocale(value)`; `None` stands for any value that is not a string. */
  function NormalizeLocale(value: Option<string>): (r: string)
    ensures value.None? || value == Some("") ==> r == ""
    ensures '-' !in r
    ensures value.Some? ==> |r| <= |value.value| && r == Lower(value.value)[..|r|]
    ensures value.Some? && value.value != "" && |r| < |value.value| ==> Lower(value.value)[|r|] == '-'
  {
    if value.None? || value.value == "" then ""
    else
      SplitHead(Lower(value.value), '-');
      Split(Lower(value.value), '-')[0]
  }

  predicate IsSupportedLocale(value: Option<string>) {
    NormalizeLocale(value) in SupportedLocales
  }

  /** `resolveLocale(preferred)`: always a supported locale, the normalised
      preference exactly when that one is supported, `en` otherwise. */
  function ResolveLocale(preferred: Option<string>): (r: string)
    ensures r in SupportedLocales
    ensures IsSupportedLocale(preferred) <==> r == NormalizeLocale(preferred)
    ensures !IsSupportedLocale(preferred) ==> r == DefaultLocale
  {
    if IsSupportedLocale(preferred) then NormalizeLocale(preferred) else DefaultLocale
  }

  lemma NormalizeSupported()
    ensures NormalizeLocale(Some("en")) == "en" && NormalizeLocale(Some("ja")) == "ja"
  {
    SplitNoSep("en", '-');
    SplitNoSep("ja", '-');
    assert Lower("en") == "en" && Lower("ja") == "ja";
  }

  /** A resolved locale resolves to itself. */
  lemma ResolveLocaleIdempotent(preferred: Option<string>)
    ensures ResolveLocale(Some(ResolveLocale(preferred))) == ResolveLocale(preferred)
  {
    NormalizeSupported();
  }

  /** A region subtag is dropped and the language lower-cased. */
  lemma ResolveRegionalLocale()
    ensures ResolveLocale(Some("ja-JP")) == "ja"
    ensures ResolveLocale(Some("EN")) == "en"
    ensures ResolveLocale(Some("fr")) == "en"
  {
    assert Lower("ja-JP") == "ja-jp";
    SplitAppend("ja", '-', "jp");
    assert "ja-jp" == "ja" + ['-'] + "jp";
    assert Lower("EN") == "en";
    SplitNoSep("en", '-');
    assert Lower("fr") == "fr";
    SplitNoSep("fr", '-');
  }

  /** `getDictionary(locale)`: the locale's dictionary, else the English one, else `{}`. */
  function GetDictionary(dicts: map<string, Value>, locale: string): (d: Value)
    ensures Truthy(d)
    ensures locale in dicts && Truthy(dicts[locale]) ==> d == dicts[locale]
    ensures !(locale in dicts && Truthy(dicts[locale])) && DefaultLocale in dicts && Truthy(dicts[DefaultLocale]) ==>
              d == dicts[DefaultLocale]
  {
    if locale in dicts && Truthy(dicts[locale]) then dicts[locale]
    else if DefaultLocale in dicts && Truthy(dicts[DefaultLocale]) then dicts[DefaultLocale]
    else Dict(map[])
  }

  // ---------------------------------------------------------------- dotted paths

  /** The `reduce` of `getNestedValue`: an own property per segment, `None`
      (`undefined`) as soon as one is missing. */
  function Walk(v: Value, parts: seq<string>): Option<Value>
    decreases |parts|
  {
    if parts == [] then Some(v)
    else if v.Dict? && parts[0] in v.entries then Walk(v.entries[parts[0]], parts[1..])
    else None
  }

  /** `getNestedValue(obj, key)`. */
  function GetNested(obj: Value, key: string): (r: Option<Value>)
    ensures !Truthy(obj) || key == "" ==> r.None?
    ensures '.' !in key && key != "" ==>
              r == (if obj.Dict? && key in obj.entries then Some(obj.entries[key]) else None)
  {
    if !Truthy(obj) || key == "" then None
    else
      assert '.' !in key ==> Split(key, '.') == [key] by {
        if '.' !in key { SplitNoSep(key, '.'); }
      }
      assert '.' !in key && obj.Dict? && key in obj.entries ==> Walk(obj, [key]) == Some(obj.entries[key]) by {
        if obj.Dict? && key in obj.entries {
          assert [key][1..] == [] && Walk(obj.entries[key], []) == Some(obj.entries[key]);
        }
      }
      Walk(obj, Split(key, '.'))
  }

  /** The walk of `setNestedValue` along `parts`: missing and non-object
      intermediates become fresh objects, the last segment receives `value`. */
  function SetPath(d: map<string, Value>, parts: seq<string>, value: Value): (r: map<string, Value>)
    requires |parts| >= 1
    ensures r.Keys == d.Keys + {parts[0]}
    ensures forall k :: k in d && k != parts[0] ==> r[k] == d[k]
    ensures |parts| == 1 ==> r[parts[0]] == value
    ensures |parts| > 1 ==> r[parts[0]].Dict?
    decreases |parts|
  {
    if |parts| == 1 then d[parts[0] := value]
    else
      var child := if parts[0] in d && d[parts[0]].Dict? then d[parts[0]].entries else map[];
      d[parts[0] := Dict(SetPath(child, parts[1..], value))]
  }

  /** `setNestedValue(obj, key, value)`, on the object's own entries. */
  function SetNested(obj: map<string, Value>, key: string, value: Value): map<string, Value> {
    SetPath(obj, Split(key, '.'), value)
  }

  lemma {:induction false} WalkSetPath(d: map<string, Value>, parts: seq<string>, value: Value)
    requires |parts| >= 1
    ensures Walk(Dict(SetPath(d, parts, value)), parts) == Some(value)
    decreases |parts|
  {
    if |parts| > 1 {
      var child := if parts[0] in d && d[parts[0]].Dict? then d[parts[0]].entries else map[];
      WalkSetPath(child, parts[1..], value);
    }
  }

  /** Reading back what was written: `getNestedValue` after `setNestedValue`
      on the same non-empty key returns the value. */
  lemma GetAfterSet(obj: map<string, Value>, key: string, value: Value)
    requires key != ""
    ensures GetNested(Dict(SetNested(obj, key, value)), key) == Some(value)
  {
    WalkSetPath(obj, Split(key, '.'), value);
  }

  /** Writing under one top-level entry leaves every path through another entry alone. */
  lemma SetLeavesOtherPaths(obj: map<string, Value>, key: string, value: Value, other: string)
    requires key != "" && other != ""
    requires Split(other, '.')[0] != Split(key, '.')[0]
    ensures GetNested(Dict(SetNested(obj, key, value)), other) == GetNested(Dict(obj), other)
  {
  }

  // ---------------------------------------------------------------- interpolate

  /** A character of the regular-expression class `\w`. */
  predicate IsWordChar(ch: char) {
    'a' <= ch <= 'z' || 'A' <= ch <= 'Z' || '0' <= ch <= '9' || ch == '_'
  }

  /** The longest prefix of `s` made of `\w` characters. */
  function WordPrefix(s: string): (w: string)
    ensures |w| <= |s| && w == s[..|w|]
    ensures forall k :: 0 <= k < |w| ==> IsWordChar(w[k])
    ensures |w| < |s| ==> !IsWordChar(s[|w|])
  {
    if s != [] && IsWordChar(s[0]) then [s[0]] + WordPrefix(s[1..]) else []
  }

  /** `vars[token]` when `vars` has it as an own property, `''` otherwise. */
  function Substitute(vars: map<string, string>, token: string): string {
    if token in vars then vars[token] else ""
  }

  /** `template.replace(/\{(\w+)\}/g, ...)`: scanning left to right, each
      `{` followed by one or more word characters and a `}` is replaced. */
  function Interp(t: string, vars: map<string, string>): string
    decreases |t|
  {
    if t == [] then []
    else if t[0] == '{' then
      var w := WordPrefix(t[1..]);
      if |w| > 0 && 1 + |w| < |t| && t[1 + |w|] == '}' then Substitute(vars, w) + Interp(t[2 + |w|..], vars)
      else ['{'] + Interp(t[1..], vars)
    else [t[0]] + Interp(t[1..], vars)
  }

  /** `interpolate(template, vars)`: anything but a string template, or no
      `vars`, comes back unchanged. */
  function Interpolate(template: Value, vars: Option<map<string, string>>): (r: Value)
    ensures vars.None? || !template.Str? ==> r == template
    ensures vars.Some? && template.Str? ==> r == Str(Interp(template.s, vars.value))
  {
    if vars.None? || !template.Str? then template else Str(Interp(template.s, vars.value))
  }

  /** Text without a `{` is left as it is, ... */
  lemma {:induction false} InterpPlain(a: string, rest: string, vars: map<string, string>)
    requires '{' !in a
    ensures Interp(a + rest, vars) == a + Interp(rest, vars)
    decreases |a|
  {
    if a == [] {
      assert a + rest == rest;
    } else {
      var t := a + rest;
      assert t[0] == a[0] && t[1..] == a[1..] + rest;
      InterpPlain(a[1..], rest, vars);
      InterpChar(t, vars);
      assert a == [a[0]] + a[1..];
    }
  }

  /** A character other than `{` is copied. */
  lemma InterpChar(t: string, vars: map<string, string>)
    requires t != [] && t[0] != '{'
    ensures Interp(t, vars) == [t[0]] + Interp(t[1..], vars)
  {
  }

  /** ... and a `{word}` placeholder becomes the word's value, or nothing. */
  lemma Placeholder(a: string, w: string, b: string, vars: map<string, string>)
    requires '{' !in a && w != [] && forall k :: 0 <= k < |w| ==> IsWordChar(w[k])
    ensures Interp(a + "{" + w + "}" + b, vars) == a + Substitute(vars, w) + Interp(b, vars)
  {
    var t := "{" + w + "}" + b;
    assert a + "{" + w + "}" + b == a + t;
    InterpPlain(a, t, vars);
    assert t[1..] == w + ("}" + b);
    WordOfPlaceholder(w, "}" + b);
    assert t[2 + |w|..] == b;
  }

  lemma WordOfPlaceholder(w: string, rest: string)
    requires forall k :: 0 <= k < |w| ==> IsWordChar(w[k])
    requires rest != [] && !IsWordChar(rest[0])
    ensures WordPrefix(w + rest) == w
    decreases |w|
  {
    if w != [] {
      assert (w + rest)[1..] == w[1..] + rest;
      WordOfPlaceholder(w[1..], rest);
    }
  }

  lemma NoPlaceholders(t: string, vars: map<string, string>)
    requires '{' !in t
    ensures Interp(t, vars) == t
  {
    InterpPlain(t, [], vars);
    assert t + [] == t;
  }

  // ---------------------------------------------------------------- translate

  /** The lookup shared by `translate` and `getClientTranslations`: the
      resolved locale's dictionary first, then the English one. */
  function Lookup(dicts: map<string, Value>, safeLocale: string, key: string): (r: Option<Value>)
    ensures r.Some? ==> GetNested(GetDictionary(dicts, safeLocale), key) == r ||
                        (safeLocale != DefaultLocale && GetNested(GetDictionary(dicts, DefaultLocale), key) == r)
    ensures r.None? ==> GetNested(GetDictionary(dicts, safeLocale), key).None? &&
                        GetNested(GetDictionary(dicts, DefaultLocale), key).None?
  {
    var value := GetNested(GetDictionary(dicts, safeLocale), key);
    if value.None? && safeLocale != DefaultLocale then GetNested(GetDictionary(dicts, DefaultLocale), key)
    else value
  }

  /** `getFallbackValue(key)`: the English entry. */
  function FallbackValue(dicts: map<string, Value>, key: string): Option<Value> {
    GetNested(GetDictionary(dicts, DefaultLocale), key)
  }

  /** `translate(locale, key, vars)`. */
  function Translate(dicts: map<string, Value>, locale: Option<string>, key: string,
                     vars: Option<map<string, string>>): (r: Value)
    ensures key == "" ==> r == Str("")
    ensures key != "" ==>
              var here := GetNested(GetDictionary(dicts, ResolveLocale(locale)), key);
              var en := GetNested(GetDictionary(dicts, DefaultLocale), key);
              if here.Some? then r == Interpolate(here.value, vars)
              else if en.Some? then r == Interpolate(en.value, vars)
              else r == Str(key)
  {
    if key == "" then Str("")
    else
      var value := Lookup(dicts, ResolveLocale(locale), key);
      if value.None? then
        match FallbackValue(dicts, key)
        case Some(fallback) => Interpolate(fallback, vars)
        case None => Str(key)
      else if value.value.Str? then Interpolate(value.value, vars)
      else value.value
  }

  /** The `getFallbackValue` branch of `translate` never finds anything: it
      repeats the English lookup that already failed. */
  lemma FallbackRepeatsLookup(dicts: map<string, Value>, safeLocale: string, key: string)
    requires Lookup(dicts, safeLocale, key).None?
    ensures FallbackValue(dicts, key).None?
  {
  }

  /** With a value in neither dictionary, `translate` returns the key itself. */
  lemma TranslateMissingKey(dicts: map<string, Value>, locale: Option<string>, key: string,
                            vars: Option<map<string, string>>)
    requires key != "" && Lookup(dicts, ResolveLocale(locale), key).None?
    ensures Translate(dicts, locale, key, vars) == Str(key)
  {
    FallbackRepeatsLookup(dicts, ResolveLocale(locale), key);
  }

  // ---------------------------------------------------------------- getClientTranslations

  /** `Array.from(new Set(s))`: the first occurrence of each element, in order. */
  function Unique(s: seq<string>): (u: seq<string>)
    ensures NoDup(u) && forall x :: x in u <==> x in s
    decreases |s|
  {
    if s == [] then []
    else
      var u := Unique(s[..|s| - 1]);
      assert forall x :: x in s <==> x in s[..|s| - 1] || x == s[|s| - 1];
      if s[|s| - 1] in u then u else u + [s[|s| - 1]]
  }

  /** `Unique` keeps the order of first occurrence: of two kept names, the
      one that occurs first in `s` comes first. */
  lemma {:induction false} UniqueInFirstOrder(s: seq<string>)
    ensures forall i, j :: 0 <= i < j < |Unique(s)| ==>
              Cards.IndexOf(s, Unique(s)[i]) < Cards.IndexOf(s, Unique(s)[j])
    decreases |s|
  {
    if s != [] {
      var p := s[..|s| - 1];
      var x := s[|s| - 1];
      assert s == p + [x];
      UniqueInFirstOrder(p);
      var u := Unique(p);
      forall y | y in u ensures Cards.IndexOf(s, y) == Cards.IndexOf(p, y) {
        IndexOfExtend(p, x, y);
      }
      if x !in u {
        IndexOfLast(p, x);
        assert Unique(s) == u + [x];
      }
    }
  }

  /** Appending leaves the first index of an element already present. */
  lemma IndexOfExtend(p: seq<string>, x: string, y: string)
    requires y in p
    ensures Cards.IndexOf(p + [x], y) == Cards.IndexOf(p, y)
  {
    assert (p + [x])[Cards.IndexOf(p, y)] == y;
  }

  /** A new element appended is first found at the end. */
  lemma IndexOfLast(p: seq<string>, x: string)
    requires x !in p
    ensures Cards.IndexOf(p + [x], x) == |p|
  {
    assert (p + [x])[|p|] == x;
  }

  /** The bundle after the `forEach` has handled the namespaces `nss`. */
  function Bundle(dicts: map<string, Value>, safeLocale: string, nss: seq<string>): map<string, Value>
    decreases |nss|
  {
    if nss == [] then map[]
    else
      var bundle := Bundle(dicts, safeLocale, nss[..|nss| - 1]);
      var ns := nss[|nss| - 1];
      var value := Lookup(dicts, safeLocale, ns);
      if value.Some? then SetNested(bundle, ns, value.value) else bundle
  }

  /** `getClientTranslations(locale, namespaces)`. */
  method GetClientTranslations(dicts: map<string, Value>, locale: Option<string>, namespaces: seq<string>)
    returns (bundle: map<string, Value>)
    ensures bundle == Bundle(dicts, ResolveLocale(locale), Unique(FallbackNamespaces + namespaces))
  {
    var unique := Unique(FallbackNamespaces + namespaces);
    var safeLocale := ResolveLocale(locale);
    bundle := map[];
    for i := 0 to |unique|
      invariant bundle == Bundle(dicts, safeLocale, unique[..i])
    {
      var ns := unique[i];
      var value := Lookup(dicts, safeLocale, ns);
      assert unique[..i + 1] == unique[..i] + [ns];
      BundleSnoc(dicts, safeLocale, unique[..i], ns);
      if value.Some? {
        bundle := SetNested(bundle, ns, value.value);
      }
    }
    assert unique[..|unique|] == unique;
  }

  /** Handling one more namespace adds what was found for it, if anything. */
  lemma BundleSnoc(dicts: map<string, Value>, safeLocale: string, nss: seq<string>, ns: string)
    ensures var value := Lookup(dicts, safeLocale, ns);
            Bundle(dicts, safeLocale, nss + [ns]) ==
              if value.Some? then SetNested(Bundle(dicts, safeLocale, nss), ns, value.value)
              else Bundle(dicts, safeLocale, nss)
  {
    assert (nss + [ns])[..|nss|] == nss;
  }

  /** For plain (dot-free, non-empty) namespace names the bundle holds
      exactly the namespaces found, with the value found. */
  lemma {:induction false} BundleContents(dicts: map<string, Value>, safeLocale: string, nss: seq<string>)
    requires forall k :: 0 <= k < |nss| ==> nss[k] != "" && '.' !in nss[k]
    ensures var bundle := Bundle(dicts, safeLocale, nss);
            forall ns :: ns in bundle <==> ns in nss && Lookup(dicts, safeLocale, ns).Some?
    ensures var bundle := Bundle(dicts, safeLocale, nss);
            forall ns :: ns in bundle ==> Lookup(dicts, safeLocale, ns) == Some(bundle[ns])
    decreases |nss|
  {
    if nss != [] {
      var init := nss[..|nss| - 1];
      BundleContents(dicts, safeLocale, init);
      SplitNoSep(nss[|nss| - 1], '.');
      assert forall ns :: ns in nss <==> ns in init || ns == nss[|nss| - 1];
    }
  }

  /** The `common` and `actions` namespaces are always asked for: each one is
      in the bundle exactly when some dictionary has it. */
  lemma ClientTranslationsHaveFallbacks(dicts: map<string, Value>, locale: Option<string>, namespaces: seq<string>)
    requires forall k :: 0 <= k < |namespaces| ==> namespaces[k] != "" && '.' !in namespaces[k]
    ensures var bundle := Bundle(dicts, ResolveLocale(locale), Unique(FallbackNamespaces + namespaces));
            forall ns :: ns in FallbackNamespaces + namespaces ==>
              (ns in bundle <==> Lookup(dicts, ResolveLocale(locale), ns).Some?) &&
              (ns in bundle ==> Lookup(dicts, ResolveLocale(locale), ns) == Some(bundle[ns]))
  {
    PlainNamespaces(namespaces);
    BundleContents(dicts, ResolveLocale(locale), Unique(FallbackNamespaces + namespaces));
  }

  /** With plain requested names, every name asked for is plain. */
  lemma PlainNamespaces(namespaces: seq<string>)
    requires forall k :: 0 <= k < |namespaces| ==> namespaces[k] != "" && '.' !in namespaces[k]
    ensures forall k :: 0 <= k < |Unique(FallbackNamespaces + namespaces)| ==>
              Unique(FallbackNamespaces + namespaces)[k] != "" && '.' !in Unique(FallbackNamespaces + namespaces)[k]
  {
    var all := FallbackNamespaces + namespaces;
    var u := Unique(all);
    forall k | 0 <= k < |u| ensures u[k] != "" && '.' !in u[k] {
      assert u[k] in all;
      var j :| 0 <= j < |all| && all[j] == u[k];
      if j >= 2 {
        assert all[j] == namespaces[j - 2];
      } else {
        assert "common" != "" && '.' !in "common" && '.' !in "actions";
      }
    }
  }

  // ---------------------------------------------------------------- translateItemText

  /** `dict.items?.[text]`. */
  function ItemEntry(dict: Value, text: string): Option<Value> {
    if dict.Dict? && "items" in dict.entries && dict.entries["items"].Dict? && text in dict.entries["items"].entries
    then Some(dict.entries["items"].entries[text])
    else None
  }

  predicate HasTruthyItem(dict: Value, text: string) {
    ItemEntry(dict, text).Some? && Truthy(ItemEntry(dict, text).value)
  }

  /** `translateItemText(locale, text)`; `None` is a text that is not a string. */
  function TranslateItemText(dicts: map<string, Value>, locale: Option<string>, text: Option<string>): (r: Value)
    ensures text.None? ==> r == Str("")
    ensures text.Some? ==>
              var dict := GetDictionary(dicts, ResolveLocale(locale));
              var fallbackDict := GetDictionary(dicts, DefaultLocale);
              if HasTruthyItem(dict, text.value) then r == ItemEntry(dict, text.value).value
              else if HasTruthyItem(fallbackDict, text.value) then r == ItemEntry(fallbackDict, text.value).value
              else r == Str(text.value)
  {
    if text.None? then Str("")
    else
      var dict := GetDictionary(dicts, ResolveLocale(locale));
      var fallbackDict := GetDictionary(dicts, DefaultLocale);
      var a := ItemEntry(dict, text.value);
      var value := if a.Some? && Truthy(a.value) then a else ItemEntry(fallbackDict, text.value);
      if value.Some? && Truthy(value.value) then value.value else Str(text.value)
  }
}
