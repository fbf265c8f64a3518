/** The language rule's name resolution: an entry such as "English, French"
    is split on commas, each part trimmed and mapped through the Dataverse
    synonym table, each resulting name followed by its ISO 639 synonyms, and
    the first candidate that resolves gives the code. */
module Language {
  import opened Wrappers
  import opened Text
  import opened Collaborators

  /** The classes of equivalent ISO 639-1 English names, in the order the
      table lists them. */
  const IsoSynonymClasses: seq<seq<string>> := [
    ["Castillian", "Spanish"],
    ["Catalan", "Valencian"],
    ["Chichewa", "Chewa", "Nyanja"],
    ["Zhuang", "Chuang"],
    ["Church Slavic", "Old Slavonic", "Church Slavonic", "Old Bulgarian", "Old Church Slavonic"],
    ["Divehi", "Dhivehi", "Maldivian"],
    ["Dutch", "Flemish"],
    ["Gaelic", "Scottish Gaelic"],
    ["Kikuyu", "Gikuyu"],
    ["Kalaallisut", "Greenlandic"],
    ["Haitian", "Haitian Creole"],
    ["Kuanyama", "Kwanyama"],
    ["Kirghiz", "Kyrgyz"],
    ["Limburgan", "Limburger", "Limburgish"],
    ["Romanian", "Moldavian", "Moldovan"],
    ["Navajo", "Navaho"],
    ["Ndebele, North", "North Ndebele"],
    ["Ndebele, South", "South Ndebele"],
    ["Norwegian Nynorsk", "Nynorsk, Norwegian"],
    ["Sichuan Yi", "Nuosu"],
    ["Interlingue", "Occidental"],
    ["Ossetian", "Ossetic"],
    ["Panjabi", "Punjabi"],
    ["Pushto", "Pashto"],
    ["Sinhala", "Sinhalese"],
    ["Uighur", "Uyghur"]
  ]

  /** Dataverse names that are not ISO 639 names, with the ISO name they stand for. */
  const DataverseSynonyms: map<string, string> := map[
    "Bangla" := "Bengali",
    "Fula" := "Fulah",
    "Pulaar" := "Fulah",
    "Pular" := "Fulah",
    "Letzeburgesch" := "Luxembourgish",
    "Persian (Farsi)" := "Persian",
    "Sanskrit (Saṁskṛta)" := "Sanskrit",
    "Tibetan Standard" := "Tibetan",
    "Tibetan, Central" := "Tibetan"
  ]

  /** `c` without `name`. */
  function Without(c: seq<string>, name: string): (r: seq<string>)
    ensures forall x :: x in r <==> x in c && x != name
  {
    if c == [] then []
    else if c[0] == name then Without(c[1..], name)
    else [c[0]] + Without(c[1..], name)
  }

  /** `synonyms_ISO.get(name, set())` where the table maps each member of a
      class to the other members of its class. */
  function SynonymsIn(classes: seq<seq<string>>, name: string): (r: seq<string>)
    ensures name !in r
    ensures r != [] ==> exists k :: 0 <= k < |classes| && name in classes[k]
    ensures forall x :: x in r ==> exists k :: 0 <= k < |classes| && name in classes[k] && x in classes[k]
  {
    if classes == [] then []
    else if name in classes[0] then Without(classes[0], name)
    else
      var r := SynonymsIn(classes[1..], name);
      assert forall k :: 0 <= k < |classes| - 1 ==> classes[1..][k] == classes[k + 1];
      r
  }

  ghost predicate Disjoint(classes: seq<seq<string>>) {
    forall i, j, x :: 0 <= i < j < |classes| && x in classes[i] ==> x !in classes[j]
  }

  /** When no name is in two classes, the table is symmetric: `a` is a
      synonym of `b` exactly when `b` is a synonym of `a`, and the synonyms
      of a name are the rest of its own class. */
  lemma {:induction false} SynonymsSymmetric(classes: seq<seq<string>>, a: string, b: string)
    requires Disjoint(classes)
    ensures a in SynonymsIn(classes, b) <==> b in SynonymsIn(classes, a)
    ensures a in SynonymsIn(classes, b) <==> a != b && exists k :: 0 <= k < |classes| && a in classes[k] && b in classes[k]
  {
    if classes != [] {
      var tail := classes[1..];
      assert Disjoint(tail);
      SynonymsSymmetric(tail, a, b);
      assert forall k :: 0 <= k < |tail| ==> tail[k] == classes[k + 1];
      if (exists k :: 0 <= k < |classes| && a in classes[k] && b in classes[k]) {
        var k :| 0 <= k < |classes| && a in classes[k] && b in classes[k];
        assert k == 0 || (a !in classes[0] && b !in classes[0]);
      }
    }
  }

  function IsoSynonyms(name: string): seq<string> {
    SynonymsIn(IsoSynonymClasses, name)
  }

  /** `synonyms_Dataverse.get(name, name)`. */
  function DataverseName(name: string): (r: string)
    ensures name !in DataverseSynonyms ==> r == name
    ensures name in DataverseSynonyms ==> r in DataverseSynonyms.Values && r !in DataverseSynonyms
  {
    if name in DataverseSynonyms then DataverseSynonyms[name] else name
  }

  /** The main names of an entry: its comma-separated parts, trimmed and
      translated from Dataverse to ISO names. */
  function MainNames(entry: string): (r: seq<string>)
    ensures |r| == |Split(entry, ',')| >= 1
    ensures forall i :: 0 <= i < |r| ==> r[i] == DataverseName(Strip(Split(entry, ',')[i]))
  {
    var parts := Split(entry, ',');
    seq(|parts|, i requires 0 <= i < |parts| => DataverseName(Strip(parts[i])))
  }

  /** The lists of `xss`, one after the other. */
  function Flatten(xss: seq<seq<string>>): seq<string> {
    if xss == [] then [] else xss[0] + Flatten(xss[1..])
  }

  /** One group per main name, in order: the name, then its synonyms in
      `classes`. */
  function Groups(classes: seq<seq<string>>, mains: seq<string>): (g: seq<seq<string>>)
    ensures |g| == |mains|
    ensures forall i :: 0 <= i < |mains| ==> g[i] == [mains[i]] + SynonymsIn(classes, mains[i])
  {
    seq(|mains|, i requires 0 <= i < |mains| => [mains[i]] + SynonymsIn(classes, mains[i]))
  }

  /** Each main name followed by its synonyms in `classes`: the groups of the
      main names laid end to end, so every main name comes before its own
      synonyms and after the group of the main name before it. */
  function Expand(classes: seq<seq<string>>, mains: seq<string>): (r: seq<string>)
    ensures r == Flatten(Groups(classes, mains))
    ensures mains != [] ==> r != [] && r[0] == mains[0]
    ensures forall c :: c in r ==> exists i :: 0 <= i < |mains| && (c == mains[i] || c in SynonymsIn(classes, mains[i]))
    ensures forall i :: 0 <= i < |mains| ==> mains[i] in r
  {
    if mains == [] then []
    else
      var rest := Expand(classes, mains[1..]);
      assert forall i :: 1 <= i < |mains| ==> mains[i] == mains[1..][i - 1];
      assert Groups(classes, mains)[1..] == Groups(classes, mains[1..]);
      [mains[0]] + SynonymsIn(classes, mains[0]) + rest
  }

  /** The candidate names the rule tries, in order. */
  function Candidates(entry: string): (r: seq<string>)
    ensures r == Flatten(Groups(IsoSynonymClasses, MainNames(entry)))
    ensures r != [] && r[0] == MainNames(entry)[0]
    ensures forall i :: 0 <= i < |MainNames(entry)| ==> MainNames(entry)[i] in r
  {
    Expand(IsoSynonymClasses, MainNames(entry))
  }

  /** A trimmed part of a comma split holds no comma, so the table key
      "Tibetan, Central" is never looked up: an entry "Tibetan, Central" is
      read as the two names "Tibetan" and "Central". */
  lemma CommaKeyNeverLookedUp(entry: string, i: nat)
    requires i < |Split(entry, ',')|
    ensures ',' !in Strip(Split(entry, ',')[i])
    ensures Strip(Split(entry, ',')[i]) != "Tibetan, Central"
  {
    var p := Split(entry, ',');
    StripAddsNothing(p[i], ',');
    CommaKeyHasComma(Strip(p[i]));
  }

  /** The table key "Tibetan, Central" holds a comma. */
  lemma CommaKeyHasComma(name: string)
    requires ',' !in name
    ensures name != "Tibetan, Central"
  {
    assert "Tibetan, Central"[7] == ',';
  }

  /** The two names that mean "no language", compared case-insensitively. */
  predicate IsNoLanguage(name: string) {
    Lower(name) == "no linguistic content" || Lower(name) == "not applicable"
  }

  /** The candidate ends the search. */
  predicate Hit(ext: Collaborators, name: string) {
    IsNoLanguage(name) || ext.languageByName(name).Some?
  }

  /** The outcome of the candidate that ends the search: `zxx` for the "no
      language" names, otherwise the record's ISO 639-1 code, or the
      AttributeError of a record without one. */
  function CodeOf(ext: Collaborators, name: string): (r: Result<string>)
    requires Hit(ext, name)
    ensures r.Failure? ==> r.error == MissingAlpha2(name)
    ensures IsNoLanguage(name) ==> r == Success("zxx")
    ensures !IsNoLanguage(name) && ext.languageByName(name).value.alpha2.Some? ==>
      r == Success(ext.languageByName(name).value.alpha2.value)
    ensures !IsNoLanguage(name) && ext.languageByName(name).value.alpha2.None? ==> r.Failure?
  {
    if IsNoLanguage(name) then Success("zxx")
    else
      match ext.languageByName(name).value.alpha2
      case Some(code) => Success(code)
      case None => Failure(MissingAlpha2(name))
  }

  /** The first candidate that hits decides; the ValueError "Unsupported
      language" exactly when none does. */
  function FirstCode(ext: Collaborators, names: seq<string>, entry: string): (r: Result<string>)
    ensures r == Failure(UnsupportedLanguage(entry)) <==> forall i :: 0 <= i < |names| ==> !Hit(ext, names[i])
    ensures r != Failure(UnsupportedLanguage(entry)) ==>
      exists i :: 0 <= i < |names| && Hit(ext, names[i]) && r == CodeOf(ext, names[i]) &&
        forall j :: 0 <= j < i ==> !Hit(ext, names[j])
    ensures r.Failure? ==> r.error.UnsupportedLanguage? || r.error.MissingAlpha2?
  {
    if names == [] then Failure(UnsupportedLanguage(entry))
    else if Hit(ext, names[0]) then CodeOf(ext, names[0])
    else
      var r := FirstCode(ext, names[1..], entry);
      assert forall i :: 1 <= i < |names| ==> names[i] == names[1..][i - 1];
      r
  }

  /** The position of the first candidate that hits, when the search succeeds. */
  lemma FirstHitIndex(ext: Collaborators, names: seq<string>, entry: string) returns (i: nat)
    requires FirstCode(ext, names, entry).Success?
    ensures i < |names| && Hit(ext, names[i]) && FirstCode(ext, names, entry) == CodeOf(ext, names[i])
    ensures forall j :: 0 <= j < i ==> !Hit(ext, names[j])
  {
    i :| 0 <= i < |names| && Hit(ext, names[i]) && FirstCode(ext, names, entry) == CodeOf(ext, names[i]) &&
      forall j :: 0 <= j < i ==> !Hit(ext, names[j]);
  }

  /** One step of the search: the candidate at `i` decides if it hits,
      otherwise the rest of the list does. */
  lemma FirstCodeStep(ext: Collaborators, names: seq<string>, i: nat, entry: string)
    requires i < |names|
    ensures Hit(ext, names[i]) ==> FirstCode(ext, names[i..], entry) == CodeOf(ext, names[i])
    ensures !Hit(ext, names[i]) ==> FirstCode(ext, names[i..], entry) == FirstCode(ext, names[i + 1..], entry)
  {
    assert names[i..][0] == names[i];
    assert names[i..][1..] == names[i + 1..];
  }

  /** The search loop of the language rule, with its `break` on the first
      hit. */
  method ResolveLanguage(ext: Collaborators, entry: string) returns (r: Result<string>)
    ensures r == FirstCode(ext, Candidates(entry), entry)
  {
    r := SearchNames(ext, Candidates(entry), entry);
  }

  /** The loop itself, over the candidate names in order. */
  method SearchNames(ext: Collaborators, names: seq<string>, entry: string) returns (r: Result<string>)
    ensures r == FirstCode(ext, names, entry)
  {
    var result: Option<string> := None;
    var i := 0;
    while i < |names|
      invariant 0 <= i <= |names|
      invariant result.None?
      invariant FirstCode(ext, names[i..], entry) == FirstCode(ext, names, entry)
    {
      var name := names[i];
      FirstCodeStep(ext, names, i, entry);
      if IsNoLanguage(name) {
        result := Some("zxx");
        break;
      }
      var found := ext.languageByName(name);
      if found.Some? {
        match found.value.alpha2 {
          case Some(code) =>
            result := Some(code);
            break;
          case None =>
            return Failure(MissingAlpha2(name));
        }
      }
      i := i + 1;
    }
    if result.None? {
      return Failure(UnsupportedLanguage(entry));
    }
    return Success(result.value);
  }

  const LanguageUriPrefix: string := "http://id.loc.gov/vocabulary/iso639-"

  /** The `dcterms:language` object: the ISO 639-1 vocabulary for codes of at
      most two letters, ISO 639-2 otherwise. */
  function LanguageUri(code: string): (r: string)
    ensures |r| == |LanguageUriPrefix| + 2 + |code|
    ensures r[..|LanguageUriPrefix|] == LanguageUriPrefix
    ensures r[|LanguageUriPrefix|] == (if |code| <= 2 then '1' else '2') && r[|LanguageUriPrefix| + 1] == '/'
  {
    LanguageUriPrefix + (if |code| <= 2 then "1" else "2") + "/" + code
  }

  /** The code a language URI ends with. */
  function CodeOfLanguageUri(uri: string): string {
    if |uri| >= |LanguageUriPrefix| + 2 then uri[|LanguageUriPrefix| + 2..] else ""
  }

  /** The URI starts with the vocabulary prefix, names the part of ISO 639
      that matches the code's length, and gives the code back. */
  lemma LanguageUriRoundTrip(code: string)
    ensures LanguageUri(code)[..|LanguageUriPrefix|] == LanguageUriPrefix
    ensures LanguageUri(code)[|LanguageUriPrefix|] == (if |code| <= 2 then '1' else '2')
    ensures CodeOfLanguageUri(LanguageUri(code)) == code
  {
    var u := LanguageUri(code);
    assert u[|LanguageUriPrefix| + 2..] == code;
  }
}
