/**
 * The helpers of `src/utils/global.ts`: text truncation, the two
 * case-insensitive icon lookups and the application slug.
 *
 * The build-time base path (`import.meta.env.BASE_URL`) is the parameter
 * `base`. The two static tables are parameters too, each a sequence of
 * key/value pairs in the order `Object.keys` lists them.
 */
module Global {
  import opened Js

  /** An entry of the protocol-icon table, and the object `getProtocolInfo`
      builds from one. */
  datatype ProtocolIcon = ProtocolIcon(src: string, url: string, alt: string)

  /** The part of an application record that `getAppSlug` reads. */
  datatype App = App(name: Option<string>)

  /** The path `getAlternativeIcon` falls back to, relative to the base. */
  const DefaultAlternativeIcon: string := "alternatives/default.png"

  // ---------------------------------------------------------------------
  // sliceText
  // ---------------------------------------------------------------------

  /** `sliceText(text, length)`: a text longer than `length` is cut to its
      first `length` characters and marked with `...`; a text that fits is
      returned as it is. */
  function SliceText(text: string, length: nat): (r: string)
    ensures |text| <= length ==> r == text
    ensures |text| > length ==> |r| == length + 3 && r[..length] == text[..length] && r[length..] == "..."
    ensures |r| <= length + 3
  {
    if |text| > length then text[..length] + "..." else text
  }

  /** Truncating an already truncated text changes nothing. */
  lemma SliceTextIdempotent(text: string, length: nat)
    ensures SliceText(SliceText(text, length), length) == SliceText(text, length)
  {
  }

  // ---------------------------------------------------------------------
  // The case-insensitive lookup shared by getProtocolInfo and
  // getAlternativeIcon
  // ---------------------------------------------------------------------

  /** `name.trim().toLowerCase()`: the query both lookups compare keys with. */
  function Normalize(name: string): (key: string)
    ensures |key| <= |name|
    ensures forall i :: 0 <= i < |key| ==> !IsUpper(key[i])
    ensures key == [] || (!IsSpace(key[0]) && !IsSpace(key[|key| - 1]))
    ensures key == Lower(Trim(name))
  {
    var t := Trim(name);
    if t == [] then [] else
      LowerKeepsSpace(t[0]);
      LowerKeepsSpace(t[|t| - 1]);
      Lower(t)
  }

  /** Some key of `table` lowercases to `key`. */
  predicate HasMatch<V>(table: seq<(string, V)>, key: string) {
    exists i :: 0 <= i < |table| && Lower(table[i].0) == key
  }

  /** Entry `i` is the first, in key order, whose key lowercases to `key`. */
  predicate IsFirstMatch<V>(table: seq<(string, V)>, key: string, i: int) {
    && 0 <= i < |table|
    && Lower(table[i].0) == key
    && forall j :: 0 <= j < i ==> Lower(table[j].0) != key
  }

  /** `Object.keys(table).find(k => k.toLowerCase() === key)`, giving the
      position of the key it finds, or `None` for `undefined`. */
  function FindKey<V>(table: seq<(string, V)>, key: string): (r: Option<nat>)
    ensures r.Some? ==> IsFirstMatch(table, key, r.value)
    ensures r.None? ==> !HasMatch(table, key)
    decreases |table|
  {
    if table == [] then None
    else if Lower(table[0].0) == key then Some(0)
    else match FindKey(table[1..], key)
      case None => None
      case Some(i) => Some(i + 1)
  }

  /** No two keys of `table` are equal once lowercased. */
  predicate CaseDistinctKeys<V>(table: seq<(string, V)>) {
    forall i, j :: 0 <= i < j < |table| ==> Lower(table[i].0) != Lower(table[j].0)
  }

  // ---------------------------------------------------------------------
  // getProtocolInfo
  // ---------------------------------------------------------------------

  /** `getProtocolInfo(name)`. The found key is tested with `!foundKey`, so
      the empty key counts as a miss just like `undefined` does; since only
      the empty key lowercases to the empty query, the result is `null`
      exactly when the normalised name is empty or no key matches it. On a
      hit the first matching entry is returned with the base prefixed to
      its `src`. */
  function GetProtocolInfo(base: string, protocolIcons: seq<(string, ProtocolIcon)>, name: string)
    : (r: Option<ProtocolIcon>)
    ensures r.None? <==> Normalize(name) == "" || !HasMatch(protocolIcons, Normalize(name))
    ensures r.Some? ==> exists i :: IsFirstMatch(protocolIcons, Normalize(name), i)
                          && r.value == ProtocolIcon(base + protocolIcons[i].1.src,
                                                     protocolIcons[i].1.url,
                                                     protocolIcons[i].1.alt)
  {
    var key := Normalize(name);
    match FindKey(protocolIcons, key)
    case None => None
    case Some(i) =>
      if protocolIcons[i].0 == "" then None
      else
        var entry := protocolIcons[i].1;
        Some(ProtocolIcon(base + entry.src, entry.url, entry.alt))
  }

  /** When keys are distinct ignoring case, a name that normalises to a
      non-empty key finds exactly that key's entry. */
  lemma ProtocolInfoOfKey(base: string, protocolIcons: seq<(string, ProtocolIcon)>, name: string, i: nat)
    requires i < |protocolIcons| && protocolIcons[i].0 != ""
    requires CaseDistinctKeys(protocolIcons)
    requires Normalize(name) == Lower(protocolIcons[i].0)
    ensures GetProtocolInfo(base, protocolIcons, name)
            == Some(ProtocolIcon(base + protocolIcons[i].1.src, protocolIcons[i].1.url, protocolIcons[i].1.alt))
  {
  }

  // ---------------------------------------------------------------------
  // getAlternativeIcon
  // ---------------------------------------------------------------------

  /** `getAlternativeIcon(name)`: never `null`. A hit gives the base followed
      by the first matching entry's path; a miss (including the empty key,
      which is falsy) gives the base followed by the default path. */
  function GetAlternativeIcon(base: string, alternativeIcons: seq<(string, string)>, name: string)
    : (r: string)
    ensures |base| <= |r| && r[..|base|] == base
    ensures Normalize(name) == "" || !HasMatch(alternativeIcons, Normalize(name))
            ==> r == base + DefaultAlternativeIcon
    ensures Normalize(name) != "" && HasMatch(alternativeIcons, Normalize(name))
            ==> exists i :: IsFirstMatch(alternativeIcons, Normalize(name), i)
                            && r == base + alternativeIcons[i].1
  {
    var key := Normalize(name);
    var foundKey := FindKey(alternativeIcons, key);
    if foundKey.Some? && alternativeIcons[foundKey.value].0 != "" then
      base + alternativeIcons[foundKey.value].1
    else
      base + DefaultAlternativeIcon
  }

  /** When keys are distinct ignoring case, a name that normalises to a
      non-empty key finds exactly that key's path. */
  lemma AlternativeIconOfKey(base: string, alternativeIcons: seq<(string, string)>, name: string, i: nat)
    requires i < |alternativeIcons| && alternativeIcons[i].0 != ""
    requires CaseDistinctKeys(alternativeIcons)
    requires Normalize(name) == Lower(alternativeIcons[i].0)
    ensures GetAlternativeIcon(base, alternativeIcons, name) == base + alternativeIcons[i].1
  {
  }

  // ---------------------------------------------------------------------
  // Both lookups ignore case and surrounding whitespace
  // ---------------------------------------------------------------------

  /** Names that differ only in the case of their letters give the same
      query. */
  lemma NormalizeIgnoresCase(a: string, b: string)
    requires Lower(a) == Lower(b)
    ensures Normalize(a) == Normalize(b)
  {
    TrimLowerCommute(a);
    TrimLowerCommute(b);
  }

  /** Names that differ only in the case of their letters give the same
      results from both lookups. */
  lemma LookupIgnoresCase(base: string, protocolIcons: seq<(string, ProtocolIcon)>,
                          alternativeIcons: seq<(string, string)>, a: string, b: string)
    requires Lower(a) == Lower(b)
    ensures GetProtocolInfo(base, protocolIcons, a) == GetProtocolInfo(base, protocolIcons, b)
    ensures GetAlternativeIcon(base, alternativeIcons, a) == GetAlternativeIcon(base, alternativeIcons, b)
  {
    NormalizeIgnoresCase(a, b);
  }

  /** Whitespace around a name changes neither lookup. */
  lemma LookupIgnoresPadding(base: string, protocolIcons: seq<(string, ProtocolIcon)>,
                             alternativeIcons: seq<(string, string)>,
                             pre: string, name: string, post: string)
    requires AllSpace(pre) && AllSpace(post)
    ensures GetProtocolInfo(base, protocolIcons, pre + name + post)
            == GetProtocolInfo(base, protocolIcons, name)
    ensures GetAlternativeIcon(base, alternativeIcons, pre + name + post)
            == GetAlternativeIcon(base, alternativeIcons, name)
  {
    TrimIgnoresPadding(pre, name, post);
  }

  // ---------------------------------------------------------------------
  // getAppSlug
  // ---------------------------------------------------------------------

  /** The characters a slug may hold: `[a-z0-9]`. */
  predicate IsSlugChar(c: char) {
    ('a' <= c <= 'z') || ('0' <= c <= '9')
  }

  predicate IsNotSlugChar(c: char) {
    !IsSlugChar(c)
  }

  /** `app.name || ''`: an absent name and the empty name both read as "". */
  function NameOrEmpty(app: App): (r: string)
    ensures r == "" <==> app.name == None || app.name == Some("")
    ensures app.name.Some? ==> r == app.name.value
  {
    match app.name
    case None => ""
    case Some(n) => n
  }

  /** `getAppSlug(app)`: the name lowercased, with whitespace runs
      (`/\s+/g`) and then every character outside `[a-z0-9]` deleted. */
  function GetAppSlug(app: App): (r: string)
    ensures forall i :: 0 <= i < |r| ==> IsSlugChar(r[i])
    ensures forall c :: IsSlugChar(c) ==> multiset(r)[c] == multiset(Lower(NameOrEmpty(app)))[c]
    ensures IsSubsequence(r, Lower(NameOrEmpty(app)))
    ensures app.name == None || app.name == Some("") ==> r == ""
  {
    var lowered := Lower(NameOrEmpty(app));
    var spaceless := RemoveAll(lowered, IsSpace);
    SubsequenceTransitive(RemoveAll(spaceless, IsNotSlugChar), spaceless, lowered);
    RemoveAll(spaceless, IsNotSlugChar)
  }

  /** Deleting whitespace first is subsumed by deleting everything outside
      `[a-z0-9]`: the slug is the lowercased name filtered to `[a-z0-9]`. */
  lemma SlugIsFilteredLowerName(app: App)
    ensures GetAppSlug(app) == RemoveAll(Lower(NameOrEmpty(app)), IsNotSlugChar)
  {
    RemoveAllAbsorbed(Lower(NameOrEmpty(app)), IsSpace, IsNotSlugChar);
  }

  /** Slugging a slug gives the same slug back. */
  lemma SlugIdempotent(app: App)
    ensures GetAppSlug(App(Some(GetAppSlug(app)))) == GetAppSlug(app)
  {
    var slug := GetAppSlug(app);
    LowerFixesExactlyNonUpper(slug);
    assert NameOrEmpty(App(Some(slug))) == slug;
    forall i | 0 <= i < |slug| ensures !IsSpace(slug[i]) {
      SpaceIsNotAlphanumeric(slug[i]);
    }
    assert RemoveAll(slug, IsSpace) == slug;
    assert RemoveAll(slug, IsNotSlugChar) == slug;
  }
}
