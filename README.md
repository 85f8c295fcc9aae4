# guia helpers, modelled in Dafny

A model of the helper module `src/utils/global.ts` of the guia web front-end:

- `sliceText` keeps a text within a length budget and marks a cut with `...`;
- `getProtocolInfo` and `getAlternativeIcon` look a name up, ignoring case and
  surrounding whitespace, in a static icon table and prefix the stored path with
  the site's base path; a miss gives `null` for protocols and a default icon
  path for alternatives;
- `getAppSlug` turns an application's name into a lowercase `[a-z0-9]` slug.

`js.dfy` (module `Js`) restates the JavaScript built-ins these helpers use:
`trim` and the regex class `\s` over ECMAScript's WhiteSpace and LineTerminator
characters, `toLowerCase` on ASCII letters, `replace(/[class]/g, '')` as the
deletion of a character class, `null`/`undefined` as `Option.None`.
`global.dfy` (module `Global`) holds the helpers and what is proved about them.

The base path `import.meta.env.BASE_URL` is the parameter `base`. The two
tables, which live in other files of the repository, are parameters: sequences
of key/value pairs in the order `Object.keys` lists them, so that "the first
key that matches" means the same as `find` does.

The lookups test the key that `find` returns with `!foundKey` and
`foundKey ? … : …`. An empty key is falsy, so a table key `""` that matches
an empty (or all-whitespace) name counts as a miss. The model follows the code:
`getProtocolInfo` returns `null` exactly when the trimmed, lowercased name is
empty or no key matches it, and `getAlternativeIcon` then returns the default.
A plain description of these helpers ("null when no key matches") differs only
in that case.

## Model

| member | source | states |
|---|---|---|
| Global.SliceText | src/utils/global.ts:7-12 | a text of at most `length` characters comes back unchanged; a longer one becomes its first `length` characters followed by `...`, so `length + 3` characters beginning with a prefix of the text; the result is never longer than `length + 3` |
| Global.SliceTextIdempotent | src/utils/global.ts:7-12 | truncating a truncated text again with the same budget changes nothing |
| Js.TrimStart | src/utils/global.ts:15 | the leading-whitespace half of `trim`: the result is a suffix of the input, everything dropped is whitespace, and the result does not start with whitespace |
| Js.TrimEnd | src/utils/global.ts:15 | the trailing-whitespace half of `trim`: the result is a prefix of the input, everything dropped is whitespace, and the result does not end with whitespace |
| Js.TrimIgnoresPadding | src/utils/global.ts:15 | whitespace added on either side of a string does not change what `trim` returns |
| Js.SpaceIsNotAlphanumeric | src/utils/global.ts:60 | no character of the `\s` class (ECMAScript WhiteSpace and LineTerminator, the set `trim` removes too) is an ASCII letter or digit |
| Js.LowerChar | src/utils/global.ts:59 | `toLowerCase` on one character: the result is never an upper-case ASCII letter; `A`-`Z` move to `a`-`z` and every other character is unchanged |
| Js.Lower | src/utils/global.ts:59 | `toLowerCase` keeps the length and maps every character by the one-character rule |
| Js.LowerFixesExactlyNonUpper | src/utils/global.ts:59 | `toLowerCase` leaves a string unchanged if and only if it holds no upper-case ASCII letter |
| Js.LowerIdempotent | src/utils/global.ts:15 | lowercasing a lowercased string changes nothing |
| Global.Normalize | src/utils/global.ts:15 | the query `name.trim().toLowerCase()` is the trimmed name in lower case; it is no longer than the name, holds no upper-case letter, and neither starts nor ends with whitespace |
| Global.NormalizeIgnoresCase | src/utils/global.ts:15 | two names equal after lowercasing give the same query, because trimming and lowercasing commute |
| Js.Trim | src/utils/global.ts:15 | `trim` returns a contiguous slice of the name that neither starts nor ends with whitespace, and everything cut off on either side is whitespace |
| Global.FindKey | src/utils/global.ts:16-18 | `find` over the keys yields the first position, in key order, whose key lowercases to the query, and yields nothing only when no key does |
| Global.GetProtocolInfo | src/utils/global.ts:14-30 | the result is `null` exactly when the normalised name is empty or no key matches it; otherwise it is the first matching entry with the base prefixed to `src` and `url` and `alt` copied unchanged |
| Global.ProtocolInfoOfKey | src/utils/global.ts:15-29 | with keys distinct ignoring case, a name that normalises to a non-empty key's lowercase form gets that key's entry, with the base prefixed to `src` |
| Global.GetAlternativeIcon | src/utils/global.ts:32-45 | the result always starts with the base; a miss gives `base + "alternatives/default.png"`, a hit gives the base followed by the first matching entry's path |
| Global.AlternativeIconOfKey | src/utils/global.ts:33-41 | with keys distinct ignoring case, a name that normalises to a non-empty key's lowercase form gets the base followed by that key's path |
| Global.LookupIgnoresCase | src/utils/global.ts:14-45 | two names that differ only in letter case give identical results from both lookups |
| Global.LookupIgnoresPadding | src/utils/global.ts:14-45 | whitespace added before or after a name changes neither lookup's result |
| Js.RemoveAll | src/utils/global.ts:60-61 | deleting a character class leaves no character of the class, keeps every other character exactly as many times as it occurs, keeps the order (the result is a subsequence), and leaves a string without such characters unchanged |
| Global.GetAppSlug | src/utils/global.ts:57-62 | the slug holds only `[a-z0-9]`, holds each `[a-z0-9]` character exactly as many times as the lowercased name does, in the name's order (it is a subsequence of the lowercased name), and is empty when the name is absent or empty |
| Global.NameOrEmpty | src/utils/global.ts:58 | the fallback of a falsy name to `''`: the result is empty exactly when the name is absent or empty, and is the name itself whenever one is present |
| Global.SlugIsFilteredLowerName | src/utils/global.ts:58-61 | the whitespace step is subsumed: the slug equals the lowercased name filtered to `[a-z0-9]` |
| Js.RemoveAllAbsorbed | src/utils/global.ts:60-61 | deleting a class and then a larger class equals deleting the larger class alone |
| Global.SlugIdempotent | src/utils/global.ts:57-62 | slugging an existing slug returns that slug |

## Left out

- `getFaviconPath` (src/utils/global.ts:47-55) is not modelled: it rests on the WHATWG URL parser (`new URL(url).hostname`) and on catching its exceptions, which cannot be restated faithfully here.
- The contents of the protocol-icon and alternative-icon tables are defined in other files of the repository, which are not part of this model; the tables are parameters.
- `import.meta.env.BASE_URL` is read from the build environment; it is the parameter `base`.
- Js.Lower: models `toLowerCase` on ASCII letters only; the full Unicode case mapping (including characters whose lowercase form has a different length) is not modelled. This changes results: JavaScript lowercases some non-ASCII letters to ASCII (U+212A KELVIN SIGN becomes `k`, U+0130 becomes `i` followed by U+0307), so `getAppSlug` keeps a letter for such a name where `GetAppSlug` keeps none, and a table key can match such a name in JavaScript but not in the model.
- Global.SliceText: counts characters as Dafny sequence elements (Unicode scalar values), whereas JavaScript's `length` and `slice` count UTF-16 code units, so a character outside the Basic Multilingual Plane counts as two there and may be split; `length` is a `nat`, so the negative and fractional budgets that `slice` would also accept are not modelled.
- The order in which `Object.keys` lists keys (integer-like keys first, ascending, then insertion order) is left to whoever supplies the table sequence.
- The commented-out logging in `getAlternativeIcon` (src/utils/global.ts:43) has no effect and is not modelled.
