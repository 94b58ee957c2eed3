# fig-to-tok token engine in Dafny

This project models the core of fig-to-tok, a Figma plugin that turns a file's local
variables and styles into design tokens and sends them to the plugin's UI. The modelled
core covers:

- **Variable graph.** Variables, their collections and modes, and their per-mode values.
- **Alias resolution.** `resolveValueAsync`, in its two forms:
  - the one in the variable module, with a `seen` set that is only added to;
  - the one in the plugin entry file, which returns `null` on a cycle.
  - Each form has its own module-level `aliasCache` (code.ts:51, src/variables.ts:4).
- **Per-mode token table.** `buildTokensByMode`, and its inline copy in the entry file's `run`.
- **W3C document.** `buildW3CFromVariables`, in its typed form and its older compiled form:
  - `core` with the palette, spacing, radius and typography;
  - the mode colours;
  - `$themes` with per-theme colour overrides.
- **SCSS file.** `buildScssVariables`:
  - groups and names;
  - one line per mode for semantic colours, the first mode only for everything else;
  - alias references kept as SCSS references or resolved;
  - string literals.
- **Styles.** `buildShadows`, `buildTypeStyles`, `weightFromStyle`, and the entry file's
  `buildW3CTypography`, `dimRef`, `getTokenPathByVarId` and `bind`.
- **UI bridge.** The outbox that holds messages until `UI_READY`, and the chunked export
  `EXPORT_BEGIN` / `EXPORT_CHUNK`… / `EXPORT_END`.
- **Entry-file shell.** The `onmessage` listener (UI_READY, RESIZE, CLOSE) and the window
  size saved in client storage.

**Layout.** The modules follow the source files:

| Modules | Source |
|---|---|
| `Text`, `Naming` | `src/utils/naming.ts` and the string built-ins it uses |
| `Colors` | `src/utils/colors.ts`, and the hand-padded copy in `code.ts` |
| `VariableData` | variables and collections |
| `Coercion` | `Number(...)` and `String(...)` on values |
| `Resolution`, `Resolver` | alias resolution |
| `TokenTable` | the per-mode table |
| `Classify` | group and name rules |
| `W3C` | `src/w3c.ts` |
| `W3CLegacy` | `src/w3c.js` |
| `Scss` | `src/format-scss.ts` |
| `Tables` | objects filled by `out[key] = value` |
| `Styles` | style builders |
| `Bridge` | `src/ui-bridge.ts` |
| `Shell` | `code.ts` start-up and messages |

**How the code is shaped.**
- Pure logic is written as functions.
- Each loop of the source is a method whose `ensures` ties its result to such a function.
- The module-level caches are classes:
  - `AliasResolver`, for `aliasCache`;
  - `AliasPathCache`, for `aliasPathCache`;
  - `UiBridge` and `PluginShell`, for `uiReady`/`outbox`.
- Each class has an invariant (`Valid`) that every method keeps.

**Host calls and values.**
- Figma's host calls become values passed in:
  - the collections and variables;
  - a graph from variable id to variable, which stands for `getVariableByIdAsync`;
  - the style lists.
- `postMessage` is an append to a `posted` sequence.
- A thrown `TypeError` is the `Fault` case of a `Result`.

**Behaviour of the code that the model keeps:**
- *Missing references.* A `null` colour reaching `toHex` or `formatValue` throws, and so does
  a variable whose collection is missing (`collectionsById.get(...)!`). Those paths are
  `Fault` here (`W3C.BuildW3CFault`, `Scss.BuildScssFault`); they do not degrade to `null`.
- *The "first" mode strategy.* "first" only drops the mode suffix. A semantic colour still
  gets a line for every mode (`Scss.EmitModesLines`).
- *Dimensions.* `src/w3c.ts` writes core dimensions as `"<n>px"` strings
  (`W3C.ToDimRoundTrip`). The `{ value, unit: "px" }` object form belongs to the older
  `src/w3c.js`.
- *Alias cycles.* The variable module's `resolveValueAsync` never reads its `seen` set, so
  an alias chain that comes back to its start makes it recurse without end. Its model
  requires that no chain followed for the caller's mode loops, and only when the value is
  an alias (`Resolver.AliasResolver.ResolveValue`). The SCSS builder with `preserveAliases`
  follows no alias. The W3C builder follows chains only under each variable's first mode and
  under the modes of mode-colour COLOR variables (`W3C.CycleUnderSecondMode`).
- *Fallback mode.* A missing mode falls back to the first key of `valuesByMode` in insertion
  order (`VariableData.Pick`), not to the lexicographically first mode id.

## Model

| member | source | states |
|---|---|---|
| Text.Lower | src/utils/naming.ts:3 | `toLowerCase` keeps the length and lowers each upper-case letter, leaving every other character as it is |
| Text.Trim | src/utils/naming.ts:2 | `trim` gives a string with no space at either end; it is empty exactly when the input is all whitespace; an already trimmed string is unchanged |
| Text.TrimIsSlice | src/utils/naming.ts:2 | the trimmed string occurs inside the input at the point where the leading whitespace ends, so trimming never adds characters |
| Text.Split | src/utils/naming.ts:2 | `split(sep)` gives at least one part; no part contains the separator; a string without the separator splits into itself |
| Text.SplitJoin | src/utils/naming.ts:2 | joining the parts of `split(sep)` with `sep` gives back the original string |
| Text.SplitConcat | src/utils/naming.ts:2 | a separator in the text splits it into the parts of the text before it followed by the parts of the text after it |
| Text.JoinSplit | src/utils/naming.ts:2 | splitting the join of parts that hold no separator gives the parts back, so `split` and `join` are inverse both ways |
| Text.LowerConcat | src/utils/naming.ts:3 | lower-casing a concatenation lower-cases each side |
| Text.LowerKeeps | src/w3c.ts:12 | lower-casing keeps text without upper-case letters as it is, and keeps trimmed text trimmed |
| Text.SplitLowerHead | src/format-scss.ts:29 | lower-casing before splitting on a separator that is not a letter gives the lower-cased first part |
| Text.CollapseSpace | src/utils/naming.ts:3 | `replace(/\s+/g, "-")` leaves no whitespace, is the identity on text without whitespace, and adds no upper-case letter |
| Text.CollapseSpaceRun | src/utils/naming.ts:3 | a whole run of whitespace after text without whitespace becomes exactly one "-", the text before it kept |
| Text.CollapseSpaceSep | src/utils/naming.ts:3 | a non-space character is kept in place, and the text on each side of it is replaced on its own |
| Text.CollapseJoin | src/w3c.ts:43-44 | replacing the runs in each part and then joining with a non-space separator gives the same text as replacing them in the joined text |
| Naming.KeepTrimmed | src/utils/naming.ts:2 | `map(trim).filter(Boolean)` keeps only non-empty trimmed segments |
| Naming.KeepTrimmedOne | src/utils/naming.ts:2 | one segment is kept, trimmed, exactly when it is not whitespace only |
| Naming.KeepTrimmedConcat | src/utils/naming.ts:2 | trimming and filtering distribute over concatenation, so every non-blank segment is kept, trimmed, in its order |
| Naming.KeepTrimmedClean | src/utils/naming.ts:2 | segments that are already non-empty and trimmed are all kept as they are |
| Naming.KeepTrimmedEmpty | src/utils/naming.ts:2 | nothing is kept exactly when every segment is whitespace only |
| Naming.Segments | src/utils/naming.ts:2 | every segment of a pathified name is non-empty, trimmed and free of "/" |
| Naming.Pathify | src/utils/naming.ts:1-2 | `pathify` never yields a "/" and is trimmed; the compiled copy at src/utils/naming.js:1 is the same |
| Naming.PathifyOfParts | src/utils/naming.ts:1-2 | the pathified name is the kept (trimmed, non-blank) "/" segments joined by "." |
| Naming.PathifyJoin | src/utils/naming.ts:1-2 | clean segments joined by "/" pathify to the same segments joined by "." |
| Naming.PathifyExample | src/utils/naming.ts:1-2 | "palette/gray/100" becomes "palette.gray.100" |
| Naming.PathifySkipsBlank | src/utils/naming.ts:2 | a whitespace-only segment between two clean segments is dropped |
| Naming.PathifyDropsEmpty | src/utils/naming.ts:2 | "a//b" becomes "a.b" |
| Naming.PathifyEmptyIff | src/utils/naming.ts:2 | a name pathifies to "" exactly when it consists only of "/" and whitespace |
| Naming.PathifyIdempotent | src/utils/naming.ts:2 | pathifying a pathified name changes nothing |
| Naming.Kebab | src/utils/naming.ts:3 | `kebab` yields neither whitespace nor upper-case letters; the compiled copy at src/utils/naming.js:2 is the same |
| Naming.KebabWords | src/utils/naming.ts:3 | a whitespace run between a word and trimmed text becomes one "-", and the word is lower-cased |
| Naming.KebabExample | src/utils/naming.ts:3 | "Heading  Large" becomes "heading-large" |
| Naming.KebabIdempotent | src/utils/naming.ts:3 | kebab-casing a kebab-cased name changes nothing |
| Colors.HexString | src/utils/colors.ts:3 | `toString(16)` yields only hex digits; one digit exactly below 16, at most two exactly below 256 |
| Colors.HexStringDecodes | src/utils/colors.ts:3 | reading the hex digits back gives the number (round trip) |
| Colors.PadStart | src/utils/colors.ts:3 | `padStart(n, ch)` gives length max(\|s\|, n) and ends with `s`, so it never truncates |
| Colors.ToHexByte | src/utils/colors.ts:1-4 | a channel byte is at least two hex digits, exactly two when the value is below 256; the compiled copy at src/utils/colors.js:1-4 is the same |
| Colors.ToHexByteDecodes | src/utils/colors.ts:3 | the two hex digits read back as the channel value |
| Colors.ToHexBytePaddedAgrees | code.ts:32-36 | the entry file's `"0" + hex` padding gives the same text as `padStart(2, "0")` |
| Colors.RgbaToHex | src/utils/colors.ts:5-6 | `rgbaToHex` starts with "#"; it has 9 characters with alpha exactly when alpha < 1, else 7; the compiled copy at src/utils/colors.js:5 is the same |
| Colors.RgbaToHexPaddedAgrees | code.ts:37-40 | the entry file's `rgbaToHex` gives the same text as the utility one |
| Colors.RgbaToHexRoundTrip | src/utils/colors.ts:5-6 | parsing the hex colour back gives r, g, b, and the alpha exactly when it was written |
| Colors.ShadowHex | src/styles.ts:14-20 | a shadow colour always carries alpha: 9 characters starting with "#" |
| Colors.ShadowHexRoundTrip | src/styles.ts:20 | parsing a shadow colour gives back all four channels |
| Coercion.ToHex | src/w3c.ts:7-8 | `toHex` throws exactly on `null`; a colour gives its `rgbaToHex` text |
| Coercion.HexOf | src/w3c.ts:78 | `hexOf` throws exactly on `null`; a string passes through as it is |
| Coercion.NumberOfIntToString | src/w3c.ts:5 | `Number(String(n))` is `n` for every integer |
| VariableData.Lookup | src/variables.ts:24 | `valuesByMode[modeId]` is present exactly when some entry has that key, and it is that entry's value |
| VariableData.Pick | src/variables.ts:22-25 | the value under the mode is used when it is present and not `null`; otherwise the value under the first key |
| VariableData.FindCollection | src/w3c.ts:56 | `collectionsById.get(id)` finds a collection with that id, and finds none only when no collection has it |
| Resolution.ResolveFrom | code.ts:53-93 | resolution never returns an alias or an RGBA object: the result is a literal, a hex string or `null` |
| Resolution.Resolve | src/variables.ts:12-33 | a resolved value is never an alias and never a raw colour object |
| Resolution.ResolveStep | src/variables.ts:20-26 | a missing target or a mode with no value resolves to `null`; otherwise resolution follows one hop |
| Resolution.ChainResolves | src/variables.ts:26 | every alias along a chain resolves to the same value as the chain's start |
| Resolution.ChainToLiteral | src/variables.ts:26-31 | an alias chain ending in a literal resolves to that literal, or to its hex text for a colour |
| Resolution.ReachSeenNull | code.ts:66 | an alias that reaches a variable already in `seen` resolves to `null` |
| Resolution.OnCycleNull | code.ts:66-67 | an alias on a cycle resolves to `null` rather than looping |
| Resolution.SeenIrrelevant | code.ts:66-67 | adding to `seen` only ids that reach the alias does not change its result |
| Resolver.AliasResolver.constructor | src/variables.ts:4 | the alias cache starts empty and is consistent with resolution |
| Resolver.AliasResolver.ResolveValue | src/variables.ts:12-33 | a value that is not an alias is returned (a colour as its hex text) on any graph; for an alias, when no chain followed for the mode loops, the result is its resolution; a cached alias is served from the cache without change; a resolved hop is stored; entries are never dropped; the compiled copy at src/variables.js:9-33 is the same |
| Resolver.AliasResolver.ResolveValueGuarded | code.ts:53-93 | on any graph the result is the resolution of the value; the cache is checked before `seen`; an alias already in `seen` gives `null` and stores nothing |
| Resolver.AliasResolver.FollowGuarded | code.ts:66-88 | an alias neither cached nor already seen resolves to its resolution, and is cached whenever its target holds a value for the mode |
| Resolver.AliasResolver.Remember | src/variables.ts:27 | storing an alias's resolution under its id and mode keeps every cached entry equal to the resolution it stands for |
| Classify.Norm | src/w3c.ts:12 | `norm` gives lower-case, trimmed text, and keeps text that is already lower-case and trimmed as it is |
| Classify.SplitHead | src/w3c.ts:15-18 | head and sub are normalised, the head holds no "/", and the rest has one entry per segment after the second, empty ones included |
| Classify.SplitHeadOfParts | src/w3c.ts:15-18 | for segments joined by "/", head, sub and rest are the normalised first, second and remaining segments, or "" and [] when missing |
| Classify.HeadIsFirst | src/w3c.ts:15-17 | the head is the normalised first "/" segment |
| Classify.HeadGroup | src/w3c.ts:28-32 | the head segment alone never classifies a variable as a mode colour |
| Classify.GroupForAgree | src/format-scss.ts:26-35 | when the name and its first "/" segment have no whitespace at their ends, the SCSS `groupFor` gives the same group as the W3C one at src/w3c.ts:21-33, mode colours included |
| Classify.GroupForDiffer | src/format-scss.ts:29 | for the name "palette /gray" the W3C `groupFor` gives palette, since it trims each segment, and the SCSS one misc, since it trims only the whole name |
| Classify.CatIsCollapse | src/w3c.ts:35-41 | the typography category is the sub-group with whitespace runs turned into "-" |
| Classify.JoinRest | src/w3c.ts:43-44 | the joined rest has no whitespace, and is the parts joined by "." when none of them has whitespace |
| Classify.JoinRestCollapses | src/w3c.ts:43-44 | the joined rest is the parts joined by "." with every whitespace run turned into "-" |
| Classify.JoinRestLeaf | src/w3c.ts:43-44 | the segments "gray", "100" give "gray.100" |
| Classify.JoinRestCategory | src/w3c.ts:43-44 | the segment "font size" gives "font-size" |
| Classify.GroupFromPath | src/format-scss.ts:16-23 | a path never classifies as a semantic colour |
| Classify.GroupFromPathAgrees | src/format-scss.ts:16-23 | for clean lower-case segments whose head is not "border-radius" or "font", the group of the pathified name is the group `groupFor` gives the "/" name |
| Classify.GroupFromPathDiffers | src/format-scss.ts:16-23 | "font.size" is typography for `groupFromPath` while "font/size" is misc for `groupFor` |
| Classify.NameParts | src/format-scss.ts:39 | one part per "." segment, none holding whitespace or "."; text without whitespace splits unchanged |
| Classify.NamePartsJoin | src/format-scss.ts:39 | joining the parts with "." gives the path with every whitespace run turned into "-" |
| Classify.KeptParts | src/format-scss.ts:40-60 | the parts after the group's leading word, in order: two dropped for "border", "radius" under radius, one for the group's own word, none otherwise |
| Classify.NameFor | src/format-scss.ts:38-62 | an SCSS name starts with its group's prefix and holds no whitespace |
| Classify.NameForParts | src/format-scss.ts:38-62 | for parts without whitespace or ".", the name is the group's prefix followed by the kept parts joined by "-" |
| Classify.NameForPalette | src/format-scss.ts:40-43 | ("palette", "palette.gray.100") gives "color-gray-100" |
| Classify.NameForBorderRadius | src/format-scss.ts:49-56 | ("radius", "border radius.md") gives "radius-md" |
| Classify.NameForSemantic | src/format-scss.ts:44 | ("semantic", "bg.primary") gives "color-bg-primary", keeping every part |
| Classify.NameForTypography | src/format-scss.ts:57-60 | ("typography", "typography.body") gives "body", with no prefix |
| Classify.LegacyGroupForCaseInsensitive | src/w3c.js:2-6 | the older classifier gives the same group whatever the case of the collection name |
| TokenTable.VarsIn | src/variables.ts:37 | a collection's variables are listed ones with its id, and every listed one with its id is among them |
| TokenTable.VarsInConcat | src/variables.ts:37 | filtering distributes over concatenation, so the variables keep their order |
| TokenTable.VarsInOne | src/variables.ts:37 | a single variable is kept exactly when it has the id |
| TokenTable.MapSet | code.ts:46 | `Map.set` of an absent key appends the entry at the end; of a present key it replaces the first entry with that key in place, keeping every other entry |
| TokenTable.FoldVarsUntouched | src/variables.ts:46-52 | a key that no variable with a value writes keeps what it had |
| TokenTable.FoldVarsLastWins | src/variables.ts:47-58 | of the variables with the same path, the last one with a value decides the token: its type name and its resolved value |
| TokenTable.FoldVarsKeys | src/variables.ts:46-58 | a key is in a mode's table exactly when it was already there or some variable with a value for the mode pathifies to it |
| TokenTable.TokensByModeShape | src/variables.ts:40-45 | the table has one entry per mode name of the collections, and every token value is fully resolved |
| TokenTable.CurrentNames | src/variables.ts:41-44 | a name keys the table exactly when some collection has a mode with that name |
| TokenTable.ModeNameMapDistinct | code.ts:44-48 | with distinct mode ids, walking the `Map<modeId, name>` visits the modes in the same order as the collection's list |
| TokenTable.GroupByCollection | src/variables.ts:36-37 | grouping variables by collection id gives each collection exactly its variables, in order |
| TokenTable.FillMode | src/variables.ts:46-59 | filling one mode's table gives the token fold for that mode and keeps the alias cache consistent |
| TokenTable.BuildTokensByMode | src/variables.ts:35-64 | the per-mode table built by the loops is the one the token fold specifies; the compiled copy at src/variables.js:34-64 is the same; the entry file's inline copy at code.ts:355-392 builds the same table, typing FLOAT as "number" and using the guarded resolver |
| TokenTable.FillCollection | src/variables.ts:41-60 | the loop over one collection's modes leaves the table the mode fold specifies, and the cache stays consistent |
| W3C.ToDimRoundTrip | src/w3c.ts:5 | `toDim` writes an integer followed by "px", and reading the number back gives the value |
| W3C.ThemeIdShape | src/w3c.ts:125 | a theme id is kebab-cased: no whitespace, no upper-case letters |
| W3C.ThemeIndex | src/w3c.ts:143 | finding a theme by name gives an index of a theme with that name, and nothing only when none has it |
| W3C.PutFault | src/w3c.ts:77-89 | storing a token throws exactly for a palette or mode-colour COLOR variable whose value is `null` |
| W3C.PlaceFault | src/w3c.ts:60-68 | placing a variable throws exactly when its collection is missing or its base colour is `null` |
| W3C.PlaceAllFault | src/w3c.ts:58-119 | the first pass throws exactly when some variable does |
| W3C.OverrideModesFault | src/w3c.ts:138-145 | writing a variable's overrides throws exactly when one of its modes has a `null` colour; otherwise the theme list keeps its names |
| W3C.OverrideFault | src/w3c.ts:130-146 | the override pass for one variable throws exactly when its collection is missing or one of its theme colours is `null` |
| W3C.OverrideAllFault | src/w3c.ts:130-146 | the override pass throws exactly when some variable does, and never adds or renames a theme |
| W3C.SetThemeFresh | src/w3c.ts:126 | adding a theme by name adds it once: a name already present leaves the list as it is |
| W3C.ThemesForFresh | src/w3c.ts:121-128 | collecting themes keeps names unique and adds exactly the mode names of the mode-colour collections |
| W3C.ThemesForShape | src/w3c.ts:121-128 | the themes are one per mode name of the mode-colour collections, each named once, covering every mode the override pass looks up |
| W3C.PutShape | src/w3c.ts:77-118 | storing a token keeps every dimension an "<n>px" text, core leaves free of whitespace and mode-colour keys free of "/" |
| W3C.PlaceAllShape | src/w3c.ts:58-119 | the whole first pass keeps that shape |
| W3C.BuildW3CFault | src/w3c.ts:46-151 | `buildW3CFromVariables` throws exactly when some variable has a missing collection, a `null` base colour or a `null` theme colour |
| W3C.BuildW3CThemes | src/w3c.ts:121-148 | the document's themes are exactly the mode names of the mode-colour collections, each once, each with the id of its name: lower-cased, whitespace runs turned into "-", not trimmed |
| W3C.BuildW3CShape | src/w3c.ts:51-119 | the document's core and mode colours have the dimension and key shape above |
| W3C.PlaceVariables | src/w3c.ts:58-119 | the first loop builds the sheet the first-pass fold specifies; alias chains must not loop only under each variable's first collection mode, the one it resolves under |
| W3C.CollectThemes | src/w3c.ts:121-128 | the theme loop builds the theme list the fold specifies |
| W3C.AddModeThemes | src/w3c.ts:124-127 | the loop over one collection's modes gives the theme list the per-mode fold specifies, a later mode of the same name replacing the earlier theme |
| W3C.OverrideVariable | src/w3c.ts:138-145 | the inner override loop gives the per-mode fold for one variable; only the collection's own modes must be free of alias cycles |
| W3C.ApplyOverrides | src/w3c.ts:130-146 | the override loop gives the override fold; only the modes of mode-colour COLOR variables must be free of alias cycles |
| W3C.BuildW3CFromVariables | src/w3c.ts:46-151 | the builder returns the document the functional model specifies, or throws in exactly its fault cases, on every graph whose resolved modes are free of alias cycles |
| W3C.CycleUnderSecondMode | src/w3c.ts:63-68 | two variables of a plain collection that alias each other under its second mode make the graph cyclic, yet both passes accept it, since the first resolves under the first mode only and the last skips plain collections |
| W3CLegacy.TypeLeaf | src/w3c.js:52 | a typography leaf is never empty: it falls back to "value" |
| W3CLegacy.LegacyHex | src/w3c.js:29-33 | a colour is written as its `rgbaToHex` text |
| W3CLegacy.ColorOverridesOfIff | src/w3c.js:68-72 | a theme override exists exactly for the mode's "color." tokens of type "color", and holds that token's value |
| W3CLegacy.PlaceAllFault | src/w3c.js:19-64 | the older variable loop throws exactly when some variable's collection is missing |
| W3CLegacy.LegacyW3CFault | src/w3c.js:8-76 | the older builder throws exactly when some variable's collection is missing |
| W3CLegacy.LegacyThemesFromTable | src/w3c.js:66-74 | themes built from the per-mode table have distinct names, ids that are the name lower-cased with whitespace runs turned into "-" (not trimmed), and resolved override values |
| W3CLegacy.PlaceVariables | src/w3c.js:19-64 | the older variable loop builds the sheet the fold specifies |
| W3CLegacy.ColorOverrides | src/w3c.js:67-72 | the override loop collects exactly the colour overrides of the mode |
| W3CLegacy.BuildThemes | src/w3c.js:66-74 | the theme loop builds the themes specified from the table |
| W3CLegacy.BuildLegacyW3C | src/w3c.js:8-76 | the older builder returns the document the functional model specifies |
| Scss.QuoteAsWrittenUnterminated | src/format-scss.ts:72 | escaping only double quotes turns the string `x\` into a literal that a Sass reader cannot close |
| Scss.ReadEscaped | src/format-scss.ts:72 | with backslashes escaped as well, the literal body reads back as the original text, followed by whatever comes after the closing quote |
| Scss.QuoteRoundTrip | src/format-scss.ts:72 | a quoted string value reads back as itself (corrected escaping) |
| Scss.EscapeQuotesPlain | src/format-scss.ts:72 | without backslashes in the text, escaping only double quotes is the full escaping |
| Scss.QuoteAsWrittenPlain | src/format-scss.ts:72 | a STRING value without backslash or newline, quoted as written, reads back as its text |
| Scss.FormatValue | src/format-scss.ts:65-75 | formatting throws exactly on a `null` COLOR value |
| Scss.FormatValueReadsBack | src/format-scss.ts:65-75 | a font weight reads back as `Number(v) \|\| 0`, any other FLOAT as that number followed by "px"; a BOOLEAN is "true" exactly when the value is truthy, else "false"; a STRING without backslash or newline reads back as its text; a COLOR is its hex text; anything else is `String(v)` |
| Scss.AliasLine | src/format-scss.ts:135 | an alias line is the value line whose value is "$" and the target's name |
| Scss.ValueLine | src/format-scss.ts:143 | a value line is a `$name: value;` declaration |
| Scss.ValueLineReadsBack | src/format-scss.ts:143 | a value line reads back as its name and value when the name has no ":" |
| Scss.AliasLineReadsBack | src/format-scss.ts:135 | an alias line reads back as its name and "$" followed by the target's name |
| Scss.Render | src/format-scss.ts:130-143 | a rendered mode is a declaration; it throws exactly when a value not kept as an alias belongs to a COLOR variable and resolves to `null` |
| Scss.RenderUnterminatedString | src/format-scss.ts:140-143 | a STRING variable with the value `x\` gets the line `$name: "x\";`, whose value reads back but whose quoted literal never ends |
| Scss.EmitMode | src/format-scss.ts:118-145 | one pass of the mode loop gives the mode's line, no line, or the throw, as the per-mode function specifies |
| Scss.EmitRender | src/format-scss.ts:130-143 | the method writes the declaration (or the throw) the render function specifies and keeps both caches consistent; with `preserveAliases` it follows no alias, so it runs on any graph |
| Scss.ModeLine | src/format-scss.ts:118-145 | a line produced for a mode is a declaration |
| Scss.GatherSpec | src/format-scss.ts:118-145 | the mode loop throws exactly when one of its modes does; otherwise it appends the lines of the modes, in order |
| Scss.ModeLineFault | src/format-scss.ts:120-142 | a mode throws exactly when it has a value and is written, the value is not kept as an alias, and it is a `null` colour |
| Scss.ModeLineSome | src/format-scss.ts:120-124 | a mode gives a line exactly when it has a value and the variable is semantic or the mode is the first |
| Scss.EmitModesFault | src/format-scss.ts:118-145 | a variable's mode loop throws exactly when one of its modes does |
| Scss.EmitModesLines | src/format-scss.ts:118-145 | a semantic variable gets one declaration for every mode with a value, whatever the mode strategy; any other variable at most one |
| Scss.EmitVarFault | src/format-scss.ts:109-111 | a variable throws exactly when its collection is missing or one of its written modes throws |
| Scss.EmitAllFault | src/format-scss.ts:108-146 | the variable loop throws exactly when some variable does |
| Scss.EmitAllDecls | src/format-scss.ts:108-146 | the variable loop appends only declarations |
| Scss.ScssLinesShape | src/format-scss.ts:102-149 | the file is the two header lines, then declarations, or else the placeholder comment, which appears exactly when there is no declaration |
| Scss.BuildScssFault | src/format-scss.ts:94-150 | `buildScssVariables` throws exactly when some variable does |
| Scss.AliasPathCache.constructor | src/format-scss.ts:78 | the path cache starts empty and consistent with the variables |
| Scss.AliasPathCache.VarPathById | src/format-scss.ts:79-85 | the path returned is the pathified name of the target (or its id when missing), and it is cached under the id |
| Scss.EmitVariable | src/format-scss.ts:118-145 | the mode loop gives the lines the mode fold specifies, and keeps both caches consistent; with `preserveAliases` on any graph |
| Scss.BuildScssVariables | src/format-scss.ts:94-150 | the builder returns the file the functional model specifies, or throws in exactly its fault cases; under the default `preserveAliases` on any graph, otherwise on graphs without alias cycles |
| Tables.WritesKeys | src/styles.ts:30 | after `out[key] = value` writes, a key is present exactly when some write used it |
| Tables.WritesValue | src/styles.ts:54 | the value under a key is the one of the last write to it |
| Styles.WeightFromStyle | src/styles.ts:35-47 | the weight ladder as written always gives one of 100 to 700 or 900; 800 is never returned; the compiled copy at src/styles.js:34-55 is the same; the entry file's copy at code.ts:227-239 has the same gap |
| Styles.ExtraBoldShadowed | src/styles.ts:43-44 | every "extrabold"/"ultrabold" style that reaches the bold test gets 700, because "bold" occurs inside it |
| Styles.ExtraBoldExample | src/styles.ts:43-44 | "ExtraBold" gets 700 as written and 800 with the corrected ladder |
| Styles.Weight | src/styles.ts:35-47 | the corrected ladder gives one of 100 to 900 |
| Styles.WeightCorrects | src/styles.ts:43-44 | the corrected ladder gives 800 to extra-bold styles and agrees with the written one on every other style |
| Styles.WeightCaseInsensitive | src/styles.ts:36 | the weight does not depend on the case of the style name |
| Styles.ShadowOf | src/styles.ts:19-27 | a shadow is inset exactly for an inner shadow; its colour has 9 characters; missing offsets, blur and spread are 0 |
| Styles.ShadowsOfConcat | src/styles.ts:17-29 | collecting the shadows of concatenated effect lists concatenates the results |
| Styles.ShadowsOfEmpty | src/styles.ts:18 | a style gives no shadows exactly when none of its effects is a drop or inner shadow |
| Styles.ShadowKeys | src/styles.ts:30 | a shadow token exists exactly for the kebab name of some style with at least one shadow |
| Styles.ShadowLastWins | src/styles.ts:30 | the last style with shadows under a kebab name decides that token |
| Styles.BuildShadows | src/styles.ts:12-33 | the loops build the shadow table the fold specifies; the compiled copy at src/styles.js:9-33 is the same |
| Styles.TypeValueOf | src/styles.ts:53-66 | a type style refers to the shared font family, takes its weight from the ladder as written, and gives line height 1 for AUTO; the compiled type style at src/styles.js:60-72 has the same family, weight and AUTO line height |
| Styles.EditionsAgree | src/styles.js:56-75 | the compiled and typed builders agree except that one writes "<n>px" where the other writes n, and the text reads back as n |
| Styles.PxRoundTrip | src/styles.ts:51 | "<n>px" reads back as n |
| Styles.TypeStylesKeys | src/styles.ts:53-54 | a type style exists exactly for the kebab name of some text style |
| Styles.TypeStylesLastWins | src/styles.ts:54 | the last text style under a kebab name decides that entry |
| Styles.BuildTypeStyles | src/styles.ts:49-69 | the loop builds the type-style table the fold specifies; the compiled loop at src/styles.js:56-75 builds the table its edition specifies |
| Styles.Bind | code.ts:210-214 | a property gives an alias record, naming the property and the bound variable, exactly when it is bound; otherwise its own value |
| Styles.SerializeAliases | code.ts:200-223 | the record holds alias references for exactly the six bindable properties the style binds |
| Styles.SerializeIgnoresOtherBindings | code.ts:200-223 | bindings of any other property leave the record unchanged |
| Styles.TokenPath | code.ts:246-254 | a token path exists exactly when the variable does, and it holds no "/" |
| Styles.DimRef | code.ts:242-244 | `dimRef` wraps the path in braces, keeping it whole |
| Styles.W3CTypeRefs | code.ts:280-306 | each bound dimension whose variable exists becomes a reference to that variable's path, and otherwise keeps its literal; the family is the shared reference exactly when the family is non-empty |
| Styles.W3CTypeAgreesWithCompiled | code.ts:293-306 | for an unbound style the entry file's typography value equals the compiled `buildTypeStyles` one |
| Styles.W3CTypographyKeys | code.ts:308 | a typography entry exists exactly for the name of some text style |
| Styles.W3CTypographyLastWins | code.ts:308 | the last text style with a name decides that entry |
| Styles.BuildW3CTypography | code.ts:259-321 | the loop builds the typography table the fold specifies |
| Bridge.ChunkCount | src/ui-bridge.ts:26 | `Math.ceil(length / size)` chunks cover the text and not one more; zero exactly for an empty text |
| Bridge.Chunk | src/ui-bridge.ts:29 | each chunk holds between 1 and `size` characters |
| Bridge.PayloadPrefix | src/ui-bridge.ts:28-30 | the first k chunks concatenate to the first k·size characters (or all of them) |
| Bridge.PayloadRoundTrip | src/ui-bridge.ts:25-32 | concatenating the chunks in index order gives back the JSON text |
| Bridge.ExportShape | src/ui-bridge.ts:25-32 | an export is a begin message announcing its chunk count, that many chunks indexed from 0, then an end message |
| Bridge.UiBridge.constructor | src/ui-bridge.ts:1-2 | the bridge starts not ready, with an empty outbox |
| Bridge.UiBridge.Send | src/ui-bridge.ts:20-23 | a message is posted at once when the UI is ready, queued otherwise; what was sent is always what was posted followed by the outbox; the compiled copy at src/ui-bridge.js:17-22 is the same |
| Bridge.UiBridge.Receive | src/ui-bridge.ts:8-18 | UI_READY posts the outbox in order, empties it, and does not call the handler; any other message goes to the handler; the compiled copy at src/ui-bridge.js:6-16 is the same |
| Bridge.UiBridge.PostJsonInChunks | src/ui-bridge.ts:25-32 | the export's messages are sent in order through `send`: posted when ready, queued behind the outbox otherwise; the compiled copy at src/ui-bridge.js:23-30 is the same |
| Shell.Clamp | code.ts:22-23 | `Math.max(lo, Math.min(hi, x))` lies in [lo, hi], is `x` inside the range, and the nearer bound outside it |
| Shell.RestoredSize | code.ts:7-11 | with nothing saved, the window gets the default 400 × 560 |
| Shell.ResizeRestores | code.ts:21-26 | a size saved by RESIZE lies in the allowed ranges and is restored unchanged |
| Shell.PluginShell.constructor | code.ts:1-4 | the window opens at the default size, not ready, with an empty outbox |
| Shell.PluginShell.RestoreSize | code.ts:7-11 | the saved width and height are applied, each falling back to its default |
| Shell.PluginShell.Send | code.ts:13-15 | a message is posted at once when the UI is ready, queued otherwise |
| Shell.PluginShell.OnMessage | code.ts:17-29 | UI_READY flushes the outbox in order; RESIZE applies and saves the clamped size; CLOSE closes the plugin; other messages change nothing |
| Shell.PluginShell.PostJsonInChunks | code.ts:96-112 | the export's messages, with 1 MB chunks, are posted directly, even before the UI is ready; the outbox is untouched |

## Left out

- **Host, I/O and clocks.**
  - Figma host calls (`getLocalVariablesAsync`, `getLocalStyles`, `getVariableByIdAsync`,
    `clientStorage`, `showUI`, `notify`) become values passed in, or fields.
  - `async`/`await` ordering is not modelled.
  - `JSON.stringify` is not modelled; exports are taken as text.
- **Numbers.**
  - Numbers are integers. Floating point, `NaN`, `Infinity` and `Math.round` are not modelled.
  - Colour channels are given as bytes 0–255, not as the 0–1 floats that `Math.round(n * 255)`
    converts, and the alpha test `a < 1` is a flag.
- **Object keys.** JavaScript object key order is not modelled:
  - `tokensByMode` keeps its mode names in a list;
  - other objects are maps.
- **Text.** Whitespace and case are ASCII only: `IsSpace` is space, tab, newline, vertical
  tab, form feed and carriage return, and `Lower` lowers A–Z. JavaScript's `trim`, `\s` and
  `toLowerCase` also cover the other Unicode spaces and letters. A string's characters stand
  for UTF-16 code units, which is how `length` and `slice` count them in the chunked exports.
- **Cache lifetime.** The `aliasCache` key `id + "::" + modeId` is a pair. A cache lives for
  one build, not across builds.
- **Colour and mode helpers.**
  - Coercion.ToHex, Coercion.HexOf: throwing on `null` is modelled as `Fault`. The `TypeError`'s
    message is not.
- **Contracts that give a shape, with the value pinned by lemmas.**
  - CollapseSpace: its own contract gives only the shape; that each whitespace run becomes one
    "-" is Text.CollapseSpaceRun and Text.CollapseSpaceSep.
  - KeepTrimmed: its own contract gives only the shape; which segments are kept, and their
    order, is Naming.KeepTrimmedOne and Naming.KeepTrimmedConcat.
  - Pathify: its own contract gives only the shape; the value is Naming.PathifyOfParts.
  - Kebab: its own contract gives only the shape; the value is Naming.KebabWords.
  - JoinRest: the value for parts with whitespace is Classify.JoinRestCollapses.
  - NameFor: its own contract gives the prefix and no whitespace; the value is
    Classify.NameForParts.
  - GroupFromPath: its own contract excludes only semantic colours; the groups are
    Classify.GroupFromPathAgrees and Classify.GroupFromPathDiffers.
- **Older builder.**
  - W3CLegacy.BuildLegacyW3C keeps each `{ value, unit: "px" }` dimension as its number.
  - W3CLegacy.BuildLegacyW3C takes its per-mode table as an input.
- **Style builders.**
  - `serializeTextStyle`'s `id` and `fontName` fields are not modelled. They are copied from
    the host object unchanged.
  - `serializePaint`, `serializePaintStyle`, `getVariableMetaById` and the grid-style dump are
    not modelled. They copy host objects into the export without rules of their own.
  - buildW3CTypography's unused `baseModeName` parameter is not modelled.
- **Chunked export.**
  - Bridge.UiBridge.PostJsonInChunks requires a positive chunk size. The source's default is
    1 MB, and a zero or negative size would make `Math.ceil` give `Infinity` or a negative
    count.
  - Shell.PluginShell.PostJsonInChunks posts straight to the UI as the entry file does. The
    entry file's `send` is never used for exports.
- **Entry-file shell.**
  - Shell.PluginShell.OnMessage: RESIZE takes integer sizes, so `Math.round` is the identity.
    CLOSE is the bare string message `'CLOSE'`.
  - `src/main.ts` and the rest of `run` (collecting the data, `figma.notify`, the plugin menu)
    are not part of this model.

## Findings

| source | as written | input that shows it | evidently intended | confidence | as-written member | corrected member |
|---|---|---|---|---|---|---|
| src/format-scss.ts:72 | a STRING value is quoted after escaping only `"`, so a backslash in the value is copied unescaped; `Scss.FormatValue` and the SCSS builder keep this | the string `x\` becomes `"x\";`, where `\"` escapes the closing quote and the literal never ends | escape backslashes as well as double quotes, so the literal reads back as the value | high (not executed) | Scss.RenderUnterminatedString | Scss.QuoteRoundTrip |
| src/styles.ts:43-44 | the "bold" test comes before the "extrabold"/"ultrabold" test, and "bold" occurs inside both, so 800 is unreachable (also src/styles.js:48-51 and code.ts:235-236); the type-style builders keep this | the style "ExtraBold" gives 700 | test "extrabold"/"ultrabold" before "bold", giving 800 | high (not executed) | Styles.ExtraBoldExample | Styles.WeightCorrects |
