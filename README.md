# Localized string catalog (PresentationStrings)

A Dafny model of the string catalog of the Telegram iOS client
(`TelegramUI/PresentationStrings.swift`). The catalog maps numeric accessor ids
to localized text. It resolves each key through three lookup tiers: the
primary language, then an optional parent language, then a process-wide
English fallback. It also finds the `%@`, `%d`, `%f` and `%N$@`-style
placeholders in a template, substitutes arguments while recording where each
argument landed, and decodes the binary key-mapping file that ties accessor
ids to keys.

Text is a sequence of UTF-16 code units (`Utf16.Text`), because every length,
offset and `NSRange` in the original counts code units. Bytes of the mapping
file are integers 0..255.

Modules, one per part of the source file:

- `utf16.dfy` (`Utf16`): code units, `Option`/`Result`, ASCII digits and case
  folding, truncation at a character.
- `resolver.dfy` (`Resolver`): plural forms and their key suffixes, the
  component record, `GetValue` and `GetValueWithForm`, and a first-hit search
  over a list of tiers as an independent reference definition.
- `placeholders.dfy` (`Placeholders`): the regular expression
  `%(((\d+)\$)?)([@df])` as a leftmost, non-overlapping scanner (`MatchAt`,
  `Scan`), a syntactic definition of a token (`IsToken`), and
  `ExtractArgumentRanges`.
- `formatting.dfy` (`Formatting`): `FormatWithArgumentRanges` as a loop,
  proved equal to the recursive specification `Rendered`/`Landed`, and the
  properties of that specification.
- `mapping.dfy` (`Mapping`): the `DataReader` class with its mutable `ptr`,
  `LoadMapping` as a loop over it, proved equal to the functional parser
  `ParseMapping`, and an encoder with a read-after-write round trip.
- `catalog.dfy` (`Catalog`): the language fingerprint `lc`, the three tables
  `_s`, `_r` and `_ps` as specification functions, the loops of `init`, and the
  `PresentationStrings` class with one accessor of each kind.
- `scenarios.dfy` (`Scenarios`): two templates worked through extraction and
  substitution.

Inputs that the original reads from globals or files are parameters here:

- the English fallback dictionary (`fallbackDict`);
- the bytes of the mapping file and the parsed `keyMapping`;
- UTF-8 decoding of keys, as `decode: seq<Byte> -> Option<Text>`;
- the plural-rule selector `presentationStringsPluralizationForm`, as
  `pluralizationForm: (nat, int) -> PluralizationForm`.

Where the original stops the program (a failed `assert` or force-unwrap in
`DataReader`, a negative count or length, bytes that are not UTF-8), the model
returns an `Err` value.

## Model

| member | source | states |
|---|---|---|
| Resolver.CanonicalSuffix | TelegramUI/PresentationStrings.swift:16-33 | every plural suffix starts with `_` and has at least two units |
| Resolver.SuffixesDistinct | TelegramUI/PresentationStrings.swift:17-32 | the six suffixes `_0`, `_1`, `_2`, `_3_10`, `_many`, `_any` are pairwise different |
| Resolver.SuffixedKeysDistinct | TelegramUI/PresentationStrings.swift:61-62 | one key prefix gives six different lookup keys, one per form |
| Resolver.FormOfRawValue | TelegramUI/PresentationStrings.swift:3502 | `PluralizationForm(rawValue:)` for 0..5 gives the form whose raw value is that number |
| Resolver.GetValue | TelegramUI/PresentationStrings.swift:49-59 | the primary dictionary's value if it has the key; else the secondary's if there is one and it has the key; else the fallback's; else the key itself |
| Resolver.GetValueWithForm | TelegramUI/PresentationStrings.swift:61-71 | when some tier has `key + suffix`, the value is what `GetValue` gives for the suffixed key; when none has it, the value is the bare unsuffixed key |
| Resolver.GetValueIsFirstHit | TelegramUI/PresentationStrings.swift:49-59 | `GetValue` equals the first-match search over the tier list (primary, secondary when present, fallback) with the key as default |
| Resolver.FirstHitIsEarliest | TelegramUI/PresentationStrings.swift:49-58 | in the first-match search, the earliest tier that holds the key gives the value, and no later tier can shadow it |
| Resolver.FirstHitMiss | TelegramUI/PresentationStrings.swift:57-58 | when no tier holds the key, the first-match search returns the default |
| Utf16.FirstIndexOf | TelegramUI/PresentationStrings.swift:3465 | `range(of:)`: the offset returned holds the character and no earlier offset does; none is returned only when the character does not occur |
| Utf16.TruncatedAt | TelegramUI/PresentationStrings.swift:3465-3472 | the result is a prefix of the code, contains no cut character, and stops exactly at the first one when there is one |
| Utf16.LowercasedAscii | TelegramUI/PresentationStrings.swift:3473 | same length; `A`..`Z` become `a`..`z`, every other unit is kept |
| Placeholders.DigitRun | TelegramUI/PresentationStrings.swift:73 | the greedy `\d+`: every unit of the run is an ASCII digit and the unit after it is not |
| Placeholders.MatchAt | TelegramUI/PresentationStrings.swift:73 | a match found at `p` starts at `p`, is at least two units long and lies inside the text |
| Placeholders.MatchAtIsToken | TelegramUI/PresentationStrings.swift:73 | what the matcher finds is a placeholder token (`%`, an optional `N$`, then `@`, `d` or `f`), and the `N` it reports is that token's number |
| Placeholders.MatchAtFindsToken | TelegramUI/PresentationStrings.swift:73 | every token starting at `p` is found by the matcher, whole, with its number |
| Placeholders.DigitRunStops | TelegramUI/PresentationStrings.swift:73 | a digit run followed by a non-digit has exactly that length |
| Placeholders.Scan | TelegramUI/PresentationStrings.swift:76 | every match lies in the text and is what the matcher finds there; matches do not overlap and come in text order |
| Placeholders.ScanMissesNothing | TelegramUI/PresentationStrings.swift:76 | leftmost matching misses nothing: every offset where a token starts lies inside some match |
| Placeholders.ArgumentRangesPlaced | TelegramUI/PresentationStrings.swift:76-87 | the extracted ranges lie inside the template, do not overlap, and are strictly ascending by location |
| Placeholders.ArgumentRangeIsToken | TelegramUI/PresentationStrings.swift:78-86 | the k-th entry covers a token; its index is `N - 1` for `%N$` and otherwise k, its ordinal among all matches, positional ones included |
| Placeholders.ArgumentRangesComplete | TelegramUI/PresentationStrings.swift:76-86 | every token of the template lies inside one of the extracted ranges |
| Placeholders.SortedPermutationIsIdentity | TelegramUI/PresentationStrings.swift:87 | a list sorted by location that is a permutation of a strictly ascending list is that list, so the final sort changes nothing |
| Placeholders.ExtractArgumentRanges | TelegramUI/PresentationStrings.swift:74-89 | the loop returns one entry per match, with the ordinal-or-`N - 1` index and the match's range |
| Formatting.FormatWithArgumentRanges | TelegramUI/PresentationStrings.swift:91-111 | the loop builds the text and the ranges of the recursive specification `Rendered`/`Landed` |
| Formatting.FormatPlacesArguments | TelegramUI/PresentationStrings.swift:99-106 | one result range per input range, same index, in order and apart inside the output; each covers exactly `arguments[index]` and is as long as it |
| Formatting.FormatLength | TelegramUI/PresentationStrings.swift:96-110 | output length = template length - sum of placeholder lengths + sum of the substituted arguments' lengths |
| Formatting.FormatKeepsLiterals | TelegramUI/PresentationStrings.swift:96-110 | cutting the landed arguments out of the output leaves exactly the template with its placeholders cut out, trailing text included |
| Formatting.FormatWithoutRanges | TelegramUI/PresentationStrings.swift:96-110 | with no ranges the template comes back unchanged and no ranges are recorded |
| Formatting.ExtractThenFormat | TelegramUI/PresentationStrings.swift:74-111 | formatting a template with its own extracted ranges: ranges in bounds and apart, the length law, landed ranges apart, literal text kept |
| Formatting.LandedAdjacent | TelegramUI/PresentationStrings.swift:103-104 | each landed range starts at or after the output built so far and ends no later than the next one starts |
| Formatting.RenderedLength | TelegramUI/PresentationStrings.swift:96-110 | from any placeholder on, the rest of the output has the length law of `FormatLength` |
| Mapping.DecodeInt32 | TelegramUI/PresentationStrings.swift:121-130 | four bytes give a signed 32-bit value |
| Mapping.DecodeEncodeInt32 | TelegramUI/PresentationStrings.swift:125 | a 32-bit value written little-endian reads back as itself |
| Mapping.EncodeDecodeInt32 | TelegramUI/PresentationStrings.swift:125 | any four bytes read as a value and written back are the same four bytes |
| Mapping.Int32At | TelegramUI/PresentationStrings.swift:121-130 | `readInt32` succeeds exactly when four bytes remain, and the offset moves on by exactly four |
| Mapping.StringAt | TelegramUI/PresentationStrings.swift:132-138 | `readString` succeeds only with a non-negative length whose payload is in bounds and decodes; the offset moves on by four plus the length |
| Mapping.DataReader.constructor | TelegramUI/PresentationStrings.swift:113-119 | a new reader is over the given bytes with `ptr` at 0 |
| Mapping.DataReader.ReadInt32 | TelegramUI/PresentationStrings.swift:121-130 | the value and the new `ptr` are those of `Int32At` at the old `ptr`; a failed read leaves `ptr` alone |
| Mapping.DataReader.ReadString | TelegramUI/PresentationStrings.swift:132-138 | the value and the new `ptr` are those of `StringAt` at the old `ptr` |
| Mapping.LoadMapping | TelegramUI/PresentationStrings.swift:149-172 | the reader loop returns exactly what the functional parser `ParseMapping` gives for the same bytes |
| Mapping.ParseMappingShape | TelegramUI/PresentationStrings.swift:151-172 | after a successful read: as many string ids as the first count says, as many plural ids as the second count says, ids and keys of equal length in both lists, argument ids among the string ids |
| Mapping.StringEntriesCount | TelegramUI/PresentationStrings.swift:156-164 | reading `n` string records appends exactly `n` records |
| Mapping.PluralEntriesCount | TelegramUI/PresentationStrings.swift:166-170 | reading `n` plural records appends exactly `n` records |
| Mapping.ArgIdsAreFlagged | TelegramUI/PresentationStrings.swift:157-163 | `sArgIdList` is the in-order subsequence of the ids whose flag is non-zero: each entry is a flagged record's id, positions ascend, and no flagged record is missed |
| Mapping.ArgIdsWithinIds | TelegramUI/PresentationStrings.swift:157-163 | every argument id is one of the string ids |
| Mapping.MappingRoundTrip | TelegramUI/PresentationStrings.swift:151-172 | reading the file written for some records gives back their ids, decoded keys and argument flags |
| Catalog.RawCode | TelegramUI/PresentationStrings.swift:3463-3473 | the result is the lowercased prefix of the code that ends just before its first `_` or `-` (or is the whole code when it has neither); it holds neither character |
| Catalog.Fingerprint | TelegramUI/PresentationStrings.swift:3474-3478 | the loop computes the fold `(lc << 8) + c` (shift modulo 2^32) over the code units, and the result fits 32 bits |
| Catalog.ByteCodesFit | TelegramUI/PresentationStrings.swift:3476 | a code of units below 256 never makes the `UInt32` addition overflow |
| Catalog.FoldPacks | TelegramUI/PresentationStrings.swift:3474-3477 | up to four non-zero units below 256 are packed big-endian, without wrapping |
| Catalog.FingerprintInjective | TelegramUI/PresentationStrings.swift:3474-3477 | two codes of at most four non-zero units below 256 with the same fingerprint are the same code |
| Catalog.StringTable | TelegramUI/PresentationStrings.swift:3488-3490 | `_s` has exactly the ids of the records read so far as keys |
| Catalog.StringTableLookup | TelegramUI/PresentationStrings.swift:3488-3490 | an id's entry is the resolved key of the last record with that id |
| Catalog.StringTableHas | TelegramUI/PresentationStrings.swift:3488-3490 | every id in `sIdList` has an entry in `_s`, the resolved value of a record with that id |
| Catalog.RangeTable | TelegramUI/PresentationStrings.swift:3491-3493 | the keys of `_r` are exactly the ids in `sArgIdList`, each mapped to the ranges extracted from its `_s` string |
| Catalog.SlotParts | TelegramUI/PresentationStrings.swift:3502 | the slot `id * 6 + form` gives back the id as its quotient by six and the form as its remainder |
| Catalog.SlotInjective | TelegramUI/PresentationStrings.swift:3502 | different ids or different forms never share a slot |
| Catalog.FormRoundTrip | TelegramUI/PresentationStrings.swift:3502 | a form's raw value converts back to that form |
| Catalog.PluralRowKeys | TelegramUI/PresentationStrings.swift:3501-3503 | the inner loop adds exactly the slots of the id for the forms filled so far |
| Catalog.PluralTableKeys | TelegramUI/PresentationStrings.swift:3500-3504 | `_ps` holds a slot exactly when its quotient by six is one of the plural ids |
| Catalog.PluralTableLookup | TelegramUI/PresentationStrings.swift:3500-3504 | slot `id * 6 + form` holds that form of the last record with that id |
| Catalog.PluralTableHas | TelegramUI/PresentationStrings.swift:3500-3504 | every plural id has a slot for every form, holding `getValueWithForm` of a record with that id |
| Catalog.ResolveStrings | TelegramUI/PresentationStrings.swift:3488-3490 | the loop builds the table `StringTable` |
| Catalog.ExtractAllRanges | TelegramUI/PresentationStrings.swift:3491-3493 | the loop builds the table `RangeTable` |
| Catalog.ResolveRow | TelegramUI/PresentationStrings.swift:3501-3503 | the inner loop fills the six slots of one plural record |
| Catalog.ResolvePlurals | TelegramUI/PresentationStrings.swift:3500-3504 | the nested loops build the table `PluralTable` |
| Catalog.PresentationStrings.constructor | TelegramUI/PresentationStrings.swift:3457-3506 | `lc` is the fingerprint of the rules code; `baseLanguageCode` is the secondary's language code, else the primary's; `_s`, `_r`, `_ps` are the three tables |
| Catalog.PresentationStrings.PlainString | TelegramUI/PresentationStrings.swift:187 | a plain accessor returns the resolved value of the key of a record with that id |
| Catalog.PresentationStrings.FormattedString | TelegramUI/PresentationStrings.swift:198-200 | a formatting accessor substitutes the arguments into the id's string at its extracted ranges |
| Catalog.PresentationStrings.PluralTemplate | TelegramUI/PresentationStrings.swift:3112-3114 | a plural accessor reads the slot of the form selected for `lc` and the quantity: that form of the plural key |
| Scenarios.OneDigitTokenAt | TelegramUI/PresentationStrings.swift:73 | `%N$@` with a one-digit `N` is matched whole, reporting `N` |
| Scenarios.ReorderedRanges | TelegramUI/PresentationStrings.swift:74-89 | in `%2$@ and %1$@`, the placeholders stand for arguments 1 and 0, at offsets 0 and 9 |
| Scenarios.ReorderedFormat | TelegramUI/PresentationStrings.swift:91-111 | `%2$@ and %1$@` with `A`, `B` gives `B and A`, with `B` at 0 as argument 1 and `A` at 6 as argument 0 |
| Scenarios.RepeatedRanges | TelegramUI/PresentationStrings.swift:74-89 | in `%1$@-%1$@-%1$@`, each occurrence is its own entry for argument 0 |
| Scenarios.RepeatedFormat | TelegramUI/PresentationStrings.swift:91-111 | `%1$@-%1$@-%1$@` with `x` gives `x-x-x`, with three ranges for argument 0 at offsets 0, 2 and 4 |

## Left out

- Loading the English fallback dictionary from the app bundle (lines 3-14) and opening the mapping file (lines 141-147) are file I/O. The dictionary and the file's bytes are parameters, and the lazy globals `fallbackDict` and `keyMapping` are explicit arguments.
- `presentationStringsPluralizationForm`, the per-language plural rules, is not part of this model. The plural accessor takes it as a parameter.
- `String(format:)` in the plural accessors is Foundation printf formatting. Only the slot lookup `_ps[p * 6 + form]` is modelled.
- The regular-expression engine is replaced by a hand-written scanner (`MatchAt`, `Scan`) for `%(((\d+)\$)?)([@df])`. Its digits are the ASCII digits only; the engine's `\d` also matches other Unicode decimal digits.
- `Int(...)!` on an explicit position that does not fit a machine integer would stop the program. Positions are unbounded naturals here.
- UTF-8 decoding of keys is an abstract function `decode`. A key that does not decode is an `Err`, where the original stops the program.
- `memcpy` into an `Int32` is read as little-endian, the byte order of the devices the app runs on.
- The reader's bounds checks are Swift `assert`s, which release builds drop. The model treats them as always on: a read past the end is an `Err`.
- Resolver.GetValue, Resolver.GetValueWithForm and Utf16.TruncatedAt compare keys and language codes code unit by code unit. Swift's `String` equality and hashing (the dictionary lookups) and NSString's non-literal `range(of:)` compare by Unicode canonical equivalence, so a key stored precomposed is found under its decomposed spelling in the original and not here. Keys and codes are ASCII in practice.
- `lowercased` is ASCII case folding here. Unicode case mappings, including those that change the length, are not modelled.
- Catalog.PresentationStrings.constructor: requires that the fingerprint fold never overflows. Swift's `+` on `UInt32` stops the program on overflow, which only a code unit of 256 or more can cause (`ByteCodesFit`).
- Formatting.FormatWithArgumentRanges: requires the ranges to lie inside the template and every index to be below the argument count. Every caller passes ranges extracted from the template, which lie inside it (`ArgumentRangesPlaced`). The original stops on an index out of range (`arguments[index]`) and on most other out-of-bounds ranges (`substring(with:)`); what it does with the remaining out-of-bounds ranges is not modelled.
- Catalog.PresentationStrings.FormattedString: requires every extracted index to be below the argument count, for the same reason.
- The roughly 3,000 generated accessors (lines 187-3455) are one table lookup each. One accessor of each kind is modelled, and the `Float` formatting in `Conversation_Megabytes` is not.
- `TelegramUI/ProxyServerActionSheetController.swift` and `TelegramUI/ThemeColorsGridControllerNode.swift` are user interface, layout and networking code. They are not part of this model.
- Thread safety of the lazy globals is not modelled. The catalog is built once and only read afterwards.
