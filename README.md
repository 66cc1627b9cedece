# KNX group addresses to Home Assistant YAML: a verified model of `convertToYaml`

`convertToYaml` (convert.ts) turns the rows of a KNX group-address export
(a description and an address for each row) into a smaller set of device
records, sorted into four lists: `light`, `fan`, `switch` and `climate`. It
works in five steps. Steps 1-3 happen in the first loop (convert.ts:55-102),
step 4 is the second loop (convert.ts:104-122) and step 5 is the `map` calls
(convert.ts:124-157):

1. An **ignore filter** drops rows whose description ends in `dim` or `-`.
2. **Base-key derivation** cuts a description down to a device name. The
   regular expression `/ sch.*$| RMsch.*$| wert.*$| RMwert.*$/` is removed,
   then `/ - .*$/`, and the result is trimmed.
3. **Accumulation** creates one `YamlEntry` per base key, in first-seen
   order. It assigns at most one address field per row, chosen by a
   priority chain (climate phrases under main group `5/`, then `sch\b`,
   then `wert\b`). A later row overwrites an earlier one.
4. A **completeness filter and category chain** drop every entry without an
   `address` or `temperature_address`. Each remaining entry goes into at
   most one of the four lists, chosen by its name.
5. **Projection** keeps the device fields for `light`, `fan` and `switch`,
   and the nine climate fields for `climate`.

The project has these modules:
- **`Strings`** models the JavaScript string operations the code uses:
  `endsWith`, `startsWith`, `trim` (ECMAScript white space and line
  terminators), the case-insensitive tests `/x/i.test`, the word-end test
  `/w\b/i`, and the leftmost-alternative `replace` with `.*$`, where `.`
  does not cross a line terminator.
- **`Entries`** holds the records.
- **`Rules`** holds the per-row and per-entry rules of convert.ts:57-121.
- **`Conversion`** holds the whole conversion, in three forms:
  - a fold `Accumulate` over a value `Groups`: an insertion-ordered key
    list plus a map;
  - a reference definition `Merged`/`PlacedKeys`, where each record is
    "the last write to each field, for each first-seen key";
  - the two loops as methods `Group` and `Categorize`, proved equal to the
    fold, with `ConvertToYaml` on top.
- **`Scenarios`** proves the document that concrete rows produce.

The rows are an input `seq<Row>` holding only `description` and `address`,
the only columns the code reads. The result is the `KnxObject` that would be
handed to `yaml.stringify`. An absent field is `None`. A blank CSV cell is
the empty string, which JavaScript treats as falsy, and the completeness
filter follows that rule.

Three properties of the base-key derivation (convert.ts:63-65) are easy to
misread:
- **Leftmost cut.** The first `replace` cuts at the leftmost position where
  any of the four alternatives matches. So
  `"Bad Betriebsart Frostschutz schalten"` loses ` schalten`
  (`Scenarios.FrostKeyExample`). `"Heizung Temperaturwert empfangen"` keeps
  its whole description, because ` Temperaturwert` is not a role suffix and
  `wert` there has no space before it (`Scenarios.SensorKey`).
- **Word end only.** `sch\b` and `wert\b` (convert.ts:89, 95) check only the
  end of the word, not its start, so `RMsch` and `Tisch` both match.
- **Idempotence is proved only for one-line descriptions.** The base key is
  proved idempotent for descriptions without a line terminator. With one it
  can fail: `.` cannot cross `\n`, and `trim` removes the `\n` only after the
  replacement has been tried. So `"Flur sch\n"` gives the key `"Flur sch"`,
  whose own key is `"Flur"` (`Scenarios.BaseKeyNotIdempotentAcrossLineBreak`).
  The positive results `Rules.BaseKeyIdempotent` and
  `Rules.BaseKeyHasNoSuffix` therefore require `NoLineTerminator`.

## Model

| member | source | states |
|---|---|---|
| Entries.YamlEntry.Set | convert.ts:15-30 | assigning one optional field sets it to the address and leaves the name and the twelve other fields as they were |
| Entries.NewEntry | convert.ts:67-69 | `{ name: key }` has the key as name and every address field absent |
| Entries.ToDevice | convert.ts:125-131 | a light/fan/switch record carries the entry's name and its four device fields unchanged |
| Entries.ToClimate | convert.ts:146-157 | a climate record carries the entry's name and its nine climate fields unchanged |
| Rules.IsIgnored | convert.ts:57 | the ignore filter; its meaning is stated by Rules.IgnoredIff |
| Rules.IgnoredIff | convert.ts:57 | a row is ignored exactly when its description ends in `dim` or `-` (the `---` test adds nothing) |
| Rules.BaseKey | convert.ts:62-65 | the base key is no longer than the description; its properties are stated by Rules.BaseKeyIsTrimmed, Rules.BaseKeyHasNoSuffix and Rules.BaseKeyIdempotent |
| Rules.BaseKeyIsTrimmed | convert.ts:62-65 | a base key has no leading or trailing white space |
| Rules.BaseKeyHasNoSuffix | convert.ts:62-65 | a base key of a one-line description contains none of ` sch`, ` RMsch`, ` wert`, ` RMwert`, ` - ` |
| Rules.BaseKeyIdempotent | convert.ts:62-65 | deriving the base key of a one-line description's base key gives the same key |
| Strings.ReplaceTail | convert.ts:63-64 | the replacement is no longer than its input; which prefix it keeps is stated by Strings.ReplaceTailSpec |
| Strings.ReplaceTailSpec | convert.ts:63-64 | the replacement keeps exactly the prefix before the leftmost match, and all of the string when nothing matches |
| Strings.Trim | convert.ts:65 | `trim` is no longer than its input; its result is characterised by Strings.TrimSpec |
| Strings.TrimSpec | convert.ts:65 | `trim` keeps the part between a maximal white-space prefix and a maximal white-space suffix, and that part is trimmed |
| Strings.HasWordEnding | convert.ts:89 | `s.match(/w\b/i)`; its meaning is stated by Strings.HasWordEndingIff |
| Strings.HasWordEndingIff | convert.ts:95 | `w\b` matches exactly when w occurs, ignoring ASCII case, at a position followed by the end of the input or a non-word character |
| Strings.ContainsIgnoringCase | convert.ts:110-116 | `/p/i.test(s)`; its meaning is stated by Strings.ContainsIgnoringCaseIff |
| Strings.ContainsIgnoringCaseIff | convert.ts:110-116 | `/p/i.test(s)` holds exactly when p occurs in s, ignoring ASCII case |
| Rules.FieldFor | convert.ts:71-101 | a row never sets `operation_mode_address`; the field it sets is a climate field exactly when its address starts with `5/` |
| Rules.SwitchAndValueRoles | convert.ts:89-101 | outside `5/`: `state_address` iff the description ends with `RMsch`, `address` iff `sch\b` matches and it does not, brightness fields only when `sch\b` does not match, no field iff neither `sch\b` nor `wert\b` matches |
| Rules.CategoryOf | convert.ts:110-121 | a light name with `steckdose` gets no category, otherwise a light name means `light`; `switch` needs `steckdose` and no light name; `climate` needs a temperature address starting with `5/`; `fan` exactly for a `luefter` name without a light word; `switch` and `climate` never for a `luefter` name; no category but `light` goes to a light name |
| Rules.HasChannel | convert.ts:105 | the completeness test (a truthy `address` or `temperature_address`); its role is stated by Rules.Placement |
| Rules.Placement | convert.ts:104-121 | an entry is placed only if its `address` or `temperature_address` is truthy, and then by its category |
| Conversion.FirstOccurrences | convert.ts:67-69 | the first-seen order holds exactly the keys seen, ordered by their first occurrence |
| Conversion.KeysIff | convert.ts:55-69 | a key is created exactly when some row that is not ignored derives it |
| Conversion.StepEntry | convert.ts:55-101 | after one row, each entry is its earlier self (or a fresh one) with at most that row's field overwritten |
| Conversion.AccumulateOrder | convert.ts:53-69 | the accumulator's key order is the first-seen order of the base keys of the rows that are not ignored |
| Conversion.Step | convert.ts:55-101 | one iteration of the first loop keeps the key order and the map in step; what it does to each entry is stated by Conversion.StepEntry |
| Conversion.Accumulate | convert.ts:55-102 | the first loop as a fold, with key order and map in step; its result is stated by Conversion.AccumulateOrder and Conversion.AccumulateIsMerged |
| Conversion.LastWriteIsLast | convert.ts:71-101 | a field is absent iff no row wrote it; otherwise its value is the address of a row that wrote it and no later row did |
| Conversion.LastWriteSnoc | convert.ts:71-101 | appending a row changes a field's final value exactly when that row writes that field |
| Conversion.Merged | convert.ts:67-101 | the reference record for a key is named by the key, and each field is that field's last write |
| Conversion.NoOperationModeAddress | convert.ts:71-101 | no record ever gets `operation_mode_address` |
| Conversion.AccumulateIsMerged | convert.ts:55-102 | every accumulated entry equals the reference record for its key |
| Conversion.IgnoredRowIsInert | convert.ts:57-59 | inserting an ignored row anywhere leaves the key order and every entry unchanged |
| Conversion.Group | convert.ts:55-102 | the first loop, updating an ordered key list and a map in place, ends in the accumulated state |
| Conversion.Values | convert.ts:104 | `Object.values` lists the entries in key-insertion order |
| Conversion.ValuesAreMerged | convert.ts:53-104 | the entries handed to the second loop are the reference records of the first-seen keys, in order |
| Conversion.Selected | convert.ts:104-122 | a list holds only entries of the input that are placed in its category |
| Conversion.SelectedIsSubsequence | convert.ts:104-122 | each list is a subsequence of the entries in first-creation order |
| Conversion.SelectedIsComplete | convert.ts:104-122 | every entry placed in a category is in that category's list |
| Conversion.Categorize | convert.ts:104-122 | the second loop's four pushes build exactly the four selected lists |
| Conversion.KeysPlacedFirstSeen | convert.ts:104-122 | filtering a first-seen-ordered key list keeps that order |
| Conversion.SelectedMergedAll | convert.ts:104-122 | selecting among the reference records equals building the records of the placed keys |
| Conversion.PlacedKeysSpec | convert.ts:104-122 | a category holds exactly the created keys placed there, in first-seen order, each once |
| Conversion.Devices | convert.ts:125-145 | `map` keeps the length and projects each entry to its device record |
| Conversion.Climates | convert.ts:146-157 | `map` keeps the length and projects each entry to its climate record |
| Conversion.Convert | convert.ts:47-158 | the whole conversion; its result is stated by Conversion.ConvertIsReference, Conversion.OutputLists, Conversion.OutputRecords, Conversion.ClimateRecords and Conversion.IgnoredRowLeavesNoTrace |
| Conversion.ConvertIsReference | convert.ts:47-158 | each output list is the projection of the reference records of the keys placed in that category |
| Conversion.ProjectedNames | convert.ts:124-157 | the projected records are named by the keys they were built from, in order |
| Conversion.OutputNames | convert.ts:104-157 | the names in an output list are the placed keys of its category |
| Conversion.OutputLists | convert.ts:104-122 | a name is in a list iff its record has a channel and that category; first-seen order, no duplicates, no name in two lists |
| Conversion.LightSocketIsDropped | convert.ts:110-113 | a light name that also contains `steckdose` appears in no list, `switch` included |
| Conversion.ProjectedRecords | convert.ts:124-157 | each projected record is the projection of the reference record of its own name |
| Conversion.OutputRecords | convert.ts:124-157 | every output record carries exactly its category's fields of the merged record of its name |
| Conversion.PlacedClimateRecords | convert.ts:118-120 | every record placed as climate has a temperature address starting with `5/` |
| Conversion.NoOperationModeRecords | convert.ts:152 | no climate record carries `operation_mode_address` |
| Conversion.ClimateRecords | convert.ts:118-157 | every climate record has a temperature address starting with `5/` and no `operation_mode_address` |
| Conversion.IgnoredRowLeavesNoTrace | convert.ts:57-59 | inserting an ignored row anywhere leaves the output document unchanged |
| Conversion.ConvertToYaml | convert.ts:47-158 | both loops and the projections compute the reference document |
| Scenarios.WohnzimmerExample | convert.ts:47-158 | `Wohnzimmer licht sch` at 1/1/1 and `Wohnzimmer licht RMsch` at 1/1/2 give one light `Wohnzimmer licht` with address 1/1/1 and state address 1/1/2 |
| Scenarios.SocketExample | convert.ts:116-117 | `Kueche Steckdose sch` gives one switch record |
| Scenarios.LightSocketExample | convert.ts:110-113 | `Buero licht Steckdose sch` gives an empty document |
| Scenarios.SensorKey | convert.ts:63 | `Heizung Temperaturwert empfangen` keeps its whole description as key |
| Scenarios.SensorExample | convert.ts:71-73 | a temperature row under `5/` gives one climate record with only the temperature address |
| Scenarios.FrostKeyExample | convert.ts:63 | `Bad Betriebsart Frostschutz schalten` loses ` schalten` |
| Scenarios.DimmingExample | convert.ts:57-59 | a row ending in `dim` gives an empty document |
| Scenarios.BaseKeyNotIdempotentAcrossLineBreak | convert.ts:62-65 | the base key of `Flur sch\n` is `Flur sch`, whose base key is `Flur` |

## Left out

- `parseCSV` (convert.ts:32-45) is stream I/O through a CSV library. The rows are an input sequence in which both columns are always present. In the source a missing `description` throws at convert.ts:57, and a missing `address` throws at convert.ts:71 (`entry.address.startsWith`) for any row that is not ignored; neither can occur in the model.
- `yaml.stringify` (convert.ts:160) is a foreign serialiser. The model stops at the projected lists; whether undefined fields are omitted is up to that library.
- `main` (convert.ts:163-174) is file I/O and console output.
- `Object.values` enumerates integer-like keys (such as `"12"`) before the others. The model uses plain insertion order.
- Keys that are names of `Object.prototype` properties (`__proto__`, `toString`, ...) behave differently in a plain object. The model treats every key as an ordinary key.
- `trim` is modelled on the ECMAScript white-space and line-terminator code points. `\b` and `/i` are modelled as ASCII word characters and ASCII case folding, as JavaScript does without the `u` flag. Characters are Dafny `char`s, with no UTF-16 surrogate pairs.
- `Group` and `Categorize` update local sequences and a map. The model has no JavaScript object identity, so it does not capture the aliasing between `groupedEntries` and the four lists (both hold the same objects).
- Rules.BaseKeyHasNoSuffix: requires a description without line terminators, because the code's `.*$` does not cross them (see `Scenarios.BaseKeyNotIdempotentAcrossLineBreak`).
- Rules.BaseKeyIdempotent: requires a description without line terminators, for the same reason.
