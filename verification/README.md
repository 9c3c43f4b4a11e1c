# aliou/toolbox core, modelled in Dafny

This project models four pieces of the `aliou/toolbox` monorepo and proves properties about them.

- **The command-line parser** of `utils/cli` (`createParser(config).parse(args)`).
  - The schema is translated into an option table for the `parseArgs` tokenizer.
  - A throw from the tokenizer becomes an error result.
  - The command is split off the positionals.
  - Each declared option is validated and coerced in declaration order: booleans, required checks, `parseInt` for numbers, enum membership, and strings.
  - The tokenizer is a parameter of the model (`CliParser.Tokenizer`). `ArgTokenizer` gives an approximate `parseArgs` for the argument forms the package's tests use, and `CliExamples` restates each of those tests as a lemma.
- **The Homebrew tap generator** (`scripts/update-tap.mjs`). It turns each tool's `package.json` into a formula:
  - a class name from `toPascalCase`
  - the header and the extra `depends_on` lines
  - targets mapped through the platform table and grouped by operating system, in first-appearance order
  - one download block per target
  - the install and test footer

  It writes one file per tool and stops at the first throw.
- **The Nix hash manifest update** (`scripts/update-hashes.mjs`). Targets are mapped to Nix systems, and SRI hashes are built from the binaries that exist. Each usable tool's manifest entry is replaced. Every other entry is kept as it was.
- **The Voice Memos query shaping** (`tools/voice-memos/src/database.ts`). The model covers:
  - the missing-database error
  - the `m:ss` duration
  - the Core Data epoch offset
  - the `Untitled` default
  - the path join
  - the order-preserving filter on files that exist

File system contents are parameters of the model:
- The tool directory listing and parsed `package.json` files are `HomebrewTap.ToolDir` and `NixHashes.ToolsEntry` values.
- File digests are maps from path to digest. A file is present exactly when its path is a key.
- The set of existing memo files is a `set<string>`.
- Database rows are `VoiceMemos.MemoRow` values.

Integers are unbounded. `Number.parseInt` is modelled exactly on its decimal path (`JsParseInt.ParseInt`), with `None` standing for `NaN`.

A number option is not checked to be a valid base-10 integer as a whole. The code calls `Number.parseInt(raw, 10)`, which accepts any leading numeral, so `"80x"` gives `80`. The model follows the code: see `JsParseInt.ParseIntAccepts` and `CliParser.NumberOptionResolves`.

## Model

| member | source | states |
|---|---|---|
| CliParser.SplitCommand | utils/cli/src/index.ts:126-134 | a leading positional that does not start with `-` is the command and is removed from the positionals; otherwise the default command is used and the positionals are kept, unless they start with a truthy default |
| CliParser.RejoinRestoresPositionals | tools/transcribe-audio/index.ts:73-76 | rebuilding the file list as the transcription tool does (the command back in front of the remaining positionals unless it is absent, empty or the default) gives exactly the original positionals, except when the first one is a non-empty copy of the default command, which is dropped |
| CliParser.ResolveAll | utils/cli/src/index.ts:137-190 | the validation loop succeeds exactly when every option resolves, giving one value per declared name; otherwise it returns the error of the first failing option |
| CliParser.TokenizerFailureIsReturned | utils/cli/src/index.ts:110-121 | a tokenizer throw becomes a failure carrying the error's message, or `Unknown parsing error` when something other than an Error was thrown |
| CliParser.SuccessIffEveryOptionResolves | utils/cli/src/index.ts:139-197 | parse succeeds if and only if every declared option resolves |
| CliParser.SuccessShape | utils/cli/src/index.ts:192-197 | on success the values' keys are exactly the declared names, and the command and positionals are those of the command split |
| CliParser.BooleanOptionsResolve | utils/cli/src/index.ts:143-146 | a boolean option always resolves, to true exactly when the tokenizer recorded a bare flag for it |
| CliParser.FailureIsFirstFailingOption | utils/cli/src/index.ts:139-190 | a failed parse carries the error of the first option, in declaration order, that fails; every earlier option resolved, and the failing one is not a boolean |
| CliParser.MissingRequiredOptionFails | utils/cli/src/index.ts:149-154 | a required non-boolean option that is absent or empty fails with `Missing required option: --<name>` |
| CliParser.MissingOptionalOptionIsUndefined | utils/cli/src/index.ts:157-160 | an optional non-boolean option that is absent or empty resolves to undefined and never causes a failure |
| CliParser.NumberOptionResolves | utils/cli/src/index.ts:163-172 | a present number option resolves to the `parseInt` value of its raw text |
| CliParser.InvalidNumberFails | utils/cli/src/index.ts:164-170 | a present number option that `parseInt` rejects fails with `Invalid number for --<name>: "<raw>"` |
| CliParser.EnumOptionResolves | utils/cli/src/index.ts:176-186 | a present enum option resolves only to one of its declared values, compared exactly, and the raw text is kept |
| CliParser.InvalidEnumValueFails | utils/cli/src/index.ts:178-183 | an undeclared enum value fails with a message that lists every allowed value, joined by `, ` |
| CliParser.StringOptionPassesThrough | utils/cli/src/index.ts:188-189 | a string option given non-empty text resolves to that text unchanged |
| CliParser.UndeclaredRawValuesAreIgnored | utils/cli/src/index.ts:139-140 | raw values under undeclared names do not change the outcome |
| CliParser.ResolveAllDependsOnlyOnDeclared | utils/cli/src/index.ts:139-140 | validation reads the raw values only under declared names |
| CliParser.FirstFailureIsUnique | utils/cli/src/index.ts:139-190 | an option known to fail first determines the failure message |
| CliParser.FirstFailureAtMostOne | utils/cli/src/index.ts:139-190 | at most one option fails first |
| CliParser.SuccessHasDeclaredTypes | utils/cli/src/index.ts:39-57 | when string-typed options carry text, every value of a successful parse has its declared type, and undefined only for an optional option |
| JsParseInt.ParseIntAccepts | utils/cli/src/index.ts:164 | `parseInt(s, 10)` reads white space, an optional sign and a digit run, ignoring what follows the digits |
| JsParseInt.ParseIntRejects | utils/cli/src/index.ts:164-165 | `parseInt` gives NaN when no digit follows the white space and the optional sign |
| JsParseInt.ParseIntOfDecimal | utils/cli/src/index.ts:164 | `parseInt` reads back any rendered integer, whatever non-digit text follows it |
| ArgTokenizer.LenientScanNeverThrows | utils/cli/src/index.ts:110-116 | with `strict: false` the tokenizer never throws |
| ArgTokenizer.StrictScanAgrees | utils/cli/src/index.ts:110-116 | in strict mode raw values are recorded only under declared names: flags as bare flags, string-typed options as text |
| ArgTokenizer.StrictParseHasDeclaredTypes | utils/cli/src/index.ts:39-57 | every successful strict parse has the types the inferred result type promises |
| ArgTokenizer.InlineValueMatchesSeparateValue | utils/cli/src/index.test.ts:85-94 | `--name value` and `--name=value` tokenize alike for a string option whose value is not a `-` followed by more text |
| ArgTokenizer.LoneDashIsValue | utils/cli/src/index.ts:110-116 | in strict mode a lone `-` after a string option is taken as its value; only a `-` followed by more text is refused as ambiguous |
| ArgTokenizer.LenientUnknownStep | utils/cli/src/index.test.ts:282-292 | an undeclared `--name` is recorded as a flag when the parser is lenient |
| ArgTokenizer.StrictUnknownStep | utils/cli/src/index.test.ts:271-280 | an undeclared `--name` stops a strict scan with an error |
| CliExamples.BooleanFlagPresent | utils/cli/src/index.test.ts:6-15 | `--force` gives force true, no command and no positionals |
| CliExamples.BooleanFlagAbsent | utils/cli/src/index.test.ts:17-26 | with no arguments a boolean is false |
| CliExamples.BooleanShortAlias | utils/cli/src/index.test.ts:28-37 | `-r` sets `recursive` through its short alias |
| CliExamples.StringOption | utils/cli/src/index.test.ts:41-50 | `--domain example.com` gives that text |
| CliExamples.StringShortAlias | utils/cli/src/index.test.ts:52-61 | `-d example.com` gives that text through the alias |
| CliExamples.AbsentOptionalString | utils/cli/src/index.test.ts:63-72 | an absent optional string is undefined |
| CliExamples.MissingRequiredString | utils/cli/src/index.test.ts:74-83 | an absent required string fails with the missing-option message |
| CliExamples.StringInlineValue | utils/cli/src/index.test.ts:85-94 | `--domain=example.com` gives `example.com` |
| CliExamples.NumberOption | utils/cli/src/index.test.ts:98-107 | `--port 8080` gives 8080 |
| CliExamples.NumberShortAlias | utils/cli/src/index.test.ts:109-118 | `-l 10` gives 10 through the alias |
| CliExamples.AbsentOptionalNumber | utils/cli/src/index.test.ts:120-129 | an absent optional number is undefined |
| CliExamples.InvalidNumber | utils/cli/src/index.test.ts:131-140 | `--port not-a-number` fails with `Invalid number for --port: "not-a-number"` |
| CliExamples.MissingRequiredNumber | utils/cli/src/index.test.ts:142-151 | an absent required number fails with the missing-option message |
| CliExamples.ValidEnum | utils/cli/src/index.test.ts:163-172 | a declared enum value is accepted |
| CliExamples.InvalidEnum | utils/cli/src/index.test.ts:174-185 | an undeclared enum value fails with the full list of valid values |
| CliExamples.AbsentOptionalEnum | utils/cli/src/index.test.ts:187-196 | an absent optional enum is undefined |
| CliExamples.MissingRequiredEnum | utils/cli/src/index.test.ts:198-207 | an absent required enum fails with the missing-option message |
| CliExamples.EnumShortAlias | utils/cli/src/index.test.ts:209-218 | `-a amp` gives `amp` |
| CliExamples.CommandFromFirstPositional | utils/cli/src/index.test.ts:222-232 | `sync --force` gives command `sync` and force true |
| CliExamples.DefaultCommandWhenNoneGiven | utils/cli/src/index.test.ts:234-244 | `--force` with default command `log` gives command `log` |
| CliExamples.NoCommandWithoutDefault | utils/cli/src/index.test.ts:246-255 | with no positionals and no default the command is undefined |
| CliExamples.CommandExcludedFromPositionals | utils/cli/src/index.test.ts:257-267 | `sync extra args` gives command `sync` and positionals `extra`, `args` |
| CliExamples.UnknownOptionFailsWhenStrict | utils/cli/src/index.test.ts:271-280 | `--unknown` fails in the default strict mode |
| CliExamples.UnknownOptionIgnoredWhenLenient | utils/cli/src/index.test.ts:282-292 | `--force --unknown` with `strict: false` gives force true |
| CliExamples.MultipleOptionTypes | utils/cli/src/index.test.ts:296-323 | boolean, string, number and enum options parse together |
| CliExamples.OptionsAroundCommand | utils/cli/src/index.test.ts:325-339 | `--force list --limit 10` reads the options on both sides of command `list` |
| CliExamples.EmptyArguments | utils/cli/src/index.test.ts:343-354 | an empty argument vector succeeds with no command and no positionals |
| CliExamples.OnlyCommand | utils/cli/src/index.test.ts:356-366 | a lone command succeeds with no positionals left |
| CliExamples.NegativeNumberInline | utils/cli/src/index.test.ts:368-379 | `--offset=-10` gives -10 |
| HomebrewFormula.SplitJoinRoundTrip | scripts/update-tap.mjs:27-30 | joining the result of `split(sep)` with `sep` gives back the text |
| HomebrewFormula.ToPascalCase | scripts/update-tap.mjs:26-31 | a class name exists exactly when every `-`-separated word is non-empty; otherwise `w[0]` is undefined and the call throws |
| HomebrewFormula.PascalCaseDefinedIff | scripts/update-tap.mjs:26-31 | `toPascalCase` throws exactly on an empty name, a leading `-`, or a `-` not followed by a non-hyphen character |
| HomebrewFormula.PascalCaseByCharacters | scripts/update-tap.mjs:26-31 | the class name equals the character-by-character reading: hyphens dropped, the first character and each one after a hyphen upper-cased |
| HomebrewFormula.PascalCaseShape | scripts/update-tap.mjs:26-31 | the class name is the name's length minus its hyphens, contains no hyphen, and starts with the name's first character upper-cased |
| HomebrewFormula.PascalCaseIdempotent | scripts/update-tap.mjs:26-31 | converting a class name again leaves it unchanged |
| HomebrewFormula.PlatformTableInverse | scripts/update-tap.mjs:34-39 | the platform table is one-to-one between the four targets and their (os, arch) pairs |
| HomebrewFormula.Placements | scripts/update-tap.mjs:60-74 | the targets found in the platform table are kept in order, each with its platform and digest; the rest are skipped |
| HomebrewFormula.PlacementsAreSubsequence | scripts/update-tap.mjs:60-62 | the placements are exactly the targets found in the platform table, each once and in target order: position `k` comes from the target at the `k`-th listed index, and a target's index is listed exactly when the table knows it |
| HomebrewFormula.GroupByOsIsReference | scripts/update-tap.mjs:58-74 | grouping gives one group per system, in order of first appearance, holding that system's entries in target order |
| HomebrewFormula.OsOrderShape | scripts/update-tap.mjs:72 | the group keys are distinct and are exactly the systems that occur |
| HomebrewFormula.GroupByOsKeepsEntries | scripts/update-tap.mjs:72-73 | grouping neither loses nor duplicates an entry |
| HomebrewFormula.OneSystemHoldsAll | scripts/update-tap.mjs:89-98 | with a single system, its group holds every entry in target order |
| HomebrewFormula.RenderFormula | scripts/update-tap.mjs:51-56 | for the modelled package shapes, a package is skipped exactly when it lacks a binary name or a non-empty target list; it throws exactly when its binary has no class name |
| HomebrewFormula.FormulaLayout | scripts/update-tap.mjs:76-124 | the formula has the six header lines, the indented extra dependencies and a blank line, five lines per supported target, three more per system wrapper when there are several systems, and the nine-line footer |
| HomebrewFormula.DescriptionLine | scripts/update-tap.mjs:56 | the formula's second line is `  desc "<description>"`, with `<binary> CLI tool` in place of a missing or empty description |
| HomebrewFormula.SingleSystemBlock | scripts/update-tap.mjs:97-106 | with one system, the `k`-th block directly in the class is the download block of the `k`-th supported target, with its digest or the placeholder |
| HomebrewFormula.SingleSystemDigestLine | scripts/update-tap.mjs:64-70 | with one system, the `sha256` line of the `k`-th block holds the digest of `<binary>-<target>` when it can be read, and `PLACEHOLDER` otherwise |
| HomebrewFormula.MultiSystemDigestLine | scripts/update-tap.mjs:103 | with several systems, the `sha256` line of the `m`-th block in the `j`-th section holds the digest of that entry's binary or `PLACEHOLDER`, and the entry is one of the package's targets |
| HomebrewFormula.MultiSystemSection | scripts/update-tap.mjs:89-112 | with several systems, the `j`-th section is the `on_<os>` wrapper of the `j`-th system in first-appearance order, holding that system's blocks in target order |
| HomebrewFormula.OsSectionsAt | scripts/update-tap.mjs:92-112 | each system's wrapper sits in the body right after the wrappers of the systems before it |
| HomebrewFormula.BodyLength | scripts/update-tap.mjs:89-112 | the body has five lines per entry, plus three per system when there is not exactly one system |
| HomebrewTap.Outcomes | scripts/update-tap.mjs:47-53 | each directory is processed in listing order; one without `package.json` is skipped |
| HomebrewTap.WriteAllCrashIff | scripts/update-tap.mjs:47-129 | for the modelled package shapes, the run throws exactly when some directory's outcome throws |
| HomebrewTap.WrittenAreRendered | scripts/update-tap.mjs:126-127 | every written file is `<tap>/Formula/<binary>.rb` holding the rendered lines joined by newlines, for some rendered directory |
| HomebrewTap.RenderedAreWritten | scripts/update-tap.mjs:126-127 | a run that does not throw writes a file for every rendered directory |
| HomebrewTap.TapCrashIff | scripts/update-tap.mjs:26-31 | for the modelled package shapes, the run throws exactly when some directory holds an eligible package whose binary has no class name |
| NixHashes.NixTableInverse | scripts/update-hashes.mjs:10-15 | the target-to-Nix-system table is one-to-one |
| NixHashes.ToolHashesContents | scripts/update-hashes.mjs:39-55 | a system has a hash exactly when a listed target maps to it and that binary exists; the hash is the SRI of that binary, whatever the order or repetition of the targets |
| NixHashes.ToolHashesAreSri | scripts/update-hashes.mjs:17-21 | every stored hash starts with `sha256-`, followed by the base64 digest of the binary built for that system |
| NixHashes.Contribution | scripts/update-hashes.mjs:30-37 | a directory writes an entry exactly when it is a directory with a package, a non-empty binary and a target list, which may be empty; the key is the binary name and the version is the package's |
| NixHashes.MergeUntouched | scripts/update-hashes.mjs:57-60 | a key that no directory writes keeps its old entry, or stays absent |
| NixHashes.MergeLastWins | scripts/update-hashes.mjs:57-60 | the last directory that writes a key decides its whole entry; old hashes are not merged |
| NixHashes.MergeKeys | scripts/update-hashes.mjs:23-61 | after the run the keys are the old keys plus every written key |
| NixHashes.FreshManifest | scripts/update-hashes.mjs:24-26 | without an existing manifest only written keys are present |
| VoiceMemos.PadStart | tools/voice-memos/src/database.ts:25 | `padStart` keeps a text that is long enough, and otherwise fills it on the left up to the width |
| VoiceMemos.SecondsPart | tools/voice-memos/src/database.ts:24 | JavaScript's `%` by 60: below 60 in size, congruent to the input, and with the dividend's sign |
| VoiceMemos.DurationRoundTrip | tools/voice-memos/src/database.ts:21-26 | a non-negative duration is rendered as `<minutes>:<two-digit seconds>`, which reads back to the number of seconds |
| VoiceMemos.DurationInjective | tools/voice-memos/src/database.ts:21-26 | distinct non-negative durations render differently |
| VoiceMemos.NegativeDuration | tools/voice-memos/src/database.ts:23-25 | a negative duration keeps JavaScript's signs: -5 seconds renders as `-1:-5` |
| VoiceMemos.ShapeRowsAt | tools/voice-memos/src/database.ts:61-73 | the `i`-th shaped memo is the `i`-th row shaped |
| VoiceMemos.KeepExistingIsSubsequence | tools/voice-memos/src/database.ts:74 | the filter keeps exactly the memos whose file exists, in their original order |
| VoiceMemos.KeptMemoFields | tools/voice-memos/src/database.ts:61-74 | each returned memo has the recordings directory joined to the row's path with `/`, the custom label or `Untitled` for a null or empty one, the formatted duration, the row's Core Data date plus 978307200 as Unix seconds, and an existing file; a row is kept exactly when its joined path exists |
| VoiceMemos.RowsKept | tools/voice-memos/src/database.ts:61-74 | the memos returned are the shaped rows whose file exists, in query order, each taken from a listed row |
| VoiceMemos.QueryMemos | tools/voice-memos/src/database.ts:42-75 | the query fails exactly when the database file is missing, with `Voice Memos database not found: <path>`; otherwise it returns the filtered shaped rows |

## Left out

- The internals of `node:util` `parseArgs`: `ArgTokenizer` approximates it for the forms the tests use. It does not cover short-option groups, `-xVALUE`, negative options or parseArgs' own error texts, because that tokenizer is not part of this repository.
- TypeScript's types and inference are left out. `CliParser.SuccessHasDeclaredTypes` states what `InferValues` promises as a predicate on values.
- `Object.entries` puts integer-like keys first. The schema is taken in declaration order, because JavaScript property order is outside the model.
- `CliParser.NumberOptionResolves`: JavaScript numbers are doubles. The model's integers are unbounded, so precision loss beyond 2^53 is not modelled. Hexadecimal and other radix forms never arise with radix 10.
- `VoiceMemos.FormatDuration`: `Math.round` on a fractional duration is not modelled. The row's duration is taken as already-rounded whole seconds, because floating point is left out.
- `formatDate` is left out, because it depends on the local time zone. `recordedAt` is kept as Unix seconds and `appleToDatetime` is modelled as the offset addition.
- SQLite access and the query text are left out, along with `console.log`/`console.warn` output, file reading and writing, and `process.argv` handling. Rows, the file set and the digests are inputs; the written files and the manifest are outputs.
- SHA-256 and its hex or base64 encodings are left out: digests are inputs keyed by file path.
- `path.join` normalisation is not modelled. Paths are joined with a single `/`, which is what `join` gives for the plain relative names involved.
- `HomebrewFormula.Upper`: `toUpperCase` is modelled on ASCII letters only. Unicode case mapping is outside the model.
- The JSON text of `nix/hashes.json` is left out. Key order, indentation, the dropping of an undefined `version`, unknown fields of existing entries and malformed JSON are not modelled; existing entries are `NixHashes.ToolEntry` values.
- `package.json` fields of the wrong JSON type (for example a non-string `binary`) are not modelled. Only the field shapes the scripts expect are represented.
- A `package.json` that is not valid JSON, or that parses to `null`, is not modelled. `JSON.parse` would throw in the first case, and reading `toolbox` off `null` would throw in the second (scripts/update-tap.mjs:51-52, scripts/update-hashes.mjs:36-37). A directory's package is either absent or a parsed object.
- Inherited `Object.prototype` members are not modelled in the lookup tables. `PLATFORM_MAP[target]`, `TARGET_TO_NIX[target]` and `EXTRA_DEPS[binary]` are plain property reads, so a name such as `toString` or `constructor` finds an inherited function. With a `toString` target the scripts go on with a function where a platform or system should be. With a `constructor` binary, iterating `EXTRA_DEPS[binary]` throws. The model's tables hold only their own keys, so such names are skipped or get no dependencies.
- The terminal helpers, the transcription tool beyond the way it rebuilds its file list, model download, the interactive memo selection and the tools' configuration and entry points are outside the modelled core.
