# create-boardzilla-game, modelled in Dafny

`create-boardzilla-game <name> [-t <template>]` scaffolds a new Boardzilla game. It checks the
project name and the template selector. It refuses to overwrite an existing file or directory. It downloads
and unpacks the template repository, copies it into `<cwd>/<name>`, and rewrites two manifests:
`package.json` gets `name`, and `game.v1.json` gets `name` and the title-cased `friendlyName`. Finally
it runs `npm install`.

This project models the parts of `index.js` that compute something. Those are:

- `toTitleCase` (module `TitleCasing`);
- `validateName` (`Names`);
- `validateTemplateName`, the default template and the archive address (`Templates`);
- `path.resolve(cwd, name)` (`Paths`);
- the field assignments on the parsed manifests (`Manifest`);
- these steps composed in the script's order (`Scaffold`).

The composition takes the results of the file system and the download as parameters.

Characters are Dafny `char`s. The regular-expression classes are explicit predicates: `\w` is
`Ascii.IsWordChar`, and `[a-z0-9_-]` is `Ascii.IsNameChar`. The case mapping is ASCII-only. That is
exact here: `toTitleCase` only changes the case of the pieces between `\W+` runs, and those pieces
hold nothing but `[A-Za-z0-9_]`.

`toTitleCase` is specified twice, independently:

- by a characterisation of its split: `IsSplitting` says a string is cut into maximal runs. `Split`
  produces such a cut (`SplitIsSplitting`), and any such cut is the one `Split` produces
  (`SplittingIsUnique`);
- by a one-pass state machine `Scan`, proved equal to split-map-join (`TitleCaseIsScan`).

Idempotence, spacing, length and the position-by-position form follow from these two.

Two consequences of the code are easy to miss:

- `_` is a word character, so `my-cool_game` becomes `"My Cool_game"` (`Names.UnderscoreExample`);
- a leading or trailing `-` gives a leading or trailing space (`Names.LeadingDashExample`,
  `Names.FriendlyNameSpacing`).

Doubled spaces still never occur (`TitleCasing.TitleCaseSpacing`).

## Model

| member | source | states |
|---|---|---|
| `Ascii.ToUpper` | index.js:18 | `toUpperCase` on one character: a lower-case letter becomes upper-case, every other character is unchanged, and the result is never lower-case |
| `Ascii.ToLower` | index.js:18 | `toLowerCase` on one character: an upper-case letter becomes lower-case, every other character is unchanged, and the result is never upper-case |
| `Ascii.LowerCase` | index.js:18 | `substr(1).toLowerCase()` lowers a string character by character and keeps its length |
| `Strings.Join` | index.js:18 | `.join(" ")` of one piece is that piece; of several, the pieces interleaved with one separator between each adjacent pair |
| `TitleCasing.Capitalize` | index.js:18 | the `map` callback keeps the piece's length; what it does to each character is stated by `TitleCasing.CapitalizeIsTitleWord` |
| `TitleCasing.TitleCase` | index.js:17-19 | `toTitleCase`; its behaviour is stated by `TitleCasing.TitleCaseIsScan`, `TitleCasing.OutputIsSplitting`, `TitleCasing.TitleCaseIdempotent`, `TitleCasing.TitleCaseSpacing` and `TitleCasing.TitleCaseLength` |
| `Manifest.RewritePackage` | index.js:84 | `projectPackageJson.name = projectName`; its behaviour is stated by `Manifest.RewritePackageFields` and `Manifest.RewriteIdempotent` |
| `Manifest.RewriteGame` | index.js:91-92 | the two assignments to the game manifest; their behaviour is stated by `Manifest.RewriteGameFields` and `Manifest.RewriteIdempotent` |
| `Scaffold.Scaffold` | index.js:45-92 | one run up to the rewritten manifests; its behaviour is stated by `Scaffold.ScaffoldSucceeds`, `Scaffold.ScaffoldResult` and `Scaffold.ScaffoldFailsEarly` |
| `TitleCasing.Split` | index.js:18 | `split(/\W+/)` always yields at least one piece; an input starting with a word character starts its first piece, and one starting with a non-word character yields an empty first piece followed by more |
| `TitleCasing.SplitIsSplitting` | index.js:18 | the pieces of `split(/\W+/)` and the runs between them rebuild the input exactly; the pieces are runs of `[A-Za-z0-9_]`; the runs are non-empty runs of other characters; only the first and last piece can be empty |
| `TitleCasing.SplittingIsUnique` | index.js:18 | every cut of a string into maximal word runs and separator runs is the one `split(/\W+/)` produces, so the pieces are exactly the maximal word runs, in order |
| `TitleCasing.CapitalizeIsTitleWord` | index.js:18 | `charAt(0).toUpperCase() + substr(1).toLowerCase()` keeps every character up to case and leaves digits and `_` unchanged; the first character of the result is not lower-case, and no later one is upper-case; a piece already in that shape is returned unchanged |
| `TitleCasing.OutputIsSplitting` | index.js:18 | the output's capitalised pieces, with one space between each pair, are a cut of the output into maximal runs |
| `TitleCasing.TitleCaseIsScan` | index.js:17-19 | `toTitleCase` equals a one-pass scan: a word character is upper-cased at the start of a word and lower-cased otherwise, and each run of non-word characters becomes exactly one space |
| `TitleCasing.ScanInnerIsSplitMapJoin` | index.js:18 | after a word character the scan lower-cases the first piece; after a separator it swallows the rest of that separator run |
| `TitleCasing.TitleCaseIdempotent` | index.js:17-19 | applying `toTitleCase` to its own output gives the same output, for every input |
| `TitleCasing.TitleCaseSpacing` | index.js:18 | the output holds only word characters and spaces, and never two spaces in a row; it starts with a space exactly when the input starts with a non-word character, and ends with one exactly when the input ends with one |
| `TitleCasing.ScanShape` | index.js:18 | the scan emits only word characters and single spaces, and emits no space first after a separator |
| `TitleCasing.ScanLast` | index.js:18 | the scan's last character is a space exactly when the input ends in a non-word character that does not continue a separator run |
| `TitleCasing.TitleCaseLength` | index.js:18 | output length plus the number of non-word characters that follow another non-word character equals input length; so the output is never longer, and has the same length exactly when no two non-word characters are adjacent |
| `TitleCasing.AdjacentSeparatorsZero` | index.js:18 | no adjacent non-word characters is the same as a zero count of them |
| `TitleCasing.ScanLength` | index.js:18 | each character the scan drops is a non-word character continuing a separator run |
| `TitleCasing.TitleCaseKeepsPositions` | index.js:18 | without adjacent non-word characters, output position i is a space where the input has a non-word character, the upper-cased character where a word starts, and the lower-cased character elsewhere |
| `TitleCasing.ScanByPosition` | index.js:18 | without adjacent non-word characters, each suffix of the scan is the matching suffix of the position-by-position form |
| `TitleCasing.TitleCaseSingleWord` | index.js:18 | an input of word characters only, `_` and digits included, is one piece and is just capitalised |
| `Names.NamePatternIsCharClass` | index.js:22 | the anchored pattern `^[a-z0-9_-]+$` matches exactly the non-empty strings over `[a-z0-9_-]` |
| `Names.ValidateName` | index.js:21-26 | `validateName` returns its argument unchanged exactly when the argument is non-empty and every character is in `[a-z0-9_-]`; otherwise it fails with the message "Can only contain lowercase letters, digits, _ and -" |
| `Names.ValidNameIsPlain` | index.js:22 | an accepted name holds no `/`, `\`, `.`, space or upper-case letter, is neither `.` nor `..`, and does not start with `/` |
| `Names.ValidNameChars` | index.js:22 | in an accepted name `-` is the only non-word character, and lower-casing changes nothing |
| `Names.FriendlyNameOfValidName` | index.js:17-19 | for an accepted name the friendly name is never longer than the name; it has the same length exactly when there is no `--`; it is then the name with each `-` turned into a space and each word's first character upper-cased |
| `Names.FriendlyNameSpacing` | index.js:17-19 | the friendly name of an accepted name is non-empty and has no two spaces in a row; it starts (ends) with a space exactly when the name starts (ends) with `-` |
| `Names.SpaceTraderExample` | index.js:17-26 | `space-trader` is accepted, and its friendly name is `Space Trader` |
| `Names.UnderscoreExample` | index.js:18 | `my-cool_game` becomes `My Cool_game`, since `_` does not separate words |
| `Names.LeadingDashExample` | index.js:18 | `-x` becomes `" X"`, since the empty first piece is kept |
| `Names.RejectedNameExample` | index.js:22-23 | `Space Trader` is rejected with the name rule's message |
| `Templates.Lookup` | index.js:32 | `options.get(name)` finds a value exactly when some entry has that key, and the value found is that of the last entry with that key, as `new Map(entries)` keeps |
| `Templates.ValidateTemplateName` | index.js:28-37 | `validateTemplateName` accepts exactly the selector `empty` and returns `boardzilla-starter-game`; every other selector fails with "Must be one of empty" |
| `Templates.OrDefault` | index.js:52 | `opts.template \|\| "boardzilla-starter-game"` is never empty; it is the stored value when that is present and non-empty, and `boardzilla-starter-game` otherwise |
| `Templates.ResolveTemplate` | index.js:46-52 | the template option succeeds exactly when it is absent or `empty`; the repository is then always `boardzilla-starter-game`; otherwise it fails with "Must be one of empty" |
| `Templates.ArchiveUrl` | index.js:75 | the download address is the fixed prefix, then the repository name, then the fixed suffix, each at its stated position |
| `Templates.ArchiveUrlRoundTrip` | index.js:75 | the repository can be read back from the download address, so distinct repositories are fetched from distinct addresses |
| `Paths.SplitOnSlash` | index.js:56 | splitting a path on `/` yields at least one piece, no piece holds a `/`, and a string without `/` is a single piece |
| `Paths.Normalize` | index.js:56 | applying path pieces to a normalised directory gives a normalised directory |
| `Paths.Resolve` | index.js:56 | `path.resolve` from a normalised working directory gives a normalised path |
| `Paths.ResolveComponent` | index.js:56 | a plain component (not empty, `.` or `..`, and without `/`) resolves to a directory directly inside the working directory |
| `Manifest.Get` | index.js:84 | a property read finds a value exactly when the object has that key, and the value found is the one stored under the first entry with that key |
| `Manifest.KeysAre` | index.js:84 | the key list lists each property's key in order, and holds exactly the keys the object has |
| `Manifest.Set` | index.js:84 | after `o[key] = v` the property holds `v`, and every other property reads as before; the key order is unchanged when the key existed, and otherwise the key is added last |
| `Manifest.SetInPlace` | index.js:84 | the assignment leaves every other position of the object as it was |
| `Manifest.SetKeepsKeysUnique` | index.js:84 | the assignment never introduces a duplicate key |
| `Manifest.SetSameValue` | index.js:91-92 | assigning a property the value it already has leaves the object unchanged |
| `Manifest.RewritePackageFields` | index.js:84 | the package manifest's `name` becomes the project name; all other properties and the key order are kept, and `name` is added last if it was missing |
| `Manifest.RewriteGameFields` | index.js:91-92 | the game manifest's `name` becomes the project name and `friendlyName` its title case; all other properties and the key order are kept, and missing keys are added in assignment order |
| `Manifest.RewriteIdempotent` | index.js:84-92 | rewriting an already rewritten manifest with the same name changes nothing |
| `Scaffold.ProjectDirIsChild` | index.js:55-56 | for an accepted name the project directory is `<cwd>/<name>`, one new component below the working directory |
| `Scaffold.ScaffoldSucceeds` | index.js:45-63 | a run gets past validation and the existence check exactly when the template option is absent or `empty`, the name is accepted, and `<cwd>/<name>` does not exist |
| `Scaffold.ScaffoldResult` | index.js:52-92 | a successful run targets `<cwd>/<name>` and fetches the starter game's archive; the package and the game are named after the project, and the game's friendly name is the name's title case; the two manifests are exactly `RewritePackage` and `RewriteGame` of the template's, so every other property and the key order are kept |
| `Scaffold.ScaffoldFailsEarly` | index.js:45-61 | a bad name fails whatever the file system and the template hold, and with an accepted template it fails with the name rule's message; a bad selector fails with the template message; with no `--template` or with `-t empty`, an existing file or directory fails with `AlreadyExists` |
| `Scaffold.SpaceTraderRun` | index.js:51-92 | `create-boardzilla-game space-trader` in a directory without `space-trader` yields `<cwd>/space-trader` and the friendly name `Space Trader` |

## Left out

- File-system effects are not modelled: the existence check, the directory creation, the temporary
  file and directory names, and the copy of the archive's first entry (index.js:58-65, 78-79). The
  existence check is the parameter `existing` of `Scaffold.Scaffold`. The copied manifests are the
  parameters `pkg` and `game`.
- The random suffixes of the temporary names (index.js:64-65) are not modelled: randomness.
- The cleanup handlers for `exit`, `SIGINT` and `uncaughtException` (index.js:67-73) are not
  modelled: process signal handling.
- The `curl` download, the ZIP extraction and `npm install` (index.js:75-77, 102) are not modelled:
  subprocesses and a foreign library. Only the download address is modelled (`Templates.ArchiveUrl`).
- Loading the manifests with `require` and writing them with `JSON.stringify(..., null, 2)`
  (index.js:81, 86-96) are not modelled: library parsing and formatting. A manifest is the ordered
  member list of a parsed object, and the model covers only the field update.
- A manifest whose top-level JSON value is not an object is not modelled. The script would assign
  the fields to an array or a primitive.
- JavaScript puts integer-like keys before all others in property order. The member list is
  taken to be in property order already, and `name` and `friendlyName` are not integer-like, so a
  new one goes last.
- The commander wiring (index.js:39-48) is not modelled: version, description, help output, and the
  error for a missing `<name>` argument. An argument starting with `-` is taken as an option, so a
  name such as `-x` reaches `validateName` only after `--` (`create-boardzilla-game -- -x`); without
  it commander fails with an unknown-option error. `nameArg` of `Scaffold.Scaffold` is the positional
  argument after that separation. Only the order is kept: the option's parser runs before the
  argument's. `.preset("empty")` is not modelled, because `--template <name>` requires a value.
- `Paths.Resolve` models POSIX `path.resolve` only. Windows drive letters and `\` separators are not
  modelled. An accepted name holds neither `/` nor `\` (`Names.ValidNameIsPlain`).
- Console output (index.js:50, 59, 104-105) and the exit code (index.js:60) are not modelled: I/O.
  The failure is the `Err` result.
- Case mapping is ASCII-only. This is exact for `toTitleCase`, whose pieces hold only `[A-Za-z0-9_]`.
  JavaScript strings are UTF-16 code units and Dafny strings are Unicode scalar values. Either way,
  every non-ASCII character is a non-word character, so the split comes out the same.
- template/esbuild-game.mjs is not part of this model: it is a fixed bundler configuration with no
  logic of its own.
