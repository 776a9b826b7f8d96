# LosslessOptimiser core, modelled in Dafny

LosslessOptimiser is a command-line wrapper meant to drive lossless image
optimisers over a list of PNG and JPEG files. Its checkable logic has two parts,
and this project models both:

- **The optimisation-level table** (`opt_levels.dfy`, module `OptLevels`). It maps
  a `u8` level to the argument string for the PNG optimiser (oxipng). Each level
  from 0 to 9 gives the shared prefix `-p -b --fix ` followed by one
  level-specific suffix. Every level from 10 to 255 gives the error
  "Invalid range, opt_level must be between 0 and 9 inclusive.". The model pins
  down the whole table (`OptionsTable`). It also defines an inverse, `LevelOf`,
  which reads the level back from an argument string. The round trip
  (`LevelOfOptions`) implies that distinct levels give distinct strings
  (`OptionsInjective`).
- **The driver** (`driver.dfy`, module `Driver`). It checks the parsed command
  line: an empty file list is an error, and so is a first file that is exactly
  `/?`. A missing level defaults to 5. The driver then examines the files in
  order. Each file is accepted as a PNG, accepted as a JPEG, or skipped. The
  decision uses the file's extension and a content sniff, which is a parameter
  of type `(mime, path) -> bool`. The level is looked up in the table at every
  real PNG. So an out-of-range level stops the run at the first file that ends
  with `.png` and sniffs as a PNG, and not before. The loop is the method
  `ProcessFiles`. It is proved equal to the declarative description `Expected`,
  and the properties of the run are proved about `Expected`.
- **Path component matching** (`paths.dfy`, module `Paths`). The driver tests
  extensions with Rust's `Path::ends_with`, which compares whole path
  components. The model splits the path text at separators. It drops empty and
  `.` segments and compares the last component.

Behaviour of the code worth noting:

- Level 8 ends in `--zw 16k,32k` and level 9 ends in `-Z`. The two levels are
  not the same.
- The default level is 5.
- `file.ends_with(".png")` holds only when the last path component is exactly
  `.png`. So an ordinary name such as `photo.png` or `dir/photo.png` is skipped
  as an unknown extension. `BarePngIsUnknownExtension` proves this for every
  bare name `<stem>.png`, and `NamedPngIsUnknownExtension` for every
  `dir/<stem>.png`. The same component comparison is used for `.jpg` and
  `.jpeg`.
- An out-of-range level is not rejected before files are examined. It is
  rejected only at the first real PNG. If the list has no such file, the run
  succeeds.
- The JPEG branch asks the sniff for `"image/jpg"`.
- No external tool is run. The command for the PNG optimiser is built but
  never spawned.

## Model

| member | source | states |
|---|---|---|
| `OptLevels.GetOxipngOptions` | src/opt_levels.rs:5-22 | Succeeds exactly for levels 0..9. Every other `u8` gives the range error. A successful string starts with `-p -b --fix ` and is strictly longer than that prefix. |
| `OptLevels.OptionsTable` | src/opt_levels.rs:7-18 | For every `u8`, exactly one arm applies. Levels 0..9 give the prefix plus that level's suffix from the table. Levels 10..255 give the range error. |
| `OptLevels.SuffixesDistinct` | src/opt_levels.rs:8-17 | The table has ten suffixes, and no two are equal. |
| `OptLevels.FindSuffix` | src/opt_levels.rs:8-17 | Finds the level whose suffix equals the given text, or reports that no level from the start point has it. |
| `OptLevels.LevelOf` | src/opt_levels.rs:6-21 | Any level it reads back is valid, and the table maps that level to exactly the given string. |
| `OptLevels.LevelOfOptions` | src/opt_levels.rs:6-21 | Round trip: every level 0..9 is read back from the string it produces. |
| `OptLevels.OptionsInjective` | src/opt_levels.rs:8-17 | Two different levels in 0..9 give different results. |
| `Paths.SplitSegmentsHaveNoSeparator` | src/main.rs:67 | No segment contains the separator. |
| `Paths.JoinSplit` | src/main.rs:67 | Joining the segments with `/` gives the original text back, so splitting loses nothing. |
| `Paths.Normal` | src/main.rs:67 | Every kept segment is non-empty and not `.`. |
| `Paths.NormalKeepsNamed` | src/main.rs:67 | A segment is kept exactly when it is non-empty and not `.`. |
| `Paths.Components` | src/main.rs:67 | Components are non-empty, are not `.`, and contain no separator. |
| `Paths.EndsWith` | src/main.rs:67-78 | `p.ends_with(name)`: the last named component of `p` equals `name`. It can hold only when `name` is a single non-empty component other than `.` with no separator. |
| `Paths.FileInDirEndsWith` | src/main.rs:67-78 | `dir/name` ends with a one-component `child` exactly when `name == child`. An extension is never compared on its own. |
| `Paths.BareFileEndsWith` | src/main.rs:67-78 | The same as above for a bare file name. |
| `Driver.CheckArgs` | src/main.rs:45-60 | Errs exactly when the file list is empty or the first file is `/?`, each case with its own message. Otherwise it returns 5 when no level was given, or the given level unchanged with no range check. |
| `Driver.HelpArgOnlyFirst` | src/main.rs:49-52 | Only index 0 is compared with `/?`. A `/?` at a later index does not make the checks fail when the first file is something else. |
| `Driver.Classify` | src/main.rs:66-91 | A file is in the PNG branch exactly when it ends with `.png`. It is in the JPEG branch exactly when it does not end with `.png` but ends with `.jpg` or `.jpeg`. The PNG branch accepts exactly when the sniff says `image/png`, and the JPEG branch exactly when it says `image/jpg`. |
| `Driver.ClassifyAsksOnce` | src/main.rs:67-79 | The classification depends on at most one sniff question: `image/png` for `.png` files, `image/jpg` for `.jpg`/`.jpeg` files, and none for other files. Two sniffs that agree on that question classify the file alike. |
| `Driver.PngNameIsOrdinary` | src/main.rs:67-78 | A name `<stem>.png` with a non-empty stem is one named component, and it is none of `.png`, `.jpg` and `.jpeg`. |
| `Driver.BarePngIsUnknownExtension` | src/main.rs:67-91 | A bare file name `<stem>.png` with a non-empty stem is skipped as an unknown extension, whatever the sniff says. |
| `Driver.NamedPngIsUnknownExtension` | src/main.rs:67-91 | A file `dir/<stem>.png` with a non-empty stem is skipped as an unknown extension, whatever the sniff says. |
| `Driver.HandleAll` | src/main.rs:63 | Every file is examined once, in input order. |
| `Driver.FirstValidPng` | src/main.rs:63-71 | Gives the index of the first file that ends with `.png` and sniffs as a PNG, or the list length if there is none. No earlier file is such a PNG. |
| `Driver.Expected` | src/main.rs:63-94 | The handled files are a prefix of the input, each with its classification. The run succeeds exactly when every file was handled. A failure carries the range error, has an out-of-range level, and stops at a real PNG. |
| `Driver.SkipsNeverAbort` | src/main.rs:73-91 | If no file is a real PNG, every file is handled and the run succeeds, whatever the level. |
| `Driver.ValidLevelNeverAborts` | src/main.rs:71 | With a level in 0..9, every file is handled and the run succeeds. |
| `Driver.AbortAtFirstValidPng` | src/main.rs:71 | With an out-of-range level, the run stops at the first real PNG. It fails with the range error after handling exactly the files before it. |
| `Driver.AbortIgnoresLaterFiles` | src/main.rs:71 | Once a run has stopped, appending more files to the list does not change it. |
| `Driver.ProcessFiles` | src/main.rs:63-94 | The per-file loop, with its skips and its early exit on the table's error, produces exactly `Expected`. |
| `Driver.Execute` | src/main.rs:45-94 | An empty list or a first `/?` fails with its message before any file is examined. Otherwise the run is `Expected` at the chosen level. |

## Left out

- Logger setup (src/logger.rs) and its call at src/main.rs:40 are not modelled. The call passes level 2, which is always accepted, and it only installs a global logger.
- Command-line parsing is not modelled. The parsed options are the input `Driver.Opt`. Printing them is an output side effect.
- Content sniffing is a foreign call that reads the file. It is the function parameter `sniff`.
- Logging with `info!` and `warn!` is left out. Its only effect is output.
- The process command built at src/main.rs:72 is never spawned, so nothing about subprocesses is modelled.
- Driver.ProcessFiles: does not keep the argument string computed for a valid PNG, because the source binds it and never uses it. Only the lookup's error matters to the run.
- The `verbose` flag is parsed but not read by the driver, so it affects nothing in the model.
- The async runtime is left out. Nothing runs concurrently, and the level lookup never waits.
- Paths.Components: splits on `/` only. The Windows separator `\` and drive prefixes are not modelled. A path is treated as its text, without the lossy OS-string conversion.
- Paths.Components: keeps `..` as a plain segment and drops the root, where Rust yields distinct component kinds. This does not change whether the last component equals `.png`, `.jpg` or `.jpeg`.
