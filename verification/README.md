# debugtron: finding installed Electron apps on Windows

This project is a Dafny model of how debugtron finds installed Electron apps on
Windows (`src/main/win.ts`). The scan reads every uninstall entry under three
registry roots. For each entry it decides whether the entry belongs to a
packaged Electron app. When it does, it works out the app's executable and
icon, and builds the `AppInfo` record that the app picker shows.

An entry is a sequence of typed registry values. Only `REG_SZ` strings are
consulted, and the first value with a given name wins. The decision runs as
follows:

- **`DisplayIcon` names an `.exe`.** The text before the first comma is taken
  as the path, compared case-insensitively. A comma inside the path itself
  cuts it short, and the entry is then judged by the truncated text. An entry
  whose path names an `.exe` is decided by that path alone: it is an app
  exactly when `resources\electron.asar` sits next to the executable.
- **`DisplayIcon` names an `.ico`.** That file becomes the icon, and the entry
  goes on to `InstallLocation`.
- **`InstallLocation` is set.** Its directory is listed; a listing that fails
  counts as empty. The directory is an app in two cases:
  - the flat layout, where the marker lies directly under it;
  - the versioned layout, where the marker lies under the first listed name
    containing `\d+\.\d+\.\d+`.

  In both cases the executable is the first listed name that ends in `.exe`
  and contains neither `uninstall` nor `update`, case-insensitively. It is
  joined under the install directory itself.
- **The record.** Its `id` and `exePath` are the executable. Its `name` is the
  `DisplayName` string, or else the executable's file name without `.exe`. Its
  `icon` is a `data:image/x-icon;base64,` URI of the icon file's bytes, or
  empty when there is no icon file.

The model has these parts:

- The registry and the file system are immutable snapshots: `Registry.Snapshot`
  and `Files.FileSystem`.
- The decision is `Resolver.Resolve`.
- The record is `Apps.BuildAppInfo`.
- The whole scan is `Scan.GetAppsOfWin`.
- `Version` gives an executable matcher for the version pattern. It is proved
  equal to the pattern's meaning: some slice of the name is `digits.digits.digits`.
- `Base64` is a concrete encoder, following section 4 of RFC 4648, with a
  proved round trip.
- `Scenarios` gives worked examples over symbolic install directories.

## Model

| member | source | states |
|---|---|---|
| Registry.FindString | src/main/win.ts:24-27 | `values.find` of a REG_SZ by name. The result is `None` exactly when no value is a REG_SZ with that name. Otherwise it is the data of the first such value; earlier values all fail the test. |
| Registry.LookupSkipsOtherValues | src/main/win.ts:49-52 | Inserting a value that is not a REG_SZ of the looked-up name, for example a REG_EXPAND_SZ `DisplayIcon`, never changes the lookup. |
| Registry.EnumerateEntries | src/main/win.ts:13-17 | `enumRegeditItems` yields one value sequence per child key, in order. Each is the value list of `root\child`. |
| Scan.UninstallEntriesConcatenate | src/main/win.ts:118-131 | The scanned entries are those of HKLM `...\Uninstall`, then HKLM `Wow6432Node\...\Uninstall`, then HKCU `...\Uninstall`, concatenated. |
| Scan.AllEntries | src/main/win.ts:118-131 | An entry is scanned exactly when it is an entry under one of the roots. |
| Scan.AllEntriesConcat | src/main/win.ts:118-131 | Scanning two lists of roots one after the other is scanning their concatenation, as the spread `[...a, ...b]` does. |
| Files.FileSystem.ReadDirOrEmpty | src/main/win.ts:70-75 | A directory that can be listed gives its names; a failed listing leaves the empty list. |
| Scan.SlotsConcat | src/main/win.ts:132-134 | Classifying two runs of entries one after the other gives the same result as classifying their concatenation. |
| Scan.ClassifyEntries | src/main/win.ts:132-134 | `items.map(getAppInfoFromRegeditItemValues)` keeps the length and positions: slot `i` is the outcome for entry `i`. |
| Scan.ScanRoots | src/main/win.ts:117-135 | Scanning any list of roots gives one slot per entry, in order. Each slot is that entry's outcome. |
| Scan.GetAppsOfWin | src/main/win.ts:117-135 | The result has one slot per child key of the three roots; nothing is filtered out. Each slot is its entry's outcome. Every record in a slot has `id == exePath`. |
| Text.ToLower | src/main/win.ts:56 | `toLowerCase` on ASCII keeps the length. It maps every upper-case letter to its lower-case partner and leaves other characters alone. |
| Text.BeforeFirst | src/main/win.ts:55 | `split(',')[0]`: the result is a prefix without the separator. When it is shorter than the input, the separator comes right after it. |
| Text.ToLowerIdempotent | src/main/win.ts:79 | Lower-casing an already lower-cased name changes nothing. |
| Text.BeforeFirstField | src/main/win.ts:55 | The first comma-separated field of `field,rest` is `field`, for a comma-free `field`. |
| Paths.Join | src/main/win.ts:87 | `path.join(dir, name)` ends with `name` and starts with `dir`. It is `name` itself when `dir` is empty. |
| Paths.BaseNameOfJoin | src/main/win.ts:35 | `path.basename` of `path.join(dir, name)` is `name` for a non-empty single segment `name`. |
| Paths.SegmentStartAt | src/main/win.ts:35 | The base name starts right after the last separator: a separator followed by a separator-free tail fixes where it starts. |
| Paths.NestedJoin | src/main/win.ts:77 | `path.join(dir, a, b)` taken apart again gives base name `b`, then `a`, for non-empty single segments `a` and `b`. It gives back `dir` too when `dir` is non-empty and does not end in a separator. |
| Paths.ParentOfJoin | src/main/win.ts:57 | For a non-empty single segment `name` and a non-empty `dir` without a trailing separator, the directory of `path.join(dir, name)`, as used by `'..'`, is `dir` again. |
| Paths.BaseNameWithout | src/main/win.ts:35 | `path.basename(p, '.exe')` gives a single segment. When the base name ends in `.exe` and is longer than `.exe`, the result is non-empty and adding back `.exe` gives the base name. Otherwise, including a base name of exactly `.exe`, the result is the base name unchanged. |
| Version.HasVersion | src/main/win.ts:93 | `/\d+\.\d+\.\d+/.test(f)` holds exactly when some slice of `f` is three non-empty digit runs joined by dots. |
| Version.DigitRun | src/main/win.ts:93 | A greedy `\d+` covers only digits and stops at the end or at a non-digit. |
| Version.NoDigitsNoVersion | src/main/win.ts:93 | A name without digits never matches the version pattern. |
| Sequences.Filter | src/main/win.ts:78-84 | `filter` keeps exactly the elements that pass, taken from the input. |
| Sequences.FilterConcat | src/main/win.ts:78-84 | `filter` keeps order and multiplicity: one element is kept exactly when it passes, and filtering a concatenation concatenates the filtered parts. |
| Sequences.FindFirst | src/main/win.ts:93 | `find`/`findIndex`: `None` exactly when nothing passes. Otherwise it is the least index that passes. |
| Sequences.FilterHeadIsFirstMatch | src/main/win.ts:85-87 | `filter(p)[0]` exists exactly when `find(p)` does, and the two are the same element. |
| Resolver.ExecutableFilterIgnoresCase | src/main/win.ts:78-84 | The executable filter accepts a name exactly when it accepts its lower-case spelling. |
| Resolver.MarkerUnderLayout | src/main/win.ts:77 | `path.join(dir, 'resources/electron.asar')` is a file `electron.asar` in a directory `resources`. When `dir` is non-empty and has no trailing separator, the parent of `resources` is `dir`. |
| Resolver.MarkerBesideOfJoin | src/main/win.ts:57 | `path.join(icon, '../resources/electron.asar')` for an icon `dir\name` is the marker under `dir`, for a non-empty single segment `name` and a non-empty `dir` without a trailing separator. |
| Resolver.DisplayIconPath | src/main/win.ts:55 | The icon path is the `DisplayIcon` text up to its first comma: a comma-free prefix, followed by a comma unless it is the whole text. |
| Resolver.DisplayIconPathOfField | src/main/win.ts:55 | The icon path of `path,index` is `path`, for a comma-free `path`. |
| Resolver.SelectExecutable | src/main/win.ts:78-87 | The chosen path ends in `.exe` in lower case. There is none exactly when no listed name passes the filter. Otherwise it is the first passing name joined under the directory. |
| Resolver.ExecutableKeepsSuffix | src/main/win.ts:78-87 | A name that passes the filter still ends in `.exe`, in lower case, once joined under any directory. |
| Resolver.VersionDirectory | src/main/win.ts:93 | `files.find(semver)`: none exactly when no name matches; otherwise the first matching name. |
| Resolver.ResolveInstallLocation | src/main/win.ts:68-113 | Any candidate keeps the given icon and names the first executable of the listing of `dir`. Also, the flat marker exists, or the first versioned sub-directory holds the marker. |
| Resolver.Resolve | src/main/win.ts:41-115 | An empty entry is no app. A candidate's executable ends in `.exe`. A candidate's icon is empty or the `.ico` path read from `DisplayIcon`. |
| ResolverProperties.DisplayIconExecutableDecides | src/main/win.ts:54-58 | A `DisplayIcon` naming an `.exe` decides the entry. With the marker beside it, the candidate is that exe with no icon; without the marker there is no app, whatever `InstallLocation` says. |
| ResolverProperties.DisplayIconIconDefersToInstallLocation | src/main/win.ts:59-61 | An `.ico` `DisplayIcon` becomes the icon. The outcome is the install-location resolution with that icon, or none without `InstallLocation`. |
| ResolverProperties.OtherDisplayIconDefersToInstallLocation | src/main/win.ts:46-67 | An entry with no `DisplayIcon`, or one naming neither `.exe` nor `.ico`, is resolved through `InstallLocation` with no icon. |
| ResolverProperties.NoInstallLocationNoRecord | src/main/win.ts:64-68 | Without an `.exe` `DisplayIcon` and without `InstallLocation`, there is no app. |
| ResolverProperties.SelectionIsFirstExecutable | src/main/win.ts:78-87 | Selection succeeds exactly when some name passes the filter. It then yields the first passing name, joined under the directory. |
| ResolverProperties.FirstExecutableUnique | src/main/win.ts:85-87 | The first name passing the filter is unique. |
| ResolverProperties.FirstVersionedUnique | src/main/win.ts:93 | The first versioned name is unique. |
| ResolverProperties.VersionDirectoryIsFirstVersioned | src/main/win.ts:93 | The versioned sub-directory exists exactly when some name matches, and it is the first matching name. |
| ResolverProperties.FlatLayoutTakesFirstExecutable | src/main/win.ts:77-91 | With the flat marker, the directory resolves exactly when some listed name passes the filter. The result is that first name under the directory. |
| ResolverProperties.VersionedLayoutTakesExecutableFromInstallDir | src/main/win.ts:92-112 | Without the flat marker, the directory resolves exactly when the first versioned name holds the marker and some name passes the filter. The exe is joined under the install directory, not the versioned one. |
| ResolverProperties.NoVersionedDirectoryNoRecord | src/main/win.ts:92-97 | Without the flat marker and with no versioned name listed, there is no app. |
| ResolverProperties.UnlistableInstallDirYieldsNothing | src/main/win.ts:70-75 | A directory whose listing fails is treated as empty, so it yields no app. |
| ResolverProperties.OtherValuesDoNotMatter | src/main/win.ts:49-52 | Inserting a non-REG_SZ value into an entry never changes the decision. |
| ResolverProperties.SameLookupsSameOutcome | src/main/win.ts:41-115 | Two entries whose `DisplayIcon` and `InstallLocation` strings agree are decided alike. |
| ResolverProperties.MarkerBesideExecutableOnlyWhenFlat | src/main/win.ts:77-112 | Take a resolved install directory that is non-empty and has no trailing separator, and whose listed names are all non-empty single segments. The marker beside the chosen exe exists exactly when the flat marker does. In the versioned layout, the exe is not next to the marker that confirmed it. |
| Base64.DigitRoundTrip | src/main/win.ts:31 | Every letter of the base64 alphabet reads back as the value it encodes. |
| Base64.BlockRoundTrip | src/main/win.ts:31 | Splitting three bytes into four sextets and joining them again is lossless. |
| Base64.EncodeLength | src/main/win.ts:31 | `toString('base64')` emits four letters per started group of three bytes. |
| Base64.DecodeEncode | src/main/win.ts:31 | Decoding the base64 text of any bytes gives those bytes back. |
| Apps.IconDataUri | src/main/win.ts:31 | The icon starts with `data:image/x-icon;base64,`, and the rest decodes to the file's bytes. |
| Apps.BuildAppInfo | src/main/win.ts:19-39 | It fails exactly when an icon path was given and cannot be read. Otherwise `id` and `exePath` are the exe and `name` is the `DisplayName` or fallback. The icon is empty without an icon path, else a data URI decoding to the file's bytes. |
| Apps.DisplayName | src/main/win.ts:24-35 | The name is the first REG_SZ `DisplayName`, even an empty one. Without it, the name is a single segment. When the executable's base name ends in `.exe` and is longer than that, the name plus `.exe` is the base name. Otherwise the name is the base name unchanged. |
| Apps.FallbackNameIsStem | src/main/win.ts:35 | Without a `DisplayName`, the app at `dir\stem.exe` is named `stem`, for a non-empty single-segment `stem`. |
| Apps.AppInfoFromValues | src/main/win.ts:41-115 | An empty entry is no app, and "no app" holds exactly when the decision finds none. It fails exactly when the decision found a candidate with a non-empty icon path that cannot be read, and the error names that path. A record's `exePath` is the candidate's executable, with `id == exePath`, an `.exe` ending and the `DisplayName` or fallback name. Its icon is empty without an icon path, else a data URI decoding to the icon file's bytes. |
| Scenarios.PlainVersionMatches | src/main/win.ts:93 | `1.2.3` matches the version pattern. |
| Scenarios.TwoComponentsDoNotMatch | src/main/win.ts:93 | `1.2` does not match the version pattern. |
| Scenarios.HelpersAreDropped | src/main/win.ts:78-84 | Any spelling of `updater.exe` or `uninstall.exe`, in whatever case, fails the filter. |
| Scenarios.ExampleHelpersAreDropped | src/main/win.ts:78-84 | `Updater.exe` and `Uninstall.exe` fail the filter. |
| Scenarios.ExampleAppsAreKept | src/main/win.ts:78-84 | `Bar.exe`, `Baz.exe` and `Foo.exe` pass the filter. |
| Scenarios.VersionDirIsDropped | src/main/win.ts:78-84 | `1.2.3` fails the filter. |
| Scenarios.FlatInstallExample | src/main/win.ts:77-91 | A flat install listing `Updater.exe`, `Uninstall.exe`, `Bar.exe` resolves to `dir\Bar.exe`. |
| Scenarios.VersionedInstallExample | src/main/win.ts:92-112 | An install listing `1.2.3`, `Baz.exe`, with the marker in `1.2.3`, resolves to `dir\Baz.exe`. |
| Scenarios.UnversionedInstallExample | src/main/win.ts:92-97 | An install listing `resources`, `Baz.exe`, with no flat marker, yields no app. |
| Scenarios.DisplayIconExample | src/main/win.ts:54-58 | For a non-empty, comma-free `dir` without a trailing separator, `DisplayIcon = dir\Foo.exe,0` resolves to `dir\Foo.exe` exactly when the marker is under `dir`; otherwise no app, whatever `InstallLocation` says. |
| Scenarios.FallbackNameExample | src/main/win.ts:35 | Without a `DisplayName`, `dir\Qux.exe` is named `Qux`. |

## Left out

- The `registry-js` calls `enumerateKeys` and `enumerateValues` are not modelled as calls. The registry is a snapshot instead, and a key that cannot be opened has no children and no values.
- The file system calls are not modelled as calls either; the file system is a snapshot:
  - `fs.existsSync` is membership in a set of paths;
  - `fs.promises.readdir` is a partial map, and a missing directory is the caught failure;
  - `fs.promises.readFile` is a partial map, and a missing file is a rejected read.
- `console.error` in the caught `readdir` failure is left out; it is output only.
- The code is asynchronous, and several operations may run at once; the model is sequential.
- Apps.AppInfoFromValues: an unreadable icon file becomes a per-entry `Failure`. In the source the rejection propagates through `Promise.all` and rejects the whole scan. Scan.GetAppsOfWin keeps that per-entry slot rather than failing the whole list.
- The `v &&` guards against null registry values are left out: a Dafny sequence has no null elements.
- Paths.Join: Node's `path.join` normalisation is not modelled. It resolves `.` and `..`, collapses repeated separators and rewrites `/` as `\`. `Join` only inserts one `\` when the directory lacks a trailing separator.
- Resolver.MarkerBeside: `path.join(icon, '../resources/electron.asar')` is modelled as the marker under the text before the last separator. This is not the same when the icon path ends in a separator or contains `.`/`..` segments. It also differs for a file in the root: the parent of `\Foo.exe` is the empty text, so the model's marker is `resources\electron.asar` where Node gives `\resources\electron.asar`. The same holds for a drive-relative icon `C:Foo.exe`: the parent is again the empty text, so the model checks `resources\electron.asar` where Node checks `C:resources\electron.asar`.
- Paths.BaseNameWithout: Node ignores trailing separators when taking a base name. Node also returns the empty string when the whole path is exactly `.exe`. Node's `path.win32.basename` also drops a drive prefix, so `C:Foo.exe` gives `Foo` where the model gives `C:Foo`. None of these is modelled.
- Text.ToLower: `toLowerCase` is modelled on ASCII letters only; Unicode case mapping is left out.
- Buffer's `toString('base64')` is given a concrete definition, the standard padded alphabet. The model proves facts about that definition; Node's implementation is not part of this model.
- The `AppInfo` type comes from `src/types`, which is not part of this model. Its four fields are taken from the record built at `src/main/win.ts:33-38`.
- The `// FIXME:` comment at `src/main/win.ts:90` carries no behaviour.
