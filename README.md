# Finding the R executable: a Dafny model of `OS.java`

ARX starts an interactive R process for its terminal tab. Before it does, the
class `org.deidentifier.arx.r.OS` works out where R is installed. This project
models that discovery logic and proves what it does:

- **Platform classification** (`getOS`). The lower-cased operating-system name
  is checked in a fixed order. Containing "win" means Windows. Otherwise,
  containing "mac" means Mac. Otherwise, containing "nix" or "nux", or containing "aix" but not at
  index 0, means Unix (`indexOf` gives the first occurrence). Any other name
  raises "Unsupported operating system". Because "win" is checked first,
  "darwin" is classified as Windows. Because of `indexOf("aix") > 0`, a name
  that begins with "aix" is Unix only through "nix" or "nux": the bare name
  "aix" is rejected (`Platform.BareAixRejected`), and so is "aix-aix"
  (`Platform.FirstAixDecides`).
- **Candidate search** (`getPath`). Locations form the outer loop and
  executable names the inner loop. A separator is appended to each location
  unless it already ends with one. The search returns the canonical path of the
  first candidate that exists and can be started with `--vanilla`, or `null`.
  An exception while probing a candidate only moves the search on. The
  filesystem and process calls are oracles of a `Host` value, and the separator
  is a parameter.
- **Windows location scan** (`windowsLocation`). The installation root is
  listed. The scan returns `null` when the listing is absent. Otherwise it
  returns every grandchild, below a directory child, whose path contains "bin",
  in listing order. The directory tree is given as data (`WindowsScan.Entry`).
- **Platform tables and entry points** (`getR()`, `getR(folder)`,
  `getParameters`, `getPossibleExecutables`). These are the static location and
  executable lists, the Windows rule that joins the primary and x86 location
  lists, and the four-element command line.

Three behaviours of the code are easy to miss:

- On Windows, the code falls back to the primary list only when the x86 list is
  `null`, not when that list is empty.
- When both Windows lists are `null`, `getR()` throws a `NullPointerException`
  (`getPath` iterates over a null array) rather than reporting "not found".
  This is modelled as `Failure(NullLocations)`. `RSetup.EmptyVersusAbsentX86`
  spells out how an empty list and an absent one differ.
- The "aix" test looks only at the first occurrence: a name counts as Unix
  through "aix" when it contains "aix" but not at index 0. A name that begins
  with "aix" is Unix only through "nix" or "nux", so "aix" and "aix-aix" are
  rejected while "aix linux" is Unix.

Modules, one file each: `Wrappers` (Option, Result), `JavaStrings` (`indexOf`,
`endsWith`), `Platform` (`getOS`), `Locator` (`getPath`), `WindowsScan`
(`windowsLocation`), `RSetup` (tables and entry points). The imperative parts of
the source are methods with loops, each proved against a specification
function. These are `Locator.GetPath` against `Locator.Search`, and
`WindowsScan.WindowsLocation` against `WindowsScan.Scan`. The branch-and-return
parts of the source are functions.

## Model

| member | source | states |
|---|---|---|
| `JavaStrings.IndexOfFrom` | src/gui/org/deidentifier/arx/r/OS.java:102-106 | the result is -1 or an occurrence at or after the start index, and no occurrence lies between the start index and the result (or anywhere after the start index, when the result is -1) |
| `JavaStrings.IndexOf` | src/gui/org/deidentifier/arx/r/OS.java:102-106 | the result is at least -1; `indexOf >= 0` holds exactly when the substring occurs somewhere, and the result is then its first occurrence; `indexOf > 0` holds exactly when it occurs but not at index 0 |
| `Platform.GetOS` | src/gui/org/deidentifier/arx/r/OS.java:98-111 | a name containing "win" is Windows; otherwise one containing "mac" is Mac; otherwise it is Unix exactly when it contains "nix" or "nux", or contains "aix" but does not start with it; every other name fails with UnsupportedOperatingSystem |
| `Platform.WinTakesPrecedence` | src/gui/org/deidentifier/arx/r/OS.java:102-103 | any name with "win" inside is Windows, whatever else it contains |
| `Platform.KnownNames` | src/gui/org/deidentifier/arx/r/OS.java:102-107 | "windows 10" is Windows, "mac os x" is Mac, "linux" is Unix, and "darwin" is Windows because it contains "win" |
| `Platform.BareAixRejected` | src/gui/org/deidentifier/arx/r/OS.java:106-110 | the name "aix" is rejected as unsupported, while "os aix" is Unix |
| `Platform.FirstAixDecides` | src/gui/org/deidentifier/arx/r/OS.java:106-110 | only the first "aix" is looked at: "aix-aix" is rejected as unsupported, while "aix linux" is Unix through "nux" |
| `Locator.Dir` | src/gui/org/deidentifier/arx/r/OS.java:166-168 | the directory prefix starts with the location, ends with the separator and is at most one separator longer; the separator is added exactly when the location does not already end with it |
| `Locator.GetPath` | src/gui/org/deidentifier/arx/r/OS.java:162-193 | the nested loop, with its early return, returns the result of the location-major, executable-minor search `Search` |
| `Locator.SearchRowNone` | src/gui/org/deidentifier/arx/r/OS.java:171-188 | within one location, nothing is found exactly when no executable name is accepted |
| `Locator.SearchRowFirst` | src/gui/org/deidentifier/arx/r/OS.java:171-188 | within one location, the first accepted executable name gives the result |
| `Locator.SearchRowFound` | src/gui/org/deidentifier/arx/r/OS.java:171-188 | within one location, a found path is the canonical path of an accepted executable name before which none is accepted |
| `Locator.SearchNone` | src/gui/org/deidentifier/arx/r/OS.java:165-192 | `getPath` returns null exactly when no (location, executable) pair exists, canonicalises and starts; a pair that fails at any step does not stop the search |
| `Locator.SearchFirst` | src/gui/org/deidentifier/arx/r/OS.java:165-183 | if (i, j) is accepted and no pair earlier in location-major order is, then the canonical path of candidate (i, j) is returned |
| `Locator.SearchFound` | src/gui/org/deidentifier/arx/r/OS.java:165-183 | a returned path is the canonical path of an accepted pair before which, in location-major order, no pair is accepted |
| `Locator.FirstAcceptedUnique` | src/gui/org/deidentifier/arx/r/OS.java:165-171 | at most one pair is accepted with no accepted pair before it in location-major order |
| `Locator.SearchAppend` | src/gui/org/deidentifier/arx/r/OS.java:165-189 | searching a concatenation of location lists finishes the first list before it looks at the second |
| `WindowsScan.WindowsLocation` | src/gui/org/deidentifier/arx/r/OS.java:71-91 | the result is null exactly when the root listing is absent; otherwise it is `Scan` of the listing: the "bin" grandchildren below directory children, in listing order |
| `WindowsScan.AppendBinPaths` | src/gui/org/deidentifier/arx/r/OS.java:78-82 | the inner loop leaves the list it appends to followed by exactly the "bin" paths among the grandchildren, in listing order |
| `WindowsScan.ToArray` | src/gui/org/deidentifier/arx/r/OS.java:86-89 | the copy loop yields a fresh array holding the collected paths in the same order |
| `WindowsScan.BinPathsAppend` | src/gui/org/deidentifier/arx/r/OS.java:79-82 | filtering a list split in two gives the filtered first part followed by the filtered second part |
| `WindowsScan.BinPathsMembers` | src/gui/org/deidentifier/arx/r/OS.java:79-82 | a grandchild is kept exactly when it is listed and its path contains "bin" |
| `WindowsScan.ScanAppend` | src/gui/org/deidentifier/arx/r/OS.java:76-85 | the scan of a listing split in two is the scan of the first part followed by the scan of the second |
| `WindowsScan.ScanMembers` | src/gui/org/deidentifier/arx/r/OS.java:72-90 | a path is returned exactly when it is a child of some directory entry of the root and contains "bin" |
| `RSetup.Executables` | src/gui/org/deidentifier/arx/r/OS.java:59-64 | every platform has at least one executable name; the first is "R.exe" on Windows and "R" elsewhere |
| `RSetup.GetPossibleExecutables` | src/gui/org/deidentifier/arx/r/OS.java:215-226 | fails exactly when the platform is unsupported; otherwise it is `["R.exe"]` on Windows, `["R", "R.app"]` on Mac and `["R", "exec"]` on Unix, so "R.exe" appears exactly on Windows |
| `RSetup.AddAll` | src/gui/org/deidentifier/arx/r/OS.java:130 | the result is null only when both arrays are null; otherwise its length is the sum of the lengths, with the first array as a prefix and the second as a suffix |
| `RSetup.Locations` | src/gui/org/deidentifier/arx/r/OS.java:118-135 | Mac and Unix use their static lists. On Windows the primary list comes first, then the x86 list. The result fails with NullLocations exactly when both Windows lists are null |
| `RSetup.GetR` | src/gui/org/deidentifier/arx/r/OS.java:118-136 | an unsupported platform fails; otherwise, if both Windows lists are null the result is NullLocations, and if not it is the search over the platform's locations and executable names |
| `RSetup.GetRIn` | src/gui/org/deidentifier/arx/r/OS.java:144-155 | an unsupported platform fails; otherwise the result is the first accepted executable name in the one folder |
| `RSetup.GetParameters` | src/gui/org/deidentifier/arx/r/OS.java:201-213 | fails exactly for an unsupported platform; otherwise the command line is the path, "--vanilla", "--quiet", then "--ess" exactly on Windows and "--interactive" exactly elsewhere |
| `RSetup.WindowsPrimaryFirst` | src/gui/org/deidentifier/arx/r/OS.java:126-132 | on Windows a runnable R among the primary locations is always the one returned; the x86 locations decide only when the primary ones hold none |
| `RSetup.EmptyVersusAbsentX86` | src/gui/org/deidentifier/arx/r/OS.java:127-131 | an empty x86 list behaves like a null one when the primary list is present. When the primary list is null, a null x86 list fails with NullLocations, while an empty one gives no locations |

## Left out

- The R process session, the bounded output buffer and the change notifier (`RIntegration`, `RBuffer`, `RListener`) are not part of this model. The terminal only constructs them (src/gui/org/deidentifier/arx/r/terminal/TestTerminal.java:56-71), and their logic is concurrent I/O.
- The terminal tab and window wiring in `TestTerminal` is not modelled. It is user-interface code with no logic of its own.
- Reading `os.name` with `System.getProperty` and lower-casing it are left out. The entry points take the already lower-cased name.
- `File.separator` is platform-dependent. It is a parameter.
- Loading the class computes the two Windows location lists with `windowsLocation` (OS.java:56-57). This static initialisation is not modelled: the lists are parameters of `RSetup.GetR`, obtained by calling `WindowsScan.WindowsLocation` on each root.
- The filesystem and process calls are oracles of `Locator.Host`, not implementations. These are `File.exists`, `getCanonicalPath`, `ProcessBuilder.start` and `File.listFiles`.
- `getPath` calls `getCanonicalPath` twice. The oracle is deterministic, so the model treats both calls as giving the same answer.
- Terminating the probe process with `destroy()` has no observable effect in the model, so it is left out.
- `new File(...)` normalises paths. This is absorbed into the oracles, which receive the raw candidate string.
- The `default` branches that throw "Unknown operating system" cannot be reached, because the platform type has three constructors.
- `WindowsScan.WindowsLocation` requires every directory child of the root to be listable. The code dereferences that listing without a check (OS.java:78-79), so a null listing would throw `NullPointerException`.
- `getPossibleExecutables` returns the private static executable arrays themselves, so a caller that wrote into one would change later `getR()` searches. The model's lists are values and cannot express this aliasing; no code in this model writes into them.
- Null array elements and null strings are not modelled. The code guards against some of them, and the listings it receives never contain them.
