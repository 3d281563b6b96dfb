/**
 * The per-platform tables of `OS` and the entry points built on them:
 * `getR()`, `getR(folder)`, `getParameters(path)` and `getPossibleExecutables()`.
 * Each entry point first classifies the operating system from its lower-cased
 * name, and fails as `getOS` does when the name is not supported. The two
 * Windows location lists, which the class computes with `windowsLocation` when
 * it is loaded, are parameters here.
 */
module RSetup {
  import opened Wrappers
  import opened JavaStrings
  import opened Platform
  import opened Locator

  const LocationsMac: seq<string> := ["/usr/local/bin/", "/Applications/R.app/Contents/MacOS/R"]
  const LocationsUnix: seq<string> := ["/usr/lib/R/bin", "/usr/bin/", "/usr/share/R/share"]

  const ExecutablesMac: seq<string> := ["R", "R.app"]
  const ExecutablesUnix: seq<string> := ["R", "exec"]
  const ExecutablesWindows: seq<string> := ["R.exe"]

  /** The executable names tried on a platform. */
  function Executables(os: OSType): (r: seq<string>)
    ensures |r| >= 1 && r[0] == (if os == Windows then "R.exe" else "R")
  {
    match os
    case Mac => ExecutablesMac
    case Unix => ExecutablesUnix
    case Windows => ExecutablesWindows
  }

  /** `getPossibleExecutables()`. */
  function GetPossibleExecutables(osName: string): (r: Result<seq<string>, Fault>)
    ensures r.Failure? <==> GetOS(osName).Failure?
    ensures r.Failure? ==> r.error == UnsupportedOperatingSystem
    ensures r.Success? ==> r.value != [] && ("R.exe" in r.value <==> GetOS(osName) == Success(Windows))
    ensures GetOS(osName) == Success(Windows) ==> r == Success(["R.exe"])
    ensures GetOS(osName) == Success(Mac) ==> r == Success(["R", "R.app"])
    ensures GetOS(osName) == Success(Unix) ==> r == Success(["R", "exec"])
  {
    var os :- GetOS(osName);
    Success(Executables(os))
  }

  /** `ArrayUtils.addAll(a, b)`: the concatenation, a null array counting as empty; null only when both are. */
  function AddAll<T>(a: Option<seq<T>>, b: Option<seq<T>>): (r: Option<seq<T>>)
    ensures r.None? <==> a.None? && b.None?
    ensures r.Some? ==> |r.value| == (if a.Some? then |a.value| else 0) + (if b.Some? then |b.value| else 0)
    ensures r.Some? && a.Some? ==> r.value[..|a.value|] == a.value
    ensures r.Some? && b.Some? ==> r.value[|r.value| - |b.value|..] == b.value
  {
    match (a, b)
    case (None, None) => None
    case (Some(x), None) => Some(x)
    case (None, Some(y)) => Some(y)
    case (Some(x), Some(y)) => Some(x + y)
  }

  /**
   * The locations `getR()` searches. On Windows they are the primary list
   * alone when the x86 list is null (a null primary list then makes the search
   * throw), and otherwise the primary list followed by the x86 list.
   */
  function Locations(os: OSType, windows: Option<seq<string>>, windowsX86: Option<seq<string>>)
    : (r: Result<seq<string>, Fault>)
    ensures r.Failure? <==> os == Windows && windows.None? && windowsX86.None?
    ensures r.Failure? ==> r.error == NullLocations
    ensures os == Mac ==> r == Success(LocationsMac)
    ensures os == Unix ==> r == Success(LocationsUnix)
    ensures os == Windows && r.Success? ==>
      |r.value| == (if windows.Some? then |windows.value| else 0) + (if windowsX86.Some? then |windowsX86.value| else 0)
    ensures os == Windows && windows.Some? ==> r.Success? && r.value[..|windows.value|] == windows.value
    ensures os == Windows && windowsX86.Some? ==>
      r.Success? && r.value[|r.value| - |windowsX86.value|..] == windowsX86.value
  {
    match os
    case Mac => Success(LocationsMac)
    case Unix => Success(LocationsUnix)
    case Windows =>
      if windowsX86.None? then
        if windows.None? then Failure(NullLocations) else Success(windows.value)
      else
        Success(AddAll(windows, windowsX86).value)
  }

  /**
   * `getR()`: the path of the first runnable R executable among the
   * locations and executable names, `None` when there is none.
   */
  method GetR(host: Host, osName: string, windows: Option<seq<string>>, windowsX86: Option<seq<string>>, sep: string)
    returns (r: Result<Option<string>, Fault>)
    ensures GetOS(osName).Failure? ==> r == Failure(UnsupportedOperatingSystem)
    ensures GetOS(osName).Success? && Locations(GetOS(osName).value, windows, windowsX86).Failure? ==>
      r == Failure(NullLocations)
    ensures GetOS(osName).Success? && Locations(GetOS(osName).value, windows, windowsX86).Success? ==>
      r == Success(Search(host, Locations(GetOS(osName).value, windows, windowsX86).value,
                          Executables(GetOS(osName).value), sep))
  {
    var os :- GetOS(osName);
    var path: Option<string>;
    match os {
      case Mac =>
        path := GetPath(host, LocationsMac, ExecutablesMac, sep);
      case Unix =>
        path := GetPath(host, LocationsUnix, ExecutablesUnix, sep);
      case Windows =>
        if windowsX86.None? {
          if windows.None? {
            // getPath iterates over a null array
            return Failure(NullLocations);
          }
          path := GetPath(host, windows.value, ExecutablesWindows, sep);
        } else {
          var finalLocations := AddAll(windows, windowsX86);
          path := GetPath(host, finalLocations.value, ExecutablesWindows, sep);
        }
    }
    return Success(path);
  }

  /** `getR(folder)`: the same search, over the single location `folder`. */
  method GetRIn(host: Host, osName: string, folder: string, sep: string)
    returns (r: Result<Option<string>, Fault>)
    ensures GetOS(osName).Failure? ==> r == Failure(UnsupportedOperatingSystem)
    ensures GetOS(osName).Success? ==>
      r == Success(SearchRow(host, Dir(folder, sep), Executables(GetOS(osName).value)))
  {
    var os :- GetOS(osName);
    var path := GetPath(host, [folder], Executables(os), sep);
    assert [folder][1..] == [];
    return Success(path);
  }

  /**
   * `getParameters(path)`: the command line R is started with: the path, then
   * "--vanilla" and "--quiet", then "--ess" on Windows and "--interactive" elsewhere.
   */
  function GetParameters(osName: string, path: string): (r: Result<seq<string>, Fault>)
    ensures r.Failure? <==> GetOS(osName).Failure?
    ensures r.Failure? ==> r.error == UnsupportedOperatingSystem
    ensures r.Success? ==> |r.value| == 4 && r.value[..3] == [path, "--vanilla", "--quiet"]
    ensures r.Success? ==> (r.value[3] == "--ess" <==> GetOS(osName) == Success(Windows))
    ensures r.Success? ==> (r.value[3] == "--interactive" <==> GetOS(osName) != Success(Windows))
  {
    var os :- GetOS(osName);
    match os
    case Mac => Success([path, "--vanilla", "--quiet", "--interactive"])
    case Unix => Success([path, "--vanilla", "--quiet", "--interactive"])
    case Windows => Success([path, "--vanilla", "--quiet", "--ess"])
  }

  /**
   * On Windows the primary list is searched completely before the x86 list:
   * a runnable R among the primary locations is always the one returned, and
   * the x86 locations are consulted only when there is none.
   */
  lemma WindowsPrimaryFirst(host: Host, windows: seq<string>, windowsX86: Option<seq<string>>, sep: string)
    ensures Locations(Windows, Some(windows), windowsX86).Success?
    ensures Search(host, Locations(Windows, Some(windows), windowsX86).value, ExecutablesWindows, sep)
         == if windowsX86.None? || Search(host, windows, ExecutablesWindows, sep).Some?
            then Search(host, windows, ExecutablesWindows, sep)
            else Search(host, windowsX86.value, ExecutablesWindows, sep)
  {
    if windowsX86.Some? {
      SearchAppend(host, windows, windowsX86.value, ExecutablesWindows, sep);
    }
  }

  /**
   * An x86 list that is present but empty behaves as an absent one, unless the
   * primary list is absent too: then the absent x86 list makes `getR()` throw,
   * where the empty one yields "not found".
   */
  lemma EmptyVersusAbsentX86(windows: Option<seq<string>>)
    ensures windows.Some? ==> Locations(Windows, windows, Some([])) == Locations(Windows, windows, None)
    ensures windows.None? ==> Locations(Windows, windows, None) == Failure(NullLocations)
    ensures windows.None? ==> Locations(Windows, windows, Some([])) == Success([])
  {
    if windows.Some? {
      assert windows.value + [] == windows.value;
    }
  }
}
