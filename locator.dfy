/**
 * `getPath`: the search for a runnable R executable over a list of locations
 * and a list of executable names, locations in the outer loop and names in
 * the inner one. The filesystem and process calls it makes are the oracles
 * of a `Host`.
 */
module Locator {
  import opened Wrappers
  import opened JavaStrings

  /**
   * What the search asks of its surroundings, for a path string:
   * - `fileExists`: `File.exists()`;
   * - `canonical`: `File.getCanonicalPath()`, `None` when it throws;
   * - `starts`: whether `new ProcessBuilder(argv).start()` succeeds.
   */
  datatype Host = Host(
    fileExists: string -> bool,
    canonical: string -> Option<string>,
    starts: seq<string> -> bool)

  /** The location as a directory prefix: a separator is added unless it already ends with one. */
  function Dir(location: string, sep: string): (d: string)
    ensures location <= d && EndsWith(d, sep)
    ensures |d| <= |location| + |sep|
    ensures EndsWith(location, sep) ==> d == location
    ensures !EndsWith(location, sep) ==> d == location + sep
  {
    if EndsWith(location, sep) then location
    else
      EndsWithAppended(location, sep);
      location + sep
  }

  /** The path probed for one (location, executable) pair. */
  function Candidate(location: string, sep: string, executable: string): string {
    Dir(location, sep) + executable
  }

  /**
   * A candidate is accepted when the file exists, its canonical path can be
   * computed, and R can be started from it with "--vanilla"; any exception on
   * the way rejects only this candidate.
   */
  predicate Accepts(host: Host, file: string) {
    && host.fileExists(file)
    && host.canonical(file).Some?
    && host.starts([host.canonical(file).value, "--vanilla"])
  }

  /** The path `getPath` returns for an accepted candidate. */
  function CanonicalOf(host: Host, file: string): string
    requires Accepts(host, file)
  {
    host.canonical(file).value
  }

  /** The inner loop: the first accepted executable in one directory. */
  function SearchRow(host: Host, dir: string, executables: seq<string>): Option<string>
  {
    if executables == [] then None
    else if Accepts(host, dir + executables[0]) then Some(CanonicalOf(host, dir + executables[0]))
    else SearchRow(host, dir, executables[1..])
  }

  /** Both loops: the first accepted candidate, location-major, executable-minor. */
  function Search(host: Host, locations: seq<string>, executables: seq<string>, sep: string): Option<string>
  {
    if locations == [] then None
    else
      match SearchRow(host, Dir(locations[0], sep), executables)
      case Some(path) => Some(path)
      case None => Search(host, locations[1..], executables, sep)
  }

  /** Pair (i0, j0) is visited before pair (i, j). */
  predicate Earlier(i0: int, j0: int, i: int, j: int) {
    i0 < i || (i0 == i && j0 < j)
  }

  /** (i, j) is accepted and no pair visited before it is. */
  ghost predicate FirstAccepted(host: Host, locations: seq<string>, executables: seq<string>, sep: string, i: int, j: int) {
    && 0 <= i < |locations| && 0 <= j < |executables|
    && Accepts(host, Candidate(locations[i], sep, executables[j]))
    && forall i0, j0 {:trigger Earlier(i0, j0, i, j)} ::
         0 <= i0 < |locations| && 0 <= j0 < |executables| && Earlier(i0, j0, i, j) ==>
           !Accepts(host, Candidate(locations[i0], sep, executables[j0]))
  }

  /** No (location, executable) pair is accepted. */
  ghost predicate NoneAccepted(host: Host, locations: seq<string>, executables: seq<string>, sep: string) {
    forall i, j :: 0 <= i < |locations| && 0 <= j < |executables| ==>
      !Accepts(host, Candidate(locations[i], sep, executables[j]))
  }

  /**
   * `getPath(locations, executables)`: returns the canonical path of the
   * first accepted candidate, or `None` (the Java `null`) if there is none.
   */
  method GetPath(host: Host, locations: seq<string>, executables: seq<string>, sep: string)
    returns (r: Option<string>)
    ensures r == Search(host, locations, executables, sep)
  {
    for i := 0 to |locations|
      invariant Search(host, locations[i..], executables, sep) == Search(host, locations, executables, sep)
    {
      var location := locations[i];
      if !EndsWith(location, sep) {
        location := location + sep;
      }
      assert location == Dir(locations[i], sep);
      for j := 0 to |executables|
        invariant SearchRow(host, location, executables[j..]) == SearchRow(host, location, executables)
      {
        var file := location + executables[j];
        if host.fileExists(file) {
          // getCanonicalPath is asked twice, for the probe and for the result; as an
          // oracle it gives the same answer both times
          var canonical := host.canonical(file);
          if canonical.Some? && host.starts([canonical.value, "--vanilla"]) {
            assert executables[j..][1..] == executables[j + 1..];
            assert locations[i..][1..] == locations[i + 1..];
            return canonical;
          }
        }
        assert executables[j..][1..] == executables[j + 1..];
      }
      assert locations[i..][1..] == locations[i + 1..];
    }
    return None;
  }

  /** Within one row: nothing is found exactly when no executable is accepted. */
  lemma {:induction false} SearchRowNone(host: Host, dir: string, executables: seq<string>)
    ensures SearchRow(host, dir, executables).None? <==>
      forall j :: 0 <= j < |executables| ==> !Accepts(host, dir + executables[j])
  {
    if executables != [] {
      SearchRowNone(host, dir, executables[1..]);
      assert forall j :: 1 <= j < |executables| ==> executables[1..][j - 1] == executables[j];
    }
  }

  /** Within one row: the first accepted executable is the one reported. */
  lemma {:induction false} SearchRowFirst(host: Host, dir: string, executables: seq<string>, j: int)
    requires 0 <= j < |executables| && Accepts(host, dir + executables[j])
    requires forall j0 :: 0 <= j0 < j ==> !Accepts(host, dir + executables[j0])
    ensures SearchRow(host, dir, executables) == Some(CanonicalOf(host, dir + executables[j]))
  {
    if j > 0 {
      SearchRowFirst(host, dir, executables[1..], j - 1);
    }
  }

  /** Within one row: what is reported comes from the first accepted executable. */
  lemma {:induction false} SearchRowFound(host: Host, dir: string, executables: seq<string>)
    requires SearchRow(host, dir, executables).Some?
    ensures exists j ::
      && 0 <= j < |executables| && Accepts(host, dir + executables[j])
      && (forall j0 :: 0 <= j0 < j ==> !Accepts(host, dir + executables[j0]))
      && SearchRow(host, dir, executables) == Some(CanonicalOf(host, dir + executables[j]))
  {
    if !Accepts(host, dir + executables[0]) {
      SearchRowFound(host, dir, executables[1..]);
      var j :| && 0 <= j < |executables[1..]| && Accepts(host, dir + executables[1..][j])
               && (forall j0 :: 0 <= j0 < j ==> !Accepts(host, dir + executables[1..][j0]))
               && SearchRow(host, dir, executables[1..]) == Some(CanonicalOf(host, dir + executables[1..][j]));
      assert forall j0 :: 1 <= j0 < j + 1 ==> executables[j0] == executables[1..][j0 - 1];
      assert Accepts(host, dir + executables[j + 1]);
    } else {
      assert Accepts(host, dir + executables[0]);
    }
  }

  /** `getPath` returns `null` exactly when no (location, executable) pair is accepted. */
  lemma {:induction false} SearchNone(host: Host, locations: seq<string>, executables: seq<string>, sep: string)
    ensures Search(host, locations, executables, sep).None? <==> NoneAccepted(host, locations, executables, sep)
  {
    if locations != [] {
      SearchRowNone(host, Dir(locations[0], sep), executables);
      SearchNone(host, locations[1..], executables, sep);
      assert forall i :: 1 <= i < |locations| ==> locations[1..][i - 1] == locations[i];
    }
  }

  /** Whatever `getPath` returns is the canonical path of the first accepted pair. */
  lemma {:induction false} SearchFound(host: Host, locations: seq<string>, executables: seq<string>, sep: string)
    requires Search(host, locations, executables, sep).Some?
    ensures exists i, j ::
      && FirstAccepted(host, locations, executables, sep, i, j)
      && Search(host, locations, executables, sep) ==
           Some(CanonicalOf(host, Candidate(locations[i], sep, executables[j])))
  {
    var dir := Dir(locations[0], sep);
    if SearchRow(host, dir, executables).Some? {
      SearchRowFound(host, dir, executables);
      var j :| && 0 <= j < |executables| && Accepts(host, dir + executables[j])
               && (forall j0 :: 0 <= j0 < j ==> !Accepts(host, dir + executables[j0]))
               && SearchRow(host, dir, executables) == Some(CanonicalOf(host, dir + executables[j]));
      assert FirstAccepted(host, locations, executables, sep, 0, j);
    } else {
      SearchRowNone(host, dir, executables);
      var rest := locations[1..];
      SearchFound(host, rest, executables, sep);
      var i, j :| && FirstAccepted(host, rest, executables, sep, i, j)
                  && Search(host, rest, executables, sep) ==
                       Some(CanonicalOf(host, Candidate(rest[i], sep, executables[j])));
      forall i0, j0 | 0 <= i0 < |locations| && 0 <= j0 < |executables| && Earlier(i0, j0, i + 1, j)
        ensures !Accepts(host, Candidate(locations[i0], sep, executables[j0]))
      {
        if i0 > 0 {
          assert locations[i0] == rest[i0 - 1] && Earlier(i0 - 1, j0, i, j);
        }
      }
      assert locations[i + 1] == rest[i];
      assert FirstAccepted(host, locations, executables, sep, i + 1, j);
    }
  }

  /** At most one pair is the first accepted one. */
  lemma FirstAcceptedUnique(host: Host, locations: seq<string>, executables: seq<string>, sep: string, i: int, j: int, k: int, m: int)
    requires FirstAccepted(host, locations, executables, sep, i, j)
    requires FirstAccepted(host, locations, executables, sep, k, m)
    ensures i == k && j == m
  {
    assert Earlier(k, m, i, j) || Earlier(i, j, k, m) || (i == k && j == m);
  }

  /** The first accepted pair, in location-major order, is the one whose canonical path is returned. */
  lemma SearchFirst(host: Host, locations: seq<string>, executables: seq<string>, sep: string, i: int, j: int)
    requires FirstAccepted(host, locations, executables, sep, i, j)
    ensures Search(host, locations, executables, sep) ==
      Some(CanonicalOf(host, Candidate(locations[i], sep, executables[j])))
  {
    SearchNone(host, locations, executables, sep);
    SearchFound(host, locations, executables, sep);
    var k, m :| && FirstAccepted(host, locations, executables, sep, k, m)
                && Search(host, locations, executables, sep) ==
                     Some(CanonicalOf(host, Candidate(locations[k], sep, executables[m])));
    FirstAcceptedUnique(host, locations, executables, sep, i, j, k, m);
  }

  /** Searching a concatenation searches the first list completely before the second. */
  lemma {:induction false} SearchAppend(host: Host, first: seq<string>, second: seq<string>, executables: seq<string>, sep: string)
    ensures Search(host, first + second, executables, sep) ==
      if Search(host, first, executables, sep).Some? then Search(host, first, executables, sep)
      else Search(host, second, executables, sep)
  {
    if first != [] {
      assert (first + second)[0] == first[0];
      assert (first + second)[1..] == first[1..] + second;
      SearchAppend(host, first[1..], second, executables, sep);
    } else {
      assert first + second == second;
    }
  }
}
