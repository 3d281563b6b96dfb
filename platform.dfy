/**
 * Classification of the operating system from its (already lower-cased)
 * `os.name`, by ordered substring tests: "win" first, then "mac", then the
 * Unix family.
 */
module Platform {
  import opened Wrappers
  import opened JavaStrings

  datatype OSType = Windows | Unix | Mac

  /** The exceptions the locator can raise. */
  datatype Fault =
    | UnsupportedOperatingSystem  // IllegalStateException thrown by getOS
    | NullLocations               // NullPointerException from searching a null location list

  /**
   * `getOS()` for the lower-cased name `os`. The Unix test asks whether the
   * first "aix" lies at a positive index, so a name that begins with "aix" is
   * Unix only through "nix" or "nux".
   */
  function GetOS(os: string): (r: Result<OSType, Fault>)
    ensures Mentions(os, "win") ==> r == Success(Windows)
    ensures !Mentions(os, "win") && Mentions(os, "mac") ==> r == Success(Mac)
    ensures !Mentions(os, "win") && !Mentions(os, "mac") ==>
      r == (if Mentions(os, "nix") || Mentions(os, "nux") ||
               (Mentions(os, "aix") && !OccursAt(os, "aix", 0))
            then Success(Unix) else Failure(UnsupportedOperatingSystem))
  {
    if IndexOf(os, "win") >= 0 then Success(Windows)
    else if IndexOf(os, "mac") >= 0 then Success(Mac)
    else if IndexOf(os, "nix") >= 0 || IndexOf(os, "nux") >= 0 || IndexOf(os, "aix") > 0 then Success(Unix)
    else Failure(UnsupportedOperatingSystem)
  }

  /** "win" decides before every other test: a name that also names another system is still Windows. */
  lemma WinTakesPrecedence(os: string, other: string)
    ensures GetOS(os + "win" + other) == Success(Windows)
  {
    var s := os + "win" + other;
    assert s[|os|..|os| + 3] == "win";
    assert OccursAt(s, "win", |os|);
  }

  /** Sample names; "darwin" shows that any "win" inside a name decides. */
  lemma KnownNames()
    ensures GetOS("windows 10") == Success(Windows)
    ensures GetOS("mac os x") == Success(Mac)
    ensures GetOS("linux") == Success(Unix)
    ensures GetOS("darwin") == Success(Windows)
  {
    MissingFirstChar("mac os x", "win");
    MissingFirstChar("linux", "win");
    MissingFirstChar("linux", "mac");
    assert OccursAt("linux", "nux", 2);
    assert OccursAt("darwin", "win", 3);
  }

  /** The name "aix" on its own is rejected, because the Unix test wants the first "aix" at a positive index. */
  lemma BareAixRejected()
    ensures GetOS("aix") == Failure(UnsupportedOperatingSystem)
    ensures GetOS("os aix") == Success(Unix)
  {
    MissingFirstChar("aix", "win");
    MissingFirstChar("aix", "mac");
    MissingFirstChar("aix", "nix");
    MissingFirstChar("aix", "nux");
    assert OccursAt("aix", "aix", 0);
    MissingFirstChar("os aix", "win");
    MissingFirstChar("os aix", "mac");
    assert OccursAt("os aix", "aix", 3);
  }

  /**
   * Only the first "aix" matters: a later one does not rescue a name that starts
   * with "aix", while "nux" still does.
   */
  lemma FirstAixDecides()
    ensures GetOS("aix-aix") == Failure(UnsupportedOperatingSystem)
    ensures GetOS("aix linux") == Success(Unix)
  {
    MissingFirstChar("aix-aix", "win");
    MissingFirstChar("aix-aix", "mac");
    MissingFirstChar("aix-aix", "nix");
    MissingFirstChar("aix-aix", "nux");
    assert OccursAt("aix-aix", "aix", 0);
    MissingFirstChar("aix linux", "win");
    MissingFirstChar("aix linux", "mac");
    assert OccursAt("aix linux", "nux", 6);
  }
}
