/**
 * `windowsLocation(dir)`: the candidate R locations under one Windows
 * installation root. The listing of the root is given as data; a directory child
 * carries the path strings of its own entries.
 */
module WindowsScan {
  import opened Wrappers
  import opened JavaStrings

  /**
   * One entry of the listing of the root: its path (it stands for the child `File`;
   * the scan itself only reads the grandchildren's own path strings), whether it is
   * a directory, and (for a directory) the path strings of its children, `None`
   * when `listFiles()` returns null.
   */
  datatype Entry = Entry(path: string, isDirectory: bool, children: Option<seq<string>>)

  /** Every directory entry could be listed (the code dereferences the listing unchecked). */
  predicate Listable(files: seq<Entry>) {
    forall i :: 0 <= i < |files| && files[i].isDirectory ==> files[i].children.Some?
  }

  /** The paths among `paths` that contain "bin", in order. */
  function BinPaths(paths: seq<string>): seq<string> {
    if paths == [] then []
    else (if IndexOf(paths[0], "bin") >= 0 then [paths[0]] else []) + BinPaths(paths[1..])
  }

  /**
   * What one entry of the listing contributes: the "bin" paths among its
   * children when it is a directory. (The method that uses it requires
   * every directory to be listable.)
   */
  function Contribution(entry: Entry): seq<string> {
    if entry.isDirectory && entry.children.Some? then BinPaths(entry.children.value) else []
  }

  /** The contributions of all entries, in listing order. */
  function Scan(files: seq<Entry>): seq<string> {
    if files == [] then [] else Contribution(files[0]) + Scan(files[1..])
  }

  /**
   * `windowsLocation`: `None` (the Java `null`) when the root cannot be listed;
   * otherwise every "bin" grandchild below a directory child, in listing order.
   */
  method WindowsLocation(root: Option<seq<Entry>>) returns (r: Option<seq<string>>)
    requires root.Some? ==> Listable(root.value)
    ensures r.None? <==> root.None?
    ensures r.Some? ==> r.value == Scan(root.value)
  {
    if root.None? {
      return None;
    }
    var files := root.value;
    var temp: seq<string> := [];
    for i := 0 to |files|
      invariant temp == Scan(files[..i])
    {
      ScanStep(files, i);
      if files[i].isDirectory {
        temp := AppendBinPaths(temp, files[i].children.value);
      }
    }
    assert files[..|files|] == files;
    var stringArray := ToArray(temp);
    return Some(stringArray[..]);
  }

  /** The inner loop: appends to `temp` the paths among `elems` that contain "bin", in order. */
  method AppendBinPaths(temp: seq<string>, elems: seq<string>) returns (r: seq<string>)
    ensures r == temp + BinPaths(elems)
  {
    r := temp;
    for k := 0 to |elems|
      invariant r == temp + BinPaths(elems[..k])
    {
      BinPathsStep(elems, k);
      if IndexOf(elems[k], "bin") >= 0 {
        assert r + [elems[k]] == temp + (BinPaths(elems[..k]) + [elems[k]]);
        r := r + [elems[k]];
      } else {
        assert BinPaths(elems[..k + 1]) == BinPaths(elems[..k]) + [];
      }
    }
    assert elems[..|elems|] == elems;
  }

  /** The copy of the collected list into a fresh `String[]`. */
  method ToArray(list: seq<string>) returns (a: array<string>)
    ensures fresh(a) && a[..] == list
  {
    a := new string[|list|];
    for i := 0 to a.Length
      invariant a[..i] == list[..i]
    {
      a[i] := list[i];
    }
  }

  /** Filtering a list in two parts gives the two results one after the other. */
  lemma {:induction false} BinPathsAppend(first: seq<string>, second: seq<string>)
    ensures BinPaths(first + second) == BinPaths(first) + BinPaths(second)
  {
    if first == [] {
      assert first + second == second;
    } else {
      var head := if IndexOf(first[0], "bin") >= 0 then [first[0]] else [];
      assert (first + second)[0] == first[0];
      assert (first + second)[1..] == first[1..] + second;
      BinPathsAppend(first[1..], second);
      calc {
        BinPaths(first + second);
        head + BinPaths(first[1..] + second);
        head + (BinPaths(first[1..]) + BinPaths(second));
        (head + BinPaths(first[1..])) + BinPaths(second);
      }
    }
  }

  /** One more path considered by the inner loop. */
  lemma BinPathsStep(paths: seq<string>, k: int)
    requires 0 <= k < |paths|
    ensures BinPaths(paths[..k + 1]) ==
      BinPaths(paths[..k]) + (if IndexOf(paths[k], "bin") >= 0 then [paths[k]] else [])
  {
    assert paths[..k + 1] == paths[..k] + [paths[k]];
    BinPathsAppend(paths[..k], [paths[k]]);
    assert [paths[k]][1..] == [];
  }

  /** One more entry considered by the outer loop. */
  lemma ScanStep(files: seq<Entry>, i: int)
    requires 0 <= i < |files|
    ensures Scan(files[..i + 1]) == Scan(files[..i]) + Contribution(files[i])
  {
    assert files[..i + 1] == files[..i] + [files[i]];
    ScanAppend(files[..i], [files[i]]);
    assert [files[i]][1..] == [];
  }

  /** A path is kept exactly when it is among `paths` and contains "bin". */
  lemma {:induction false} BinPathsMembers(paths: seq<string>, p: string)
    ensures p in BinPaths(paths) <==> p in paths && Mentions(p, "bin")
  {
    if paths != [] {
      BinPathsMembers(paths[1..], p);
      assert paths == [paths[0]] + paths[1..];
    }
  }

  /** Scanning a listing in two parts gives the two results one after the other. */
  lemma {:induction false} ScanAppend(first: seq<Entry>, second: seq<Entry>)
    ensures Scan(first + second) == Scan(first) + Scan(second)
  {
    if first == [] {
      assert first + second == second;
    } else {
      assert (first + second)[1..] == first[1..] + second;
      ScanAppend(first[1..], second);
    }
  }

  /**
   * A path is returned exactly when it is a child of a directory entry of the
   * listing and contains "bin".
   */
  lemma {:induction false} ScanMembers(files: seq<Entry>, p: string)
    requires Listable(files)
    ensures p in Scan(files) <==>
      exists i :: 0 <= i < |files| && files[i].isDirectory && p in files[i].children.value && Mentions(p, "bin")
  {
    if files != [] {
      var rest := files[1..];
      ScanMembers(rest, p);
      if files[0].isDirectory {
        BinPathsMembers(files[0].children.value, p);
      }
      if exists i :: 0 <= i < |files| && files[i].isDirectory && p in files[i].children.value && Mentions(p, "bin") {
        var i :| 0 <= i < |files| && files[i].isDirectory && p in files[i].children.value && Mentions(p, "bin");
        if i > 0 {
          assert rest[i - 1] == files[i];
        }
      }
      if exists i :: 0 <= i < |rest| && rest[i].isDirectory && p in rest[i].children.value && Mentions(p, "bin") {
        var i :| 0 <= i < |rest| && rest[i].isDirectory && p in rest[i].children.value && Mentions(p, "bin");
        assert files[i + 1] == rest[i];
      }
    }
  }
}
