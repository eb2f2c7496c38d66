/**
 * `getModuleBanner` and `detectBannerFile`: the banner reference stored with each
 * module when the list is loaded. First the `banner=` entry of the module's
 * `module.prop`, then a conventional banner file in the module's directory.
 * Each lookup is a method with the source's loops and early returns, proved
 * equal to a recursive specification function whose own contract says what the
 * answer means.
 */
module BannerLookup {
  import opened Strings
  import opened ModuleTypes

  const BannerKey: string := "banner="

  /** The conventional banner file names, in the order they are tried. */
  const BannerFiles: seq<string> := ["banner.jpg", "banner.png", "banner.webp", "banner.jpeg"]

  /** The `module.prop` files read, Magisk-compatible root first. */
  function PropPaths(id: string): seq<string> {
    [ModulesRoot + id + "/module.prop", ApModulesRoot + id + "/module.prop"]
  }

  /** The module directories searched for a banner file, in the same order. */
  function ModuleDirs(id: string): seq<string> {
    [ModulesRoot + id, ApModulesRoot + id]
  }

  // ---------------------------------------------------------------------------
  // The banner= entry of module.prop

  /** The trimmed value of a `banner=` line (`substringAfter` finds the key at offset 0). */
  function BannerValue(line: string): string
    requires StartsWith(line, BannerKey)
  {
    Trim(line[|BannerKey|..])
  }

  /** A `banner=` line whose value is not blank. */
  predicate IsBannerEntry(line: string) {
    StartsWith(line, BannerKey) && BannerValue(line) != ""
  }

  /** The value of the first `banner=` line with a non-blank value; "" when there is none. */
  function FirstBannerValue(lines: seq<string>): string {
    if lines == [] then ""
    else if IsBannerEntry(lines[0]) then BannerValue(lines[0])
    else FirstBannerValue(lines[1..])
  }

  /** Line `i` is a usable `banner=` line and no line before it is. */
  predicate FirstEntryAt(lines: seq<string>, i: int) {
    0 <= i < |lines| && IsBannerEntry(lines[i]) && forall j :: 0 <= j < i ==> !IsBannerEntry(lines[j])
  }

  /** The value found is that of the first usable `banner=` line, and "" only when there is none. */
  lemma {:induction false} FirstBannerValueSpec(lines: seq<string>)
    ensures FirstBannerValue(lines) == "" <==> forall i :: 0 <= i < |lines| ==> !IsBannerEntry(lines[i])
    ensures FirstBannerValue(lines) != "" ==>
      exists i :: FirstEntryAt(lines, i) && FirstBannerValue(lines) == BannerValue(lines[i])
  {
    if lines == [] {
    } else if IsBannerEntry(lines[0]) {
      assert FirstEntryAt(lines, 0);
    } else {
      var rest := lines[1..];
      FirstBannerValueSpec(rest);
      if FirstBannerValue(rest) != "" {
        var i :| FirstEntryAt(rest, i) && FirstBannerValue(rest) == BannerValue(rest[i]);
        FirstEntryAfterHead(lines, i);
      } else {
        forall j | 0 <= j < |lines| ensures !IsBannerEntry(lines[j]) {
          if j > 0 { assert lines[j] == rest[j - 1]; }
        }
      }
    }
  }

  /** A first usable line of the tail is the first usable line of the whole when the head is not usable. */
  lemma FirstEntryAfterHead(lines: seq<string>, i: int)
    requires lines != [] && !IsBannerEntry(lines[0]) && FirstEntryAt(lines[1..], i)
    ensures FirstEntryAt(lines, i + 1) && lines[i + 1] == lines[1..][i]
  {
    var rest := lines[1..];
    forall j | 0 <= j < i + 1 ensures !IsBannerEntry(lines[j]) {
      if j > 0 { assert lines[j] == rest[j - 1]; }
    }
  }

  /** What the scan of the `module.prop` files ends with. */
  datatype PropScan = PropFound(value: string) | PropMissing | PropReadFailed

  /** The prop file at `path` is opened: it exists and may be read. */
  predicate Opened(fs: FileSystem, path: string) {
    fs.Exists(path) && fs.CanRead(path)
  }

  /** The prop file at `path` is opened, read, and has no usable `banner=` line. */
  predicate NoPropBanner(fs: FileSystem, path: string) {
    Opened(fs, path) ==> path in fs.lines && FirstBannerValue(fs.lines[path]) == ""
  }

  /** Scans the prop files in order: the first usable banner value wins, and a read failure ends the scan. */
  function ScanPropFiles(fs: FileSystem, paths: seq<string>): PropScan {
    if paths == [] then PropMissing
    else if Opened(fs, paths[0]) && paths[0] !in fs.lines then PropReadFailed
    else if Opened(fs, paths[0]) && FirstBannerValue(fs.lines[paths[0]]) != "" then
      PropFound(FirstBannerValue(fs.lines[paths[0]]))
    else ScanPropFiles(fs, paths[1..])
  }

  /** Every prop file before index `i` was passed over without a banner value. */
  predicate PassedOver(fs: FileSystem, paths: seq<string>, i: int)
    requires 0 <= i <= |paths|
  {
    forall j :: 0 <= j < i ==> NoPropBanner(fs, paths[j])
  }

  /**
   * The scan finds the value of the first opened prop file that has one, stops with a read
   * failure at the first opened file that cannot be read, and finds nothing only when every
   * file is unopened or read without a usable entry.
   */
  lemma {:induction false} ScanPropFilesSpec(fs: FileSystem, paths: seq<string>)
    ensures ScanPropFiles(fs, paths).PropMissing? <==> PassedOver(fs, paths, |paths|)
    ensures ScanPropFiles(fs, paths).PropFound? ==>
      var v := ScanPropFiles(fs, paths).value;
      v != "" && exists i :: 0 <= i < |paths| && PassedOver(fs, paths, i) && Opened(fs, paths[i])
                             && paths[i] in fs.lines && FirstBannerValue(fs.lines[paths[i]]) == v
    ensures ScanPropFiles(fs, paths).PropReadFailed? ==>
      exists i :: 0 <= i < |paths| && PassedOver(fs, paths, i) && Opened(fs, paths[i]) && paths[i] !in fs.lines
  {
    if paths == [] {
    } else if Opened(fs, paths[0]) && paths[0] !in fs.lines {
      assert PassedOver(fs, paths, 0);
    } else if Opened(fs, paths[0]) && FirstBannerValue(fs.lines[paths[0]]) != "" {
      assert PassedOver(fs, paths, 0);
    } else {
      var rest := paths[1..];
      ScanPropFilesSpec(fs, rest);
      assert forall j :: 1 <= j < |paths| ==> paths[j] == rest[j - 1];
      assert forall i :: 0 <= i < |rest| ==> (PassedOver(fs, rest, i) <==> PassedOver(fs, paths, i + 1));
      assert PassedOver(fs, rest, |rest|) <==> PassedOver(fs, paths, |paths|);
      var r := ScanPropFiles(fs, rest);
      if r.PropFound? {
        var i :| 0 <= i < |rest| && PassedOver(fs, rest, i) && Opened(fs, rest[i])
                 && rest[i] in fs.lines && FirstBannerValue(fs.lines[rest[i]]) == r.value;
        assert PassedOver(fs, paths, i + 1) && paths[i + 1] == rest[i];
      } else if r.PropReadFailed? {
        var i :| 0 <= i < |rest| && PassedOver(fs, rest, i) && Opened(fs, rest[i]) && rest[i] !in fs.lines;
        assert PassedOver(fs, paths, i + 1) && paths[i + 1] == rest[i];
      }
    }
  }

  // ---------------------------------------------------------------------------
  // detectBannerFile

  /** A module directory that is searched: it exists and is a directory. */
  predicate Searched(fs: FileSystem, dir: string) {
    fs.Exists(dir) && fs.IsDirectory(dir)
  }

  /** The banner file `name` in `dir` exists and may be read. */
  predicate HasBannerFile(fs: FileSystem, dir: string, name: string) {
    fs.Exists(dir + "/" + name) && fs.CanRead(dir + "/" + name)
  }

  /** The first of `names` present and readable in `dir`; "" when none is. */
  function FirstBannerFileIn(fs: FileSystem, dir: string, names: seq<string>): string {
    if names == [] then ""
    else if HasBannerFile(fs, dir, names[0]) then names[0]
    else FirstBannerFileIn(fs, dir, names[1..])
  }

  /** Name `k` is present in `dir` and no name before it is. */
  predicate FirstFileAt(fs: FileSystem, dir: string, names: seq<string>, k: int) {
    0 <= k < |names| && HasBannerFile(fs, dir, names[k])
    && forall j :: 0 <= j < k ==> !HasBannerFile(fs, dir, names[j])
  }

  /** Within one directory the first present name in list order is returned, "" when none is present. */
  lemma {:induction false} FirstBannerFileInSpec(fs: FileSystem, dir: string, names: seq<string>)
    requires forall k :: 0 <= k < |names| ==> names[k] != ""
    ensures FirstBannerFileIn(fs, dir, names) == "" <==> forall k :: 0 <= k < |names| ==> !HasBannerFile(fs, dir, names[k])
    ensures FirstBannerFileIn(fs, dir, names) != "" ==>
      exists k :: FirstFileAt(fs, dir, names, k) && FirstBannerFileIn(fs, dir, names) == names[k]
  {
    if names != [] && !HasBannerFile(fs, dir, names[0]) {
      var rest := names[1..];
      FirstBannerFileInSpec(fs, dir, rest);
      assert forall j :: 1 <= j < |names| ==> names[j] == rest[j - 1];
      if FirstBannerFileIn(fs, dir, rest) != "" {
        var k :| FirstFileAt(fs, dir, rest, k) && FirstBannerFileIn(fs, dir, rest) == rest[k];
        assert FirstFileAt(fs, dir, names, k + 1);
      }
    } else if names != [] {
      assert FirstFileAt(fs, dir, names, 0);
    }
  }

  /** The directory `dir` yields no banner file: it is not searched, or holds none of the names. */
  predicate NoBannerFileIn(fs: FileSystem, dir: string) {
    Searched(fs, dir) ==> forall k :: 0 <= k < |BannerFiles| ==> !HasBannerFile(fs, dir, BannerFiles[k])
  }

  /** The bare name of the first banner file found, directories in order, names in order within each. */
  function FirstBannerFile(fs: FileSystem, dirs: seq<string>): string {
    if dirs == [] then ""
    else if Searched(fs, dirs[0]) && FirstBannerFileIn(fs, dirs[0], BannerFiles) != "" then
      FirstBannerFileIn(fs, dirs[0], BannerFiles)
    else FirstBannerFile(fs, dirs[1..])
  }

  /** Every directory before index `i` yielded no banner file. */
  predicate NoneBefore(fs: FileSystem, dirs: seq<string>, i: int)
    requires 0 <= i <= |dirs|
  {
    forall j :: 0 <= j < i ==> NoBannerFileIn(fs, dirs[j])
  }

  /**
   * `detectBannerFile` answers with a conventional name found in the first searched directory
   * that has one, and "" exactly when no directory has one.
   */
  lemma {:induction false} FirstBannerFileSpec(fs: FileSystem, dirs: seq<string>)
    ensures FirstBannerFile(fs, dirs) == "" <==> NoneBefore(fs, dirs, |dirs|)
    ensures FirstBannerFile(fs, dirs) != "" ==>
      var f := FirstBannerFile(fs, dirs);
      f in BannerFiles && exists i :: 0 <= i < |dirs| && NoneBefore(fs, dirs, i) && Searched(fs, dirs[i])
                                      && exists k :: FirstFileAt(fs, dirs[i], BannerFiles, k) && f == BannerFiles[k]
  {
    if dirs == [] {
    } else {
      FirstBannerFileInSpec(fs, dirs[0], BannerFiles);
      if Searched(fs, dirs[0]) && FirstBannerFileIn(fs, dirs[0], BannerFiles) != "" {
        assert NoneBefore(fs, dirs, 0);
      } else {
        var rest := dirs[1..];
        FirstBannerFileSpec(fs, rest);
        assert forall j :: 1 <= j < |dirs| ==> dirs[j] == rest[j - 1];
        assert forall i :: 0 <= i < |rest| ==> (NoneBefore(fs, rest, i) <==> NoneBefore(fs, dirs, i + 1));
        assert NoneBefore(fs, rest, |rest|) <==> NoneBefore(fs, dirs, |dirs|);
        if FirstBannerFile(fs, rest) != "" {
          var i :| 0 <= i < |rest| && NoneBefore(fs, rest, i) && Searched(fs, rest[i])
                   && exists k :: FirstFileAt(fs, rest[i], BannerFiles, k) && FirstBannerFile(fs, rest) == BannerFiles[k];
          assert NoneBefore(fs, dirs, i + 1) && dirs[i + 1] == rest[i];
        }
      }
    }
  }

  /** `detectBannerFile(id)` as a value. */
  function DetectedBannerFile(fs: FileSystem, id: string): string {
    FirstBannerFile(fs, ModuleDirs(id))
  }

  /** `getModuleBanner(id)` as a value: a prop value, else a banner file name; a failed read gives "". */
  function ModuleBanner(fs: FileSystem, id: string): string {
    match ScanPropFiles(fs, PropPaths(id))
    case PropFound(v) => v
    case PropReadFailed => ""
    case PropMissing => DetectedBannerFile(fs, id)
  }

  // ---------------------------------------------------------------------------
  // The two lookups, loop by loop

  /** `detectBannerFile`: outer loop over the module directories, inner loop over the file names. */
  method DetectBannerFile(fs: FileSystem, id: string) returns (name: string)
    ensures name == DetectedBannerFile(fs, id)
  {
    var dirs := ModuleDirs(id);
    var i := 0;
    while i < |dirs|
      invariant 0 <= i <= |dirs|
      invariant FirstBannerFile(fs, dirs) == FirstBannerFile(fs, dirs[i..])
    {
      var dir := dirs[i];
      if fs.Exists(dir) && fs.IsDirectory(dir) {
        var j := 0;
        while j < |BannerFiles|
          invariant 0 <= j <= |BannerFiles|
          invariant FirstBannerFileIn(fs, dir, BannerFiles) == FirstBannerFileIn(fs, dir, BannerFiles[j..])
        {
          var path := dir + "/" + BannerFiles[j];
          if fs.Exists(path) && fs.CanRead(path) {
            return BannerFiles[j];
          }
          assert BannerFiles[j..][1..] == BannerFiles[j + 1..];
          j := j + 1;
        }
      }
      assert dirs[i..][1..] == dirs[i + 1..];
      i := i + 1;
    }
    return "";
  }

  /**
   * `getModuleBanner`: the prop files in order, each scanned line by line for a usable
   * `banner=` entry; a read that throws ends in the outer `catch` with "".
   */
  method GetModuleBanner(fs: FileSystem, id: string) returns (banner: string)
    ensures banner == ModuleBanner(fs, id)
  {
    var paths := PropPaths(id);
    var i := 0;
    while i < |paths|
      invariant 0 <= i <= |paths|
      invariant ScanPropFiles(fs, paths) == ScanPropFiles(fs, paths[i..])
    {
      var propPath := paths[i];
      if fs.Exists(propPath) && fs.CanRead(propPath) {
        if propPath !in fs.lines {
          return "";
        }
        var lines := fs.lines[propPath];
        var j := 0;
        while j < |lines|
          invariant 0 <= j <= |lines|
          invariant FirstBannerValue(lines) == FirstBannerValue(lines[j..])
        {
          var line := lines[j];
          if StartsWith(line, BannerKey) {
            var value := Trim(line[|BannerKey|..]);
            if value != "" {
              return value;
            }
          }
          assert lines[j..][1..] == lines[j + 1..];
          j := j + 1;
        }
      }
      assert paths[i..][1..] == paths[i + 1..];
      i := i + 1;
    }
    banner := DetectBannerFile(fs, id);
  }

  // ---------------------------------------------------------------------------
  // What the answer means

  /** A usable `banner=` value in the Magisk-compatible prop file wins over everything in the APatch one. */
  lemma ModulesRootPropFirst(fs: FileSystem, id: string)
    requires Opened(fs, PropPaths(id)[0]) && PropPaths(id)[0] in fs.lines
    requires FirstBannerValue(fs.lines[PropPaths(id)[0]]) != ""
    ensures ModuleBanner(fs, id) == FirstBannerValue(fs.lines[PropPaths(id)[0]])
  {
  }

  /**
   * The banner of a module is one of: the non-blank trimmed value of a `banner=` line of an
   * opened prop file, a conventional banner file name, or "". When neither prop file offers a
   * value and neither read fails, it is exactly what `detectBannerFile` finds.
   */
  lemma ModuleBannerOrigin(fs: FileSystem, id: string)
    ensures var b := ModuleBanner(fs, id);
      b == "" || b in BannerFiles
      || exists i :: 0 <= i < 2 && Opened(fs, PropPaths(id)[i]) && PropPaths(id)[i] in fs.lines
                     && b == FirstBannerValue(fs.lines[PropPaths(id)[i]])
    ensures (forall i :: 0 <= i < 2 ==> NoPropBanner(fs, PropPaths(id)[i])) ==>
      ModuleBanner(fs, id) == DetectedBannerFile(fs, id)
  {
    var paths := PropPaths(id);
    ScanPropFilesSpec(fs, paths);
    FirstBannerFileSpec(fs, ModuleDirs(id));
    assert (forall i :: 0 <= i < 2 ==> NoPropBanner(fs, paths[i])) ==> PassedOver(fs, paths, |paths|);
  }

  /** With no prop file opened, the banner is the detected file, and "" exactly when no directory has one. */
  lemma NoPropFileFallsBack(fs: FileSystem, id: string)
    requires forall i :: 0 <= i < 2 ==> !Opened(fs, PropPaths(id)[i])
    ensures ModuleBanner(fs, id) == DetectedBannerFile(fs, id)
    ensures ModuleBanner(fs, id) == "" <==> forall i :: 0 <= i < 2 ==> NoBannerFileIn(fs, ModuleDirs(id)[i])
  {
    var paths := PropPaths(id);
    ScanPropFilesSpec(fs, paths);
    assert PassedOver(fs, paths, |paths|);
    FirstBannerFileSpec(fs, ModuleDirs(id));
  }

  /** A prop file that exists and is readable but cannot be read gives "" even when a banner file exists. */
  lemma ReadFailureGivesEmpty(fs: FileSystem, id: string)
    requires Opened(fs, PropPaths(id)[0]) && PropPaths(id)[0] !in fs.lines
    ensures ModuleBanner(fs, id) == ""
  {
  }

  /** Given a readable `banner.png` in the first module directory and nothing before it, the banner is "banner.png". */
  lemma PngInModulesRoot(fs: FileSystem, id: string)
    requires forall i :: 0 <= i < 2 ==> !Opened(fs, PropPaths(id)[i])
    requires Searched(fs, ModuleDirs(id)[0])
    requires !HasBannerFile(fs, ModuleDirs(id)[0], "banner.jpg")
    requires HasBannerFile(fs, ModuleDirs(id)[0], "banner.png")
    ensures ModuleBanner(fs, id) == "banner.png"
  {
    NoPropFileFallsBack(fs, id);
    var dir := ModuleDirs(id)[0];
    assert BannerFiles[0] == "banner.jpg" && BannerFiles[1..][0] == "banner.png";
    assert FirstBannerFileIn(fs, dir, BannerFiles) == FirstBannerFileIn(fs, dir, BannerFiles[1..]) == "banner.png";
  }
}
