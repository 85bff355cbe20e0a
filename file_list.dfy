/** The file list of the main view model (Core/ViewModels.cs:43-49,
    140-181): `FileItem`, `Path.GetExtension`, and the specifications of
    what AddFiles, Dedupe and RemoveSelected do to the list. */
module FileList {
  import opened Text
  import opened Settings
  import opened Backup

  /** Windows directory separators. */
  predicate IsSeparator(c: char)
  {
    c == '\\' || c == '/'
  }

  /** The last '.' after the last separator, scanning from the end. */
  function LastDot(path: string): (r: Option<nat>)
    ensures r.Some? ==> r.value < |path| && path[r.value] == '.'
    ensures r.Some? ==> forall j :: r.value < j < |path| ==> path[j] != '.' && !IsSeparator(path[j])
    decreases |path|
  {
    if |path| == 0 then None
    else if path[|path| - 1] == '.' then Some(|path| - 1)
    else if IsSeparator(path[|path| - 1]) then None
    else LastDot(path[..|path| - 1])
  }

  /** `Path.GetExtension(path)`: from the last dot of the file name to the
      end, and "" when the name has no dot or ends in one. */
  function GetExtension(path: string): (r: string)
    ensures r == "" || (|r| >= 2 && r[0] == '.' && EndsWith(path, r))
    ensures forall j :: 0 < j < |r| ==> r[j] != '.' && !IsSeparator(r[j])
  {
    var d := LastDot(path);
    if d.None? || d.value == |path| - 1 then "" else path[d.value..]
  }

  /** A name ending in `ext` (a dot and at least one character that is
      neither a dot nor a separator) has that extension. */
  lemma {:induction false} ExtensionOfSuffix(name: string, ext: string)
    requires |ext| >= 2 && ext[0] == '.'
    requires forall j :: 0 < j < |ext| ==> ext[j] != '.' && !IsSeparator(ext[j])
    ensures GetExtension(name + ext) == ext
  {
    var p := name + ext;
    LastDotOfSuffix(name, ext);
    assert p[|name|..] == ext;
  }

  lemma {:induction false} LastDotOfSuffix(name: string, ext: string)
    requires |ext| >= 1 && ext[0] == '.'
    requires forall j :: 0 < j < |ext| ==> ext[j] != '.' && !IsSeparator(ext[j])
    ensures LastDot(name + ext) == Some(|name|)
    decreases |ext|
  {
    var p := name + ext;
    if |ext| > 1 {
      var ext' := ext[..|ext| - 1];
      assert p[..|p| - 1] == name + ext';
      assert p[|p| - 1] == ext[|ext| - 1];
      LastDotOfSuffix(name, ext');
    }
  }

  /** A backup file has the extension ".bak_mme", which AddFiles never
      accepts. */
  lemma BackupIsNotSupported(path: string)
    ensures GetExtension(BackupPath(path)) == BackupSuffix
    ensures Lower(GetExtension(BackupPath(path))) !in SupportedExtensions
  {
    BackupSuffixIsExtension();
    ExtensionOfSuffix(path, BackupSuffix);
    BackupSuffixNotSupported();
  }

  /** ".bak_mme" has the shape of an extension: a dot, then no dot or
      separator. */
  lemma BackupSuffixIsExtension()
    ensures |BackupSuffix| >= 2 && BackupSuffix[0] == '.'
    ensures forall j :: 0 < j < |BackupSuffix| ==> BackupSuffix[j] != '.' && !IsSeparator(BackupSuffix[j])
  {
    var s := BackupSuffix;
    assert s == ['.', 'b', 'a', 'k', '_', 'm', 'm', 'e'];
  }

  lemma BackupSuffixNotSupported()
    ensures Lower(BackupSuffix) !in SupportedExtensions
  {
    var low := Lower(BackupSuffix);
    assert low[1] == 'b';
  }

  /** ".flv" files are refused, although the open dialog offers them. */
  lemma FlvNotAdmitted(name: string, onDisk: set<string>)
    ensures !Admissible(name + ".flv", onDisk)
  {
    ExtensionOfSuffix(name, ".flv");
    assert Lower(".flv")[1] == 'f';
  }

  /** A file in the list. It has no equality of its own: two items are the
      same only when they are the same object. */
  class FileItem {
    const FullPath: string

    constructor (path: string)
      ensures FullPath == path
    {
      FullPath := path;
    }

    /** The `Extension` getter: the lower-cased extension, "" when none. */
    function Extension(): (r: string)
      ensures r == "" || r[0] == '.'
      ensures r == Lower(GetExtension(FullPath))
    {
      Lower(GetExtension(FullPath))
    }
  }

  function Paths(files: seq<FileItem>): (r: seq<string>)
    ensures |r| == |files|
    ensures forall i :: 0 <= i < |files| ==> r[i] == files[i].FullPath
  {
    seq(|files|, i requires 0 <= i < |files| => files[i].FullPath)
  }

  /** `list.Any(x => string.Equals(x, p, OrdinalIgnoreCase))`. */
  predicate ContainsIgnoreCase(list: seq<string>, p: string)
  {
    exists i :: 0 <= i < |list| && EqualsIgnoreCase(list[i], p)
  }

  /** No two entries are equal ignoring case. */
  predicate DistinctIgnoreCase(list: seq<string>)
  {
    forall i, j :: 0 <= i < j < |list| ==> !EqualsIgnoreCase(list[i], list[j])
  }

  // ---------------------------------------------------------------------
  // AddFiles

  /** The tests AddFiles makes before adding `p`, other than the duplicate
      check: not blank, exists, and an allowed lower-cased extension. */
  predicate Admissible(p: string, onDisk: set<string>)
  {
    !IsBlank(p) && p in onDisk && Lower(GetExtension(p)) in SupportedExtensions
  }

  /** The paths of `Files` after AddFiles(paths), from the paths `known`
      before it: each path in turn is appended when admissible and not yet
      present, ignoring case. */
  function NewPaths(known: seq<string>, paths: seq<string>, onDisk: set<string>): (r: seq<string>)
    ensures |known| <= |r| <= |known| + |paths|
    ensures r[..|known|] == known
    decreases |paths|
  {
    if |paths| == 0 then known
    else
      var prev := NewPaths(known, paths[..|paths| - 1], onDisk);
      var p := paths[|paths| - 1];
      if Admissible(p, onDisk) && !ContainsIgnoreCase(prev, p) then prev + [p] else prev
  }

  /** Every path AddFiles appends passed the tests and came from `paths`. */
  lemma {:induction false} NewPathsAreAdmissible(known: seq<string>, paths: seq<string>, onDisk: set<string>)
    ensures forall i :: |known| <= i < |NewPaths(known, paths, onDisk)| ==>
      Admissible(NewPaths(known, paths, onDisk)[i], onDisk) && NewPaths(known, paths, onDisk)[i] in paths
    decreases |paths|
  {
    if |paths| > 0 {
      NewPathsAreAdmissible(known, paths[..|paths| - 1], onDisk);
    }
  }

  /** AddFiles never creates a case-insensitive duplicate. */
  lemma {:induction false} NewPathsStayDistinct(known: seq<string>, paths: seq<string>, onDisk: set<string>)
    requires DistinctIgnoreCase(known)
    ensures DistinctIgnoreCase(NewPaths(known, paths, onDisk))
    decreases |paths|
  {
    if |paths| > 0 {
      NewPathsStayDistinct(known, paths[..|paths| - 1], onDisk);
    }
  }

  /** The loop's step on path `i`: `next` is `prev` with `paths[i]`
      appended when it is admissible and not yet present, ignoring case. */
  lemma NewPathsStep(known: seq<string>, paths: seq<string>, onDisk: set<string>, i: nat, prev: seq<string>, next: seq<string>)
    requires i < |paths| && prev == NewPaths(known, paths[..i], onDisk)
    requires Admissible(paths[i], onDisk) && !ContainsIgnoreCase(prev, paths[i]) ==> next == prev + [paths[i]]
    requires !(Admissible(paths[i], onDisk) && !ContainsIgnoreCase(prev, paths[i])) ==> next == prev
    ensures next == NewPaths(known, paths[..i + 1], onDisk)
  {
    assert paths[..i + 1][..i] == paths[..i];
  }

  /** One more path either leaves the list alone or appends that path. */
  lemma NewPathsExtends(known: seq<string>, paths: seq<string>, onDisk: set<string>)
    requires |paths| > 0
    ensures var prev := NewPaths(known, paths[..|paths| - 1], onDisk);
      var r := NewPaths(known, paths, onDisk);
      var last := paths[|paths| - 1];
      && (Admissible(last, onDisk) && !ContainsIgnoreCase(prev, last) ==> r == prev + [last])
      && (!(Admissible(last, onDisk) && !ContainsIgnoreCase(prev, last)) ==> r == prev)
  {
  }

  lemma ContainsIgnoreCaseGrows(a: seq<string>, b: seq<string>, p: string)
    requires ContainsIgnoreCase(a, p)
    ensures ContainsIgnoreCase(a + b, p)
  {
    var i :| 0 <= i < |a| && EqualsIgnoreCase(a[i], p);
    assert (a + b)[i] == a[i];
  }

  /** Every admissible path ends up in the list, up to case. */
  lemma {:induction false} NewPathsCoverAdmissible(known: seq<string>, paths: seq<string>, onDisk: set<string>, k: nat)
    requires k < |paths| && Admissible(paths[k], onDisk)
    ensures ContainsIgnoreCase(NewPaths(known, paths, onDisk), paths[k])
    decreases |paths|
  {
    var init := paths[..|paths| - 1];
    var prev := NewPaths(known, init, onDisk);
    var r := NewPaths(known, paths, onDisk);
    var last := paths[|paths| - 1];
    NewPathsExtends(known, paths, onDisk);
    if k < |init| {
      assert init[k] == paths[k];
      NewPathsCoverAdmissible(known, init, onDisk, k);
      if r != prev {
        ContainsIgnoreCaseGrows(prev, [last], paths[k]);
      }
    } else if ContainsIgnoreCase(prev, last) {
      assert r == prev;
    } else {
      assert k == |paths| - 1 && paths[k] == last;
      assert r == prev + [last];
      assert r[|prev|] == last && EqualsIgnoreCase(r[|prev|], last);
    }
  }

  /** A non-admissible path is never added. */
  lemma NewPathsIgnoreInadmissible(known: seq<string>, paths: seq<string>, onDisk: set<string>, p: string)
    requires !Admissible(p, onDisk)
    ensures NewPaths(known, paths + [p], onDisk) == NewPaths(known, paths, onDisk)
  {
    assert (paths + [p])[..|paths|] == paths;
  }

  // ---------------------------------------------------------------------
  // Dedupe

  predicate ContainsPath(files: seq<FileItem>, p: string)
  {
    exists i :: 0 <= i < |files| && EqualsIgnoreCase(files[i].FullPath, p)
  }

  /** `GroupBy(FullPath, OrdinalIgnoreCase).Select(g => g.First())`: the
      first item of each case-insensitive path, in order of first
      appearance. */
  function Deduped(files: seq<FileItem>): (r: seq<FileItem>)
    ensures |r| <= |files|
    ensures forall x :: x in r ==> x in files
    decreases |files|
  {
    if |files| == 0 then []
    else
      var prev := Deduped(files[..|files| - 1]);
      var f := files[|files| - 1];
      if ContainsPath(prev, f.FullPath) then prev else prev + [f]
  }

  /** Order is kept: deduplicating a prefix of the list gives a prefix of
      the result, so an item kept from earlier in the list comes earlier. */
  lemma {:induction false} DedupedPrefix(files: seq<FileItem>, k: nat)
    requires k <= |files|
    ensures Deduped(files[..k]) <= Deduped(files)
    decreases |files|
  {
    if k < |files| {
      var init := files[..|files| - 1];
      assert init[..k] == files[..k];
      DedupedPrefix(init, k);
    } else {
      assert files[..k] == files;
    }
  }

  /** A path of the input is still represented in the result. */
  lemma {:induction false} DedupedKeepsPath(files: seq<FileItem>, p: string)
    requires ContainsPath(files, p)
    ensures ContainsPath(Deduped(files), p)
    decreases |files|
  {
    var init := files[..|files| - 1];
    var f := files[|files| - 1];
    var prev := Deduped(init);
    var r := Deduped(files);
    var j :| 0 <= j < |files| && EqualsIgnoreCase(files[j].FullPath, p);
    if j < |init| {
      assert init[j] == files[j];
      DedupedKeepsPath(init, p);
      var i :| 0 <= i < |prev| && EqualsIgnoreCase(prev[i].FullPath, p);
      assert r[i] == prev[i];
    } else if ContainsPath(prev, f.FullPath) {
      var i :| 0 <= i < |prev| && EqualsIgnoreCase(prev[i].FullPath, f.FullPath);
      assert r == prev && files[j] == f;
    } else {
      assert r[|r| - 1] == f && files[j] == f;
    }
  }

  /** An item's path is represented in the result exactly when it is in the input. */
  lemma DedupedCovers(files: seq<FileItem>, p: string)
    ensures ContainsPath(Deduped(files), p) <==> ContainsPath(files, p)
  {
    var r := Deduped(files);
    if ContainsPath(r, p) {
      var i :| 0 <= i < |r| && EqualsIgnoreCase(r[i].FullPath, p);
      assert r[i] in files;
      var j :| 0 <= j < |files| && files[j] == r[i];
    }
    if ContainsPath(files, p) {
      DedupedKeepsPath(files, p);
    }
  }

  /** No two items of the result share a path, ignoring case. */
  lemma {:induction false} DedupedDistinct(files: seq<FileItem>)
    ensures DistinctIgnoreCase(Paths(Deduped(files)))
    decreases |files|
  {
    if |files| > 0 {
      var init := files[..|files| - 1];
      var f := files[|files| - 1];
      var prev := Deduped(init);
      DedupedDistinct(init);
      if !ContainsPath(prev, f.FullPath) {
        var r := prev + [f];
        forall i, j | 0 <= i < j < |r| ensures !EqualsIgnoreCase(Paths(r)[i], Paths(r)[j]) {
          if j == |r| - 1 {
            assert r[i] == prev[i];
          } else {
            assert r[i] == prev[i] && r[j] == prev[j];
          }
        }
      }
    }
  }

  /** A list without case-insensitive duplicates is left as it is. */
  lemma {:induction false} DedupedOfDistinct(files: seq<FileItem>)
    requires DistinctIgnoreCase(Paths(files))
    ensures Deduped(files) == files
    decreases |files|
  {
    if |files| > 0 {
      var init := files[..|files| - 1];
      var f := files[|files| - 1];
      assert DistinctIgnoreCase(Paths(init)) by {
        forall i, j | 0 <= i < j < |init| ensures !EqualsIgnoreCase(Paths(init)[i], Paths(init)[j]) {
          assert init[i] == files[i] && init[j] == files[j];
        }
      }
      DedupedOfDistinct(init);
      assert !ContainsPath(init, f.FullPath) by {
        forall i | 0 <= i < |init| ensures !EqualsIgnoreCase(init[i].FullPath, f.FullPath) {
          assert Paths(files)[i] == init[i].FullPath;
        }
      }
      assert files == init + [f];
    }
  }

  /** Dedupe twice is Dedupe once. */
  lemma DedupedIdempotent(files: seq<FileItem>)
    ensures Deduped(Deduped(files)) == Deduped(files)
  {
    DedupedDistinct(files);
    DedupedOfDistinct(Deduped(files));
  }

  /** The first item with a given path is the one kept. */
  lemma {:induction false} DedupedKeepsFirst(files: seq<FileItem>, k: nat)
    requires k < |files|
    requires forall j :: 0 <= j < k ==> !EqualsIgnoreCase(files[j].FullPath, files[k].FullPath)
    ensures files[k] in Deduped(files)
    decreases |files|
  {
    var init := files[..|files| - 1];
    var prev := Deduped(init);
    if k < |files| - 1 {
      DedupedKeepsFirst(init, k);
    } else {
      DedupedCovers(init, files[k].FullPath);
      assert !ContainsPath(init, files[k].FullPath) by {
        forall j | 0 <= j < |init| ensures !EqualsIgnoreCase(init[j].FullPath, files[k].FullPath) {
          assert files[j] == init[j];
        }
      }
      assert Deduped(files) == prev + [files[k]];
    }
  }

  // ---------------------------------------------------------------------
  // RemoveSelected

  /** The position of the first occurrence of `f`. */
  function IndexOf(files: seq<FileItem>, f: FileItem): (i: nat)
    requires f in files
    ensures i < |files| && files[i] == f && f !in files[..i]
  {
    if files[0] == f then 0
    else
      var j := IndexOf(files[1..], f);
      assert files[..j + 1] == [files[0]] + files[1..][..j];
      j + 1
  }

  /** `Files.Remove(f)`: drops the first occurrence of that very object
      (the order of the others is `RemoveFirstKeepsOrder`). */
  function RemoveFirst(files: seq<FileItem>, f: FileItem): (r: seq<FileItem>)
    ensures f !in files ==> r == files
    ensures f in files ==> |r| == |files| - 1
    ensures forall x :: x in r ==> x in files
    ensures forall x :: x in files && x != f ==> x in r
  {
    if |files| == 0 then []
    else if files[0] == f then files[1..]
    else [files[0]] + RemoveFirst(files[1..], f)
  }

  /** Removing `f` when its first occurrence is at `i`. */
  lemma {:induction false} RemoveFirstAt(files: seq<FileItem>, f: FileItem, i: nat)
    requires i < |files| && files[i] == f
    requires forall k :: 0 <= k < i ==> files[k] != f
    ensures RemoveFirst(files, f) == files[..i] + files[i + 1..]
  {
    if i > 0 {
      var rest := files[1..];
      assert files[0] != f;
      RemoveFirstAt(rest, f, i - 1);
      assert files[..i] == [files[0]] + rest[..i - 1];
      assert files[i + 1..] == rest[i..];
    }
  }

  /** `Files.Remove(f)` keeps the items before and after the first
      occurrence of `f` in their order. */
  lemma RemoveFirstKeepsOrder(files: seq<FileItem>, f: FileItem)
    requires f in files
    ensures RemoveFirst(files, f) == files[..IndexOf(files, f)] + files[IndexOf(files, f) + 1..]
  {
    var i := IndexOf(files, f);
    forall k | 0 <= k < i
      ensures files[k] != f
    {
      assert files[k] == files[..i][k];
    }
    RemoveFirstAt(files, f, i);
  }

  /** Removing each object of `sel` in turn. */
  function RemoveAll(files: seq<FileItem>, sel: seq<FileItem>): (r: seq<FileItem>)
    ensures forall x :: x in r ==> x in files
    ensures forall x :: x in files && x !in sel ==> x in r
    decreases |sel|
  {
    if |sel| == 0 then files
    else RemoveFirst(RemoveAll(files, sel[..|sel| - 1]), sel[|sel| - 1])
  }

  /** Items are not repeated in the list (each FileItem is added once). */
  predicate Distinct(files: seq<FileItem>)
  {
    forall i, j :: 0 <= i < j < |files| ==> files[i] != files[j]
  }

  lemma {:induction false} RemoveFirstDistinct(files: seq<FileItem>, f: FileItem)
    requires Distinct(files)
    ensures Distinct(RemoveFirst(files, f)) && f !in RemoveFirst(files, f)
  {
    if |files| > 0 && files[0] != f {
      var rest := RemoveFirst(files[1..], f);
      assert Distinct(files[1..]);
      RemoveFirstDistinct(files[1..], f);
      assert files[0] !in rest by {
        assert files[0] !in files[1..];
      }
      assert RemoveFirst(files, f) == [files[0]] + rest;
    } else if |files| > 0 {
      assert files[0] !in files[1..];
      assert RemoveFirst(files, f) == files[1..];
    }
  }

  /** The items of `files` that are not in `sel`, in their order: the list
      `Files.Where(x => !sel.Contains(x))` would give. */
  function Unselected(files: seq<FileItem>, sel: seq<FileItem>): (r: seq<FileItem>)
    ensures forall x :: x in r ==> x in files && x !in sel
    ensures forall x :: x in files && x !in sel ==> x in r
  {
    if |files| == 0 then []
    else (if files[0] in sel then [] else [files[0]]) + Unselected(files[1..], sel)
  }

  /** The filter depends only on which of the items are selected. */
  lemma {:induction false} UnselectedCongruent(files: seq<FileItem>, s: seq<FileItem>, t: seq<FileItem>)
    requires forall x :: x in files ==> (x in s <==> x in t)
    ensures Unselected(files, s) == Unselected(files, t)
  {
    if |files| > 0 {
      UnselectedCongruent(files[1..], s, t);
    }
  }

  /** Removing one more object from the filtered list is filtering by the
      larger selection. */
  lemma {:induction false} RemoveFirstOfUnselected(files: seq<FileItem>, s: seq<FileItem>, t: seq<FileItem>, y: FileItem)
    requires Distinct(files)
    requires forall x :: x in t <==> x in s || x == y
    ensures RemoveFirst(Unselected(files, s), y) == Unselected(files, t)
  {
    if |files| > 0 {
      var a, rest := files[0], files[1..];
      assert Distinct(rest);
      assert a !in rest;
      var us := Unselected(rest, s);
      if a in s {
        assert Unselected(files, s) == us && Unselected(files, t) == Unselected(rest, t);
        RemoveFirstOfUnselected(rest, s, t, y);
      } else if a == y {
        assert Unselected(files, s) == [a] + us && Unselected(files, t) == Unselected(rest, t);
        assert ([a] + us)[0] == a && ([a] + us)[1..] == us;
        UnselectedCongruent(rest, s, t);
      } else {
        assert Unselected(files, s) == [a] + us && Unselected(files, t) == [a] + Unselected(rest, t);
        assert ([a] + us)[0] == a && ([a] + us)[1..] == us;
        RemoveFirstOfUnselected(rest, s, t, y);
      }
    }
  }

  /** With no repeated items, RemoveSelected keeps the unselected items in
      their original order. */
  lemma {:induction false} RemoveAllKeepsOrder(files: seq<FileItem>, sel: seq<FileItem>)
    requires Distinct(files)
    ensures RemoveAll(files, sel) == Unselected(files, sel)
    decreases |sel|
  {
    if |sel| == 0 {
      UnselectedIsAllWithoutSelection(files, sel);
    } else {
      var init := sel[..|sel| - 1];
      RemoveAllKeepsOrder(files, init);
      assert forall x :: x in sel <==> x in init || x == sel[|sel| - 1];
      RemoveFirstOfUnselected(files, init, sel, sel[|sel| - 1]);
    }
  }

  /** Filtering by an empty selection keeps the list. */
  lemma {:induction false} UnselectedIsAllWithoutSelection(files: seq<FileItem>, sel: seq<FileItem>)
    requires |sel| == 0
    ensures Unselected(files, sel) == files
  {
    if |files| > 0 {
      UnselectedIsAllWithoutSelection(files[1..], sel);
    }
  }

  /** With no repeated items, RemoveSelected leaves exactly the items that
      were not selected. */
  lemma {:induction false} RemoveAllExact(files: seq<FileItem>, sel: seq<FileItem>)
    requires Distinct(files)
    ensures Distinct(RemoveAll(files, sel))
    ensures forall x :: x in RemoveAll(files, sel) <==> x in files && x !in sel
    decreases |sel|
  {
    if |sel| > 0 {
      var init := sel[..|sel| - 1];
      RemoveAllExact(files, init);
      RemoveFirstDistinct(RemoveAll(files, init), sel[|sel| - 1]);
      assert forall x :: x in sel <==> x in init || x == sel[|sel| - 1];
    }
  }
}
