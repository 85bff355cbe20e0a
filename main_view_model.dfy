/** MainViewModel (Core/ViewModels.cs:51-383) without its dialogs: the
    field view models, the Files and SelectedFiles collections and the
    commands that edit them, the field-support refresh, the apply batch
    and the substring removal. Dialog answers, the file system and the
    backends arrive as parameters. */
module MainView {
  import opened Text
  import opened Models
  import opened Settings
  import opened Capability
  import opened TagBackend
  import opened FileList
  import opened FieldSupport
  import opened WriteCascade
  import opened SubstringRemoval

  /** One editable field of the form. */
  class FieldVM {
    const Key: string
    const DisplayName: string
    var IsChecked: bool
    var IsEnabled: bool
    var Value: string
    var Tooltip: string

    constructor (key: string, displayName: string)
      ensures Key == key && DisplayName == displayName
      ensures IsChecked && IsEnabled && Value == "" && Tooltip == ""
    {
      Key, DisplayName := key, displayName;
      IsChecked, IsEnabled, Value, Tooltip := true, true, "", "";
    }

    /** The assignments at the end of UpdateFieldSupport's outer loop. */
    method ShowSupport(total: nat, supported: nat, showHidden: bool)
      modifies this
      ensures IsEnabled == Visibility(total, supported, showHidden).isEnabled
      ensures Tooltip == Visibility(total, supported, showHidden).tooltip
      ensures IsChecked == old(IsChecked) && Value == old(Value)
    {
      if total == 0 {
        IsEnabled := true; Tooltip := "No files";
      } else if supported == 0 {
        IsEnabled := showHidden;
        Tooltip := if showHidden then "Supported 0/" + NatToString(total) else "Hidden";
      } else if supported < total {
        IsEnabled := true; Tooltip := "Supported " + NatToString(supported) + "/" + NatToString(total);
      } else {
        IsEnabled := true; Tooltip := "Supported in all";
      }
    }
  }

  /** The thirteen fields, in form order, and their labels. */
  const FieldKeys: seq<string> := ["Title", "Comment", "Artist", "Genre", "Year", "Director", "Producer",
    "Writer", "Provider", "EncodedBy", "Copyright", "AuthorUrl", "CustomURL"]
  const FieldLabels: seq<string> := ["Title", "Description / Comment", "Artist / Performer", "Genre", "Year",
    "Director", "Producer", "Writer", "Provider", "Encoded by", "Copyright", "Author URL", "Custom URL"]

  function Keys(fvms: seq<FieldVM>): (r: seq<string>)
    ensures |r| == |fvms| && forall i :: 0 <= i < |fvms| ==> r[i] == fvms[i].Key
  {
    seq(|fvms|, i requires 0 <= i < |fvms| => fvms[i].Key)
  }

  function Extensions(files: seq<FileItem>): (r: seq<string>)
    ensures |r| == |files| && forall i :: 0 <= i < |files| ==> r[i] == files[i].Extension()
  {
    seq(|files|, i requires 0 <= i < |files| => files[i].Extension())
  }

  /** The edit dictionary of ApplyAsync: the checked fields' keys mapped to
      their values. */
  function CheckedValues(fvms: seq<FieldVM>): (r: map<string, string>)
    reads fvms
    ensures forall k :: k in r <==> exists i :: 0 <= i < |fvms| && fvms[i].IsChecked && fvms[i].Key == k
    decreases |fvms|
  {
    if |fvms| == 0 then map[]
    else
      var rest := CheckedValues(fvms[1..]);
      assert forall i :: 0 < i < |fvms| ==> fvms[i] == fvms[1..][i - 1];
      if fvms[0].IsChecked then rest[fvms[0].Key := fvms[0].Value] else rest
  }

  /** With distinct keys, every checked field contributes its own value. */
  lemma {:induction false} CheckedValuesHoldValues(fvms: seq<FieldVM>, i: nat)
    requires i < |fvms| && fvms[i].IsChecked
    requires forall a, b :: 0 <= a < b < |fvms| ==> fvms[a].Key != fvms[b].Key
    ensures CheckedValues(fvms)[fvms[i].Key] == fvms[i].Value
    decreases |fvms|
  {
    if i > 0 {
      assert fvms[1..][i - 1] == fvms[i];
      CheckedValuesHoldValues(fvms[1..], i - 1);
      assert fvms[0].Key != fvms[i].Key;
    }
  }

  /** `FieldViewModels.FirstOrDefault(f => f.IsChecked)?.Key ?? "Title"`. */
  function ChosenField(fvms: seq<FieldVM>): (r: string)
    reads fvms
    ensures (forall i :: 0 <= i < |fvms| ==> !fvms[i].IsChecked) ==> r == "Title"
    ensures forall i :: 0 <= i < |fvms| && fvms[i].IsChecked && (forall j :: 0 <= j < i ==> !fvms[j].IsChecked) ==>
      r == fvms[i].Key
    decreases |fvms|
  {
    if |fvms| == 0 then "Title"
    else if fvms[0].IsChecked then fvms[0].Key
    else
      assert forall i :: 0 < i < |fvms| ==> fvms[i] == fvms[1..][i - 1];
      ChosenField(fvms[1..])
  }

  /** The inner loop of UpdateFieldSupport: the files whose support for
      `key` is not Unsupported. */
  method CountSupporting(files: seq<FileItem>, key: string, matrix: Matrix) returns (supported: nat)
    ensures supported == CountSupported(Extensions(files), key, matrix)
  {
    supported := 0;
    ghost var exts := Extensions(files);
    for n := 0 to |files|
      invariant supported == CountSupported(exts[..n], key, matrix)
    {
      var support := GetSupport(matrix, files[n].Extension(), key);
      CountStep(exts, n, key, matrix, support);
      if support != CapabilitySupport.Unsupported { supported := supported + 1; }
    }
    assert exts[..|files|] == exts;
  }

  /** Appending field `|counts|`'s counter keeps `counts` the counters of
      the first fields. */
  lemma CountsExtend(exts: seq<string>, fvms: seq<FieldVM>, matrix: Matrix, counts: seq<nat>, supported: nat)
    requires |counts| < |fvms|
    requires forall j :: 0 <= j < |counts| ==> counts[j] == CountSupported(exts, fvms[j].Key, matrix)
    requires supported == CountSupported(exts, fvms[|counts|].Key, matrix)
    ensures forall j :: 0 <= j < |counts| + 1 ==> (counts + [supported])[j] == CountSupported(exts, fvms[j].Key, matrix)
  {
  }

  /** The outer loop's counters, one per field. */
  method CountAll(files: seq<FileItem>, fvms: seq<FieldVM>, matrix: Matrix) returns (counts: seq<nat>)
    ensures |counts| == |fvms|
    ensures forall j :: 0 <= j < |fvms| ==> counts[j] == CountSupported(Extensions(files), fvms[j].Key, matrix)
  {
    counts := [];
    for k := 0 to |fvms|
      invariant |counts| == k
      invariant forall j :: 0 <= j < k ==> counts[j] == CountSupported(Extensions(files), fvms[j].Key, matrix)
    {
      var supported := CountSupporting(files, fvms[k].Key, matrix);
      CountsExtend(Extensions(files), fvms, matrix, counts, supported);
      counts := counts + [supported];
    }
  }

  /** The outer loop's assignments, given the counters. */
  method ShowAll(fvms: seq<FieldVM>, total: nat, counts: seq<nat>, showHidden: bool)
    requires |counts| == |fvms|
    requires forall a, b :: 0 <= a < |fvms| && 0 <= b < |fvms| && fvms[a] == fvms[b] ==> counts[a] == counts[b]
    modifies fvms
    ensures forall j :: 0 <= j < |fvms| ==>
      fvms[j].IsEnabled == Visibility(total, counts[j], showHidden).isEnabled &&
      fvms[j].Tooltip == Visibility(total, counts[j], showHidden).tooltip
    ensures forall j :: 0 <= j < |fvms| ==>
      fvms[j].IsChecked == old(fvms[j].IsChecked) && fvms[j].Value == old(fvms[j].Value)
  {
    for k := 0 to |fvms|
      invariant forall j :: 0 <= j < k ==>
        fvms[j].IsEnabled == Visibility(total, counts[j], showHidden).isEnabled &&
        fvms[j].Tooltip == Visibility(total, counts[j], showHidden).tooltip
      invariant forall j :: 0 <= j < |fvms| ==>
        fvms[j].IsChecked == old(fvms[j].IsChecked) && fvms[j].Value == old(fvms[j].Value)
    {
      fvms[k].ShowSupport(total, counts[k], showHidden);
    }
  }

  /** The body of AddFiles' loop for one path `p`: the three `continue`
      tests, then the duplicate check, then `Files.Add(new FileItem ...)`. */
  method AddIfNew(r: seq<FileItem>, p: string, onDisk: set<string>) returns (r': seq<FileItem>)
    ensures Admissible(p, onDisk) && !ContainsIgnoreCase(Paths(r), p) ==>
      |r'| == |r| + 1 && r' == r + [r'[|r|]] && fresh(r'[|r|]) && r'[|r|].FullPath == p
    ensures !(Admissible(p, onDisk) && !ContainsIgnoreCase(Paths(r), p)) ==> r' == r
    ensures Paths(r') == if Admissible(p, onDisk) && !ContainsIgnoreCase(Paths(r), p) then Paths(r) + [p] else Paths(r)
    ensures Distinct(r) ==> Distinct(r')
  {
    r' := r;
    if Admissible(p, onDisk) && !ContainsIgnoreCase(Paths(r), p) {
      var item := new FileItem(p);
      assert item !in r;
      assert Paths(r + [item]) == Paths(r) + [p];
      r' := r + [item];
    }
  }

  /** The loop of `AddFiles(paths)`: appends a new FileItem for every
      admissible path not yet loaded, ignoring case. `onDisk` is the set of
      paths `File.Exists` accepts. */
  method AppendNew(files: seq<FileItem>, paths: seq<string>, onDisk: set<string>) returns (r: seq<FileItem>)
    ensures Paths(r) == NewPaths(Paths(files), paths, onDisk)
    ensures |files| <= |r| && r[..|files|] == files
    ensures Distinct(files) ==> Distinct(r)
  {
    r := files;
    for i := 0 to |paths|
      invariant Paths(r) == NewPaths(Paths(files), paths[..i], onDisk)
      invariant |files| <= |r| && r[..|files|] == files
      invariant Distinct(files) ==> Distinct(r)
    {
      var next := AddIfNew(r, paths[i], onDisk);
      if |next| > |r| {
        assert next[..|files|] == r[..|files|];
      }
      NewPathsStep(Paths(files), paths, onDisk, i, Paths(r), Paths(next));
      r := next;
    }
    assert paths[..|paths|] == paths;
  }

  /** The loop of `ApplyAsync()`: every target processed in order, each
      seeing the files the earlier backups created. */
  method RunBatch(s: Settings, createBackup: bool, values: map<string, string>, paths: seq<string>,
                  world: string -> FileEnv, existing: set<string>) returns (b: BatchResult)
    ensures b == Batch(s, createBackup, values, paths, world, existing)
  {
    b := BatchResult([], existing, []);
    for i := 0 to |paths|
      invariant b == Batch(s, createBackup, values, paths[..i], world, existing)
    {
      var step := ProcessFile(s, createBackup, values, paths[i], world(paths[i]), b.existing);
      BatchStep(s, createBackup, values, paths, world, existing, i);
      b := Extend(b, step);
    }
    assert paths[..|paths|] == paths;
  }

  /** The loop of `RemoveSubstringAsync()`: one outcome per target, in order. */
  method StripAll(paths: seq<string>, media: string -> MediaFile, field: string, sub: string)
    returns (outs: seq<FileOutcome>)
    requires |sub| > 0
    ensures outs == RemoveLog(paths, media, field, sub)
  {
    outs := [];
    for i := 0 to |paths|
      invariant |outs| == i
      invariant forall j :: 0 <= j < i ==> outs[j] == StripFile(paths[j], media(paths[j]), field, sub)
    {
      outs := outs + [StripFile(paths[i], media(paths[i]), field, sub)];
    }
  }

  class MainViewModel {
    var Files: seq<FileItem>
    var SelectedFiles: seq<FileItem>
    var Presets: seq<Preset>
    const FieldViewModels: seq<FieldVM>
    var CreateBackup: bool
    var ShowHiddenFields: bool
    var StatusText: string

    /** The field view model of `key` shows the support of `key` for the
        current files. */
    predicate Shows(fvm: FieldVM, matrix: Matrix)
      reads this, fvm
    {
      var st := StateFor(Extensions(Files), fvm.Key, matrix, ShowHiddenFields);
      fvm.IsEnabled == st.isEnabled && fvm.Tooltip == st.tooltip
    }

    /** Every field shows its support. */
    predicate SupportShown(matrix: Matrix)
      reads this, FieldViewModels
    {
      forall i :: 0 <= i < |FieldViewModels| ==> Shows(FieldViewModels[i], matrix)
    }

    /** The constructor: the thirteen fields, all checked and enabled, and
        the stored presets, added one by one in their order. */
    constructor (settings: Settings, storedPresets: seq<Preset>)
      ensures Files == [] && SelectedFiles == [] && Presets == storedPresets
      ensures CreateBackup == settings.createBackup && !ShowHiddenFields && StatusText == "Ready"
      ensures Keys(FieldViewModels) == FieldKeys
      ensures forall i :: 0 <= i < |FieldViewModels| ==>
        && fresh(FieldViewModels[i]) && FieldViewModels[i].DisplayName == FieldLabels[i]
        && FieldViewModels[i].IsChecked && FieldViewModels[i].IsEnabled && FieldViewModels[i].Value == ""
    {
      var vms: seq<FieldVM> := [];
      for i := 0 to |FieldKeys|
        invariant |vms| == i
        invariant forall j :: 0 <= j < i ==>
          && fresh(vms[j]) && vms[j].Key == FieldKeys[j] && vms[j].DisplayName == FieldLabels[j]
          && vms[j].IsChecked && vms[j].IsEnabled && vms[j].Value == ""
      {
        var f := new FieldVM(FieldKeys[i], FieldLabels[i]);
        vms := vms + [f];
      }
      var ps: seq<Preset> := [];
      for i := 0 to |storedPresets|
        invariant ps == storedPresets[..i]
      {
        assert storedPresets[..i + 1] == storedPresets[..i] + [storedPresets[i]];
        ps := ps + [storedPresets[i]];
      }
      assert storedPresets[..|storedPresets|] == storedPresets;
      Files, SelectedFiles, Presets := [], [], ps;
      FieldViewModels := vms;
      CreateBackup, ShowHiddenFields, StatusText := settings.createBackup, false, "Ready";
    }

    /** `UpdateFieldSupport()`: per field, count the files whose support is
        not Unsupported and set IsEnabled and Tooltip from the count. */
    method UpdateFieldSupport(matrix: Matrix)
      modifies FieldViewModels
      ensures SupportShown(matrix)
      ensures forall i :: 0 <= i < |FieldViewModels| ==>
        FieldViewModels[i].IsChecked == old(FieldViewModels[i].IsChecked) && FieldViewModels[i].Value == old(FieldViewModels[i].Value)
    {
      var files := Files;
      var counts := CountAll(files, FieldViewModels, matrix);
      ShowAll(FieldViewModels, |files|, counts, ShowHiddenFields);
    }

    /** The fields' check marks and values are untouched since `old`. */
    twostate predicate FieldsKept()
      reads this, FieldViewModels
    {
      forall i :: 0 <= i < |FieldViewModels| ==>
        FieldViewModels[i].IsChecked == old(FieldViewModels[i].IsChecked) && FieldViewModels[i].Value == old(FieldViewModels[i].Value)
    }

    /** `SelectedFiles.Any() ? SelectedFiles : Files`, the targets of
        ApplyAsync and RemoveSubstringAsync. */
    function Targets(): (r: seq<FileItem>)
      reads this
      ensures |SelectedFiles| > 0 ==> r == SelectedFiles
      ensures |SelectedFiles| == 0 ==> r == Files
      ensures |r| == 0 <==> |SelectedFiles| == 0 && |Files| == 0
    {
      if |SelectedFiles| > 0 then SelectedFiles else Files
    }

    /** `AddFiles(paths)`: loads the new paths, reports the count and
        refreshes the field support. */
    method AddFiles(paths: seq<string>, onDisk: set<string>, matrix: Matrix)
      modifies this, FieldViewModels
      ensures Paths(Files) == NewPaths(old(Paths(Files)), paths, onDisk)
      ensures |old(Files)| <= |Files| && Files[..|old(Files)|] == old(Files)
      ensures Distinct(old(Files)) ==> Distinct(Files)
      ensures SelectedFiles == old(SelectedFiles) && Presets == old(Presets)
      ensures CreateBackup == old(CreateBackup) && ShowHiddenFields == old(ShowHiddenFields)
      ensures StatusText == NatToString(|Files|) + " files loaded"
      ensures SupportShown(matrix) && FieldsKept()
    {
      Files := AppendNew(Files, paths, onDisk);
      StatusText := NatToString(|Files|) + " files loaded";
      UpdateFieldSupport(matrix);
    }

    /** The loop of `RemoveSelected()`: each selected item is removed from
        Files (its first occurrence, by reference). */
    method RemoveEachSelected()
      modifies this
      ensures Files == RemoveAll(old(Files), old(SelectedFiles))
      ensures SelectedFiles == old(SelectedFiles) && Presets == old(Presets) && CreateBackup == old(CreateBackup)
      ensures ShowHiddenFields == old(ShowHiddenFields) && StatusText == old(StatusText)
    {
      var arr := SelectedFiles;
      for i := 0 to |arr|
        invariant Files == RemoveAll(old(Files), arr[..i])
        invariant SelectedFiles == arr && Presets == old(Presets) && CreateBackup == old(CreateBackup)
        invariant ShowHiddenFields == old(ShowHiddenFields) && StatusText == old(StatusText)
      {
        assert arr[..i + 1][..i] == arr[..i];
        Files := RemoveFirst(Files, arr[i]);
      }
      assert arr[..|arr|] == arr;
    }

    /** `RemoveSelected()`: removes the selected items, clears the selection
        and refreshes the field support. */
    method RemoveSelected(matrix: Matrix)
      modifies this, FieldViewModels
      ensures Files == RemoveAll(old(Files), old(SelectedFiles))
      ensures SelectedFiles == []
      ensures Presets == old(Presets) && CreateBackup == old(CreateBackup)
      ensures ShowHiddenFields == old(ShowHiddenFields) && StatusText == old(StatusText)
      ensures SupportShown(matrix) && FieldsKept()
    {
      RemoveEachSelected();
      SelectedFiles := [];
      UpdateFieldSupport(matrix);
    }

    /** `ClearAll()`: empties both lists; every field then reads "No files". */
    method ClearAll(matrix: Matrix)
      modifies this, FieldViewModels
      ensures Files == [] && SelectedFiles == []
      ensures Presets == old(Presets) && CreateBackup == old(CreateBackup)
      ensures ShowHiddenFields == old(ShowHiddenFields) && StatusText == old(StatusText)
      ensures forall i :: 0 <= i < |FieldViewModels| ==>
        FieldViewModels[i].IsEnabled && FieldViewModels[i].Tooltip == "No files"
      ensures FieldsKept()
    {
      Files, SelectedFiles := [], [];
      UpdateFieldSupport(matrix);
      forall i | 0 <= i < |FieldViewModels|
        ensures FieldViewModels[i].IsEnabled && FieldViewModels[i].Tooltip == "No files"
      {
        assert Shows(FieldViewModels[i], matrix);
        assert Extensions(Files) == [];
        NoFilesEnablesAll(FieldViewModels[i].Key, matrix, ShowHiddenFields);
      }
    }

    /** The loop of `Dedupe()`: Files is cleared and `items` added back, one
        by one, in order. */
    method Refill(items: seq<FileItem>)
      modifies this
      ensures Files == items
      ensures SelectedFiles == old(SelectedFiles) && Presets == old(Presets)
      ensures CreateBackup == old(CreateBackup) && ShowHiddenFields == old(ShowHiddenFields)
      ensures StatusText == old(StatusText)
    {
      Files := [];
      for i := 0 to |items|
        invariant Files == items[..i]
        invariant SelectedFiles == old(SelectedFiles) && Presets == old(Presets)
        invariant CreateBackup == old(CreateBackup) && ShowHiddenFields == old(ShowHiddenFields)
        invariant StatusText == old(StatusText)
      {
        assert items[..i + 1] == items[..i] + [items[i]];
        Files := Files + [items[i]];
      }
      assert items[..|items|] == items;
    }

    /** `Dedupe()`: keeps the first item of every case-insensitive path, in
        order. The view model's own code leaves SelectedFiles as it was. */
    method Dedupe(matrix: Matrix)
      modifies this, FieldViewModels
      ensures Files == Deduped(old(Files))
      ensures SelectedFiles == old(SelectedFiles) && Presets == old(Presets)
      ensures CreateBackup == old(CreateBackup) && ShowHiddenFields == old(ShowHiddenFields)
      ensures StatusText == old(StatusText)
      ensures SupportShown(matrix) && FieldsKept()
    {
      var unique := Deduped(Files);
      Refill(unique);
      UpdateFieldSupport(matrix);
    }

    /** `ApplyAsync()` without its dialogs and the report file: nothing
        happens without targets or without the user's confirmation;
        otherwise every target is processed in order with the checked
        fields' values, and the status returns to "Ready". `existing` is the
        set of files on disk, which backups extend; `world` gives each
        path's media file and tool outcomes. */
    method ApplyAsync(s: Settings, confirmed: bool, world: string -> FileEnv, existing: set<string>)
      returns (report: Option<seq<FileReport>>, existingAfter: set<string>, calls: seq<seq<Attempt>>)
      modifies this
      ensures Files == old(Files) && SelectedFiles == old(SelectedFiles) && Presets == old(Presets)
      ensures CreateBackup == old(CreateBackup) && ShowHiddenFields == old(ShowHiddenFields)
      ensures |old(Targets())| == 0 || !confirmed ==>
        report == None && existingAfter == existing && calls == [] && StatusText == old(StatusText)
      ensures |old(Targets())| > 0 && confirmed ==>
        var b := Batch(s, CreateBackup, old(CheckedValues(FieldViewModels)), Paths(old(Targets())), world, existing);
        report == Some(b.reports) && existingAfter == b.existing && calls == b.calls && StatusText == "Ready"
    {
      var targets := Targets();
      if |targets| == 0 || !confirmed {
        return None, existing, [];
      }
      var values := CheckedValues(FieldViewModels);
      StatusText := "Processing...";
      var b := RunBatch(s, CreateBackup, values, Paths(targets), world, existing);
      report, existingAfter, calls := Some(b.reports), b.existing, b.calls;
      StatusText := "Ready";
    }

    /** `RemoveSubstringAsync()` without its dialogs and the log file:
        `answer` is what the prompt returned (None when cancelled). An empty
        answer does nothing; otherwise the first checked field (Title when
        none is checked) is stripped in every target, in order. */
    method RemoveSubstringAsync(answer: Option<string>, media: string -> MediaFile)
      returns (log: Option<seq<FileOutcome>>)
      ensures answer.None? || answer.value == "" ==> log == None
      ensures answer.Some? && answer.value != "" ==>
        log == Some(RemoveLog(Paths(Targets()), media, ChosenField(FieldViewModels), answer.value))
    {
      if answer.None? || answer.value == "" {
        return None;
      }
      var outs := StripAll(Paths(Targets()), media, ChosenField(FieldViewModels), answer.value);
      log := Some(outs);
    }
  }
}
