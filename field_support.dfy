/** The field-visibility policy of UpdateFieldSupport
    (Core/ViewModels.cs:348-365): for each field, count the loaded files
    whose extension does not mark the field Unsupported — Unknown and
    Conditional both count — and derive `IsEnabled` and `Tooltip` from
    that count, the number of files and `ShowHiddenFields`. */
module FieldSupport {
  import opened Text
  import opened Models
  import opened Capability

  /** What UpdateFieldSupport assigns to one FieldVM. */
  datatype FieldState = FieldState(isEnabled: bool, tooltip: string)

  /** Does a file with extension `ext` count as supporting `key`? */
  predicate Counts(matrix: Matrix, ext: string, key: string)
  {
    GetSupport(matrix, ext, key) != CapabilitySupport.Unsupported
  }

  /** Which files count, in file order. */
  function Flags(exts: seq<string>, key: string, matrix: Matrix): (r: seq<bool>)
    ensures |r| == |exts|
    ensures forall i :: 0 <= i < |exts| ==> r[i] == Counts(matrix, exts[i], key)
  {
    seq(|exts|, i requires 0 <= i < |exts| => Counts(matrix, exts[i], key))
  }

  /** The number of true flags. */
  function CountTrue(flags: seq<bool>): (n: nat)
    ensures n <= |flags|
    decreases |flags|
  {
    if |flags| == 0 then 0
    else CountTrue(flags[..|flags| - 1]) + (if flags[|flags| - 1] then 1 else 0)
  }

  /** The `supported` counter after the inner loop over `exts`. */
  function CountSupported(exts: seq<string>, key: string, matrix: Matrix): (n: nat)
    ensures n <= |exts|
    decreases |exts|
  {
    if |exts| == 0 then 0
    else CountSupported(exts[..|exts| - 1], key, matrix) + (if Counts(matrix, exts[|exts| - 1], key) then 1 else 0)
  }

  /** The counter is the number of files whose flag is set. */
  lemma {:induction false} CountSupportedIsCountTrue(exts: seq<string>, key: string, matrix: Matrix)
    ensures CountSupported(exts, key, matrix) == CountTrue(Flags(exts, key, matrix))
    decreases |exts|
  {
    if |exts| > 0 {
      var init := exts[..|exts| - 1];
      var f := Flags(exts, key, matrix);
      CountSupportedIsCountTrue(init, key, matrix);
      assert f[..|init|] == Flags(init, key, matrix);
      assert CountTrue(f) == CountTrue(f[..|init|]) + (if f[|init|] then 1 else 0);
    }
  }

  /** The four-way choice of enabled flag and tooltip. */
  function Visibility(total: nat, supported: nat, showHidden: bool): FieldState
  {
    if total == 0 then FieldState(true, "No files")
    else if supported == 0 then FieldState(showHidden, if showHidden then "Supported 0/" + NatToString(total) else "Hidden")
    else if supported < total then FieldState(true, "Supported " + NatToString(supported) + "/" + NatToString(total))
    else FieldState(true, "Supported in all")
  }

  /** The state of field `key` for files with extensions `exts`. */
  function StateFor(exts: seq<string>, key: string, matrix: Matrix, showHidden: bool): FieldState
  {
    Visibility(|exts|, CountSupported(exts, key, matrix), showHidden)
  }

  lemma {:induction false} CountTrueZeroIff(flags: seq<bool>)
    ensures CountTrue(flags) == 0 <==> forall i :: 0 <= i < |flags| ==> !flags[i]
    decreases |flags|
  {
    if |flags| > 0 {
      var init := flags[..|flags| - 1];
      CountTrueZeroIff(init);
      assert forall i :: 0 <= i < |init| ==> init[i] == flags[i];
    }
  }

  lemma {:induction false} CountTrueFullIff(flags: seq<bool>)
    ensures CountTrue(flags) == |flags| <==> forall i :: 0 <= i < |flags| ==> flags[i]
    decreases |flags|
  {
    if |flags| > 0 {
      var init := flags[..|flags| - 1];
      CountTrueFullIff(init);
      assert forall i :: 0 <= i < |init| ==> init[i] == flags[i];
    }
  }

  /** The count is zero exactly when every file marks the field Unsupported. */
  lemma CountZeroIffNoneCounts(exts: seq<string>, key: string, matrix: Matrix)
    ensures CountSupported(exts, key, matrix) == 0 <==> forall i :: 0 <= i < |exts| ==> !Counts(matrix, exts[i], key)
  {
    CountSupportedIsCountTrue(exts, key, matrix);
    CountTrueZeroIff(Flags(exts, key, matrix));
  }

  /** The count is the number of files exactly when none marks the field
      Unsupported. */
  lemma CountFullIffAllCount(exts: seq<string>, key: string, matrix: Matrix)
    ensures CountSupported(exts, key, matrix) == |exts| <==> forall i :: 0 <= i < |exts| ==> Counts(matrix, exts[i], key)
  {
    CountSupportedIsCountTrue(exts, key, matrix);
    CountTrueFullIff(Flags(exts, key, matrix));
  }

  /** With no files, every field is enabled with tooltip "No files". */
  lemma NoFilesEnablesAll(key: string, matrix: Matrix, showHidden: bool)
    ensures StateFor([], key, matrix, showHidden) == FieldState(true, "No files")
  {
  }

  /** A field is disabled only when there are files, none of them supports
      it and hidden fields are not shown; when none supports it, the
      enabled flag is ShowHiddenFields. */
  lemma DisabledExactlyWhenUnsupportedEverywhere(exts: seq<string>, key: string, matrix: Matrix, showHidden: bool)
    ensures !StateFor(exts, key, matrix, showHidden).isEnabled <==>
      |exts| > 0 && !showHidden && forall i :: 0 <= i < |exts| ==> !Counts(matrix, exts[i], key)
    ensures |exts| > 0 && (forall i :: 0 <= i < |exts| ==> !Counts(matrix, exts[i], key)) ==>
      StateFor(exts, key, matrix, showHidden) ==
        FieldState(showHidden, if showHidden then "Supported 0/" + NatToString(|exts|) else "Hidden")
  {
    CountZeroIffNoneCounts(exts, key, matrix);
  }

  /** Only a full count yields "Supported in all". */
  lemma VisibilityAllIff(total: nat, supported: nat, showHidden: bool)
    requires supported <= total
    ensures Visibility(total, supported, showHidden) == FieldState(true, "Supported in all") <==>
      total > 0 && supported == total
  {
    var all := "Supported in all";
    assert all[10] == 'i';
    var t := Visibility(total, supported, showHidden).tooltip;
    if total > 0 && supported == 0 && showHidden {
      assert t[10] == '0';
    } else if total > 0 && 0 < supported < total {
      var digits := NatToString(supported);
      assert t[10] == digits[0] && IsDigit(digits[0]);
    }
  }

  /** "Supported in all" appears exactly when there are files and each of
      them counts. */
  lemma SupportedInAllExactly(exts: seq<string>, key: string, matrix: Matrix, showHidden: bool)
    ensures StateFor(exts, key, matrix, showHidden) == FieldState(true, "Supported in all") <==>
      |exts| > 0 && forall i :: 0 <= i < |exts| ==> Counts(matrix, exts[i], key)
  {
    CountFullIffAllCount(exts, key, matrix);
    VisibilityAllIff(|exts|, CountSupported(exts, key, matrix), showHidden);
  }

  /** With some but not all files supporting the field, it is enabled and
      its tooltip is "Supported k/total". */
  lemma PartialSupportTooltip(exts: seq<string>, key: string, matrix: Matrix, showHidden: bool, i: nat, j: nat)
    requires i < |exts| && j < |exts|
    requires Counts(matrix, exts[i], key) && !Counts(matrix, exts[j], key)
    ensures StateFor(exts, key, matrix, showHidden) == FieldState(true,
      "Supported " + NatToString(CountSupported(exts, key, matrix)) + "/" + NatToString(|exts|))
    ensures 0 < CountSupported(exts, key, matrix) < |exts|
  {
    CountFullIffAllCount(exts, key, matrix);
    CountZeroIffNoneCounts(exts, key, matrix);
  }

  /** Without a capability matrix every lookup is Unknown, so every file
      counts and every field reads "Supported in all" once there is a file. */
  lemma NoMatrixCountsEverything(exts: seq<string>, key: string, showHidden: bool)
    ensures CountSupported(exts, key, None) == |exts|
    ensures |exts| > 0 ==> StateFor(exts, key, None, showHidden) == FieldState(true, "Supported in all")
  {
    forall i | 0 <= i < |exts| ensures Counts(None, exts[i], key) {
      GetSupportMeaning(None, exts[i], key);
    }
    CountFullIffAllCount(exts, key, None);
  }

  /** The inner loop's step: the count over the first `n + 1` files is the
      count over the first `n`, plus one when file `n`'s support is not
      Unsupported. */
  lemma CountStep(exts: seq<string>, n: nat, key: string, matrix: Matrix, support: CapabilitySupport)
    requires n < |exts| && support == GetSupport(matrix, exts[n], key)
    ensures CountSupported(exts[..n + 1], key, matrix) ==
      CountSupported(exts[..n], key, matrix) + (if support != CapabilitySupport.Unsupported then 1 else 0)
  {
    assert exts[..n + 1] == exts[..n] + [exts[n]];
    CountSnoc(exts[..n], exts[n], key, matrix);
  }

  /** Counting one more file adds one exactly when that file counts. */
  lemma CountSnoc(exts: seq<string>, ext: string, key: string, matrix: Matrix)
    ensures CountSupported(exts + [ext], key, matrix) ==
      CountSupported(exts, key, matrix) + (if Counts(matrix, ext, key) then 1 else 0)
  {
    assert (exts + [ext])[..|exts|] == exts;
  }
}
