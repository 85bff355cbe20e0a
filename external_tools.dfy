/** ExternalToolsSvc (Core/Services.cs:153-204): the AtomicParsley and
    ExifTool fallbacks. Each maps a field to command-line arguments,
    refuses unmapped fields and an unconfigured executable without
    starting anything, and reads the process outcome. Starting the process,
    waiting for it and reading its stderr are an oracle (`ProcessRun`). */
module ExternalTools {
  import opened Text

  // ---------------------------------------------------------------------
  // Escape

  function CountQuotes(s: string): (n: nat)
    ensures n <= |s|
  {
    if |s| == 0 then 0 else (if s[0] == '"' then 1 else 0) + CountQuotes(s[1..])
  }

  /** `s.Replace("\"", "\\\"")`: every double quote gets a backslash in front. */
  function EscapeQuotes(s: string): (r: string)
    ensures |r| == |s| + CountQuotes(s)
    ensures |r| > 0 ==> r[0] != '"'
  {
    if |s| == 0 then ""
    else (if s[0] == '"' then "\\\"" else [s[0]]) + EscapeQuotes(s[1..])
  }

  /** `Escape(s)`: a C# null string gives "". */
  function Escape(s: Option<string>): (r: string)
    ensures s.None? ==> r == ""
    ensures s.Some? ==> |r| == |s.value| + CountQuotes(s.value)
    ensures forall i :: 0 <= i < |r| && r[i] == '"' ==> i > 0 && r[i - 1] == '\\'
  {
    if s.None? then ""
    else
      EscapedQuotesArePrefixed(s.value);
      EscapeQuotes(s.value)
  }

  lemma {:induction false} EscapedQuotesArePrefixed(s: string)
    ensures forall i :: 0 <= i < |EscapeQuotes(s)| && EscapeQuotes(s)[i] == '"' ==>
      i > 0 && EscapeQuotes(s)[i - 1] == '\\'
  {
    if |s| > 0 {
      EscapedQuotesArePrefixed(s[1..]);
      var head: string := if s[0] == '"' then "\\\"" else [s[0]];
      var tail := EscapeQuotes(s[1..]);
      assert EscapeQuotes(s) == head + tail;
      forall i | 0 <= i < |head + tail| && (head + tail)[i] == '"'
        ensures i > 0 && (head + tail)[i - 1] == '\\'
      {
        if i >= |head| {
          assert (head + tail)[i] == tail[i - |head|];
          assert i != |head|;
          assert (head + tail)[i - 1] == tail[i - 1 - |head|];
        }
      }
    }
  }

  /** The reading a quoting-aware consumer gives escaped text: `\"` is a quote. */
  function Unescape(s: string): string
  {
    if |s| >= 2 && s[0] == '\\' && s[1] == '"' then "\"" + Unescape(s[2..])
    else if |s| == 0 then ""
    else [s[0]] + Unescape(s[1..])
  }

  /** Escaping loses nothing: the escaped value reads back as the original. */
  lemma {:induction false} UnescapeEscape(s: string)
    ensures Unescape(EscapeQuotes(s)) == s
  {
    if |s| > 0 {
      var tail := EscapeQuotes(s[1..]);
      UnescapeEscape(s[1..]);
      if s[0] == '"' {
        assert EscapeQuotes(s) == "\\\"" + tail;
        assert ("\\\"" + tail)[2..] == tail;
      } else {
        assert EscapeQuotes(s) == [s[0]] + tail;
        assert ([s[0]] + tail)[1..] == tail;
      }
    }
  }

  // ---------------------------------------------------------------------
  // Process outcomes

  /** What happens once `Process.Start` is called: it throws, it returns
      null, reading `ExitCode` throws (the process is still running when
      its stderr closes: the result of `WaitForExit` is ignored and
      `ReadToEnd` waits for stderr to close, so a slow tool normally ends
      as `Exited` after an unbounded wait), or the process exited with a
      code and some stderr. */
  datatype ProcessRun =
    | StartThrows(error: string)
    | StartReturnsNull
    | ExitCodeThrows(error: string)
    | Exited(exitCode: int32, stderr: string)

  datatype Invocation = Invocation(exe: string, args: string)

  /** `(Success, Error)` plus the process the call started, if any. */
  datatype ToolResult = ToolResult(success: bool, error: string, started: Option<Invocation>)

  /** The common tail of both tools: interpret a started process. */
  function Outcome(inv: Invocation, run: ProcessRun, nullError: string): (r: ToolResult)
    ensures r.started == Some(inv)
    ensures r.success <==> run.Exited? && run.exitCode == 0
    ensures r.success ==> r.error == ""
    ensures run.Exited? && run.exitCode != 0 ==>
      r.error == if run.stderr == "" then "Exit " + IntToString(run.exitCode) else run.stderr
    ensures run.StartReturnsNull? ==> r.error == nullError
    ensures run.StartThrows? || run.ExitCodeThrows? ==> r.error == run.error
  {
    match run
    case StartThrows(e) => ToolResult(false, e, Some(inv))
    case StartReturnsNull => ToolResult(false, nullError, Some(inv))
    case ExitCodeThrows(e) => ToolResult(false, e, Some(inv))
    case Exited(code, err) =>
      if code != 0 then ToolResult(false, if err == "" then "Exit " + IntToString(code) else err, Some(inv))
      else ToolResult(true, "", Some(inv))
  }

  // ---------------------------------------------------------------------
  // AtomicParsley

  const AtomicParsleyFields: set<string> := {"title", "comment"}

  /** The argument string for a field AtomicParsley maps, after lower-casing it. */
  function AtomicParsleyArgs(path: string, field: string, value: string): (r: Option<string>)
    ensures r.Some? <==> Lower(field) in AtomicParsleyFields
  {
    var f := Lower(field);
    if f == "title" then Some("\"" + path + "\" --title \"" + Escape(Some(value)) + "\" --overWrite")
    else if f == "comment" then Some("\"" + path + "\" --comment \"" + Escape(Some(value)) + "\" --overWrite")
    else None
  }

  /** `TryWriteWithAtomicParsley(path, field, value)` with the configured
      executable `exe` and the outcome `run` of the process it would start. */
  function TryWriteWithAtomicParsley(exe: string, path: string, field: string, value: string, run: ProcessRun): (r: ToolResult)
    ensures exe == "" ==> r == ToolResult(false, "AtomicParsley not configured", None)
    ensures exe != "" && Lower(field) !in AtomicParsleyFields ==> r == ToolResult(false, "Field not supported", None)
    ensures r.started.Some? <==> exe != "" && Lower(field) in AtomicParsleyFields
    ensures r.started.Some? ==> r.started.value.exe == exe
    ensures r.success <==> r.started.Some? && run.Exited? && run.exitCode == 0
    ensures r.success ==> r.error == ""
    ensures r.started.Some? && run.Exited? && run.exitCode != 0 ==>
      r.error == if run.stderr == "" then "Exit " + IntToString(run.exitCode) else run.stderr
  {
    if exe == "" then ToolResult(false, "AtomicParsley not configured", None)
    else
      var args := AtomicParsleyArgs(path, field, value);
      if args.None? then ToolResult(false, "Field not supported", None)
      else Outcome(Invocation(exe, args.value), run, "AtomicParsley failed")
  }

  // ---------------------------------------------------------------------
  // ExifTool

  const ExifToolFields: set<string> := {"title", "comment", "director"}

  /** The `-Tag=value` switch for a field ExifTool maps, after lower-casing it. */
  function ExifToolTag(field: string, value: string): (r: Option<string>)
    ensures r.Some? <==> Lower(field) in ExifToolFields
  {
    var f := Lower(field);
    if f == "title" then Some("-Title=" + Escape(Some(value)))
    else if f == "comment" then Some("-Comment=" + Escape(Some(value)))
    else if f == "director" then Some("-Director=" + Escape(Some(value)))
    else None
  }

  /** `TryWriteWithExifTool(path, field, value)`, as above. */
  function TryWriteWithExifTool(exe: string, path: string, field: string, value: string, run: ProcessRun): (r: ToolResult)
    ensures exe == "" ==> r == ToolResult(false, "ExifTool not configured", None)
    ensures exe != "" && Lower(field) !in ExifToolFields ==> r == ToolResult(false, "Field not mapped", None)
    ensures r.started.Some? <==> exe != "" && Lower(field) in ExifToolFields
    ensures r.started.Some? ==> r.started.value.exe == exe
    ensures r.success <==> r.started.Some? && run.Exited? && run.exitCode == 0
    ensures r.success ==> r.error == ""
    ensures r.started.Some? && run.Exited? && run.exitCode != 0 ==>
      r.error == if run.stderr == "" then "Exit " + IntToString(run.exitCode) else run.stderr
  {
    if exe == "" then ToolResult(false, "ExifTool not configured", None)
    else
      var tag := ExifToolTag(field, value);
      if tag.None? then ToolResult(false, "Field not mapped", None)
      else Outcome(Invocation(exe, "-overwrite_original " + tag.value + " \"" + path + "\""), run, "exiftool failed")
  }

  /** A value without double quotes is left as it is by EscapeQuotes. */
  lemma {:induction false} EscapeQuotesOfQuoteFree(s: string)
    requires forall i :: 0 <= i < |s| ==> s[i] != '"'
    ensures EscapeQuotes(s) == s
  {
    if |s| > 0 {
      EscapeQuotesOfQuoteFree(s[1..]);
      assert s == [s[0]] + s[1..];
    }
  }

  /** The ExifTool switch is not quoted: a quote-free value, spaces
      included, stands bare after `-Title=` on the command line, so a
      value with a space reaches ExifTool as more than one argument. */
  lemma ExifToolTitleUnquoted(exe: string, path: string, value: string, run: ProcessRun)
    requires exe != ""
    requires forall i :: 0 <= i < |value| ==> value[i] != '"'
    ensures TryWriteWithExifTool(exe, path, "Title", value, run).started ==
      Some(Invocation(exe, "-overwrite_original -Title=" + value + " \"" + path + "\""))
  {
    EscapeQuotesOfQuoteFree(value);
    assert Lower("Title") == "title";
    assert ExifToolTag("Title", value) == Some("-Title=" + value);
    assert "-overwrite_original " + ("-Title=" + value) == "-overwrite_original -Title=" + value;
  }

  /** The field name's case does not matter to either tool. */
  lemma FieldCaseIrrelevant(exe: string, path: string, field: string, value: string, run: ProcessRun)
    ensures TryWriteWithAtomicParsley(exe, path, Lower(field), value, run) == TryWriteWithAtomicParsley(exe, path, field, value, run)
    ensures TryWriteWithExifTool(exe, path, Lower(field), value, run) == TryWriteWithExifTool(exe, path, field, value, run)
  {
    LowerIdempotent(field);
  }

  /** A value ending in a backslash, here `C:\`, is followed on the command
      line by `\"`: a reader that takes `\"` as a quote runs past the
      closing quote of the argument. */
  lemma TrailingBackslashEscapesClosingQuote()
    ensures EscapeQuotes("C:\\") == "C:\\"
    ensures Unescape(EscapeQuotes("C:\\") + "\"") == "C:\""
  {
    var v := "C:\\";
    assert EscapeQuotes(v[2..]) == "\\" by {
      assert v[2..][1..] == [];
    }
    assert EscapeQuotes(v[1..]) == ":\\" by {
      assert v[1..][1..] == v[2..];
    }
    assert EscapeQuotes(v) == v;
    var w := v + "\"";
    var w2 := w[2..];
    assert w2[0] == '\\' && w2[1] == '"' && w2[2..] == [];
    assert Unescape(w2) == "\"";
    assert w[1..][1..] == w2;
    assert Unescape(w[1..]) == ":\"";
    assert w[1..] == ":" + w2[..] && Unescape(w) == "C:\"";
  }

  /** The value reaches the AtomicParsley title argument as EscapeQuotes of
      it, between `--title "` and a closing quote, and Unescape inverts
      EscapeQuotes. Backslashes are not escaped, so this says nothing about
      where a reader of the whole command line finds the closing quote. */
  lemma AtomicParsleyTitleCarriesValue(path: string, value: string)
    ensures AtomicParsleyArgs(path, "title", value)
         == Some("\"" + path + "\" --title \"" + EscapeQuotes(value) + "\" --overWrite")
    ensures Unescape(EscapeQuotes(value)) == value
  {
    UnescapeEscape(value);
  }
}
