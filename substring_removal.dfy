/** The per-file body of RemoveSubstringAsync (Core/ViewModels.cs:261-290):
    open the file, strip every case-insensitive occurrence of the substring
    from the chosen field, save, and log one line. Opening and saving are
    the `MediaFile` oracle of the tag backend. */
module SubstringRemoval {
  import opened Text
  import opened TagBackend

  /** The fields the switch handles; any other key changes nothing. */
  const StrippedFields: set<string> := {"Title", "Comment", "Artist", "Genre"}

  /** The message of the NullReferenceException thrown when the file has
      no tag and the switch reads `tag.Title` (or another slot). */
  const NullTagMessage: string := "Object reference not set to an instance of an object."

  /** `arr.Select(a => a.Replace(sub, "", OrdinalIgnoreCase))`. */
  function StripEach(parts: seq<string>, sub: string): (r: seq<string>)
    requires |sub| > 0
    ensures |r| == |parts|
    ensures forall i :: 0 <= i < |parts| ==> r[i] == RemoveIgnoreCase(parts[i], sub)
  {
    seq(|parts|, i requires 0 <= i < |parts| => RemoveIgnoreCase(parts[i], sub))
  }

  /** The tag after the switch, with the `oldv` and `newv` it logs. */
  datatype Stripped = Stripped(tag: Tag, oldText: string, newText: string)

  /** The switch of RemoveSubstringAsync on one tag. */
  function StripField(t: Tag, field: string, sub: string): (r: Stripped)
    requires |sub| > 0
    ensures r.tag.year == t.year && r.tag.copyright == t.copyright && r.tag.otherFrames == t.otherFrames
    ensures field != "Title" ==> r.tag.title == t.title
    ensures field != "Comment" ==> r.tag.comment == t.comment
    ensures field != "Artist" ==> r.tag.performers == t.performers
    ensures field != "Genre" ==> r.tag.genres == t.genres
    ensures field !in StrippedFields ==> r == Stripped(t, "", "")
    ensures |r.tag.title| <= |t.title| && |r.tag.comment| <= |t.comment|
    ensures |r.tag.performers| == |t.performers| && |r.tag.genres| == |t.genres|
  {
    if field == "Title" then
      var v := RemoveIgnoreCase(t.title, sub);
      Stripped(t.(title := v), t.title, v)
    else if field == "Comment" then
      var v := RemoveIgnoreCase(t.comment, sub);
      Stripped(t.(comment := v), t.comment, v)
    else if field == "Artist" then
      var a := StripEach(t.performers, sub);
      Stripped(t.(performers := a), Join("|", t.performers), Join("|", a))
    else if field == "Genre" then
      var g := StripEach(t.genres, sub);
      Stripped(t.(genres := g), Join("|", t.genres), Join("|", g))
    else Stripped(t, "", "")
  }

  /** One line of the removal log. */
  datatype LogEntry =
    | NoTagEntry(path: string)
    | ErrEntry(path: string, message: string)
    | OkEntry(path: string, field: string, oldText: string, newText: string)

  /** A path followed by the rest of a log line. */
  function RenderTail(p: string, tail: string): (r: string)
    requires |tail| >= 5
    ensures |r| == |p| + |tail| && r[..|p|] == p && r[|p|..] == tail
    ensures r[|p|..|p| + 5] == tail[..5] && r[|p|..|p| + 4] == tail[..4]
  {
    p + tail
  }

  /** The line as written to the log file. It starts with the file's path,
      and what follows the path tells the three kinds apart: exactly
      ",NO_TAG", or a line going on with ",ERR," and ending in the message,
      or with ",OK," and going on with the field, the old text, "->" and
      the new text. */
  function Render(e: LogEntry): (r: string)
    ensures |r| >= |e.path| + 5 && r[..|e.path|] == e.path
    ensures e.NoTagEntry? <==> r[|e.path|..] == ",NO_TAG"
    ensures e.ErrEntry? <==> r[|e.path|..|e.path| + 5] == ",ERR,"
    ensures e.OkEntry? <==> r[|e.path|..|e.path| + 4] == ",OK,"
    ensures e.ErrEntry? ==> r[|e.path| + 5..] == e.message
    ensures e.OkEntry? ==> r[|e.path| + 4..] == e.field + "," + e.oldText + "->" + e.newText
  {
    assert ",NO_TAG"[1] == 'N' && ",ERR,"[1] == 'E' && ",OK,"[1] == 'O';
    match e
    case NoTagEntry(p) =>
      var tail := ",NO_TAG";
      assert tail[..5][1] == 'N' && tail[..4][1] == 'N';
      RenderTail(p, tail)
    case ErrEntry(p, m) =>
      var tail := ",ERR," + m;
      assert tail[..5] == ",ERR," && tail[5..] == m;
      assert tail[1] == 'E' && tail[..4][1] == 'E';
      RenderTail(p, tail)
    case OkEntry(p, f, o, n) =>
      var tail := ",OK," + (f + "," + o + "->" + n);
      assert tail[..4] == ",OK," && tail[4..] == f + "," + o + "->" + n;
      assert tail[1] == 'O' && tail[..5][1] == 'O';
      RenderTail(p, tail)
  }

  /** The log entry of one file and the file as it is afterwards. */
  datatype FileOutcome = FileOutcome(entry: LogEntry, after: MediaFile)

  /** One iteration of the loop over the targets. The entry names its
      file; it is an OK entry exactly when the file opened, the switch did
      not dereference a missing tag and the save went through; the file
      changes only on an OK entry, and then holds the stripped tag. */
  function StripFile(path: string, file: MediaFile, field: string, sub: string): (r: FileOutcome)
    requires |sub| > 0
    ensures r.entry.path == path
    ensures r.entry.NoTagEntry? <==> file.handle.OpenThrows?
    ensures r.entry.OkEntry? <==>
      !file.handle.OpenThrows? && (file.handle.Tagged? || field !in StrippedFields) && file.saveError.None?
    ensures file.saveError.Some? && (file.handle.Tagged? || (file.handle.NoTag? && field !in StrippedFields)) ==>
      r.entry == ErrEntry(path, file.saveError.value)
    ensures file.handle.NoTag? && field in StrippedFields ==> r.entry == ErrEntry(path, NullTagMessage)
    ensures !r.entry.OkEntry? ==> r.after == file
    ensures r.entry.OkEntry? ==> r.entry.field == field
    ensures r.entry.OkEntry? && file.handle.Tagged? ==>
      var s := StripField(file.handle.tag, field, sub);
      r.after == MediaFile(Tagged(s.tag), None) && r.entry.oldText == s.oldText && r.entry.newText == s.newText
  {
    match file.handle
    case OpenThrows(_) => FileOutcome(NoTagEntry(path), file)
    case NoTag =>
      if field in StrippedFields then FileOutcome(ErrEntry(path, NullTagMessage), file)
      else if file.saveError.Some? then FileOutcome(ErrEntry(path, file.saveError.value), file)
      else FileOutcome(OkEntry(path, field, "", ""), file)
    case Tagged(t) =>
      var s := StripField(t, field, sub);
      if file.saveError.Some? then FileOutcome(ErrEntry(path, file.saveError.value), file)
      else FileOutcome(OkEntry(path, field, s.oldText, s.newText), MediaFile(Tagged(s.tag), None))
  }

  /** A title that holds no occurrence of the substring comes back unchanged,
      and the log shows it on both sides of the arrow. */
  lemma AbsentSubstringKeepsTitle(t: Tag, sub: string)
    requires |sub| > 0
    requires forall i: nat :: i < |t.title| ==> !OccursAt(t.title, sub, i)
    ensures StripField(t, "Title", sub) == Stripped(t, t.title, t.title)
  {
    RemoveIgnoreCaseNoOccurrence(t.title, sub);
  }

  /** The same for each performer: they all come back unchanged. */
  lemma AbsentSubstringKeepsPerformers(t: Tag, sub: string)
    requires |sub| > 0
    requires forall k: nat, i: nat :: k < |t.performers| && i < |t.performers[k]| ==> !OccursAt(t.performers[k], sub, i)
    ensures StripField(t, "Artist", sub).tag == t
  {
    forall k | 0 <= k < |t.performers| ensures StripEach(t.performers, sub)[k] == t.performers[k] {
      RemoveIgnoreCaseNoOccurrence(t.performers[k], sub);
    }
  }

  /** A title made only of repetitions of the substring, in any case,
      becomes empty. */
  lemma RepeatedSubstringEmptiesTitle(t: Tag, sub: string, n: nat)
    requires |sub| > 0 && t.title == Repeat(sub, n)
    ensures StripField(t, "Title", sub).tag.title == ""
  {
    RemoveIgnoreCaseRepeated(sub, n);
  }

  /** The removal log for the targets, one entry per file in order. */
  function RemoveLog(paths: seq<string>, media: string -> MediaFile, field: string, sub: string): (r: seq<FileOutcome>)
    requires |sub| > 0
    ensures |r| == |paths|
    ensures forall i :: 0 <= i < |paths| ==> r[i] == StripFile(paths[i], media(paths[i]), field, sub)
  {
    seq(|paths|, i requires 0 <= i < |paths| => StripFile(paths[i], media(paths[i]), field, sub))
  }
}
