/** TagLibSvc (Core/Services.cs:102-151): the primary backend. A TagLib
    file handle is an oracle value — whether `File.Create` throws, whether
    the file has a tag, the tag it holds, and whether `Save` throws. The
    tag keeps the six slots the service touches and, opaquely, every
    other frame. A C# null string slot is modelled as "", a null array
    as []. */
module TagBackend {
  import opened Text

  datatype Tag = Tag(
    title: string,
    comment: string,
    performers: seq<string>,
    genres: seq<string>,
    year: uint32,
    copyright: string,
    otherFrames: map<string, string>)

  /** What `TFile.Create(path)` gives: an exception, a file whose `Tag` is
      null, or a file with a tag. */
  datatype TagHandle = OpenThrows(error: string) | NoTag | Tagged(tag: Tag)

  /** A media file as the backend sees it; `saveError` is what `Save()`
      would throw, if anything. */
  datatype MediaFile = MediaFile(handle: TagHandle, saveError: Option<string>)

  /** The keys ReadTags produces and TryWriteBasic understands. */
  const BasicKeys: set<string> := {"Title", "Comment", "Artist", "Genre", "Year", "Copyright"}

  /** The tag after TryWriteBasic's assignments. */
  function Edited(t: Tag, values: map<string, string>): Tag
  {
    var year := if "Year" in values then ParseUint(values["Year"]) else None;
    t.(title := if "Title" in values then values["Title"] else t.title,
       comment := if "Comment" in values then values["Comment"] else t.comment,
       performers := if "Artist" in values then [values["Artist"]] else t.performers,
       genres := if "Genre" in values then [values["Genre"]] else t.genres,
       year := if year.Some? then year.value else t.year,
       copyright := if "Copyright" in values then values["Copyright"] else t.copyright)
  }

  /** The dictionary ReadTags returns for a tag. */
  function TagMap(t: Tag): map<string, string>
  {
    var m0: map<string, string> := map[];
    var m1 := if t.title != "" then m0["Title" := t.title] else m0;
    var m2 := if t.comment != "" then m1["Comment" := t.comment] else m1;
    var m3 := if |t.performers| > 0 then m2["Artist" := Join(";", t.performers)] else m2;
    var m4 := if |t.genres| > 0 then m3["Genre" := Join(";", t.genres)] else m3;
    var m5 := if t.year != 0 then m4["Year" := NatToString(t.year)] else m4;
    if t.copyright != "" then m5["Copyright" := t.copyright] else m5
  }

  /** Which keys the dictionary holds and what it maps them to: each slot
      appears exactly when it is set (non-empty text, a non-empty list, a
      non-zero year), lists joined with ";" and the year in decimal. */
  lemma TagMapMeaning(t: Tag)
    ensures var d := TagMap(t);
      && d.Keys <= BasicKeys
      && ("Title" in d <==> t.title != "") && ("Title" in d ==> d["Title"] == t.title)
      && ("Comment" in d <==> t.comment != "") && ("Comment" in d ==> d["Comment"] == t.comment)
      && ("Artist" in d <==> |t.performers| > 0) && ("Artist" in d ==> d["Artist"] == Join(";", t.performers))
      && ("Genre" in d <==> |t.genres| > 0) && ("Genre" in d ==> d["Genre"] == Join(";", t.genres))
      && ("Year" in d <==> t.year != 0) && ("Year" in d ==> d["Year"] == NatToString(t.year))
      && ("Copyright" in d <==> t.copyright != "") && ("Copyright" in d ==> d["Copyright"] == t.copyright)
  {
  }

  /** `ReadTags(path)`: best effort, an empty dictionary on any failure. */
  method ReadTags(file: MediaFile) returns (d: map<string, string>)
    ensures !file.handle.Tagged? ==> d == map[]
    ensures file.handle.Tagged? ==> d == TagMap(file.handle.tag)
  {
    d := map[];
    if !file.handle.Tagged? {
      return;
    }
    var t := file.handle.tag;
    if t.title != "" { d := d["Title" := t.title]; }
    if t.comment != "" { d := d["Comment" := t.comment]; }
    if |t.performers| > 0 { d := d["Artist" := Join(";", t.performers)]; }
    if |t.genres| > 0 { d := d["Genre" := Join(";", t.genres)]; }
    if t.year != 0 { d := d["Year" := NatToString(t.year)]; }
    if t.copyright != "" { d := d["Copyright" := t.copyright]; }
  }

  /** `TryWriteBasic(path, values, out message)`: open, assign the slots
      whose keys are present, save. Succeeds exactly when the file opens
      with a tag and saves; otherwise reports the reason and leaves the
      file as it was. Year is assigned only when it parses as a `uint`. */
  method TryWriteBasic(file: MediaFile, values: map<string, string>) returns (ok: bool, message: string, after: MediaFile)
    ensures ok <==> file.handle.Tagged? && file.saveError.None?
    ensures file.handle.OpenThrows? ==> message == file.handle.error
    ensures file.handle.NoTag? ==> message == "Cannot open tag"
    ensures file.handle.Tagged? && file.saveError.Some? ==> message == file.saveError.value
    ensures !ok ==> after == file
    ensures ok ==> message == "" && after == MediaFile(Tagged(Edited(file.handle.tag, values)), None)
  {
    message := "";
    after := file;
    match file.handle
    case OpenThrows(e) =>
      ok, message := false, e;
    case NoTag =>
      ok, message := false, "Cannot open tag";
    case Tagged(tag) =>
      var t := tag;
      if "Title" in values { t := t.(title := values["Title"]); }
      if "Comment" in values { t := t.(comment := values["Comment"]); }
      if "Artist" in values { t := t.(performers := [values["Artist"]]); }
      if "Genre" in values { t := t.(genres := [values["Genre"]]); }
      if "Year" in values {
        var y := ParseUint(values["Year"]);
        if y.Some? { t := t.(year := y.value); }
      }
      if "Copyright" in values { t := t.(copyright := values["Copyright"]); }
      if file.saveError.Some? {
        ok, message := false, file.saveError.value;
      } else {
        ok := true;
        after := MediaFile(Tagged(t), None);
      }
  }

  /** Keys outside the six basic ones have no effect on the tag. */
  lemma EditedIgnoresOtherKeys(t: Tag, values: map<string, string>, k: string, v: string)
    requires k !in BasicKeys
    ensures Edited(t, values[k := v]) == Edited(t, values)
  {
  }

  /** Write then read: a non-empty Title comes back as written. */
  lemma WriteThenReadTitle(t: Tag, values: map<string, string>)
    requires "Title" in values && values["Title"] != ""
    ensures "Title" in TagMap(Edited(t, values)) && TagMap(Edited(t, values))["Title"] == values["Title"]
  {
  }

  /** Write then read: a year written as its canonical digits comes back unchanged. */
  lemma WriteThenReadYear(t: Tag, values: map<string, string>, n: uint32)
    requires "Year" in values && values["Year"] == NatToString(n) && n != 0
    ensures "Year" in TagMap(Edited(t, values)) && TagMap(Edited(t, values))["Year"] == values["Year"]
  {
    ParseUintOfToString(n);
  }

  /** A Year value that does not parse is skipped silently: the year slot
      keeps its old value. */
  lemma UnparsableYearSkipped(t: Tag, values: map<string, string>)
    requires "Year" in values && ParseUint(values["Year"]).None?
    ensures Edited(t, values).year == t.year
  {
  }

  /** A blank Artist is stored as the one-element list [""], which ReadTags
      reports as a present, empty "Artist" entry. */
  lemma BlankArtistReadsAsEmptyEntry(t: Tag, values: map<string, string>)
    requires "Artist" in values && values["Artist"] == ""
    ensures Edited(t, values).performers == [""]
    ensures "Artist" in TagMap(Edited(t, values)) && TagMap(Edited(t, values))["Artist"] == ""
  {
  }

  /** Edits {Title: "New", Year: "abc"}: the title is replaced, the
      non-numeric year is skipped, and nothing else in the tag changes. */
  lemma TitleWrittenNonNumericYearSkipped(t: Tag)
    ensures Edited(t, map["Title" := "New", "Year" := "abc"]) == t.(title := "New")
  {
    ParseUintRejectsLetters("abc", 0);
  }
}
