/** CapabilitySvc (Core/Services.cs:206-249): the capability matrix loaded
    from capability_matrix.json and the lookup of one (extension, field)
    pair in it. The JSON document is modelled as a token tree; reading and
    parsing the file is an oracle (`MatrixFile`). */
module Capability {
  import opened Text
  import opened Models

  /** A Newtonsoft token. A scalar is kept as the text `ToString()` gives
      it (a JSON `true` reads "True", a JSON null reads ""). */
  datatype JToken = JObject(props: map<string, JToken>) | JArray(items: seq<JToken>) | JValue(text: string)

  /** The static `matrix` field: the parsed root object, or null. */
  type Matrix = Option<map<string, JToken>>

  /** `(ext ?? "").TrimStart('.').ToLowerInvariant()`. */
  function ExtensionKey(ext: string): string
  {
    Lower(TrimLeadingDots(ext))
  }

  /** `formats[key] as JObject`, null when any step of the chain is missing
      or not an object. Property names are matched exactly, as JObject does. */
  function FormatNode(matrix: Matrix, ext: string): Option<map<string, JToken>>
  {
    if matrix.None? then None
    else if "formats" !in matrix.value || !matrix.value["formats"].JObject? then None
    else
      var formats := matrix.value["formats"].props;
      var key := ExtensionKey(ext);
      if key !in formats || !formats[key].JObject? then None
      else Some(formats[key].props)
  }

  /** The token `node[$"Supports{field}"]`, if there is one. */
  function Entry(matrix: Matrix, ext: string, field: string): Option<JToken>
  {
    var node := FormatNode(matrix, ext);
    if node.None? || "Supports" + field !in node.value then None
    else Some(node.value["Supports" + field])
  }

  /** `GetSupport(ext, field)`: total (the catch-all is not needed). */
  function GetSupport(matrix: Matrix, ext: string, field: string): CapabilitySupport
  {
    var e := Entry(matrix, ext, field);
    if e.None? then Unknown
    else
      // An object or array prints as JSON text starting with '{' or '[',
      // which equals neither "true" nor "unsupported".
      var text := if e.value.JValue? then e.value.text else "{";
      if EqualsIgnoreCase(text, "true") then Supported
      else if EqualsIgnoreCase(text, "unsupported") then CapabilitySupport.Unsupported
      else Conditional
  }

  /** Every missing step of the lookup gives Unknown (never Unsupported);
      a present token gives Supported when its text is "true" and
      Unsupported when it is "unsupported", ignoring case, and Conditional
      for anything else, objects and arrays included. */
  lemma GetSupportMeaning(matrix: Matrix, ext: string, field: string)
    ensures matrix.None? ==> GetSupport(matrix, ext, field) == Unknown
    ensures matrix.Some? && ("formats" !in matrix.value || !matrix.value["formats"].JObject?) ==>
      GetSupport(matrix, ext, field) == Unknown
    ensures FormatNode(matrix, ext).None? ==> GetSupport(matrix, ext, field) == Unknown
    ensures GetSupport(matrix, ext, field) == Unknown <==> Entry(matrix, ext, field).None?
    ensures GetSupport(matrix, ext, field) == Supported <==>
      Entry(matrix, ext, field).Some? && Entry(matrix, ext, field).value.JValue?
      && EqualsIgnoreCase(Entry(matrix, ext, field).value.text, "true")
    ensures GetSupport(matrix, ext, field) == CapabilitySupport.Unsupported <==>
      Entry(matrix, ext, field).Some? && Entry(matrix, ext, field).value.JValue?
      && EqualsIgnoreCase(Entry(matrix, ext, field).value.text, "unsupported")
    ensures GetSupport(matrix, ext, field) == Conditional <==>
      Entry(matrix, ext, field).Some?
      && !(Entry(matrix, ext, field).value.JValue? && EqualsIgnoreCase(Entry(matrix, ext, field).value.text, "true"))
      && !(Entry(matrix, ext, field).value.JValue? && EqualsIgnoreCase(Entry(matrix, ext, field).value.text, "unsupported"))
  {
    var brace := "{";
    assert Lower(brace)[0] == '{';
  }

  /** Leading dots and letter case do not change the lookup key. */
  lemma ExtensionKeyNormalises(ext: string)
    ensures ExtensionKey("." + ext) == ExtensionKey(ext)
    ensures ExtensionKey(Lower(ext)) == ExtensionKey(ext)
  {
    assert ("." + ext)[1..] == ext;
    TrimLeadingDotsOfLower(ext);
    LowerIdempotent(TrimLeadingDots(ext));
  }

  /** Extensions with the same key look up the same support. */
  lemma SameKeySameSupport(matrix: Matrix, e1: string, e2: string, field: string)
    requires ExtensionKey(e1) == ExtensionKey(e2)
    ensures GetSupport(matrix, e1, field) == GetSupport(matrix, e2, field)
  {
  }

  lemma LowerMkv()
    ensures Lower("MKV") == "mkv" && Lower("mkv") == "mkv"
  {
    var up, low := "MKV", "mkv";
    assert Lower(up)[0] == low[0] && Lower(up)[1] == low[1] && Lower(up)[2] == low[2];
  }

  lemma TrimDotsUpperMkv()
    ensures TrimLeadingDots(".MKV") == "MKV"
  {
    var s, t := ".MKV", "MKV";
    assert s[0] == '.' && s[1..] == t && t[0] == 'M';
  }

  lemma TrimDotsDoubleMkv()
    ensures TrimLeadingDots("..mkv") == "mkv"
  {
    var s, t, u := "..mkv", ".mkv", "mkv";
    assert s[0] == '.' && s[1..] == t;
    assert t[0] == '.' && t[1..] == u && u[0] == 'm';
  }

  /** ".MKV", "..mkv" and "mkv" all have the key "mkv". */
  lemma MkvKeys()
    ensures ExtensionKey(".MKV") == ExtensionKey("..mkv") == ExtensionKey("mkv") == "mkv"
  {
    LowerMkv();
    TrimDotsUpperMkv();
    TrimDotsDoubleMkv();
    assert TrimLeadingDots("MKV") == "MKV" && TrimLeadingDots("mkv") == "mkv";
  }

  /** ...and so look up the same support in any matrix. */
  lemma MkvSpellingsAgree(matrix: Matrix, field: string)
    ensures GetSupport(matrix, ".MKV", field) == GetSupport(matrix, "mkv", field) == GetSupport(matrix, "..mkv", field)
  {
    MkvKeys();
    SameKeySameSupport(matrix, ".MKV", "mkv", field);
    SameKeySameSupport(matrix, "..mkv", "mkv", field);
  }

  /** capability_matrix.json as LoadMatrix sees it: absent, unreadable
      (ReadAllText throws), or some text together with what JObject.Parse
      makes of it (None when it throws). */
  datatype MatrixFile = NoFile | Unreadable(error: string) | Present(text: string, parsed: Option<map<string, JToken>>)

  /** The service's static state. */
  class CapabilitySvc {
    var matrix: Matrix

    /** The static constructor: `matrix` starts null, then LoadMatrix runs. */
    constructor (file: MatrixFile)
      ensures file.Present? && IsBlank(file.text) ==> matrix == None
      ensures file.Present? && !IsBlank(file.text) ==> matrix == file.parsed
      ensures !file.Present? ==> matrix == None
    {
      matrix := None;
      new;
      LoadMatrix(file);
    }

    /** `LoadMatrix()`: a missing or unreadable file and a parse failure
        null the matrix; a blank file leaves it as it was. */
    method LoadMatrix(file: MatrixFile)
      modifies this
      ensures !file.Present? ==> matrix == None
      ensures file.Present? && IsBlank(file.text) ==> matrix == old(matrix)
      ensures file.Present? && !IsBlank(file.text) ==> matrix == file.parsed
    {
      match file
      case NoFile =>
        matrix := None;
      case Unreadable(_) =>
        matrix := None;
      case Present(text, parsed) =>
        if !IsBlank(text) {
          matrix := parsed;
        }
    }

    /** `ReloadIfPossible()`: the same as LoadMatrix, so a failed reload
        discards a previously loaded matrix. */
    method ReloadIfPossible(file: MatrixFile)
      modifies this
      ensures !file.Present? ==> matrix == None
      ensures file.Present? && IsBlank(file.text) ==> matrix == old(matrix)
      ensures file.Present? && !IsBlank(file.text) ==> matrix == file.parsed
    {
      LoadMatrix(file);
    }

    /** `GetSupport(ext, field)` against the current matrix. */
    function Support(ext: string, field: string): (r: CapabilitySupport)
      reads this
      ensures matrix.None? ==> r == Unknown
    {
      GetSupportMeaning(matrix, ext, field);
      GetSupport(matrix, ext, field)
    }
  }
}
