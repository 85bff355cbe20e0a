/** The value types of Core/Models.cs: two enums and three init-only
    records. C# records become datatypes (immutable values); each record's
    property initialisers become a `Fresh…` constant. */
module Models {
  import opened Text

  /** Outcome of one write step as shown in the report. */
  datatype FieldStatus = Preview | Success | Partial | Failed | Unsupported

  /** What the capability matrix says about one (extension, field) pair. */
  datatype CapabilitySupport = Unknown | Supported | Conditional | Unsupported

  /** A named edit template: a value per field key and the checked keys. */
  datatype Preset = Preset(name: string, values: map<string, string>, checkedFields: set<string>)

  /** One entry of a file's report; `backupPath` is the C# nullable string. */
  datatype FieldResult = FieldResult(field: string, status: FieldStatus, message: string, backupPath: Option<string>)

  /** One file's outcome of an Apply run, keyed by result name ("Write"). */
  datatype FileReport = FileReport(filePath: string, fields: map<string, FieldResult>)

  /** `new Preset()`. */
  const FreshPreset: Preset := Preset("", map[], {})

  /** `new FieldResult()`. */
  const FreshFieldResult: FieldResult := FieldResult("", Preview, "", None)

  /** `new FileReport()`. */
  const FreshFileReport: FileReport := FileReport("", map[])

  /** The integer a C# enum member stands for (its declaration position). */
  function StatusOrdinal(s: FieldStatus): (n: nat)
    ensures n < 5
  {
    match s
    case Preview => 0
    case Success => 1
    case Partial => 2
    case Failed => 3
    case Unsupported => 4
  }

  function SupportOrdinal(c: CapabilitySupport): (n: nat)
    ensures n < 4
  {
    match c
    case Unknown => 0
    case Supported => 1
    case Conditional => 2
    case Unsupported => 3
  }

  /** `default(CapabilitySupport)`: the member whose value is 0. */
  const DefaultSupport: CapabilitySupport := Unknown

  /** The members of each enum in declaration order. */
  const AllStatuses: seq<FieldStatus> := [Preview, Success, Partial, Failed, FieldStatus.Unsupported]
  const AllSupports: seq<CapabilitySupport> := [Unknown, Supported, Conditional, CapabilitySupport.Unsupported]

  /** FieldStatus has exactly the five members listed, numbered 0..4 in
      declaration order, and a fresh FieldResult starts at Preview (0). */
  lemma FieldStatusMembers()
    ensures |AllStatuses| == 5
    ensures forall s: FieldStatus :: StatusOrdinal(s) < 5 && AllStatuses[StatusOrdinal(s)] == s
    ensures forall i :: 0 <= i < 5 ==> StatusOrdinal(AllStatuses[i]) == i
    ensures StatusOrdinal(FreshFieldResult.status) == 0
  {
  }

  /** CapabilitySupport has exactly the four members listed and Unknown,
      numbered 0, is the default one. */
  lemma CapabilitySupportMembers()
    ensures |AllSupports| == 4
    ensures forall c: CapabilitySupport :: SupportOrdinal(c) < 4 && AllSupports[SupportOrdinal(c)] == c
    ensures forall i :: 0 <= i < 4 ==> SupportOrdinal(AllSupports[i]) == i
    ensures SupportOrdinal(DefaultSupport) == 0 && DefaultSupport == AllSupports[0]
  {
  }

  /** The property initialisers: empty strings, empty collections, a null
      backup path and Preview status. */
  lemma FreshRecordDefaults()
    ensures FreshPreset.name == "" && FreshPreset.values == map[] && FreshPreset.checkedFields == {}
    ensures FreshFieldResult.field == "" && FreshFieldResult.message == ""
    ensures FreshFieldResult.status == Preview && FreshFieldResult.backupPath == None
    ensures FreshFileReport.filePath == "" && FreshFileReport.fields == map[]
  {
  }
}
