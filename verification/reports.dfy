/**
 * Record classification and typed decoding. The JSON library itself is
 * not modelled: the class peek and the field decoding are parameters.
 */
module Reports {
  import opened Wrappers

  /** One line read from the daemon, without its terminator. */
  type Line = string

  /** The typed report kinds unmarshalReport knows. */
  datatype ReportKind = TPV | SKY | GST | ATT | VERSION | DEVICES | PPS | ERROR

  /** The wire class tag of each kind. */
  function Tag(kind: ReportKind): string
  {
    match kind
    case TPV => "TPV"
    case SKY => "SKY"
    case GST => "GST"
    case ATT => "ATT"
    case VERSION => "VERSION"
    case DEVICES => "DEVICES"
    case PPS => "PPS"
    case ERROR => "ERROR"
  }

  /** The switch of unmarshalReport: which typed report a class tag is decoded into, if any. */
  function KindOf(tag: string): (kind: Option<ReportKind>)
    ensures kind.Some? ==> Tag(kind.value) == tag
    ensures kind.None? ==> forall k :: Tag(k) != tag
  {
    if tag == "TPV" then Some(TPV)
    else if tag == "SKY" then Some(SKY)
    else if tag == "GST" then Some(GST)
    else if tag == "ATT" then Some(ATT)
    else if tag == "VERSION" then Some(VERSION)
    else if tag == "DEVICES" then Some(DEVICES)
    else if tag == "PPS" then Some(PPS)
    else if tag == "ERROR" then Some(ERROR)
    else None
  }

  /** Every kind's tag is dispatched back to that kind, so the eight kinds are distinct. */
  lemma KindOfTag(kind: ReportKind)
    ensures KindOf(Tag(kind)) == Some(kind)
  {
  }

  lemma TagInjective(k1: ReportKind, k2: ReportKind)
    requires Tag(k1) == Tag(k2)
    ensures k1 == k2
  {
    KindOfTag(k1);
    KindOfTag(k2);
  }

  /** DEVICE, the empty class and lower-case spellings get no typed report. */
  lemma UntypedClasses()
    ensures KindOf("DEVICE") == None
    ensures KindOf("") == None
    ensures KindOf("tpv") == None
  {
  }

  /**
   * A decoded report: the value json.Unmarshal builds is determined by the
   * target it decodes into (a typed report, or an untyped value when the
   * tag is not one of the known kinds) and by the line it reads.
   */
  datatype Report = Report(kind: Option<ReportKind>, line: Line)

  /**
   * getClass: `peek` stands for decoding just the class field of a line;
   * None means the line is not valid JSON.
   */
  function GetClass(line: Line, peek: Line -> Option<string>): (tag: string)
    ensures peek(line).None? ==> tag == ""
    ensures peek(line).Some? ==> tag == peek(line).value
  {
    match peek(line)
    case None => ""
    case Some(c) => c
  }

  /**
   * unmarshalReport: pick the target from the class tag, then decode.
   * `unmarshal` says whether json.Unmarshal accepts the line for that target.
   */
  function UnmarshalReport(tag: string, line: Line, unmarshal: (Option<ReportKind>, Line) -> bool)
    : (r: Option<Report>)
    ensures r.Some? <==> unmarshal(KindOf(tag), line)
    ensures r.Some? ==> r.value.line == line
    ensures r.Some? && r.value.kind.Some? ==> Tag(r.value.kind.value) == tag
    ensures r.Some? && r.value.kind.None? ==> forall k :: Tag(k) != tag
  {
    var target := KindOf(tag);
    if unmarshal(target, line) then Some(Report(target, line)) else None
  }
}
