/** The records of the interview assistant (types.ts). */
module Types {

  datatype Option<T> = None | Some(value: T)

  /** A checklist point. `checkedByAI` is set by the validation step and
      `checkedByHuman` by the interviewer; the two are independent and an item
      counts as covered when either holds. `notes` is never written by the
      application: every item it creates carries the empty string there. */
  datatype ChecklistItem = ChecklistItem(
    id: string,
    text: string,
    checkedByAI: bool,
    checkedByHuman: bool,
    keywords: string,
    notes: string)
  {
    predicate Covered() {
      checkedByAI || checkedByHuman
    }
  }

  datatype QuestionItem = QuestionItem(id: string, text: string, asked: bool)

  /** A titled group owning an ordered sequence of items; checklist groups and
      question groups have the same shape and differ only in their items. */
  datatype Group<Item> = Group(id: string, title: string, items: seq<Item>)

  type ChecklistGroup = Group<ChecklistItem>
  type QuestionGroup = Group<QuestionItem>

  datatype InterviewStatus =
    | Idle | Configuring | Recording | Processing | Stopped | Error | Paused | Countdown

  const AllStatuses: seq<InterviewStatus> :=
    [Idle, Configuring, Recording, Processing, Stopped, Error, Paused, Countdown]

  /** The string literal the status has in the application. */
  function StatusName(s: InterviewStatus): string {
    match s
    case Idle => "idle"
    case Configuring => "configuring"
    case Recording => "recording"
    case Processing => "processing"
    case Stopped => "stopped"
    case Error => "error"
    case Paused => "paused"
    case Countdown => "countdown"
  }

  function StatusFromName(name: string): (r: Option<InterviewStatus>)
    ensures r.Some? ==> StatusName(r.value) == name
  {
    if name == "idle" then Some(Idle)
    else if name == "configuring" then Some(Configuring)
    else if name == "recording" then Some(Recording)
    else if name == "processing" then Some(Processing)
    else if name == "stopped" then Some(Stopped)
    else if name == "error" then Some(Error)
    else if name == "paused" then Some(Paused)
    else if name == "countdown" then Some(Countdown)
    else None
  }

  /** The status is a closed set of exactly eight values, each with its own
      name, and every name reads back as the status it names. */
  lemma StatusesAreEightNamedValues()
    ensures |AllStatuses| == 8
    ensures forall s: InterviewStatus :: s in AllStatuses
    ensures forall i, j :: 0 <= i < j < |AllStatuses| ==>
              StatusName(AllStatuses[i]) != StatusName(AllStatuses[j])
    ensures forall s: InterviewStatus :: StatusFromName(StatusName(s)) == Some(s)
  {
    forall s: InterviewStatus ensures s in AllStatuses && StatusFromName(StatusName(s)) == Some(s) {
      match s
      case Idle => assert AllStatuses[0] == s;
      case Configuring => assert AllStatuses[1] == s;
      case Recording => assert AllStatuses[2] == s;
      case Processing => assert AllStatuses[3] == s;
      case Stopped => assert AllStatuses[4] == s;
      case Error => assert AllStatuses[5] == s;
      case Paused => assert AllStatuses[6] == s;
      case Countdown => assert AllStatuses[7] == s;
    }
    forall i, j | 0 <= i < j < |AllStatuses|
      ensures StatusName(AllStatuses[i]) != StatusName(AllStatuses[j])
    {
      assert StatusFromName(StatusName(AllStatuses[i])) == Some(AllStatuses[i]);
      assert StatusFromName(StatusName(AllStatuses[j])) == Some(AllStatuses[j]);
    }
  }

  /** The three first-cycle coding techniques. */
  datatype CodeType = Descritivo | Processo | InVivo

  function CodeTypeName(t: CodeType): string {
    match t
    case Descritivo => "Descritivo"
    case Processo => "Processo"
    case InVivo => "In Vivo"
  }

  function CodeTypeFromName(name: string): (r: Option<CodeType>)
    ensures r.Some? ==> CodeTypeName(r.value) == name
  {
    if name == "Descritivo" then Some(Descritivo)
    else if name == "Processo" then Some(Processo)
    else if name == "In Vivo" then Some(InVivo)
    else None
  }

  lemma CodeTypeNamesRoundTrip()
    ensures forall t: CodeType :: CodeTypeFromName(CodeTypeName(t)) == Some(t)
    ensures CodeTypeFromName("Descriptive") == None
  {
  }

  datatype FirstCycleCode = FirstCycleCode(id: string, quote: string, code: string, codeType: CodeType)

  /** A finished interview; only `summary` may be absent. */
  datatype InterviewRecord = InterviewRecord(
    id: string,
    identifier: string,
    startTime: string,
    endTime: string,
    transcription: string,
    notes: string,
    summary: Option<string>)
}
