/**
 * The content model of the Gemini console command: the role of a turn, the two kinds
 * of part a turn is made of, the turn itself, and the generation request that carries
 * the whole conversation, the target model and the safety settings.
 */
module Content {

  datatype Option<+T> = None | Some(value: T)

  /** The author of a turn. */
  datatype Role = User | Model

  /** The string value the role enumeration carries (what the history table shows). */
  function RoleValue(r: Role): (v: string)
    ensures v == "user" <==> r == User
    ensures v == "model" <==> r == Model
  {
    match r
    case User => "user"
    case Model => "model"
  }

  /** A part of a turn: inline text, or an inline blob with its MIME type and base64 data. */
  datatype Part = TextPart(text: string) | BlobPart(mimeType: string, data: string)

  /** One turn of the conversation: its author and its ordered parts. */
  datatype Turn = Turn(role: Role, parts: seq<Part>)

  /** A file as the command sends it: its MIME type and its contents in base64. */
  datatype Attachment = Attachment(mimeType: string, data: string)

  /** One blob part per attachment, in the order of the attachments. */
  function BlobParts(files: seq<Attachment>): (ps: seq<Part>)
    ensures |ps| == |files|
    ensures forall i {:trigger ps[i]} :: 0 <= i < |files| ==>
              ps[i] == BlobPart(files[i].mimeType, files[i].data)
  {
    if files == [] then []
    else [BlobPart(files[0].mimeType, files[0].data)] + BlobParts(files[1..])
  }

  /**
   * The turn built from what the user typed and the files attached to it: role User,
   * the typed text first, then one blob per file in selection order.
   */
  function UserTurn(text: string, files: seq<Attachment>): (t: Turn)
    ensures t.role == User
    ensures |t.parts| == 1 + |files|
    ensures t.parts[0] == TextPart(text)
    ensures forall i :: 0 <= i < |files| ==>
              t.parts[1 + i] == BlobPart(files[i].mimeType, files[i].data)
  {
    Turn(User, [TextPart(text)] + BlobParts(files))
  }

  datatype HarmCategory =
    | HarmCategoryHarassment
    | HarmCategoryHateSpeech
    | HarmCategorySexuallyExplicit
    | HarmCategoryDangerousContent

  datatype SafetyThreshold = BlockNone | BlockLowAndAbove | BlockMediumAndAbove | BlockOnlyHigh

  datatype SafetySetting = SafetySetting(category: HarmCategory, threshold: SafetyThreshold)

  /** The model every request of the command is addressed to. */
  const ModelId: string := "publishers/google/models/gemini-experimental"

  /** The safety settings attached to every request, in the order the command lists them. */
  const SafetyPolicy: seq<SafetySetting> := [
    SafetySetting(HarmCategoryHarassment, BlockOnlyHigh),
    SafetySetting(HarmCategoryHateSpeech, BlockOnlyHigh),
    SafetySetting(HarmCategorySexuallyExplicit, BlockOnlyHigh),
    SafetySetting(HarmCategoryDangerousContent, BlockOnlyHigh)
  ]

  /** A generation request: the model, the conversation so far, the safety settings. */
  datatype Request = Request(model: string, contents: seq<Turn>, safetySettings: seq<SafetySetting>)

  /**
   * The request the command sends for a given conversation: the whole conversation, addressed
   * to the fixed model, with one setting per harm category, each blocking only high severity.
   */
  function BuildRequest(contents: seq<Turn>): (r: Request)
    ensures r.model == ModelId && r.contents == contents
    ensures |r.safetySettings| == 4
    ensures forall i :: 0 <= i < |r.safetySettings| ==> r.safetySettings[i].threshold == BlockOnlyHigh
    ensures forall c: HarmCategory :: Governs(r.safetySettings, c)
  {
    SafetyPolicyOnePerCategory();
    Request(ModelId, contents, SafetyPolicy)
  }

  /** Some entry of the settings is about category c. */
  predicate Governs(settings: seq<SafetySetting>, c: HarmCategory)
  {
    exists i :: 0 <= i < |settings| && settings[i].category == c
  }

  /** The safety policy holds exactly one entry per harm category, each blocking only high severity. */
  lemma SafetyPolicyOnePerCategory()
    ensures |SafetyPolicy| == 4
    ensures forall i :: 0 <= i < |SafetyPolicy| ==> SafetyPolicy[i].threshold == BlockOnlyHigh
    ensures forall c: HarmCategory :: Governs(SafetyPolicy, c)
    ensures forall i, j :: 0 <= i < j < |SafetyPolicy| ==> SafetyPolicy[i].category != SafetyPolicy[j].category
  {
    forall c: HarmCategory
      ensures Governs(SafetyPolicy, c)
    {
      match c
      case HarmCategoryHarassment => assert SafetyPolicy[0].category == c;
      case HarmCategoryHateSpeech => assert SafetyPolicy[1].category == c;
      case HarmCategorySexuallyExplicit => assert SafetyPolicy[2].category == c;
      case HarmCategoryDangerousContent => assert SafetyPolicy[3].category == c;
    }
  }
}
