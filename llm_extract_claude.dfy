/** Case-study extraction with the Anthropic model: the prompt, the
    fenced-JSON payload, required-field validation, the estimation override
    and the two-attempt loop. The model call and `JSON.parse` are
    parameters. */
module LlmExtractClaude {
  import opened Wrappers
  import opened JsString
  import opened Schema
  import ExtractionPrompt
  import ResearchEngine

  /** A parsed JSON value: a string, or anything else. */
  datatype Json = JStr(s: string) | JOther

  type JsonObject = map<string, Json>

  /** The first block of the model's reply. */
  datatype ModelReply = TextBlock(text: string) | OtherBlock

  // ---------------------------------------------------------------------
  // Payload: /```json\n?([\s\S]*?)\n?```/
  // ---------------------------------------------------------------------

  const FenceOpen: string := "```json"
  const Fence: string := "```"
  const NewlineFence: string := "\n```"

  /** The lazy capture may end at `e`: a closing fence, optionally preceded
      by a newline, starts there. */
  predicate ClosesAt(s: string, e: nat) {
    OccursAt(s, NewlineFence, e) || OccursAt(s, Fence, e)
  }

  function FirstClose(s: string, from: nat): (r: Option<nat>)
    ensures r.Some? ==> from <= r.value && ClosesAt(s, r.value)
    ensures r.Some? ==> forall e :: from <= e < r.value ==> !ClosesAt(s, e)
    ensures r.None? ==> forall e :: from <= e ==> !ClosesAt(s, e)
    decreases |s| - from
  {
    if from + |Fence| > |s| then None
    else if ClosesAt(s, from) then Some(from)
    else FirstClose(s, from + 1)
  }

  /** Where the capture starts after an opening fence at `p`: one newline
      is skipped. */
  function CaptureStart(s: string, p: nat): nat {
    if p + |FenceOpen| < |s| && s[p + |FenceOpen|] == '\n' then p + |FenceOpen| + 1 else p + |FenceOpen|
  }

  /** The text JSON.parse receives: the capture of the first match of the
      fence pattern, or the whole reply when there is no match. The first
      opening fence is the leftmost match start; when no closing fence
      follows it, none follows a later one either. */
  function FencePayload(text: string): (r: string)
    ensures !Includes(text, FenceOpen) ==> r == text
    ensures |r| <= |text|
  {
    match IndexOfFrom(text, FenceOpen, 0)
    case None => text
    case Some(p) =>
      var c := CaptureStart(text, p);
      match FirstClose(text, c)
      case None => text
      case Some(e) => if e <= |text| then text[c..e] else text
  }

  /** A fenced body without backticks comes back unchanged. */
  lemma FencePayloadRoundTrip(body: string)
    requires '`' !in body
    ensures FencePayload(FenceOpen + "\n" + body + NewlineFence) == body
  {
    var t := FenceOpen + "\n" + body + NewlineFence;
    assert OccursAt(t, FenceOpen, 0);
    assert IndexOfFrom(t, FenceOpen, 0) == Some(0);
    assert t[7] == '\n';
    var c := CaptureStart(t, 0);
    assert c == 8;
    var end := c + |body|;
    forall e | c <= e < end ensures !ClosesAt(t, e) {
      assert t[e] == body[e - c] && t[e] != '`';
      var next := if e + 1 < end then body[e + 1 - c] else '\n';
      assert e + 1 < |t| && t[e + 1] == next && next != '`';
    }
    assert t[end..end + 4] == NewlineFence;
    assert ClosesAt(t, end);
    assert FirstClose(t, c) == Some(end);
    assert t[c..end] == body;
  }

  // ---------------------------------------------------------------------
  // Validation and the estimation override
  // ---------------------------------------------------------------------

  /** The twenty keys the parsed object must carry, in checking order. */
  const RequiredFields: seq<string> := [
    "ID", "タイトル", "業種", "サブ領域", "目的/KPI", "トリガー種別", "入力ソース",
    "出力先", "主要n8nノード", "外部API/連携ツール", "ワークフロー概要", "実装難易度",
    "規模目安", "成果/ROI", "運用上のリスク/前提", "地域/言語", "出典URL", "情報の種類",
    "公開日/更新日", "重複判定キー"
  ]

  /** The required keys are exactly the report columns, in column order. */
  lemma RequiredFieldsAreColumns()
    ensures RequiredFields == FieldNames
  {
  }

  /** The first key of `fields` at or after `from` that the object lacks. */
  function FirstMissing(rec: JsonObject, fields: seq<string>, from: nat): (r: Option<nat>)
    ensures r.Some? ==> from <= r.value < |fields| && fields[r.value] !in rec
    ensures r.Some? ==> forall j :: from <= j < r.value ==> fields[j] in rec
    ensures r.None? ==> forall j :: from <= j < |fields| ==> fields[j] in rec
    decreases |fields| - from
  {
    if from >= |fields| then None
    else if fields[from] !in rec then Some(from)
    else FirstMissing(rec, fields, from + 1)
  }

  /** The check of validateRecord against a list of keys. */
  function ValidateFields(rec: JsonObject, fields: seq<string>): (r: Option<string>)
    ensures r.None? <==> forall j :: 0 <= j < |fields| ==> fields[j] in rec
    ensures r.Some? ==> exists k :: (0 <= k < |fields| && r.value == "Missing required field: " + fields[k]
      && fields[k] !in rec && forall j :: 0 <= j < k ==> fields[j] in rec)
  {
    match FirstMissing(rec, fields, 0)
    case None => None
    case Some(k) => Some("Missing required field: " + fields[k])
  }

  /** validateRecord. */
  function ValidateRecord(rec: JsonObject): Option<string> {
    ValidateFields(rec, RequiredFields)
  }

  /** The error names the first required key that is absent. Only presence
      is checked; any value, even empty or not a string, passes. */
  lemma ValidateRecordSpec(rec: JsonObject)
    ensures ValidateRecord(rec).None? <==> forall j :: 0 <= j < |RequiredFields| ==> RequiredFields[j] in rec
    ensures ValidateRecord(rec).Some? ==> exists k :: (0 <= k < |RequiredFields|
      && ValidateRecord(rec).value == "Missing required field: " + RequiredFields[k]
      && RequiredFields[k] !in rec && forall j :: 0 <= j < k ==> RequiredFields[j] in rec)
  {
    var r := ValidateFields(rec, RequiredFields);
    assert ValidateRecord(rec) == r;
  }

  /** The thirteen fields inspected for an estimated value. */
  const EstimationFields: seq<string> := [
    "サブ領域", "目的/KPI", "トリガー種別", "入力ソース", "出力先", "主要n8nノード",
    "外部API/連携ツール", "ワークフロー概要", "実装難易度", "規模目安", "成果/ROI",
    "運用上のリスク/前提", "地域/言語"
  ]

  const EstimatedPrefix: string := "推定:"
  const InfoTypeField: string := "情報の種類"

  predicate IsEstimated(rec: JsonObject, f: string) {
    f in rec && rec[f].JStr? && StartsWith(rec[f].s, EstimatedPrefix)
  }

  function AnyEstimated(rec: JsonObject, fields: seq<string>): (r: bool)
    ensures r <==> exists i :: 0 <= i < |fields| && IsEstimated(rec, fields[i])
  {
    if fields == [] then false
    else IsEstimated(rec, fields[0]) || AnyEstimated(rec, fields[1..])
  }

  /** checkForEstimation: some inspected field is a string starting with
      推定:. */
  function CheckForEstimation(rec: JsonObject): bool {
    AnyEstimated(rec, EstimationFields)
  }

  lemma CheckForEstimationSpec(rec: JsonObject)
    ensures CheckForEstimation(rec) <==> exists i :: 0 <= i < |EstimationFields| && IsEstimated(rec, EstimationFields[i])
  {
    var r := AnyEstimated(rec, EstimationFields);
    assert CheckForEstimation(rec) == r;
  }

  /** A field that is not inspected cannot change the verdict. */
  lemma EstimationIgnores(rec: JsonObject, f: string, v: Json)
    requires f !in EstimationFields
    ensures CheckForEstimation(rec[f := v]) == CheckForEstimation(rec)
  {
    CheckForEstimationSpec(rec);
    CheckForEstimationSpec(rec[f := v]);
    forall i | 0 <= i < |EstimationFields|
      ensures IsEstimated(rec[f := v], EstimationFields[i]) == IsEstimated(rec, EstimationFields[i])
    {
      assert EstimationFields[i] != f;
    }
  }

  /** タイトル, 業種, ID, 出典URL, 情報の種類, 公開日/更新日 and 重複判定キー are
      not inspected. */
  lemma UninspectedFields()
    ensures forall f :: (f in ["タイトル", "業種", "ID", "出典URL", "情報の種類", "公開日/更新日", "重複判定キー"]
      ==> f !in EstimationFields)
  {
  }

  /** The override: 情報の種類 becomes 推定 when an estimate is present;
      otherwise the object is kept as the model wrote it. */
  function ApplyEstimation(rec: JsonObject): (r: JsonObject)
    ensures CheckForEstimation(rec) ==> InfoTypeField in r && r[InfoTypeField] == JStr("推定")
    ensures !CheckForEstimation(rec) ==> r == rec
    ensures r.Keys == rec.Keys || r.Keys == rec.Keys + {InfoTypeField}
    ensures forall k :: k in rec && k != InfoTypeField ==> k in r && r[k] == rec[k]
  {
    if CheckForEstimation(rec) then rec[InfoTypeField := JStr("推定")] else rec
  }

  /** The override keeps a valid object valid and is idempotent. */
  lemma ApplyEstimationStable(rec: JsonObject)
    ensures ValidateRecord(rec).None? ==> ValidateRecord(ApplyEstimation(rec)).None?
    ensures CheckForEstimation(ApplyEstimation(rec)) == CheckForEstimation(rec)
    ensures ApplyEstimation(ApplyEstimation(rec)) == ApplyEstimation(rec)
  {
    ValidateRecordSpec(rec);
    ValidateRecordSpec(ApplyEstimation(rec));
    if CheckForEstimation(rec) {
      EstimationIgnores(rec, InfoTypeField, JStr("推定"));
    }
  }

  // ---------------------------------------------------------------------
  // The two-attempt loop
  // ---------------------------------------------------------------------

  const MissingKeyError: string := "ANTHROPIC_API_KEY is not set"
  const AttemptCount: nat := 2
  const RetryWaitMs: nat := 2000

  /** The outcome of one attempt: the validated, overridden object, or
      `None` when the call fails, the block is not text, the payload does
      not parse or a required key is missing. */
  function AttemptResult(reply: Result<ModelReply, string>, parseJson: string -> Option<JsonObject>): (r: Option<JsonObject>)
  {
    match reply
    case Err(_) => None
    case Ok(OtherBlock) => None
    case Ok(TextBlock(text)) =>
      match parseJson(FencePayload(text))
      case None => None
      case Some(rec) =>
        if ValidateRecord(rec).Some? then None
        else Some(ApplyEstimation(rec))
  }

  /** A successful attempt holds a valid object whose 情報の種類 is 推定
      whenever it carries an estimate, and it comes from a text block whose
      parsed payload passed validation. */
  lemma AttemptResultValid(reply: Result<ModelReply, string>, parseJson: string -> Option<JsonObject>)
    ensures var r := AttemptResult(reply, parseJson);
      r.Some? ==>
        && ValidateRecord(r.value).None?
        && (CheckForEstimation(r.value) ==> InfoTypeField in r.value && r.value[InfoTypeField] == JStr("推定"))
        && reply.Ok? && reply.value.TextBlock?
        && parseJson(FencePayload(reply.value.text)).Some?
        && ValidateRecord(parseJson(FencePayload(reply.value.text)).value).None?
        && r.value == ApplyEstimation(parseJson(FencePayload(reply.value.text)).value)
  {
    if reply.Ok? && reply.value.TextBlock? && parseJson(FencePayload(reply.value.text)).Some? {
      ApplyEstimationStable(parseJson(FencePayload(reply.value.text)).value);
    }
  }

  /** The message sent to the model. */
  function MessageContent(systemPrompt: string, data: ExtractedData, primaryDomains: seq<string>): string {
    systemPrompt + "\n\n" + ExtractionPrompt.GenerateExtractionPrompt(
      data.url, data.content, ResearchEngine.InitialHint(data.host, primaryDomains),
      data.publishedDate, data.updatedDate, data.detectedLang, data.detectedRegion)
  }

  /** The result, the number of model calls and the requested waits. */
  datatype LlmRun = LlmRun(result: Result<Option<JsonObject>, string>, calls: nat, waits: seq<nat>)

  /** extractWithLLM: a missing key throws; otherwise two attempts with one
      2000 ms wait between them, and `None` when both fail. */
  function ExtractRun(data: ExtractedData, apiKey: Option<string>, primaryDomains: seq<string>, systemPrompt: string,
                      call: (string, nat) -> Result<ModelReply, string>, parseJson: string -> Option<JsonObject>): LlmRun
  {
    if apiKey.None? || apiKey.value == [] then LlmRun(Err(MissingKeyError), 0, [])
    else AttemptsRun(MessageContent(systemPrompt, data, primaryDomains), call, parseJson)
  }

  /** Two attempts with the same message and one wait between them. */
  function AttemptsRun(msg: string, call: (string, nat) -> Result<ModelReply, string>,
                       parseJson: string -> Option<JsonObject>): LlmRun
  {
    var first := AttemptResult(call(msg, 0), parseJson);
    if first.Some? then LlmRun(Ok(first), 1, [])
    else LlmRun(Ok(AttemptResult(call(msg, 1), parseJson)), 2, [RetryWaitMs])
  }

  /** What a run promises: the error only for a missing key, at most two
      calls with one wait fewer, the first successful attempt returned, and
      `None` only after both attempts failed. */
  lemma ExtractRunProperties(data: ExtractedData, apiKey: Option<string>, primaryDomains: seq<string>, systemPrompt: string,
                             call: (string, nat) -> Result<ModelReply, string>, parseJson: string -> Option<JsonObject>)
    ensures var run := ExtractRun(data, apiKey, primaryDomains, systemPrompt, call, parseJson);
      && (run.result.Err? <==> apiKey.None? || apiKey.value == [])
      && (run.result.Err? ==> run.calls == 0 && run.waits == [])
      && (run.result.Ok? ==> AttemptsProperties(run, MessageContent(systemPrompt, data, primaryDomains), call, parseJson))
  {
    if !(apiKey.None? || apiKey.value == []) {
      AttemptsRunProperties(MessageContent(systemPrompt, data, primaryDomains), call, parseJson);
    }
  }

  /** At most two calls with one wait fewer, the first successful attempt
      returned, and `None` only after both attempts failed. */
  predicate AttemptsProperties(run: LlmRun, msg: string, call: (string, nat) -> Result<ModelReply, string>,
                               parseJson: string -> Option<JsonObject>)
  {
    && run.result.Ok?
    && 1 <= run.calls <= AttemptCount && |run.waits| == run.calls - 1
    && (forall i :: 0 <= i < |run.waits| ==> run.waits[i] == RetryWaitMs)
    && (run.result.value.None? ==>
          && run.calls == 2
          && AttemptResult(call(msg, 0), parseJson).None?
          && AttemptResult(call(msg, 1), parseJson).None?)
    && (run.result.value.Some? ==>
          && ValidateRecord(run.result.value.value).None?
          && (run.calls == 2 ==> AttemptResult(call(msg, 0), parseJson).None?)
          && run.result.value == AttemptResult(call(msg, run.calls - 1), parseJson))
  }

  /** The two attempts keep those promises, for any message. */
  lemma AttemptsRunProperties(msg: string, call: (string, nat) -> Result<ModelReply, string>,
                              parseJson: string -> Option<JsonObject>)
    ensures AttemptsProperties(AttemptsRun(msg, call, parseJson), msg, call, parseJson)
  {
    AttemptResultValid(call(msg, 0), parseJson);
    AttemptResultValid(call(msg, 1), parseJson);
  }

  /** The attempt loop of extractWithLLM. */
  method AttemptLoop(msg: string, call: (string, nat) -> Result<ModelReply, string>, parseJson: string -> Option<JsonObject>)
    returns (result: Result<Option<JsonObject>, string>, calls: nat, waits: seq<nat>)
    ensures LlmRun(result, calls, waits) == AttemptsRun(msg, call, parseJson)
  {
    calls, waits := 0, [];
    for attempt := 0 to AttemptCount
      invariant calls == attempt
      invariant attempt >= 1 ==> AttemptResult(call(msg, 0), parseJson).None?
      invariant attempt == 2 ==> AttemptResult(call(msg, 1), parseJson).None?
      invariant waits == if attempt == 0 then [] else [RetryWaitMs]
    {
      var outcome := AttemptResult(call(msg, attempt), parseJson);
      calls := calls + 1;
      if outcome.Some? {
        return Ok(outcome), calls, waits;
      }
      if attempt < 1 {
        waits := waits + [RetryWaitMs];
      }
    }
    return Ok(None), calls, waits;
  }

  /** extractWithLLM. The `initialInfoType` argument is accepted and never
      read: the prompt's hint is recomputed from the host. */
  method ExtractWithLlm(data: ExtractedData, initialInfoType: InfoHint, apiKey: Option<string>, primaryDomains: seq<string>,
                        systemPrompt: string, call: (string, nat) -> Result<ModelReply, string>,
                        parseJson: string -> Option<JsonObject>)
    returns (result: Result<Option<JsonObject>, string>, calls: nat, waits: seq<nat>)
    ensures LlmRun(result, calls, waits) == ExtractRun(data, apiKey, primaryDomains, systemPrompt, call, parseJson)
  {
    if apiKey.None? || apiKey.value == [] {
      return Err(MissingKeyError), 0, [];
    }
    var msg := MessageContent(systemPrompt, data, primaryDomains);
    result, calls, waits := AttemptLoop(msg, call, parseJson);
  }
}
