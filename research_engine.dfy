/** The template-driven research engine: per-task outcome and audit log,
    key-based de-duplication switchable by configuration, positional IDs,
    and the abort on an empty extraction. */
module ResearchEngine {
  import opened Wrappers
  import opened JsString
  import opened Seqs
  import opened FirstSeen
  import opened Schema
  import Normalize

  /** A record of a template's schema: field name to value. */
  type GenericRecord = map<string, string>

  const SkippedReason: string := "Content too short or fetch failed"
  const ExtractionFailedReason: string := "LLM extraction failed"

  // ---------------------------------------------------------------------
  // Classification hint
  // ---------------------------------------------------------------------

  /** Primary when the fetched host contains one of the primary-information
      domains. */
  function InitialHint(host: string, primaryDomains: seq<string>): (h: InfoHint)
    ensures h == PrimaryHint <==> exists i :: 0 <= i < |primaryDomains| && Includes(host, primaryDomains[i])
  {
    if exists i :: 0 <= i < |primaryDomains| && Includes(host, primaryDomains[i]) then PrimaryHint
    else SecondaryHint
  }

  // ---------------------------------------------------------------------
  // One task: fetch, hint, extract, log
  // ---------------------------------------------------------------------

  /** What the collaborators of one task deliver: the fetched page (or the
      error fetching threw), the extractor as a function of page and hint
      (a record, no record, or a thrown error), and the elapsed seconds. */
  datatype TaskEnv = TaskEnv(
    fetched: Result<Option<ExtractedData>, string>,
    extract: (ExtractedData, InfoHint) -> Result<Option<GenericRecord>, string>,
    elapsedSec: real
  )

  /** The record's information type for the log, "unknown" when missing or
      empty. */
  function LoggedInfoType(rec: GenericRecord): (r: string)
    ensures r != []
    ensures "情報の種類" in rec && rec["情報の種類"] != [] ==> r == rec["情報の種類"]
    ensures "情報の種類" !in rec || rec["情報の種類"] == [] ==> r == "unknown"
  {
    if "情報の種類" in rec && rec["情報の種類"] != [] then rec["情報の種類"] else "unknown"
  }

  /** The record's date for the log, "" when missing. */
  function LoggedDate(rec: GenericRecord): (r: string)
    ensures "公開日/更新日" in rec ==> r == rec["公開日/更新日"]
    ensures "公開日/更新日" !in rec ==> r == []
  {
    if "公開日/更新日" in rec then rec["公開日/更新日"] else []
  }

  /** Setting the source URL leaves the logged type and date alone. */
  lemma LoggedIgnoresUrl(rec: GenericRecord, url: string)
    ensures LoggedInfoType(rec["出典URL" := url]) == LoggedInfoType(rec)
    ensures LoggedDate(rec["出典URL" := url]) == LoggedDate(rec)
  {
    assert "出典URL"[0] != "情報の種類"[0] && "出典URL"[0] != "公開日/更新日"[0];
  }

  /** The extractor's outcome for a fetched page. */
  function Extraction(data: ExtractedData, env: TaskEnv, primaryDomains: seq<string>): Result<Option<GenericRecord>, string> {
    env.extract(data, InitialHint(data.host, primaryDomains))
  }

  /** The log line one task appends. */
  function TaskLog(url: string, host: string, env: TaskEnv, primaryDomains: seq<string>): ProcessLog {
    match env.fetched
    case Err(m) => ProcessLog(url, host, env.elapsedSec, None, None, Failed, Some(m))
    case Ok(None) => ProcessLog(url, host, 0.0, None, None, Skipped, Some(SkippedReason))
    case Ok(Some(data)) =>
      match Extraction(data, env, primaryDomains)
      case Err(m) => ProcessLog(url, host, env.elapsedSec, None, None, Failed, Some(m))
      case Ok(None) => ProcessLog(url, host, 0.0, None, None, Failed, Some(ExtractionFailedReason))
      case Ok(Some(rec)) =>
        ProcessLog(url, host, env.elapsedSec, Some(LoggedInfoType(rec)), Some(LoggedDate(rec)), Success, None)
  }

  /** The record one task contributes: the extracted record with its
      source URL replaced by the search result's URL, on success only. */
  function TaskRecord(url: string, env: TaskEnv, primaryDomains: seq<string>): Option<GenericRecord> {
    match env.fetched
    case Ok(Some(data)) =>
      (match Extraction(data, env, primaryDomains)
       case Ok(Some(rec)) => Some(rec["出典URL" := url])
       case _ => None)
    case _ => None
  }

  /** A search result's record as a list of zero or one records. */
  function TaskRecords(url: string, env: TaskEnv, primaryDomains: seq<string>): seq<GenericRecord> {
    match TaskRecord(url, env, primaryDomains)
    case Some(r) => [r]
    case None => []
  }

  /** The status and reason of a task's log line, case by case. */
  lemma TaskLogStatus(url: string, host: string, env: TaskEnv, primaryDomains: seq<string>)
    ensures var l := TaskLog(url, host, env, primaryDomains);
      && (l.status == Skipped <==> env.fetched == Ok(None))
      && (env.fetched == Ok(None) ==> l.reason == Some(SkippedReason))
      && (env.fetched.Err? ==> l.status == Failed && l.reason == Some(env.fetched.error))
      && (env.fetched.Ok? && env.fetched.value.Some? ==>
            var x := Extraction(env.fetched.value.value, env, primaryDomains);
            && (x == Ok(None) ==> l.status == Failed && l.reason == Some(ExtractionFailedReason))
            && (x.Err? ==> l.status == Failed && l.reason == Some(x.error))
            && (l.status == Success <==> x.Ok? && x.value.Some?))
      && (l.url == url && l.host == host)
  {
  }

  /** A record is contributed exactly when the log line says success, and
      it carries the search result's URL. */
  lemma TaskRecordOnSuccess(url: string, host: string, env: TaskEnv, primaryDomains: seq<string>)
    ensures TaskRecord(url, env, primaryDomains).Some? <==> TaskLog(url, host, env, primaryDomains).status == Success
    ensures TaskRecord(url, env, primaryDomains).Some? ==>
      var r := TaskRecord(url, env, primaryDomains).value;
      "出典URL" in r && r["出典URL"] == url
  {
  }

  /** The elapsed time is logged on success and on a thrown error only. */
  lemma TaskLogTime(url: string, host: string, env: TaskEnv, primaryDomains: seq<string>)
    ensures env.fetched == Ok(None) ==> TaskLog(url, host, env, primaryDomains).timeSec == 0.0
    ensures (env.fetched.Ok? && env.fetched.value.Some? &&
             Extraction(env.fetched.value.value, env, primaryDomains) == Ok(None)) ==>
      TaskLog(url, host, env, primaryDomains).timeSec == 0.0
    ensures var l := TaskLog(url, host, env, primaryDomains);
      (l.status == Success || env.fetched.Err?) ==> l.timeSec == env.elapsedSec
  {
  }

  /** The log entry as one search result's task builds it, field by field. */
  class LogEntry {
    var url: string
    var host: string
    var timeSec: real
    var infoType: Option<string>
    var detectedDate: Option<string>
    var status: LogStatus
    var reason: Option<string>

    /** A fresh entry: no time yet, status "failed". */
    constructor(url: string, host: string)
      ensures Snapshot() == ProcessLog(url, host, 0.0, None, None, Failed, None)
    {
      this.url := url;
      this.host := host;
      timeSec := 0.0;
      infoType := None;
      detectedDate := None;
      status := Failed;
      reason := None;
    }

    /** The line written to the log. */
    function Snapshot(): ProcessLog
      reads this
    {
      ProcessLog(url, host, timeSec, infoType, detectedDate, status, reason)
    }
  }

  /** The records and log lines accumulated over the search results of one run. */
  class ResearchRun {
    var records: seq<GenericRecord>
    var log: seq<ProcessLog>

    constructor()
      ensures records == [] && log == []
    {
      records := [];
      log := [];
    }

    /** One task. The host name is parsed before the error handler,
        so an unparsable URL aborts with nothing recorded (`ok` false).
        Otherwise exactly one log line is appended, and a record on
        success. */
    method RunTask(url: string, hostOf: string -> Option<string>, env: TaskEnv, primaryDomains: seq<string>)
      returns (ok: bool)
      modifies this
      ensures ok == hostOf(url).Some?
      ensures !ok ==> records == old(records) && log == old(log)
      ensures ok ==> log == old(log) + [TaskLog(url, hostOf(url).value, env, primaryDomains)]
      ensures ok ==>
        records == old(records) + TaskRecords(url, env, primaryDomains)
    {
      if hostOf(url).None? {
        return false;
      }
      var host := hostOf(url).value;
      var entry := new LogEntry(url, host);
      match env.fetched {
        case Err(m) =>
          entry.status := Failed;
          entry.reason := Some(m);
          entry.timeSec := env.elapsedSec;
          assert entry.Snapshot() == TaskLog(url, host, env, primaryDomains);
          assert TaskRecords(url, env, primaryDomains) == [];
          log := log + [entry.Snapshot()];
        case Ok(None) =>
          entry.status := Skipped;
          entry.reason := Some(SkippedReason);
          assert entry.Snapshot() == TaskLog(url, host, env, primaryDomains);
          assert TaskRecords(url, env, primaryDomains) == [];
          log := log + [entry.Snapshot()];
        case Ok(Some(data)) =>
          var hint := InitialHint(data.host, primaryDomains);
          assert Extraction(data, env, primaryDomains) == env.extract(data, hint);
          match env.extract(data, hint) {
            case Err(m) =>
              entry.status := Failed;
              entry.reason := Some(m);
              entry.timeSec := env.elapsedSec;
              assert entry.Snapshot() == TaskLog(url, host, env, primaryDomains);
              assert TaskRecords(url, env, primaryDomains) == [];
              log := log + [entry.Snapshot()];
            case Ok(None) =>
              entry.status := Failed;
              entry.reason := Some(ExtractionFailedReason);
              assert entry.Snapshot() == TaskLog(url, host, env, primaryDomains);
              assert TaskRecords(url, env, primaryDomains) == [];
              log := log + [entry.Snapshot()];
            case Ok(Some(rec)) =>
              var withUrl := rec["出典URL" := url];
              assert TaskRecords(url, env, primaryDomains) == [withUrl];
              records := records + [withUrl];
              entry.status := Success;
              entry.infoType := Some(LoggedInfoType(withUrl));
              entry.detectedDate := Some(LoggedDate(withUrl));
              entry.timeSec := env.elapsedSec;
              LoggedIgnoresUrl(rec, url);
              assert entry.Snapshot() == TaskLog(url, host, env, primaryDomains);
              log := log + [entry.Snapshot()];
          }
      }
      return true;
    }
  }

  /** One search result's task: its URL and what its collaborators deliver. */
  datatype Task = Task(url: string, env: TaskEnv)

  /** Every task's URL parses. */
  predicate AllParse(tasks: seq<Task>, hostOf: string -> Option<string>) {
    forall i :: 0 <= i < |tasks| ==> hostOf(tasks[i].url).Some?
  }

  /** The log lines of tasks run in the given (completion) order. */
  function RunLog(tasks: seq<Task>, hostOf: string -> Option<string>, primaryDomains: seq<string>): seq<ProcessLog>
    requires AllParse(tasks, hostOf)
  {
    if tasks == [] then []
    else
      var last := tasks[|tasks| - 1];
      RunLog(tasks[..|tasks| - 1], hostOf, primaryDomains) + [TaskLog(last.url, hostOf(last.url).value, last.env, primaryDomains)]
  }

  /** The records of tasks run in the given (completion) order. */
  function RunRecords(tasks: seq<Task>, primaryDomains: seq<string>): seq<GenericRecord> {
    if tasks == [] then []
    else
      var last := tasks[|tasks| - 1];
      RunRecords(tasks[..|tasks| - 1], primaryDomains) + TaskRecords(last.url, last.env, primaryDomains)
  }

  /** Every task logs exactly one line, the i-th line for the i-th task. */
  lemma {:induction false} RunLogOnePerTask(tasks: seq<Task>, hostOf: string -> Option<string>, primaryDomains: seq<string>)
    requires AllParse(tasks, hostOf)
    ensures |RunLog(tasks, hostOf, primaryDomains)| == |tasks|
    ensures forall i :: 0 <= i < |tasks| ==>
      RunLog(tasks, hostOf, primaryDomains)[i] == TaskLog(tasks[i].url, hostOf(tasks[i].url).value, tasks[i].env, primaryDomains)
  {
    if tasks != [] {
      RunLogOnePerTask(tasks[..|tasks| - 1], hostOf, primaryDomains);
    }
  }

  /** The records are exactly the successful tasks' records, with their
      source URLs replaced, in completion order. */
  lemma RunRecordsAreSuccesses(tasks: seq<Task>, hostOf: string -> Option<string>, primaryDomains: seq<string>)
    requires AllParse(tasks, hostOf)
    ensures |RunRecords(tasks, primaryDomains)| == |Filter(RunLog(tasks, hostOf, primaryDomains), IsSuccess)|
    ensures forall m :: 0 <= m < |RunRecords(tasks, primaryDomains)| ==>
      "出典URL" in RunRecords(tasks, primaryDomains)[m] &&
      exists i :: 0 <= i < |tasks| && RunRecords(tasks, primaryDomains)[m]["出典URL"] == tasks[i].url
  {
    RunRecordsCount(tasks, hostOf, primaryDomains);
    RunRecordsUrls(tasks, primaryDomains);
  }

  /** One record per successful log line. */
  lemma {:induction false} RunRecordsCount(tasks: seq<Task>, hostOf: string -> Option<string>, primaryDomains: seq<string>)
    requires AllParse(tasks, hostOf)
    ensures |RunRecords(tasks, primaryDomains)| == |Filter(RunLog(tasks, hostOf, primaryDomains), IsSuccess)|
  {
    if tasks != [] {
      var init := tasks[..|tasks| - 1];
      var last := tasks[|tasks| - 1];
      RunRecordsCount(init, hostOf, primaryDomains);
      var l := TaskLog(last.url, hostOf(last.url).value, last.env, primaryDomains);
      TaskRecordOnSuccess(last.url, hostOf(last.url).value, last.env, primaryDomains);
      FilterAppend(RunLog(init, hostOf, primaryDomains), [l], IsSuccess);
    }
  }

  /** Every record carries the URL of one of the search results. */
  lemma {:induction false} RunRecordsUrls(tasks: seq<Task>, primaryDomains: seq<string>)
    ensures forall m :: 0 <= m < |RunRecords(tasks, primaryDomains)| ==>
      "出典URL" in RunRecords(tasks, primaryDomains)[m] &&
      exists i :: 0 <= i < |tasks| && RunRecords(tasks, primaryDomains)[m]["出典URL"] == tasks[i].url
  {
    if tasks != [] {
      var init := tasks[..|tasks| - 1];
      var last := tasks[|tasks| - 1];
      RunRecordsUrls(init, primaryDomains);
      TaskRecordOnSuccess(last.url, [], last.env, primaryDomains);
      var rs := RunRecords(tasks, primaryDomains);
      var ri := RunRecords(init, primaryDomains);
      assert rs == ri + TaskRecords(last.url, last.env, primaryDomains);
      forall m | 0 <= m < |rs|
        ensures "出典URL" in rs[m] && exists i :: 0 <= i < |tasks| && rs[m]["出典URL"] == tasks[i].url
      {
        if m < |ri| {
          assert rs[m] == ri[m];
          var i :| 0 <= i < |init| && ri[m]["出典URL"] == init[i].url;
          assert tasks[i] == init[i];
        } else {
          assert rs[m] == TaskRecord(last.url, last.env, primaryDomains).value;
          assert tasks[|tasks| - 1] == last;
        }
      }
    }
  }

  predicate IsSuccess(l: ProcessLog) {
    l.status == Success
  }

  /** The search results are processed in completion order. An unparsable URL aborts the run
      (None) at that task, after the earlier tasks' lines were logged. */
  method SearchAndExtract(tasks: seq<Task>, hostOf: string -> Option<string>, primaryDomains: seq<string>)
    returns (result: Option<seq<GenericRecord>>, log: seq<ProcessLog>)
    ensures result.Some? <==> AllParse(tasks, hostOf)
    ensures result.Some? ==> result.value == RunRecords(tasks, primaryDomains)
    ensures result.Some? ==> log == RunLog(tasks, hostOf, primaryDomains)
    ensures result.None? ==>
      exists n :: (0 <= n < |tasks| && hostOf(tasks[n].url).None? &&
                   AllParse(tasks[..n], hostOf) && log == RunLog(tasks[..n], hostOf, primaryDomains))
  {
    var run := new ResearchRun();
    var n := 0;
    while n < |tasks|
      invariant n <= |tasks|
      invariant AllParse(tasks[..n], hostOf)
      invariant run.records == RunRecords(tasks[..n], primaryDomains)
      invariant run.log == RunLog(tasks[..n], hostOf, primaryDomains)
    {
      var ok := run.RunTask(tasks[n].url, hostOf, tasks[n].env, primaryDomains);
      if !ok {
        assert 0 <= n < |tasks| && hostOf(tasks[n].url).None? &&
          AllParse(tasks[..n], hostOf) && run.log == RunLog(tasks[..n], hostOf, primaryDomains);
        NotAllParse(tasks, hostOf, n);
        return None, run.log;
      }
      RunStep(tasks, n, hostOf, primaryDomains);
      n := n + 1;
    }
    assert tasks[..n] == tasks;
    return Some(run.records), run.log;
  }

  /** A task whose URL does not parse spoils the whole run. */
  lemma NotAllParse(tasks: seq<Task>, hostOf: string -> Option<string>, n: nat)
    requires n < |tasks| && hostOf(tasks[n].url).None?
    ensures !AllParse(tasks, hostOf)
  {
  }

  /** Running one more task extends the records and the log by that task's. */
  lemma RunStep(tasks: seq<Task>, n: nat, hostOf: string -> Option<string>, primaryDomains: seq<string>)
    requires n < |tasks| && AllParse(tasks[..n], hostOf) && hostOf(tasks[n].url).Some?
    ensures AllParse(tasks[..n + 1], hostOf)
    ensures RunRecords(tasks[..n + 1], primaryDomains) == RunRecords(tasks[..n], primaryDomains)
      + TaskRecords(tasks[n].url, tasks[n].env, primaryDomains)
    ensures RunLog(tasks[..n + 1], hostOf, primaryDomains) == RunLog(tasks[..n], hostOf, primaryDomains)
      + [TaskLog(tasks[n].url, hostOf(tasks[n].url).value, tasks[n].env, primaryDomains)]
  {
    var t := tasks[..n + 1];
    assert t[..n] == tasks[..n] && t[n] == tasks[n];
    assert AllParse(t, hostOf) by {
      forall i | 0 <= i < |t| ensures hostOf(t[i].url).Some? {
        if i < n {
          assert t[i] == tasks[..n][i];
        }
      }
    }
  }

  // ---------------------------------------------------------------------
  // De-duplication and IDs
  // ---------------------------------------------------------------------

  /** A record's key under the configured key field: its value, unless the
      field is missing or empty. */
  function KeyOf(field: string): GenericRecord -> Option<string> {
    (rec: GenericRecord) => if field in rec && rec[field] != [] then Some(rec[field]) else None
  }

  /** With no key configured the list is kept as is; otherwise the first
      record of each non-empty key, in order. */
  function Deduplicated(records: seq<GenericRecord>, dedupKey: string): seq<GenericRecord> {
    if dedupKey == [] then records else KeepFirst(records, KeyOf(dedupKey), {})
  }

  /** With a key configured: the kept records form a subsequence, each has a
      non-empty key, the keys are pairwise distinct, and every non-empty
      input key survives. */
  lemma DeduplicatedProperties(records: seq<GenericRecord>, dedupKey: string)
    requires dedupKey != []
    ensures var u := Deduplicated(records, dedupKey);
      && IsSubseq(u, records)
      && (forall i :: 0 <= i < |u| ==> dedupKey in u[i] && u[i][dedupKey] != [])
      && (forall i, j :: 0 <= i < j < |u| ==> u[i][dedupKey] != u[j][dedupKey])
    ensures forall i :: 0 <= i < |records| && dedupKey in records[i] && records[i][dedupKey] != [] ==>
      exists m :: 0 <= m < |Deduplicated(records, dedupKey)| &&
        dedupKey in Deduplicated(records, dedupKey)[m] &&
        Deduplicated(records, dedupKey)[m][dedupKey] == records[i][dedupKey]
  {
    var u := Deduplicated(records, dedupKey);
    var keyOf := KeyOf(dedupKey);
    KeepFirstIsSubseq(records, keyOf, {});
    KeepFirstKeys(records, keyOf, {});
    forall i | 0 <= i < |u| ensures dedupKey in u[i] && u[i][dedupKey] != [] {
      assert keyOf(u[i]).Some?;
    }
    forall i, j | 0 <= i < j < |u| ensures u[i][dedupKey] != u[j][dedupKey] {
      assert keyOf(u[i]) != keyOf(u[j]);
    }
    forall i | 0 <= i < |records| && dedupKey in records[i] && records[i][dedupKey] != []
      ensures exists m :: 0 <= m < |u| && dedupKey in u[m] && u[m][dedupKey] == records[i][dedupKey]
    {
      assert keyOf(records[i]).Some?;
      KeepFirstCoversKeys(records, keyOf, i);
      var m :| 0 <= m < |u| && keyOf(u[m]) == keyOf(records[i]);
      assert u[m][dedupKey] == records[i][dedupKey];
    }
  }

  lemma DeduplicatedIdempotent(records: seq<GenericRecord>, dedupKey: string)
    ensures Deduplicated(Deduplicated(records, dedupKey), dedupKey) == Deduplicated(records, dedupKey)
  {
    if dedupKey != [] {
      KeepFirstIdempotent(records, KeyOf(dedupKey));
    }
  }

  /** The de-duplication loop over a set of seen keys. */
  method DeduplicateRecords(records: seq<GenericRecord>, dedupKey: string) returns (unique: seq<GenericRecord>)
    ensures unique == Deduplicated(records, dedupKey)
    ensures dedupKey == [] ==> unique == records
    ensures dedupKey != [] ==> forall i :: 0 <= i < |unique| ==> dedupKey in unique[i] && unique[i][dedupKey] != []
  {
    if dedupKey == [] {
      return records;
    }
    var seen: set<string> := {};
    unique := [];
    var n := 0;
    while n < |records|
      invariant n <= |records|
      invariant unique + KeepFirst(records[n..], KeyOf(dedupKey), seen) == Deduplicated(records, dedupKey)
    {
      var rec := records[n];
      assert records[n..] == [rec] + records[n + 1..];
      assert KeyOf(dedupKey)(rec) == if dedupKey in rec && rec[dedupKey] != [] then Some(rec[dedupKey]) else None;
      KeepFirstAppendStep(unique, rec, records[n + 1..], KeyOf(dedupKey), seen);
      if dedupKey in rec && rec[dedupKey] != [] && rec[dedupKey] !in seen {
        seen := seen + {rec[dedupKey]};
        unique := unique + [rec];
      }
      n := n + 1;
    }
    assert records[n..] == [];
    DeduplicatedProperties(records, dedupKey);
  }

  /** Record `i` gets "ID" = `FormatId(i + 1)`; every other field is kept. */
  function AssignIds(records: seq<GenericRecord>): (r: seq<GenericRecord>)
    ensures |r| == |records|
    ensures forall i :: 0 <= i < |r| ==> "ID" in r[i] && r[i]["ID"] == Normalize.FormatId(i + 1)
    ensures forall i :: 0 <= i < |r| ==> r[i] - {"ID"} == records[i] - {"ID"}
  {
    seq(|records|, i requires 0 <= i < |records| => records[i]["ID" := Normalize.FormatId(i + 1)])
  }

  /** No two records get the same "ID". */
  lemma AssignIdsDistinct(records: seq<GenericRecord>)
    ensures var r := AssignIds(records);
      forall i, j :: 0 <= i < j < |r| ==> r[i]["ID"] != r[j]["ID"]
  {
    var r := AssignIds(records);
    forall i, j | 0 <= i < j < |r| ensures r[i]["ID"] != r[j]["ID"] {
      if r[i]["ID"] == r[j]["ID"] {
        Normalize.FormatIdInjective(i + 1, j + 1);
      }
    }
  }

  /** After extraction: an empty record list aborts (None) before
      de-duplication; otherwise the de-duplicated records with IDs. */
  method Finalize(records: seq<GenericRecord>, dedupKey: string) returns (result: Option<seq<GenericRecord>>)
    ensures records == [] <==> result.None?
    ensures result.Some? ==> result.value == AssignIds(Deduplicated(records, dedupKey))
  {
    if |records| == 0 {
      return None;
    }
    var unique := DeduplicateRecords(records, dedupKey);
    return Some(AssignIds(unique));
  }

  /** A run that does not abort can still end with no records: every
      extracted record may lack the configured key. */
  lemma FinalizeCanBeEmpty(rec: GenericRecord, dedupKey: string)
    requires dedupKey != [] && dedupKey !in rec
    ensures AssignIds(Deduplicated([rec], dedupKey)) == []
  {
    assert KeyOf(dedupKey)(rec).None?;
    assert KeepFirst([rec], KeyOf(dedupKey), {}) == KeepFirst([rec][1..], KeyOf(dedupKey), {});
    assert [rec][1..] == [];
  }
}
