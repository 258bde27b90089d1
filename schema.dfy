/** The record types of the pipeline: the twenty-column case-study record,
    the closed industry and information-type vocabularies, the audit-log
    entry, a search result and a fetched page. */
module Schema {
  import opened Wrappers

  /** One case study. The fields are the twenty report columns in column
      order; each comment gives the column's name in the report. */
  datatype CaseStudyRecord = CaseStudyRecord(
    id: string,               // ID
    title: string,            // タイトル
    industry: string,         // 業種
    subDomain: string,        // サブ領域
    purposeKpi: string,       // 目的/KPI
    triggerType: string,      // トリガー種別
    inputSource: string,      // 入力ソース
    outputTarget: string,     // 出力先
    mainNodes: string,        // 主要n8nノード
    externalTools: string,    // 外部API/連携ツール
    workflowSummary: string,  // ワークフロー概要
    difficulty: string,       // 実装難易度
    scale: string,            // 規模目安
    outcomeRoi: string,       // 成果/ROI
    risks: string,            // 運用上のリスク/前提
    regionLang: string,       // 地域/言語
    sourceUrl: string,        // 出典URL
    infoType: string,         // 情報の種類
    date: string,             // 公開日/更新日
    dedupKey: string          // 重複判定キー
  )

  /** The column names, in column order. */
  const FieldNames: seq<string> := [
    "ID", "タイトル", "業種", "サブ領域", "目的/KPI", "トリガー種別", "入力ソース",
    "出力先", "主要n8nノード", "外部API/連携ツール", "ワークフロー概要", "実装難易度",
    "規模目安", "成果/ROI", "運用上のリスク/前提", "地域/言語", "出典URL", "情報の種類",
    "公開日/更新日", "重複判定キー"
  ]

  /** The record's values in column order. */
  function Values(r: CaseStudyRecord): (vs: seq<string>)
    ensures |vs| == |FieldNames|
  {
    [r.id, r.title, r.industry, r.subDomain, r.purposeKpi, r.triggerType, r.inputSource,
     r.outputTarget, r.mainNodes, r.externalTools, r.workflowSummary, r.difficulty,
     r.scale, r.outcomeRoi, r.risks, r.regionLang, r.sourceUrl, r.infoType, r.date,
     r.dedupKey]
  }

  /** The closed industry vocabulary. */
  datatype IndustryType =
    | RealEstate | Hotel | Restaurant | Night | EcRetail | Healthcare | Finance
    | WebMarketing | Software | Logistics | Manufacturing | Education | Recruiting
    | Insurance | Other
  {
    function Name(): string {
      match this
      case RealEstate => "不動産"
      case Hotel => "ホテル"
      case Restaurant => "飲食"
      case Night => "ナイト"
      case EcRetail => "EC・小売"
      case Healthcare => "医療・ヘルスケア"
      case Finance => "金融・財務"
      case WebMarketing => "WEBマーケティング"
      case Software => "IT・ソフトウェア開発"
      case Logistics => "物流"
      case Manufacturing => "製造業"
      case Education => "教育・Eラーニング"
      case Recruiting => "人材・採用"
      case Insurance => "保険"
      case Other => "その他"
    }
  }

  /** The fallback industry. */
  const OtherIndustry: string := "その他"

  /** Primary source, secondary source, or estimated by the model. */
  datatype InfoType = Primary | Secondary | Estimated {
    function Label(): string {
      match this
      case Primary => "一次情報"
      case Secondary => "二次情報"
      case Estimated => "推定"
    }
  }

  /** The classification hint computed before extraction. */
  datatype InfoHint = PrimaryHint | SecondaryHint {
    /** The hint as the prompts render it. */
    function Label(): string {
      match this
      case PrimaryHint => "一次情報"
      case SecondaryHint => "二次情報"
    }
  }

  datatype LogStatus = Success | Failed | Skipped | Duplicate

  /** One audit-log line. */
  datatype ProcessLog = ProcessLog(
    url: string,
    host: string,
    timeSec: real,
    infoType: Option<string>,
    detectedDate: Option<string>,
    status: LogStatus,
    reason: Option<string>
  )

  datatype SearchResult = SearchResult(url: string, title: string, snippet: string)

  /** What the fetcher keeps of a page. */
  datatype ExtractedData = ExtractedData(
    url: string,
    host: string,
    title: string,
    content: string,
    publishedDate: Option<string>,
    updatedDate: Option<string>,
    detectedLang: Option<string>,
    detectedRegion: Option<string>
  )
}
