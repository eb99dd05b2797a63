/** The usage report `get_rbd_disk_usage` returns (shaped like the JSON of
    `rbd du`) and the flat summary `get_image_usage_info` projects from it.
 */
module Reports {
  import opened Faults

  /** One entry of the report's `images` list. */
  datatype ImageEntry = ImageEntry(
    name: string,
    id: string,
    size: nat,
    provisionedSize: nat,
    usedSize: nat)

  /** `{images, total_provisioned_size, total_used_size}`. */
  datatype Report = Report(
    images: seq<ImageEntry>,
    totalProvisionedSize: nat,
    totalUsedSize: nat)

  /** The summary; `error` is present only when the report held no image. */
  datatype Summary = Summary(
    name: string,
    provisionedSize: nat,
    usedSize: nat,
    pool: string,
    rawData: Report,
    error: Option<string>)

  /** The `error` text of a summary built from a report without images. */
  const NoImageData: string := "No image data found in response"

  /** The shape of a single-image report: exactly one entry, whose size and
      provisioned size agree, and totals that mirror that entry. */
  predicate SingleImage(r: Report) {
    && |r.images| == 1
    && r.images[0].size == r.images[0].provisionedSize
    && r.totalProvisionedSize == r.images[0].provisionedSize
    && r.totalUsedSize == r.images[0].usedSize
  }

  /** The report for image `name` whose stat gave `size` and whose extent
      walk gave `used`. */
  function BuildReport(name: string, id: string, size: nat, used: nat): (r: Report)
    ensures SingleImage(r)
    ensures r.images[0].name == name && r.images[0].id == id
    ensures r.totalProvisionedSize == size && r.totalUsedSize == used
  {
    Report([ImageEntry(name, id, size, size, used)], size, used)
  }

  /** Every single-image report is the one `BuildReport` makes from its own
      entry: the four inputs are recoverable from the report. */
  lemma BuildReportCharacterizes(r: Report)
    requires SingleImage(r)
    ensures BuildReport(r.images[0].name, r.images[0].id, r.totalProvisionedSize, r.totalUsedSize) == r
  {
  }

  /** The projection of `get_image_usage_info`: the first image's name and
      sizes when there is one, otherwise zero sizes and an error text; the
      pool is the caller's and the report is kept unmodified. */
  function Summarize(report: Report, imageName: string, pool: string): (s: Summary)
    ensures s.pool == pool && s.rawData == report
    ensures s.error.None? <==> |report.images| > 0
    ensures |report.images| > 0 ==>
              && s.name == report.images[0].name
              && s.provisionedSize == report.images[0].provisionedSize
              && s.usedSize == report.images[0].usedSize
    ensures s.error.Some? ==> s.name == imageName && s.provisionedSize == 0 && s.usedSize == 0
                              && s.error.value == NoImageData
  {
    if |report.images| > 0 then
      var entry := report.images[0];
      Summary(entry.name, entry.provisionedSize, entry.usedSize, pool, report, None)
    else
      Summary(imageName, 0, 0, pool, report, Some(NoImageData))
  }

  /** Round trip from report construction to summary: the summary of a built
      report recovers the image name and both sizes, and carries no error. */
  lemma SummarizeBuiltReport(name: string, id: string, size: nat, used: nat, imageName: string, pool: string)
    ensures var s := Summarize(BuildReport(name, id, size, used), imageName, pool);
      && s.name == name && s.provisionedSize == size && s.usedSize == used
      && s.error.None? && s.rawData == BuildReport(name, id, size, used)
  {
  }

  /** For a single-image report the summary's sizes are the report's totals. */
  lemma SummaryMatchesTotals(r: Report, imageName: string, pool: string)
    requires SingleImage(r)
    ensures Summarize(r, imageName, pool).provisionedSize == r.totalProvisionedSize
    ensures Summarize(r, imageName, pool).usedSize == r.totalUsedSize
  {
  }
}
