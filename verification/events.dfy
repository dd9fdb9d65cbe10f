/**
 The typed form of one line of the downloads file: a download event and its ad
 opportunities. The source reads these fields out of a JSON tree; here they are
 already parsed.
 */
module Events {
  import opened Wrappers

  /**
   One ad opportunity. `originalEventTime` is epoch milliseconds (a Java `long`).
   `adBreakIndex` is the `"aw_0_ais.adBreakIndex"` entry of `positionUrlSegments`,
   as the text of each array element; `None` stands for a field that is absent,
   null or not an array.
   */
  datatype Opportunity = Opportunity(originalEventTime: int, adBreakIndex: Option<seq<string>>)

  /** One download event: `downloadIdentifier.showId`, `city`, `deviceType`, `opportunities`. */
  datatype DownloadEvent = DownloadEvent(
    showId: string,
    city: string,
    deviceType: string,
    opportunities: seq<Opportunity>)
}
