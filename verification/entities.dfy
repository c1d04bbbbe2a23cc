/** The log records the processors and the delivery service persist. */
module Entities {
  import opened Common

  /** One processor run as recorded in the `ProcessLogs` collection. */
  datatype ProcessLog = ProcessLog(
    sourceName: string,
    executionTime: Instant,
    totalFetched: Int32,
    newInserted: Int32,
    sentToTelegram: Int32,
    failedToSend: Int32,
    notes: string)

  /** A failed delivery as recorded in the `TelegramErrorLogs` collection. */
  datatype TelegramErrorLog = TelegramErrorLog(
    sourceName: string,
    newsLink: string,
    newsTitle: string,
    newsSummary: string,
    newsImageUrl: Option<string>,
    errorMessage: string,
    timestamp: Instant,
    details: string)
}
