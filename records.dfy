/**
 * The shape of the analysis service's response as the dashboard consumes
 * it: a summary block and the ranked list of client records.
 */
module Records {
  import opened JsBuiltins

  /** One row of `recovery_focus_list`. */
  datatype ClientRecord = ClientRecord(
    cliente: string,                        // `Cliente`, the display name
    id: string,                             // `CNPJ/CPF`
    lastPurchaseDate: string,               // `last_purchase_date`, as sent by the service
    daysSinceLastPurchase: nat,             // `days_since_last_purchase`
    averageTicketValue: real,               // `average_ticket_value`
    totalRevenue: real,                     // `total_revenue`
    purchaseHistory: Option<seq<string>>)   // `purchase_history`, possibly absent

  /** The `summary` block, shown by the KPI cards. */
  datatype Summary = Summary(
    recoveryPotentialValue: real,
    churnedClientsTotal: int,
    globalAverageTicket: real,
    suggestedDailyCalls: int)

  /** A successful response of the analysis service. */
  datatype AnalysisResult = AnalysisResult(summary: Summary, recoveryFocusList: seq<ClientRecord>)
}
