/** The body of the background job `send_statistics_email` up to the
    hand-over to the mail transport: gather the statistics, render the
    report, and address it with the fixed subject. */
module Pipeline {
  import opened Rows
  import opened Decimal
  import opened Lines
  import Statistics
  import Report

  const Subject: string := "Статистика продавцов"

  /** A plain-text message as handed to the mail transport. */
  datatype Message = Message(to: string, subject: string, body: string)

  predicate NewlineFreeNames(sellers: seq<Seller>)
  {
    forall i :: 0 <= i < |sellers| ==> NewlineFree(sellers[i].name)
  }

  /** Gather, render and address the report. The clock readings (month start
      and generation time) are parameters. */
  method ComposeStatisticsEmail(email: string, sellers: seq<Seller>, products: seq<Product>, sales: seq<Sale>,
                                monthStart: int, timestamp: string)
    returns (msg: Message)
    ensures msg.to == email && msg.subject == Subject
    ensures msg.body == JoinLines(Report.ReportLines(Statistics.StatisticsOf(sellers, products, sales, monthStart), timestamp))
    ensures NewlineFree(timestamp) && NewlineFreeNames(sellers) ==>
      && |SplitLines(msg.body)| == 3 + 5 * |sellers| + 1
      && forall i :: 0 <= i < |sellers| ==>
           SplitLines(msg.body)[3 + 5 * i] == Report.SellerLabel + sellers[i].name + " (ID: " + IntToDecimal(sellers[i].id) + ")"
  {
    var stats := Statistics.GatherStatistics(sellers, products, sales, monthStart);
    var report := Report.GenerateStatisticsReport(stats, timestamp);
    msg := Message(email, Subject, report);
    if NewlineFree(timestamp) && NewlineFreeNames(sellers) {
      assert Report.NewlineFreeInputs(stats, timestamp);
      Report.ReportLength(stats, timestamp);
      forall i | 0 <= i < |sellers|
        ensures SplitLines(msg.body)[3 + 5 * i] == Report.SellerLabel + sellers[i].name + " (ID: " + IntToDecimal(sellers[i].id) + ")"
      {
        Report.ReportBlockAt(stats, timestamp, i);
      }
    }
  }
}
