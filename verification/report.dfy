/** The rendering step of the statistics report
    (`generate_statistics_report`): a title, a rule of thirty '=' and an
    empty line, five lines per seller statistic, and a closing line with the
    generation time, joined with newlines. The time is passed in as text. */
module Report {
  import opened Rows
  import opened Decimal
  import opened Lines

  const Title: string := "Статистика по продавцам"
  const Rule: string := "=============================="
  const SellerLabel: string := "Продавец: "
  const ProductsLabel: string := "- Количество товаров: "
  const SalesLabel: string := "- Общее количество продаж: "
  const ShipmentsLabel: string := "- Количество отгрузок за текущий месяц: "
  const GeneratedLabel: string := "Отчет сгенерирован: "

  /** The three lines every report opens with. */
  function Header(): seq<string>
  {
    [Title, Rule, ""]
  }

  /** The five lines that describe one seller statistic. */
  function Block(stat: SellerStatistic): seq<string>
  {
    [ Concat([SellerLabel, stat.sellerName, " (ID: ", IntToDecimal(stat.sellerId), ")"]),
      Concat([ProductsLabel, IntToDecimal(stat.productsCount)]),
      Concat([SalesLabel, IntToDecimal(stat.salesCount)]),
      Concat([ShipmentsLabel, IntToDecimal(stat.shipmentsCount)]),
      "" ]
  }

  function GeneratedLine(timestamp: string): string
  {
    GeneratedLabel + timestamp
  }

  /** The list of lines the report is made of. */
  function ReportLines(stats: seq<SellerStatistic>, timestamp: string): seq<string>
  {
    Header() + Flatten(stats, Block) + [GeneratedLine(timestamp)]
  }

  lemma BlockWidth()
    ensures forall st :: |Block(st)| == 5
  {
  }

  /** The rule is thirty '=' characters (`"=" * 30`). */
  lemma RuleShape()
    ensures |Rule| == 30 && forall k :: 0 <= k < 30 ==> Rule[k] == '='
  {
  }

  lemma ReportHeaderLines(stats: seq<SellerStatistic>, timestamp: string)
    ensures ReportLines(stats, timestamp)[0] == Title
    ensures ReportLines(stats, timestamp)[1] == Rule
    ensures ReportLines(stats, timestamp)[2] == ""
  {
  }

  lemma ReportLength(stats: seq<SellerStatistic>, timestamp: string)
    ensures |ReportLines(stats, timestamp)| == 3 + 5 * |stats| + 1
  {
    BlockWidth();
    FlattenLength(stats, Block, 5);
  }

  /** The report opens with the title, thirty '=' and an empty line, ends
      with the generation line, and has 3 + 5 * |stats| + 1 lines. */
  lemma ReportLayout(stats: seq<SellerStatistic>, timestamp: string)
    ensures var lines := ReportLines(stats, timestamp);
      && |lines| == 3 + 5 * |stats| + 1
      && lines[0] == Title
      && |lines[1]| == 30 && (forall k :: 0 <= k < 30 ==> lines[1][k] == '=')
      && lines[2] == ""
      && lines[|lines| - 1] == GeneratedLabel + timestamp
  {
    ReportLength(stats, timestamp);
    ReportHeaderLines(stats, timestamp);
    RuleShape();
  }

  /** Line k of the i-th block is report line 3 + 5 * i + k. */
  lemma ReportLineInBlock(stats: seq<SellerStatistic>, timestamp: string, i: int, k: int)
    requires 0 <= i < |stats| && 0 <= k < 5
    ensures 3 + 5 * i + k < |ReportLines(stats, timestamp)|
    ensures ReportLines(stats, timestamp)[3 + 5 * i + k] == Block(stats[i])[k]
  {
    var head, body, tail := Header(), Flatten(stats, Block), [GeneratedLine(timestamp)];
    assert ReportLines(stats, timestamp) == head + body + tail;
    assert |head| == 3;
    assert 5 * i + k < |body| && (head + body + tail)[|head| + 5 * i + k] == Block(stats[i])[k] by {
      BlockWidth();
      FramedLineAt(head, stats, Block, tail, 5, i, k, 5 * i + k);
    }
  }

  /** Lines 3 + 5 * i to 3 + 5 * i + 4 describe the i-th statistic: the
      seller's name and id, the three counts in order, then an empty line. */
  lemma ReportBlockAt(stats: seq<SellerStatistic>, timestamp: string, i: int)
    requires 0 <= i < |stats|
    ensures var lines := ReportLines(stats, timestamp); var st := stats[i];
      && |lines| == 3 + 5 * |stats| + 1
      && lines[3 + 5 * i] == SellerLabel + st.sellerName + " (ID: " + IntToDecimal(st.sellerId) + ")"
      && lines[3 + 5 * i + 1] == ProductsLabel + IntToDecimal(st.productsCount)
      && lines[3 + 5 * i + 2] == SalesLabel + IntToDecimal(st.salesCount)
      && lines[3 + 5 * i + 3] == ShipmentsLabel + IntToDecimal(st.shipmentsCount)
      && lines[3 + 5 * i + 4] == ""
  {
    ReportLength(stats, timestamp);
    ReportLineInBlock(stats, timestamp, i, 0);
    ReportLineInBlock(stats, timestamp, i, 1);
    ReportLineInBlock(stats, timestamp, i, 2);
    ReportLineInBlock(stats, timestamp, i, 3);
    ReportLineInBlock(stats, timestamp, i, 4);
    var st := stats[i];
    ConcatFive(SellerLabel, st.sellerName, " (ID: ", IntToDecimal(st.sellerId), ")");
    ConcatTwo(ProductsLabel, IntToDecimal(st.productsCount));
    ConcatTwo(SalesLabel, IntToDecimal(st.salesCount));
    ConcatTwo(ShipmentsLabel, IntToDecimal(st.shipmentsCount));
  }

  /** Names and a timestamp without newlines. */
  predicate NewlineFreeInputs(stats: seq<SellerStatistic>, timestamp: string)
  {
    NewlineFree(timestamp) && forall i :: 0 <= i < |stats| ==> NewlineFree(stats[i].sellerName)
  }

  lemma IntToDecimalNewlineFree(i: int)
    ensures NewlineFree(IntToDecimal(i))
  {
    var s := IntToDecimal(i);
    IntToDecimalShape(i);
    forall k | 0 <= k < |s|
      ensures s[k] != '\n'
    {
      if k > 0 {
        assert s[1..][k - 1] == s[k];
      }
    }
  }

  lemma LabelsNewlineFree()
    ensures NewlineFree(Title) && NewlineFree(Rule) && NewlineFree(SellerLabel)
    ensures NewlineFree(ProductsLabel) && NewlineFree(SalesLabel)
    ensures NewlineFree(ShipmentsLabel) && NewlineFree(GeneratedLabel)
    ensures NewlineFree(" (ID: ") && NewlineFree(")") && NewlineFree("")
  {
  }

  /** A block has no newline when the seller's name has none. */
  lemma BlockNewlineFree(st: SellerStatistic)
    requires NewlineFree(st.sellerName)
    ensures AllNewlineFree(Block(st))
  {
    LabelsNewlineFree();
    IntToDecimalNewlineFree(st.sellerId);
    IntToDecimalNewlineFree(st.productsCount);
    IntToDecimalNewlineFree(st.salesCount);
    IntToDecimalNewlineFree(st.shipmentsCount);
    ConcatNewlineFree([SellerLabel, st.sellerName, " (ID: ", IntToDecimal(st.sellerId), ")"]);
    ConcatNewlineFree([ProductsLabel, IntToDecimal(st.productsCount)]);
    ConcatNewlineFree([SalesLabel, IntToDecimal(st.salesCount)]);
    ConcatNewlineFree([ShipmentsLabel, IntToDecimal(st.shipmentsCount)]);
  }

  /** With newline-free names and timestamp no report line holds a newline. */
  lemma ReportLinesNewlineFree(stats: seq<SellerStatistic>, timestamp: string)
    requires NewlineFreeInputs(stats, timestamp)
    ensures AllNewlineFree(ReportLines(stats, timestamp))
  {
    forall i | 0 <= i < |stats|
      ensures AllNewlineFree(Block(stats[i]))
    {
      BlockNewlineFree(stats[i]);
    }
    FlattenNewlineFree(stats, Block);
    LabelsNewlineFree();
    AppendNewlineFree(GeneratedLabel, timestamp);
    var body := Flatten(stats, Block);
    var lines := ReportLines(stats, timestamp);
    forall j | 0 <= j < |lines|
      ensures NewlineFree(lines[j])
    {
      if 3 <= j < 3 + |body| {
        IndexInMiddle(Header(), body, [GeneratedLine(timestamp)], j - 3);
      }
    }
  }

  /** `generate_statistics_report` with the clock reading passed in. */
  method GenerateStatisticsReport(stats: seq<SellerStatistic>, timestamp: string) returns (report: string)
    ensures report == JoinLines(ReportLines(stats, timestamp))
    ensures NewlineFreeInputs(stats, timestamp) ==> SplitLines(report) == ReportLines(stats, timestamp)
  {
    var reportLines := Header();
    for k := 0 to |stats|
      invariant reportLines == Header() + Flatten(stats[..k], Block)
    {
      assert stats[..k + 1][..k] == stats[..k];
      reportLines := reportLines + Block(stats[k]);
    }
    assert stats[..|stats|] == stats;
    reportLines := reportLines + [GeneratedLine(timestamp)];
    report := JoinLines(reportLines);
    if NewlineFreeInputs(stats, timestamp) {
      ReportLinesNewlineFree(stats, timestamp);
      SplitJoinRoundTrip(reportLines);
    }
  }
}
