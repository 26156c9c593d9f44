# Seller statistics service — a Dafny model

The service keeps three tables, `sellers`, `products` and `sales`, behind a
FastAPI/SQLAlchemy CRUD interface. On request it e-mails a plain-text report
of per-seller statistics to an address that has passed an e-mail format
check. This project models the part of the service that computes things:

- `gather_statistics` (`main.py`) produces one statistic per seller, in the
  order the sellers are read. Each statistic holds:
  - the number of the seller's products;
  - the number of (sale, product) pairs of the join `sales.product_id =
    products.id` for the seller's products;
  - the same join restricted to sales dated on or after the start of the
    current month.
- `generate_statistics_report` renders the statistics as text:
  - a three-line header (title, thirty `=`, an empty line);
  - five lines per seller;
  - a generation line.
  The lines are joined with `"\n"`.
- `send_statistics_email` gathers, renders and addresses the report under a
  fixed subject. This model stops before the SMTP send.
- The e-mail format check `^[a-zA-Z0-9_.+-]+@[a-zA-Z0-9-]+\.[a-zA-Z0-9-.]+$`
  is used both by the `validate_email` field validator of `SellerBase` and by
  the `pattern` of `StatisticsRequest.email`.

Tables are sequences of rows (`Rows`). Counting over a table is `CountIf`
(`Counting`). Each count is also given an independent reference definition
as a set of row positions or of (sale, product) position pairs, and lemmas
tie the two together. The two clock readings, the month start and the
timestamp text, are parameters. Timestamps are integers ordered like the
`DateTime` column.

Files:

- `rows.dfy`: the rows and the statistic record.
- `counting.dfy`: counting rows.
- `statistics.dfy`: `gather_statistics`.
- `decimal.dfy`: `str(int)` and its inverse.
- `lines.dfy`: `"\n".join`, `str.split("\n")` and block layout.
- `report.dfy`: `generate_statistics_report`.
- `email_format.dfy`: the e-mail pattern and validator.
- `pipeline.dfy`: `send_statistics_email` without the transport.

## Model

| member | source | states |
|---|---|---|
| Statistics.GatherStatistics | main.py:143-170 | Returns one statistic per seller, in the sellers' order. Each statistic carries that seller's id and name and is the seller's `StatisticFor`. Its shipments count never exceeds its sales count. The loop is proved against `StatisticsOf`. |
| Statistics.StatisticForMeaning | main.py:147-168 | A seller's statistic copies the seller's id and name. Its products count is the number of product rows with that `seller_id`. Its sales count is the number of (sale, product) pairs joined on `product_id = id` for the seller. Its shipments count is the number of such pairs with `sale_date >= month_start`. Shipments never exceed sales. |
| Statistics.ProductsCountIsOwned | main.py:148 | The products count equals the size of the set of positions of the seller's product rows. |
| Counting.CountIfIsCard | main.py:148-160 | Counting the rows a filter keeps gives the size of the set of positions it keeps. This is the `COUNT(*)` of a filtered query. |
| Statistics.JoinCountIsPairCount | main.py:150-153 | The join count equals the number of (sale, product) position pairs whose ids match, whose product belongs to the seller and whose sale passes the date filter. This holds even if product ids repeat. |
| Statistics.MatchCountUnique | main.py:150-153 | When product ids are unique (the primary key, main.py line 84), one sale joins exactly one product of the seller if its product is the seller's and it passes the filter. Otherwise it joins none. |
| Statistics.JoinCountUnique | main.py:150-160 | When product ids are unique, the join count equals the number of sales whose product belongs to the seller and that pass the filter. Every sale is counted as one row, whatever its quantity. |
| Statistics.ShipmentsAtMostSales | main.py:150-160 | The count with the `sale_date >= month_start` filter is at most the unfiltered count. |
| Statistics.JoinCount | main.py:150-153 | The join count is bounded by the product of the two table sizes. |
| Report.GenerateStatisticsReport | main.py:172-185 | The report is the header, one block per statistic in order, and the generation line, joined with newlines. When names and the timestamp hold no newline, splitting the report at newlines gives exactly those lines back. |
| Report.ReportLayout | main.py:173-184 | The report has 3 + 5·n + 1 lines. Line 0 is the title. Line 1 is thirty `=`. Line 2 is empty. The last line is `Отчет сгенерирован: ` followed by the timestamp. |
| Report.ReportBlockAt | main.py:175-182 | Lines 3+5i to 3+5i+4 are about the i-th statistic: `Продавец: <name> (ID: <id>)`, the products, sales and shipments counts with their labels, and an empty line. |
| Report.ReportLineInBlock | main.py:175-182 | Line k of the i-th five-line block is report line 3 + 5i + k. |
| Report.ReportLinesNewlineFree | main.py:173-184 | When seller names and the timestamp hold no newline, no report line does. |
| Lines.SplitJoinRoundTrip | main.py:185 | Splitting `"\n".join(lines)` at newlines gives back the lines, when no line holds a newline. |
| Lines.FlattenAt | main.py:175-182 | After appending equal-width blocks in order, the i-th block is the slice at width·i. |
| Lines.FlattenLength | main.py:175-182 | Appending n blocks of width w gives w·n lines. |
| Decimal.IntToDecimalRoundTrip | main.py:177-180 | The decimal text an f-string gives an integer reads back as that integer. |
| Decimal.NatToDecimalDigits | main.py:177-180 | The text of a natural number is a non-empty run of digits with no leading zero. |
| Decimal.IntToDecimalInjective | main.py:177-180 | Distinct ids and counts are printed differently. |
| EmailFormat.IsValidEmailIffMatches | main.py:27 | The scanner accepts a string exactly when it matches the pattern, in both directions. The scanner takes the first `@` and then the first `.` after it. Matching the pattern means some split into a local part, a domain label and a suffix over the pattern's three character classes. |
| EmailFormat.ValidateEmail | main.py:29-33 | A value is accepted, and returned unchanged, exactly when it matches the pattern. Otherwise it is rejected with `Invalid email format`. |
| EmailFormat.AcceptedHasOneAt | main.py:67 | Every address the pattern accepts holds exactly one `@`. |
| EmailFormat.AcceptedPlain | main.py:27 | `a@x.com` matches. |
| EmailFormat.AcceptedDotted | main.py:27 | `a.b+c@d-e.f.g` matches. The local part may hold `.` and `+`, the domain label `-`, and the suffix further dots. |
| EmailFormat.RejectedWithoutDot | main.py:67 | `a@b` does not match. |
| EmailFormat.RejectedEmptyDomain | main.py:67 | `a@.c` does not match. |
| EmailFormat.RejectedSecondAt | main.py:67 | `a@@b.c` does not match. |
| Pipeline.ComposeStatisticsEmail | main.py:187-195 | The message goes to the requested address under the subject `Статистика продавцов`. Its body is the report of the gathered statistics. With newline-free names and timestamp, the body has 3 + 5·n + 1 lines, and line 3+5i names the i-th seller and its id. |

## Left out

- Sending the mail (`send_email`, main.py lines 119-141) is left out: the SMTP connection, TLS, login, the MIME wrapping, and the logging and re-raise of transport errors. The model ends with the message handed over.
- The error handling of `send_statistics_email` (logging and re-raise) and its dispatch as a FastAPI background task (`/statistics/`) are left out. They are control flow around I/O.
- The CRUD endpoints, `get_db`, the session lifecycle and the Redis response cache are left out. They do not compute anything the statistics or the report depend on beyond the table contents, and the table contents are parameters.
- Database failures and connectivity errors are left out. The queries are modelled as total functions over the table contents.
- The clock is not modelled. `datetime.now()` is read once per seller for the month start (line 155), and the model takes a single month start for the whole run. A run that crosses a month boundary between sellers is therefore not modelled. The report's timestamp is an opaque string parameter: its `%Y-%m-%d %H:%M:%S` formatting is not modelled.
- Statistics.GatherStatistics: the row order of `db.query(DBSeller).all()` is taken to be the order of the `sellers` sequence. SQL does not fix that order.
- NULL column values are not modelled: every `seller_id`, `product_id` and `sale_date` is present. SQL would drop rows with NULLs from the filters and the join.
- Product names and prices, seller e-mails and sale quantities play no part in the statistics. They are not part of the rows (quantity is kept, but nothing reads it).
- The e-mail check is modelled on the full-match semantics that the field `pattern` enforces before the validator runs. Python's `re.match` would also let `$` match before a final newline. That corner case, and Unicode beyond the ASCII classes of the pattern, are not modelled.
