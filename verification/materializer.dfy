/**
  The row shaping of `save_to_separated_csv_extended`: each bucket becomes a
  table with a fixed header followed by its rows, each stamped with the run's
  date as one trailing cell. Opening files and CSV quoting are not modelled;
  a table is the sequence of cell rows handed to `csv.writer`.
 */
module Materializer {
  import opened Classifier

  /** The last header column of all three files, "update time". */
  const UpdateTimeColumn: string := "更新时间"

  /** Header of the `front` file (the daily list). */
  const FrontHeader: Row := ["时效", "代码", "名称", "现价", "涨跌幅", "成交金额", "净买入额", UpdateTimeColumn]

  /** Header of the `back` file (the large-client detail). */
  const BackHeader: Row := ["大客户名称", "买入额", "卖出额", "净额/万", UpdateTimeColumn]

  /** Header of the `third` file (the broker-branch ranking). */
  const ThirdHeader: Row := ["序号", "营业部名称", "上榜次数", "合计动用资金", "年内上榜次数",
                             "年内买入股票支数", "年内3日跟买成功率", UpdateTimeColumn]

  /** One output file: the header row written first, then the data rows. */
  datatype Table = Table(header: Row, records: seq<Row>)

  /** The three files of one run. */
  datatype Outputs = Outputs(front: Table, back: Table, third: Table)

  /** `row + [current_date]` for every row: each output row is its source row
      followed by exactly one extra cell, the date. */
  function Stamp(rows: seq<Row>, date: string): (r: seq<Row>)
    ensures |r| == |rows|
    ensures forall i :: 0 <= i < |r| ==>
              |r[i]| == |rows[i]| + 1 && r[i][..|rows[i]|] == rows[i] && r[i][|rows[i]|] == date
  {
    if rows == [] then [] else [rows[0] + [date]] + Stamp(rows[1..], date)
  }

  /** Every record is non-empty and its last cell is `date`. */
  predicate EndsWithDate(records: seq<Row>, date: string) {
    forall i :: 0 <= i < |records| ==> |records[i]| > 0 && records[i][|records[i]| - 1] == date
  }

  /** The inverse of stamping: every record with its last cell removed. */
  function DropDate(records: seq<Row>): (r: seq<Row>)
    requires forall i :: 0 <= i < |records| ==> |records[i]| > 0
    ensures |r| == |records|
    ensures forall i :: 0 <= i < |r| ==> r[i] + [records[i][|records[i]| - 1]] == records[i]
  {
    if records == [] then []
    else [records[0][..|records[0]| - 1]] + DropDate(records[1..])
  }

  /** Stamping loses nothing: removing the trailing date cell gives back the
      bucket, and every stamped record ends with the date. */
  lemma StampRoundTrip(rows: seq<Row>, date: string)
    ensures EndsWithDate(Stamp(rows, date), date)
    ensures DropDate(Stamp(rows, date)) == rows
  {
    var r := Stamp(rows, date);
    var d := DropDate(r);
    forall i | 0 <= i < |rows|
      ensures d[i] == rows[i]
    {
      assert d[i] + [date] == rows[i] + [date];
      assert d[i] == (d[i] + [date])[..|d[i]|];
    }
  }

  /** The three tables written for the buckets `front`, `back` and `third` with
      one capture date. Each header is the fixed schema whatever the bucket
      holds (an empty bucket still gets its header), and each table's records
      are exactly its bucket with the same date appended. */
  function Materialize(front: seq<Row>, back: seq<Row>, third: seq<Row>, date: string): (out: Outputs)
    ensures out.front.header == FrontHeader && out.back.header == BackHeader && out.third.header == ThirdHeader
    ensures |out.front.header| == 8 && |out.back.header| == 5 && |out.third.header| == 8
    ensures out.front.header[7] == UpdateTimeColumn && out.back.header[4] == UpdateTimeColumn
            && out.third.header[7] == UpdateTimeColumn
    ensures EndsWithDate(out.front.records, date) && DropDate(out.front.records) == front
    ensures EndsWithDate(out.back.records, date) && DropDate(out.back.records) == back
    ensures EndsWithDate(out.third.records, date) && DropDate(out.third.records) == third
  {
    StampRoundTrip(front, date);
    StampRoundTrip(back, date);
    StampRoundTrip(third, date);
    Outputs(Table(FrontHeader, Stamp(front, date)),
            Table(BackHeader, Stamp(back, date)),
            Table(ThirdHeader, Stamp(third, date)))
  }

  /** `save_to_separated_csv_extended` with the clock reading `date` passed in:
      split the scraped rows, then shape the three tables. Every input row
      appears, stamped, in exactly one table; all records of all three tables
      carry the same date. */
  method SaveToSeparatedCsv(data: seq<Row>, date: string) returns (out: Outputs)
    ensures out.front.header == FrontHeader && out.back.header == BackHeader && out.third.header == ThirdHeader
    ensures EndsWithDate(out.front.records, date) && EndsWithDate(out.back.records, date)
            && EndsWithDate(out.third.records, date)
    ensures DropDate(out.front.records) == Filter(data, Front)
    ensures DropDate(out.back.records) == Filter(data, Back)
    ensures DropDate(out.third.records) == Filter(data, Third)
    ensures |out.front.records| + |out.back.records| + |out.third.records| == |data|
  {
    var front, back, third := SplitDataExtended(data);
    out := Materialize(front, back, third, date);
  }
}
