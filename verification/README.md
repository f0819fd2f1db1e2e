# Dragon-Tiger list row pipeline, modelled in Dafny

The script `data/lkx-ths.py` scrapes two tables of the Dragon-Tiger list
(the daily list of abnormally traded stocks and a broker-branch ranking)
into one flat list of rows. It then sorts every row into one of three
buckets and writes each bucket to its own CSV file: `front`
(`longhu_data.csv`), `back` (`longhu_detail.csv`) and `third`
(`longhu_rank.csv`). Each file starts with a fixed header, and each data row
gets the run's date as an extra trailing cell. Last, it uploads the `front`
file to a SeaTable table in batches of 50 rows.

This project models the pure part of that pipeline and proves its
properties:

- `text.dfy`, module `Text`: `is_chinese`, which looks for a code point in
  the CJK Unified Ideographs block U+4E00..U+9FFF. It also models Python's
  `str.strip()` over the whitespace set of CPython's `str.isspace()`.
- `classifier.dfy`, module `Classifier`: the first-match-wins rule of
  `split_data_extended` (`Classify`) and the loop that applies it
  (`SplitDataExtended`). `Filter` is a reference definition of each bucket,
  and the lemmas prove the partition is total, exact and order-preserving.
- `materializer.dfy`, module `Materializer`: the three headers, the
  `row + [current_date]` stamping (`Stamp`, with its inverse `DropDate`), and
  `save_to_separated_csv_extended` as a pure function from rows and a date to
  three tables.
- `batching.dfy`, module `Batching`: the upload loop (`UploadBatches`). Each
  pass (`Step`) sends the slice `rows[i:i + 50]` and prints the count
  `min(i + 50, len(rows))`. `Steps` is the reference definition of all passes,
  and `Chunks`, the rows cut into consecutive pieces of 50, is an independent
  description of what is sent.

Rows are `seq<string>`. Python strings are sequences of code points and
Dafny strings are sequences of Unicode scalar values (code points other than
the surrogates U+D800..U+DFFF), so a cell without lone surrogates is modelled
character for character. The capture date is a parameter rather than a
clock reading. The records that `upload_to_seatable` reads back from the
`front` file are modelled as rows of cells; the chunking lemmas are stated
for any element type, because they only slice and count.

## Model

| member | source | states |
|---|---|---|
| Text.IsChinese | data/lkx-ths.py:20-21 | a text is Chinese exactly when one of its characters lies in U+4E00..U+9FFF; the empty text is never Chinese |
| Text.Strip | data/lkx-ths.py:55 | `strip()` leaves nothing exactly when the cell is all whitespace, so "non-empty after strip" means "has a non-whitespace character"; a non-empty result starts and ends with non-whitespace |
| Text.StripTrims | data/lkx-ths.py:55 | what `strip()` keeps is one contiguous piece of the cell, and only whitespace is cut away on either side |
| Classifier.Classify | data/lkx-ths.py:53-58 | `third` exactly when cell 1 exists and holds a CJK ideograph; `front` exactly when the row is not `third`, has a cell 5, and cell 5 has a non-whitespace character; `back` in every other case, including rows too short to have those cells |
| Classifier.SplitDataExtended | data/lkx-ths.py:50-59 | the loop builds each list equal to the reference bucket; the three lengths add up to the input length, and the three lists together hold the input rows as a multiset |
| Classifier.PartitionMultiset | data/lkx-ths.py:51-59 | for any tagging, the three buckets add up to the input as multisets and in length, so no row is dropped or duplicated |
| Classifier.PositionsExact | data/lkx-ths.py:52-58 | the listed positions of one bucket are in range and strictly increasing, and a position is listed exactly when its row gets that tag |
| Classifier.SelectAtPositions | data/lkx-ths.py:52-58 | a bucket holds the input rows at its listed positions, in that order: it is the subsequence of the input picked out by the tag |
| Classifier.FilterIsOrderedSelection | data/lkx-ths.py:52-58 | bucket `b` is, in input order, exactly the rows that `Classify` sends to `b`, at strictly increasing input positions |
| Classifier.SelectAppend | data/lkx-ths.py:33-45 | classifying the concatenated tables gives, per bucket, the first table's rows followed by the second table's rows |
| Classifier.ExactlyOneBucket | data/lkx-ths.py:53-58 | processing row `j` appends it to the end of its own bucket and leaves the other two buckets unchanged |
| Classifier.ChinesePrecedence | data/lkx-ths.py:53-54 | a row with a Chinese cell 1 (any row of at least two cells) is `third`, and when it has a cell 5 it stays `third` whatever that cell holds |
| Classifier.ShortRowFallback | data/lkx-ths.py:53-58 | a row of at most one cell, or of at most five cells with a non-Chinese cell 1, is `back` |
| Classifier.ExampleThird | data/lkx-ths.py:53-54 | `["a", "股票", "b", "c", "d", "e"]` is `third` |
| Classifier.ExampleFrontBack | data/lkx-ths.py:55-58 | a row with cell 5 `" 500万 "` and a non-Chinese cell 1 is `front`; with a whitespace-only cell 5 it is `back` |
| Materializer.Stamp | data/lkx-ths.py:74-75 | each output row is its source row, in the same position, followed by exactly one extra cell equal to the date |
| Materializer.DropDate | data/lkx-ths.py:75 | removing each record's last cell keeps the record as its prefix |
| Materializer.StampRoundTrip | data/lkx-ths.py:81-82 | every stamped record ends with the date, and dropping that cell gives back the bucket unchanged |
| Materializer.Materialize | data/lkx-ths.py:68-89 | the headers are the fixed 8-, 5- and 8-column schemas ending in 更新时间, whatever the buckets hold; each table's records are its bucket with the one shared date appended |
| Materializer.SaveToSeparatedCsv | data/lkx-ths.py:61-89 | after splitting, every table has its fixed header, every record of all three tables ends with the same date, and without that cell the records are exactly the buckets, which account for every input row |
| Batching.ChunksSpec | data/lkx-ths.py:157-160 | the batches concatenate back to the rows; each batch is non-empty and has at most 50 rows; all but the last have exactly 50; no rows means no batches |
| Batching.ChunkCount | data/lkx-ths.py:158 | there are ceil(len/50) batches: the fewest batches of 50 that cover the rows |
| Batching.ChunkIsSlice | data/lkx-ths.py:159 | batch `k` is the slice `rows[50k : 50(k+1)]`, clipped to the end of the rows |
| Batching.SentSoFar | data/lkx-ths.py:161 | after batch `k`, `min(50(k+1), len(rows))` rows have been sent in all |
| Batching.StepsAreChunks | data/lkx-ths.py:157-159 | the slices `rows[i:i + 50]` for `i` in `range(0, len(rows), 50)` are exactly the consecutive 50-row chunks of the rows, so the chunk lemmas above describe what is sent |
| Batching.StepsSent | data/lkx-ths.py:157-161 | the count printed after pass `k` is `min(50(k+1), len(rows))` |
| Batching.LastSent | data/lkx-ths.py:157-161 | a non-empty upload makes at least one pass, and the count printed after the last pass is `len(rows)` |
| Batching.SentCountsRows | data/lkx-ths.py:157-161 | no rows means no passes, and the count printed after each pass is the number of rows sent by that pass and the ones before it |
| Batching.UploadBatches | data/lkx-ths.py:157-161 | the loop makes exactly the passes of `Steps(rows, 0)`, the reference definition of `for i in range(0, len(rows), 50)`: in order, each sends the slice starting at its offset and prints the clipped count. So the slices concatenate back to the rows (`StepsAreChunks` with `ChunksSpec`), and the last count is `len(rows)` (`LastSent`) |

## Left out

- `fetch_longhu_data` (browser automation, page loads, DOM text extraction): external I/O. Its result is an arbitrary `seq<Row>` input.
- Opening the three files and `csv.writer` quoting and encoding: these happen inside Python's `csv` library. A table is modelled as its header and data rows of cells, not as bytes.
- `datetime.now().strftime("%Y-%m-%d")`: a clock reading. The date string is a parameter, and one value is passed to all three tables.
- `upload_to_seatable` apart from the batching arithmetic: authentication, `pandas` CSV reading, table and column creation, column renaming, row clearing, the append calls and the exception handling are calls into a remote service and libraries. `UploadBatches` returns, for each pass, the slice it would append and the count it would print, in place of making the calls.
- Module-level configuration (API token, server URL, table and file names), the `print` messages (except the upload count, which `Step.sent` holds), and the `__main__` driver, including its skip of the save step when nothing was scraped.
- Python strings holding lone surrogates (U+D800..U+DFFF) have no Dafny `string` counterpart, so the model's inputs exclude them. Such a character is neither CJK nor whitespace, so `Classify` would treat it like any other non-CJK, non-space character.
- The batch size: `Chunks` takes it as a parameter and requires it to be positive (a zero step makes Python's `range` raise). The script only ever passes 50.
