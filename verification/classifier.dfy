/**
  The row classifier `split_data_extended`: each scraped row goes, in input
  order, to exactly one of three buckets by a first-match-wins rule.
 */
module Classifier {
  import opened Text

  /** A scraped table row: its cells' inner text, in column order. */
  type Row = seq<string>

  /** The three output lists of `split_data_extended`. */
  datatype Bucket = Front | Back | Third

  /** The bucket one row is appended to. Rules, first match wins:
      cell 1 exists and is Chinese, then `third`; otherwise cell 5 exists and
      is non-empty after `strip()`, then `front`; otherwise `back`. */
  function Classify(row: Row): (b: Bucket)
    ensures b == Third <==> |row| > 1 && exists k :: 0 <= k < |row[1]| && IsCjkIdeograph(row[1][k])
    ensures b == Front <==> !(|row| > 1 && IsChinese(row[1])) && |row| > 5 && !AllSpace(row[5])
    ensures b == Back <==> (|row| <= 1 || !IsChinese(row[1])) && (|row| <= 5 || AllSpace(row[5]))
  {
    if |row| > 1 && IsChinese(row[1]) then Third
    else if |row| > 5 && Strip(row[5]) != "" then Front
    else Back
  }

  /** Reference definition of one bucket: the rows of `data` that `Classify`
      sends to `b`, in their original relative order. */
  function Filter(data: seq<Row>, b: Bucket): seq<Row>
  {
    Select(data, Classify, b)
  }

  /** The elements of `s` that `tag` maps to `b`, in their relative order. The
      lemmas below are stated for any tagging function, so that their proofs
      never look inside `Classify`. */
  function Select<T>(s: seq<T>, tag: T -> Bucket, b: Bucket): seq<T>
  {
    if s == [] then []
    else
      var last := s[|s| - 1];
      Select(s[..|s| - 1], tag, b) + (if tag(last) == b then [last] else [])
  }

  /** `split_data_extended`: one pass over `data`, appending each row to the
      list its rule selects. Each list is exactly the reference bucket, and
      together they account for every input row once. */
  method SplitDataExtended(data: seq<Row>) returns (front: seq<Row>, back: seq<Row>, third: seq<Row>)
    ensures front == Filter(data, Front)
    ensures back == Filter(data, Back)
    ensures third == Filter(data, Third)
    ensures |front| + |back| + |third| == |data|
    ensures multiset(front) + multiset(back) + multiset(third) == multiset(data)
  {
    front, back, third := [], [], [];
    var i := 0;
    while i < |data|
      invariant 0 <= i <= |data|
      invariant front == Filter(data[..i], Front)
      invariant back == Filter(data[..i], Back)
      invariant third == Filter(data[..i], Third)
    {
      var row := data[i];
      assert data[..i + 1] == data[..i] + [row];
      SelectSnoc(data[..i], row, Classify, Front);
      SelectSnoc(data[..i], row, Classify, Back);
      SelectSnoc(data[..i], row, Classify, Third);
      match Classify(row) {
        case Third => third := third + [row];
        case Front => front := front + [row];
        case Back => back := back + [row];
      }
      i := i + 1;
    }
    assert data[..i] == data;
    PartitionMultiset(data, Classify);
  }

  /** The three buckets split the input between them: as multisets they add up
      to the input, so no element is dropped or duplicated, and their lengths
      add up to the input's length. */
  lemma {:induction false} PartitionMultiset<T>(s: seq<T>, tag: T -> Bucket)
    ensures multiset(Select(s, tag, Front)) + multiset(Select(s, tag, Back)) + multiset(Select(s, tag, Third))
            == multiset(s)
    ensures |Select(s, tag, Front)| + |Select(s, tag, Back)| + |Select(s, tag, Third)| == |s|
  {
    var f, bk, t := Select(s, tag, Front), Select(s, tag, Back), Select(s, tag, Third);
    if s == [] {
      assert f == [] && bk == [] && t == [];
    } else {
      var init := s[..|s| - 1];
      var x := s[|s| - 1];
      PartitionMultiset(init, tag);
      assert s == init + [x];
      SelectSnocMultiset(init, x, tag, Front);
      SelectSnocMultiset(init, x, tag, Back);
      SelectSnocMultiset(init, x, tag, Third);
      AddToOne(multiset(Select(init, tag, Front)), multiset(Select(init, tag, Back)),
               multiset(Select(init, tag, Third)), x, tag(x));
    }
    assert |multiset(f) + multiset(bk) + multiset(t)| == |f| + |bk| + |t|;
  }

  /** `m` with one more `x` when `hit` holds. */
  function AddIf<T>(m: multiset<T>, x: T, hit: bool): multiset<T> {
    if hit then m + multiset{x} else m
  }

  /** Processing one more element adds it to its own bucket's multiset only. */
  lemma SelectSnocMultiset<T>(init: seq<T>, x: T, tag: T -> Bucket, b: Bucket)
    ensures multiset(Select(init + [x], tag, b)) == AddIf(multiset(Select(init, tag, b)), x, tag(x) == b)
  {
    SelectSnoc(init, x, tag, b);
  }

  /** Adding `x` to exactly one of three multisets adds it once to their sum. */
  lemma AddToOne<T>(f: multiset<T>, bk: multiset<T>, t: multiset<T>, x: T, b: Bucket)
    ensures AddIf(f, x, b == Front) + AddIf(bk, x, b == Back) + AddIf(t, x, b == Third)
            == f + bk + t + multiset{x}
  {
  }

  /** Processing one more element appends it to its own bucket only. */
  lemma SelectSnoc<T>(init: seq<T>, x: T, tag: T -> Bucket, b: Bucket)
    ensures Select(init + [x], tag, b) == Select(init, tag, b) + (if tag(x) == b then [x] else [])
  {
    assert (init + [x])[..|init|] == init;
  }

  /** The positions of `s` whose element `tag` maps to `b`, in increasing
      order: the input indices that make up one bucket. */
  function Positions<T>(s: seq<T>, tag: T -> Bucket, b: Bucket): seq<nat>
  {
    if s == [] then []
    else Positions(s[..|s| - 1], tag, b) + (if tag(s[|s| - 1]) == b then [|s| - 1] else [])
  }

  /** A position is listed exactly when its element is tagged `b`, positions
      are in range and listed in strictly increasing order. */
  lemma {:induction false} PositionsExact<T>(s: seq<T>, tag: T -> Bucket, b: Bucket)
    ensures forall k :: 0 <= k < |Positions(s, tag, b)| ==> Positions(s, tag, b)[k] < |s|
    ensures forall k, l :: 0 <= k < l < |Positions(s, tag, b)| ==> Positions(s, tag, b)[k] < Positions(s, tag, b)[l]
    ensures forall j :: 0 <= j < |s| ==> (tag(s[j]) == b <==> j in Positions(s, tag, b))
  {
    if s != [] {
      var n := |s| - 1;
      var init := s[..n];
      PositionsExact(init, tag, b);
      var p0, p := Positions(init, tag, b), Positions(s, tag, b);
      assert p == p0 + (if tag(s[n]) == b then [n] else []);
      forall j | 0 <= j < n
        ensures tag(s[j]) == b <==> j in p
      {
        assert s[j] == init[j];
        assert j in p <==> j in p0;
      }
    }
  }

  /** Order preservation: the bucket lists the elements at `Positions`, in
      that order, so it is the subsequence of `s` picked out by its tag. */
  lemma {:induction false} SelectAtPositions<T>(s: seq<T>, tag: T -> Bucket, b: Bucket)
    ensures |Positions(s, tag, b)| == |Select(s, tag, b)|
    ensures forall k :: 0 <= k < |Select(s, tag, b)| ==>
              Positions(s, tag, b)[k] < |s| && s[Positions(s, tag, b)[k]] == Select(s, tag, b)[k]
  {
    if s != [] {
      var n := |s| - 1;
      var init := s[..n];
      SelectAtPositions(init, tag, b);
      var p0, p := Positions(init, tag, b), Positions(s, tag, b);
      var sel0, sel := Select(init, tag, b), Select(s, tag, b);
      assert p == p0 + (if tag(s[n]) == b then [n] else []);
      assert sel == sel0 + (if tag(s[n]) == b then [s[n]] else []);
      forall k | 0 <= k < |sel0|
        ensures p[k] < |s| && s[p[k]] == sel[k]
      {
        assert p[k] == p0[k] && sel[k] == sel0[k];
        assert s[p0[k]] == init[p0[k]];
      }
    }
  }

  /** Order preservation for the classifier itself: bucket `b` lists, in
      input order, exactly the rows at the input positions whose row
      `Classify` sends to `b`. */
  lemma FilterIsOrderedSelection(data: seq<Row>, b: Bucket)
    ensures |Positions(data, Classify, b)| == |Filter(data, b)|
    ensures forall k :: 0 <= k < |Filter(data, b)| ==>
              Positions(data, Classify, b)[k] < |data| && data[Positions(data, Classify, b)[k]] == Filter(data, b)[k]
    ensures forall k, l :: 0 <= k < l < |Filter(data, b)| ==>
              Positions(data, Classify, b)[k] < Positions(data, Classify, b)[l]
    ensures forall j :: 0 <= j < |data| ==> (Classify(data[j]) == b <==> j in Positions(data, Classify, b))
  {
    PositionsExact(data, Classify, b);
    SelectAtPositions(data, Classify, b);
  }

  /** Selection distributes over concatenation. The scraped input is the rows
      of the daily list followed by those of the branch ranking, so each
      bucket is that bucket of the first table followed by that of the
      second. */
  lemma {:induction false} SelectAppend<T>(a: seq<T>, c: seq<T>, tag: T -> Bucket, b: Bucket)
    ensures Select(a + c, tag, b) == Select(a, tag, b) + Select(c, tag, b)
    decreases |c|
  {
    if c == [] {
      assert a + c == a;
    } else {
      var n := |c| - 1;
      SelectAppend(a, c[..n], tag, b);
      assert (a + c)[..|a + c| - 1] == a + c[..n];
    }
  }

  /** Exactly one bucket: row `j` is appended to the bucket it is classified
      into, at the position that counts its predecessors of that bucket, and
      the other two buckets do not change when it is processed. */
  lemma ExactlyOneBucket(data: seq<Row>, j: nat)
    requires j < |data|
    ensures var b := Classify(data[j]);
            Filter(data[..j + 1], b) == Filter(data[..j], b) + [data[j]]
    ensures forall b :: b != Classify(data[j]) ==> Filter(data[..j + 1], b) == Filter(data[..j], b)
  {
    assert data[..j + 1][..j] == data[..j];
  }

  /** Precedence: a row whose cell 1 is Chinese is `third`, and when it has a
      cell 5, whatever that cell holds. */
  lemma ChinesePrecedence(row: Row, cell5: string)
    requires |row| > 1 && IsChinese(row[1])
    ensures Classify(row) == Third
    ensures |row| > 5 ==> Classify(row[5 := cell5]) == Third
  {
  }

  /** Short-row fallback: a row of at most one cell, and a row of at most five
      cells whose cell 1 is not Chinese, is `back`. */
  lemma ShortRowFallback(row: Row)
    requires |row| <= 1 || (|row| <= 5 && !IsChinese(row[1]))
    ensures Classify(row) == Back
  {
  }

  /** The row `["a", "股票", "b", "c", "d", "e"]` is `third`. */
  lemma ExampleThird()
    ensures Classify(["a", "股票", "b", "c", "d", "e"]) == Third
  {
    var row := ["a", "股票", "b", "c", "d", "e"];
    assert IsCjkIdeograph(row[1][0]);
  }

  /** A row with a non-Chinese cell 1 and a padded, non-blank cell 5 is
      `front`; the same row with a blank cell 5 is `back`. */
  lemma ExampleFrontBack()
    ensures Classify(["1d", "000001", "名称", "10.5", "+2%", " 500万 ", "1万"]) == Front
    ensures Classify(["1d", "000001", "名称", "10.5", "+2%", "   ", "1万"]) == Back
  {
    var code := "000001";
    assert !IsChinese(code) by {
      forall i | 0 <= i < |code|
        ensures !IsCjkIdeograph(code[i])
      {
      }
    }
    var amount := " 500万 ";
    assert !IsSpace(amount[1]);
    var blank := "   ";
    assert AllSpace(blank);
  }
}
