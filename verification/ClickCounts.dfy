/**
 The accumulated click batch as a bag of short codes, and the single UPDATE statement that
 writes a batch to the urls table.
 */
module ClickCounts {
  import opened Wrappers

  type Batch = map<string, nat>

  function Get(batch: Batch, code: string): nat
  {
    if code in batch then batch[code] else 0
  }

  /** The batch with multiplicities: its size is the sum of the values of the map. */
  ghost function Bag(batch: Batch): multiset<string>
    decreases batch
  {
    if batch == map[] then multiset{}
    else var code :| code in batch; Bag(batch - {code})[code := batch[code]]
  }

  lemma {:induction false} BagCounts(batch: Batch)
    ensures forall c :: Bag(batch)[c] == Get(batch, c)
    decreases batch
  {
    if batch != map[] {
      var code :| code in batch && Bag(batch) == Bag(batch - {code})[code := batch[code]];
      BagCounts(batch - {code});
    }
  }

  /** Counting one more click of a code adds that click to the bag. */
  lemma BagOfOneMore(batch: Batch, code: string)
    ensures Bag(batch[code := Get(batch, code) + 1]) == Bag(batch) + multiset{code}
  {
    BagCounts(batch);
    BagCounts(batch[code := Get(batch, code) + 1]);
  }

  // ---------------------------------------------------------------- the urls table

  /** The two columns the statement touches; a row inside a creating transaction has no code yet. */
  datatype ClickRow = ClickRow(code: Option<string>, clicks: int)

  type ClickTable = map<int, ClickRow>

  predicate Matches(row: ClickRow, code: string) {
    row.code == Some(code)
  }

  /**
   UPDATE urls SET click_count = click_count + d.delta FROM (pairs) AS d WHERE short_code = d.code.
   A row joined by several pairs is updated from one of them, and which one is not specified.
   */
  ghost predicate UpdateFrom(before: ClickTable, codes: seq<string>, deltas: seq<nat>, after: ClickTable)
    requires |codes| == |deltas|
  {
    && after.Keys == before.Keys
    && forall id :: id in before ==>
         RowUpdated(before[id], codes, deltas, after[id])
  }

  ghost predicate RowUpdated(row: ClickRow, codes: seq<string>, deltas: seq<nat>, row': ClickRow)
    requires |codes| == |deltas|
  {
    if exists i :: 0 <= i < |codes| && Matches(row, codes[i]) then
      exists i :: 0 <= i < |codes| && Matches(row, codes[i])
                  && row' == row.(clicks := row.clicks + deltas[i])
    else
      row' == row
  }

  /** The counting of one click, as one statement of its own. */
  function CountOne(table: ClickTable, code: string): ClickTable
  {
    map id | id in table ::
      if Matches(table[id], code) then table[id].(clicks := table[id].clicks + 1) else table[id]
  }

  function CountAll(table: ClickTable, clicks: seq<string>): ClickTable
  {
    if clicks == [] then table else CountOne(CountAll(table, clicks[..|clicks| - 1]), clicks[|clicks| - 1])
  }

  function ClicksOf(row: ClickRow, bag: multiset<string>): nat
  {
    if row.code.Some? then bag[row.code.value] else 0
  }

  lemma {:induction false} CountAllAdds(table: ClickTable, clicks: seq<string>)
    ensures CountAll(table, clicks).Keys == table.Keys
    ensures forall id :: id in table ==>
              CountAll(table, clicks)[id] ==
              table[id].(clicks := table[id].clicks + ClicksOf(table[id], multiset(clicks)))
    decreases |clicks|
  {
    if clicks != [] {
      var front := clicks[..|clicks| - 1];
      CountAllAdds(table, front);
      assert clicks == front + [clicks[|clicks| - 1]];
    }
  }

  ghost predicate Distinct(codes: seq<string>) {
    forall i, j :: 0 <= i < j < |codes| ==> codes[i] != codes[j]
  }

  /** The two parallel arrays list the entries of the batch, each code once. */
  ghost predicate Lists(codes: seq<string>, deltas: seq<nat>, batch: Batch) {
    && |codes| == |deltas|
    && Distinct(codes)
    && (forall c :: c in batch <==> c in codes)
    && forall i :: 0 <= i < |codes| ==> codes[i] in batch && deltas[i] == batch[codes[i]]
  }

  /** Splits the batch into the two arrays the statement binds, in whatever order the map yields. */
  method Unzip(batch: Batch) returns (codes: seq<string>, deltas: seq<nat>)
    ensures Lists(codes, deltas, batch)
  {
    codes, deltas := [], [];
    var rest := batch;
    while rest != map[]
      invariant rest.Keys <= batch.Keys
      invariant forall c :: c in rest ==> rest[c] == batch[c] && c !in codes
      invariant forall c :: c in batch ==> c in rest || c in codes
      invariant |codes| == |deltas| && Distinct(codes)
      invariant forall i :: 0 <= i < |codes| ==> codes[i] in batch && deltas[i] == batch[codes[i]]
      decreases rest
    {
      var code :| code in rest;
      codes, deltas := codes + [code], deltas + [rest[code]];
      rest := rest - {code};
    }
  }

  /**
   One batched statement equals counting the clicks one by one, in any order: whatever table the
   statement leaves behind, it is the fold of every click list with the same multiplicities.
   */
  lemma BatchedUpdateIsFold(before: ClickTable, codes: seq<string>, deltas: seq<nat>, after: ClickTable,
                            batch: Batch, clicks: seq<string>)
    requires Lists(codes, deltas, batch) && multiset(clicks) == Bag(batch)
    requires UpdateFrom(before, codes, deltas, after)
    ensures after == CountAll(before, clicks)
  {
    CountAllAdds(before, clicks);
    BagCounts(batch);
    forall id | id in before
      ensures after[id] == CountAll(before, clicks)[id]
    {
      RowGetsItsDelta(before[id], codes, deltas, after[id], batch);
    }
  }

  lemma RowGetsItsDelta(row: ClickRow, codes: seq<string>, deltas: seq<nat>, row': ClickRow, batch: Batch)
    requires Lists(codes, deltas, batch) && RowUpdated(row, codes, deltas, row')
    ensures row' == row.(clicks := row.clicks + if row.code.Some? then Get(batch, row.code.value) else 0)
  {
    if row.code.Some? && row.code.value in batch {
      assert row.code.value in codes;
      var i :| 0 <= i < |codes| && codes[i] == row.code.value;
      assert Matches(row, codes[i]);
    }
  }

  /** Distinct codes are what the equality rests on: a code listed twice loses one of its two deltas. */
  lemma RepeatedCodeLosesClicks(before: ClickTable, id: int, code: string, after: ClickTable)
    requires id in before && before[id].code == Some(code)
    requires UpdateFrom(before, [code, code], [1, 1], after)
    ensures id in CountAll(before, [code, code])
    ensures after[id].clicks == before[id].clicks + 1 < CountAll(before, [code, code])[id].clicks
  {
    CountAllAdds(before, [code, code]);
    assert Matches(before[id], [code, code][0]);
  }

  // ---------------------------------------------------------------- the table by short code

  /** Stored counts by short code, as the flush protocol sees them. */
  ghost predicate CountsByCode(table: ClickTable, counts: map<string, nat>) {
    && (forall id :: id in table && table[id].code.Some? ==>
          table[id].code.value in counts && counts[table[id].code.value] == table[id].clicks)
    && (forall c :: c in counts ==> exists id :: id in table && Matches(table[id], c))
  }

  function AddBatch(counts: map<string, nat>, batch: Batch): map<string, nat>
  {
    map c | c in counts :: counts[c] + Get(batch, c)
  }

  /** The statement does to the table what AddBatch does to the counts by code. */
  lemma StatementAddsBatch(before: ClickTable, codes: seq<string>, deltas: seq<nat>, after: ClickTable,
                           batch: Batch, counts: map<string, nat>)
    requires Lists(codes, deltas, batch) && CountsByCode(before, counts)
    requires UpdateFrom(before, codes, deltas, after)
    ensures CountsByCode(after, AddBatch(counts, batch))
  {
    forall id | id in before
      ensures after[id] == before[id].(clicks := before[id].clicks +
                if before[id].code.Some? then Get(batch, before[id].code.value) else 0)
    {
      RowGetsItsDelta(before[id], codes, deltas, after[id], batch);
    }
    forall c | c in counts
      ensures exists id :: id in after && Matches(after[id], c)
    {
      var id :| id in before && Matches(before[id], c);
      assert Matches(after[id], c);
    }
  }
}
