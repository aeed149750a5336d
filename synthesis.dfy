/** The loop of lines 35-69: the closed-question blocks are scored in row order
    into a table keyed by question id. The script keeps that table twice, as
    the rows of a data frame and as the insertion-ordered `score_colors` dict;
    both are keyed by question id, get the same keys in the same order and are
    read back together, so here they are one ordered table. */
module Synthesis {
  import opened Sheets
  import opened Classifier
  import opened Scores

  /** The question ids in first-insertion order, and each id's line. */
  datatype Table = Table(order: seq<string>, rows: map<string, QuestionResult>)

  const EmptyTable: Table := Table([], map[])

  predicate NoDuplicates(xs: seq<string>) {
    forall j, k :: 0 <= j < k < |xs| ==> xs[j] != xs[k]
  }

  /** Every id is listed once, and the listed ids are exactly those with a line. */
  predicate Valid(t: Table) {
    NoDuplicates(t.order) && t.rows.Keys == set id | id in t.order
  }

  /** `table[id] = q` on an insertion-ordered dict: a new id goes last, a
      known id keeps its place and gets the new line. */
  function Put(t: Table, id: string, q: QuestionResult): (r: Table)
    ensures Valid(t) ==> Valid(r)
  {
    Table(if id in t.rows then t.order else t.order + [id], t.rows[id := q])
  }

  predicate AllTextRows(sheet: Sheet, blocks: seq<nat>) {
    forall k :: 0 <= k < |blocks| ==> IsTextRow(sheet, blocks[k])
  }

  /** Both per-block steps are defined on every block of `blocks`. */
  ghost predicate Defined(score: nat --> Result<QuestionResult>, name: nat --> string, blocks: seq<nat>) {
    forall k :: 0 <= k < |blocks| ==> score.requires(blocks[k]) && name.requires(blocks[k])
  }

  /** The table after processing `blocks` in order, where `score` turns a
      block into its line and `name` gives its question id; the first block
      that cannot be scored stops the run with its error. */
  function Tabulate(score: nat --> Result<QuestionResult>, name: nat --> string, blocks: seq<nat>): Result<Table>
    requires Defined(score, name, blocks)
    decreases |blocks|
  {
    if blocks == [] then Ok(EmptyTable)
    else
      var n := |blocks| - 1;
      assert forall k :: 0 <= k < n ==> blocks[..n][k] == blocks[k];
      var t :- Tabulate(score, name, blocks[..n]);
      var q :- score(blocks[n]);
      Ok(Put(t, name(blocks[n]), q))
  }

  /** Scoring the block whose header is at `index`. */
  function Scorer(sheet: Sheet): nat --> Result<QuestionResult> {
    (index: nat) requires IsTextRow(sheet, index) => ScoreBlock(sheet, index)
  }

  /** The question id of the block whose header is at `index`. */
  function Namer(sheet: Sheet): nat --> string {
    (index: nat) requires IsTextRow(sheet, index) => QuestionId(sheet, index)
  }

  /** The table of lines 35-69 for the blocks at `blocks`. */
  function Build(sheet: Sheet, blocks: seq<nat>): Result<Table>
    requires AllTextRows(sheet, blocks)
  {
    Tabulate(Scorer(sheet), Namer(sheet), blocks)
  }

  /** Every block of `blocks` can be scored. */
  ghost predicate AllScored(score: nat --> Result<QuestionResult>, blocks: seq<nat>)
    requires forall k :: 0 <= k < |blocks| ==> score.requires(blocks[k])
  {
    forall k :: 0 <= k < |blocks| ==> score(blocks[k]).Ok?
  }

  /** The run succeeds exactly when every block can be scored. */
  lemma {:induction false} TabulateOk(score: nat --> Result<QuestionResult>, name: nat --> string, blocks: seq<nat>)
    requires Defined(score, name, blocks)
    ensures Tabulate(score, name, blocks).Ok? <==> AllScored(score, blocks)
    decreases |blocks|
  {
    if blocks != [] {
      var n := |blocks| - 1;
      var front := blocks[..n];
      assert forall k :: 0 <= k < n ==> front[k] == blocks[k];
      TabulateOk(score, name, front);
      if AllScored(score, blocks) {
        assert AllScored(score, front);
      }
      if AllScored(score, front) && score(blocks[n]).Ok? {
        forall k | 0 <= k < |blocks| ensures score(blocks[k]).Ok? {
          if k < n {
            assert front[k] == blocks[k];
          }
        }
      }
    }
  }

  /** Block `k` is the first of `blocks` that cannot be scored, with error `e`. */
  ghost predicate FirstBlockFailure(score: nat --> Result<QuestionResult>, blocks: seq<nat>, k: int, e: Error)
    requires forall k :: 0 <= k < |blocks| ==> score.requires(blocks[k])
  {
    && 0 <= k < |blocks|
    && score(blocks[k]) == Err(e)
    && forall j :: 0 <= j < k ==> score(blocks[j]).Ok?
  }

  /** A failed run reports the error of the first block that cannot be scored. */
  lemma {:induction false} TabulateFirstError(score: nat --> Result<QuestionResult>, name: nat --> string, blocks: seq<nat>)
    requires Defined(score, name, blocks)
    ensures var r := Tabulate(score, name, blocks);
            r.Err? ==> exists k :: FirstBlockFailure(score, blocks, k, r.error)
    decreases |blocks|
  {
    if blocks != [] {
      var n := |blocks| - 1;
      var front := blocks[..n];
      assert forall k :: 0 <= k < n ==> front[k] == blocks[k];
      var prev := Tabulate(score, name, front);
      var r := Tabulate(score, name, blocks);
      if prev.Err? {
        TabulateFirstError(score, name, front);
        var k :| FirstBlockFailure(score, front, k, prev.error);
        assert FirstBlockFailure(score, blocks, k, r.error);
      } else if r.Err? {
        TabulateOk(score, name, front);
        assert FirstBlockFailure(score, blocks, n, r.error);
      }
    }
  }

  /** The table a successful run builds is well formed. */
  lemma {:induction false} TabulateValid(score: nat --> Result<QuestionResult>, name: nat --> string, blocks: seq<nat>)
    requires Defined(score, name, blocks)
    requires Tabulate(score, name, blocks).Ok?
    ensures Valid(Tabulate(score, name, blocks).value)
    decreases |blocks|
  {
    if blocks != [] {
      var n := |blocks| - 1;
      assert forall k :: 0 <= k < n ==> blocks[..n][k] == blocks[k];
      TabulateValid(score, name, blocks[..n]);
    }
  }

  /** The question ids of `blocks`, in block order. */
  function Ids(name: nat --> string, blocks: seq<nat>): (ids: seq<string>)
    requires forall k :: 0 <= k < |blocks| ==> name.requires(blocks[k])
    ensures |ids| == |blocks|
    ensures forall k :: 0 <= k < |blocks| ==> ids[k] == name(blocks[k])
  {
    if blocks == [] then []
    else
      var n := |blocks| - 1;
      assert forall k :: 0 <= k < n ==> blocks[..n][k] == blocks[k];
      Ids(name, blocks[..n]) + [name(blocks[n])]
  }

  /** The position of the first occurrence of `x` in `xs`. */
  function FirstIndex(xs: seq<string>, x: string): (k: nat)
    requires x in xs
    ensures k < |xs| && xs[k] == x
    ensures forall j :: 0 <= j < k ==> xs[j] != x
  {
    if xs[0] == x then 0 else 1 + FirstIndex(xs[1..], x)
  }

  lemma FirstIndexAppend(xs: seq<string>, y: string, x: string)
    requires x in xs
    ensures FirstIndex(xs + [y], x) == FirstIndex(xs, x)
  {
    var k1, k2 := FirstIndex(xs, x), FirstIndex(xs + [y], x);
    assert (xs + [y])[k1] == x;
  }

  lemma FirstIndexNew(xs: seq<string>, y: string)
    requires y !in xs
    ensures FirstIndex(xs + [y], y) == |xs|
  {
    var k := FirstIndex(xs + [y], y);
  }

  /** The table lists each question id once, in the order in which the ids
      first occur among the blocks. */
  lemma {:induction false} TabulateOrder(score: nat --> Result<QuestionResult>, name: nat --> string, blocks: seq<nat>)
    requires Defined(score, name, blocks)
    requires Tabulate(score, name, blocks).Ok?
    ensures forall id :: id in Tabulate(score, name, blocks).value.order <==> id in Ids(name, blocks)
    ensures var order, ids := Tabulate(score, name, blocks).value.order, Ids(name, blocks);
            forall j, k :: 0 <= j < k < |order| ==>
              order[j] in ids && order[k] in ids && FirstIndex(ids, order[j]) < FirstIndex(ids, order[k])
    decreases |blocks|
  {
    if blocks != [] {
      var n := |blocks| - 1;
      assert forall k :: 0 <= k < n ==> blocks[..n][k] == blocks[k];
      TabulateOrder(score, name, blocks[..n]);
      TabulateValid(score, name, blocks[..n]);
      var t' := Tabulate(score, name, blocks[..n]).value;
      var ids' := Ids(name, blocks[..n]);
      var id := name(blocks[n]);
      var ids := Ids(name, blocks);
      assert ids == ids' + [id];
      var order := Tabulate(score, name, blocks).value.order;
      forall x | x in ids' ensures FirstIndex(ids, x) == FirstIndex(ids', x) {
        FirstIndexAppend(ids', id, x);
      }
      if id !in t'.rows {
        FirstIndexNew(ids', id);
        assert order == t'.order + [id];
      }
    }
  }

  /** The line kept for an id is the one computed for the last block that has
      that id: a repeated id overwrites the earlier line. */
  lemma {:induction false} TabulateLatest(score: nat --> Result<QuestionResult>, name: nat --> string, blocks: seq<nat>, k: nat)
    requires Defined(score, name, blocks)
    requires Tabulate(score, name, blocks).Ok?
    requires k < |blocks|
    requires forall j :: k < j < |blocks| ==> name(blocks[j]) != name(blocks[k])
    ensures score(blocks[k]).Ok?
    ensures name(blocks[k]) in Tabulate(score, name, blocks).value.rows
    ensures Tabulate(score, name, blocks).value.rows[name(blocks[k])] == score(blocks[k]).value
    decreases |blocks|
  {
    var n := |blocks| - 1;
    assert forall j :: 0 <= j < n ==> blocks[..n][j] == blocks[j];
    if k < n {
      TabulateLatest(score, name, blocks[..n], k);
    }
  }

  /** Scoring stops at the first block that fails, with that block's error. */
  lemma TabulateFailsAt(score: nat --> Result<QuestionResult>, name: nat --> string, blocks: seq<nat>, i: nat)
    requires Defined(score, name, blocks)
    requires i < |blocks|
    requires Defined(score, name, blocks[..i]) && Tabulate(score, name, blocks[..i]).Ok?
    requires score(blocks[i]).Err?
    ensures Tabulate(score, name, blocks) == Err(score(blocks[i]).error)
  {
    assert forall j :: 0 <= j < i ==> blocks[..i][j] == blocks[j];
    TabulateOk(score, name, blocks[..i]);
    TabulateOk(score, name, blocks);
    TabulateFirstError(score, name, blocks);
    var k :| FirstBlockFailure(score, blocks, k, Tabulate(score, name, blocks).error);
    assert k == i;
  }

  /** One more block scored successfully extends the table by one `Put`. */
  lemma TabulateStep(score: nat --> Result<QuestionResult>, name: nat --> string, blocks: seq<nat>, i: nat, t: Table, q: QuestionResult)
    requires Defined(score, name, blocks)
    requires i < |blocks|
    requires Defined(score, name, blocks[..i]) && Tabulate(score, name, blocks[..i]) == Ok(t)
    requires score(blocks[i]) == Ok(q)
    ensures Defined(score, name, blocks[..i + 1])
    ensures Tabulate(score, name, blocks[..i + 1]) == Ok(Put(t, name(blocks[i]), q))
  {
    assert blocks[..i + 1][..i] == blocks[..i];
  }

  /** The loop of the script: for each block, in order, take the id from the
      header, read the counts, divide by the total, pick the colour, and store
      the line under the id. */
  method ComputeScores(sheet: Sheet, blocks: seq<nat>) returns (r: Result<Table>)
    requires AllTextRows(sheet, blocks)
    ensures r == Build(sheet, blocks)
  {
    ghost var scorer, namer := Scorer(sheet), Namer(sheet);
    assert Defined(scorer, namer, blocks);
    var order: seq<string> := [];
    var rows: map<string, QuestionResult> := map[];
    for i := 0 to |blocks|
      invariant Defined(scorer, namer, blocks[..i])
      invariant Tabulate(scorer, namer, blocks[..i]) == Ok(Table(order, rows))
    {
      var index := blocks[i];
      var questionId := LastToken(sheet[index].caption.s);
      var block := ReadBlock(sheet, index);
      if block.Err? {
        TabulateFailsAt(scorer, namer, blocks, i);
        return Err(block.error);
      }
      var total := block.value.veryCount + block.value.satisfiedCount + block.value.otherCount;
      if total == 0 {
        TabulateFailsAt(scorer, namer, blocks, i);
        return Err(ZeroTotal(index));
      }
      var veryRatio := block.value.veryCount as real / total as real;
      var satisfiedRatio := block.value.satisfiedCount as real / total as real;
      var score := veryRatio + satisfiedRatio;
      var tier := Classify(score, veryRatio, satisfiedRatio);
      var line := QuestionResult(block.value.text, veryRatio, satisfiedRatio, score, tier);
      assert ScoreBlock(sheet, index) == Ok(line);
      TabulateStep(scorer, namer, blocks, i, Table(order, rows), line);
      if questionId !in rows {
        order := order + [questionId];
      }
      rows := rows[questionId := line];
    }
    assert blocks[..|blocks|] == blocks;
    r := Ok(Table(order, rows));
  }
}
