/** Reading one closed-question block at fixed row offsets from its header and
    turning its counts into ratios and a tier (lines 35-69 of the script, for a
    single block). */
module Scores {
  import opened Sheets
  import opened Classifier

  // Row offsets within a question block, counted from its header row.
  const TextOffset: nat := 1        // column 0: the question text
  const VeryOffset: nat := 3        // column 1: "very satisfied" count
  const SatisfiedOffset: nat := 4   // column 1: "satisfied" count
  const OtherOffset: nat := 5       // column 1: first "other" count
  const LastOffset: nat := 6        // column 1: second "other" count

  /** The raw contents of a question block. */
  datatype Block = Block(id: string, text: Cell, veryCount: int, satisfiedCount: int, otherCount: int)

  /** The number of respondents of a block. */
  function Total(b: Block): int {
    b.veryCount + b.satisfiedCount + b.otherCount
  }

  /** One line of the synthesis table. */
  datatype QuestionResult = QuestionResult(text: Cell, veryRatio: real, satisfiedRatio: real, score: real, tier: Tier)

  /** `s.split(' ')[-1]`: the part of `s` after its last space, or all of `s`
      when it has none. */
  function LastToken(s: string): string {
    if s == [] || s[|s| - 1] == ' ' then []
    else LastToken(s[..|s| - 1]) + [s[|s| - 1]]
  }

  /** The token is a suffix of `s` free of spaces, and it is either all of `s`
      or preceded by a space: it is what follows the last space. */
  lemma {:induction false} LastTokenSpec(s: string)
    ensures var t := LastToken(s);
            && |t| <= |s| && t == s[|s| - |t|..]
            && ' ' !in t
            && (|t| < |s| ==> s[|s| - |t| - 1] == ' ')
  {
    if s != [] && s[|s| - 1] != ' ' {
      var p := s[..|s| - 1];
      LastTokenSpec(p);
      var t' := LastToken(p);
      assert LastToken(s) == t' + [s[|s| - 1]];
      assert s == p + [s[|s| - 1]];
    }
  }

  /** An id header from the export, "Résumé pour Q12", gives "Q12". */
  lemma LastTokenExample()
    ensures LastToken("Résumé pour Q12") == "Q12"
  {
    var s := "Résumé pour Q12";
    LastTokenSpec(s);
  }

  /** A row whose column 0 holds text; every row the locator returns is one. */
  predicate IsTextRow(sheet: Sheet, index: int) {
    0 <= index < |sheet| && sheet[index].caption.Text?
  }

  /** The question id of the block whose header is at `index`. */
  function QuestionId(sheet: Sheet, index: nat): string
    requires IsTextRow(sheet, index)
  {
    LastToken(sheet[index].caption.s)
  }

  /** Reads the block at `index`; fails when the block runs past the sheet or
      one of its four count cells is not a number. */
  function ReadBlock(sheet: Sheet, index: nat): (r: Result<Block>)
    requires IsTextRow(sheet, index)
    ensures r.Ok? <==> && index + LastOffset < |sheet|
                       && sheet[index + VeryOffset].count.Number?
                       && sheet[index + SatisfiedOffset].count.Number?
                       && sheet[index + OtherOffset].count.Number?
                       && sheet[index + LastOffset].count.Number?
    ensures r.Ok? ==> && r.value.id == QuestionId(sheet, index)
                      && r.value.text == sheet[index + TextOffset].caption
                      && r.value.veryCount == sheet[index + VeryOffset].count.n
                      && r.value.satisfiedCount == sheet[index + SatisfiedOffset].count.n
                      && r.value.otherCount == sheet[index + OtherOffset].count.n + sheet[index + LastOffset].count.n
    ensures r.Err? && |sheet| <= index + LastOffset ==> r.error == TruncatedBlock(index)
    ensures r.Err? && index + LastOffset < |sheet| ==>
              && r.error.NonNumericCount?
              && index + VeryOffset <= r.error.row <= index + LastOffset
              && !sheet[r.error.row].count.Number?
              && forall j :: index + VeryOffset <= j < r.error.row ==> sheet[j].count.Number?
  {
    if |sheet| <= index + LastOffset then Err(TruncatedBlock(index))
    else if !sheet[index + VeryOffset].count.Number? then Err(NonNumericCount(index + VeryOffset))
    else if !sheet[index + SatisfiedOffset].count.Number? then Err(NonNumericCount(index + SatisfiedOffset))
    else if !sheet[index + OtherOffset].count.Number? then Err(NonNumericCount(index + OtherOffset))
    else if !sheet[index + LastOffset].count.Number? then Err(NonNumericCount(index + LastOffset))
    else
      Ok(Block(QuestionId(sheet, index), sheet[index + TextOffset].caption,
               sheet[index + VeryOffset].count.n, sheet[index + SatisfiedOffset].count.n,
               sheet[index + OtherOffset].count.n + sheet[index + LastOffset].count.n))
  }

  /** The two ratios, their sum and the tier of a block; a block with no
      respondents has no ratios. */
  function Ratios(b: Block, index: nat): (r: Result<QuestionResult>)
    ensures r.Ok? <==> Total(b) != 0
    ensures r.Err? ==> r.error == ZeroTotal(index)
    ensures r.Ok? ==> && r.value.veryRatio * Total(b) as real == b.veryCount as real
                      && r.value.satisfiedRatio * Total(b) as real == b.satisfiedCount as real
                      && r.value.score == r.value.veryRatio + r.value.satisfiedRatio
                      && r.value.tier == Classify(r.value.score, r.value.veryRatio, r.value.satisfiedRatio)
                      && r.value.text == b.text
  {
    var total := Total(b);
    if total == 0 then Err(ZeroTotal(index))
    else
      var very := b.veryCount as real / total as real;
      var satisfied := b.satisfiedCount as real / total as real;
      var score := very + satisfied;
      Ok(QuestionResult(b.text, very, satisfied, score, Classify(score, very, satisfied)))
  }

  /** Everything the loop body computes for the block at `index`: a failure to
      read the block, or else the ratios of the very-satisfied (+3) and
      satisfied (+4) counts to the sum of the four count cells. */
  function ScoreBlock(sheet: Sheet, index: nat): (r: Result<QuestionResult>)
    requires IsTextRow(sheet, index)
    ensures ReadBlock(sheet, index).Err? ==> r == Err(ReadBlock(sheet, index).error)
    ensures ReadBlock(sheet, index).Ok? ==>
              var very, satisfied := sheet[index + VeryOffset].count.n, sheet[index + SatisfiedOffset].count.n;
              var total := very + satisfied + sheet[index + OtherOffset].count.n + sheet[index + LastOffset].count.n;
              && (r.Ok? <==> total != 0)
              && (r.Err? ==> r.error == ZeroTotal(index))
              && (r.Ok? ==> && r.value.text == sheet[index + TextOffset].caption
                            && r.value.veryRatio * total as real == very as real
                            && r.value.satisfiedRatio * total as real == satisfied as real)
  {
    var b :- ReadBlock(sheet, index);
    Ratios(b, index)
  }

  /** A share of a positive whole lies in [0, 1]. */
  lemma RatioInUnit(a: real, t: real)
    requires t > 0.0 && 0.0 <= a <= t
    ensures 0.0 <= a / t <= 1.0
  {
  }

  /** With counts that cannot be negative, both ratios and the score lie in
      [0, 1], and the score is the share of respondents who are satisfied or
      very satisfied. */
  lemma RatiosBounded(b: Block, index: nat)
    requires b.veryCount >= 0 && b.satisfiedCount >= 0 && b.otherCount >= 0
    requires Total(b) > 0
    ensures var q := Ratios(b, index).value;
            && 0.0 <= q.veryRatio <= 1.0
            && 0.0 <= q.satisfiedRatio <= 1.0
            && 0.0 <= q.score <= 1.0
            && q.score * Total(b) as real == (b.veryCount + b.satisfiedCount) as real
  {
    var q := Ratios(b, index).value;
    var t := Total(b) as real;
    assert q.veryRatio == b.veryCount as real / t;
    assert q.satisfiedRatio == b.satisfiedCount as real / t;
    RatioInUnit(b.veryCount as real, t);
    RatioInUnit(b.satisfiedCount as real, t);
    RatioInUnit((b.veryCount + b.satisfiedCount) as real, t);
    assert q.score == (b.veryCount + b.satisfiedCount) as real / t;
    assert q.score * t == q.veryRatio * t + q.satisfiedRatio * t;
  }

  /** Worked cases. 40/40/20 gives ratios 0.4 and 0.4 and a score of
      exactly 0.8; the tie counts for the very satisfied, so it is blue.
      50/30/20 is blue, 30/50/20 green, 35/35/30 (a score of exactly 0.7)
      yellow, 10/10/80 red, and a block with no respondents fails. */
  lemma WorkedCases(text: Cell, index: nat)
    ensures var q := Ratios(Block("Q1", text, 40, 40, 20), index).value;
            q.veryRatio == 0.4 && q.satisfiedRatio == 0.4 && q.score == 0.8 && q.tier == Blue
    ensures Ratios(Block("Q1", text, 50, 30, 20), index).value.tier == Blue
    ensures Ratios(Block("Q1", text, 30, 50, 20), index).value.tier == Green
    ensures Ratios(Block("Q1", text, 35, 35, 30), index).value.tier == Yellow
    ensures Ratios(Block("Q1", text, 10, 10, 80), index).value.tier == Red
    ensures Ratios(Block("Q1", text, 0, 0, 0), index) == Err(ZeroTotal(index))
  {
  }
}
