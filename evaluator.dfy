/**
 * The evaluation step (bleu_comet_evaluator.py): loading the record store
 * back into three parallel lists, reshaping the reference sets for the two
 * scorers, and building the per-segment rows of the detail report. The
 * scorers themselves, file access and report rendering are not modelled.
 */
module Evaluator {
  import opened Wrappers
  import opened Text
  import opened Transpose

  // ---------------------------------------------------------------------------
  // load_data
  // ---------------------------------------------------------------------------

  /** What `json.loads` makes of one line of the record store, as far as `load_data` looks at it. */
  datatype Parsed =
    | Invalid     // json.JSONDecodeError: skipped
    | NonObject   // valid JSON that is not an object: `data['src']` raises TypeError, which nothing catches
    | Obj(src: Option<string>, hyp: Option<string>, ref: Option<seq<string>>)

  /** The three lists `load_data` returns, or the TypeError that escapes it. */
  datatype Loaded =
    | Lists(sources: seq<string>, hypotheses: seq<string>, references: seq<seq<string>>)
    | Crashed

  /**
   * One pass of the loop body (lines 23-33). The appends run one after the
   * other, so a missing key stops the line only after the earlier fields were
   * appended: each list keeps what it held and gains the line's value for
   * its key exactly when the line has every key up to and including its own.
   */
  function Step(acc: Loaded, line: Parsed): (next: Loaded)
    ensures next.Crashed? <==> acc.Crashed? || line.NonObject?
    ensures next.Lists? ==>
      && |next.sources| == |acc.sources| + (if HasSrc(line) then 1 else 0)
      && |next.hypotheses| == |acc.hypotheses| + (if HasSrcHyp(line) then 1 else 0)
      && |next.references| == |acc.references| + (if Complete(line) then 1 else 0)
      && next.sources == acc.sources + (if HasSrc(line) then [line.src.value] else [])
      && next.hypotheses == acc.hypotheses + (if HasSrcHyp(line) then [line.hyp.value] else [])
      && next.references == acc.references + (if Complete(line) then [line.ref.value] else [])
  {
    match acc
    case Crashed => Crashed
    case Lists(s, h, r) =>
      match line
      case Invalid => acc
      case NonObject => Crashed
      case Obj(src, hyp, ref) =>
        if src.None? then acc
        else if hyp.None? then Lists(s + [src.value], h, r)
        else if ref.None? then Lists(s + [src.value], h + [hyp.value], r)
        else Lists(s + [src.value], h + [hyp.value], r + [ref.value])
  }

  /** The lists after the loop has run over `lines`, in file order. */
  function Load(lines: seq<Parsed>): (result: Loaded)
    ensures result.Lists? ==> |result.references| <= |result.hypotheses| <= |result.sources| <= |lines|
  {
    if lines == [] then Lists([], [], [])
    else Step(Load(lines[..|lines| - 1]), lines[|lines| - 1])
  }

  /** Once the loader has crashed, later lines change nothing. */
  lemma {:induction false} CrashIsFinal(lines: seq<Parsed>, n: nat)
    requires n <= |lines| && Load(lines[..n]).Crashed?
    ensures Load(lines).Crashed?
    decreases |lines| - n
  {
    if n < |lines| {
      assert lines[..n + 1][..n] == lines[..n];
      CrashIsFinal(lines, n + 1);
    } else {
      assert lines[..n] == lines;
    }
  }

  /** `load_data`, over the parse result of every line of the file. */
  method LoadData(lines: seq<Parsed>) returns (result: Loaded)
    ensures result == Load(lines)
  {
    var sources: seq<string> := [];
    var hypotheses: seq<string> := [];
    var references: seq<seq<string>> := [];
    for n := 0 to |lines|
      invariant Load(lines[..n]) == Lists(sources, hypotheses, references)
    {
      assert lines[..n + 1][..n] == lines[..n];
      match lines[n]
      case Invalid =>
        continue;
      case NonObject =>
        CrashIsFinal(lines, n + 1);
        return Crashed;
      case Obj(src, hyp, ref) =>
        if src.None? {
          continue;
        }
        sources := sources + [src.value];
        if hyp.None? {
          continue;
        }
        hypotheses := hypotheses + [hyp.value];
        if ref.None? {
          continue;
        }
        references := references + [ref.value];
    }
    assert lines[..|lines|] == lines;
    return Lists(sources, hypotheses, references);
  }

  predicate HasSrc(line: Parsed)
  {
    line.Obj? && line.src.Some?
  }

  predicate HasSrcHyp(line: Parsed)
  {
    HasSrc(line) && line.hyp.Some?
  }

  /** A line with all three keys. */
  predicate Complete(line: Parsed)
  {
    HasSrcHyp(line) && line.ref.Some?
  }

  /** A line that has `src` but lacks `hyp` or `ref`. */
  predicate PartiallyKeyed(line: Parsed)
  {
    HasSrc(line) && !Complete(line)
  }

  /** The number of lines satisfying `p`. */
  function Count(lines: seq<Parsed>, p: Parsed -> bool): (c: nat)
    ensures c <= |lines|
  {
    if lines == [] then 0
    else Count(lines[..|lines| - 1], p) + (if p(lines[|lines| - 1]) then 1 else 0)
  }

  lemma {:induction false} CountZero(lines: seq<Parsed>, p: Parsed -> bool)
    ensures Count(lines, p) == 0 <==> forall k | 0 <= k < |lines| :: !p(lines[k])
  {
    if lines != [] {
      var init := lines[..|lines| - 1];
      CountZero(init, p);
      assert forall k | 0 <= k < |init| :: init[k] == lines[k];
    }
  }

  /** The loader crashes exactly when some line is valid JSON but not an object. */
  lemma {:induction false} LoadCrashes(lines: seq<Parsed>)
    ensures Load(lines).Crashed? <==> exists k :: 0 <= k < |lines| && lines[k].NonObject?
  {
    if lines != [] {
      var init := lines[..|lines| - 1];
      LoadCrashes(init);
      assert forall k | 0 <= k < |init| :: init[k] == lines[k];
    }
  }

  /**
   * What each list ends up holding: one source per line with `src` (complete
   * or not), one hypothesis per line with `src` and `hyp`, one reference set
   * per complete line.
   */
  lemma {:induction false} LoadCounts(lines: seq<Parsed>)
    requires Load(lines).Lists?
    ensures |Load(lines).sources| == Count(lines, Complete) + Count(lines, PartiallyKeyed)
    ensures |Load(lines).hypotheses| == Count(lines, HasSrcHyp)
    ensures |Load(lines).references| == Count(lines, Complete)
  {
    if lines != [] {
      LoadCounts(lines[..|lines| - 1]);
    }
  }

  /**
   * The three lists have equal length exactly when no line is partially
   * keyed: a line with `src` but without `hyp` or `ref` leaves more sources
   * than reference sets.
   */
  lemma AlignedIffNoPartialLine(lines: seq<Parsed>)
    requires Load(lines).Lists?
    ensures |Load(lines).sources| == |Load(lines).references| <==>
      forall k | 0 <= k < |lines| :: !PartiallyKeyed(lines[k])
    ensures |Load(lines).sources| == |Load(lines).references| ==>
      |Load(lines).hypotheses| == |Load(lines).references|
  {
    LoadCounts(lines);
    CountZero(lines, PartiallyKeyed);
  }

  /** The complete lines, in order. */
  function Kept(lines: seq<Parsed>): (kept: seq<Parsed>)
    ensures |kept| <= |lines|
    ensures forall k | 0 <= k < |kept| :: Complete(kept[k])
  {
    if lines == [] then []
    else
      var last := lines[|lines| - 1];
      Kept(lines[..|lines| - 1]) + (if Complete(last) then [last] else [])
  }

  function SrcColumn(lines: seq<Parsed>): seq<string>
    requires forall k | 0 <= k < |lines| :: Complete(lines[k])
  {
    seq(|lines|, k requires 0 <= k < |lines| && Complete(lines[k]) => lines[k].src.value)
  }

  function HypColumn(lines: seq<Parsed>): seq<string>
    requires forall k | 0 <= k < |lines| :: Complete(lines[k])
  {
    seq(|lines|, k requires 0 <= k < |lines| && Complete(lines[k]) => lines[k].hyp.value)
  }

  function RefColumn(lines: seq<Parsed>): seq<seq<string>>
    requires forall k | 0 <= k < |lines| :: Complete(lines[k])
  {
    seq(|lines|, k requires 0 <= k < |lines| && Complete(lines[k]) => lines[k].ref.value)
  }

  /**
   * When every line is either unparseable or complete, the unparseable ones
   * are skipped and the complete ones give the three lists, in file order.
   */
  lemma {:induction false} LoadSkipsInvalid(lines: seq<Parsed>)
    requires forall k | 0 <= k < |lines| :: lines[k].Invalid? || Complete(lines[k])
    ensures Load(lines) == Lists(SrcColumn(Kept(lines)), HypColumn(Kept(lines)), RefColumn(Kept(lines)))
  {
    if lines != [] {
      var init := lines[..|lines| - 1];
      var last := lines[|lines| - 1];
      assert forall k | 0 <= k < |init| :: init[k] == lines[k];
      LoadSkipsInvalid(init);
      var before := Kept(init);
      if Complete(last) {
        var after := before + [last];
        assert Kept(lines) == after;
        assert SrcColumn(after) == SrcColumn(before) + [last.src.value];
        assert HypColumn(after) == HypColumn(before) + [last.hyp.value];
        assert RefColumn(after) == RefColumn(before) + [last.ref.value];
      } else {
        assert Kept(lines) == before;
      }
    }
  }

  /** A file of complete lines loads into one entry per line, in order. */
  lemma {:induction false} LoadComplete(lines: seq<Parsed>)
    requires forall k | 0 <= k < |lines| :: Complete(lines[k])
    ensures Load(lines) == Lists(SrcColumn(lines), HypColumn(lines), RefColumn(lines))
  {
    LoadSkipsInvalid(lines);
    KeptAll(lines);
  }

  lemma {:induction false} KeptAll(lines: seq<Parsed>)
    requires forall k | 0 <= k < |lines| :: Complete(lines[k])
    ensures Kept(lines) == lines
  {
    if lines != [] {
      var init := lines[..|lines| - 1];
      assert forall k | 0 <= k < |init| :: init[k] == lines[k];
      KeptAll(init);
      assert init + [lines[|lines| - 1]] == lines;
    }
  }

  /** The `src` values of the lines that have one, in file order. */
  function SrcValues(lines: seq<Parsed>): (values: seq<string>)
    ensures |values| == Count(lines, HasSrc)
  {
    if lines == [] then []
    else
      var last := lines[|lines| - 1];
      SrcValues(lines[..|lines| - 1]) + (if HasSrc(last) then [last.src.value] else [])
  }

  /** The `hyp` values of the lines that have `src` and `hyp`, in file order. */
  function HypValues(lines: seq<Parsed>): (values: seq<string>)
    ensures |values| == Count(lines, HasSrcHyp)
  {
    if lines == [] then []
    else
      var last := lines[|lines| - 1];
      HypValues(lines[..|lines| - 1]) + (if HasSrcHyp(last) then [last.hyp.value] else [])
  }

  /** The `ref` values of the complete lines, in file order. */
  function RefValues(lines: seq<Parsed>): (values: seq<seq<string>>)
    ensures |values| == Count(lines, Complete)
  {
    if lines == [] then []
    else
      var last := lines[|lines| - 1];
      RefValues(lines[..|lines| - 1]) + (if Complete(last) then [last.ref.value] else [])
  }

  /**
   * For any file the loader gets through, partially keyed lines included:
   * the sources are the `src` values of the lines that have one, the
   * hypotheses the `hyp` values of the lines with `src` and `hyp`, and the
   * reference sets the `ref` values of the complete lines, all in file order.
   */
  lemma {:induction false} LoadValues(lines: seq<Parsed>)
    requires Load(lines).Lists?
    ensures Load(lines) == Lists(SrcValues(lines), HypValues(lines), RefValues(lines))
  {
    if lines != [] {
      LoadValues(lines[..|lines| - 1]);
    }
  }

  // ---------------------------------------------------------------------------
  // calculate_bleu: reference sets, ref-major and padded
  // ---------------------------------------------------------------------------

  /**
   * `ref_group[i] if i < len(ref_group) else ""`: the `i`-th reference where
   * there is one, padding past the end, and never a string from elsewhere.
   */
  function Slot(group: seq<string>, i: nat): (s: string)
    ensures i < |group| ==> s == group[i]
    ensures |group| <= i ==> s == ""
    ensures s == "" || s in group
  {
    if i < |group| then group[i] else ""
  }

  /** Slot `i` of every reference set, in order. */
  function SlotRow(references: seq<seq<string>>, i: nat): (row: seq<string>)
    ensures |row| == |references|
    ensures forall j | 0 <= j < |references| :: row[j] == Slot(references[j], i)
  {
    seq(|references|, j requires 0 <= j < |references| => Slot(references[j], i))
  }

  lemma SlotRowUnique(references: seq<seq<string>>, row: seq<string>, i: nat)
    requires |row| == |references|
    requires forall j | 0 <= j < |references| :: row[j] == Slot(references[j], i)
    ensures row == SlotRow(references, i)
  {
    SameEntries(row, SlotRow(references, i));
  }

  /**
   * The matrix handed to the lexical scorer, row by row: row `i` holds slot
   * `i` of every reference set, for as many rows as the largest set has
   * references.
   */
  function BleuReferences(references: seq<seq<string>>): (matrix: seq<seq<string>>)
    requires |references| > 0
    ensures |matrix| == MaxLen(references)
  {
    seq(MaxLen(references), i requires 0 <= i < MaxLen(references) => SlotRow(references, i))
  }

  /**
   * Lines 53-57 of `calculate_bleu`: ragged `[lines][refs]` becomes rectangular
   * `[maxRefs][lines]`, with `""` in the slots a line has no reference for.
   * With no reference sets at all, `max()` raises and there is no result.
   */
  method PadTranspose(references: seq<seq<string>>) returns (result: Option<seq<seq<string>>>)
    ensures result.None? <==> references == []
    ensures result.Some? ==> |result.value| == MaxLen(references)
    ensures result.Some? ==> forall i | 0 <= i < |result.value| :: |result.value[i]| == |references|
    ensures result.Some? ==> forall i, j | 0 <= i < |result.value| && 0 <= j < |references| ::
      result.value[i][j] == Slot(references[j], i)
    ensures result.Some? ==> result.value == BleuReferences(references)
  {
    if references == [] {
      return None;
    }
    var maxRefs := MaxLen(references);
    var refsTransposed: seq<seq<string>> := seq(maxRefs, _ => []);
    for j := 0 to |references|
      invariant |refsTransposed| == maxRefs
      invariant forall i | 0 <= i < maxRefs :: |refsTransposed[i]| == j
      invariant forall i, j' | 0 <= i < maxRefs && 0 <= j' < j :: refsTransposed[i][j'] == Slot(references[j'], i)
    {
      ghost var before := refsTransposed;
      refsTransposed := AppendSlots(refsTransposed, references[j]);
      assert forall i, j' | 0 <= i < maxRefs && 0 <= j' < j :: refsTransposed[i][j'] == before[i][j'];
    }
    PaddedRowsAreBleuReferences(references, refsTransposed);
    return Some(refsTransposed);
  }

  /**
   * The inner loop (lines 56-57): slot `i` of one reference set, or `""`
   * past its end, is appended to row `i`.
   */
  method AppendSlots(rows: seq<seq<string>>, refGroup: seq<string>) returns (rows': seq<seq<string>>)
    ensures |rows'| == |rows|
    ensures forall i | 0 <= i < |rows| :: rows'[i] == rows[i] + [Slot(refGroup, i)]
  {
    rows' := rows;
    for i := 0 to |rows|
      invariant |rows'| == |rows|
      invariant forall i' | 0 <= i' < i :: rows'[i'] == rows[i'] + [Slot(refGroup, i')]
      invariant forall i' | i <= i' < |rows| :: rows'[i'] == rows[i']
    {
      rows' := rows'[i := rows'[i] + [if i < |refGroup| then refGroup[i] else ""]];
    }
  }

  /** Rows satisfying the index equations are the independent definition's rows. */
  lemma PaddedRowsAreBleuReferences(references: seq<seq<string>>, rows: seq<seq<string>>)
    requires |references| > 0 && |rows| == MaxLen(references)
    requires forall i | 0 <= i < |rows| :: |rows[i]| == |references|
    requires forall i, j | 0 <= i < |rows| && 0 <= j < |references| :: rows[i][j] == Slot(references[j], i)
    ensures rows == BleuReferences(references)
  {
    var expected := BleuReferences(references);
    forall i | 0 <= i < |rows|
      ensures rows[i] == expected[i]
    {
      SlotRowUnique(references, rows[i], i);
    }
    SameEntries(rows, expected);
  }

  /** Sequences with the same length and the same entries are equal. */
  lemma SameEntries<T>(a: seq<T>, b: seq<T>)
    requires |a| == |b| && forall k | 0 <= k < |a| :: a[k] == b[k]
    ensures a == b
  {
  }

  /**
   * When every line has the same number of references, nothing is padded:
   * the lexical scorer receives the plain transpose.
   */
  lemma {:induction false} NoPaddingWhenRectangular(references: seq<seq<string>>, n: nat)
    requires |references| > 0 && Rectangular(references, n)
    ensures MaxLen(references) == n
    ensures BleuReferences(references) == Zip(references)
  {
    MaxLenRectangular(references, n);
    var matrix := BleuReferences(references);
    var zipped := Zip(references);
    var j :| 0 <= j < |references| && |references[j]| == MinLen(references);
    forall i | 0 <= i < n
      ensures zipped[i] == matrix[i]
    {
      SlotRowUnique(references, zipped[i], i);
    }
    SameEntries(zipped, matrix);
  }

  /** A ragged pair of reference sets is padded in the last slot. */
  lemma PaddingExample(references: seq<seq<string>>)
    requires references == [["a", "b"], ["c"]]
    ensures BleuReferences(references) == [["a", "c"], ["b", ""]]
  {
    assert MaxLen(references) == 2;
    var m := BleuReferences(references);
    assert m[0] == SlotRow(references, 0) == ["a", "c"];
    assert m[1] == SlotRow(references, 1) == ["b", ""];
  }

  // ---------------------------------------------------------------------------
  // calculate_comet: the input list
  // ---------------------------------------------------------------------------

  /** `{"src": src, "mt": hyp, "ref": ref_list}` */
  datatype CometInput = CometInput(src: string, mt: string, ref: seq<string>)

  function Min3(a: nat, b: nat, c: nat): nat
  {
    if a <= b && a <= c then a else if b <= c then b else c
  }

  /**
   * `zip(sources, hypotheses, references)` as items: as many as the shortest
   * list, item `k` taking the `k`-th entry of each list.
   */
  function Zip3(sources: seq<string>, hypotheses: seq<string>, references: seq<seq<string>>): (items: seq<CometInput>)
    ensures |items| == Min3(|sources|, |hypotheses|, |references|)
    ensures forall k | 0 <= k < |items| :: items[k] == CometInput(sources[k], hypotheses[k], references[k])
  {
    if sources == [] || hypotheses == [] || references == [] then []
    else [CometInput(sources[0], hypotheses[0], references[0])] + Zip3(sources[1..], hypotheses[1..], references[1..])
  }

  /** Lines 89-92 of `calculate_comet`. */
  method CometInputs(sources: seq<string>, hypotheses: seq<string>, references: seq<seq<string>>)
    returns (data: seq<CometInput>)
    ensures data == Zip3(sources, hypotheses, references)
  {
    data := [];
    var n := Min3(|sources|, |hypotheses|, |references|);
    for k := 0 to n
      invariant |data| == k
      invariant forall k' | 0 <= k' < k :: data[k'] == CometInput(sources[k'], hypotheses[k'], references[k'])
    {
      data := data + [CometInput(sources[k], hypotheses[k], references[k])];
    }
  }

  // ---------------------------------------------------------------------------
  // save_results: the per-segment detail rows
  // ---------------------------------------------------------------------------

  /** The `data` argument: `{'src': ..., 'hyp': ..., 'ref': ...}`. */
  datatype Columns = Columns(src: seq<string>, hyp: seq<string>, ref: seq<seq<string>>)

  /** One row of the detail table; the score stays an opaque value. */
  datatype DetailRow<S> = DetailRow(id: string, source: string, hypothesis: string, reference: string, score: S)

  /**
   * The detail table: absent when there are no segment scores or no data,
   * refused (pandas raises on columns of different lengths) when the columns
   * disagree in length, otherwise its rows.
   */
  datatype Details<S> = NoDetails | LengthMismatch | Rows(rows: seq<DetailRow<S>>)

  /**
   * `f"seg{i+1:03d}"`: `seg` and then three or more digits denoting `i + 1`,
   * padded with zeros only up to width three.
   */
  function DetailId(i: nat): (id: string)
    ensures |id| >= 6 && id[..3] == "seg"
    ensures AllDigits(id[3..]) && ValueOf(id[3..]) == i + 1
    ensures |id| > 6 ==> id[3] != '0'
  {
    Label("seg", i)
  }

  /**
   * Lines 140-147 of `save_results`: row `i` carries the id of position `i`,
   * the `i`-th source and hypothesis, the `i`-th reference set joined with
   * `"; "` and the `i`-th score.
   */
  function DetailTable<S>(segmentScores: seq<S>, data: Option<Columns>): (d: Details<S>)
    ensures d.NoDetails? <==> |segmentScores| == 0 || data.None?
    ensures d.LengthMismatch? <==> (|segmentScores| > 0 && data.Some? &&
      !(|data.value.hyp| == |data.value.ref| == |segmentScores| == |data.value.src|))
    ensures d.Rows? ==> data.Some? && |d.rows| == |segmentScores| == |data.value.src| == |data.value.hyp| == |data.value.ref|
    ensures d.Rows? ==> forall i | 0 <= i < |d.rows| ::
      d.rows[i] == DetailRow(DetailId(i), data.value.src[i], data.value.hyp[i], Join(data.value.ref[i]), segmentScores[i])
  {
    if |segmentScores| == 0 || data.None? then NoDetails
    else
      var c := data.value;
      var n := |c.src|;
      if !(|c.hyp| == n && |c.ref| == n && |segmentScores| == n) then LengthMismatch
      else Rows(seq(n, i requires 0 <= i < n => DetailRow(DetailId(i), c.src[i], c.hyp[i], Join(c.ref[i]), segmentScores[i])))
  }

  /** Distinct rows get distinct ids. */
  lemma DetailIdsDistinct(i: nat, j: nat)
    requires i != j
    ensures DetailId(i) != DetailId(j)
  {
    if DetailId(i) == DetailId(j) {
      LabelInjective("seg", i, j);
    }
  }

  /**
   * The reference column keeps every reference of a non-empty set whose
   * references contain no `';'`: splitting it on `"; "` gives the set back.
   */
  lemma {:induction false} DetailReferenceRecoverable<S>(segmentScores: seq<S>, data: Option<Columns>, i: nat)
    requires DetailTable(segmentScores, data).Rows? && i < |DetailTable(segmentScores, data).rows|
    requires |data.value.ref[i]| > 0
    requires forall k | 0 <= k < |data.value.ref[i]| :: NoSemicolon(data.value.ref[i][k])
    ensures Split(DetailTable(segmentScores, data).rows[i].reference) == data.value.ref[i]
  {
    SplitJoin(data.value.ref[i]);
  }
}
