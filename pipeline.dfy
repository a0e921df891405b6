/**
 * How the two scripts fit together: the record store written by the
 * conversion step is what the evaluation step reads back, and the shapes it
 * then builds follow from the reference files alone.
 */
module Pipeline {
  import opened Wrappers
  import opened Text
  import opened Transpose
  import opened PrepareData
  import opened Evaluator

  /** What the loader sees of a record written by the converter: an object with all three keys. */
  function Encode(r: Record): (line: Parsed)
    ensures Complete(line)
  {
    Obj(Some(r.src), Some(r.hyp), Some(r.ref))
  }

  /** The record store, line by line. */
  function Store(records: seq<Record>): (lines: seq<Parsed>)
    ensures |lines| == |records|
    ensures forall k | 0 <= k < |lines| :: Complete(lines[k])
  {
    seq(|records|, k requires 0 <= k < |records| => Encode(records[k]))
  }

  /** The record fields, column by column. */
  function SrcField(records: seq<Record>): (col: seq<string>)
    ensures |col| == |records| && forall k | 0 <= k < |records| :: col[k] == records[k].src
  {
    seq(|records|, k requires 0 <= k < |records| => records[k].src)
  }

  function HypField(records: seq<Record>): (col: seq<string>)
    ensures |col| == |records| && forall k | 0 <= k < |records| :: col[k] == records[k].hyp
  {
    seq(|records|, k requires 0 <= k < |records| => records[k].hyp)
  }

  function RefField(records: seq<Record>): (col: seq<seq<string>>)
    ensures |col| == |records| && forall k | 0 <= k < |records| :: col[k] == records[k].ref
  {
    seq(|records|, k requires 0 <= k < |records| => records[k].ref)
  }

  /**
   * The `data` argument `main` builds from the loaded lists. A loader that
   * crashed ends the run before `save_results` is reached, so only lists are
   * handed on.
   */
  function DataOf(loaded: Loaded): Columns
    requires loaded.Lists?
  {
    Columns(loaded.sources, loaded.hypotheses, loaded.references)
  }

  /**
   * Loading a store of records gives one entry per record, in order, with the
   * record's fields: the `id` field is not read back.
   */
  lemma StoreRoundTrip(records: seq<Record>)
    ensures Load(Store(records)) == Lists(SrcField(records), HypField(records), RefField(records))
  {
    var lines := Store(records);
    LoadComplete(lines);
    SameEntries(SrcColumn(lines), SrcField(records));
    SameEntries(HypColumn(lines), HypField(records));
    SameEntries(RefColumn(lines), RefField(records));
  }

  /**
   * The store written by a conversion whose counts agree (any records carrying
   * the fields `CreateJsonl` gives them, whatever their ids) loads back as the
   * stripped source lines, the stripped hypothesis lines and the line-major
   * reference sets: the three lists are aligned and nothing is lost.
   */
  lemma ConvertedStoreLoadsBack(srcLines: seq<string>, hypLines: seq<string>, refFiles: seq<seq<string>>, records: seq<Record>)
    requires Aligned(srcLines, hypLines, refFiles)
    requires |records| == |srcLines|
    requires forall k | 0 <= k < |records| ::
      records[k].src == Strip(srcLines[k]) && records[k].hyp == Strip(hypLines[k]) && records[k].ref == References(refFiles)[k]
    ensures Load(Store(records)) == Lists(StripLines(srcLines), StripLines(hypLines), References(refFiles))
  {
    StoreRoundTrip(records);
    FieldsAre(records, StripLines(srcLines), StripLines(hypLines), References(refFiles));
  }

  lemma FieldsAre(records: seq<Record>, sources: seq<string>, hypotheses: seq<string>, references: seq<seq<string>>)
    requires |records| == |sources| == |hypotheses| == |references|
    requires forall k | 0 <= k < |records| ::
      records[k].src == sources[k] && records[k].hyp == hypotheses[k] && records[k].ref == references[k]
    ensures SrcField(records) == sources && HypField(records) == hypotheses && RefField(records) == references
  {
    SameEntries(SrcField(records), sources);
    SameEntries(HypField(records), hypotheses);
    SameEntries(RefField(records), references);
  }

  /**
   * For a converted store, the lexical scorer's matrix is the stripped
   * reference files themselves, each cut to as many lines as there are
   * records.
   */
  lemma ConvertedBleuMatrix(refFiles: seq<seq<string>>)
    requires |refFiles| > 0 && References(refFiles) != []
    ensures |BleuReferences(References(refFiles))| == |refFiles|
    ensures forall j | 0 <= j < |refFiles| ::
      BleuReferences(References(refFiles))[j] == StripFiles(refFiles)[j][..|References(refFiles)|]
  {
    var files := StripFiles(refFiles);
    assert References(refFiles) == Zip(files);
    NoPaddingWhenRectangular(Zip(files), |files|);
    ZipTruncates(files);
  }

  /**
   * A store with a partially keyed line leaves fewer reference sets than
   * sources, so with segment scores present the detail table cannot be built
   * from the loaded lists.
   */
  lemma PartialLineBreaksDetails<S>(lines: seq<Parsed>, segmentScores: seq<S>, k: nat)
    requires Load(lines).Lists? && k < |lines| && PartiallyKeyed(lines[k]) && |segmentScores| > 0
    ensures DetailTable(segmentScores, Some(DataOf(Load(lines)))).LengthMismatch?
  {
    AlignedIffNoPartialLine(lines);
  }

  /**
   * From a store of records and one score per record, the detail table has
   * one row per record, carrying that record's fields.
   */
  lemma StoreDetails<S>(records: seq<Record>, segmentScores: seq<S>)
    requires |segmentScores| == |records| > 0
    ensures Load(Store(records)).Lists?
    ensures DetailTable(segmentScores, Some(DataOf(Load(Store(records))))).Rows?
    ensures var d := DetailTable(segmentScores, Some(DataOf(Load(Store(records)))));
      d.Rows? && |d.rows| == |records| &&
      forall i | 0 <= i < |records| ::
        d.rows[i] == DetailRow(DetailId(i), records[i].src, records[i].hyp, Join(records[i].ref), segmentScores[i])
  {
    StoreRoundTrip(records);
  }

  /** The detail report numbers segment `i` with the same three or more digits as the record store. */
  lemma DetailIdMatchesSegmentId(i: nat)
    ensures DetailId(i)[..3] == "seg" && SegmentId(i)[..8] == "segment_"
    ensures DetailId(i)[3..] == SegmentId(i)[8..] == ZeroPad3(i + 1)
  {
    assert DetailId(i)[3..] == ZeroPad3(i + 1);
    assert SegmentId(i)[8..] == ZeroPad3(i + 1);
  }
}
