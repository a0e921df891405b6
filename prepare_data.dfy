/**
 * The conversion step (`create_jsonl` in BleuCometScript/prepare_data.py):
 * the lines of a source file, a hypothesis file and one or more reference
 * files become one record per position, `{"id", "src", "hyp", "ref"}`.
 * Reading the files and encoding the records as JSON text are not modelled:
 * a file is the sequence of its lines as Python iterates them, and the
 * record store is the sequence of records written.
 */
module PrepareData {
  import opened Text
  import opened Transpose

  /** One line of the record store. */
  datatype Record = Record(id: string, src: string, hyp: string, ref: seq<string>)

  /**
   * What a conversion leaves behind: the records written, in order (after the
   * output directory has been created and the output file truncated), or the
   * line-count error, reported before anything is created or written.
   */
  datatype Outcome = Ok(records: seq<Record>) | Mismatch

  /**
   * `f"segment_{i+1:03d}"`: `segment_` and then three or more digits denoting
   * `i + 1`, padded with zeros only up to width three.
   */
  function SegmentId(i: nat): (id: string)
    ensures |id| >= 11 && id[..8] == "segment_"
    ensures AllDigits(id[8..]) && ValueOf(id[8..]) == i + 1
    ensures |id| > 11 ==> id[8] != '0'
  {
    Label("segment_", i)
  }

  /** The stripped lines of every reference file, in argument order. */
  function StripFiles(refFiles: seq<seq<string>>): (files: seq<seq<string>>)
    ensures |files| == |refFiles|
    ensures forall j | 0 <= j < |files| :: files[j] == StripLines(refFiles[j])
  {
    seq(|refFiles|, j requires 0 <= j < |refFiles| => StripLines(refFiles[j]))
  }

  /**
   * `list(zip(*references_list))`: one reference set per line position, as
   * many as the shortest reference file has lines, each listing that line of
   * every reference file in argument order.
   */
  function References(refFiles: seq<seq<string>>): (refs: seq<seq<string>>)
    ensures |refFiles| == 0 ==> refs == []
    ensures |refFiles| > 0 ==> |refs| == MinLen(refFiles)
    ensures forall k | 0 <= k < |refs| :: |refs[k]| == |refFiles|
    ensures forall k, j | 0 <= k < |refs| && 0 <= j < |refFiles| :: refs[k][j] == Strip(refFiles[j][k])
  {
    var files := StripFiles(refFiles);
    if |refFiles| == 0 then Zip(files)
    else
      MinLenOfLengths(files, refFiles);
      Zip(files)
  }

  /**
   * The check on line 32: the three counts agree. As the count of reference
   * sets is the length of the truncated transpose, it passes exactly when the
   * source and hypothesis counts equal the length of the shortest reference
   * file (or are zero, when there are no reference files).
   */
  predicate Aligned(srcLines: seq<string>, hypLines: seq<string>, refFiles: seq<seq<string>>)
    ensures Aligned(srcLines, hypLines, refFiles) <==>
      |srcLines| == |hypLines| && (if refFiles == [] then |srcLines| == 0 else |srcLines| == MinLen(refFiles))
  {
    |srcLines| == |hypLines| == |References(refFiles)|
  }

  /**
   * `create_jsonl`: strips every line, transposes the reference files, stops
   * with `Mismatch` unless the counts agree, and otherwise emits record `k`
   * for position `k`, in order.
   */
  method CreateJsonl(srcLines: seq<string>, hypLines: seq<string>, refFiles: seq<seq<string>>)
    returns (result: Outcome)
    ensures result.Mismatch? <==> !Aligned(srcLines, hypLines, refFiles)
    ensures result.Ok? ==> |result.records| == |srcLines|
    ensures result.Ok? ==> forall k | 0 <= k < |result.records| ::
      result.records[k] == Record(SegmentId(k), Strip(srcLines[k]), Strip(hypLines[k]), References(refFiles)[k])
    ensures result.Ok? ==> forall k | 0 <= k < |result.records| :: |result.records[k].ref| == |refFiles|
  {
    var sources := StripLines(srcLines);
    var hypotheses := StripLines(hypLines);
    var referencesList: seq<seq<string>> := [];
    for j := 0 to |refFiles|
      invariant |referencesList| == j
      invariant forall j' | 0 <= j' < j :: referencesList[j'] == StripLines(refFiles[j'])
    {
      referencesList := referencesList + [StripLines(refFiles[j])];
    }
    assert referencesList == StripFiles(refFiles);
    var references := Zip(referencesList);
    if !(|sources| == |hypotheses| == |references|) {
      return Mismatch;
    }
    assert references == References(refFiles);
    var records := WriteRecords(sources, hypotheses, references);
    return Ok(records);
  }

  /**
   * The writing loop (lines 39-47): record `k` pairs the `k`-th source line,
   * hypothesis line and reference set under the id of position `k`.
   */
  method WriteRecords(sources: seq<string>, hypotheses: seq<string>, references: seq<seq<string>>)
    returns (records: seq<Record>)
    requires |sources| == |hypotheses| == |references|
    ensures |records| == |sources|
    ensures forall k | 0 <= k < |records| :: records[k] == Record(SegmentId(k), sources[k], hypotheses[k], references[k])
  {
    records := [];
    for i := 0 to |sources|
      invariant |records| == i
      invariant forall k | 0 <= k < i :: records[k] == Record(SegmentId(k), sources[k], hypotheses[k], references[k])
    {
      var data := Record(SegmentId(i), sources[i], hypotheses[i], references[i]);
      ghost var before := records;
      records := records + [data];
      forall k | 0 <= k <= i
        ensures records[k] == Record(SegmentId(k), sources[k], hypotheses[k], references[k])
      {
        if k < i {
          assert records[k] == before[k];
        }
      }
    }
  }

  /**
   * A reference file longer than the others is accepted without complaint
   * when the shortest one, wherever it stands in the argument list, matches
   * the source: its first lines land in the
   * reference sets and its extra lines, from position `|srcLines|` on, in none.
   */
  lemma LongerReferenceFileAccepted(srcLines: seq<string>, hypLines: seq<string>, refFiles: seq<seq<string>>, j: nat)
    requires |refFiles| > 0 && |srcLines| == |hypLines| == MinLen(refFiles)
    requires j < |refFiles| && |srcLines| < |refFiles[j]|
    ensures Aligned(srcLines, hypLines, refFiles)
    ensures |References(refFiles)| == |srcLines| < |refFiles[j]|
    ensures forall k | 0 <= k < |srcLines| :: References(refFiles)[k][j] == Strip(refFiles[j][k])
  {
  }

  /** When the counts agree, every reference file has at least as many lines as the source. */
  lemma AlignedReferenceFilesLongEnough(srcLines: seq<string>, hypLines: seq<string>, refFiles: seq<seq<string>>)
    requires Aligned(srcLines, hypLines, refFiles)
    ensures forall j | 0 <= j < |refFiles| :: |srcLines| <= |refFiles[j]|
    ensures refFiles == [] ==> srcLines == [] && hypLines == []
  {
  }

  /** Distinct positions get distinct ids. */
  lemma SegmentIdsDistinct(i: nat, j: nat)
    requires i != j
    ensures SegmentId(i) != SegmentId(j)
  {
    if SegmentId(i) == SegmentId(j) {
      LabelInjective("segment_", i, j);
    }
  }

  /** The first ids are `segment_001`, `segment_002`, and so on. */
  lemma FirstSegmentIds()
    ensures SegmentId(0) == "segment_001"
    ensures SegmentId(9) == "segment_010"
    ensures SegmentId(122) == "segment_123"
  {
    ZeroPad3Examples();
  }
}
