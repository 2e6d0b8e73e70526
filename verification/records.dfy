/**
 The plain records of the data processor: one example as read from a split,
 the sentinel that pads a batch, and the numeric features built from either.
 */
module Records {
  import opened Wrappers

  /** `InputExample`: `guid` identifies the example, `textA` is the
      untokenized first segment, `textB` the optional second segment and
      `classLabel` (Python's `label`, a Dafny keyword) the optional class label. */
  datatype InputExample = InputExample(
    guid: string,
    textA: string,
    textB: Option<string>,
    classLabel: Option<string>)

  /** An item of a batch handed to feature conversion: a real example or
      `PaddingInputExample`, the marker that fills a batch up to its fixed
      size and is deliberately distinct from "no example". */
  datatype BatchItem = Real(example: InputExample) | PaddingInputExample

  /** `InputFeatures`: token ids, attention mask, segment ids, the label
      index, an optional per-token label mask and whether the features
      stand for a real example. */
  datatype InputFeatures = InputFeatures(
    inputIds: seq<int>,
    inputMask: seq<int>,
    segmentIds: seq<int>,
    labelId: int,
    labelMask: Option<seq<int>>,
    isRealExample: bool)

  /** An `InputExample` built with only `guid` and `text_a` given: the
      optional segment and label are absent. */
  function NewInputExample(guid: string, textA: string): (e: InputExample)
    ensures e.guid == guid && e.textA == textA
    ensures e.textB.None? && e.classLabel.None?
  {
    InputExample(guid, textA, None, None)
  }

  /** `InputFeatures` built without the optional arguments: no label mask,
      and the features count as a real example. */
  function NewInputFeatures(inputIds: seq<int>, inputMask: seq<int>, segmentIds: seq<int>, labelId: int): (f: InputFeatures)
    ensures f.inputIds == inputIds && f.inputMask == inputMask && f.segmentIds == segmentIds
    ensures f.labelId == labelId
    ensures f.labelMask.None?
    ensures f.isRealExample
  {
    InputFeatures(inputIds, inputMask, segmentIds, labelId, None, true)
  }
}
