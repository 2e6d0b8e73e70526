# QcFineProcessor: the question-classification data processor

This project models the data processor of the fine-grained question
classification task in ganbert's `data_processors.py`. It covers:

- the record types `InputExample`, `PaddingInputExample` and `InputFeatures`;
- the fixed 51-entry label vocabulary returned by `get_labels`;
- the dispatch of the three splits to their files and set-type tags;
- the line parser `_create_examples`.

A data file holds one header line followed by records of the form
`<coarse>:<fine> <question>`. The parser drops the first line. It cuts every
other line at single spaces and rejoins all tokens after the first as the
question text. It builds the label as `coarse_fine` from the first token,
and the guid as `<set_type>-<line>`.

Layout:

- `wrappers.dfy`: module `Wrappers`, with `Option` (Python's `None` defaults)
  and `Result` (success, or the error the program raises).
- `text.dfy`: module `Text`. It holds Python's `str.split` with one explicit
  separator, `sep.join`, `str.splitlines` for `'\n'`, and their round trips.
  It also holds a strict lexicographic order on strings, used for the
  no-duplicates proof of the vocabulary.
- `records.dfy`: module `Records`, the record datatypes and their default
  constructors.
- `qc_fine.dfy`: module `QcFine`, which covers the following:
  - the vocabulary;
  - the parser, as `ParseLine` for one line, `ParseDataLines` for the loop,
    `CreateExamples` for the lines of a file and `ReadExamples` for a file;
  - `os.path.join`;
  - the three split getters.
- `parser_facts.dfy`: module `ParserFacts`. It holds consequences of the
  parser: the label and text round trips, worked examples, and the absence
  of any vocabulary check.

The file system is a parameter: a `map<string, string>` from path to file
contents, where a missing key is a file that does not exist.
`tokenization.convert_to_unicode` is the identity on strings.

Behaviour of the code that a reader might not expect:

- `split(" ")` does not collapse runs of spaces. `"a  b".split(" ")` is
  `["a", "", "b"]`, so a doubled space inside the question survives into
  `text_a`.
- Examples of the `test` split carry a label exactly like the others. Here
  the documentation and the code disagree, and the model follows the code.
  The `InputExample` docstring (data_processors.py:25-26) says test examples
  need no label, but `_create_examples` always sets one.
- No label is checked against `get_labels()`. A line `HUM_ind:desc ...`
  gives the label `HUM_ind_desc`, which is not in the vocabulary.
- A data line whose first token has no `':'` makes `inn_split[1]` raise
  `IndexError`. The whole call then fails and no partial list is returned.
  The model returns `Failure(MissingLabelSeparator(line))` for the first
  such line. An empty line is one of them, because `"".split(" ")` is `[""]`.

## Model

| member | source | states |
|---|---|---|
| Text.Split | data_processors.py:121 | Python's `s.split(sep)` for one explicit separator: at least one piece, and no piece holds the separator. `Text.JoinSplit` and `Text.SplitJoin` pin the pieces down. |
| Text.Join | data_processors.py:122 | `sep.join(parts)`: empty for no parts, and otherwise it starts with the first part, followed by `sep` when there is a second. `Text.JoinSplit` and `Text.SplitJoin` make it the inverse of `Split`. |
| Text.SplitLines | data_processors.py:119 | `splitlines()` for `'\n'` boundaries: no line holds a newline. `Text.SplitLinesRoundTrip` and `Text.SplitLinesCount` give back the contents and the number of lines. |
| Text.JoinSplit | data_processors.py:121-122 | Joining the pieces of `s.split(sep)` with `sep` gives back `s` exactly, for every string. |
| Text.SplitJoin | data_processors.py:121-122 | Splitting the join of a non-empty list of separator-free parts gives back that list, so split and join are inverse. |
| Text.SplitTail | data_processors.py:121-122 | `sep.join(split[1:])` is exactly the text after the first separator, or `""` when there is none. |
| Text.SplitCount | data_processors.py:126-127 | A split has one more piece than the string has separators, so `inn_split[1]` exists exactly when the token holds a `':'`. |
| Text.SplitSecond | data_processors.py:126-127 | When the separator occurs, the second piece is the text between the first and the second separator, or up to the end. |
| Text.SplitLinesRoundTrip | data_processors.py:118-119 | The lines from `splitlines`, joined with `'\n'` and followed by the trailing newline if there was one, give back the contents. |
| Text.SplitLinesCount | data_processors.py:119 | `splitlines` yields one line per newline, plus one for an unterminated last line, and none for empty contents. |
| Text.LastPieceEmpty | data_processors.py:119 | The last piece of a newline split is empty exactly when the contents are empty or end with a newline. |
| QcFine.ParseLine | data_processors.py:121-128 | A line parses if and only if its first space-delimited token holds a `':'`. On success the example has guid `set_type-line`, the text after the first space, no `text_b`, and label `before-first-colon + "_" + between-first-and-second-colon`. Otherwise the error names the line. |
| QcFine.ParseDataLines | data_processors.py:120-128 | Over the data lines, in order: success if and only if every line parses, with one example per line, each the one its line yields. Otherwise the error is the first malformed line. |
| QcFine.CreateExamples | data_processors.py:119-128 | The first line is dropped whatever it holds. Success if and only if every later line parses, with max(0, number of lines - 1) examples and example `i` from line `i+1`. Otherwise the error is the first malformed data line. |
| QcFine.ReadExamples | data_processors.py:113-131 | A missing file fails with `FileNotFound`, and otherwise only a missing label separator fails. On success the count is one less than the number of lines (zero for an empty file), and each guid is the tag, `'-'` and its line. |
| QcFine.PathJoin | data_processors.py:99 | `os.path.join` of two parts: an absolute name wins. Otherwise the result is the directory, then a `'/'` exactly when the directory is non-empty and does not already end in one, then the name. |
| QcFine.GetLabeledExamples | data_processors.py:97-99 | When `labeled.tsv` exists under the data directory, the result is `_create_examples` on its lines with tag `train`. It fails with `FileNotFound` on that path exactly when the file is missing, and every example is tagged `train-`, labelled and without `text_b`. |
| QcFine.GetUnlabeledExamples | data_processors.py:101-103 | When `unlabeled.tsv` exists, the result is `_create_examples` on its lines with tag `train`. It has the same failure and tagging guarantees, and its examples are labelled too. |
| QcFine.GetTestExamples | data_processors.py:105-107 | When `test.tsv` exists, the result is `_create_examples` on its lines with tag `test`. It has the same failure and tagging guarantees, and test examples carry a label. |
| QcFine.GetLabels | data_processors.py:109-111 | `get_labels()`: 51 labels with `UNK_UNK` first. Their content, order, distinctness and shape are stated by `QcFine.LabelsByCoarseClass`, `QcFine.LabelsDistinct` and `QcFine.LabelsShape`. |
| QcFine.LabelsByCoarseClass | data_processors.py:111 | The literal label list equals `coarse_fine` over the fine classes of UNK, ABBR, DESC, ENTY, HUM, LOC and NUM, in that order. |
| QcFine.LabelsDistinct | data_processors.py:111 | The vocabulary has 51 labels, its first is `UNK_UNK`, and no label occurs twice. |
| QcFine.LabelsShape | data_processors.py:111 | Every label holds exactly one `'_'` and neither `':'` nor a space. |
| QcFine.AfterUnkIncreasing | data_processors.py:111 | After `UNK_UNK` the labels are in strictly increasing lexicographic order, and all of them sort before `UNK_UNK`. |
| Records.NewInputExample | data_processors.py:16-31 | An example built from a guid and a text alone keeps both and has no second segment and no label. |
| Records.NewInputFeatures | data_processors.py:50-62 | Features built without the optional arguments keep the given ids, mask, segments and label id, have no label mask, and count as a real example. |
| ParserFacts.LabelFromToken | data_processors.py:121-128 | A line `coarse:fine<more> question`, where `more` is empty or starts another `':'` part, parses to label `coarse_fine` and text `question`, whatever spaces the question holds. |
| ParserFacts.TextAfterFirstSpace | data_processors.py:121-125 | For a parsable line, the label token, one space and `text_a` give back the line. A line without a space has empty `text_a`. |
| ParserFacts.LabelsReachable | data_processors.py:126-127 | Every vocabulary label `X_Y` is produced by a line whose token is `X:Y`. |
| ParserFacts.HeaderDropped | data_processors.py:119-120 | The first line never contributes: the result is that of the remaining lines alone. |
| ParserFacts.ExtraPartsDropped | data_processors.py:126-127 | The token `a:b:c` gives the label `a_b`; parts after a second `':'` are dropped. |
| ParserFacts.DoubledSpacesPreserved | data_processors.py:121-122 | A doubled space inside the question survives unchanged into `text_a`. |
| ParserFacts.TwoRecords | data_processors.py:119-128 | A header followed by two parsable lines gives exactly their two examples, in order. |
| ParserFacts.WorkedExample | data_processors.py:119-128 | The file `header_line_ignored`, `DESC:manner q1`, `ENTY:animal q2` gives two examples, labelled `DESC_manner` and `ENTY_animal`, with texts `q1` and `q2` and guids `train-<line>`. |
| ParserFacts.GoodThenBad | data_processors.py:120-128 | A malformed line after a good one fails the whole call with that line, and no partial list is returned. |
| ParserFacts.MissingColonFails | data_processors.py:120-128 | `BADLABEL question` after a good record fails the call with that line. |
| ParserFacts.EmptyLineFails | data_processors.py:121-127 | An empty data line fails, since its only token is empty. |
| ParserFacts.OutOfVocabularyLabelAccepted | data_processors.py:126-128 | `HUM_ind:desc q` in the test split parses to the label `HUM_ind_desc`, which is not in the vocabulary: no membership check is made. |

## Left out

- `DataProcessor._read_tsv` (data_processors.py:84-92): it reads CSV through `tf.gfile`, which is foreign I/O. The QC processor does not call it.
- The abstract `DataProcessor` methods (data_processors.py:68-82): they only raise `NotImplementedError`. The concrete processor is modelled directly.
- Opening and closing files: the file system is a map from path to contents, and read errors other than a missing file are not modelled.
- `str.splitlines` line boundaries other than `'\n'` (`'\r'`, `'\r\n'`, `'\x0b'`, `'\x0c'`, `'\x1c'` to `'\x1e'`, `'\x85'`, `'\u2028'`, `'\u2029'`): only `'\n'` is modelled.
- `tokenization.convert_to_unicode`: it lives in another module and is the identity on text strings, as modelled.
- `QcFine.PathJoin`: only two components are modelled, and Windows drive and separator rules are left out.
- `QcFine.ReadExamples`: its contract states the count and the guids. The full content of each example is stated by `QcFine.CreateExamples`, which it calls on the file's lines.
- Python's `IndexError` carries no line. The model's error value records the offending line so that the first failure can be stated.
- Feature conversion, tokenization, sequence padding and TPU batch padding happen outside this file. `PaddingInputExample` appears only as the second constructor of `Records.BatchItem`.
