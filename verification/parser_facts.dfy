/**
 Consequences of the line parser of `QcFineProcessor`: the label round trip,
 what happens to extra `':'` parts, spacing inside the question, the worked
 example of a three-line file, and the absence of any vocabulary check.
 */
module ParserFacts {
  import opened Text
  import opened Records
  import opened Wrappers
  import opened QcFine

  /** The label token of `token question` is `token`, and the rest is
      `question`, when `token` holds no space. */
  lemma TokenPieces(token: string, question: string)
    requires ' ' !in token
    ensures LabelToken(token + " " + question) == token
    ensures AfterFirst(token + " " + question, ' ') == question
  {
    assert token + " " + question == token + [' '] + question;
    FirstSeparatorAt(token, ' ', question);
  }

  /** The label the parser makes of the token `coarse:fine<more>`. */
  lemma ColonPieces(coarse: string, fine: string, more: string)
    requires ':' !in coarse && ':' !in fine
    requires more == "" || more[0] == ':'
    ensures ':' in coarse + ":" + fine + more
    ensures BeforeFirst(coarse + ":" + fine + more, ':') == coarse
    ensures BeforeFirst(AfterFirst(coarse + ":" + fine + more, ':'), ':') == fine
  {
    assert coarse + ":" + fine + more == coarse + [':'] + (fine + more);
    FirstSeparatorAt(coarse, ':', fine + more);
    if more != "" {
      assert fine + more == fine + [':'] + more[1..];
      FirstSeparatorAt(fine, ':', more[1..]);
    }
  }

  /** The pieces the parser cuts from `coarse:fine<more> question`. */
  lemma LinePieces(coarse: string, fine: string, more: string, question: string)
    requires ':' !in coarse && ':' !in fine
    requires ' ' !in coarse && ' ' !in fine && ' ' !in more
    requires more == "" || more[0] == ':'
    ensures LabelToken(coarse + ":" + fine + more + " " + question) == coarse + ":" + fine + more
    ensures AfterFirst(coarse + ":" + fine + more + " " + question, ' ') == question
    ensures HasLabelSeparator(coarse + ":" + fine + more + " " + question)
    ensures ExpectedLabel(coarse + ":" + fine + more + " " + question) == coarse + "_" + fine
  {
    var token := coarse + ":" + fine + more;
    assert ' ' !in token;
    assert coarse + ":" + fine + more + " " + question == token + " " + question;
    TokenPieces(token, question);
    ColonPieces(coarse, fine, more);
  }

  /** A line `coarse:fine<more> question`, where `more` is empty or starts a
      further `':'` part, parses to the label `coarse_fine` and to exactly
      `question` as text, whatever spaces `question` holds. */
  lemma LabelFromToken(setType: string, line: string, coarse: string, fine: string, more: string, question: string)
    requires line == coarse + ":" + fine + more + " " + question
    requires ':' !in coarse && ':' !in fine
    requires ' ' !in coarse && ' ' !in fine && ' ' !in more
    requires more == "" || more[0] == ':'
    ensures ParseLine(setType, line) == Success(InputExample(setType + "-" + line, question, None, Some(coarse + "_" + fine)))
  {
    LinePieces(coarse, fine, more, question);
  }

  /** The question text of a parsed line is exactly what follows its first
      space, so the label token, a space and the text give back the line;
      a line without a space has empty text. */
  lemma TextAfterFirstSpace(setType: string, line: string)
    requires HasLabelSeparator(line)
    ensures ParseLine(setType, line).Success?
    ensures ' ' in line ==> LabelToken(line) + " " + ParseLine(setType, line).value.textA == line
    ensures ' ' !in line ==> ParseLine(setType, line).value.textA == "" && LabelToken(line) == line
  {
    var textA := ParseLine(setType, line).value.textA;
    assert textA == AfterFirst(line, ' ');
    if ' ' in line {
      assert LabelToken(line) + " " + textA == BeforeFirst(line, ' ') + [' '] + textA;
    }
  }

  /** The first line is dropped whatever it holds, even a well-formed
      record: the result is that of the data lines alone. */
  lemma HeaderDropped(setType: string, header: string, dataLines: seq<string>)
    ensures CreateExamples([header] + dataLines, setType) == ParseDataLines(setType, dataLines)
  {
    assert ([header] + dataLines)[1..] == dataLines;
  }

  /** Every label of the vocabulary is the label of some line: writing its
      `'_'` as `':'` gives a label token that parses back to it. */
  lemma LabelsReachable(setType: string, question: string)
    ensures forall k :: 0 <= k < |GetLabels()| ==>
      var entry := GetLabels()[k];
      var line := BeforeFirst(entry, '_') + ":" + AfterFirst(entry, '_') + " " + question;
      ParseLine(setType, line).Success? && ParseLine(setType, line).value.classLabel == Some(entry)
  {
    LabelsShape();
    forall k | 0 <= k < |GetLabels()|
      ensures
        var entry := GetLabels()[k];
        var line := BeforeFirst(entry, '_') + ":" + AfterFirst(entry, '_') + " " + question;
        ParseLine(setType, line).Success? && ParseLine(setType, line).value.classLabel == Some(entry)
    {
      var entry := GetLabels()[k];
      assert WellShaped(entry);
      assert '_' in entry by {
        assert Count(entry, '_') > 0;
      }
      var coarse := BeforeFirst(entry, '_');
      var fine := AfterFirst(entry, '_');
      var line := coarse + ":" + fine + " " + question;
      assert entry == coarse + "_" + fine;
      assert line == coarse + ":" + fine + "" + " " + question;
      LabelFromToken(setType, line, coarse, fine, "", question);
    }
  }

  /** Parts after a second `':'` are silently dropped: `a:b:c` gives `a_b`. */
  lemma ExtraPartsDropped(question: string)
    ensures ParseLine("train", "a:b:c " + question).Success?
    ensures ParseLine("train", "a:b:c " + question).value.classLabel == Some("a_b")
  {
    assert "a" + "_" + "b" == "a_b";
    var line := "a:b:c " + question;
    assert line == "a" + ":" + "b" + ":c" + " " + question;
    LabelFromToken("train", line, "a", "b", ":c", question);
  }

  /** A doubled space inside the question survives: `split(" ")` followed by
      `' '.join` does not collapse it. */
  lemma DoubledSpacesPreserved(before: string, after: string)
    ensures ParseLine("train", "DESC:manner " + before + "  " + after).Success?
    ensures ParseLine("train", "DESC:manner " + before + "  " + after).value.textA == before + "  " + after
  {
    var line := "DESC:manner " + before + "  " + after;
    assert line == "DESC" + ":" + "manner" + "" + " " + (before + "  " + after);
    LabelFromToken("train", line, "DESC", "manner", "", before + "  " + after);
  }

  /** A header line followed by two well-formed records gives two
      examples; the header is dropped. */
  lemma TwoRecords(setType: string, header: string, line1: string, line2: string)
    requires HasLabelSeparator(line1) && HasLabelSeparator(line2)
    ensures CreateExamples([header, line1, line2], setType)
         == Success([ExpectedExample(setType, line1), ExpectedExample(setType, line2)])
  {
    var lines := [header, line1, line2];
    assert lines[1] == line1 && lines[2] == line2;
    var r := CreateExamples(lines, setType);
    assert r.Success? && |r.value| == 2;
    assert r.value[0] == ExpectedExample(setType, line1);
    assert r.value[1] == ExpectedExample(setType, line2);
    assert r.value == [ExpectedExample(setType, line1), ExpectedExample(setType, line2)];
  }

  /** The example a record line `coarse:fine question` turns into. */
  lemma RecordExample(setType: string, coarse: string, fine: string, question: string)
    requires ':' !in coarse && ':' !in fine && ' ' !in coarse && ' ' !in fine
    ensures HasLabelSeparator(coarse + ":" + fine + " " + question)
    ensures ExpectedExample(setType, coarse + ":" + fine + " " + question)
         == InputExample(setType + "-" + (coarse + ":" + fine + " " + question), question, None, Some(coarse + "_" + fine))
  {
    assert coarse + ":" + fine + " " + question == coarse + ":" + fine + "" + " " + question;
    LinePieces(coarse, fine, "", question);
  }

  /** The record line `DESC:manner <question>` of the worked example. */
  lemma DescMannerLine(question: string)
    ensures HasLabelSeparator("DESC:manner " + question)
    ensures ExpectedExample("train", "DESC:manner " + question)
         == InputExample("train-DESC:manner " + question, question, None, Some("DESC_manner"))
  {
    assert "DESC" + "_" + "manner" == "DESC_manner";
    assert "train" + "-" + ("DESC:manner " + question) == "train-DESC:manner " + question;
    assert "DESC:manner " + question == "DESC" + ":" + "manner" + " " + question;
    RecordExample("train", "DESC", "manner", question);
  }

  /** The record line `ENTY:animal <question>` of the worked example. */
  lemma EntyAnimalLine(question: string)
    ensures HasLabelSeparator("ENTY:animal " + question)
    ensures ExpectedExample("train", "ENTY:animal " + question)
         == InputExample("train-ENTY:animal " + question, question, None, Some("ENTY_animal"))
  {
    assert "ENTY" + "_" + "animal" == "ENTY_animal";
    assert "train" + "-" + ("ENTY:animal " + question) == "train-ENTY:animal " + question;
    assert "ENTY:animal " + question == "ENTY" + ":" + "animal" + " " + question;
    RecordExample("train", "ENTY", "animal", question);
  }

  /** The three-line file of the worked example: a header and two records. */
  lemma WorkedExample(question1: string, question2: string)
    ensures CreateExamples(["header_line_ignored", "DESC:manner " + question1, "ENTY:animal " + question2], "train")
         == Success([InputExample("train-DESC:manner " + question1, question1, None, Some("DESC_manner")),
                     InputExample("train-ENTY:animal " + question2, question2, None, Some("ENTY_animal"))])
  {
    DescMannerLine(question1);
    EntyAnimalLine(question2);
    TwoRecords("train", "header_line_ignored", "DESC:manner " + question1, "ENTY:animal " + question2);
  }

  /** A header, a well-formed record and then a line without a label
      separator: the read fails on that line. */
  lemma GoodThenBad(setType: string, header: string, good: string, bad: string)
    requires HasLabelSeparator(good) && !HasLabelSeparator(bad)
    ensures CreateExamples([header, good, bad], setType) == Failure(MissingLabelSeparator(bad))
  {
    var lines := [header, good, bad];
    assert lines[1..] == [good, bad];
    assert FirstMalformed(lines[1..], 1);
  }

  /** A line whose label token `BADLABEL` has no `':'`. */
  lemma BadLabelLine(question: string)
    ensures !HasLabelSeparator("BADLABEL " + question)
  {
    assert "BADLABEL " + question == "BADLABEL" + " " + question;
    assert ':' !in "BADLABEL" && ' ' !in "BADLABEL";
    TokenPieces("BADLABEL", question);
  }

  /** A data line whose label token has no `':'` fails the whole read, even
      after a good line; no partial list is returned. */
  lemma MissingColonFails(question1: string, question2: string)
    ensures CreateExamples(["header", "DESC:manner " + question1, "BADLABEL " + question2], "train")
         == Failure(MissingLabelSeparator("BADLABEL " + question2))
  {
    DescMannerLine(question1);
    BadLabelLine(question2);
    GoodThenBad("train", "header", "DESC:manner " + question1, "BADLABEL " + question2);
  }

  /** An empty data line fails too: its only token is empty. */
  lemma EmptyLineFails(header: string)
    ensures CreateExamples([header, ""], "test") == Failure(MissingLabelSeparator(""))
  {
  }

  /** Appending `[c] + y` to `x` adds one `c` plus those of `y`. */
  lemma CountAppend(x: string, c: char, y: string)
    ensures Count(x + [c] + y, c) == Count(x, c) + 1 + Count(y, c)
  {
    assert multiset(x + [c] + y) == multiset(x) + multiset{c} + multiset(y);
  }

  /** A label with two `'_'` is not well shaped. */
  lemma TwoUnderscores(x: string, y: string, z: string)
    requires '_' !in x && '_' !in y && '_' !in z
    ensures !WellShaped(x + "_" + y + "_" + z)
  {
    assert x + "_" + y + "_" + z == x + ['_'] + y + ['_'] + z;
    CountJoined(x, '_', y);
    CountAppend(x + ['_'] + y, '_', z);
  }

  /** A name that is not well shaped is in no list of well-shaped names. */
  lemma NotListed(labels: seq<string>, name: string)
    requires AllWellShaped(labels)
    requires !WellShaped(name)
    ensures name !in labels
  {
  }

  /** The vocabulary never holds a label with two `'_'`. */
  lemma ExtraUnderscoreNotALabel()
    ensures "HUM_ind_desc" !in GetLabels()
  {
    assert "HUM_ind_desc" == "HUM" + "_" + "ind" + "_" + "desc";
    TwoUnderscores("HUM", "ind", "desc");
    LabelsShape();
    NotListed(GetLabels(), "HUM_ind_desc");
  }

  /** No label is checked against the vocabulary, in the test split as in
      the others: a token with an extra `'_'` yields a label that cannot be
      in `get_labels()`. */
  lemma OutOfVocabularyLabelAccepted(question: string)
    ensures ParseLine("test", "HUM_ind:desc " + question).Success?
    ensures ParseLine("test", "HUM_ind:desc " + question).value.classLabel == Some("HUM_ind_desc")
    ensures "HUM_ind_desc" !in GetLabels()
  {
    assert "HUM_ind" + "_" + "desc" == "HUM_ind_desc";
    var line := "HUM_ind:desc " + question;
    assert line == "HUM_ind" + ":" + "desc" + "" + " " + question;
    ExtraUnderscoreNotALabel();
    LabelFromToken("test", line, "HUM_ind", "desc", "", question);
  }
}
