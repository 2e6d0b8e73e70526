/**
 `QcFineProcessor`, the data processor of the fine-grained question
 classification task. Each data line is `<coarse>:<fine> <question>`; the
 first line of a file is discarded. Reading a file is modelled by a map from
 paths to file contents, and `tokenization.convert_to_unicode` by the
 identity.
 */
module QcFine {
  import opened Text
  import opened Records
  import opened Wrappers

  /** Why a read fails: the split file does not exist (`open` raises), or a
      data line's label token has no `':'` (`inn_split[1]` raises
      `IndexError`; the offending line is recorded here). */
  datatype Error = FileNotFound(path: string) | MissingLabelSeparator(line: string)

  /* ---------------------------------------------------------------------
     Label vocabulary
     --------------------------------------------------------------------- */

  /** The fine classes of each coarse class, in the order of the list. */
  const UnkFine: seq<string> :=
    ["UNK"]
  const AbbrFine: seq<string> :=
    ["abb", "exp"]
  const DescFine: seq<string> :=
    ["def", "desc", "manner", "reason"]
  const EntyFine: seq<string> :=
    ["animal", "body", "color", "cremat", "currency", "dismed", "event", "food",
     "instru", "lang", "letter", "other", "plant", "product", "religion", "sport",
     "substance", "symbol", "techmeth", "termeq", "veh", "word"]
  const HumFine: seq<string> :=
    ["desc", "gr", "ind", "title"]
  const LocFine: seq<string> :=
    ["city", "country", "mount", "other", "state"]
  const NumFine: seq<string> :=
    ["code", "count", "date", "dist", "money", "ord", "other", "perc",
     "period", "speed", "temp", "volsize", "weight"]

  /** The labels `coarse_fine` of one coarse class. */
  function Qualify(coarse: string, fines: seq<string>): (labels: seq<string>)
    ensures |labels| == |fines|
    ensures forall i :: 0 <= i < |fines| ==> labels[i] == coarse + "_" + fines[i]
  {
    seq(|fines|, i requires 0 <= i < |fines| => coarse + "_" + fines[i])
  }

  /** `get_labels()`: the fixed, ordered list of class labels, one line
      per coarse class. */
  function GetLabels(): (labels: seq<string>)
    ensures |labels| == 51
    ensures labels[0] == "UNK_UNK"
  {
    ["UNK_UNK"]
    + ["ABBR_abb", "ABBR_exp"]
    + ["DESC_def", "DESC_desc", "DESC_manner", "DESC_reason"]
    + ["ENTY_animal", "ENTY_body", "ENTY_color", "ENTY_cremat", "ENTY_currency",
      "ENTY_dismed", "ENTY_event", "ENTY_food", "ENTY_instru", "ENTY_lang",
      "ENTY_letter", "ENTY_other", "ENTY_plant", "ENTY_product", "ENTY_religion",
      "ENTY_sport", "ENTY_substance", "ENTY_symbol", "ENTY_techmeth", "ENTY_termeq",
      "ENTY_veh", "ENTY_word"]
    + ["HUM_desc", "HUM_gr", "HUM_ind", "HUM_title"]
    + ["LOC_city", "LOC_country", "LOC_mount", "LOC_other", "LOC_state"]
    + ["NUM_code", "NUM_count", "NUM_date", "NUM_dist", "NUM_money",
      "NUM_ord", "NUM_other", "NUM_perc", "NUM_period", "NUM_speed",
      "NUM_temp", "NUM_volsize", "NUM_weight"]
  }

  /** The vocabulary assembled class by class from the fine classes. */
  function ByCoarseClass(): seq<string>
  {
    Qualify("UNK", UnkFine) + AfterUnk()
  }

  /** The classes that follow `UNK`, in order. */
  function AfterUnk(): seq<string>
  {
    Qualify("ABBR", AbbrFine) + (Qualify("DESC", DescFine) + (Qualify("ENTY", EntyFine)
    + (Qualify("HUM", HumFine) + (Qualify("LOC", LocFine) + Qualify("NUM", NumFine)))))
  }

  /** The literal list is, class by class, `coarse_fine` for the fine
      classes above. */
  lemma LabelsByCoarseClass()
    ensures GetLabels() == ByCoarseClass()
  {
    UnkLabels();
    AbbrLabels();
    DescLabels();
    EntyLabels();
    HumLabels();
    LocLabels();
    NumLabels();
  }

  lemma UnkLabels()
    ensures Qualify("UNK", UnkFine) ==
      ["UNK_UNK"]
  {
    var q := Qualify("UNK", UnkFine);
    assert q[0] == "UNK_UNK";
  }

  lemma AbbrLabels()
    ensures Qualify("ABBR", AbbrFine) ==
      ["ABBR_abb", "ABBR_exp"]
  {
    var q := Qualify("ABBR", AbbrFine);
    assert q[0] == "ABBR_abb";
    assert q[1] == "ABBR_exp";
  }

  lemma DescLabels()
    ensures Qualify("DESC", DescFine) ==
      ["DESC_def", "DESC_desc", "DESC_manner", "DESC_reason"]
  {
    var q := Qualify("DESC", DescFine);
    assert q[0] == "DESC_def";
    assert q[1] == "DESC_desc";
    assert q[2] == "DESC_manner";
    assert q[3] == "DESC_reason";
  }

  /** The two halves of `EntyFine`, which the proofs treat one at a time. */
  const EntyFineFirst: seq<string> :=
    ["animal", "body", "color", "cremat", "currency", "dismed", "event", "food",
     "instru", "lang", "letter"]
  const EntyFineSecond: seq<string> :=
    ["other", "plant", "product", "religion", "sport", "substance", "symbol", "techmeth",
     "termeq", "veh", "word"]

  lemma EntyFineHalves()
    ensures EntyFine == EntyFineFirst + EntyFineSecond
  {
  }

  /** Qualifying distributes over concatenation. */
  lemma QualifyAppend(coarse: string, a: seq<string>, b: seq<string>)
    ensures Qualify(coarse, a + b) == Qualify(coarse, a) + Qualify(coarse, b)
  {
    assert forall i | 0 <= i < |a| + |b| :: Qualify(coarse, a + b)[i] == (Qualify(coarse, a) + Qualify(coarse, b))[i];
  }

  lemma EntyFirstLabels()
    ensures Qualify("ENTY", EntyFineFirst) ==
      ["ENTY_animal", "ENTY_body", "ENTY_color", "ENTY_cremat", "ENTY_currency", "ENTY_dismed",
       "ENTY_event", "ENTY_food", "ENTY_instru", "ENTY_lang", "ENTY_letter"]
  {
    var q := Qualify("ENTY", EntyFineFirst);
    assert q[0] == "ENTY_animal" by { assert q[0] == "ENTY" + "_" + EntyFineFirst[0]; }
    assert q[1] == "ENTY_body" by { assert q[1] == "ENTY" + "_" + EntyFineFirst[1]; }
    assert q[2] == "ENTY_color" by { assert q[2] == "ENTY" + "_" + EntyFineFirst[2]; }
    assert q[3] == "ENTY_cremat" by { assert q[3] == "ENTY" + "_" + EntyFineFirst[3]; }
    assert q[4] == "ENTY_currency" by { assert q[4] == "ENTY" + "_" + EntyFineFirst[4]; }
    assert q[5] == "ENTY_dismed" by { assert q[5] == "ENTY" + "_" + EntyFineFirst[5]; }
    assert q[6] == "ENTY_event" by { assert q[6] == "ENTY" + "_" + EntyFineFirst[6]; }
    assert q[7] == "ENTY_food" by { assert q[7] == "ENTY" + "_" + EntyFineFirst[7]; }
    assert q[8] == "ENTY_instru" by { assert q[8] == "ENTY" + "_" + EntyFineFirst[8]; }
    assert q[9] == "ENTY_lang" by { assert q[9] == "ENTY" + "_" + EntyFineFirst[9]; }
    assert q[10] == "ENTY_letter" by { assert q[10] == "ENTY" + "_" + EntyFineFirst[10]; }
  }

  lemma EntySecondLabels()
    ensures Qualify("ENTY", EntyFineSecond) ==
      ["ENTY_other", "ENTY_plant", "ENTY_product", "ENTY_religion", "ENTY_sport", "ENTY_substance",
       "ENTY_symbol", "ENTY_techmeth", "ENTY_termeq", "ENTY_veh", "ENTY_word"]
  {
    var q := Qualify("ENTY", EntyFineSecond);
    assert q[0] == "ENTY_other" by { assert q[0] == "ENTY" + "_" + EntyFineSecond[0]; }
    assert q[1] == "ENTY_plant" by { assert q[1] == "ENTY" + "_" + EntyFineSecond[1]; }
    assert q[2] == "ENTY_product" by { assert q[2] == "ENTY" + "_" + EntyFineSecond[2]; }
    assert q[3] == "ENTY_religion" by { assert q[3] == "ENTY" + "_" + EntyFineSecond[3]; }
    assert q[4] == "ENTY_sport" by { assert q[4] == "ENTY" + "_" + EntyFineSecond[4]; }
    assert q[5] == "ENTY_substance" by { assert q[5] == "ENTY" + "_" + EntyFineSecond[5]; }
    assert q[6] == "ENTY_symbol" by { assert q[6] == "ENTY" + "_" + EntyFineSecond[6]; }
    assert q[7] == "ENTY_techmeth" by { assert q[7] == "ENTY" + "_" + EntyFineSecond[7]; }
    assert q[8] == "ENTY_termeq" by { assert q[8] == "ENTY" + "_" + EntyFineSecond[8]; }
    assert q[9] == "ENTY_veh" by { assert q[9] == "ENTY" + "_" + EntyFineSecond[9]; }
    assert q[10] == "ENTY_word" by { assert q[10] == "ENTY" + "_" + EntyFineSecond[10]; }
  }

  lemma EntyLabels()
    ensures Qualify("ENTY", EntyFine) ==
      ["ENTY_animal", "ENTY_body", "ENTY_color", "ENTY_cremat", "ENTY_currency", "ENTY_dismed",
       "ENTY_event", "ENTY_food", "ENTY_instru", "ENTY_lang", "ENTY_letter", "ENTY_other",
       "ENTY_plant", "ENTY_product", "ENTY_religion", "ENTY_sport", "ENTY_substance", "ENTY_symbol",
       "ENTY_techmeth", "ENTY_termeq", "ENTY_veh", "ENTY_word"]
  {
    EntyFineHalves();
    QualifyAppend("ENTY", EntyFineFirst, EntyFineSecond);
    EntyFirstLabels();
    EntySecondLabels();
  }

  lemma HumLabels()
    ensures Qualify("HUM", HumFine) ==
      ["HUM_desc", "HUM_gr", "HUM_ind", "HUM_title"]
  {
    var q := Qualify("HUM", HumFine);
    assert q[0] == "HUM_desc";
    assert q[1] == "HUM_gr";
    assert q[2] == "HUM_ind";
    assert q[3] == "HUM_title";
  }

  lemma LocLabels()
    ensures Qualify("LOC", LocFine) ==
      ["LOC_city", "LOC_country", "LOC_mount", "LOC_other", "LOC_state"]
  {
    var q := Qualify("LOC", LocFine);
    assert q[0] == "LOC_city";
    assert q[1] == "LOC_country";
    assert q[2] == "LOC_mount";
    assert q[3] == "LOC_other";
    assert q[4] == "LOC_state";
  }

  lemma NumLabels()
    ensures Qualify("NUM", NumFine) ==
      ["NUM_code", "NUM_count", "NUM_date", "NUM_dist", "NUM_money", "NUM_ord",
       "NUM_other", "NUM_perc", "NUM_period", "NUM_speed", "NUM_temp", "NUM_volsize",
       "NUM_weight"]
  {
    var q := Qualify("NUM", NumFine);
    assert q[0] == "NUM_code";
    assert q[1] == "NUM_count";
    assert q[2] == "NUM_date";
    assert q[3] == "NUM_dist";
    assert q[4] == "NUM_money";
    assert q[5] == "NUM_ord";
    assert q[6] == "NUM_other";
    assert q[7] == "NUM_perc";
    assert q[8] == "NUM_period";
    assert q[9] == "NUM_speed";
    assert q[10] == "NUM_temp";
    assert q[11] == "NUM_volsize";
    assert q[12] == "NUM_weight";
  }

  /** Within a coarse class the labels are in strictly increasing order. */
  lemma {:induction false} QualifiedIncreasing(coarse: string, fines: seq<string>)
    requires Increasing(fines)
    ensures Increasing(Qualify(coarse, fines))
  {
    var labels := Qualify(coarse, fines);
    forall i | 0 <= i < |labels| - 1 ensures Less(labels[i], labels[i + 1]) {
      assert labels[i] == (coarse + "_") + fines[i];
      assert labels[i + 1] == (coarse + "_") + fines[i + 1];
      CommonPrefixLess(coarse + "_", fines[i], fines[i + 1]);
    }
  }

  /** A label holds exactly one `'_'` and neither `':'` nor `' '`, so it is
      `coarse_fine` for a label token `coarse:fine`. */
  predicate WellShaped(name: string)
  {
    Count(name, '_') == 1 && ':' !in name && ' ' !in name
  }

  /** The last label of each class comes before the first of the next, and
      the last of all before `UNK_UNK`. */
  lemma ClassSeams()
    ensures Less(Qualify("ABBR", AbbrFine)[1], Qualify("DESC", DescFine)[0])
    ensures Less(Qualify("DESC", DescFine)[3], Qualify("ENTY", EntyFine)[0])
    ensures Less(Qualify("ENTY", EntyFine)[21], Qualify("HUM", HumFine)[0])
    ensures Less(Qualify("HUM", HumFine)[3], Qualify("LOC", LocFine)[0])
    ensures Less(Qualify("LOC", LocFine)[4], Qualify("NUM", NumFine)[0])
    ensures Less(Qualify("NUM", NumFine)[12], "UNK_UNK")
  {
    AbbrLabels();
    DescLabels();
    EntyLabels();
    HumLabels();
    LocLabels();
    NumLabels();
    assert Less("ABBR_exp", "DESC_def");
    assert Less("DESC_reason", "ENTY_animal");
    assert Less("ENTY_word", "HUM_desc");
    assert Less("HUM_title", "LOC_city");
    assert Less("LOC_state", "NUM_code");
    assert Less("NUM_weight", "UNK_UNK");
  }

  /** Each class on its own is in strictly increasing order. */
  lemma ClassesIncreasing()
    ensures Increasing(Qualify("ABBR", AbbrFine)) && Increasing(Qualify("DESC", DescFine))
    ensures Increasing(Qualify("ENTY", EntyFine)) && Increasing(Qualify("HUM", HumFine))
    ensures Increasing(Qualify("LOC", LocFine)) && Increasing(Qualify("NUM", NumFine))
  {
    AbbrFineIncreasing();
    DescFineIncreasing();
    EntyFineIncreasing();
    HumFineIncreasing();
    LocFineIncreasing();
    NumFineIncreasing();
    QualifiedIncreasing("ABBR", AbbrFine);
    QualifiedIncreasing("DESC", DescFine);
    QualifiedIncreasing("ENTY", EntyFine);
    QualifiedIncreasing("HUM", HumFine);
    QualifiedIncreasing("LOC", LocFine);
    QualifiedIncreasing("NUM", NumFine);
  }

  /** After `UNK_UNK` the assembled labels strictly increase, and all of
      them come before `UNK_UNK`. */
  lemma AfterUnkIncreasing()
    ensures Increasing(AfterUnk())
    ensures forall k :: 0 <= k < |AfterUnk()| ==> Less(AfterUnk()[k], "UNK_UNK")
  {
    var abbr := Qualify("ABBR", AbbrFine);
    var desc := Qualify("DESC", DescFine);
    var enty := Qualify("ENTY", EntyFine);
    var hum := Qualify("HUM", HumFine);
    var loc := Qualify("LOC", LocFine);
    var num := Qualify("NUM", NumFine);
    ClassesIncreasing();
    ClassSeams();
    IncreasingAppend(loc, num);
    IncreasingAppend(hum, loc + num);
    IncreasingAppend(enty, hum + (loc + num));
    IncreasingAppend(desc, enty + (hum + (loc + num)));
    IncreasingAppend(abbr, desc + (enty + (hum + (loc + num))));
    var rest := AfterUnk();
    IncreasingDistinct(rest);
    forall k | 0 <= k < |rest| ensures Less(rest[k], "UNK_UNK") {
      if k < |rest| - 1 {
        LessFromTransitive(rest[k], rest[|rest| - 1], "UNK_UNK", 0);
      }
    }
  }

  /** The vocabulary has 51 labels, `UNK_UNK` first, none twice. */
  lemma LabelsDistinct()
    ensures |GetLabels()| == 51
    ensures GetLabels()[0] == "UNK_UNK"
    ensures Distinct(GetLabels())
  {
    LabelsByCoarseClass();
    UnkLabels();
    AfterUnkIncreasing();
    var labels := ByCoarseClass();
    var rest := AfterUnk();
    IncreasingDistinct(rest);
    LessFromIrreflexive("UNK_UNK", 0);
    forall i, j | 0 <= i < j < |labels| ensures labels[i] != labels[j] {
      if i > 0 {
        assert rest[i - 1] != rest[j - 1];
      }
    }
  }

  /** Every string of the list is well shaped. */
  predicate AllWellShaped(labels: seq<string>)
  {
    forall k :: 0 <= k < |labels| ==> WellShaped(labels[k])
  }

  /** No part holds `'_'`, `':'` or `' '`. */
  predicate Clean(parts: seq<string>)
  {
    forall i :: 0 <= i < |parts| ==> '_' !in parts[i] && ':' !in parts[i] && ' ' !in parts[i]
  }

  /** Labels built from clean parts are well shaped. */
  lemma QualifiedWellShaped(coarse: string, fines: seq<string>)
    requires Clean([coarse]) && Clean(fines)
    ensures AllWellShaped(Qualify(coarse, fines))
  {
    assert '_' !in coarse && ':' !in coarse && ' ' !in coarse by { assert [coarse][0] == coarse; }
    forall k | 0 <= k < |fines| ensures WellShaped(Qualify(coarse, fines)[k]) {
      CountJoined(coarse, '_', fines[k]);
      assert Qualify(coarse, fines)[k] == coarse + ['_'] + fines[k];
    }
  }

  lemma AllWellShapedAppend(a: seq<string>, b: seq<string>)
    requires AllWellShaped(a) && AllWellShaped(b)
    ensures AllWellShaped(a + b)
  {
    forall k | 0 <= k < |a + b| ensures WellShaped((a + b)[k]) {
      if k < |a| {
        assert (a + b)[k] == a[k];
      } else {
        assert (a + b)[k] == b[k - |a|];
      }
    }
  }

  /* One lemma per coarse class: proving the shape of all 51 literal labels
     in one obligation exceeds the solver's budget, so each class is shown
     clean on its own and the results are appended. The same split is used
     for the ordering lemmas below, and `EntyFine`, the longest class, is
     handled in two halves. */

  lemma UnkWellShaped()
    ensures AllWellShaped(Qualify("UNK", UnkFine))
  {
    assert Clean(["UNK"]);
    assert Clean(UnkFine);
    QualifiedWellShaped("UNK", UnkFine);
  }

  lemma AbbrWellShaped()
    ensures AllWellShaped(Qualify("ABBR", AbbrFine))
  {
    assert Clean(["ABBR"]);
    assert Clean(AbbrFine);
    QualifiedWellShaped("ABBR", AbbrFine);
  }

  lemma DescWellShaped()
    ensures AllWellShaped(Qualify("DESC", DescFine))
  {
    assert Clean(["DESC"]);
    assert Clean(DescFine);
    QualifiedWellShaped("DESC", DescFine);
  }

  lemma CleanAppend(a: seq<string>, b: seq<string>)
    requires Clean(a) && Clean(b)
    ensures Clean(a + b)
  {
    forall i | 0 <= i < |a + b| ensures '_' !in (a + b)[i] && ':' !in (a + b)[i] && ' ' !in (a + b)[i] {
      if i < |a| { assert (a + b)[i] == a[i]; } else { assert (a + b)[i] == b[i - |a|]; }
    }
  }

  lemma EntyFirstClean()
    ensures Clean(EntyFineFirst)
  {
  }

  lemma EntySecondClean()
    ensures Clean(EntyFineSecond)
  {
  }

  lemma EntyFineClean()
    ensures Clean(EntyFine)
  {
    EntyFirstClean();
    EntySecondClean();
    EntyFineHalves();
    CleanAppend(EntyFineFirst, EntyFineSecond);
  }

  lemma EntyWellShaped()
    ensures AllWellShaped(Qualify("ENTY", EntyFine))
  {
    assert Clean(["ENTY"]);
    EntyFineClean();
    QualifiedWellShaped("ENTY", EntyFine);
  }

  lemma HumWellShaped()
    ensures AllWellShaped(Qualify("HUM", HumFine))
  {
    assert Clean(["HUM"]);
    assert Clean(HumFine);
    QualifiedWellShaped("HUM", HumFine);
  }

  lemma LocWellShaped()
    ensures AllWellShaped(Qualify("LOC", LocFine))
  {
    assert Clean(["LOC"]);
    assert Clean(LocFine);
    QualifiedWellShaped("LOC", LocFine);
  }

  lemma NumFineClean()
    ensures Clean(NumFine)
  {
  }

  lemma NumWellShaped()
    ensures AllWellShaped(Qualify("NUM", NumFine))
  {
    assert Clean(["NUM"]);
    NumFineClean();
    QualifiedWellShaped("NUM", NumFine);
  }

  /** Every assembled label is well shaped. */
  lemma ByCoarseClassWellShaped()
    ensures AllWellShaped(ByCoarseClass())
  {
    UnkWellShaped();
    AbbrWellShaped();
    DescWellShaped();
    EntyWellShaped();
    HumWellShaped();
    LocWellShaped();
    NumWellShaped();
    var unk := Qualify("UNK", UnkFine);
    var abbr := Qualify("ABBR", AbbrFine);
    var desc := Qualify("DESC", DescFine);
    var enty := Qualify("ENTY", EntyFine);
    var hum := Qualify("HUM", HumFine);
    var loc := Qualify("LOC", LocFine);
    var num := Qualify("NUM", NumFine);
    AllWellShapedAppend(loc, num);
    AllWellShapedAppend(hum, loc + num);
    AllWellShapedAppend(enty, hum + (loc + num));
    AllWellShapedAppend(desc, enty + (hum + (loc + num)));
    AllWellShapedAppend(abbr, desc + (enty + (hum + (loc + num))));
    AllWellShapedAppend(unk, AfterUnk());
  }

  /** Every label is well shaped. */
  lemma LabelsShape()
    ensures AllWellShaped(GetLabels())
  {
    LabelsByCoarseClass();
    ByCoarseClassWellShaped();
  }

  lemma AbbrFineIncreasing()
    ensures Increasing(AbbrFine)
  {
    assert Less("abb", "exp");
  }

  lemma DescFineIncreasing()
    ensures Increasing(DescFine)
  {
    assert Less("def", "desc");
    assert Less("desc", "manner");
    assert Less("manner", "reason");
  }

  lemma EntyFirstIncreasing()
    ensures Increasing(EntyFineFirst)
  {
    assert Less("animal", "body");
    assert Less("body", "color");
    assert Less("color", "cremat");
    assert Less("cremat", "currency");
    assert Less("currency", "dismed");
    assert Less("dismed", "event");
    assert Less("event", "food");
    assert Less("food", "instru");
    assert Less("instru", "lang");
    assert Less("lang", "letter");
  }

  lemma EntySecondIncreasing()
    ensures Increasing(EntyFineSecond)
  {
    assert Less("other", "plant");
    assert Less("plant", "product");
    assert Less("product", "religion");
    assert Less("religion", "sport");
    assert Less("sport", "substance");
    assert Less("substance", "symbol");
    assert Less("symbol", "techmeth");
    assert Less("techmeth", "termeq");
    assert Less("termeq", "veh");
    assert Less("veh", "word");
  }

  lemma EntyFineIncreasing()
    ensures Increasing(EntyFine)
  {
    assert Less("letter", "other");
    EntyFirstIncreasing();
    EntySecondIncreasing();
    IncreasingAppend(EntyFineFirst, EntyFineSecond);
    EntyFineHalves();
  }

  lemma HumFineIncreasing()
    ensures Increasing(HumFine)
  {
    assert Less("desc", "gr");
    assert Less("gr", "ind");
    assert Less("ind", "title");
  }

  lemma LocFineIncreasing()
    ensures Increasing(LocFine)
  {
    assert Less("city", "country");
    assert Less("country", "mount");
    assert Less("mount", "other");
    assert Less("other", "state");
  }

  lemma NumFineIncreasing()
    ensures Increasing(NumFine)
  {
    assert Less("code", "count");
    assert Less("count", "date");
    assert Less("date", "dist");
    assert Less("dist", "money");
    assert Less("money", "ord");
    assert Less("ord", "other");
    assert Less("other", "perc");
    assert Less("perc", "period");
    assert Less("period", "speed");
    assert Less("speed", "temp");
    assert Less("temp", "volsize");
    assert Less("volsize", "weight");
  }

  /* ---------------------------------------------------------------------
     Parsing the lines of a split
     --------------------------------------------------------------------- */

  /** The label token of a line: the text before its first space. */
  function LabelToken(line: string): string
  {
    BeforeFirst(line, ' ')
  }

  /** A line parses exactly when its label token holds a `':'`. */
  predicate HasLabelSeparator(line: string)
  {
    ':' in LabelToken(line)
  }

  /** The label a well-formed line carries: the label token's text before its
      first `':'`, then `'_'`, then the text between its first and second
      `':'`; anything after a second `':'` is dropped. */
  function ExpectedLabel(line: string): string
  {
    var token := LabelToken(line);
    BeforeFirst(token, ':') + "_" + BeforeFirst(AfterFirst(token, ':'), ':')
  }

  /** The example a well-formed line yields: its guid is the split tag, `'-'`
      and the whole line; its text is everything after the first space. */
  function ExpectedExample(setType: string, line: string): InputExample
  {
    InputExample(setType + "-" + line, AfterFirst(line, ' '), None, Some(ExpectedLabel(line)))
  }

  /** The body of the loop of `_create_examples`, for one line. */
  function ParseLine(setType: string, line: string): (r: Result<InputExample, Error>)
    ensures r.Success? <==> HasLabelSeparator(line)
    ensures r.Success? ==> r.value == ExpectedExample(setType, line)
    ensures r.Failure? ==> r.error == MissingLabelSeparator(line)
  {
    var split := Split(line, ' ');
    var question := Join(split[1..], ' ');
    var guid := setType + "-" + line;
    var textA := question;
    var innSplit := Split(split[0], ':');
    SplitHead(line, ' ');
    SplitTail(line, ' ');
    SplitCount(split[0], ':');
    assert ':' in split[0] <==> Count(split[0], ':') > 0;
    if |innSplit| < 2 then
      Failure(MissingLabelSeparator(line))
    else
      SplitHead(split[0], ':');
      SplitSecond(split[0], ':');
      Success(InputExample(guid, textA, None, Some(innSplit[0] + "_" + innSplit[1])))
  }

  /** `k` is the first of the data lines whose label token has no `':'`. */
  predicate FirstMalformed(dataLines: seq<string>, k: int)
  {
    && 0 <= k < |dataLines|
    && !HasLabelSeparator(dataLines[k])
    && forall j :: 0 <= j < k ==> HasLabelSeparator(dataLines[j])
  }

  /** A failure in the lines after the first is a failure of all of them,
      at the shifted index, when the first line is well formed. */
  lemma FirstMalformedShift(dataLines: seq<string>, k: int)
    requires |dataLines| > 0 && HasLabelSeparator(dataLines[0])
    requires FirstMalformed(dataLines[1..], k)
    ensures FirstMalformed(dataLines, k + 1)
  {
    forall j | 0 <= j < k + 1 ensures HasLabelSeparator(dataLines[j]) {
      if j > 0 {
        assert dataLines[j] == dataLines[1..][j - 1];
      }
    }
  }

  /** The examples of the first line and of the rest, in order, are the
      examples of all the lines. */
  lemma PrependExamples(setType: string, dataLines: seq<string>, example: InputExample, examples: seq<InputExample>)
    requires |dataLines| > 0 && HasLabelSeparator(dataLines[0])
    requires example == ExpectedExample(setType, dataLines[0])
    requires forall i :: 0 <= i < |dataLines| - 1 ==> HasLabelSeparator(dataLines[1..][i])
    requires |examples| == |dataLines| - 1
    requires forall i :: 0 <= i < |examples| ==> examples[i] == ExpectedExample(setType, dataLines[1..][i])
    ensures forall i :: 0 <= i < |dataLines| ==> HasLabelSeparator(dataLines[i])
    ensures forall i :: 0 <= i < |dataLines| ==> ([example] + examples)[i] == ExpectedExample(setType, dataLines[i])
  {
    var all := [example] + examples;
    forall i | 0 < i < |dataLines| ensures HasLabelSeparator(dataLines[i]) {
      assert dataLines[i] == dataLines[1..][i - 1];
    }
    forall i | 0 < i < |dataLines| ensures all[i] == ExpectedExample(setType, dataLines[i]) {
      assert dataLines[i] == dataLines[1..][i - 1];
      assert all[i] == examples[i - 1];
    }
  }

  /** The loop of `_create_examples` over the data lines, in order; the first
      line that fails ends the whole call. */
  function ParseDataLines(setType: string, dataLines: seq<string>): (r: Result<seq<InputExample>, Error>)
    ensures r.Success? <==> forall i :: 0 <= i < |dataLines| ==> HasLabelSeparator(dataLines[i])
    ensures r.Success? ==> |r.value| == |dataLines|
    ensures r.Success? ==> forall i :: 0 <= i < |dataLines| ==> r.value[i] == ExpectedExample(setType, dataLines[i])
    ensures r.Failure? ==> exists k :: FirstMalformed(dataLines, k) && r.error == MissingLabelSeparator(dataLines[k])
    decreases |dataLines|
  {
    if |dataLines| == 0 then
      Success([])
    else
      match ParseLine(setType, dataLines[0])
      case Failure(e) =>
        assert FirstMalformed(dataLines, 0);
        Failure(e)
      case Success(example) =>
        match ParseDataLines(setType, dataLines[1..])
        case Failure(e) =>
          var k :| FirstMalformed(dataLines[1..], k) && e == MissingLabelSeparator(dataLines[1..][k]);
          FirstMalformedShift(dataLines, k);
          Failure(e)
        case Success(examples) =>
          PrependExamples(setType, dataLines, example, examples);
          Success([example] + examples)
  }

  /** `_create_examples` on the lines of a file: the first line is dropped
      whatever it holds, every other line yields one example in file order,
      and the first malformed data line fails the whole call. */
  function CreateExamples(lines: seq<string>, setType: string): (r: Result<seq<InputExample>, Error>)
    ensures r.Success? <==> forall i :: 1 <= i < |lines| ==> HasLabelSeparator(lines[i])
    ensures r.Success? ==> |r.value| == if |lines| == 0 then 0 else |lines| - 1
    ensures r.Success? ==> forall i :: 0 <= i < |r.value| ==> r.value[i] == ExpectedExample(setType, lines[i + 1])
    ensures r.Failure? ==> |lines| > 0 && exists k :: FirstMalformed(lines[1..], k) && r.error == MissingLabelSeparator(lines[k + 1])
  {
    if |lines| == 0 then
      Success([])
    else
      var dataLines := lines[1..];
      assert forall i :: 1 <= i < |lines| ==> lines[i] == dataLines[i - 1];
      ParseDataLines(setType, dataLines)
  }

  /* ---------------------------------------------------------------------
     Reading a split
     --------------------------------------------------------------------- */

  /** `os.path.join(directory, name)` for two components: an absolute `name`
      replaces the directory, otherwise a `'/'` separates the two unless the
      directory is empty or already ends with one. */
  function PathJoin(directory: string, name: string): (path: string)
    ensures |name| > 0 && name[0] == '/' ==> path == name
    ensures |name| == 0 || name[0] != '/' ==>
      exists sep :: (sep == "" || sep == "/") && path == directory + sep + name
        && (directory + sep == "" || (directory + sep)[|directory + sep| - 1] == '/')
        && (sep == "/" <==> directory != "" && directory[|directory| - 1] != '/')
  {
    if |name| > 0 && name[0] == '/' then name
    else if directory == "" || directory[|directory| - 1] == '/' then
      assert directory + "" + name == directory + name;
      directory + name
    else
      directory + "/" + name
  }

  /** The number of lines `splitlines()` finds in a file whose only line
      boundary is `'\n'`. */
  function LineCount(contents: string): nat
  {
    Count(contents, '\n') + (if contents == "" || contents[|contents| - 1] == '\n' then 0 else 1)
  }

  /** `_create_examples(input_file, set_type)`: open the file (absent from
      `files` when it does not exist), split it into lines and parse them. On
      success there is one example per line after the first. */
  function ReadExamples(files: map<string, string>, inputFile: string, setType: string): (r: Result<seq<InputExample>, Error>)
    ensures inputFile !in files ==> r == Failure(FileNotFound(inputFile))
    ensures inputFile in files && r.Failure? ==> r.error.MissingLabelSeparator?
    ensures r.Success? ==>
      && inputFile in files
      && |SplitLines(files[inputFile])| == LineCount(files[inputFile])
      && |r.value| == (if LineCount(files[inputFile]) == 0 then 0 else LineCount(files[inputFile]) - 1)
      && forall i :: 0 <= i < |r.value| ==>
           r.value[i].guid == setType + "-" + SplitLines(files[inputFile])[i + 1]
  {
    if inputFile !in files then
      Failure(FileNotFound(inputFile))
    else
      SplitLinesCount(files[inputFile]);
      CreateExamplesGuids(SplitLines(files[inputFile]), setType);
      CreateExamples(SplitLines(files[inputFile]), setType)
  }

  /** The guid of every example is the split tag, `'-'` and its line. */
  lemma CreateExamplesGuids(lines: seq<string>, setType: string)
    ensures CreateExamples(lines, setType).Success? ==>
      forall i :: 0 <= i < |CreateExamples(lines, setType).value| ==>
        CreateExamples(lines, setType).value[i].guid == setType + "-" + lines[i + 1]
  {
  }

  /** Every example carries a label and no second segment, and its guid
      begins with the split tag and `'-'`. */
  predicate Tagged(examples: seq<InputExample>, setType: string)
  {
    forall i :: 0 <= i < |examples| ==>
      && examples[i].classLabel.Some?
      && examples[i].textB.None?
      && setType + "-" <= examples[i].guid
  }

  /** `get_labeled_examples`: `labeled.tsv` under the data directory, tagged
      `train`. */
  function GetLabeledExamples(files: map<string, string>, dataDir: string): (r: Result<seq<InputExample>, Error>)
    ensures PathJoin(dataDir, "labeled.tsv") !in files <==> r.Failure? && r.error.FileNotFound?
    ensures r.Failure? && r.error.FileNotFound? ==> r.error.path == PathJoin(dataDir, "labeled.tsv")
    ensures r.Success? ==> Tagged(r.value, "train")
    ensures PathJoin(dataDir, "labeled.tsv") in files ==>
      r == CreateExamples(SplitLines(files[PathJoin(dataDir, "labeled.tsv")]), "train")
  {
    ReadExamples(files, PathJoin(dataDir, "labeled.tsv"), "train")
  }

  /** `get_unlabeled_examples`: `unlabeled.tsv` under the data directory,
      also tagged `train`; its examples are labelled like any other. */
  function GetUnlabeledExamples(files: map<string, string>, dataDir: string): (r: Result<seq<InputExample>, Error>)
    ensures PathJoin(dataDir, "unlabeled.tsv") !in files <==> r.Failure? && r.error.FileNotFound?
    ensures r.Failure? && r.error.FileNotFound? ==> r.error.path == PathJoin(dataDir, "unlabeled.tsv")
    ensures r.Success? ==> Tagged(r.value, "train")
    ensures PathJoin(dataDir, "unlabeled.tsv") in files ==>
      r == CreateExamples(SplitLines(files[PathJoin(dataDir, "unlabeled.tsv")]), "train")
  {
    ReadExamples(files, PathJoin(dataDir, "unlabeled.tsv"), "train")
  }

  /** `get_test_examples`: `test.tsv` under the data directory, tagged
      `test`; test examples get a label too. */
  function GetTestExamples(files: map<string, string>, dataDir: string): (r: Result<seq<InputExample>, Error>)
    ensures PathJoin(dataDir, "test.tsv") !in files <==> r.Failure? && r.error.FileNotFound?
    ensures r.Failure? && r.error.FileNotFound? ==> r.error.path == PathJoin(dataDir, "test.tsv")
    ensures r.Success? ==> Tagged(r.value, "test")
    ensures PathJoin(dataDir, "test.tsv") in files ==>
      r == CreateExamples(SplitLines(files[PathJoin(dataDir, "test.tsv")]), "test")
  {
    ReadExamples(files, PathJoin(dataDir, "test.tsv"), "test")
  }
}
