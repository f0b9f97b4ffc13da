/** `append_vocabulary` and `append_concepts`: copy a vocabulary or concept
    file line by line, dropping every line in which a reserved vocabulary id
    occurs, then append the study's own rows after the surviving lines.

    A file is the sequence of lines its iteration yields (each keeping its
    "\n", the last possibly without one); the output file is a `Stream`
    receiving one write per line. The reserved ids and their row templates
    are the process-wide `VOCABULARY_UPDATES` mapping, an object whose
    templates `get_aou_vocabulary_row` overwrites in place. */
module Augment {
  import opened Base

  /** Reserved id of the general study vocabulary. */
  const AOU_GEN_ID := "AoU_General"
  /** Reserved id of the custom study vocabulary. */
  const AOU_CUSTOM_ID := "AoU_Custom"

  /** Python truthiness of an optional string: `None` and `""` are false. */
  predicate Truthy(m: Option<string>)
  {
    m.Some? && m.value != ""
  }

  /** The reserved id `ids[k]` is the first of `ids` occurring in `s`. */
  predicate FirstMatchAt(ids: seq<string>, s: string, k: int)
  {
    0 <= k < |ids| && Contains(s, ids[k]) && forall j :: 0 <= j < k ==> !Contains(s, ids[j])
  }

  /** `_vocab_id_match(s)`: the first reserved id, in the mapping's order,
      that occurs in `s` as a substring, or none when no reserved id occurs. */
  function VocabIdMatch(ids: seq<string>, s: string): (r: Option<string>)
    ensures r.Some? ==> exists k :: FirstMatchAt(ids, s, k) && ids[k] == r.value
    ensures r.None? <==> forall k :: 0 <= k < |ids| ==> !Contains(s, ids[k])
  {
    if ids == [] then None
    else if Contains(s, ids[0]) then
      assert FirstMatchAt(ids, s, 0);
      Some(ids[0])
    else
      var r := VocabIdMatch(ids[1..], s);
      if r.Some? then
        var k :| FirstMatchAt(ids[1..], s, k) && ids[1..][k] == r.value;
        assert FirstMatchAt(ids, s, k + 1);
        r
      else
        assert forall k :: 1 <= k < |ids| ==> ids[k] == ids[1..][k - 1];
        r
  }

  /** The augmentors' conflict test `if vocab_id_in_row:`: a reserved id
      occurs in the line and the first one found is not empty. */
  predicate IsConflict(ids: seq<string>, line: string)
  {
    Truthy(VocabIdMatch(ids, line))
  }

  /** With no empty reserved id, a line is a conflict exactly when some
      reserved id occurs in it. */
  lemma ConflictIffSomeIdOccurs(ids: seq<string>, line: string)
    requires forall k :: 0 <= k < |ids| ==> ids[k] != ""
    ensures IsConflict(ids, line) <==> exists k :: 0 <= k < |ids| && Contains(line, ids[k])
  {
    var m := VocabIdMatch(ids, line);
    if m.Some? {
      var k :| FirstMatchAt(ids, line, k) && ids[k] == m.value;
    }
  }

  /** The lines the augmentors copy, in their order. */
  function Kept(ids: seq<string>, lines: seq<string>): seq<string>
  {
    if lines == [] then []
    else
      var last := lines[|lines| - 1];
      Kept(ids, lines[..|lines| - 1]) + (if IsConflict(ids, last) then [] else [last])
  }

  /** The reserved id each warning names, one per dropped line, in order. */
  function Warnings(ids: seq<string>, lines: seq<string>): seq<string>
  {
    if lines == [] then []
    else
      var last := lines[|lines| - 1];
      Warnings(ids, lines[..|lines| - 1]) + (if IsConflict(ids, last) then [VocabIdMatch(ids, last).value] else [])
  }

  /** Every input line is either copied or warned about, never both. */
  lemma {:induction false} LinesConserved(ids: seq<string>, lines: seq<string>)
    ensures |Kept(ids, lines)| + |Warnings(ids, lines)| == |lines|
  {
    if lines != [] {
      LinesConserved(ids, lines[..|lines| - 1]);
    }
  }

  /** Filtering distributes over concatenation, so copied lines keep their order. */
  lemma {:induction false} KeptAppend(ids: seq<string>, a: seq<string>, b: seq<string>)
    ensures Kept(ids, a + b) == Kept(ids, a) + Kept(ids, b)
  {
    if b == [] {
      assert a + b == a;
    } else {
      var n := |b| - 1;
      assert (a + b)[..|a + b| - 1] == a + b[..n];
      assert (a + b)[|a + b| - 1] == b[n];
      KeptAppend(ids, a, b[..n]);
    }
  }

  /** A line is copied exactly when it is an input line that is not a conflict. */
  lemma {:induction false} KeptMembership(ids: seq<string>, lines: seq<string>, line: string)
    ensures line in Kept(ids, lines) <==> line in lines && !IsConflict(ids, line)
  {
    if lines != [] {
      var init := lines[..|lines| - 1];
      KeptMembership(ids, init, line);
      assert lines == init + [lines[|lines| - 1]];
    }
  }

  /** Copied lines are input lines, so they keep whatever every input line has. */
  lemma KeptAreInputLines(ids: seq<string>, lines: seq<string>)
    ensures forall line :: line in Kept(ids, lines) ==> line in lines
  {
    forall line | line in Kept(ids, lines) ensures line in lines {
      KeptMembership(ids, lines, line);
    }
  }

  /** Copied lines of an input whose lines are all terminated are terminated too. */
  lemma KeptTerminated(ids: seq<string>, lines: seq<string>)
    requires forall k :: 0 <= k < |lines| ==> Terminated(lines[k])
    ensures forall k :: 0 <= k < |Kept(ids, lines)| ==> Terminated(Kept(ids, lines)[k])
  {
    KeptAreInputLines(ids, lines);
    forall k | 0 <= k < |Kept(ids, lines)| ensures Terminated(Kept(ids, lines)[k]) {
      assert Kept(ids, lines)[k] in Kept(ids, lines);
    }
  }

  /** Filtering a second time drops nothing more. */
  lemma {:induction false} KeptIdempotent(ids: seq<string>, lines: seq<string>)
    ensures Kept(ids, Kept(ids, lines)) == Kept(ids, lines)
  {
    if lines != [] {
      var init := lines[..|lines| - 1];
      var last := lines[|lines| - 1];
      KeptIdempotent(ids, init);
      KeptAppend(ids, Kept(ids, init), if IsConflict(ids, last) then [] else [last]);
      if !IsConflict(ids, last) {
        assert [last][..0] == [];
      }
    }
  }

  /** With no empty reserved id, no copied line contains any reserved id:
      in the concept output a reserved id can only come from the appended block. */
  lemma KeptFreeOfReservedIds(ids: seq<string>, lines: seq<string>)
    requires forall k :: 0 <= k < |ids| ==> ids[k] != ""
    ensures forall i, k :: 0 <= i < |Kept(ids, lines)| && 0 <= k < |ids| ==> !Contains(Kept(ids, lines)[i], ids[k])
  {
    forall i, k | 0 <= i < |Kept(ids, lines)| && 0 <= k < |ids| ensures !Contains(Kept(ids, lines)[i], ids[k]) {
      var line := Kept(ids, lines)[i];
      KeptMembership(ids, lines, line);
      ConflictIffSomeIdOccurs(ids, line);
    }
  }

  /** `vocab_row[-2] = version`: the second-to-last field of a template
      (the vocabulary version) replaced, every other field kept. */
  function Stamp(template: seq<string>, version: string): (t: seq<string>)
    requires |template| >= 2
    ensures |t| == |template| && t[|t| - 2] == version
    ensures forall i :: 0 <= i < |t| && i != |t| - 2 ==> t[i] == template[i]
  {
    template[|template| - 2 := version]
  }

  /** Stamping twice with the same version is stamping once. */
  lemma StampIdempotent(template: seq<string>, version: string)
    requires |template| >= 2
    ensures Stamp(Stamp(template, version), version) == Stamp(template, version)
  {
  }

  /** The row `get_aou_vocabulary_row` renders for `vocabId`. */
  function VocabularyRow(templates: map<string, seq<string>>, vocabId: string, version: string, delimiter: string): string
    requires vocabId in templates && |templates[vocabId]| >= 2
  {
    Join(Stamp(templates[vocabId], version), delimiter)
  }

  /** Both reserved ids have a template with a version field. */
  predicate HasReservedTemplates(templates: map<string, seq<string>>)
  {
    AOU_GEN_ID in templates && |templates[AOU_GEN_ID]| >= 2
    && AOU_CUSTOM_ID in templates && |templates[AOU_CUSTOM_ID]| >= 2
  }

  /** The templates once `append_vocabulary` has rendered both rows. */
  function Stamped(templates: map<string, seq<string>>, version: string): (s: map<string, seq<string>>)
    requires HasReservedTemplates(templates)
    ensures HasReservedTemplates(s)
  {
    templates[AOU_GEN_ID := Stamp(templates[AOU_GEN_ID], version)]
             [AOU_CUSTOM_ID := Stamp(templates[AOU_CUSTOM_ID], version)]
  }

  /** The writes `append_vocabulary` makes: the copied lines, then the
      general row with a "\n", then the custom row with none. */
  function VocabularyOutput(ids: seq<string>, templates: map<string, seq<string>>, lines: seq<string>,
                            version: string, delimiter: string): seq<string>
    requires HasReservedTemplates(templates)
  {
    Kept(ids, lines)
    + [VocabularyRow(templates, AOU_GEN_ID, version, delimiter) + "\n", VocabularyRow(templates, AOU_CUSTOM_ID, version, delimiter)]
  }

  /** The writes `append_concepts` makes when the custom-concept file can be
      read: the copied lines, then that file's lines without its first one
      when it has a header. */
  function ConceptOutput(ids: seq<string>, lines: seq<string>, customLines: seq<string>, hasHeader: bool): seq<string>
    requires hasHeader ==> customLines != []
  {
    Kept(ids, lines) + (if hasHeader then customLines[1..] else customLines)
  }

  /** The appended concept block is the custom-concept file less exactly one
      line when it has a header, and all of it otherwise. */
  lemma ConceptBlock(ids: seq<string>, lines: seq<string>, customLines: seq<string>, hasHeader: bool)
    requires hasHeader ==> customLines != []
    ensures var out := ConceptOutput(ids, lines, customLines, hasHeader);
            var block := out[|Kept(ids, lines)|..];
            |block| == |customLines| - (if hasHeader then 1 else 0)
            && (hasHeader ==> customLines == [customLines[0]] + block)
            && (!hasHeader ==> block == customLines)
  {
    var out := ConceptOutput(ids, lines, customLines, hasHeader);
    assert out[|Kept(ids, lines)|..] == (if hasHeader then customLines[1..] else customLines);
  }

  /** A template whose first field is its own id and whose fields hold no "\n". */
  predicate SelfNamed(templates: map<string, seq<string>>, vocabId: string)
  {
    vocabId in templates && |templates[vocabId]| == 5 && templates[vocabId][0] == vocabId
    && forall i :: 0 <= i < 5 ==> '\n' !in templates[vocabId][i]
  }

  /** A rendered row holds no "\n" and starts with its id, so the id occurs in it. */
  lemma RenderedRowNamesItself(templates: map<string, seq<string>>, vocabId: string, version: string, delimiter: string)
    requires SelfNamed(templates, vocabId)
    requires '\n' !in version && '\n' !in delimiter
    ensures '\n' !in VocabularyRow(templates, vocabId, version, delimiter)
    ensures Contains(VocabularyRow(templates, vocabId, version, delimiter), vocabId)
    ensures forall tail :: Contains(VocabularyRow(templates, vocabId, version, delimiter) + tail, vocabId)
  {
    var fields := Stamp(templates[vocabId], version);
    JoinAvoids(fields, delimiter, '\n');
    JoinStartsWithFirst(fields, delimiter);
    var row := Join(fields, delimiter);
    forall tail ensures Contains(row + tail, vocabId) {
      assert (row + tail)[..|vocabId|] == row[..|vocabId|];
    }
  }

  /** A rendered row is a conflict line for a later run. */
  lemma RenderedRowIsConflict(ids: seq<string>, templates: map<string, seq<string>>, vocabId: string,
                              version: string, delimiter: string, tail: string)
    requires forall k :: 0 <= k < |ids| ==> ids[k] != ""
    requires vocabId in ids
    requires SelfNamed(templates, vocabId)
    requires '\n' !in version && '\n' !in delimiter
    ensures IsConflict(ids, VocabularyRow(templates, vocabId, version, delimiter) + tail)
  {
    RenderedRowNamesItself(templates, vocabId, version, delimiter);
    var line := VocabularyRow(templates, vocabId, version, delimiter) + tail;
    var k :| 0 <= k < |ids| && ids[k] == vocabId;
    assert Contains(line, ids[k]);
    ConflictIffSomeIdOccurs(ids, line);
  }

  /** What a second run reads back when every input line is terminated:
      the copied lines, the general row with its "\n", and the custom row. */
  lemma TerminatedReRead(ids: seq<string>, templates: map<string, seq<string>>, lines: seq<string>,
                         version: string, delimiter: string)
    requires SelfNamed(templates, AOU_GEN_ID) && SelfNamed(templates, AOU_CUSTOM_ID)
    requires '\n' !in version && '\n' !in delimiter
    requires forall k :: 0 <= k < |lines| ==> Terminated(lines[k])
    ensures var gen := VocabularyRow(templates, AOU_GEN_ID, version, delimiter);
            var custom := VocabularyRow(templates, AOU_CUSTOM_ID, version, delimiter);
            SplitLines(Concat(VocabularyOutput(ids, templates, lines, version, delimiter)))
            == Kept(ids, lines) + [gen + "\n"] + [custom]
  {
    var kept := Kept(ids, lines);
    var gen := VocabularyRow(templates, AOU_GEN_ID, version, delimiter);
    var custom := VocabularyRow(templates, AOU_CUSTOM_ID, version, delimiter);
    RenderedRowNamesItself(templates, AOU_GEN_ID, version, delimiter);
    RenderedRowNamesItself(templates, AOU_CUSTOM_ID, version, delimiter);
    KeptTerminated(ids, lines);
    var body := kept + [gen + "\n"];
    assert Terminated(gen + "\n") by {
      assert (gen + "\n")[..|gen + "\n"| - 1] == gen;
    }
    assert forall k :: 0 <= k < |body| ==> Terminated(body[k]) by {
      forall k | 0 <= k < |body| ensures Terminated(body[k]) {
        if k < |kept| {
          assert body[k] == kept[k];
        }
      }
    }
    assert VocabularyOutput(ids, templates, lines, version, delimiter) == body + [custom];
    ConcatAppend(body, [custom]);
    ConcatOne(custom);
    assert custom != "" by {
      assert Contains(custom, AOU_CUSTOM_ID);
    }
    SplitConcat(body, custom);
  }

  /** A second run over the copied lines of `lines`, one conflict line and
      the custom row, with the stamped templates and the same version,
      writes what the first run over `lines` wrote. */
  lemma ReRunOutput(ids: seq<string>, templates: map<string, seq<string>>, lines: seq<string>,
                    version: string, delimiter: string, genLine: string)
    requires forall k :: 0 <= k < |ids| ==> ids[k] != ""
    requires AOU_CUSTOM_ID in ids
    requires SelfNamed(templates, AOU_GEN_ID) && SelfNamed(templates, AOU_CUSTOM_ID)
    requires '\n' !in version && '\n' !in delimiter
    requires IsConflict(ids, genLine)
    ensures var custom := VocabularyRow(templates, AOU_CUSTOM_ID, version, delimiter);
            VocabularyOutput(ids, Stamped(templates, version), Kept(ids, lines) + [genLine] + [custom], version, delimiter)
            == VocabularyOutput(ids, templates, lines, version, delimiter)
  {
    var custom := VocabularyRow(templates, AOU_CUSTOM_ID, version, delimiter);
    RenderedRowIsConflict(ids, templates, AOU_CUSTOM_ID, version, delimiter, "");
    assert custom + "" == custom;
    KeptDropsConflicts(ids, lines, genLine, custom);
    StampedRowsSame(templates, version, delimiter);
  }

  /** Filtering the copied lines followed by two conflict lines gives the copied lines. */
  lemma KeptDropsConflicts(ids: seq<string>, lines: seq<string>, a: string, b: string)
    requires IsConflict(ids, a) && IsConflict(ids, b)
    ensures Kept(ids, Kept(ids, lines) + [a] + [b]) == Kept(ids, lines)
  {
    var kept := Kept(ids, lines);
    KeptAppend(ids, kept + [a], [b]);
    KeptAppend(ids, kept, [a]);
    assert [a][..0] == [] && [b][..0] == [];
    KeptIdempotent(ids, lines);
  }

  /** Rows rendered from the stamped templates with the same version are the same rows. */
  lemma StampedRowsSame(templates: map<string, seq<string>>, version: string, delimiter: string)
    requires HasReservedTemplates(templates)
    ensures VocabularyRow(Stamped(templates, version), AOU_GEN_ID, version, delimiter)
            == VocabularyRow(templates, AOU_GEN_ID, version, delimiter)
    ensures VocabularyRow(Stamped(templates, version), AOU_CUSTOM_ID, version, delimiter)
            == VocabularyRow(templates, AOU_CUSTOM_ID, version, delimiter)
  {
    StampIdempotent(templates[AOU_GEN_ID], version);
    StampIdempotent(templates[AOU_CUSTOM_ID], version);
  }

  /** Running `append_vocabulary` on its own output, with the templates it
      left stamped and the same version, writes the same lines again: the
      two rows it appended are dropped as conflicts and rendered anew. This
      needs every input line terminated, which a file ending in "\n" gives. */
  lemma VocabularyFixedPoint(ids: seq<string>, templates: map<string, seq<string>>, lines: seq<string>,
                             version: string, delimiter: string)
    requires forall k :: 0 <= k < |ids| ==> ids[k] != ""
    requires AOU_GEN_ID in ids && AOU_CUSTOM_ID in ids
    requires SelfNamed(templates, AOU_GEN_ID) && SelfNamed(templates, AOU_CUSTOM_ID)
    requires '\n' !in version && '\n' !in delimiter
    requires forall k :: 0 <= k < |lines| ==> Terminated(lines[k])
    ensures var first := VocabularyOutput(ids, templates, lines, version, delimiter);
            VocabularyOutput(ids, Stamped(templates, version), SplitLines(Concat(first)), version, delimiter) == first
  {
    TerminatedReRead(ids, templates, lines, version, delimiter);
    RenderedRowIsConflict(ids, templates, AOU_GEN_ID, version, delimiter, "\n");
    ReRunOutput(ids, templates, lines, version, delimiter, VocabularyRow(templates, AOU_GEN_ID, version, delimiter) + "\n");
  }

  /** When the last copied line has no terminator, the general row does not
      start a line of its own: it is written right after that line's last
      character, which is not "\n". */
  lemma GeneralRowGlued(ids: seq<string>, templates: map<string, seq<string>>, lines: seq<string>,
                        version: string, delimiter: string)
    requires HasReservedTemplates(templates)
    requires Kept(ids, lines) != []
    requires var last := Kept(ids, lines)[|Kept(ids, lines)| - 1]; last != "" && last[|last| - 1] != '\n'
    ensures var text := Concat(VocabularyOutput(ids, templates, lines, version, delimiter));
            var p := |Concat(Kept(ids, lines))|;
            var gen := VocabularyRow(templates, AOU_GEN_ID, version, delimiter);
            0 < p && p + |gen| <= |text| && text[p - 1] != '\n' && text[p..p + |gen|] == gen
  {
    var kept := Kept(ids, lines);
    var init := kept[..|kept| - 1];
    var last := kept[|kept| - 1];
    var gen := VocabularyRow(templates, AOU_GEN_ID, version, delimiter);
    var custom := VocabularyRow(templates, AOU_CUSTOM_ID, version, delimiter);
    var tail := [gen + "\n", custom];
    ConcatAppend(kept, tail);
    ConcatAppend(init, [last]);
    assert kept == init + [last];
    assert Concat([last]) == last;
    assert tail[1..] == [custom] && [custom][1..] == [];
    assert Concat(tail) == gen + "\n" + custom;
    var text := Concat(kept + tail);
    assert text == Concat(init) + last + (gen + "\n" + custom);
  }

  /** The text of copied lines, a last line `x`, the general row with its
      "\n" and the custom row is that of the copied lines and one line `x`
      plus the general row, followed by the custom row. */
  lemma ConcatGlued(kept: seq<string>, x: string, gen: string, custom: string)
    ensures Concat(kept + [x, gen + "\n", custom]) == Concat(kept + [x + gen + "\n"]) + custom
  {
    var g := gen + "\n";
    var glued := x + gen + "\n";
    var prefix := Concat(kept);
    ConcatAppend(kept, [x, g, custom]);
    ConcatThree(x, g, custom);
    ConcatAppend(kept, [glued]);
    ConcatOne(glued);
    assert glued == x + g;
    assert prefix + (x + (g + custom)) == (prefix + (x + g)) + custom;
  }

  /** What a second run reads back when the input's last line `x` has no
      terminator and is kept: the copied earlier lines, then `x` with the
      general row glued on as one line, then the custom row. */
  lemma GluedReRead(ids: seq<string>, templates: map<string, seq<string>>, lines: seq<string>,
                    version: string, delimiter: string)
    requires SelfNamed(templates, AOU_GEN_ID) && SelfNamed(templates, AOU_CUSTOM_ID)
    requires '\n' !in version && '\n' !in delimiter
    requires lines != []
    requires forall k :: 0 <= k < |lines| - 1 ==> Terminated(lines[k])
    requires var x := lines[|lines| - 1]; '\n' !in x && !IsConflict(ids, x)
    ensures var x := lines[|lines| - 1];
            var gen := VocabularyRow(templates, AOU_GEN_ID, version, delimiter);
            var custom := VocabularyRow(templates, AOU_CUSTOM_ID, version, delimiter);
            SplitLines(Concat(VocabularyOutput(ids, templates, lines, version, delimiter)))
            == Kept(ids, lines[..|lines| - 1]) + [x + gen + "\n"] + [custom]
  {
    var n := |lines| - 1;
    var init := lines[..n];
    var x := lines[n];
    var keptInit := Kept(ids, init);
    var gen := VocabularyRow(templates, AOU_GEN_ID, version, delimiter);
    var custom := VocabularyRow(templates, AOU_CUSTOM_ID, version, delimiter);
    assert Kept(ids, lines) == keptInit + [x];
    RenderedRowNamesItself(templates, AOU_GEN_ID, version, delimiter);
    RenderedRowNamesItself(templates, AOU_CUSTOM_ID, version, delimiter);
    var glued := x + gen + "\n";
    assert Terminated(glued) by {
      assert glued[..|glued| - 1] == x + gen;
    }
    KeptTerminated(ids, init);
    var body := keptInit + [glued];
    assert forall k :: 0 <= k < |body| ==> Terminated(body[k]) by {
      forall k | 0 <= k < |body| ensures Terminated(body[k]) {
        if k < |keptInit| {
          assert body[k] == keptInit[k];
        }
      }
    }
    assert VocabularyOutput(ids, templates, lines, version, delimiter) == keptInit + [x, gen + "\n", custom];
    ConcatGlued(keptInit, x, gen, custom);
    assert custom != "" by {
      assert Contains(custom, AOU_CUSTOM_ID);
    }
    SplitConcat(body, custom);
  }

  /** A last input line without a terminator is lost on a second run: the
      re-read glues the general row onto it, that line is then a conflict,
      and the second run writes what the first run writes for the input
      without its last line. */
  lemma UnterminatedLastLineLost(ids: seq<string>, templates: map<string, seq<string>>, lines: seq<string>,
                                 version: string, delimiter: string)
    requires forall k :: 0 <= k < |ids| ==> ids[k] != ""
    requires AOU_GEN_ID in ids && AOU_CUSTOM_ID in ids
    requires SelfNamed(templates, AOU_GEN_ID) && SelfNamed(templates, AOU_CUSTOM_ID)
    requires '\n' !in version && '\n' !in delimiter
    requires lines != []
    requires forall k :: 0 <= k < |lines| - 1 ==> Terminated(lines[k])
    requires var x := lines[|lines| - 1]; '\n' !in x && !IsConflict(ids, x)
    ensures var first := VocabularyOutput(ids, templates, lines, version, delimiter);
            VocabularyOutput(ids, Stamped(templates, version), SplitLines(Concat(first)), version, delimiter)
            == VocabularyOutput(ids, templates, lines[..|lines| - 1], version, delimiter)
  {
    var n := |lines| - 1;
    var init := lines[..n];
    var x := lines[n];
    var gen := VocabularyRow(templates, AOU_GEN_ID, version, delimiter);
    GluedReRead(ids, templates, lines, version, delimiter);
    RenderedRowNamesItself(templates, AOU_GEN_ID, version, delimiter);
    ContainsInConcat(x, gen + "\n", AOU_GEN_ID);
    assert x + gen + "\n" == x + (gen + "\n");
    var k :| 0 <= k < |ids| && ids[k] == AOU_GEN_ID;
    ConflictIffSomeIdOccurs(ids, x + gen + "\n");
    ReRunOutput(ids, templates, init, version, delimiter, x + gen + "\n");
  }

  /** `VOCABULARY_UPDATES`: the reserved ids in the mapping's iteration
      order, and the row template of each. */
  class VocabularyUpdates {
    var ids: seq<string>
    var templates: map<string, seq<string>>

    /** The ids are exactly the template keys, each listed once. */
    ghost predicate Valid()
      reads this
    {
      (forall k :: 0 <= k < |ids| ==> ids[k] in templates)
      && (forall x :: x in templates ==> x in ids)
      && (forall j, k :: 0 <= j < k < |ids| ==> ids[j] != ids[k])
    }

    constructor (ids: seq<string>, templates: map<string, seq<string>>)
      requires forall x :: x in templates <==> x in ids
      requires forall j, k :: 0 <= j < k < |ids| ==> ids[j] != ids[k]
      ensures Valid()
      ensures this.ids == ids && this.templates == templates
    {
      this.ids := ids;
      this.templates := templates;
    }

    /** `get_aou_vocabulary_row(vocab_id)`: stamps the version into the
        id's template, keeping the stamped template, and returns it joined
        by the delimiter. */
    method RowFor(vocabId: string, version: string, delimiter: string) returns (row: string)
      requires Valid()
      requires vocabId in templates && |templates[vocabId]| >= 2
      modifies this
      ensures Valid()
      ensures ids == old(ids)
      ensures templates == old(templates)[vocabId := Stamp(old(templates)[vocabId], version)]
      ensures row == VocabularyRow(old(templates), vocabId, version, delimiter)
      ensures row == Join(templates[vocabId], delimiter)
    {
      var template := templates[vocabId];
      template := template[|template| - 2 := version];
      templates := templates[vocabId := template];
      row := Join(template, delimiter);
    }
  }

  /** The copying loop both augmentors share: each line in which a reserved
      id is found is warned about, every other line is written unchanged. */
  method CopyUnlessConflict(ids: seq<string>, lines: seq<string>, out: Stream) returns (warnings: seq<string>)
    modifies out
    ensures warnings == Warnings(ids, lines)
    ensures out.written == old(out.written) + Kept(ids, lines)
  {
    warnings := [];
    var i := 0;
    while i < |lines|
      invariant 0 <= i <= |lines|
      invariant out.written == old(out.written) + Kept(ids, lines[..i])
      invariant warnings == Warnings(ids, lines[..i])
    {
      var line := lines[i];
      assert lines[..i + 1][..i] == lines[..i];
      var found := VocabIdMatch(ids, line);
      if Truthy(found) {
        warnings := warnings + [found.value];
      } else {
        out.Write(line);
      }
      i := i + 1;
    }
    assert lines[..i] == lines;
  }

  /** `append_vocabulary(in_path, out_path)` over the lines of the input
      file: renders the general and the custom row, copies every line that
      is not a conflict and warns about every one that is, then writes the
      general row with a "\n" and the custom row without. */
  method AppendVocabulary(updates: VocabularyUpdates, lines: seq<string>, version: string, delimiter: string, out: Stream)
    returns (warnings: seq<string>)
    requires updates.Valid() && HasReservedTemplates(updates.templates)
    modifies updates, out
    ensures updates.Valid()
    ensures updates.ids == old(updates.ids)
    ensures updates.templates == Stamped(old(updates.templates), version)
    ensures warnings == Warnings(updates.ids, lines)
    ensures out.written == old(out.written) + VocabularyOutput(updates.ids, old(updates.templates), lines, version, delimiter)
  {
    ghost var templates := updates.templates;
    var generalRow := updates.RowFor(AOU_GEN_ID, version, delimiter);
    var customRow := updates.RowFor(AOU_CUSTOM_ID, version, delimiter);
    assert customRow == VocabularyRow(templates, AOU_CUSTOM_ID, version, delimiter);
    warnings := CopyUnlessConflict(updates.ids, lines, out);
    out.Write(generalRow + "\n");
    out.Write(customRow);
  }

  /** `append_concepts(in_path, out_path)` over the lines of the input file
      and of the custom-concept file, `hasHeader` being what the header
      heuristic said about the latter: copies every line that is not a
      conflict and warns about every one that is, then copies the
      custom-concept lines, skipping the first when there is a header.
      A header claimed for an empty custom-concept file makes skipping it
      fail (`ok` is false) once the copied lines are written. */
  method AppendConcepts(ids: seq<string>, lines: seq<string>, customLines: seq<string>, hasHeader: bool, out: Stream)
    returns (warnings: seq<string>, ok: bool)
    modifies out
    ensures warnings == Warnings(ids, lines)
    ensures ok <==> !(hasHeader && customLines == [])
    ensures ok ==> out.written == old(out.written) + ConceptOutput(ids, lines, customLines, hasHeader)
    ensures !ok ==> out.written == old(out.written) + Kept(ids, lines)
  {
    warnings := CopyUnlessConflict(ids, lines, out);
    ghost var copied := out.written;
    var j := 0;
    if hasHeader {
      if customLines == [] {
        return warnings, false;
      }
      j := 1;
    }
    ghost var first := j;
    while j < |customLines|
      invariant first <= j <= |customLines|
      invariant out.written == copied + customLines[first..j]
    {
      assert customLines[first..j + 1] == customLines[first..j] + [customLines[j]];
      out.Write(customLines[j]);
      j := j + 1;
    }
    assert customLines[first..] == (if hasHeader then customLines[1..] else customLines);
    ok := true;
  }
}
