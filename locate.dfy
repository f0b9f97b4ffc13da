/** `add_aou_vocabs(in_dir, out_dir)`: finds the concept and the vocabulary
    file among a directory's entries by their lower-cased name without
    extension, fails before writing anything when either is missing, and
    otherwise augments the concept file and then the vocabulary file into
    the output directory under their original names. The directory listing
    and the contents of the files are inputs. */
module Locate {
  import opened Base
  import opened FileTransform
  import opened Augment

  /** Table name of the concept file. */
  const CONCEPT := "concept"
  /** Table name of the vocabulary file. */
  const VOCABULARY := "vocabulary"

  /** `str.lower` on one character, for the ASCII letters. */
  function LowerChar(c: char): (d: char)
    ensures 'A' <= c <= 'Z' ==> d as int == c as int + 32
    ensures !('A' <= c <= 'Z') ==> d == c
  {
    if 'A' <= c <= 'Z' then (c as int + 32) as char else c
  }

  /** `s.lower()` */
  function Lower(s: string): (t: string)
    ensures |t| == |s| && forall i :: 0 <= i < |s| ==> t[i] == LowerChar(s[i])
  {
    if s == [] then [] else [LowerChar(s[0])] + Lower(s[1..])
  }

  /** Index of the last `c` in `s`, or -1: Python's `s.rfind(c)`. */
  function LastIndexOf(s: string, c: char): (i: int)
    ensures -1 <= i < |s|
    ensures 0 <= i ==> s[i] == c
    ensures forall j :: i < j < |s| ==> s[j] != c
  {
    if s == [] then -1
    else if s[|s| - 1] == c then |s| - 1
    else LastIndexOf(s[..|s| - 1], c)
  }

  /** Some character strictly between positions `lo` and `hi` of `s` is not a dot. */
  predicate NonDotBetween(s: string, lo: int, hi: int)
    requires -1 <= lo && hi <= |s|
  {
    exists j :: lo < j < hi && s[j] != '.'
  }

  /** `os.path.splitext(p)[0]` on POSIX: the path up to its last dot, when
      that dot comes after the last "/" and is not part of the leading dots
      of the final name; the whole path otherwise. */
  function SplitExtRoot(p: string): (root: string)
    ensures root <= p
    ensures root != p ==> p[|root|] == '.' && '.' !in p[|root| + 1..] && '/' !in p[|root|..]
  {
    var sepIndex := LastIndexOf(p, '/');
    var dotIndex := LastIndexOf(p, '.');
    if dotIndex > sepIndex && NonDotBetween(p, sepIndex, dotIndex) then p[..dotIndex] else p
  }

  /** `table_name` of an entry: its lower-cased name without extension.
      It holds no upper-case letter, and what is cut off starts with a dot
      and holds no other dot. */
  function TableName(fileName: string): (t: string)
    ensures t <= Lower(fileName)
    ensures forall i :: 0 <= i < |t| ==> !('A' <= t[i] <= 'Z')
    ensures t != Lower(fileName) ==> Lower(fileName)[|t|] == '.' && '.' !in Lower(fileName)[|t| + 1..]
  {
    SplitExtRoot(Lower(fileName))
  }

  /** Lower-casing twice is lower-casing once. */
  lemma {:induction false} LowerIdempotent(s: string)
    ensures Lower(Lower(s)) == Lower(s)
  {
    if s != [] {
      LowerIdempotent(s[1..]);
      assert Lower(s)[1..] == Lower(s[1..]);
    }
  }

  /** Names differing only in letter case have the same table name. */
  lemma TableNameIgnoresCase(fileName: string)
    ensures TableName(Lower(fileName)) == TableName(fileName)
  {
    LowerIdempotent(fileName);
  }

  /** The last `c` in `s` is at `i` when `s[i]` is one and none follows. */
  lemma LastIndexOfAt(s: string, c: char, i: int)
    requires 0 <= i < |s| && s[i] == c
    requires forall j :: i < j < |s| ==> s[j] != c
    ensures LastIndexOf(s, c) == i
  {
  }

  /** `splitext` cuts a root with a non-dot character off its last extension. */
  lemma SplitExtOfRootAndExtension(root: string, ext: string)
    requires '/' !in root && '/' !in ext && '.' !in ext
    requires exists j :: 0 <= j < |root| && root[j] != '.'
    ensures SplitExtRoot(root + "." + ext) == root
  {
    var p := root + "." + ext;
    var dot := |root|;
    assert p[..dot] == root && p[dot + 1..] == ext;
    forall j | dot < j < |p| ensures p[j] != '.' {
      assert p[j] == p[dot + 1..][j - dot - 1];
    }
    LastIndexOfAt(p, '.', dot);
    assert '/' !in p by {
      assert p == root + ("." + ext);
    }
    assert LastIndexOf(p, '/') == -1;
    var k :| 0 <= k < |root| && root[k] != '.';
    assert p[k] == root[k];
    assert NonDotBetween(p, -1, dot);
  }

  /** A name whose lower-cased form is a root with a non-dot character,
      a dot and an extension without dots names the table `root`. */
  lemma ExtensionStripped(fileName: string, root: string, ext: string)
    requires Lower(fileName) == root + "." + ext
    requires '/' !in root && '/' !in ext && '.' !in ext
    requires exists j :: 0 <= j < |root| && root[j] != '.'
    ensures TableName(fileName) == root
  {
    SplitExtOfRootAndExtension(root, ext);
  }

  /** `fileNames[k]` is the last listed entry whose table name is `table`. */
  predicate LastMatchAt(fileNames: seq<string>, table: string, k: int)
  {
    0 <= k < |fileNames| && TableName(fileNames[k]) == table
    && forall j :: k < j < |fileNames| ==> TableName(fileNames[j]) != table
  }

  /** An entry that does not match keeps the last match where it was. */
  lemma LastMatchAtExtend(fileNames: seq<string>, table: string, k: int)
    requires fileNames != []
    requires LastMatchAt(fileNames[..|fileNames| - 1], table, k)
    requires TableName(fileNames[|fileNames| - 1]) != table
    ensures LastMatchAt(fileNames, table, k)
  {
    var n := |fileNames| - 1;
    assert fileNames[k] == fileNames[..n][k];
    forall j | k < j < |fileNames| ensures TableName(fileNames[j]) != table {
      if j < n {
        assert fileNames[j] == fileNames[..n][j];
      }
    }
  }

  /** What the search found among the first `n` entries stays what it finds
      when the last entry, listed after them, does not match. */
  lemma LastMatchStep(inDir: string, fileNames: seq<string>, n: nat, table: string, r: Option<string>)
    requires n + 1 == |fileNames| && TableName(fileNames[n]) != table
    requires r.None? <==> forall k :: 0 <= k < |fileNames[..n]| ==> TableName(fileNames[..n][k]) != table
    requires r.Some? ==> exists k :: LastMatchAt(fileNames[..n], table, k) && r.value == PathJoin(inDir, fileNames[..n][k])
    ensures r.None? <==> forall k :: 0 <= k < |fileNames| ==> TableName(fileNames[k]) != table
    ensures r.Some? ==> exists k :: LastMatchAt(fileNames, table, k) && r.value == PathJoin(inDir, fileNames[k])
  {
    if r.Some? {
      var k :| LastMatchAt(fileNames[..n], table, k) && r.value == PathJoin(inDir, fileNames[..n][k]);
      assert fileNames[..n][k] == fileNames[k];
      LastMatchAtExtend(fileNames, table, k);
    } else {
      forall k | 0 <= k < n ensures TableName(fileNames[k]) != table {
        assert fileNames[..n][k] == fileNames[k];
      }
    }
  }

  /** Path of the last listed entry whose table name is `table`, joined onto
      the directory: the loop's `concept_in_path` or `vocabulary_in_path`. */
  function LastMatch(inDir: string, fileNames: seq<string>, table: string): (r: Option<string>)
    ensures r.None? <==> forall k :: 0 <= k < |fileNames| ==> TableName(fileNames[k]) != table
    ensures r.Some? ==> exists k :: LastMatchAt(fileNames, table, k) && r.value == PathJoin(inDir, fileNames[k])
  {
    if fileNames == [] then None
    else
      var n := |fileNames| - 1;
      if TableName(fileNames[n]) == table then
        assert LastMatchAt(fileNames, table, n);
        Some(PathJoin(inDir, fileNames[n]))
      else
        var r := LastMatch(inDir, fileNames[..n], table);
        LastMatchStep(inDir, fileNames, n, table, r);
        r
  }

  /** A later match replaces an earlier one. */
  lemma LastMatchWins(inDir: string, fileNames: seq<string>, name: string, later: seq<string>, table: string)
    requires TableName(name) == table
    requires forall k :: 0 <= k < |later| ==> TableName(later[k]) != table
    ensures LastMatch(inDir, fileNames + [name] + later, table) == Some(PathJoin(inDir, name))
  {
    var all := fileNames + [name] + later;
    assert all[|fileNames|] == name;
    var r := LastMatch(inDir, all, table);
    var k :| LastMatchAt(all, table, k) && r.value == PathJoin(inDir, all[k]);
    if k != |fileNames| {
      assert false;
    }
  }

  /** File names and wording of the `IOError` for a missing file. */
  const CONCEPT_FILE := "CONCEPT.csv"
  const VOCABULARY_FILE := "VOCABULARY.csv"
  const NOT_FOUND_IN := " was not found in "

  /** Why `add_aou_vocabs` stops. */
  datatype AddError =
    | ConceptNotFound(inDir: string)
    | VocabularyNotFound(inDir: string)
      /** The header of an empty custom-concept file could not be skipped;
          the concept output already holds the copied lines. */
    | CustomHeaderMissing(conceptOut: string, written: seq<string>)
  {
    /** The `IOError` text for a missing file. */
    function Message(): string
    {
      match this
      case ConceptNotFound(d) => CONCEPT_FILE + NOT_FOUND_IN + d
      case VocabularyNotFound(d) => VOCABULARY_FILE + NOT_FOUND_IN + d
      case CustomHeaderMissing(_, _) => ""
    }
  }

  /** The input paths of the two files to augment. */
  datatype Located = Located(concept: string, vocabulary: string)

  /** The search over the listing, with its failures: the concept file is
      looked for first. */
  function Locate(inDir: string, fileNames: seq<string>): (r: Result<Located, AddError>)
    ensures r == Err(ConceptNotFound(inDir)) <==> forall k :: 0 <= k < |fileNames| ==> TableName(fileNames[k]) != CONCEPT
    ensures r == Err(VocabularyNotFound(inDir)) <==>
              (exists k :: 0 <= k < |fileNames| && TableName(fileNames[k]) == CONCEPT)
              && forall k :: 0 <= k < |fileNames| ==> TableName(fileNames[k]) != VOCABULARY
    ensures r.Ok? ==> Some(r.value.concept) == LastMatch(inDir, fileNames, CONCEPT)
                      && Some(r.value.vocabulary) == LastMatch(inDir, fileNames, VOCABULARY)
    ensures r.Err? ==> r.error.Message() == (if r.error.ConceptNotFound? then CONCEPT_FILE else VOCABULARY_FILE) + NOT_FOUND_IN + inDir
  {
    var concept := LastMatch(inDir, fileNames, CONCEPT);
    var vocabulary := LastMatch(inDir, fileNames, VOCABULARY);
    if concept.None? then Err(ConceptNotFound(inDir))
    else if vocabulary.None? then Err(VocabularyNotFound(inDir))
    else Ok(Located(concept.value, vocabulary.value))
  }

  /** The two augmented files: where each is written, the writes it
      receives, and the reserved ids warned about. */
  datatype Augmented = Augmented(conceptOut: string, conceptText: seq<string>, conceptWarnings: seq<string>,
                                 vocabularyOut: string, vocabularyText: seq<string>, vocabularyWarnings: seq<string>)

  /** Output path of an augmented file: the output directory joined with the input's base name. */
  function AugmentedPath(outDir: string, inPath: string): string
  {
    PathJoin(outDir, Basename(inPath))
  }

  /** A listed entry is written under the output directory with its own name. */
  lemma AugmentedKeepsName(inDir: string, outDir: string, fileName: string)
    requires '/' !in fileName
    ensures Basename(AugmentedPath(outDir, PathJoin(inDir, fileName))) == fileName
  {
    BasenameOfJoin(inDir, fileName);
    BasenameOfJoin(outDir, fileName);
  }

  /** The search loop of `add_aou_vocabs`: every entry whose table name is
      `concept` or `vocabulary` replaces the path found so far. */
  method FindTables(inDir: string, fileNames: seq<string>) returns (conceptInPath: Option<string>, vocabularyInPath: Option<string>)
    ensures conceptInPath == LastMatch(inDir, fileNames, CONCEPT)
    ensures vocabularyInPath == LastMatch(inDir, fileNames, VOCABULARY)
  {
    conceptInPath := None;
    vocabularyInPath := None;
    var i := 0;
    while i < |fileNames|
      invariant 0 <= i <= |fileNames|
      invariant conceptInPath == LastMatch(inDir, fileNames[..i], CONCEPT)
      invariant vocabularyInPath == LastMatch(inDir, fileNames[..i], VOCABULARY)
    {
      var tableName := TableName(fileNames[i]);
      var inPath := PathJoin(inDir, fileNames[i]);
      assert fileNames[..i + 1][..i] == fileNames[..i];
      if tableName == CONCEPT {
        conceptInPath := Some(inPath);
      } else if tableName == VOCABULARY {
        vocabularyInPath := Some(inPath);
      }
      i := i + 1;
    }
    assert fileNames[..i] == fileNames;
  }

  /** `add_aou_vocabs(in_dir, out_dir)` over the directory listing
      `fileNames` and the file contents `files` (lines by path);
      `customLines` and `hasHeader` are the custom-concept file and the
      header heuristic's verdict on it, `version` the directory hash. */
  method AddAouVocabs(updates: VocabularyUpdates, inDir: string, fileNames: seq<string>, outDir: string,
                      files: map<string, seq<string>>, customLines: seq<string>, hasHeader: bool,
                      version: string, delimiter: string)
    returns (r: Result<Augmented, AddError>)
    requires updates.Valid() && HasReservedTemplates(updates.templates)
    requires forall k :: 0 <= k < |fileNames| ==> PathJoin(inDir, fileNames[k]) in files
    modifies updates
    ensures updates.Valid() && updates.ids == old(updates.ids)
    ensures Locate(inDir, fileNames).Err? ==>
              r == Err(Locate(inDir, fileNames).error) && updates.templates == old(updates.templates)
    ensures Locate(inDir, fileNames).Ok? && hasHeader && customLines == [] ==>
              var found := Locate(inDir, fileNames).value;
              found.concept in files
              && r == Err(CustomHeaderMissing(AugmentedPath(outDir, found.concept), Kept(updates.ids, files[found.concept])))
              && updates.templates == old(updates.templates)
    ensures Locate(inDir, fileNames).Ok? && !(hasHeader && customLines == []) ==>
              var found := Locate(inDir, fileNames).value;
              found.concept in files && found.vocabulary in files
              && r == Ok(Augmented(AugmentedPath(outDir, found.concept),
                                   ConceptOutput(updates.ids, files[found.concept], customLines, hasHeader),
                                   Warnings(updates.ids, files[found.concept]),
                                   AugmentedPath(outDir, found.vocabulary),
                                   VocabularyOutput(updates.ids, old(updates.templates), files[found.vocabulary], version, delimiter),
                                   Warnings(updates.ids, files[found.vocabulary])))
              && updates.templates == Stamped(old(updates.templates), version)
  {
    var conceptInPath, vocabularyInPath := FindTables(inDir, fileNames);
    if conceptInPath.None? {
      return Err(ConceptNotFound(inDir));
    }
    if vocabularyInPath.None? {
      return Err(VocabularyNotFound(inDir));
    }
    var conceptPath := conceptInPath.value;
    var vocabularyPath := vocabularyInPath.value;
    assert Locate(inDir, fileNames) == Ok(Located(conceptPath, vocabularyPath));
    LocatedInListing(inDir, fileNames, CONCEPT);
    LocatedInListing(inDir, fileNames, VOCABULARY);
    assert conceptPath in files && vocabularyPath in files;

    r := AugmentLocated(updates, conceptPath, files[conceptPath], vocabularyPath, files[vocabularyPath],
                        outDir, customLines, hasHeader, version, delimiter);
  }

  /** The writing half of `add_aou_vocabs`, once both files are found:
      the concept file is augmented first, and the vocabulary file only
      when that succeeded. */
  method AugmentLocated(updates: VocabularyUpdates, conceptPath: string, conceptLines: seq<string>,
                        vocabularyPath: string, vocabularyLines: seq<string>, outDir: string,
                        customLines: seq<string>, hasHeader: bool, version: string, delimiter: string)
    returns (r: Result<Augmented, AddError>)
    requires updates.Valid() && HasReservedTemplates(updates.templates)
    modifies updates
    ensures updates.Valid() && updates.ids == old(updates.ids)
    ensures hasHeader && customLines == [] ==>
              r == Err(CustomHeaderMissing(AugmentedPath(outDir, conceptPath), Kept(updates.ids, conceptLines)))
              && updates.templates == old(updates.templates)
    ensures !(hasHeader && customLines == []) ==>
              r == Ok(Augmented(AugmentedPath(outDir, conceptPath),
                                ConceptOutput(updates.ids, conceptLines, customLines, hasHeader),
                                Warnings(updates.ids, conceptLines),
                                AugmentedPath(outDir, vocabularyPath),
                                VocabularyOutput(updates.ids, old(updates.templates), vocabularyLines, version, delimiter),
                                Warnings(updates.ids, vocabularyLines)))
              && updates.templates == Stamped(old(updates.templates), version)
  {
    var conceptOutPath := PathJoin(outDir, Basename(conceptPath));
    var conceptOut := new Stream();
    var conceptWarnings, ok := AppendConcepts(updates.ids, conceptLines, customLines, hasHeader, conceptOut);
    assert updates.ids == old(updates.ids) && updates.templates == old(updates.templates);
    if !ok {
      assert conceptOut.written == Kept(updates.ids, conceptLines);
      return Err(CustomHeaderMissing(conceptOutPath, conceptOut.written));
    }
    var conceptText := conceptOut.written;
    assert conceptText == ConceptOutput(updates.ids, conceptLines, customLines, hasHeader);

    var vocabularyOutPath := PathJoin(outDir, Basename(vocabularyPath));
    var vocabularyOut := new Stream();
    var vocabularyWarnings := AppendVocabulary(updates, vocabularyLines, version, delimiter, vocabularyOut);
    assert vocabularyOut.written == VocabularyOutput(updates.ids, old(updates.templates), vocabularyLines, version, delimiter);
    r := Ok(Augmented(conceptOutPath, conceptText, conceptWarnings,
                      vocabularyOutPath, vocabularyOut.written, vocabularyWarnings));
  }

  /** A located path is one of the listed entries joined onto the directory. */
  lemma LocatedInListing(inDir: string, fileNames: seq<string>, table: string)
    requires LastMatch(inDir, fileNames, table).Some?
    ensures exists k :: 0 <= k < |fileNames| && LastMatch(inDir, fileNames, table).value == PathJoin(inDir, fileNames[k])
  {
  }
}
