/** `transform_file` and `transform_files`: where the normalised copy of a
    vocabulary file and its error report go, and the batch over a directory.

    Paths follow POSIX `os.path`: `basename` keeps what follows the last
    "/", and `join` restarts at an absolute second part and otherwise inserts
    a "/" unless the first part is empty or already ends with one. */
module FileTransform {
  import opened Base
  import opened RowTransform

  /** Name of the subdirectory of the output directory that receives error reports. */
  const ERRORS := "errors"

  /** `os.path.basename(p)` */
  function Basename(p: string): (b: string)
    ensures '/' !in b
    ensures |b| <= |p| && p[|p| - |b|..] == b
  {
    if p == [] || p[|p| - 1] == '/' then ""
    else Basename(p[..|p| - 1]) + [p[|p| - 1]]
  }

  /** The base name is the whole last component: a path longer than its
      base name has a "/" right before it. */
  lemma {:induction false} BasenameIsLastComponent(p: string)
    ensures |Basename(p)| < |p| ==> p[|p| - |Basename(p)| - 1] == '/'
  {
    if p != [] && p[|p| - 1] != '/' {
      var q := p[..|p| - 1];
      BasenameIsLastComponent(q);
      if |Basename(q)| < |q| {
        assert p[|p| - |Basename(p)| - 1] == q[|q| - |Basename(q)| - 1];
      }
    }
  }

  /** `os.path.join(a, b)`: an absolute `b` replaces `a`; otherwise `b`
      follows `a`, after a "/" unless `a` is empty or ends with one. Joining
      onto the empty path gives `b` itself. */
  function PathJoin(a: string, b: string): (r: string)
    ensures a == [] ==> r == b
  {
    if b != [] && b[0] == '/' then b
    else if a == [] || a[|a| - 1] == '/' then a + b
    else a + "/" + b
  }

  /** The shape of a joined path: an absolute `b` replaces `a`; a relative
      `b` ends the path, after `a` and a separator when `a` is not empty. */
  lemma PathJoinShape(a: string, b: string)
    ensures b != [] && b[0] == '/' ==> PathJoin(a, b) == b
    ensures !(b != [] && b[0] == '/') ==> a <= PathJoin(a, b) && EndsWith(PathJoin(a, b), b)
    ensures !(b != [] && b[0] == '/') && a != [] ==> PathJoin(a, b)[|PathJoin(a, b)| - |b| - 1] == '/'
  {
  }

  /** The base name of a path ending in a separator followed by a name without one is that name. */
  lemma {:induction false} BasenameAfterSeparator(dir: string, name: string)
    requires dir == [] || dir[|dir| - 1] == '/'
    requires '/' !in name
    ensures Basename(dir + name) == name
  {
    if name != [] {
      var n := |name| - 1;
      assert (dir + name)[..|dir + name| - 1] == dir + name[..n];
      BasenameAfterSeparator(dir, name[..n]);
      assert name == name[..n] + [name[n]];
    } else {
      assert dir + name == dir;
    }
  }

  /** Joining a name without separators onto any directory keeps that name as the base name. */
  lemma BasenameOfJoin(dir: string, name: string)
    requires '/' !in name
    ensures Basename(PathJoin(dir, name)) == name
  {
    if name != [] && name[0] == '/' {
    } else if dir == [] || dir[|dir| - 1] == '/' {
      BasenameAfterSeparator(dir, name);
    } else {
      assert dir + "/" + name == (dir + "/") + name;
      BasenameAfterSeparator(dir + "/", name);
    }
  }

  /** `out_file_name` of `transform_file`. */
  function OutputPath(filePath: string, outDir: string): string
  {
    PathJoin(outDir, Basename(filePath))
  }

  /** `err_dir` of `transform_file`. */
  function ErrorDir(outDir: string): string
  {
    PathJoin(outDir, ERRORS)
  }

  /** `err_file_name` of `transform_file`. */
  function ErrorPath(filePath: string, outDir: string): string
  {
    PathJoin(ErrorDir(outDir), Basename(filePath))
  }

  /** Joining a relative `b` adds at most one separator. */
  lemma JoinLength(a: string, b: string)
    requires !(b != [] && b[0] == '/')
    ensures |a| + |b| <= |PathJoin(a, b)| <= |a| + 1 + |b|
  {
  }

  /** The error path is longer than the output path. */
  lemma ErrorPathLonger(filePath: string, outDir: string)
    ensures |ErrorPath(filePath, outDir)| > |OutputPath(filePath, outDir)|
  {
    var name := Basename(filePath);
    assert !(name != [] && name[0] == '/') by {
      if name != [] {
        assert name[0] in name;
      }
    }
    JoinLength(outDir, name);
    JoinLength(outDir, ERRORS);
    JoinLength(ErrorDir(outDir), name);
  }

  /** The output file and the error file keep the input file's name, the
      error file sits in the `errors` subdirectory, and the two are never the
      same file (the error path is always the longer), so the two streams a
      transform writes are distinct. */
  lemma TransformPathsSound(filePath: string, outDir: string)
    ensures Basename(OutputPath(filePath, outDir)) == Basename(filePath)
    ensures Basename(ErrorPath(filePath, outDir)) == Basename(filePath)
    ensures Basename(ErrorDir(outDir)) == ERRORS
    ensures |ErrorPath(filePath, outDir)| > |OutputPath(filePath, outDir)|
  {
    BasenameOfJoin(outDir, Basename(filePath));
    BasenameOfJoin(ErrorDir(outDir), Basename(filePath));
    BasenameOfJoin(outDir, ERRORS);
    ErrorPathLonger(filePath, outDir);
  }

  /** What transforming one file leaves behind: the output and error file
      paths and the text written to each, one element per write. */
  datatype TransformedFile = TransformedFile(output: string, errors: string, outputText: seq<string>, errorText: seq<string>)

  /** The result `transform_file` produces for a file whose reader yields
      `records`; none when the file has no header record (the transform raises). */
  function TransformFileResult(filePath: string, outDir: string, records: seq<Record>, delimiter: string, terminator: string)
    : Option<TransformedFile>
  {
    if records == [] then None
    else
      var idxs := DateIndexes(records[0]);
      Some(TransformedFile(OutputPath(filePath, outDir), ErrorPath(filePath, outDir),
                           [RenderRow(records[0], delimiter, terminator)] + RenderAll(Survivors(records[1..], idxs), delimiter, terminator),
                           ErrorMessages(records[1..], idxs)))
  }

  /** Every transformed file starts with its header line, and its output
      lines after the header plus its error messages account for every data
      record. */
  lemma TransformFileAccounts(filePath: string, outDir: string, records: seq<Record>, delimiter: string, terminator: string)
    requires records != []
    ensures TransformFileResult(filePath, outDir, records, delimiter, terminator).Some?
    ensures var t := TransformFileResult(filePath, outDir, records, delimiter, terminator).value;
            t.outputText[0] == RenderRow(records[0], delimiter, terminator)
            && |t.outputText| - 1 + |t.errorText| == |records| - 1
  {
    RowsConserved(records[1..], DateIndexes(records[0]));
  }

  /** `transform_file(file_path, out_dir)`: opens the output and error files
      and runs the transform from the input's records into them. */
  method TransformFile(filePath: string, outDir: string, records: seq<Record>, delimiter: string, terminator: string)
    returns (r: Option<TransformedFile>)
    ensures r == TransformFileResult(filePath, outDir, records, delimiter, terminator)
  {
    var out := new Stream();
    var err := new Stream();
    var ok := TransformCsv(records, delimiter, terminator, out, err);
    if ok {
      ghost var idxs := DateIndexes(records[0]);
      ghost var lines := [RenderRow(records[0], delimiter, terminator)] + RenderAll(Survivors(records[1..], idxs), delimiter, terminator);
      assert out.written == lines by {
        assert [] + [RenderRow(records[0], delimiter, terminator)] == [RenderRow(records[0], delimiter, terminator)];
      }
      assert err.written == ErrorMessages(records[1..], idxs) by {
        assert [] + ErrorMessages(records[1..], idxs) == ErrorMessages(records[1..], idxs);
      }
      r := Some(TransformedFile(OutputPath(filePath, outDir), ErrorPath(filePath, outDir), out.written, err.written));
      assert r == TransformFileResult(filePath, outDir, records, delimiter, terminator);
    } else {
      r := None;
    }
  }

  /** `transform_files(in_dir, out_dir)`: transforms every listed entry in
      listing order; the first file without a header record stops the batch
      (`ok` is false) and the entries after it are not processed. */
  method TransformFiles(inDir: string, entries: seq<string>, outDir: string, contents: map<string, seq<Record>>,
                        delimiter: string, terminator: string)
    returns (done: seq<TransformedFile>, ok: bool)
    requires forall k :: 0 <= k < |entries| ==> PathJoin(inDir, entries[k]) in contents
    ensures |done| <= |entries|
    ensures ok <==> |done| == |entries|
    ensures !ok ==> contents[PathJoin(inDir, entries[|done|])] == []
    ensures forall k :: 0 <= k < |done| ==>
              Some(done[k]) == TransformFileResult(PathJoin(inDir, entries[k]), outDir, contents[PathJoin(inDir, entries[k])], delimiter, terminator)
  {
    done := [];
    var k := 0;
    while k < |entries|
      invariant 0 <= k <= |entries| && |done| == k
      invariant forall j :: 0 <= j < k ==>
                  Some(done[j]) == TransformFileResult(PathJoin(inDir, entries[j]), outDir, contents[PathJoin(inDir, entries[j])], delimiter, terminator)
    {
      var inPath := PathJoin(inDir, entries[k]);
      var r := TransformFile(inPath, outDir, contents[inPath], delimiter, terminator);
      if r.None? {
        return done, false;
      }
      done := done + [r.value];
      k := k + 1;
    }
    ok := true;
  }

  /** Each file of a batch is written under the output directory with the
      name it had in the input directory. */
  lemma BatchKeepsNames(inDir: string, entry: string, outDir: string)
    requires '/' !in entry
    ensures Basename(OutputPath(PathJoin(inDir, entry), outDir)) == entry
    ensures Basename(ErrorPath(PathJoin(inDir, entry), outDir)) == entry
  {
    BasenameOfJoin(inDir, entry);
    TransformPathsSound(PathJoin(inDir, entry), outDir);
  }
}
