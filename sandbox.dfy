/** Naming of the sandbox dataset that holds the rows a cleaning rule
    affects, and of the rule's table in it; and the check-then-create step
    against the project's datasets, which are kept as a set of ids. */
module Sandbox {

  /** Suffix that names a dataset's sandbox. */
  const SANDBOX_SUFFIX := "sandbox"

  /** `get_sandbox_dataset_id(dataset_id)`: the dataset id, "_" and the suffix. */
  function SandboxDatasetId(datasetId: string): (s: string)
    ensures |s| == |datasetId| + 1 + |SANDBOX_SUFFIX|
    ensures s[..|datasetId|] == datasetId && s[|datasetId|..] == "_" + SANDBOX_SUFFIX
  {
    datasetId + "_" + SANDBOX_SUFFIX
  }

  /** Different datasets have different sandboxes. */
  lemma SandboxDatasetIdInjective(a: string, b: string)
    requires SandboxDatasetId(a) == SandboxDatasetId(b)
    ensures a == b
  {
    assert |a| == |b|;
    assert a == SandboxDatasetId(a)[..|a|];
  }

  /** A word character of `\w` on ASCII text: a letter, a digit or "_". */
  predicate IsWordChar(c: char)
  {
    ('a' <= c <= 'z') || ('A' <= c <= 'Z') || ('0' <= c <= '9') || c == '_'
  }

  /** `re.sub(r'\W', '_', s)`: every non-word character replaced by "_". */
  function Sanitize(s: string): (t: string)
    ensures |t| == |s|
    ensures forall i :: 0 <= i < |s| ==> t[i] == (if IsWordChar(s[i]) then s[i] else '_')
  {
    if s == [] then ""
    else [if IsWordChar(s[0]) then s[0] else '_'] + Sanitize(s[1..])
  }

  /** Only word characters remain. */
  lemma SanitizedIsWord(s: string)
    ensures forall i :: 0 <= i < |Sanitize(s)| ==> IsWordChar(Sanitize(s)[i])
  {
  }

  /** A name made only of word characters is kept verbatim. */
  lemma SanitizeKeepsWords(s: string)
    requires forall i :: 0 <= i < |s| ==> IsWordChar(s[i])
    ensures Sanitize(s) == s
  {
  }

  /** Sanitizing twice is sanitizing once. */
  lemma SanitizeIdempotent(s: string)
    ensures Sanitize(Sanitize(s)) == Sanitize(s)
  {
    SanitizedIsWord(s);
    SanitizeKeepsWords(Sanitize(s));
  }

  /** `get_sandbox_table_name(dataset_id, rule_name)`: the dataset id, "_"
      and the rule name with every non-word character made "_". */
  function SandboxTableName(datasetId: string, ruleName: string): (t: string)
    ensures |t| == |datasetId| + 1 + |ruleName|
    ensures t[..|datasetId| + 1] == datasetId + "_"
    ensures forall i :: |datasetId| < i < |t| ==> IsWordChar(t[i])
    ensures forall i :: |datasetId| < i < |t| && IsWordChar(ruleName[i - |datasetId| - 1]) ==> t[i] == ruleName[i - |datasetId| - 1]
    ensures forall i :: |datasetId| < i < |t| && !IsWordChar(ruleName[i - |datasetId| - 1]) ==> t[i] == '_'
  {
    var r := Sanitize(ruleName);
    var t := datasetId + "_" + r;
    assert forall i :: |datasetId| < i < |t| ==> t[i] == r[i - |datasetId| - 1];
    t
  }

  /** A rule name of word characters appears verbatim after the dataset id. */
  lemma WordRuleNameVerbatim(datasetId: string, ruleName: string)
    requires forall i :: 0 <= i < |ruleName| ==> IsWordChar(ruleName[i])
    ensures SandboxTableName(datasetId, ruleName) == datasetId + "_" + ruleName
  {
    SanitizeKeepsWords(ruleName);
  }

  /** The datasets of a project, as `list_datasets` reports their ids. */
  class Project {
    var datasets: set<string>

    constructor (datasets: set<string>)
      ensures this.datasets == datasets
    {
      this.datasets := datasets;
    }

    /** `create_sandbox_dataset(project_id, dataset_id)` when the sandbox
        does not exist yet: adds it, and returns its id. */
    method CreateSandboxDataset(datasetId: string) returns (sandbox: string)
      requires SandboxDatasetId(datasetId) !in datasets
      modifies this
      ensures sandbox == SandboxDatasetId(datasetId)
      ensures datasets == old(datasets) + {sandbox}
    {
      sandbox := SandboxDatasetId(datasetId);
      datasets := datasets + {sandbox};
    }

    /** `check_and_create_sandbox_dataset(project_id, dataset_id)`: creates
        the sandbox only when its id is not among the datasets, and returns
        the sandbox id either way. */
    method CheckAndCreateSandboxDataset(datasetId: string) returns (sandbox: string, created: bool)
      modifies this
      ensures sandbox == SandboxDatasetId(datasetId)
      ensures created <==> sandbox !in old(datasets)
      ensures datasets == old(datasets) + {sandbox}
      ensures !created ==> datasets == old(datasets)
      ensures sandbox in datasets
    {
      sandbox := SandboxDatasetId(datasetId);
      created := sandbox !in datasets;
      if created {
        var _ := CreateSandboxDataset(datasetId);
      }
    }
  }
}
