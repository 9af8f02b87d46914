/** The host names of a job's pods, as listed for its containers. */
module NodeList {
  import opened Text
  import opened Decimal

  function NodeName(job: string, i: nat): string {
    job + "-" + FormatInt(i) + "." + job
  }

  method BuildNodeList(job: string, nNodes: nat) returns (nodeList: array<string>)
    ensures fresh(nodeList) && nodeList.Length == nNodes
    ensures forall i :: 0 <= i < nNodes ==> nodeList[i] == NodeName(job, i)
  {
    nodeList := new string[nNodes](_ => "");
    for i := 0 to nNodes
      invariant forall k :: 0 <= k < i ==> nodeList[k] == NodeName(job, k)
    {
      nodeList[i] := job + "-" + FormatInt(i) + "." + job;
    }
  }

  lemma SameMiddle(prefix: string, x: string, y: string, suffix: string)
    requires prefix + x + suffix == prefix + y + suffix
    ensures x == y
  {
    assert |x| == |y|;
    assert x == (prefix + x + suffix)[|prefix|..|prefix| + |x|];
    assert y == (prefix + y + suffix)[|prefix|..|prefix| + |y|];
  }

  lemma NodeNamesDistinct(job: string, i: nat, j: nat)
    requires NodeName(job, i) == NodeName(job, j)
    ensures i == j
  {
    assert forall k: nat :: NodeName(job, k) == (job + "-") + FormatInt(k) + ("." + job);
    SameMiddle(job + "-", FormatInt(i), FormatInt(j), "." + job);
    FormatInjective(i, j);
  }

  lemma NoComma(job: string, i: nat)
    requires ',' !in job
    ensures ',' !in NodeName(job, i)
  {
    var digits := FormatInt(i);
    assert ',' !in digits;
    assert ',' !in job + "-";
    assert ',' !in job + "-" + digits;
    assert ',' !in job + "-" + digits + ".";
  }

  /** Splitting the joined list at its commas gives the host names back. */
  lemma NodeListSplits(job: string, names: seq<string>)
    requires names != [] && ',' !in job
    requires forall i :: 0 <= i < |names| ==> names[i] == NodeName(job, i)
    ensures Split(Join(names, ','), ',') == names
  {
    forall name | name in names ensures ',' !in name {
      var i :| 0 <= i < |names| && names[i] == name;
      NoComma(job, i);
    }
    SplitJoin(names, ',');
  }

  /** The first three host names of the job `job`. */
  lemma HostNames()
    ensures NodeName("job", 0) == "job-0.job" && NodeName("job", 1) == "job-1.job" && NodeName("job", 2) == "job-2.job"
  {
    assert FormatInt(0) == "0" && FormatInt(1) == "1" && FormatInt(2) == "2";
  }
}
