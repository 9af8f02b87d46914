/** The builder of a Slurm job: it completes its own fields, then builds the job's containers. */
module SlurmBuilder {
  import opened Wrappers
  import opened Arithmetic
  import opened Decimal
  import opened ArrayIndexes
  import ArrayLaws
  import Float64
  import opened NodeTasks
  import opened Resources
  import opened ScriptRewriter
  import ScriptSafety
  import NodeList

  datatype CompleteError =
    | ShapeFailed(shape: ShapeError)
    | NodesWithArray
    | NoCpusPerTask
    | NoGpusPerTask
    | SeveralMemoryFlags
    | ScriptFailed(script: ScriptError)

  /** The place of an error in the order of the checks. */
  function Rank(e: CompleteError): nat {
    match e
    case ShapeFailed(_) => 0
    case NodesWithArray => 1
    case NoCpusPerTask => 2
    case NoGpusPerTask => 3
    case SeveralMemoryFlags => 4
    case ScriptFailed(_) => 5
  }

  datatype BuildError = InvalidArray | CompleteFailed(error: CompleteError)

  /** What is handed to the cluster: pods, their containers and their host names. */
  datatype JobSpec = JobSpec(
    completions: int, parallelism: int, containers: seq<Container>, nodes: seq<string>, firstNode: string)

  predicate AtMostOne(flags: seq<bool>) {
    forall i, j | 0 <= i < j < |flags| :: !(flags[i] && flags[j])
  }

  /** `ValidateMutuallyExclusiveFlags`. */
  method ValidateMutuallyExclusiveFlags(flags: seq<bool>) returns (ok: bool)
    ensures ok <==> AtMostOne(flags)
  {
    var setFlags := 0;
    ghost var first := -1;
    for i := 0 to |flags|
      invariant 0 <= setFlags
      invariant setFlags == 0 <==> forall j :: 0 <= j < i ==> !flags[j]
      invariant setFlags == 1 ==> 0 <= first < i && flags[first] && forall j :: 0 <= j < i && flags[j] ==> j == first
      invariant setFlags >= 2 ==> exists j, k :: 0 <= j < k < i && flags[j] && flags[k]
    {
      if flags[i] {
        if setFlags == 0 {
          first := i;
        }
        setFlags := setFlags + 1;
      }
    }
    ok := setFlags <= 1;
  }

  /** What the rewriter made of a script. */
  ghost predicate ScriptOutcome(
    before: string, after: string, nTasks: int, parse: FlagParser, error: Option<ScriptError>)
  {
    && (error.None? <==> ScriptSafety.Accepts(before, nTasks, parse))
    && (error.None? ==> after == Render(LogicalLines(before), parse))
    && (error.Some? ==>
          && after == before
          && if nTasks < 1 then error.value == InvalidTaskCount(nTasks)
             else FailsWith(LogicalLines(before), nTasks, parse, error.value))
  }

  class SlurmBuilder {
    var nodes: Option<int>
    var nTasks: Option<int>
    var nTasksPerNode: Option<int>
    var arrayFlag: string
    var arrayIndexes: Option<ArrayIndexes>

    var cpusPerTask: Option<int>
    var gpusPerTask: Option<map<string, int>>
    var memPerNode: Option<int>
    var memPerTask: Option<int>
    var memPerCPU: Option<int>
    var memPerGPU: Option<int>
    var requests: Option<ResourceList>
    var workerContainers: seq<string>

    var scriptContent: string
    var cpusOnNode: Option<int>
    var cpusPerGpu: Option<int>
    var totalMemPerNode: Option<int>
    var totalGpus: Option<int>

    const parseFlags: FlagParser

    function CurrentShape(): Shape
      reads this`nodes, this`nTasks, this`nTasksPerNode
    {
      Shape(nodes.GetOr(1), nTasks.GetOr(1), nTasksPerNode.GetOr(1))
    }

    function CurrentFlags(): Flags
      reads this`cpusPerTask, this`gpusPerTask, this`memPerNode, this`memPerTask, this`memPerCPU, this`memPerGPU
      reads this`requests, this`workerContainers
    {
      Flags(cpusPerTask, gpusPerTask, memPerNode, memPerTask, memPerCPU, memPerGPU, requests, workerContainers)
    }

    predicate IsArrayJob()
      reads this`arrayFlag
    {
      arrayFlag != ""
    }

    // ---- parse ----

    /** The array part of `parse`. */
    method ParseArray() returns (ok: bool)
      requires IsArrayJob() ==> RangeEnds(arrayFlag)
      modifies this`arrayIndexes
      ensures ok <==> !IsArrayJob() || Meaning(arrayFlag).Some?
      ensures !IsArrayJob() ==> arrayIndexes == old(arrayIndexes)
      ensures IsArrayJob() ==> (arrayIndexes == Meaning(arrayFlag) <==> RangeFits(arrayFlag))
      ensures IsArrayJob() && !RangeFits(arrayFlag) ==> arrayIndexes.Some? && Overran(arrayFlag, arrayIndexes.value)
    {
      ok := true;
      if IsArrayJob() {
        arrayIndexes := ParseArrayIndexes(arrayFlag);
        ok := arrayIndexes.Some?;
      }
    }

    // ---- complete ----

    /** The arithmetic of `complete`, with its floating-point divisibility tests. */
    method CompleteShape() returns (r: Option<ShapeError>)
      requires Positive(CurrentShape())
      modifies this`nodes, this`nTasks, this`nTasksPerNode
      ensures r == match Solve(old(CurrentShape())) case Success(_) => None case Failure(e) => Some(e)
      ensures CurrentShape() ==
              match Solve(old(CurrentShape())) case Success(s) => s case Failure(_) => old(CurrentShape())
    {
      var n, t, p := nodes.GetOr(1), nTasks.GetOr(1), nTasksPerNode.GetOr(1);
      if n != 1 && t == 1 && p == 1 {
        return Some(TasksMissing);
      }
      if n != 1 && t != 1 && p != 1 && t != Wrap32(n * p) {
        return Some(InvalidShape);
      }
      if n == 1 && t != 1 && p != 1 {
        var nodesFloat := Float64.Quotient(t, p);
        Float64.QuotientRounds(t, p);
        Float64.DivisibilityTest(t, p, nodesFloat);
        n := Float64.Truncate(nodesFloat);
        if Float64.Exceeds(nodesFloat, n) {
          return Some(InvalidTasks);
        }
        nodes := Some(n);
      } else if t != 1 && p == 1 {
        var nTasksPerNodeFloat := Float64.Quotient(t, n);
        Float64.QuotientRounds(t, n);
        Float64.DivisibilityTest(t, n, nTasksPerNodeFloat);
        p := Float64.Truncate(nTasksPerNodeFloat);
        if Float64.Exceeds(nTasksPerNodeFloat, p) {
          return Some(InvalidNodesOrTasks);
        }
        nTasksPerNode := Some(p);
      } else if t == 1 && p != 1 {
        t := Wrap32(n * p);
        nTasks := Some(t);
      }
      return None;
    }

    /** The job's shape is what the flags ask for. */
    predicate HasJobShape()
      reads this`nodes, this`nTasks, this`nTasksPerNode, this`arrayFlag, this`arrayIndexes
    {
      if IsArrayJob() then
        && nodes.GetOr(1) == 1
        && Containers() == nTasks.GetOr(1)
      else
        && Completion() == Parallelism() == nodes.GetOr(1)
        && Completion() * Containers() == nTasks.GetOr(1)
    }

    /** The flags give reason for the error `e`. */
    ghost predicate Conflict(e: CompleteError)
      reads this`nodes, this`arrayFlag, this`cpusPerTask, this`gpusPerTask
      reads this`memPerNode, this`memPerTask, this`memPerCPU, this`memPerGPU
    {
      match e
      case NodesWithArray => nodes.GetOr(1) != 1 && IsArrayJob()
      case NoCpusPerTask => memPerCPU.Some? && cpusPerTask.None?
      case NoGpusPerTask => memPerGPU.Some? && gpusPerTask.None?
      case SeveralMemoryFlags => !MemoryFlagsExclusive()
      case _ => false
    }

    /** `e` is the conflict found first: there is reason for it and for no error before it. */
    ghost predicate FirstConflict(e: CompleteError)
      reads this`nodes, this`arrayFlag, this`cpusPerTask, this`gpusPerTask
      reads this`memPerNode, this`memPerTask, this`memPerCPU, this`memPerGPU
    {
      Conflict(e) && forall d :: Conflict(d) ==> Rank(e) <= Rank(d)
    }

    ghost predicate FlagsAgree()
      reads this`nodes, this`arrayFlag, this`cpusPerTask, this`gpusPerTask
      reads this`memPerNode, this`memPerTask, this`memPerCPU, this`memPerGPU
    {
      && !(nodes.GetOr(1) != 1 && IsArrayJob())
      && (memPerCPU.Some? ==> cpusPerTask.Some?)
      && (memPerGPU.Some? ==> gpusPerTask.Some?)
      && MemoryFlagsExclusive()
    }

    /** Flags agree when no error has a reason; otherwise one of them is the first. */
    lemma ConflictsOrdered(e: CompleteError)
      ensures FlagsAgree() <==> forall d :: !Conflict(d)
      ensures FirstConflict(e) ==> forall d :: FirstConflict(d) <==> d == e
    {
      assert FlagsAgree() || Conflict(NodesWithArray) || Conflict(NoCpusPerTask) || Conflict(NoGpusPerTask)
             || Conflict(SeveralMemoryFlags);
      forall d | FirstConflict(e) && FirstConflict(d) ensures d == e {
        assert Rank(d) == Rank(e) && Conflict(d) && Conflict(e);
      }
    }

    /** At most one of the four memory flags is set. */
    predicate MemoryFlagsExclusive()
      reads this`memPerNode, this`memPerTask, this`memPerCPU, this`memPerGPU
    {
      && (memPerNode.Some? ==> memPerTask.None? && memPerCPU.None? && memPerGPU.None?)
      && (memPerTask.Some? ==> memPerCPU.None? && memPerGPU.None?)
      && (memPerCPU.Some? ==> memPerGPU.None?)
    }

    /** The checks between the arithmetic and the script, in their order. */
    method CheckFlags() returns (r: Option<CompleteError>)
      ensures r.None? <==> FlagsAgree()
      ensures forall e :: r == Some(e) <==> FirstConflict(e)
    {
      var exclusive := ValidateMutuallyExclusiveFlags([nodes.GetOr(1) != 1, arrayFlag != ""]);
      ExclusivePair(nodes.GetOr(1) != 1, arrayFlag != "");
      if !exclusive {
        ConflictsOrdered(NodesWithArray);
        return Some(NodesWithArray);
      }
      if memPerCPU.Some? && cpusPerTask.None? {
        ConflictsOrdered(NoCpusPerTask);
        return Some(NoCpusPerTask);
      }
      if memPerGPU.Some? && gpusPerTask.None? {
        ConflictsOrdered(NoGpusPerTask);
        return Some(NoGpusPerTask);
      }
      exclusive := ValidateMutuallyExclusiveFlags([memPerNode.Some?, memPerTask.Some?, memPerCPU.Some?, memPerGPU.Some?]);
      ExclusiveFour(memPerNode.Some?, memPerTask.Some?, memPerCPU.Some?, memPerGPU.Some?);
      ConflictsOrdered(SeveralMemoryFlags);
      if !exclusive {
        return Some(SeveralMemoryFlags);
      }
      return None;
    }

    /** The last step: the script is validated for the completed number of tasks and replaced. */
    method ReplaceScript() returns (r: Option<ScriptError>)
      modifies this`scriptContent
      ensures ScriptOutcome(old(scriptContent), scriptContent, nTasks.GetOr(1), parseFlags, r)
    {
      var replaced := SlurmValidateAndReplaceScript(scriptContent, nTasks.GetOr(1), parseFlags);
      if replaced.Failure? {
        return Some(replaced.error);
      }
      scriptContent := replaced.value;
      return None;
    }

    /** `complete` can succeed on the given values, its script included. */
    ghost predicate CanComplete(given: Shape, script: string)
      requires Positive(given)
      reads this`nodes, this`nTasks, this`arrayFlag, this`cpusPerTask, this`gpusPerTask
      reads this`memPerNode, this`memPerTask, this`memPerCPU, this`memPerGPU
    {
      Solve(given).Success? && FlagsAgree() && ScriptSafety.Accepts(script, nTasks.GetOr(1), parseFlags)
    }

    /** What `complete` has made of the given values: the error met first, or the completed fields. */
    ghost predicate Completed(given: Shape, script: string, r: Result<(), CompleteError>)
      requires Positive(given)
      reads this`nodes, this`nTasks, this`nTasksPerNode, this`arrayFlag, this`cpusPerTask, this`gpusPerTask
      reads this`memPerNode, this`memPerTask, this`memPerCPU, this`memPerGPU, this`scriptContent
    {
      && CurrentShape() == (match Solve(given) case Success(s) => s case Failure(_) => given)
      && (r.Success? <==> CanComplete(given, script))
      && (Solve(given).Failure? ==> r == Failure(ShapeFailed(Solve(given).error)))
      && (Solve(given).Success? && !FlagsAgree() ==> r.Failure? && FirstConflict(r.error))
      && (Solve(given).Success? && FlagsAgree() ==>
            && (r.Failure? ==> r.error.ScriptFailed?)
            && ScriptOutcome(script, scriptContent, nTasks.GetOr(1), parseFlags,
                             if r.Failure? then Some(r.error.script) else None))
      && (r.Failure? ==> scriptContent == script)
    }

    method Complete() returns (r: Result<(), CompleteError>)
      requires Positive(CurrentShape())
      modifies this`nodes, this`nTasks, this`nTasksPerNode, this`scriptContent
      ensures Completed(old(CurrentShape()), old(scriptContent), r)
      ensures r.Success? && Fits(old(CurrentShape())) ==> HasJobShape() && OneMemoryFlag(CurrentFlags())
    {
      ghost var given := CurrentShape();
      var shape := CompleteShape();
      if shape.Some? {
        return Failure(ShapeFailed(shape.value));
      }
      var conflict := CheckFlags();
      if conflict.Some? {
        assert FirstConflict(conflict.value);
        return Failure(conflict.value);
      }
      var problem := ReplaceScript();
      if problem.Some? {
        return Failure(ScriptFailed(problem.value));
      }
      if Fits(given) {
        CompletedJobShape(this, given);
      }
      return Success(());
    }

    // ---- the shape of the job ----

    function Parallelism(): int
      reads this`nodes, this`nTasks, this`nTasksPerNode, this`arrayFlag, this`arrayIndexes
    {
      if IsArrayJob() then if arrayIndexes.Some? then arrayIndexes.value.parallelism.GetOr(1) else 1
      else nodes.GetOr(1)
    }

    function Completion(): int
      reads this`nodes, this`nTasks, this`nTasksPerNode, this`arrayFlag, this`arrayIndexes
    {
      if IsArrayJob() then if arrayIndexes.Some? then Wrap32(|arrayIndexes.value.indexes|) else 0
      else nodes.GetOr(1)
    }

    function Containers(): int
      reads this`nTasksPerNode
    {
      nTasksPerNode.GetOr(1)
    }

    function Replicas(): nat
      reads this`nTasksPerNode
    {
      if Containers() > 1 then Containers() - 1 else 0
    }

    // ---- build: resources and replicas ----

    ghost function PlanFor(template: seq<Container>): Plan
      requires template != []
      reads this
    {
      PlanOf(CurrentFlags(), template, Replicas())
    }

    /** The loop over the GPUs of a task, in any order of the map. */
    method SumGpus() returns (total: int)
      ensures total == GpusPerTask(CurrentFlags())
    {
      total := 0;
      if gpusPerTask.Some? {
        var rest := gpusPerTask.value;
        while rest != map[]
          invariant total + SumOf(rest) == SumOf(gpusPerTask.value)
          decreases |rest|
        {
          MapHasKey(rest);
          var name :| name in rest;
          SumOfTake(rest, name);
          assert |rest - {name}| < |rest|;
          total := total + rest[name];
          rest := rest - {name};
        }
      }
    }

    /** The limits of one container: the memory share, then the GPUs in any order. */
    method BuildLimits(memPerContainer: int) returns (limits: ResourceList)
      ensures limits == LimitsOf(CurrentFlags(), memPerContainer)
    {
      limits := map[];
      if memPerContainer != 0 {
        limits := limits[MEMORY := memPerContainer];
      }
      if gpusPerTask.Some? {
        limits := AddAll(limits, gpusPerTask.value);
      }
    }

    /** The list of requests is one shared map when the user gave one: every container adds the same entries. */
    ghost predicate SharedRequests(f: Flags)
      reads this
    {
      requests == f.requests || (f.requests.Some? && requests == Some(RequestsOf(f)))
    }

    ghost predicate SameFlags(f: Flags)
      reads this
    {
      f == CurrentFlags().(requests := f.requests) && SharedRequests(f)
    }

    /** The requests of one container: those the user gave with the entries of the flags. */
    method BuildRequests(memPerCPUTotal: int, memPerGPUTotal: int, ghost f: Flags) returns (own: ResourceList)
      requires SameFlags(f) && memPerCPUTotal == MemoryByCpu(f) && memPerGPUTotal == MemoryByGpu(f)
      ensures own == RequestsOf(f)
    {
      own := requests.GetOr(map[]);
      WithRequestsTwice(f, f.requests.GetOr(map[]));
      if cpusPerTask.Some? {
        own := own[CPU := cpusPerTask.value];
      }
      if memPerTask.Some? {
        own := own[MEMORY := memPerTask.value];
      }
      if memPerCPUTotal != 0 {
        own := own[MEMORY := memPerCPUTotal];
      }
      if memPerGPUTotal != 0 {
        own := own[MEMORY := memPerGPUTotal];
      }
    }

    /** The body of the loop over the template's containers, for a selected one. */
    method EditContainer(c: Container, memPerCPUTotal: int, memPerGPUTotal: int, memPerContainer: int, ghost f: Flags)
      returns (edited: Container)
      requires SameFlags(f) && Selected(f, c.name)
      requires memPerCPUTotal == MemoryByCpu(f) && memPerGPUTotal == MemoryByGpu(f)
      modifies this`requests
      ensures edited == Edited(f, memPerContainer, c)
      ensures SameFlags(f) && requests == if f.requests.Some? then Some(RequestsOf(f)) else None
    {
      var own := BuildRequests(memPerCPUTotal, memPerGPUTotal, f);
      if requests.Some? {
        requests := Some(own);
      }
      edited := c.(command := COMMAND);
      if own != map[] {
        edited := edited.(requests := own);
      }
      var limits := BuildLimits(memPerContainer);
      assert limits == LimitsOf(f, memPerContainer);
      if limits != map[] {
        edited := edited.(limits := limits);
      }
      edited := edited.(mounts := edited.mounts + MOUNTS);
    }

    /** The loop over the template's containers: edit the selected ones, add up the totals. */
    method EditContainers(template: seq<Container>, memPerCPUTotal: int, memPerGPUTotal: int, totalGpusPerTask: int,
                          memPerContainer: int, ghost p: Plan)
      returns (containers: seq<Container>, totalCpus: int, totalGpuCount: int, totalMem: int)
      requires template != [] && p == PlanFor(template)
      requires memPerCPUTotal == MemoryByCpu(p.flags) && memPerGPUTotal == MemoryByGpu(p.flags)
      requires totalGpusPerTask == GpusPerTask(p.flags) && memPerContainer == p.memPerContainer
      modifies this`requests
      ensures |containers| == |template| && forall k :: 0 <= k < |template| ==> containers[k] == EditedAt(p, k)
      ensures totalCpus == CountSelected(p.flags, template) * CpuRequest(p.flags)
      ensures totalGpuCount == TotalGpus(p)
      ensures totalMem == CountSelected(p.flags, template) * TaskMemory(p.flags)
      ensures requests == if p.flags.requests.Some? && CountSelected(p.flags, template) > 0
                          then Some(RequestsOf(p.flags)) else p.flags.requests
    {
      containers, totalCpus, totalGpuCount, totalMem := template, 0, 0, 0;
      ghost var f, w := p.flags, 0;
      for i := 0 to |template|
        invariant |containers| == |template| && w == SelectedUpTo(f, template, i)
        invariant forall k :: 0 <= k < i ==> containers[k] == EditedAt(p, k)
        invariant forall k :: i <= k < |template| ==> containers[k] == template[k]
        invariant totalCpus == w * CpuRequest(f)
        invariant totalGpuCount == w * GpusPerTask(f)
        invariant totalMem == w * TaskMemory(f)
        invariant SameFlags(f)
        invariant requests == if f.requests.Some? && w > 0 then Some(RequestsOf(f)) else f.requests
      {
        if |workerContainers| > 0 && containers[i].name !in workerContainers {
          continue;
        }
        var edited := EditContainer(containers[i], memPerCPUTotal, memPerGPUTotal, memPerContainer, f);
        containers := containers[i := edited];
        OneMore(w, CpuRequest(f));
        OneMore(w, GpusPerTask(f));
        OneMore(w, TaskMemory(f));
        w := w + 1;
        if cpusPerTask.Some? {
          totalCpus := totalCpus + cpusPerTask.value;
        }
        if memPerTask.Some? {
          totalMem := totalMem + memPerTask.value;
        }
        if memPerCPUTotal != 0 {
          totalMem := totalMem + memPerCPUTotal;
        }
        if memPerGPUTotal != 0 {
          totalMem := totalMem + memPerGPUTotal;
        }
        if gpusPerTask.Some? {
          totalGpuCount := totalGpuCount + totalGpusPerTask;
        }
      }
    }

    /** The loop that copies the first container; it adds CPUs and memory per CPU or GPU, nothing else. */
    method AddReplicas(edited: seq<Container>, cpus: int, mem: int, memPerCPUTotal: int, memPerGPUTotal: int, ghost p: Plan)
      returns (containers: seq<Container>, totalCpus: int, totalMem: int)
      requires p.template != [] && p.replicas == Replicas() && p.flags.cpusPerTask == cpusPerTask
      requires |edited| == |p.template| && forall k :: 0 <= k < |edited| ==> edited[k] == EditedAt(p, k)
      requires memPerCPUTotal == MemoryByCpu(p.flags) && memPerGPUTotal == MemoryByGpu(p.flags)
      ensures containers == BuiltAll(p)
      ensures totalCpus == cpus + p.replicas * CpuRequest(p.flags)
      ensures totalMem == mem + p.replicas * (MemoryByCpu(p.flags) + MemoryByGpu(p.flags))
    {
      containers, totalCpus, totalMem := edited, cpus, mem;
      ghost var copies := 0;
      FirstBuilt(p);
      if Containers() > 1 {
        for i := 1 to Containers()
          invariant copies == i - 1 && |containers| == |edited| + copies
          invariant forall k :: 0 <= k < |edited| ==> containers[k] == edited[k]
          invariant forall k :: |edited| <= k < |containers| ==> containers[k] == Built(p, k)
          invariant totalCpus == cpus + copies * CpuRequest(p.flags)
          invariant totalMem == mem + copies * (MemoryByCpu(p.flags) + MemoryByGpu(p.flags))
        {
          var replica := containers[0].(name := containers[0].name + "-" + FormatInt(i));
          ReplicaBuilt(p, i);
          containers := containers + [replica];
          OneMore(copies, CpuRequest(p.flags));
          OneMore(copies, MemoryByCpu(p.flags) + MemoryByGpu(p.flags));
          copies := copies + 1;
          if cpusPerTask.Some? {
            totalCpus := totalCpus + cpusPerTask.value;
          }
          if memPerCPUTotal != 0 {
            totalMem := totalMem + memPerCPUTotal;
          }
          if memPerGPUTotal != 0 {
            totalMem := totalMem + memPerGPUTotal;
          }
        }
        containers := containers[0 := containers[0].(name := containers[0].name + "-0")];
      }
      AllBuilt(p, containers);
    }

    /** The resource part of `build`. */
    method BuildContainers(template: seq<Container>) returns (containers: seq<Container>)
      requires template != []
      modifies this`requests, this`cpusOnNode, this`totalGpus, this`totalMemPerNode, this`cpusPerGpu
      ensures var p := old(PlanFor(template));
        && containers == BuiltAll(p)
        && cpusOnNode == (if TotalCpus(p) != 0 then Some(TotalCpus(p)) else old(cpusOnNode))
        && totalGpus == (if TotalGpus(p) != 0 then Some(TotalGpus(p)) else old(totalGpus))
        && totalMemPerNode == (if memPerNode.Some? then memPerNode
                               else if TotalMemory(p) != 0 then Some(TotalMemory(p)) else old(totalMemPerNode))
        && cpusPerGpu == (if cpusOnNode.Some? && TotalGpus(p) != 0
                          then Some(TruncDiv(TotalCpus(p), TotalGpus(p)) * 1000) else old(cpusPerGpu))
        && requests == (if old(requests).Some? && CountSelected(p.flags, template) > 0
                        then Some(RequestsOf(p.flags)) else old(requests))
    {
      ghost var p := PlanFor(template);
      var totalGpusPerTask := SumGpus();
      var memPerCPUTotal, memPerGPUTotal, memPerContainer := 0, 0, 0;
      if memPerCPU.Some? && cpusPerTask.Some? {
        memPerCPUTotal := memPerCPU.value * WholeUnits(cpusPerTask.value);
      }
      if memPerGPU.Some? && gpusPerTask.Some? {
        memPerGPUTotal := memPerGPU.value * WholeUnits(totalGpusPerTask);
      }
      if memPerNode.Some? {
        memPerContainer := TruncDiv(memPerNode.value, |template|);
      }
      var edited, cpus, gpus, mem :=
        EditContainers(template, memPerCPUTotal, memPerGPUTotal, totalGpusPerTask, memPerContainer, p);
      var totalCpus, totalMem;
      containers, totalCpus, totalMem := AddReplicas(edited, cpus, mem, memPerCPUTotal, memPerGPUTotal, p);
      TotalsOf(p);
      StoreTotals(totalCpus, gpus, totalMem);
    }

    /** The fields that report the totals. */
    method StoreTotals(totalCpus: int, gpus: int, totalMem: int)
      modifies this`cpusOnNode, this`totalGpus, this`totalMemPerNode, this`cpusPerGpu
      ensures cpusOnNode == if totalCpus != 0 then Some(totalCpus) else old(cpusOnNode)
      ensures totalGpus == if gpus != 0 then Some(gpus) else old(totalGpus)
      ensures totalMemPerNode == if memPerNode.Some? then memPerNode
                                 else if totalMem != 0 then Some(totalMem) else old(totalMemPerNode)
      ensures cpusPerGpu == if cpusOnNode.Some? && gpus != 0
                            then Some(TruncDiv(totalCpus, gpus) * 1000) else old(cpusPerGpu)
    {
      if totalCpus != 0 {
        cpusOnNode := Some(totalCpus);
      }
      if gpus != 0 {
        totalGpus := Some(gpus);
      }
      if memPerNode.Some? {
        totalMemPerNode := memPerNode;
      } else if totalMem != 0 {
        totalMemPerNode := Some(totalMem);
      }
      if cpusOnNode.Some? && totalGpus.Some? && gpus != 0 {
        cpusPerGpu := Some(TruncDiv(totalCpus, gpus) * 1000);
      }
    }

    // ---- build ----

    /** What the completed builder makes of a template. */
    ghost predicate IsJob(job: string, template: seq<Container>, f: Flags, spec: JobSpec)
      requires template != []
      reads this`nodes, this`nTasks, this`nTasksPerNode, this`arrayFlag, this`arrayIndexes
    {
      && spec.completions == Completion() >= 1
      && spec.parallelism == Parallelism() >= 1
      && spec.containers == BuiltAll(PlanOf(f, template, Replicas()))
      && |spec.nodes| == spec.completions
      && (forall i :: 0 <= i < |spec.nodes| ==> spec.nodes[i] == NodeList.NodeName(job, i))
      && spec.firstNode == spec.nodes[0]
    }

    /** The flags of an array job denote a list of indexes, whose number is an int32. */
    ghost predicate ArrayCountable()
      reads this`arrayFlag
    {
      IsArrayJob() ==>
        RangeFits(arrayFlag) && (Meaning(arrayFlag).Some? ==> !ArrayLaws.IsEverything(Meaning(arrayFlag).value.indexes))
    }

    /** The array flag, if there is one, has a meaning. */
    ghost predicate ArrayMeaningful()
      reads this`arrayFlag
    {
      IsArrayJob() ==> Meaning(arrayFlag).Some?
    }

    function Outcome(e: Option<BuildError>): Result<(), CompleteError> {
      match e case Some(CompleteFailed(error)) => Failure(error) case _ => Success(())
    }

    /** Parsing and completing the given values has ended with `e`, the error met first, or without one. */
    ghost predicate Prepared(given: Shape, script: string, e: Option<BuildError>)
      requires Positive(given)
      reads this`nodes, this`nTasks, this`nTasksPerNode, this`arrayFlag, this`arrayIndexes, this`cpusPerTask
      reads this`gpusPerTask, this`memPerNode, this`memPerTask, this`memPerCPU, this`memPerGPU, this`scriptContent
    {
      && (e == Some(InvalidArray) <==> !ArrayMeaningful())
      && (e.None? <==> ArrayMeaningful() && CanComplete(given, script))
      && (ArrayMeaningful() ==> Completed(given, script, Outcome(e)))
      && (e.None? ==> Completion() >= 1 && Parallelism() >= 1)
      && (e.None? && Fits(given) ==> HasJobShape())
      && (e.None? && IsArrayJob() ==>
            && arrayIndexes.Some? && arrayIndexes == Meaning(arrayFlag)
            && Completion() == |arrayIndexes.value.indexes|)
    }

    /** `build` up to the template: parse the flags, then complete the fields. */
    method ParseAndComplete() returns (e: Option<BuildError>)
      requires Positive(CurrentShape()) && ArrayCountable()
      modifies this`arrayIndexes, this`nodes, this`nTasks, this`nTasksPerNode, this`scriptContent
      ensures Prepared(old(CurrentShape()), old(scriptContent), e)
    {
      FittingRangeEnds(arrayFlag);
      var parsed := ParseArray();
      if !parsed {
        return Some(InvalidArray);
      }
      ghost var given := CurrentShape();
      assert IsArrayJob() ==> arrayIndexes == Meaning(arrayFlag);
      var completed := Complete();
      if completed.Failure? {
        return Some(CompleteFailed(completed.error));
      }
      assert Solve(given) == Success(CurrentShape());
      CompletionPositive(this, given);
      return None;
    }

    /** `build` once its fields are complete. */
    method BuildSpec(job: string, template: seq<Container>) returns (spec: JobSpec)
      requires template != [] && Completion() >= 1 && Parallelism() >= 1
      modifies this`requests, this`cpusOnNode, this`totalGpus, this`totalMemPerNode, this`cpusPerGpu
      ensures IsJob(job, template, old(CurrentFlags()), spec)
    {
      var completions, parallelism := Completion(), Parallelism();
      var containers := BuildContainers(template);
      var nodeList := NodeList.BuildNodeList(job, completions);
      spec := JobSpec(completions, parallelism, containers, nodeList[..], nodeList[0]);
    }

    /** It leaves what has been prepared. */
    method BuildPrepared(job: string, template: seq<Container>, ghost given: Shape, ghost script: string)
      returns (spec: JobSpec)
      requires template != [] && Positive(given) && Prepared(given, script, None)
      modifies this`requests, this`cpusOnNode, this`totalGpus, this`totalMemPerNode, this`cpusPerGpu
      ensures Prepared(given, script, None) && IsJob(job, template, old(CurrentFlags()), spec)
    {
      spec := BuildSpec(job, template);
    }

    /** The parts of `build` that decide about pods, containers and host names, one after the other. */
    method Build(job: string, template: seq<Container>) returns (r: Result<JobSpec, BuildError>)
      requires template != [] && Positive(CurrentShape()) && ArrayCountable()
      modifies this`arrayIndexes, this`nodes, this`nTasks, this`nTasksPerNode, this`scriptContent
      modifies this`requests, this`cpusOnNode, this`totalGpus, this`totalMemPerNode, this`cpusPerGpu
      ensures Prepared(old(CurrentShape()), old(scriptContent), if r.Success? then None else Some(r.error))
      ensures r.Success? ==> IsJob(job, template, old(CurrentFlags()), r.value)
    {
      ghost var given, script := CurrentShape(), scriptContent;
      var e := ParseAndComplete();
      if e.Some? {
        return Failure(e.value);
      }
      var spec := BuildPrepared(job, template, given, script);
      return Success(spec);
    }
  }

  lemma ReplicaBuilt(p: Plan, i: nat)
    requires p.template != [] && 1 <= i <= p.replicas
    ensures EditedAt(p, 0).(name := EditedAt(p, 0).name + "-" + FormatInt(i)) == Built(p, |p.template| + i - 1)
  {
  }

  lemma FirstBuilt(p: Plan)
    requires p.template != []
    ensures Built(p, 0) ==
            if p.replicas > 0 then EditedAt(p, 0).(name := EditedAt(p, 0).name + "-0") else EditedAt(p, 0)
  {
    assert FormatInt(0) == "0";
    var base := p.template[0].name;
    assert base + "-" + "0" == base + "-0";
  }

  lemma AllBuilt(p: Plan, containers: seq<Container>)
    requires p.template != [] && |containers| == |p.template| + p.replicas
    requires forall k :: 0 <= k < |containers| ==> containers[k] == Built(p, k)
    ensures containers == BuiltAll(p)
  {
  }

  /** The memory a selected template container adds to the total. */
  ghost function TaskMemory(f: Flags): int {
    MemoryByTask(f) + (MemoryByCpu(f) + MemoryByGpu(f))
  }

  /** The totals of both loops together. */
  lemma TotalsOf(p: Plan)
    ensures CountSelected(p.flags, p.template) * CpuRequest(p.flags) + p.replicas * CpuRequest(p.flags) == TotalCpus(p)
    ensures CountSelected(p.flags, p.template) * TaskMemory(p.flags)
            + p.replicas * (MemoryByCpu(p.flags) + MemoryByGpu(p.flags)) == TotalMemory(p)
  {
    var w, r, c := CountSelected(p.flags, p.template), p.replicas, CpuRequest(p.flags);
    SumsAgree(w, r, c, c);
    Spread(w, r, MemoryByTask(p.flags), MemoryByCpu(p.flags) + MemoryByGpu(p.flags));
  }

  lemma Spread(w: int, r: int, task: int, other: int)
    ensures w * (task + other) + r * other == w * task + (w + r) * other
  {
    SumsAgree(w, r, other, other);
    assert w * (task + other) == w * task + w * other;
  }

  /** Copying one map into another, entry by entry in any order. */
  method AddAll(limits: ResourceList, gpus: map<string, int>) returns (r: ResourceList)
    ensures r == limits + gpus
  {
    r := limits;
    var rest := gpus.Keys;
    while rest != {}
      invariant rest <= gpus.Keys
      invariant forall k :: k in r <==> k in limits || (k in gpus && k !in rest)
      invariant forall k :: k in r ==> r[k] == if k in gpus && k !in rest then gpus[k] else limits[k]
      decreases rest
    {
      var name :| name in rest;
      r := r[name := gpus[name]];
      rest := rest - {name};
    }
  }

  lemma MapHasKey(m: map<string, int>)
    requires m != map[]
    ensures exists k :: k in m
  {
    assert m.Keys != {};
  }

  /** Adding the flags' entries a second time changes nothing. */
  lemma WithRequestsTwice(f: Flags, list: ResourceList)
    ensures WithRequests(f, WithRequests(f, list)) == WithRequests(f, list)
  {
    assert CPU[0] != MEMORY[0];
  }

  lemma ExclusivePair(a: bool, b: bool)
    ensures AtMostOne([a, b]) <==> !(a && b)
  {
    var flags := [a, b];
    assert flags[0] == a && flags[1] == b;
  }

  lemma ExclusiveFour(a: bool, b: bool, c: bool, d: bool)
    ensures AtMostOne([a, b, c, d]) <==> (a ==> !b && !c && !d) && (b ==> !c && !d) && (c ==> !d)
  {
    var flags := [a, b, c, d];
    assert flags[0] == a && flags[1] == b && flags[2] == c && flags[3] == d;
  }

  /**
   After a successful completion of int32 values the job has the shape the flags ask for:
   pods times containers are the tasks, an array job runs on one node.
   */
  lemma CompletedJobShape(b: SlurmBuilder, given: Shape)
    requires Positive(given) && Fits(given) && Solve(given) == Success(b.CurrentShape())
    requires b.FlagsAgree()
    ensures b.HasJobShape()
    ensures OneMemoryFlag(b.CurrentFlags())
  {
    SolutionLaw(given, b.CurrentShape());
  }

  /**
   A parsed array job has indexes, so that its least and greatest index are defined; its
   completions are their number exactly when that is an int32.
   */
  lemma ArrayJobShape(b: SlurmBuilder)
    requires b.IsArrayJob() && b.arrayIndexes.Some? && ArrayLaws.IsIndexList(b.arrayIndexes.value.indexes)
    ensures var indexes := b.arrayIndexes.value.indexes;
      && ArrayLaws.Min(indexes) == indexes[0] && ArrayLaws.Max(indexes) == indexes[|indexes| - 1]
      && (b.Completion() == |indexes| <==> |indexes| <= MAX_INT32)
      && (b.Completion() >= 1 <==> |indexes| <= MAX_INT32)
  {
    var indexes := b.arrayIndexes.value.indexes;
    ArrayLaws.IncreasingEnds(indexes);
    ArrayLaws.ListCount(indexes);
    ArrayLaws.IndexAtLeast(indexes, |indexes| - 1);
    assert b.Completion() == Wrap32(|indexes|);
    if |indexes| == MAX_INT32 + 1 {
      WrapMultiple(|indexes|, 1);
    }
  }

  /** After parsing and completing there is at least one pod, and an array job has one per index. */
  lemma CompletionPositive(b: SlurmBuilder, given: Shape)
    requires Positive(given) && Solve(given) == Success(b.CurrentShape())
    requires b.ArrayCountable()
    requires b.IsArrayJob() ==> b.arrayIndexes.Some? && b.arrayIndexes == Meaning(b.arrayFlag)
    ensures b.Completion() >= 1 && b.Parallelism() >= 1
    ensures b.IsArrayJob() ==> b.Completion() == |b.arrayIndexes.value.indexes|
  {
    if b.IsArrayJob() {
      ArrayLaws.MeaningIsIndexList(b.arrayFlag);
      ArrayLaws.CountIsInt32(b.arrayFlag);
      ArrayJobShape(b);
    } else {
      NodesPositive(given);
    }
  }

  // ---- written out ----

  function One(set0: bool): nat {
    if set0 then 1 else 0
  }

  /** Which conflict is reported, in the order of the checks. */
  lemma ConflictsMean(b: SlurmBuilder)
    ensures var array0, noCpu, noGpu, several :=
              b.nodes.GetOr(1) != 1 && b.arrayFlag != "",
              b.memPerCPU.Some? && b.cpusPerTask.None?,
              b.memPerGPU.Some? && b.gpusPerTask.None?,
              One(b.memPerNode.Some?) + One(b.memPerTask.Some?) + One(b.memPerCPU.Some?) + One(b.memPerGPU.Some?) >= 2;
      && (b.FirstConflict(NodesWithArray) <==> array0)
      && (b.FirstConflict(NoCpusPerTask) <==> !array0 && noCpu)
      && (b.FirstConflict(NoGpusPerTask) <==> !array0 && !noCpu && noGpu)
      && (b.FirstConflict(SeveralMemoryFlags) <==> !array0 && !noCpu && !noGpu && several)
      && (b.FlagsAgree() <==> !array0 && !noCpu && !noGpu && !several)
  {
    assert b.Conflict(NodesWithArray) || b.Conflict(NoCpusPerTask) || b.Conflict(NoGpusPerTask)
           || b.Conflict(SeveralMemoryFlags) || b.FlagsAgree();
  }

  /** The pods, containers and parallelism of a job that is no array job. */
  lemma PlainJobMeans(b: SlurmBuilder, job: string, template: seq<Container>, f: Flags, spec: JobSpec)
    requires template != [] && b.IsJob(job, template, f, spec) && b.arrayFlag == ""
    ensures spec.completions == b.nodes.GetOr(1) && spec.parallelism == b.nodes.GetOr(1)
    ensures |spec.nodes| == b.nodes.GetOr(1)
    ensures |spec.containers| == |template| + if b.nTasksPerNode.GetOr(1) >= 1 then b.nTasksPerNode.GetOr(1) - 1 else 0
  {
  }

  /**
   An array job runs as many pods as there are indexes, and as many at a time as the flag says
   after its percent sign; without one, whatever its form, one at a time.
   */
  lemma ArrayJobMeans(
    b: SlurmBuilder, given: Shape, script: string, job: string, template: seq<Container>, f: Flags, spec: JobSpec,
    from: nat, to: nat, n: nat)
    requires template != [] && b.IsJob(job, template, f, spec) && b.arrayFlag != ""
    requires Positive(given) && b.Prepared(given, script, None)
    requires from <= to <= MAX_INT32 && to >= 1 && 1 <= n <= MAX_INT32
    ensures Meaning(b.arrayFlag).Some? && spec.completions == |Meaning(b.arrayFlag).value.indexes|
    ensures b.arrayFlag == FormatNat(from) + ['-'] + FormatNat(to) + ['%'] + FormatNat(n) ==> spec.parallelism == n
    ensures b.arrayFlag == FormatNat(from) + ['-'] + FormatNat(to) + [':'] + FormatNat(n) ==> spec.parallelism == 1
    ensures b.arrayFlag == FormatNat(from) + ['-'] + FormatNat(to) ==> spec.parallelism == 1
    ensures CommaFormat(b.arrayFlag) ==> spec.parallelism == 1
  {
    ArrayLaws.WrittenRanges(from, to, n);
  }
}
