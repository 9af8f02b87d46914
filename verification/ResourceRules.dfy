/** The containers of a job, written out entry by entry. */
module ResourceRules {
  import opened Wrappers
  import opened Arithmetic
  import opened Decimal
  import opened Resources

  // ---- numbers ----

  /** `u` whole units are `milli` thousandths, rounded away from zero. */
  predicate RoundsUp(milli: int, u: int) {
    if milli >= 0 then 1000 * (u - 1) < milli <= 1000 * u else 1000 * u <= milli < 1000 * (u + 1)
  }

  lemma WholeUnitsMeans(milli: int, u: int)
    ensures WholeUnits(milli) == u <==> RoundsUp(milli, u)
  {
  }

  /** `q` is x/y cut off toward zero. */
  predicate CutsOff(x: int, y: int, q: int)
    requires y >= 1
  {
    if x >= 0 then q * y <= x < q * y + y else q * y - y < x <= q * y
  }

  lemma TruncDivMeans(x: int, y: int)
    requires y >= 1
    ensures CutsOff(x, y, TruncDiv(x, y))
  {
    Remainder(x, y);
    Remainder(-x, y);
    Distribute(0, (-x) / y, y);
  }

  // ---- which containers ----

  /** The flags apply to a container: all of them without a list of names, else those named. */
  predicate Chosen(f: Flags, name: string) {
    f.workerContainers == [] || exists k :: 0 <= k < |f.workerContainers| && f.workerContainers[k] == name
  }

  /** The positions of the template the flags apply to, below `n`. */
  ghost function ChosenBelow(f: Flags, template: seq<Container>, n: nat): set<nat>
    requires n <= |template|
  {
    set k: nat | k < n && Chosen(f, template[k].name)
  }

  lemma ChosenMeans(f: Flags, name: string)
    ensures Selected(f, name) <==> Chosen(f, name)
  {
  }

  lemma {:induction false} CountedOnce(f: Flags, template: seq<Container>, n: nat)
    requires n <= |template|
    ensures SelectedUpTo(f, template, n) == |ChosenBelow(f, template, n)|
  {
    if n > 0 {
      CountedOnce(f, template, n - 1);
      var last: nat := n - 1;
      ChosenMeans(f, template[last].name);
      if Selected(f, template[last].name) {
        assert ChosenBelow(f, template, n) == ChosenBelow(f, template, last) + {last};
      } else {
        assert ChosenBelow(f, template, n) == ChosenBelow(f, template, last);
      }
    }
  }

  /** Position `k` of the job holds a container with the flags' requests: a chosen one or a copy of a chosen one. */
  predicate HoldsRequests(p: Plan, k: nat) {
    p.template != [] && k < |p.template| + p.replicas
    && Chosen(p.flags, if k < |p.template| then p.template[k].name else p.template[0].name)
  }

  // ---- requests ----

  /** What a list of requests holds for a name. */
  predicate Entry(list: ResourceList, name: string, value: Option<int>) {
    if value.Some? then name in list && list[name] == value.value else name !in list
  }

  function Given(f: Flags, name: string): Option<int> {
    if f.requests.Some? && name in f.requests.value then Some(f.requests.value[name]) else None
  }

  /** Memory for one unit, times the units of CPU or GPU, in the units they are rounded up to. */
  ghost predicate PerUnit(each: Option<int>, milli: Option<int>, memory: int) {
    if each.Some? && milli.Some? then exists u :: RoundsUp(milli.value, u) && memory == each.value * u else memory == 0
  }

  lemma PerUnitMeans(f: Flags)
    ensures PerUnit(f.memPerCPU, f.cpusPerTask, MemoryByCpu(f))
    ensures PerUnit(f.memPerGPU, if f.gpusPerTask.Some? then Some(SumOf(f.gpusPerTask.value)) else None, MemoryByGpu(f))
  {
    WholeUnitsMeans(f.cpusPerTask.GetOr(0), WholeUnits(f.cpusPerTask.GetOr(0)));
    WholeUnitsMeans(GpusPerTask(f), WholeUnits(GpusPerTask(f)));
  }

  /** The requests of the flags: their CPUs, their memory, and for the rest what the user requested. */
  lemma RequestsMean(f: Flags, byCpu: int, byGpu: int, name: string)
    requires OneMemoryFlag(f)
    requires PerUnit(f.memPerCPU, f.cpusPerTask, byCpu)
    requires PerUnit(f.memPerGPU, if f.gpusPerTask.Some? then Some(SumOf(f.gpusPerTask.value)) else None, byGpu)
    ensures name != "cpu" && name != "memory" ==> Entry(RequestsOf(f), name, Given(f, name))
    ensures Entry(RequestsOf(f), "cpu", if f.cpusPerTask.Some? then f.cpusPerTask else Given(f, "cpu"))
    ensures Entry(RequestsOf(f), "memory",
                  if f.memPerTask.Some? then f.memPerTask
                  else if byCpu != 0 then Some(byCpu)
                  else if byGpu != 0 then Some(byGpu)
                  else Given(f, "memory"))
  {
    UnitsUnique(f, byCpu, byGpu);
    assert CPU[0] != MEMORY[0];
  }

  lemma UnitsUnique(f: Flags, byCpu: int, byGpu: int)
    requires PerUnit(f.memPerCPU, f.cpusPerTask, byCpu)
    requires PerUnit(f.memPerGPU, if f.gpusPerTask.Some? then Some(SumOf(f.gpusPerTask.value)) else None, byGpu)
    ensures byCpu == MemoryByCpu(f) && byGpu == MemoryByGpu(f)
  {
    if f.memPerCPU.Some? && f.cpusPerTask.Some? {
      var u :| RoundsUp(f.cpusPerTask.value, u) && byCpu == f.memPerCPU.value * u;
      WholeUnitsMeans(f.cpusPerTask.value, u);
    }
    if f.memPerGPU.Some? && f.gpusPerTask.Some? {
      var u :| RoundsUp(SumOf(f.gpusPerTask.value), u) && byGpu == f.memPerGPU.value * u;
      WholeUnitsMeans(SumOf(f.gpusPerTask.value), u);
    }
  }

  // ---- limits ----

  /** The limits of the flags: their GPUs, and a share of the node's memory unless it is zero. */
  lemma LimitsMean(f: Flags, share: int, name: string)
    ensures Entry(LimitsOf(f, share), name,
                  if f.gpusPerTask.Some? && name in f.gpusPerTask.value then Some(f.gpusPerTask.value[name])
                  else if name == "memory" && share != 0 then Some(share)
                  else None)
  {
  }

  // ---- the containers ----

  /** The container at `k` of the template, or the one copied to `k`. */
  function SourceOf(p: Plan, k: nat): Container
    requires p.template != [] && k < |p.template| + p.replicas
  {
    if k < |p.template| then p.template[k] else p.template[0]
  }

  /** How the built container `c` comes from `from` when the flags apply to it. */
  ghost predicate Equipped(f: Flags, share: int, from: Container, c: Container) {
    && c.command == ["bash", "/slurm/scripts/entrypoint.sh"]
    && c.mounts == from.mounts + ["slurm-scripts", "slurm-env"]
    && c.requests == (if RequestsOf(f) == map[] then from.requests else RequestsOf(f))
    && c.limits == (if LimitsOf(f, share) == map[] then from.limits else LimitsOf(f, share))
  }

  predicate Untouched(from: Container, c: Container) {
    c.command == from.command && c.mounts == from.mounts && c.requests == from.requests && c.limits == from.limits
  }

  /** A copy of container 0 is numbered, and so is container 0 itself when there are copies. */
  function NameBuilt(p: Plan, k: nat): string
    requires p.template != [] && k < |p.template| + p.replicas
  {
    var n := |p.template|;
    if k >= n then p.template[0].name + "-" + FormatNat(k - n + 1)
    else if k == 0 && p.replicas > 0 then p.template[0].name + "-0"
    else p.template[k].name
  }

  lemma ContainersMean(p: Plan, k: nat)
    requires p.template != [] && k < |p.template| + p.replicas
    ensures |BuiltAll(p)| == |p.template| + p.replicas && BuiltAll(p)[k].name == NameBuilt(p, k)
    ensures if Chosen(p.flags, SourceOf(p, k).name)
            then Equipped(p.flags, p.memPerContainer, SourceOf(p, k), BuiltAll(p)[k])
            else Untouched(SourceOf(p, k), BuiltAll(p)[k])
  {
    ChosenMeans(p.flags, SourceOf(p, k).name);
    assert FormatNat(0) == "0";
    var base := p.template[0].name;
    assert base + "-" + "0" == base + "-0";
  }

  // ---- memory per CPU and per GPU ----

  /** With memory per CPU every chosen container, and every copy of a chosen one, requests that times its CPUs. */
  lemma MemoryPerCpuRequested(p: Plan, u: int, k: nat)
    requires OneMemoryFlag(p.flags) && p.flags.memPerCPU.Some? && p.flags.cpusPerTask.Some?
    requires RoundsUp(p.flags.cpusPerTask.value, u) && p.flags.memPerCPU.value * u != 0
    requires HoldsRequests(p, k)
    ensures Entry(BuiltAll(p)[k].requests, "memory", Some(p.flags.memPerCPU.value * u))
    ensures TotalMemory(p) ==
            (|ChosenBelow(p.flags, p.template, |p.template|)| + p.replicas) * (p.flags.memPerCPU.value * u)
  {
    var f := p.flags;
    PerUnitMeans(f);
    UnitsUnique(f, f.memPerCPU.value * u, MemoryByGpu(f));
    RequestsMean(f, f.memPerCPU.value * u, MemoryByGpu(f), "memory");
    ContainersMean(p, k);
    CountedOnce(f, p.template, |p.template|);
    ProductZero(CountSelected(f, p.template), MemoryByTask(f));
  }

  /** The same with memory per GPU and the GPUs of a task together. */
  lemma MemoryPerGpuRequested(p: Plan, u: int, k: nat)
    requires OneMemoryFlag(p.flags) && p.flags.memPerGPU.Some? && p.flags.gpusPerTask.Some?
    requires RoundsUp(SumOf(p.flags.gpusPerTask.value), u) && p.flags.memPerGPU.value * u != 0
    requires HoldsRequests(p, k)
    ensures Entry(BuiltAll(p)[k].requests, "memory", Some(p.flags.memPerGPU.value * u))
    ensures TotalMemory(p) ==
            (|ChosenBelow(p.flags, p.template, |p.template|)| + p.replicas) * (p.flags.memPerGPU.value * u)
  {
    var f := p.flags;
    PerUnitMeans(f);
    UnitsUnique(f, MemoryByCpu(f), f.memPerGPU.value * u);
    RequestsMean(f, MemoryByCpu(f), f.memPerGPU.value * u, "memory");
    ContainersMean(p, k);
    CountedOnce(f, p.template, |p.template|);
    ProductZero(CountSelected(f, p.template), MemoryByTask(f));
  }

  /** One container without replicas, with memory per CPU. */
  function CpuPlan(cpus: int, each: int): Plan {
    PlanOf(Flags(Some(cpus), None, None, None, Some(each), None, None, []), [Container("a", [], map[], map[], [])], 0)
  }

  /** 4 CPUs at 1000 each make 4000; 1.5 CPUs count as 2. */
  lemma CpusTimesMemory()
    ensures Entry(BuiltAll(CpuPlan(4000, 1000))[0].requests, "memory", Some(4000))
    ensures Entry(BuiltAll(CpuPlan(1500, 1000))[0].requests, "memory", Some(2000))
    ensures TotalMemory(CpuPlan(4000, 1000)) == 4000 && TotalMemory(CpuPlan(1500, 1000)) == 2000
  {
    MemoryPerCpuRequested(CpuPlan(4000, 1000), 4, 0);
    MemoryPerCpuRequested(CpuPlan(1500, 1000), 2, 0);
    AllChosen(CpuPlan(4000, 1000));
    AllChosen(CpuPlan(1500, 1000));
  }

  lemma AllChosen(p: Plan)
    requires |p.template| == 1 && p.flags.workerContainers == []
    ensures |ChosenBelow(p.flags, p.template, 1)| == 1
  {
    var zero: nat := 0;
    assert ChosenBelow(p.flags, p.template, 1) == {zero};
  }

  // ---- the other totals ----

  /** CPUs count for chosen containers and replicas, GPUs and memory per task for chosen containers. */
  lemma TotalsMean(p: Plan)
    requires p.template != []
    ensures var w := |ChosenBelow(p.flags, p.template, |p.template|)|;
      && TotalCpus(p) == (w + p.replicas) * p.flags.cpusPerTask.GetOr(0)
      && TotalGpus(p) == w * (if p.flags.gpusPerTask.Some? then SumOf(p.flags.gpusPerTask.value) else 0)
      && (p.flags.memPerTask.Some? && OneMemoryFlag(p.flags) ==> TotalMemory(p) == w * p.flags.memPerTask.value)
  {
    CountedOnce(p.flags, p.template, |p.template|);
    if p.flags.memPerTask.Some? && OneMemoryFlag(p.flags) {
      TaskMemoryTotal(p);
    }
  }
}
