/**
 Requests, limits and totals of a Slurm job's containers. Quantities are whole numbers of
 thousandths.
 */
module Resources {
  import opened Wrappers
  import opened Arithmetic
  import opened Decimal

  type ResourceList = map<string, int>

  datatype Container = Container(
    name: string, command: seq<string>, requests: ResourceList, limits: ResourceList, mounts: seq<string>)

  const CPU := "cpu"
  const MEMORY := "memory"

  /** The flags that decide about resources. */
  datatype Flags = Flags(
    cpusPerTask: Option<int>,
    gpusPerTask: Option<map<string, int>>,
    memPerNode: Option<int>,
    memPerTask: Option<int>,
    memPerCPU: Option<int>,
    memPerGPU: Option<int>,
    requests: Option<ResourceList>,
    workerContainers: seq<string>)

  // ---- quantities ----

  /** `Quantity.Value`: whole units, rounded up away from zero. */
  function WholeUnits(milli: int): int {
    if milli >= 0 then (milli + 999) / 1000 else -((-milli + 999) / 1000)
  }

  /** Go's integer division, which truncates toward zero. */
  function TruncDiv(x: int, y: int): int
    requires y != 0
  {
    if x >= 0 then x / y else -((-x) / y)
  }

  /** The sum of all quantities of a list. */
  ghost function SumOf(m: map<string, int>): int {
    if m == map[] then 0
    else
      var k :| k in m;
      m[k] + SumOf(m - {k})
  }

  /** The sum does not depend on the order in which a map is read. */
  lemma {:induction false} SumOfTake(m: map<string, int>, k: string)
    requires k in m
    ensures SumOf(m) == m[k] + SumOf(m - {k})
    decreases |m|
  {
    var j :| j in m && SumOf(m) == m[j] + SumOf(m - {j});
    if j != k {
      SumOfTake(m - {j}, k);
      SumOfTake(m - {k}, j);
      assert m - {j} - {k} == m - {k} - {j};
    }
  }

  // ---- what one selected container gets ----

  predicate Selected(f: Flags, name: string) {
    f.workerContainers == [] || name in f.workerContainers
  }

  ghost function GpusPerTask(f: Flags): int {
    if f.gpusPerTask.Some? then SumOf(f.gpusPerTask.value) else 0
  }

  function CpuRequest(f: Flags): int {
    f.cpusPerTask.GetOr(0)
  }

  function MemoryByCpu(f: Flags): int {
    if f.memPerCPU.Some? && f.cpusPerTask.Some? then f.memPerCPU.value * WholeUnits(f.cpusPerTask.value) else 0
  }

  ghost function MemoryByGpu(f: Flags): int {
    if f.memPerGPU.Some? && f.gpusPerTask.Some? then f.memPerGPU.value * WholeUnits(GpusPerTask(f)) else 0
  }

  function MemoryByTask(f: Flags): int {
    f.memPerTask.GetOr(0)
  }

  /** The entries the flags put into a list of requests. */
  ghost function WithRequests(f: Flags, base: ResourceList): ResourceList {
    var cpu := if f.cpusPerTask.Some? then base[CPU := f.cpusPerTask.value] else base;
    var task := if f.memPerTask.Some? then cpu[MEMORY := f.memPerTask.value] else cpu;
    var byCpu := if MemoryByCpu(f) != 0 then task[MEMORY := MemoryByCpu(f)] else task;
    if MemoryByGpu(f) != 0 then byCpu[MEMORY := MemoryByGpu(f)] else byCpu
  }

  ghost function RequestsOf(f: Flags): ResourceList {
    WithRequests(f, f.requests.GetOr(map[]))
  }

  function LimitsOf(f: Flags, memPerContainer: int): ResourceList {
    var memory := if memPerContainer != 0 then map[MEMORY := memPerContainer] else map[];
    if f.gpusPerTask.Some? then memory + f.gpusPerTask.value else memory
  }

  const COMMAND := ["bash", "/slurm/scripts/entrypoint.sh"]
  const MOUNTS := ["slurm-scripts", "slurm-env"]

  /** A template container after the selection loop. */
  ghost function Edited(f: Flags, memPerContainer: int, c: Container): Container {
    if !Selected(f, c.name) then c
    else Container(c.name, COMMAND,
                   if RequestsOf(f) != map[] then RequestsOf(f) else c.requests,
                   if LimitsOf(f, memPerContainer) != map[] then LimitsOf(f, memPerContainer) else c.limits,
                   c.mounts + MOUNTS)
  }

  // ---- the containers of the job ----

  /** A job built from template containers with `replicas` copies of the first. */
  datatype Plan = Plan(flags: Flags, template: seq<Container>, replicas: nat, memPerContainer: int)

  /** The memory of a node, divided among the template's containers. */
  function MemoryShare(f: Flags, n: nat): int
    requires n >= 1
  {
    if f.memPerNode.Some? then TruncDiv(f.memPerNode.value, n) else 0
  }

  /** The plan `build` makes. */
  function PlanOf(f: Flags, template: seq<Container>, replicas: nat): Plan
    requires template != []
  {
    Plan(f, template, replicas, MemoryShare(f, |template|))
  }

  function ReplicaName(base: string, i: nat): string {
    base + "-" + FormatInt(i)
  }

  /** The template container at `k` after the selection loop. */
  ghost function EditedAt(p: Plan, k: nat): Container
    requires k < |p.template|
  {
    Edited(p.flags, p.memPerContainer, p.template[k])
  }

  /** The container at position `k` of the job. */
  ghost function Built(p: Plan, k: nat): Container
    requires p.template != [] && k < |p.template| + p.replicas
  {
    var n, base := |p.template|, p.template[0].name;
    if k >= n then EditedAt(p, 0).(name := ReplicaName(base, k - n + 1))
    else if k == 0 && p.replicas > 0 then EditedAt(p, 0).(name := ReplicaName(base, 0))
    else EditedAt(p, k)
  }

  ghost function BuiltAll(p: Plan): seq<Container>
    requires p.template != []
  {
    seq(|p.template| + p.replicas, k requires 0 <= k < |p.template| + p.replicas => Built(p, k))
  }

  /** Number of containers the flags apply to among the first `k` of the template. */
  function SelectedUpTo(f: Flags, template: seq<Container>, k: nat): (w: nat)
    requires k <= |template|
    ensures w <= k
  {
    if k == 0 then 0
    else SelectedUpTo(f, template, k - 1) + if Selected(f, template[k - 1].name) then 1 else 0
  }

  function CountSelected(f: Flags, template: seq<Container>): nat {
    SelectedUpTo(f, template, |template|)
  }

  /** Selected containers and replicas: the containers the running totals are about. */
  function CountManaged(p: Plan): nat {
    CountSelected(p.flags, p.template) + p.replicas
  }

  predicate FirstSelected(p: Plan)
    requires p.template != []
  {
    Selected(p.flags, p.template[0].name)
  }

  // ---- sums over the built containers ----

  /** What is summed: a number per container that does not depend on the container's name. */
  type Amount = Container -> int

  ghost predicate NameBlind(amount: Amount) {
    forall c: Container, name: string :: amount(c.(name := name)) == amount(c)
  }

  /** The flags give every selected container the same amount. */
  ghost predicate Uniform(p: Plan, amount: Amount, x: int) {
    forall c: Container :: Selected(p.flags, c.name) ==> amount(Edited(p.flags, p.memPerContainer, c)) == x
  }

  /** Position `k` of the job holds a selected template container or a replica. */
  predicate Managed(p: Plan, k: nat) {
    k < |p.template| ==> Selected(p.flags, p.template[k].name)
  }

  /** The sum over the managed containers among the first `k`. */
  ghost function Sum(p: Plan, amount: Amount, k: nat): int
    requires p.template != [] && k <= |p.template| + p.replicas
  {
    if k == 0 then 0
    else Sum(p, amount, k - 1) + if Managed(p, k - 1) then amount(Built(p, k - 1)) else 0
  }

  ghost function Total(p: Plan, amount: Amount): int
    requires p.template != []
  {
    Sum(p, amount, |p.template| + p.replicas)
  }

  lemma UniformAt(p: Plan, amount: Amount, x: int, k: nat)
    requires k < |p.template| && Uniform(p, amount, x) && Selected(p.flags, p.template[k].name)
    ensures amount(EditedAt(p, k)) == x
  {
  }

  lemma BuiltAmount(p: Plan, amount: Amount, x: int, k: nat)
    requires k < |p.template| && Selected(p.flags, p.template[k].name)
    requires NameBlind(amount) && Uniform(p, amount, x)
    ensures amount(Built(p, k)) == x
  {
    UniformAt(p, amount, x, k);
  }

  /** Over the template's positions the sum counts the selected containers. */
  lemma {:induction false} SelectedSum(p: Plan, amount: Amount, x: int, k: nat)
    requires p.template != [] && k <= |p.template| && NameBlind(amount) && Uniform(p, amount, x)
    ensures Sum(p, amount, k) == SelectedUpTo(p.flags, p.template, k) * x
  {
    if k > 0 {
      var w := SelectedUpTo(p.flags, p.template, k - 1);
      SelectedSum(p, amount, x, k - 1);
      if Selected(p.flags, p.template[k - 1].name) {
        BuiltAmount(p, amount, x, k - 1);
        assert Sum(p, amount, k) == w * x + x;
        OneMore(w, x);
      }
    }
  }

  lemma ReplicaAmount(p: Plan, amount: Amount, k: nat)
    requires p.template != [] && |p.template| <= k < |p.template| + p.replicas && NameBlind(amount)
    ensures Managed(p, k) && amount(Built(p, k)) == amount(EditedAt(p, 0))
  {
  }

  /** Each replica repeats the first container. */
  lemma {:induction false} ReplicaSum(p: Plan, amount: Amount, k: nat)
    requires p.template != [] && k <= p.replicas && NameBlind(amount)
    ensures Sum(p, amount, |p.template| + k) == Sum(p, amount, |p.template|) + k * amount(EditedAt(p, 0))
  {
    if k > 0 {
      var before := |p.template| + k - 1;
      ReplicaSum(p, amount, k - 1);
      ReplicaAmount(p, amount, before);
      assert Sum(p, amount, before + 1) == Sum(p, amount, before) + amount(EditedAt(p, 0));
      OneMore(k - 1, amount(EditedAt(p, 0)));
    }
  }

  lemma TotalOf(p: Plan, amount: Amount, x: int)
    requires p.template != [] && NameBlind(amount) && Uniform(p, amount, x)
    ensures Total(p, amount) == CountSelected(p.flags, p.template) * x + p.replicas * amount(EditedAt(p, 0))
  {
    SelectedSum(p, amount, x, |p.template|);
    ReplicaSum(p, amount, p.replicas);
  }

  /** Adding `x` per managed container gives the sum exactly when the replicas, if any, have `x` each. */
  lemma CountedIsSummed(p: Plan, amount: Amount, x: int)
    requires p.template != [] && NameBlind(amount) && Uniform(p, amount, x)
    ensures CountManaged(p) * x == Total(p, amount) <==> p.replicas == 0 || amount(EditedAt(p, 0)) == x
  {
    TotalOf(p, amount, x);
    SumsAgree(CountSelected(p.flags, p.template), p.replicas, x, amount(EditedAt(p, 0)));
  }

  lemma SumsAgree(w: int, r: int, x: int, y: int)
    ensures (w + r) * x == w * x + r * y <==> r == 0 || y == x
  {
    assert (w + r) * x == w * x + r * x;
    assert r * x - r * y == r * (x - y);
    ProductZero(r, x - y);
  }

  // ---- conservation ----

  function Request(c: Container, name: string): int {
    if name in c.requests then c.requests[name] else 0
  }

  function RequestAmount(name: string): Amount {
    (c: Container) => Request(c, name)
  }

  /** What the flags request, entry by entry. */
  lemma RequestEntries(f: Flags)
    ensures f.cpusPerTask.Some? ==> CPU in RequestsOf(f) && RequestsOf(f)[CPU] == CpuRequest(f)
    ensures MemoryByCpu(f) == 0 && MemoryByGpu(f) == 0 && f.memPerTask.Some? ==>
              MEMORY in RequestsOf(f) && RequestsOf(f)[MEMORY] == MemoryByTask(f)
    ensures MemoryByGpu(f) == 0 && MemoryByCpu(f) != 0 ==>
              MEMORY in RequestsOf(f) && RequestsOf(f)[MEMORY] == MemoryByCpu(f)
    ensures MemoryByGpu(f) != 0 ==> MEMORY in RequestsOf(f) && RequestsOf(f)[MEMORY] == MemoryByGpu(f)
  {
    assert CPU[0] != MEMORY[0];
  }

  lemma RequestUniform(p: Plan, name: string)
    requires name in RequestsOf(p.flags)
    ensures NameBlind(RequestAmount(name)) && Uniform(p, RequestAmount(name), RequestsOf(p.flags)[name])
  {
  }

  /** The first container holds what the flags request, or what its template requests. */
  lemma RequestConserved(p: Plan, name: string, x: int)
    requires p.template != [] && name in RequestsOf(p.flags) && RequestsOf(p.flags)[name] == x
    ensures CountManaged(p) * x == Total(p, RequestAmount(name)) <==>
            p.replicas == 0 || FirstSelected(p) || Request(p.template[0], name) == x
  {
    RequestUniform(p, name);
    CountedIsSummed(p, RequestAmount(name), x);
    if FirstSelected(p) {
      UniformAt(p, RequestAmount(name), x, 0);
    }
  }

  /**
   The CPU total is the sum of the CPU requests of the selected containers and the replicas
   if and only if there is no replica, the first container is selected, or its template
   happens to request the same.
   */
  lemma CpuConserved(p: Plan)
    requires p.template != [] && p.flags.cpusPerTask.Some?
    ensures TotalCpus(p) == Total(p, RequestAmount(CPU)) <==>
            p.replicas == 0 || FirstSelected(p) || Request(p.template[0], CPU) == CpuRequest(p.flags)
  {
    RequestEntries(p.flags);
    RequestConserved(p, CPU, CpuRequest(p.flags));
  }

  ghost predicate OneMemoryFlag(f: Flags) {
    && !(f.memPerTask.Some? && f.memPerCPU.Some?)
    && !(f.memPerTask.Some? && f.memPerGPU.Some?)
    && !(f.memPerCPU.Some? && f.memPerGPU.Some?)
  }

  /** The running totals at the end of both loops. */
  function TotalCpus(p: Plan): int {
    CountManaged(p) * CpuRequest(p.flags)
  }

  ghost function TotalGpus(p: Plan): int {
    CountSelected(p.flags, p.template) * GpusPerTask(p.flags)
  }

  ghost function TotalMemory(p: Plan): int {
    CountSelected(p.flags, p.template) * MemoryByTask(p.flags)
    + CountManaged(p) * (MemoryByCpu(p.flags) + MemoryByGpu(p.flags))
  }

  /** The same for memory given per CPU or per GPU. */
  lemma MemoryConserved(p: Plan)
    requires p.template != [] && OneMemoryFlag(p.flags)
    requires MemoryByCpu(p.flags) + MemoryByGpu(p.flags) != 0
    ensures TotalMemory(p) == Total(p, RequestAmount(MEMORY)) <==>
            || p.replicas == 0 || FirstSelected(p)
            || Request(p.template[0], MEMORY) == MemoryByCpu(p.flags) + MemoryByGpu(p.flags)
  {
    RequestEntries(p.flags);
    RequestConserved(p, MEMORY, MemoryByCpu(p.flags) + MemoryByGpu(p.flags));
    ProductZero(CountSelected(p.flags, p.template), MemoryByTask(p.flags));
  }

  lemma TaskMemoryUniform(p: Plan)
    requires OneMemoryFlag(p.flags) && p.flags.memPerTask.Some?
    ensures MemoryByCpu(p.flags) == 0 && MemoryByGpu(p.flags) == 0
    ensures NameBlind(RequestAmount(MEMORY)) && Uniform(p, RequestAmount(MEMORY), MemoryByTask(p.flags))
  {
    RequestEntries(p.flags);
    RequestUniform(p, MEMORY);
  }

  /** What container 0, and with it every replica, requests when the flags request `x`. */
  function FirstRequest(p: Plan, name: string, x: int): int
    requires p.template != []
  {
    if FirstSelected(p) then x else Request(p.template[0], name)
  }

  /**
   Memory given per task is counted without the replicas: it adds up exactly when there are
   none or container 0 requests no memory.
   */
  lemma TaskMemoryConserved(p: Plan)
    requires p.template != [] && OneMemoryFlag(p.flags) && p.flags.memPerTask.Some?
    ensures TotalMemory(p) == Total(p, RequestAmount(MEMORY)) <==>
            p.replicas == 0 || FirstRequest(p, MEMORY, MemoryByTask(p.flags)) == 0
  {
    var x := MemoryByTask(p.flags);
    TaskMemoryUniform(p);
    TotalOf(p, RequestAmount(MEMORY), x);
    if FirstSelected(p) {
      UniformAt(p, RequestAmount(MEMORY), x, 0);
    }
    ProductZero(p.replicas, FirstRequest(p, MEMORY, x));
    TaskMemoryTotal(p);
  }

  lemma TaskMemoryTotal(p: Plan)
    requires MemoryByCpu(p.flags) == 0 && MemoryByGpu(p.flags) == 0
    ensures TotalMemory(p) == CountSelected(p.flags, p.template) * MemoryByTask(p.flags)
  {
    ProductZero(CountManaged(p), MemoryByCpu(p.flags) + MemoryByGpu(p.flags));
  }

  /** The part of a container's limits that names the requested GPUs. */
  ghost function GpuLimits(f: Flags, c: Container): int
    requires f.gpusPerTask.Some?
  {
    SumOf(map k | k in f.gpusPerTask.value && k in c.limits :: c.limits[k])
  }

  ghost function GpuAmount(f: Flags): Amount
    requires f.gpusPerTask.Some?
  {
    (c: Container) => GpuLimits(f, c)
  }

  lemma GpusUniform(p: Plan)
    requires p.flags.gpusPerTask.Some?
    ensures NameBlind(GpuAmount(p.flags)) && Uniform(p, GpuAmount(p.flags), GpusPerTask(p.flags))
  {
    var f, m := p.flags, p.memPerContainer;
    var gpus := f.gpusPerTask.value;
    forall c: Container | Selected(f, c.name) ensures GpuLimits(f, Edited(f, m, c)) == SumOf(gpus) {
      var limits := Edited(f, m, c).limits;
      assert forall k :: k in gpus ==> k in LimitsOf(f, m) && LimitsOf(f, m)[k] == gpus[k];
      assert (map k | k in gpus && k in limits :: limits[k]) == gpus;
    }
  }

  /** GPUs, too, are counted without the replicas. */
  lemma GpusConserved(p: Plan)
    requires p.template != [] && p.flags.gpusPerTask.Some?
    ensures TotalGpus(p) == Total(p, GpuAmount(p.flags)) <==>
            p.replicas == 0 || (if FirstSelected(p) then GpusPerTask(p.flags) else GpuLimits(p.flags, p.template[0])) == 0
  {
    var x := GpusPerTask(p.flags);
    GpusUniform(p);
    TotalOf(p, GpuAmount(p.flags), x);
    if FirstSelected(p) {
      UniformAt(p, GpuAmount(p.flags), x, 0);
    }
    ProductZero(p.replicas, GpuLimits(p.flags, EditedAt(p, 0)));
  }

  // ---- the memory limit per node ----

  function Limit(c: Container, name: string): int {
    if name in c.limits then c.limits[name] else 0
  }

  function LimitAmount(name: string): Amount {
    (c: Container) => Limit(c, name)
  }

  /** The plan divides the memory `m` of a node among the template's containers. */
  predicate Divides(p: Plan, m: int) {
    && p.template != []
    && p.flags.memPerNode == Some(m)
    && p.memPerContainer == MemoryShare(p.flags, |p.template|)
  }

  /** The memory limit of a selected container: its share, or what a GPU called "memory" makes of it. */
  function LimitShare(f: Flags, share: int): int {
    if f.gpusPerTask.Some? && MEMORY in f.gpusPerTask.value then f.gpusPerTask.value[MEMORY] else share
  }

  /** The flags set limits; without any, containers keep those of their template. */
  predicate SetsLimits(p: Plan) {
    LimitsOf(p.flags, p.memPerContainer) != map[]
  }

  /** The memory limit of container 0 and of every replica. */
  function FirstLimit(p: Plan): int
    requires p.template != []
  {
    if FirstSelected(p) && SetsLimits(p) then LimitShare(p.flags, p.memPerContainer) else Limit(p.template[0], MEMORY)
  }

  /** The memory limits that the first `k` containers of the template have by themselves, selected ones only. */
  function TemplateLimits(p: Plan, k: nat): int
    requires k <= |p.template|
  {
    if k == 0 then 0
    else
      TemplateLimits(p, k - 1)
      + if Selected(p.flags, p.template[k - 1].name) then Limit(p.template[k - 1], MEMORY) else 0
  }

  /** The memory limits of the selected containers: one share each, or what their template says. */
  function SelectedLimits(p: Plan): int
    requires p.template != []
  {
    if SetsLimits(p) then CountSelected(p.flags, p.template) * LimitShare(p.flags, p.memPerContainer)
    else TemplateLimits(p, |p.template|)
  }

  lemma LimitUniform(p: Plan)
    requires SetsLimits(p)
    ensures Uniform(p, LimitAmount(MEMORY), LimitShare(p.flags, p.memPerContainer))
  {
    var limits := LimitsOf(p.flags, p.memPerContainer);
    assert MEMORY in limits ==> limits[MEMORY] == LimitShare(p.flags, p.memPerContainer);
  }

  lemma {:induction false} TemplateLimitsKept(p: Plan, k: nat)
    requires p.template != [] && k <= |p.template| && !SetsLimits(p)
    ensures Sum(p, LimitAmount(MEMORY), k) == TemplateLimits(p, k)
  {
    if k > 0 {
      TemplateLimitsKept(p, k - 1);
      assert Limit(Built(p, k - 1), MEMORY) == Limit(p.template[k - 1], MEMORY);
    }
  }

  lemma FirstLimitBuilt(p: Plan)
    requires p.template != []
    ensures Limit(EditedAt(p, 0), MEMORY) == FirstLimit(p)
  {
    if FirstSelected(p) && SetsLimits(p) {
      LimitUniform(p);
      UniformAt(p, LimitAmount(MEMORY), LimitShare(p.flags, p.memPerContainer), 0);
    }
  }

  /** The memory limits of all managed containers together. */
  lemma LimitTotal(p: Plan)
    requires p.template != []
    ensures Total(p, LimitAmount(MEMORY)) == SelectedLimits(p) + p.replicas * FirstLimit(p)
  {
    FirstLimitBuilt(p);
    if SetsLimits(p) {
      LimitUniform(p);
      TotalOf(p, LimitAmount(MEMORY), LimitShare(p.flags, p.memPerContainer));
    } else {
      TemplateLimitsKept(p, |p.template|);
      ReplicaSum(p, LimitAmount(MEMORY), p.replicas);
    }
  }

  /**
   The memory of a node is divided before the replicas are added: the limits of selected
   containers and replicas together stay within it if and only if the limits of the selected
   containers (a share each, if the division leaves any) and those of the copies of container
   0 do.
   */
  lemma MemoryLimitsFit(p: Plan, m: int)
    requires Divides(p, m)
    ensures p.memPerContainer == TruncDiv(m, |p.template|)
    ensures Total(p, LimitAmount(MEMORY)) <= m <==> SelectedLimits(p) + p.replicas * FirstLimit(p) <= m
  {
    LimitTotal(p);
  }

  /**
   With container 0 selected: the limits fit when selected containers and replicas are no more
   than the template's containers, and when the division is exact only then.
   */
  lemma MemorySharesFit(p: Plan, m: int)
    requires Divides(p, m) && m >= 0 && p.memPerContainer != 0 && FirstSelected(p)
    requires p.flags.gpusPerTask.Some? ==> MEMORY !in p.flags.gpusPerTask.value
    ensures CountManaged(p) <= |p.template| ==> Total(p, LimitAmount(MEMORY)) <= m
    ensures CountManaged(p) > |p.template| && m % |p.template| == 0 ==> Total(p, LimitAmount(MEMORY)) > m
  {
    var x := p.memPerContainer;
    assert MEMORY in LimitsOf(p.flags, x);
    MemoryLimitsFit(p, m);
    Distribute(CountSelected(p.flags, p.template), p.replicas, x);
    Share(m, |p.template|, x, CountManaged(p), CountManaged(p) * x);
  }

  lemma Share(m: int, n: int, x: int, all: int, total: int)
    requires m >= 0 && n >= 1 && x == m / n && x != 0 && total == all * x
    ensures 0 <= all <= n ==> total <= m
    ensures all > n && m % n == 0 ==> total > m
  {
    Remainder(m, n);
    Divide(m, n, 0);
    if all <= n {
      Scaled(all, n, x);
    } else {
      Scaled(n + 1, all, x);
      OneMore(n, x);
    }
  }

  // ---- names ----

  /** base-0, base-1, ... are different names. */
  lemma ReplicaNamesDistinct(base: string, i: nat, j: nat)
    requires ReplicaName(base, i) == ReplicaName(base, j)
    ensures i == j
  {
    var prefix := base + "-";
    assert ReplicaName(base, i)[|prefix|..] == FormatInt(i);
    assert ReplicaName(base, j)[|prefix|..] == FormatInt(j);
    FormatInjective(i, j);
  }

  ghost predicate DistinctNames(containers: seq<Container>) {
    forall j, k :: 0 <= j < k < |containers| ==> containers[j].name != containers[k].name
  }

  /** No other container of the template already has the name of a replica. */
  ghost predicate NoClash(template: seq<Container>, replicas: nat)
    requires template != []
  {
    forall k, i: nat :: 1 <= k < |template| && i <= replicas ==> template[k].name != ReplicaName(template[0].name, i)
  }

  /** The index in the family base-0 ... base-r of a position that holds one of its members. */
  function ReplicaIndex(n: nat, k: nat): nat {
    if k < n then 0 else k - n + 1
  }

  function NameAt(p: Plan, k: nat): string
    requires p.template != []
  {
    if 1 <= k < |p.template| then p.template[k].name
    else ReplicaName(p.template[0].name, ReplicaIndex(|p.template|, k))
  }

  lemma BuiltName(p: Plan, k: nat)
    requires p.template != [] && p.replicas > 0 && k < |p.template| + p.replicas
    ensures Built(p, k).name == NameAt(p, k)
  {
  }

  /** With replicas, the containers have different names exactly when no template name clashes. */
  lemma NamesDistinct(p: Plan)
    requires p.template != [] && DistinctNames(p.template) && p.replicas > 0
    ensures DistinctNames(BuiltAll(p)) <==> NoClash(p.template, p.replicas)
  {
    var all, n, base := BuiltAll(p), |p.template|, p.template[0].name;
    forall k | 0 <= k < |all| ensures all[k].name == NameAt(p, k) {
      BuiltName(p, k);
    }
    if NoClash(p.template, p.replicas) {
      forall j, k | 0 <= j < k < |all| ensures all[j].name != all[k].name {
        if all[j].name == all[k].name && !(1 <= j < n) && !(1 <= k < n) {
          ReplicaNamesDistinct(base, ReplicaIndex(n, j), ReplicaIndex(n, k));
        }
      }
    }
    if DistinctNames(all) {
      forall k, i: nat | 1 <= k < n && i <= p.replicas ensures p.template[k].name != ReplicaName(base, i) {
        var j := if i == 0 then 0 else n + i - 1;
        assert all[j].name == ReplicaName(base, i) && all[k].name == p.template[k].name;
      }
    }
  }
}
