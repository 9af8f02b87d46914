/** Completing nodes, tasks and tasks per node from the values given; 1 means not given. */
module NodeTasks {
  import opened Wrappers
  import opened Arithmetic

  datatype Shape = Shape(nodes: int, nTasks: int, nTasksPerNode: int)

  datatype ShapeError =
    | TasksMissing          // nodes alone do not say how many tasks to run
    | InvalidShape          // all three given, and they disagree
    | InvalidTasks          // tasks do not divide among tasks per node
    | InvalidNodesOrTasks   // tasks do not divide among nodes

  predicate Positive(s: Shape) {
    1 <= s.nodes <= MAX_INT32 && 1 <= s.nTasks <= MAX_INT32 && 1 <= s.nTasksPerNode <= MAX_INT32
  }

  /** The values a caller can check before the call: their product is an int32. */
  predicate Fits(s: Shape) {
    s.nodes * s.nTasksPerNode <= MAX_INT32
  }

  predicate OnlyNodes(s: Shape) {
    s.nodes != 1 && s.nTasks == 1 && s.nTasksPerNode == 1
  }

  predicate ProductLaw(s: Shape) {
    s.nTasks == s.nodes * s.nTasksPerNode
  }

  /** `s` is a possible completion of the given values. */
  predicate Completes(given: Shape, s: Shape) {
    && s.nodes >= 1 && s.nTasks >= 1 && s.nTasksPerNode >= 1 && ProductLaw(s)
    && (given.nodes != 1 ==> s.nodes == given.nodes)
    && (given.nTasks != 1 ==> s.nTasks == given.nTasks)
    && (given.nTasksPerNode != 1 ==> s.nTasksPerNode == given.nTasksPerNode)
  }

  ghost predicate Completable(given: Shape) {
    exists s :: Completes(given, s)
  }

  function Given(s: Shape): nat {
    (if s.nodes != 1 then 1 else 0) + (if s.nTasks != 1 then 1 else 0) + if s.nTasksPerNode != 1 then 1 else 0
  }

  /** The outcome, with integer division for the code's floating-point test. */
  function Solve(g: Shape): Result<Shape, ShapeError>
    requires Positive(g)
  {
    if OnlyNodes(g) then Failure(TasksMissing)
    else if Given(g) == 3 then
      if g.nTasks == Wrap32(g.nodes * g.nTasksPerNode) then Success(g) else Failure(InvalidShape)
    else if g.nodes == 1 && g.nTasks != 1 && g.nTasksPerNode != 1 then
      if g.nTasks % g.nTasksPerNode == 0 then Success(g.(nodes := g.nTasks / g.nTasksPerNode)) else Failure(InvalidTasks)
    else if g.nTasks != 1 then
      if g.nTasks % g.nodes == 0 then Success(g.(nTasksPerNode := g.nTasks / g.nodes)) else Failure(InvalidNodesOrTasks)
    else Success(g.(nTasks := Wrap32(g.nodes * g.nTasksPerNode)))
  }

  lemma DivideBack(t: int, d: int)
    requires t >= 1 && d >= 1 && t % d == 0
    ensures t / d * d == t && 1 <= t / d <= t
  {
    var q := t / d;
    Remainder(t, d);
    if q <= 0 {
      Scaled(q, 0, d);
    } else {
      Scaled(1, d, q);
    }
  }

  lemma DivideOnly(t: int, q: int, d: int)
    requires q >= 1 && d >= 1 && t == q * d
    ensures t % d == 0 && t / d == q
  {
    MultipleRemainder(q, d);
  }

  /** The arithmetic accepts exactly the completable values, except nodes alone. */
  lemma SolvesCompletable(g: Shape)
    requires Positive(g) && Fits(g)
    ensures Solve(g).Success? <==> !OnlyNodes(g) && Completable(g)
    ensures Solve(g).Success? ==> Completes(g, Solve(g).value) && Positive(Solve(g).value)
  {
    ProductPositive(g.nodes, g.nTasksPerNode);
    if Solve(g).Success? {
      SolutionCompletes(g);
      assert Completes(g, Solve(g).value);
    } else if !OnlyNodes(g) {
      forall s ensures !Completes(g, s) {
        if Completes(g, s) {
          CompletionIsSolution(g, s);
        }
      }
    }
  }

  lemma ProductPositive(x: int, y: int)
    requires x >= 1 && y >= 1
    ensures x * y >= x && x * y >= y
  {
  }

  lemma SolutionCompletes(g: Shape)
    requires Positive(g) && Fits(g) && Solve(g).Success?
    ensures Completes(g, Solve(g).value) && Positive(Solve(g).value)
  {
    ProductPositive(g.nodes, g.nTasksPerNode);
    if g.nTasks % g.nTasksPerNode == 0 {
      DivideBack(g.nTasks, g.nTasksPerNode);
    }
    if g.nTasks % g.nodes == 0 {
      DivideBack(g.nTasks, g.nodes);
    }
  }

  /** Two or more given values leave one completion, and the code finds it. */
  lemma CompletionIsSolution(g: Shape, s: Shape)
    requires Positive(g) && Fits(g) && !OnlyNodes(g) && Completes(g, s)
    ensures Solve(g).Success?
    ensures Given(g) >= 2 ==> Solve(g).value == s
  {
    if g.nodes == 1 && g.nTasks != 1 && g.nTasksPerNode != 1 {
      DivideOnly(g.nTasks, s.nodes, g.nTasksPerNode);
    } else if g.nTasks != 1 && g.nTasksPerNode == 1 && g.nodes != 1 {
      assert g.nTasks == s.nTasksPerNode * g.nodes;
      DivideOnly(g.nTasks, s.nTasksPerNode, g.nodes);
    }
  }

  /** The product law, and what it says of a single node. */
  lemma SolutionLaw(given: Shape, s: Shape)
    requires Positive(given) && Fits(given) && Solve(given) == Success(s)
    ensures s.nTasks == s.nodes * s.nTasksPerNode
    ensures s.nodes == 1 ==> s.nTasks == s.nTasksPerNode
  {
    SolvesCompletable(given);
  }

  /** Whatever is stored, there is at least one node. */
  lemma NodesPositive(g: Shape)
    requires Positive(g) && Solve(g).Success?
    ensures Solve(g).value.nodes >= 1
  {
    if g.nTasks % g.nTasksPerNode == 0 {
      DivideBack(g.nTasks, g.nTasksPerNode);
    }
  }

  /** With fewer given values everything runs on one node. */
  lemma OneNode(g: Shape)
    requires Positive(g) && Given(g) <= 1 && Solve(g).Success?
    ensures Solve(g).value.nodes == 1
  {
  }

  /** Accepted values obey the product law exactly when the product of the given ones is an int32. */
  lemma LawWithinInt32(g: Shape)
    requires Positive(g) && Solve(g).Success?
    ensures ProductLaw(Solve(g).value) <==> Fits(g)
  {
    ProductPositive(g.nodes, g.nTasksPerNode);
    if Fits(g) {
      SolutionCompletes(g);
    } else {
      assert Solve(g).value.nodes == g.nodes && Solve(g).value.nTasksPerNode == g.nTasksPerNode;
    }
  }

  /** Completing a completed shape changes nothing. */
  lemma SolveIdempotent(g: Shape)
    requires Positive(g) && Fits(g) && Solve(g).Success?
    ensures Solve(Solve(g).value) == Success(Solve(g).value)
  {
    var s := Solve(g).value;
    SolutionCompletes(g);
    assert s.nTasks == 1 ==> s.nodes == 1 by {
      ProductPositive(s.nodes, s.nTasksPerNode);
    }
    CompletionIsSolution(s, s);
    if Given(s) < 2 {
      assert s.nodes == 1;
    }
  }

  /** 65536 nodes with 65537 tasks each pass as 65536 tasks. */
  lemma WrappedProductAccepted()
    ensures var g := Shape(65536, 65536, 65537);
      Positive(g) && Solve(g) == Success(g) && !ProductLaw(g)
  {
  }

  // ---- which error ----

  predicate Divides(d: int, n: int) {
    exists q | 1 <= q <= n :: n == q * d
  }

  lemma DividesMeans(d: int, n: int)
    requires d >= 1 && n >= 1
    ensures Divides(d, n) <==> n % d == 0
  {
    if q :| 1 <= q <= n && n == q * d {
      DivideOnly(n, q, d);
    }
    if n % d == 0 {
      DivideBack(n, d);
    }
  }

  /** Each failure has its own error: which values were given decides what is reported. */
  lemma ErrorsMean(g: Shape)
    requires Positive(g) && Fits(g)
    ensures Solve(g) == Failure(TasksMissing) <==> g.nodes > 1 && g.nTasks == 1 && g.nTasksPerNode == 1
    ensures Solve(g) == Failure(InvalidShape) <==>
            g.nodes > 1 && g.nTasks > 1 && g.nTasksPerNode > 1 && g.nTasks != g.nodes * g.nTasksPerNode
    ensures Solve(g) == Failure(InvalidTasks) <==>
            g.nodes == 1 && g.nTasks > 1 && g.nTasksPerNode > 1 && !Divides(g.nTasksPerNode, g.nTasks)
    ensures Solve(g) == Failure(InvalidNodesOrTasks) <==>
            g.nTasks > 1 && g.nTasksPerNode == 1 && !Divides(g.nodes, g.nTasks)
  {
    ProductPositive(g.nodes, g.nTasksPerNode);
    DividesMeans(g.nTasksPerNode, g.nTasks);
    DividesMeans(g.nodes, g.nTasks);
  }
}
