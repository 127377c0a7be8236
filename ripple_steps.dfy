/**
 * The ripple plan of `src/ripple/RippleSteps.cs`: given an ordered list of
 * solutions, the steps that build the first one and then, for every later
 * one, move in the assemblies of each nuget it consumes from one of the
 * listed solutions (in name order) before building it.
 */
module RippleSteps {
  import opened Wrappers

  /** A solution is known by its identity; a nuget names its publisher by that identity. */
  type SolutionId = string

  /** A nuget a solution depends on, with the solution that publishes it. */
  datatype NugetSpec = NugetSpec(name: string, publisher: SolutionId)

  /** A solution: its identity and the nugets it depends on, in declaration order. */
  datatype Solution = Solution(id: SolutionId, nugets: seq<NugetSpec>)

  /** The two kinds of ripple step; value equality is datatype equality. */
  datatype Step =
    | MoveNugetAssemblies(nuget: NugetSpec, destination: Solution)
    | BuildSolution(solution: Solution)

  /** The `InvalidOperationException` thrown by the guard. */
  datatype PlanError = InvalidOperation(message: string)

  const TooFewSolutionsMessage := "Cannot execxute a ripple with less than 2 solutions.  It's just plain silly"

  /**
   * `Equals(object)` of the two step classes: `other` is `None` for null.
   * A step equals another exactly when it has the same kind and the same
   * parts; null and a step of the other kind are never equal.
   */
  function StepEquals(self: Step, other: Option<Step>): (r: bool)
    ensures r <==> other == Some(self)
    ensures other.None? ==> !r
    ensures other.Some? && self.MoveNugetAssemblies? != other.value.MoveNugetAssemblies? ==> !r
  {
    match other
    case None => false
    case Some(that) =>
      match (self, that)
      case (MoveNugetAssemblies(n, d), MoveNugetAssemblies(n', d')) => n' == n && d' == d
      case (BuildSolution(s), BuildSolution(s')) => s' == s
      case _ => false
  }

  // ---------------------------------------------------------------------------
  // Names and their order

  /** Ordinal lexicographic order on nuget names (the key of `OrderBy`). */
  predicate NameLe(a: string, b: string)
  {
    a == [] || (b != [] && (a[0] < b[0] || (a[0] == b[0] && NameLe(a[1..], b[1..]))))
  }

  lemma {:induction false} NameLeReflexive(a: string)
    ensures NameLe(a, a)
  {
    if a != [] {
      NameLeReflexive(a[1..]);
    }
  }

  lemma {:induction false} NameLeTotal(a: string, b: string)
    ensures NameLe(a, b) || NameLe(b, a)
  {
    if a != [] && b != [] && a[0] == b[0] {
      NameLeTotal(a[1..], b[1..]);
    }
  }

  // ---------------------------------------------------------------------------
  // The per-solution query: Where (published by a listed solution), OrderBy (name), Select (move)

  /** The identities of the listed solutions (what `solutions.Contains` tests). */
  function Ids(solutions: seq<Solution>): set<SolutionId>
  {
    set s | s in solutions :: s.id
  }

  /** The specs, in order, whose publisher is one of `solutions`. */
  function Published(specs: seq<NugetSpec>, solutions: seq<Solution>): (r: seq<NugetSpec>)
    ensures forall x :: x in r <==> x in specs && x.publisher in Ids(solutions)
    ensures |r| <= |specs|
  {
    if specs == [] then []
    else (if specs[0].publisher in Ids(solutions) then [specs[0]] else []) + Published(specs[1..], solutions)
  }

  /** The filter keeps every listed spec whose publisher is listed, as often as it is listed, and no other. */
  lemma {:induction false} PublishedMultiplicity(specs: seq<NugetSpec>, solutions: seq<Solution>, x: NugetSpec)
    ensures multiset(Published(specs, solutions))[x] == if x.publisher in Ids(solutions) then multiset(specs)[x] else 0
  {
    if specs != [] {
      PublishedMultiplicity(specs[1..], solutions, x);
      assert specs == [specs[0]] + specs[1..];
    }
  }

  /** The filter keeps order: filtering a concatenation concatenates the filtered parts. */
  lemma {:induction false} PublishedAppend(a: seq<NugetSpec>, b: seq<NugetSpec>, solutions: seq<Solution>)
    ensures Published(a + b, solutions) == Published(a, solutions) + Published(b, solutions)
  {
    if a == [] {
      assert a + b == b;
    } else {
      var head := if a[0].publisher in Ids(solutions) then [a[0]] else [];
      assert (a + b)[0] == a[0] && (a + b)[1..] == a[1..] + b;
      calc {
        Published(a + b, solutions);
        head + Published(a[1..] + b, solutions);
        { PublishedAppend(a[1..], b, solutions); }
        head + (Published(a[1..], solutions) + Published(b, solutions));
        (head + Published(a[1..], solutions)) + Published(b, solutions);
      }
    }
  }

  /** Inserts `x` before the first element whose name is not below its own. */
  function Insert(x: NugetSpec, sorted: seq<NugetSpec>): seq<NugetSpec>
  {
    if sorted == [] || NameLe(x.name, sorted[0].name) then [x] + sorted
    else [sorted[0]] + Insert(x, sorted[1..])
  }

  /** `OrderBy(x => x.Name)`: a stable sort by name. */
  function SortByName(specs: seq<NugetSpec>): seq<NugetSpec>
  {
    if specs == [] then [] else Insert(specs[0], SortByName(specs[1..]))
  }

  predicate SortedByName(s: seq<NugetSpec>)
  {
    forall i :: 0 < i < |s| ==> NameLe(s[i - 1].name, s[i].name)
  }

  /** The specs of `s` named `name`, in their order in `s`. */
  function Named(s: seq<NugetSpec>, name: string): seq<NugetSpec>
  {
    if s == [] then [] else (if s[0].name == name then [s[0]] else []) + Named(s[1..], name)
  }

  lemma {:induction false} InsertSorted(x: NugetSpec, sorted: seq<NugetSpec>)
    requires SortedByName(sorted)
    ensures SortedByName(Insert(x, sorted))
    ensures Insert(x, sorted)[0] == x || Insert(x, sorted)[0] == sorted[0]
  {
    if sorted == [] || NameLe(x.name, sorted[0].name) {
    } else {
      var rest := Insert(x, sorted[1..]);
      InsertSorted(x, sorted[1..]);
      NameLeTotal(x.name, sorted[0].name);
      assert Insert(x, sorted) == [sorted[0]] + rest;
    }
  }

  lemma {:induction false} InsertPermutes(x: NugetSpec, sorted: seq<NugetSpec>)
    ensures multiset(Insert(x, sorted)) == multiset(sorted) + multiset{x}
  {
    if sorted == [] || NameLe(x.name, sorted[0].name) {
    } else {
      InsertPermutes(x, sorted[1..]);
      assert sorted == [sorted[0]] + sorted[1..];
    }
  }

  lemma {:induction false} InsertStable(x: NugetSpec, sorted: seq<NugetSpec>, name: string)
    ensures Named(Insert(x, sorted), name) == (if x.name == name then [x] else []) + Named(sorted, name)
  {
    if sorted == [] || NameLe(x.name, sorted[0].name) {
      assert Insert(x, sorted)[1..] == sorted;
    } else {
      NameLeReflexive(x.name);
      InsertStable(x, sorted[1..], name);
      assert Insert(x, sorted)[1..] == Insert(x, sorted[1..]);
    }
  }

  /** The group order: names never decrease. */
  lemma {:induction false} SortByNameSorted(specs: seq<NugetSpec>)
    ensures SortedByName(SortByName(specs))
  {
    if specs != [] {
      SortByNameSorted(specs[1..]);
      InsertSorted(specs[0], SortByName(specs[1..]));
    }
  }

  /** Sorting neither drops nor duplicates a spec. */
  lemma {:induction false} SortByNamePermutes(specs: seq<NugetSpec>)
    ensures multiset(SortByName(specs)) == multiset(specs)
    ensures |SortByName(specs)| == |specs|
  {
    if specs != [] {
      SortByNamePermutes(specs[1..]);
      InsertPermutes(specs[0], SortByName(specs[1..]));
      assert specs == [specs[0]] + specs[1..];
    }
    assert |multiset(SortByName(specs))| == |SortByName(specs)|;
  }

  /** The sort is stable: specs with one name keep their input order. */
  lemma {:induction false} SortByNameStable(specs: seq<NugetSpec>, name: string)
    ensures Named(SortByName(specs), name) == Named(specs, name)
  {
    if specs != [] {
      SortByNameStable(specs[1..], name);
      InsertStable(specs[0], SortByName(specs[1..]), name);
    }
  }

  /** `Select(x => new MoveNugetAssemblies(x, destination))`. */
  function MovesTo(specs: seq<NugetSpec>, destination: Solution): seq<Step>
  {
    if specs == [] then [] else [MoveNugetAssemblies(specs[0], destination)] + MovesTo(specs[1..], destination)
  }

  lemma {:induction false} MovesToShape(specs: seq<NugetSpec>, destination: Solution)
    ensures |MovesTo(specs, destination)| == |specs|
    ensures forall i :: 0 <= i < |specs| ==> MovesTo(specs, destination)[i] == MoveNugetAssemblies(specs[i], destination)
  {
    if specs != [] {
      MovesToShape(specs[1..], destination);
    }
  }

  /** The move steps emitted for `solution` (the query of lines 66-70). */
  function NugetMoves(solution: Solution, solutions: seq<Solution>): seq<Step>
  {
    MovesTo(SortByName(Published(solution.nugets, solutions)), solution)
  }

  // ---------------------------------------------------------------------------
  // The plan

  /** The steps the loop emits for the solutions still in the queue. */
  function Later(queue: seq<Solution>, solutions: seq<Solution>): seq<Step>
  {
    if queue == [] then []
    else NugetMoves(queue[0], solutions) + [BuildSolution(queue[0])] + Later(queue[1..], solutions)
  }

  /** The steps of the ripple plan over `solutions`. */
  function Plan(solutions: seq<Solution>): seq<Step>
    requires |solutions| >= 2
  {
    [BuildSolution(solutions[0])] + Later(solutions[1..], solutions)
  }

  /**
   * The `RipplePlan` constructor: the guard, then the first build, then one
   * group of moves and a build per solution dequeued.
   */
  method NewRipplePlan(solutions: seq<Solution>) returns (r: Result<seq<Step>, PlanError>)
    ensures r.Failure? <==> |solutions| < 2
    ensures r.Failure? ==> r.error == InvalidOperation(TooFewSolutionsMessage)
    ensures r.Success? ==> r.value == Plan(solutions)
  {
    if |solutions| < 2 {
      return Failure(InvalidOperation(TooFewSolutionsMessage));
    }
    var queue := solutions;
    var steps := [BuildSolution(queue[0])];
    queue := queue[1..];
    while queue != []
      invariant steps + Later(queue, solutions) == Plan(solutions)
      decreases |queue|
    {
      var solution := queue[0];
      var nugets := NugetMoves(solution, solutions);
      assert Later(queue, solutions) == nugets + [BuildSolution(solution)] + Later(queue[1..], solutions);
      assert steps + Later(queue, solutions) == steps + nugets + [BuildSolution(solution)] + Later(queue[1..], solutions);
      queue := queue[1..];
      steps := steps + nugets;
      steps := steps + [BuildSolution(solution)];
    }
    return Success(steps);
  }

  // ---------------------------------------------------------------------------
  // Observations on step sequences

  /** The solutions built, in the order of their `BuildSolution` steps. */
  function Built(steps: seq<Step>): seq<Solution>
  {
    if steps == [] then []
    else (if steps[0].BuildSolution? then [steps[0].solution] else []) + Built(steps[1..])
  }

  /** The move steps, in order. */
  function MoveSteps(steps: seq<Step>): seq<Step>
  {
    if steps == [] then []
    else (if steps[0].MoveNugetAssemblies? then [steps[0]] else []) + MoveSteps(steps[1..])
  }

  /** The moves the plan must make, before sorting: each later solution's published specs. */
  function ExpectedMoves(queue: seq<Solution>, solutions: seq<Solution>): seq<Step>
  {
    if queue == [] then []
    else MovesTo(Published(queue[0].nugets, solutions), queue[0]) + ExpectedMoves(queue[1..], solutions)
  }

  /** How many specs of the queued solutions are published by a listed solution. */
  function PublishedCount(queue: seq<Solution>, solutions: seq<Solution>): nat
  {
    if queue == [] then 0
    else |Published(queue[0].nugets, solutions)| + PublishedCount(queue[1..], solutions)
  }

  lemma {:induction false} BuiltAppend(a: seq<Step>, b: seq<Step>)
    ensures Built(a + b) == Built(a) + Built(b)
  {
    if a == [] {
      assert a + b == b;
    } else {
      BuiltAppend(a[1..], b);
      assert (a + b)[1..] == a[1..] + b;
    }
  }

  lemma {:induction false} MoveStepsAppend(a: seq<Step>, b: seq<Step>)
    ensures MoveSteps(a + b) == MoveSteps(a) + MoveSteps(b)
  {
    if a == [] {
      assert a + b == b;
    } else {
      MoveStepsAppend(a[1..], b);
      assert (a + b)[1..] == a[1..] + b;
    }
  }

  lemma {:induction false} MovesToOnlyMoves(specs: seq<NugetSpec>, destination: Solution)
    ensures Built(MovesTo(specs, destination)) == []
    ensures MoveSteps(MovesTo(specs, destination)) == MovesTo(specs, destination)
  {
    if specs != [] {
      MovesToOnlyMoves(specs[1..], destination);
    }
  }

  lemma {:induction false} MovesToInsert(x: NugetSpec, sorted: seq<NugetSpec>, destination: Solution)
    ensures multiset(MovesTo(Insert(x, sorted), destination))
         == multiset(MovesTo(sorted, destination)) + multiset{MoveNugetAssemblies(x, destination)}
  {
    if sorted == [] || NameLe(x.name, sorted[0].name) {
    } else {
      MovesToInsert(x, sorted[1..], destination);
    }
  }

  lemma {:induction false} MovesToSort(specs: seq<NugetSpec>, destination: Solution)
    ensures multiset(MovesTo(SortByName(specs), destination)) == multiset(MovesTo(specs, destination))
  {
    if specs != [] {
      MovesToSort(specs[1..], destination);
      MovesToInsert(specs[0], SortByName(specs[1..]), destination);
    }
  }

  lemma PrefixOfAppend<T>(a: seq<T>, b: seq<T>, i: nat)
    requires i <= |a| + |b|
    ensures (a + b)[..i] == if i <= |a| then a[..i] else a + b[..i - |a|]
  {
  }

  // ---------------------------------------------------------------------------
  // What the plan promises

  /**
   * One `BuildSolution` per input solution, in input order; the plan starts
   * with the first solution's build and ends with the last one's.
   */
  lemma {:induction false} PlanBuildsEachSolutionInOrder(solutions: seq<Solution>)
    requires |solutions| >= 2
    ensures Built(Plan(solutions)) == solutions
    ensures Plan(solutions)[0] == BuildSolution(solutions[0])
    ensures Plan(solutions)[|Plan(solutions)| - 1] == BuildSolution(solutions[|solutions| - 1])
  {
    LaterBuilds(solutions[1..], solutions);
    BuiltAppend([BuildSolution(solutions[0])], Later(solutions[1..], solutions));
    assert solutions == [solutions[0]] + solutions[1..];
  }

  lemma {:induction false} LaterBuilds(queue: seq<Solution>, solutions: seq<Solution>)
    ensures Built(Later(queue, solutions)) == queue
    ensures queue != [] ==>
              && |Later(queue, solutions)| > 0
              && Later(queue, solutions)[|Later(queue, solutions)| - 1] == BuildSolution(queue[|queue| - 1])
  {
    if queue != [] {
      var moves := NugetMoves(queue[0], solutions);
      var rest := Later(queue[1..], solutions);
      LaterBuilds(queue[1..], solutions);
      MovesToOnlyMoves(SortByName(Published(queue[0].nugets, solutions)), queue[0]);
      BuiltAppend(moves, [BuildSolution(queue[0])]);
      BuiltAppend(moves + [BuildSolution(queue[0])], rest);
      assert queue == [queue[0]] + queue[1..];
    }
  }

  /**
   * A move step preceded by k builds goes to the k-th solution (counting
   * from 0): the moves between two consecutive builds all go to the solution
   * the second of them builds, and no move precedes the first build.
   */
  lemma {:induction false} PlanMoveDestinations(solutions: seq<Solution>)
    requires |solutions| >= 2
    ensures forall i :: 0 <= i < |Plan(solutions)| && Plan(solutions)[i].MoveNugetAssemblies? ==>
              1 <= |Built(Plan(solutions)[..i])| < |solutions|
              && Plan(solutions)[i].destination == solutions[|Built(Plan(solutions)[..i])|]
  {
    var p := Plan(solutions);
    var head := [BuildSolution(solutions[0])];
    var later := Later(solutions[1..], solutions);
    forall i | 0 <= i < |p| && p[i].MoveNugetAssemblies?
      ensures 1 <= |Built(p[..i])| < |solutions| && p[i].destination == solutions[|Built(p[..i])|]
    {
      assert i >= 1;
      LaterMoveDestination(solutions[1..], solutions, i - 1);
      PrefixOfAppend(head, later, i);
      BuiltAppend(head, later[..i - 1]);
    }
  }

  lemma {:induction false} NoBuilds(steps: seq<Step>)
    requires forall k :: 0 <= k < |steps| ==> steps[k].MoveNugetAssemblies?
    ensures Built(steps) == []
  {
    if steps != [] {
      NoBuilds(steps[1..]);
    }
  }

  lemma {:induction false} LaterMoveDestination(queue: seq<Solution>, solutions: seq<Solution>, i: nat)
    requires i < |Later(queue, solutions)| && Later(queue, solutions)[i].MoveNugetAssemblies?
    ensures |Built(Later(queue, solutions)[..i])| < |queue|
    ensures Later(queue, solutions)[i].destination == queue[|Built(Later(queue, solutions)[..i])|]
  {
    var later := Later(queue, solutions);
    assert queue != [];
    var specs := SortByName(Published(queue[0].nugets, solutions));
    var moves := NugetMoves(queue[0], solutions);
    var group := moves + [BuildSolution(queue[0])];
    var rest := Later(queue[1..], solutions);
    assert later == group + rest;
    MovesToShape(specs, queue[0]);
    if i < |moves| {
      assert later[..i] == moves[..i];
      NoBuilds(moves[..i]);
      assert later[i] == moves[i];
    } else {
      assert i != |moves|;
      var j := i - |group|;
      LaterMoveDestination(queue[1..], solutions, j);
      assert later[..i] == group + rest[..j];
      assert later[i] == rest[j];
      BuiltAppend(group, rest[..j]);
      NoBuilds(moves);
      BuiltAppend(moves, [BuildSolution(queue[0])]);
    }
  }

  /**
   * Every moved nuget is one its destination depends on and is published by
   * one of the input solutions; its destination is one of the later solutions.
   */
  lemma {:induction false} PlanMovesArePublished(solutions: seq<Solution>)
    requires |solutions| >= 2
    ensures forall i :: 0 <= i < |Plan(solutions)| && Plan(solutions)[i].MoveNugetAssemblies? ==>
              Plan(solutions)[i].nuget in Plan(solutions)[i].destination.nugets
              && Plan(solutions)[i].nuget.publisher in Ids(solutions)
              && Plan(solutions)[i].destination in solutions[1..]
  {
    var p := Plan(solutions);
    forall i | 0 <= i < |p| && p[i].MoveNugetAssemblies?
      ensures p[i].nuget in p[i].destination.nugets && p[i].nuget.publisher in Ids(solutions)
              && p[i].destination in solutions[1..]
    {
      LaterMovesArePublished(solutions[1..], solutions, i - 1);
    }
  }

  lemma {:induction false} LaterMovesArePublished(queue: seq<Solution>, solutions: seq<Solution>, i: int)
    requires 0 <= i < |Later(queue, solutions)| && Later(queue, solutions)[i].MoveNugetAssemblies?
    ensures Later(queue, solutions)[i].nuget in Later(queue, solutions)[i].destination.nugets
    ensures Later(queue, solutions)[i].nuget.publisher in Ids(solutions)
    ensures Later(queue, solutions)[i].destination in queue
  {
    var published := Published(queue[0].nugets, solutions);
    var specs := SortByName(published);
    var moves := NugetMoves(queue[0], solutions);
    var group := moves + [BuildSolution(queue[0])];
    var rest := Later(queue[1..], solutions);
    assert Later(queue, solutions) == group + rest;
    MovesToShape(specs, queue[0]);
    if i < |moves| {
      SortByNamePermutes(published);
      assert specs[i] in multiset(published);
    } else {
      assert i > |moves|;
      LaterMovesArePublished(queue[1..], solutions, i - |group|);
    }
  }

  /**
   * Exactly the published specs of solutions 2..n are moved, each as often
   * as it is listed, to the solution that lists it.
   */
  lemma {:induction false} PlanMovesExactlyThePublished(solutions: seq<Solution>)
    requires |solutions| >= 2
    ensures multiset(MoveSteps(Plan(solutions))) == multiset(ExpectedMoves(solutions[1..], solutions))
  {
    MoveStepsAppend([BuildSolution(solutions[0])], Later(solutions[1..], solutions));
    LaterMoves(solutions[1..], solutions);
  }

  lemma {:induction false} LaterMoves(queue: seq<Solution>, solutions: seq<Solution>)
    ensures multiset(MoveSteps(Later(queue, solutions))) == multiset(ExpectedMoves(queue, solutions))
  {
    if queue != [] {
      var published := Published(queue[0].nugets, solutions);
      var moves := NugetMoves(queue[0], solutions);
      var rest := Later(queue[1..], solutions);
      LaterMoves(queue[1..], solutions);
      MovesToOnlyMoves(SortByName(published), queue[0]);
      MovesToSort(published, queue[0]);
      MoveStepsAppend(moves, [BuildSolution(queue[0])]);
      MoveStepsAppend(moves + [BuildSolution(queue[0])], rest);
    }
  }

  /** Consecutive move steps go to one destination, in non-decreasing name order. */
  predicate MoveGroupsSorted(steps: seq<Step>)
  {
    forall i :: 0 < i < |steps| && steps[i - 1].MoveNugetAssemblies? && steps[i].MoveNugetAssemblies? ==>
      steps[i - 1].destination == steps[i].destination && NameLe(steps[i - 1].nuget.name, steps[i].nuget.name)
  }

  lemma {:induction false} PlanMoveGroupsSorted(solutions: seq<Solution>)
    requires |solutions| >= 2
    ensures MoveGroupsSorted(Plan(solutions))
  {
    LaterMoveGroupsSorted(solutions[1..], solutions);
    var later := Later(solutions[1..], solutions);
    var p := Plan(solutions);
    forall i | 0 < i < |p| && p[i - 1].MoveNugetAssemblies? && p[i].MoveNugetAssemblies?
      ensures p[i - 1].destination == p[i].destination && NameLe(p[i - 1].nuget.name, p[i].nuget.name)
    {
      assert p[i - 1] == later[i - 2] && p[i] == later[i - 1];
    }
  }

  lemma {:induction false} LaterMoveGroupsSorted(queue: seq<Solution>, solutions: seq<Solution>)
    ensures MoveGroupsSorted(Later(queue, solutions))
  {
    if queue != [] {
      var specs := SortByName(Published(queue[0].nugets, solutions));
      var moves := NugetMoves(queue[0], solutions);
      var group := moves + [BuildSolution(queue[0])];
      var rest := Later(queue[1..], solutions);
      var all := Later(queue, solutions);
      assert all == group + rest;
      LaterMoveGroupsSorted(queue[1..], solutions);
      SortByNameSorted(Published(queue[0].nugets, solutions));
      MovesToShape(specs, queue[0]);
      forall i | 0 < i < |all| && all[i - 1].MoveNugetAssemblies? && all[i].MoveNugetAssemblies?
        ensures all[i - 1].destination == all[i].destination && NameLe(all[i - 1].nuget.name, all[i].nuget.name)
      {
        if i < |moves| {
          assert all[i - 1] == moves[i - 1] && all[i] == moves[i];
        } else {
          assert i > |group|;
          assert all[i - 1] == rest[i - 1 - |group|] && all[i] == rest[i - |group|];
        }
      }
    }
  }

  /** Step count: one build per solution plus one move per published spec of solutions 2..n. */
  lemma {:induction false} PlanLength(solutions: seq<Solution>)
    requires |solutions| >= 2
    ensures |Plan(solutions)| == |solutions| + PublishedCount(solutions[1..], solutions)
  {
    LaterLength(solutions[1..], solutions);
  }

  lemma {:induction false} LaterLength(queue: seq<Solution>, solutions: seq<Solution>)
    ensures |Later(queue, solutions)| == |queue| + PublishedCount(queue, solutions)
  {
    if queue != [] {
      var published := Published(queue[0].nugets, solutions);
      LaterLength(queue[1..], solutions);
      SortByNamePermutes(published);
      MovesToShape(SortByName(published), queue[0]);
    }
  }
}
