# ripple: plan sequencing and the solution registry

This project is a Dafny model of two pieces of in-memory logic in ripple, a
tool that manages NuGet dependencies across solutions.

- **The ripple plan** (`ripple_steps.dfy`, module `RippleSteps`). The
  `RipplePlan` constructor takes an ordered list of solutions. It refuses
  fewer than two. Otherwise it builds the first solution, then dequeues the
  others one by one. For each one it moves in the assemblies of every nuget
  the solution depends on whose publisher is one of the listed solutions, in
  name order, and then builds it. The constructor is the method
  `NewRipplePlan`: a loop over a queue, proved equal to the function `Plan`.
  Lemmas about `Plan` state the ordering, grouping, coverage and count
  properties.
- **The solution registry** (`solution.dfy`, module `Model`). `Solution` is a
  class that holds three lists: projects, feeds and configured
  (solution-level) dependencies. It adds to them with FubuCore's
  add-if-absent `Fill`. Its property setters replace a list wholesale, and
  its getters hand out array copies. It looks up projects case-insensitively
  and dependencies exactly, both with `SingleOrDefault` semantics. It keeps
  a lazily built combined dependency view. `AssertIsValid` checks that the
  projects agree on one version per dependency name.

`wrappers.dfy` holds the `Option`, `Result` and `Outcome` types used for
`null` and for thrown exceptions.

Modelling choices:

- A solution of the older ripple model (the element type of `RipplePlan`) is
  an identity plus its list of nuget specs. A spec is a name plus the
  identity of the solution that publishes it. `solutions.Contains(publisher)`
  is membership of that identity among the listed solutions. The classes
  behind these (`ripple.Solution`, `NugetSpec`) are not part of this model.
- `OrderBy(x => x.Name)` is a stable insertion sort, `SortByName`, under
  ordinal lexicographic order, `NameLe`.
- The `Lazy<DependencyCollection>` is the field `dependencies`. It holds
  `None` until the view is read after a reset, and `Some(view)` after that.
  Only `AddDependency` (and the constructor) resets it; every other mutator
  leaves the field alone, as its `modifies` frame shows. The view is built
  by enumerating a copy of the project list, so a project added after a
  read (through `AddProject` or the `Projects` setter) is not in the view
  until the next `AddDependency` (`ViewSurvivesAddProject`). The code
  invalidates the view only on `AddDependency`, not on every change to the
  lists, and the model follows the code.
- `DependencyCollection` is represented by what it is built from. That is
  the configured dependencies and each project's dependencies, in project
  order. The model takes these as a snapshot when the view is built; see
  "Left out".
- A solution of the ripple plan has two notions of sameness in this model.
  The publisher test compares identities only. Step equality compares
  whole solution values, that is identity and nuget list. The two agree
  whenever a solution's identity fixes its nuget list.
- A feed given by url (`OtherFeed`) never equals one of the three
  well-known feeds, even when the urls coincide.
- `Fill` is assumed to be FubuCore's "add unless `Contains`". `Dependency`
  and `Feed` are values compared by all their parts. `Project` is a class
  compared by reference.
- A `SingleOrDefault` that would throw because of several matches yields
  `Ambiguous`. A `null` result yields `NotFound`. `AssertIsValid` returns
  `Fail(problems)` where the source throws a `RippleException` carrying
  those problems.

## Model

| member | source | states |
|---|---|---|
| RippleSteps.NewRipplePlan | src/ripple/RippleSteps.cs:53-83 | fails with the guard's `InvalidOperationException` message exactly when fewer than two solutions are given (no steps); otherwise the steps are `Plan(solutions)` |
| RippleSteps.StepEquals | src/ripple/RippleSteps.cs:117-180 | a move step equals another iff both nuget and destination are equal; a build step iff the solutions are equal; null or a step of the other kind is never equal |
| RippleSteps.Published | src/ripple/RippleSteps.cs:66-68 | a spec is kept iff it is one of the solution's specs and its publisher is one of the listed solutions |
| RippleSteps.PublishedMultiplicity | src/ripple/RippleSteps.cs:66-68 | each spec whose publisher is listed is kept exactly as often as it is listed; every other spec is dropped |
| RippleSteps.PublishedAppend | src/ripple/RippleSteps.cs:66-68 | the filter keeps order: filtering a concatenation gives the filtered parts, concatenated in the same order |
| RippleSteps.SortByNameSorted | src/ripple/RippleSteps.cs:69 | the sorted specs are in non-decreasing name order |
| RippleSteps.SortByNamePermutes | src/ripple/RippleSteps.cs:69 | sorting is a permutation: the same specs with the same multiplicities |
| RippleSteps.SortByNameStable | src/ripple/RippleSteps.cs:69 | sorting is stable: specs sharing a name keep their input order |
| RippleSteps.PlanBuildsEachSolutionInOrder | src/ripple/RippleSteps.cs:57-75 | the build steps build exactly the input solutions, once each, in input order; the first step builds the first solution and the last step builds the last one |
| RippleSteps.PlanMoveDestinations | src/ripple/RippleSteps.cs:62-75 | a move step preceded by k build steps has the solution at index k as its destination, with 1 <= k < n, so no move precedes the first build |
| RippleSteps.PlanMovesArePublished | src/ripple/RippleSteps.cs:64-72 | every moved nuget is a dependency of its destination, is published by one of the input solutions, and goes to one of solutions 2..n |
| RippleSteps.PlanMovesExactlyThePublished | src/ripple/RippleSteps.cs:64-72 | the move steps are, as a multiset, exactly one move per published spec of each of solutions 2..n to that solution |
| RippleSteps.PlanMoveGroupsSorted | src/ripple/RippleSteps.cs:66-72 | adjacent move steps share their destination and are in non-decreasing name order |
| RippleSteps.PlanLength | src/ripple/RippleSteps.cs:57-75 | the step count is n plus the number of published specs of solutions 2..n |
| Model.Fill | src/ripple/New/Model/Solution.cs:142-165 | add-if-absent: the old list is a prefix of the result, the element is in the result, and the list grows (by one) iff the element was absent |
| Model.FillIdempotent | src/ripple/New/Model/Solution.cs:142-151 | adding the same element twice is the same as adding it once |
| Model.FillKeepsDistinct | src/ripple/New/Model/Solution.cs:142-165 | a list without repeats keeps none after an add, which is how `AddFeed`, `AddProject` and `AddDependency` preserve repeat-freedom |
| Model.SingleOrDefault | src/ripple/New/Model/Solution.cs:167-190 | not found iff nothing matches; ambiguous (throws) iff two positions match; otherwise the value is the one matching element |
| Model.Solution.constructor | src/ripple/New/Model/Solution.cs:29-49 | a new solution has feeds Fubu, NuGetV2, NuGetV1 in that order, mode Ripple, the default folders and build commands, no projects or dependencies, and an unbuilt view |
| Model.Solution.Empty | src/ripple/New/Model/Solution.cs:269-275 | a new solution with no feeds and otherwise the constructor's defaults: mode Ripple, the default folders and build commands, no projects or dependencies, an unbuilt view |
| Model.Solution.ResetDependencies | src/ripple/New/Model/Solution.cs:73-76 | the combined view is dropped and nothing else changes |
| Model.Solution.Dependencies | src/ripple/New/Model/Solution.cs:78-83 | an unbuilt view is built from the current configured dependencies and each project's dependencies, in order; a built view is returned unchanged; either way it is kept |
| Model.Solution.Projects | src/ripple/New/Model/Solution.cs:106-108 | returns a fresh array holding the projects in order |
| Model.Solution.SetProjects | src/ripple/New/Model/Solution.cs:109-113 | the projects become exactly the given array's contents, in order; nothing else changes |
| Model.Solution.Feeds | src/ripple/New/Model/Solution.cs:116-118 | returns a fresh array holding the feeds in order |
| Model.Solution.SetFeeds | src/ripple/New/Model/Solution.cs:119-123 | the feeds become exactly the given array's contents, in order; nothing else changes |
| Model.Solution.Nugets | src/ripple/New/Model/Solution.cs:126-128 | returns a fresh array holding the configured dependencies in order |
| Model.Solution.SetNugets | src/ripple/New/Model/Solution.cs:129-133 | the configured dependencies become exactly the array's contents; the combined view is not reset |
| Model.Solution.AddFeed | src/ripple/New/Model/Solution.cs:142-145 | the feed is appended unless already present; a repeat-free feed list stays repeat-free; nothing else changes |
| Model.Solution.AddProject | src/ripple/New/Model/Solution.cs:147-151 | the project's solution becomes this one, and the project is appended unless already present; a repeat-free project list stays repeat-free; the view is not reset |
| Model.Solution.AddProjectNamed | src/ripple/New/Model/Solution.cs:153-159 | a fresh project with that name, pointing back at this solution, is appended |
| Model.Solution.AddDependency | src/ripple/New/Model/Solution.cs:161-165 | the dependency is appended unless already present, and the combined view is reset; a repeat-free list stays repeat-free |
| Model.Solution.ClearFeeds | src/ripple/New/Model/Solution.cs:172-175 | the feeds become empty; projects and dependencies are untouched |
| Model.Solution.FindDependency | src/ripple/New/Model/Solution.cs:167-170 | not found iff no configured dependency has exactly that name; ambiguous iff two do; otherwise the unique one with that name |
| Model.Solution.FindProject | src/ripple/New/Model/Solution.cs:187-190 | not found iff no project's name equals the query ignoring case; ambiguous iff two do; otherwise the unique matching project |
| Model.Solution.AssertIsValid | src/ripple/New/Model/Solution.cs:221-241 | fails iff two project dependencies share a name and differ in version; the problems are one "Multiple dependencies found for <name>" per such name, in order of first occurrence; solution-level dependencies are not consulted and no state changes |
| Model.ConflictingNamesExact | src/ripple/New/Model/Solution.cs:225-235 | a name is reported iff two project dependencies with that name carry different versions, and no name is reported twice |
| Model.ConflictingNamesEmpty | src/ripple/New/Model/Solution.cs:237-240 | no problem is recorded iff no name carries two versions |
| Model.ReadAfterAddDependency | src/ripple/New/Model/Solution.cs:161-165 | after `AddDependency`, the next read of the view is rebuilt from the new configured list and the current projects |
| Model.ViewSurvivesAddProject | src/ripple/New/Model/Solution.cs:78-83 | once read, the view is not rebuilt after `AddProject`: the next read returns the same view although the project list grew |
| Model.ProjectsCopyIsDetached | src/ripple/New/Model/Solution.cs:106-108 | writing into the array the `Projects` getter returned leaves the solution's projects unchanged |

## Left out

- `RippleRunner` and every `Execute` method: building solutions, copying files and cleaning directories. All of their bodies throw `NotImplementedException`.
- `FileCopyPlan` and `FileCopyRequest`: file-copy data carriers with no behaviour beyond equality. `FileSet` belongs to FubuCore.
- `GetHashCode` and `ToString` overrides: hash arithmetic and formatting, which no property needs.
- The `IEnumerable` surface of `RipplePlan`: the plan is its sequence of steps.
- `UseStorage`, `UseFeedService`, `UseCache`, `ConvertTo`, `PackagesDirectory`, `MissingNugets`, `Updates`, `Restore`, `Save`, `LocalDependencies` and `Solution.For`: storage, feed-service, cache and file-system calls to collaborators that are not part of this model. The constructor's `UseStorage`/`UseFeedService`/`UseCache` calls and its two other lazy values are left out for the same reason.
- `Describe` and the XML serialisation attributes: description and serialisation formatting.
- `Name` and `Path` auto-properties: plain accessors with no defaults and no logic.
- `Update(INugetFile)`: it delegates to `DependencyCollection.Update`. `DependencyCollection` is not part of this model. The view is represented by the lists it is built from, taken as a snapshot.
- The NuGet plan resolver (`NugetPlanBuilder`): only a test of it is available, not its implementation.
- Null arguments and `null` names: the model has no null solutions, projects or names.
- `Project`, `Dependency`, `Feed`, `NugetSpec` and the older `ripple.Solution` are not part of this model. Their equality is assumed: reference equality for projects, value equality for the others.
- SortByNameSorted: the order is ordinal (character code). `OrderBy` with the default string comparer is culture-sensitive, so any names that differ in case can sort differently. For example, the program puts "log4net" before "NUnit", while the model puts "NUnit" first.
- PlanMoveGroupsSorted: states the model's ordinal order within each group of moves, not the culture-sensitive order the program uses. Mixed-case nuget names can therefore be moved in a different order from the program's.
- SortByNameStable: stability is stated for names that are equal as strings. A culture-sensitive comparer can also treat some different strings as equal keys. Those keep their input order in the program but are ordered by character code in the model.
- Model.Solution.Dependencies: the view is assumed to copy the lists it is built from. The code hands the live configured-dependency list and each project's dependency collection to `DependencyCollection`, whose source is not part of this model. If that type keeps references, a later change to those lists (through the `Nugets` setter, which clears and refills the same list, or to a project's dependencies) would show in the cached view. The model does not capture that.
- Model.ViewSurvivesAddProject: the staleness it shows rests only on the project list being copied when the view is built. No corresponding claim is made for the `Nugets` setter, for the reason above.
- Model.EqualsIgnoreCase: folds only ASCII letters one character at a time, so it equates only strings of equal length. A culture-aware ignore-case comparison also folds other letters and can equate strings of different lengths.
- The thread safety of `Lazy` is not modelled; the model is single-threaded.
