/**
 * The solution registry of `src/ripple/New/Model/Solution.cs`: a solution
 * holds its projects, its feeds and its solution-level (configured)
 * dependencies, offers lookups over them, keeps a lazily built combined
 * dependency view, and checks that its projects agree on one version per
 * dependency name.
 */
module Model {
  import opened Wrappers

  datatype SolutionMode = Ripple | Classic

  datatype UpdateMode = Fixed | Float

  /** The three well-known feeds, and any other feed by its url. */
  datatype Feed = Fubu | NuGetV2 | NuGetV1 | OtherFeed(url: string)

  /** A dependency on a nuget; two dependencies are equal when all their parts are. */
  datatype Dependency = Dependency(name: string, version: string, mode: UpdateMode)

  /**
   * The combined dependency view: the configured dependencies it was built
   * from and, per project in order, that project's dependencies.
   */
  datatype DependencyCollection = DependencyCollection(configured: seq<Dependency>, children: seq<seq<Dependency>>)

  /** `SingleOrDefault`: no match (null), the one match, or more than one (it throws). */
  datatype Lookup<T> = NotFound | Found(value: T) | Ambiguous

  /** A problem recorded on a `RippleException`. */
  datatype Problem = Problem(provenance: string, message: string)

  // ---------------------------------------------------------------------------
  // List helpers

  /** FubuCore's `Fill`: add `x` at the end unless the list already contains it. */
  function Fill<T(==)>(s: seq<T>, x: T): (r: seq<T>)
    ensures |s| <= |r| <= |s| + 1
    ensures r[..|s|] == s && x in r
    ensures |r| == |s| <==> x in s
  {
    if x in s then s else s + [x]
  }

  predicate Distinct<T(==)>(s: seq<T>)
  {
    forall i, j :: 0 <= i < j < |s| ==> s[i] != s[j]
  }

  /** Adding the same element twice is adding it once. */
  lemma FillIdempotent<T>(s: seq<T>, x: T)
    ensures Fill(Fill(s, x), x) == Fill(s, x)
  {
  }

  /** A list built only by `Fill` never holds an element twice. */
  lemma FillKeepsDistinct<T>(s: seq<T>, x: T)
    requires Distinct(s)
    ensures Distinct(Fill(s, x))
  {
  }

  /** `SingleOrDefault(matches)` over a list. */
  function SingleOrDefault<T>(s: seq<T>, matches: T -> bool): (r: Lookup<T>)
    ensures r.NotFound? <==> forall i :: 0 <= i < |s| ==> !matches(s[i])
    ensures r.Ambiguous? <==> exists i, j :: 0 <= i < j < |s| && matches(s[i]) && matches(s[j])
    ensures r.Found? ==> exists i :: 0 <= i < |s| && s[i] == r.value && matches(s[i])
                                 && forall j :: 0 <= j < |s| && j != i ==> !matches(s[j])
  {
    if s == [] then NotFound
    else if matches(s[0]) then
      (if exists j :: 1 <= j < |s| && matches(s[j]) then Ambiguous else Found(s[0]))
    else
      var r := SingleOrDefault(s[1..], matches);
      assert forall i :: 1 <= i < |s| ==> s[i] == s[1..][i - 1];
      r
  }

  /** ASCII upper case to lower case; every other character is left alone. */
  function ToLower(c: char): char
  {
    if 'A' <= c <= 'Z' then (c as int - 'A' as int + 'a' as int) as char else c
  }

  /** FubuCore's `EqualsIgnoreCase`, with ASCII case folding. */
  predicate EqualsIgnoreCase(a: string, b: string)
  {
    |a| == |b| && forall i :: 0 <= i < |a| ==> ToLower(a[i]) == ToLower(b[i])
  }

  // ---------------------------------------------------------------------------
  // The validity check over project dependencies

  /** Index `k` opens the group of its name: no earlier dependency has that name. */
  predicate FirstOfGroup(all: seq<Dependency>, k: nat)
    requires k < |all|
  {
    forall j :: 0 <= j < k ==> all[j].name != all[k].name
  }

  /** Some dependency with the name at `k` has a version other than the one at `k`. */
  predicate GroupDisagrees(all: seq<Dependency>, k: nat)
    requires k < |all|
  {
    exists j :: 0 <= j < |all| && all[j].name == all[k].name && all[j].version != all[k].version
  }

  /** The names of the disagreeing groups opened among the first `n` dependencies, in order. */
  function ConflictsBefore(all: seq<Dependency>, n: nat): seq<string>
    requires n <= |all|
  {
    if n == 0 then []
    else ConflictsBefore(all, n - 1)
         + (if FirstOfGroup(all, n - 1) && GroupDisagrees(all, n - 1) then [all[n - 1].name] else [])
  }

  function ConflictingNames(all: seq<Dependency>): seq<string>
  {
    ConflictsBefore(all, |all|)
  }

  /** Two dependencies share a name and differ in version. */
  predicate HasVersionConflict(all: seq<Dependency>)
  {
    exists i, j :: 0 <= i < |all| && 0 <= j < |all| && all[i].name == all[j].name && all[i].version != all[j].version
  }

  function ProblemFor(name: string): Problem
  {
    Problem("Validation", "Multiple dependencies found for " + name)
  }

  function ProblemsFor(names: seq<string>): seq<Problem>
  {
    seq(|names|, i requires 0 <= i < |names| => ProblemFor(names[i]))
  }

  lemma {:induction false} ConflictsBeforeMembers(all: seq<Dependency>, n: nat, name: string)
    requires n <= |all|
    ensures name in ConflictsBefore(all, n) <==>
              exists k :: 0 <= k < n && all[k].name == name && FirstOfGroup(all, k) && GroupDisagrees(all, k)
  {
    if n > 0 {
      ConflictsBeforeMembers(all, n - 1, name);
    }
  }

  lemma {:induction false} ConflictsBeforeDistinct(all: seq<Dependency>, n: nat)
    requires n <= |all|
    ensures Distinct(ConflictsBefore(all, n))
  {
    if n > 0 {
      ConflictsBeforeDistinct(all, n - 1);
      var last := all[n - 1].name;
      if FirstOfGroup(all, n - 1) && GroupDisagrees(all, n - 1) {
        ConflictsBeforeMembers(all, n - 1, last);
      }
    }
  }

  /** Every name occurring in `all` has a first occurrence. */
  lemma {:induction false} FirstOccurrence(all: seq<Dependency>, i: nat)
    requires i < |all|
    ensures exists k :: 0 <= k <= i && all[k].name == all[i].name && FirstOfGroup(all, k)
  {
    if !FirstOfGroup(all, i) {
      var j :| 0 <= j < i && all[j].name == all[i].name;
      FirstOccurrence(all, j);
    }
  }

  /**
   * A name is reported exactly when two project dependencies with that name
   * disagree on the version, and no name is reported twice.
   */
  lemma ConflictingNamesExact(all: seq<Dependency>, name: string)
    ensures Distinct(ConflictingNames(all))
    ensures name in ConflictingNames(all) <==>
              exists i, j :: 0 <= i < |all| && 0 <= j < |all| && all[i].name == name && all[j].name == name
                             && all[i].version != all[j].version
  {
    ConflictsBeforeDistinct(all, |all|);
    ConflictsBeforeMembers(all, |all|, name);
    if i, j :| 0 <= i < |all| && 0 <= j < |all| && all[i].name == name && all[j].name == name
               && all[i].version != all[j].version {
      FirstOccurrence(all, i);
      var k :| 0 <= k <= i && all[k].name == all[i].name && FirstOfGroup(all, k);
      assert GroupDisagrees(all, k) by {
        if all[i].version != all[k].version {
          assert all[i].name == all[k].name;
        } else {
          assert all[j].name == all[k].name && all[j].version != all[k].version;
        }
      }
    }
  }

  /** The check fails exactly when some name carries two versions. */
  lemma ConflictingNamesEmpty(all: seq<Dependency>)
    ensures ConflictingNames(all) == [] <==> !HasVersionConflict(all)
  {
    if HasVersionConflict(all) {
      var i, j :| 0 <= i < |all| && 0 <= j < |all| && all[i].name == all[j].name && all[i].version != all[j].version;
      ConflictingNamesExact(all, all[i].name);
    } else if ConflictingNames(all) != [] {
      ConflictingNamesExact(all, ConflictingNames(all)[0]);
    }
  }

  // ---------------------------------------------------------------------------
  // Projects and solutions

  /** A project: its name, its own dependencies and the solution it belongs to. */
  class Project {
    const name: string
    var dependencies: seq<Dependency>
    var solution: Solution?

    constructor (name: string)
      ensures this.name == name && dependencies == [] && solution == null
    {
      this.name := name;
      dependencies := [];
      solution := null;
    }
  }

  /** Every project's dependencies, one after another, in project order. */
  function DependenciesOf(projects: seq<Project>): seq<Dependency>
    reads projects
  {
    if projects == [] then [] else projects[0].dependencies + DependenciesOf(projects[1..])
  }

  class Solution {
    var nugetSpecFolder: string
    var sourceFolder: string
    var buildCommand: string
    var fastBuildCommand: string
    var mode: SolutionMode
    var projects: seq<Project>
    var feeds: seq<Feed>
    /** The solution-level dependencies (`Nugets`). */
    var configured: seq<Dependency>
    /** The lazy combined view: `None` until it is first read after a reset. */
    var dependencies: Option<DependencyCollection>

    constructor ()
      ensures nugetSpecFolder == "packaging/nuget" && sourceFolder == "src"
      ensures buildCommand == "rake" && fastBuildCommand == "rake compile"
      ensures mode == Ripple
      ensures feeds == [Fubu, NuGetV2, NuGetV1]
      ensures projects == [] && configured == []
      ensures dependencies == None
    {
      projects := [];
      feeds := [];
      configured := [];
      nugetSpecFolder := "packaging/nuget";
      sourceFolder := "src";
      buildCommand := "rake";
      fastBuildCommand := "rake compile";
      mode := Ripple;
      dependencies := None;
      new;
      AddFeed(Fubu);
      AddFeed(NuGetV2);
      AddFeed(NuGetV1);
      ResetDependencies();
    }

    /** `Empty()`: a new solution whose feeds are cleared. */
    static method Empty() returns (s: Solution)
      ensures fresh(s)
      ensures s.feeds == [] && s.projects == [] && s.configured == []
      ensures s.mode == Ripple && s.dependencies == None
      ensures s.nugetSpecFolder == "packaging/nuget" && s.sourceFolder == "src"
      ensures s.buildCommand == "rake" && s.fastBuildCommand == "rake compile"
    {
      s := new Solution();
      s.ClearFeeds();
    }

    /** `combineDependencies`: the configured dependencies plus each project's. */
    function CombineDependencies(): DependencyCollection
      reads this, projects
    {
      DependencyCollection(configured, seq(|projects|, i requires 0 <= i < |projects| reads this, projects => projects[i].dependencies))
    }

    /** `resetDependencies`: drop the built view; the next read rebuilds it. */
    method ResetDependencies()
      modifies this`dependencies
      ensures dependencies == None
    {
      dependencies := None;
    }

    /** The `Dependencies` getter: build the view on first read, then keep returning it. */
    method Dependencies() returns (c: DependencyCollection)
      modifies this`dependencies
      ensures old(dependencies).Some? ==> c == old(dependencies).value
      ensures old(dependencies).None? ==> c.configured == configured && |c.children| == |projects|
      ensures old(dependencies).None? ==> forall i :: 0 <= i < |projects| ==> c.children[i] == projects[i].dependencies
      ensures dependencies == Some(c)
    {
      if dependencies.None? {
        dependencies := Some(CombineDependencies());
      }
      c := dependencies.value;
    }

    // Projects, Feeds and Nugets: the getters hand out copies, the setters replace the contents.

    method Projects() returns (a: array<Project>)
      ensures fresh(a) && a[..] == projects
    {
      a := new Project[|projects|](i requires 0 <= i < |projects| reads this => projects[i]);
    }

    method SetProjects(value: array<Project>)
      modifies this`projects
      ensures projects == value[..]
    {
      projects := value[..];
    }

    method Feeds() returns (a: array<Feed>)
      ensures fresh(a) && a[..] == feeds
    {
      a := new Feed[|feeds|](i requires 0 <= i < |feeds| reads this => feeds[i]);
    }

    method SetFeeds(value: array<Feed>)
      modifies this`feeds
      ensures feeds == value[..]
    {
      feeds := value[..];
    }

    method Nugets() returns (a: array<Dependency>)
      ensures fresh(a) && a[..] == configured
    {
      a := new Dependency[|configured|](i requires 0 <= i < |configured| reads this => configured[i]);
    }

    method SetNugets(value: array<Dependency>)
      modifies this`configured
      ensures configured == value[..]
    {
      configured := value[..];
    }

    // Mutators

    method AddFeed(feed: Feed)
      modifies this`feeds
      ensures feeds == Fill(old(feeds), feed)
      ensures Distinct(old(feeds)) ==> Distinct(feeds)
    {
      if Distinct(feeds) {
        FillKeepsDistinct(feeds, feed);
      }
      feeds := Fill(feeds, feed);
    }

    method AddProject(project: Project)
      modifies this`projects, project`solution
      ensures project.solution == this
      ensures projects == Fill(old(projects), project)
      ensures Distinct(old(projects)) ==> Distinct(projects)
    {
      if Distinct(projects) {
        FillKeepsDistinct(projects, project);
      }
      project.solution := this;
      projects := Fill(projects, project);
    }

    /** `AddProject(string)`: a new project of that name, added to this solution. */
    method AddProjectNamed(name: string) returns (project: Project)
      modifies this`projects
      ensures fresh(project)
      ensures project.name == name && project.dependencies == [] && project.solution == this
      ensures projects == old(projects) + [project]
    {
      project := new Project(name);
      AddProject(project);
    }

    /** Adds a configured dependency unless present, and drops the built view. */
    method AddDependency(dependency: Dependency)
      modifies this`configured, this`dependencies
      ensures configured == Fill(old(configured), dependency)
      ensures dependencies == None
      ensures Distinct(old(configured)) ==> Distinct(configured)
    {
      if Distinct(configured) {
        FillKeepsDistinct(configured, dependency);
      }
      ResetDependencies();
      configured := Fill(configured, dependency);
    }

    method ClearFeeds()
      modifies this`feeds
      ensures feeds == []
    {
      feeds := [];
    }

    // Queries

    /** The one configured dependency named exactly `name`. */
    function FindDependency(name: string): (r: Lookup<Dependency>)
      reads this
      ensures r.NotFound? <==> forall i :: 0 <= i < |configured| ==> configured[i].name != name
      ensures r.Ambiguous? <==>
                exists i, j :: 0 <= i < j < |configured| && configured[i].name == name && configured[j].name == name
      ensures r.Found? ==> r.value in configured && r.value.name == name
      ensures r.Found? ==> forall i, j :: 0 <= i < j < |configured| ==> configured[i].name != name || configured[j].name != name
    {
      SingleOrDefault(configured, (d: Dependency) => d.name == name)
    }

    /** The one project whose name equals `name` ignoring case. */
    function FindProject(name: string): (r: Lookup<Project>)
      reads this
      ensures r.NotFound? <==> forall i :: 0 <= i < |projects| ==> !EqualsIgnoreCase(projects[i].name, name)
      ensures r.Ambiguous? <==>
                exists i, j :: 0 <= i < j < |projects|
                               && EqualsIgnoreCase(projects[i].name, name) && EqualsIgnoreCase(projects[j].name, name)
      ensures r.Found? ==> r.value in projects && EqualsIgnoreCase(r.value.name, name)
      ensures r.Found? ==> forall i, j :: 0 <= i < j < |projects| ==>
                             !EqualsIgnoreCase(projects[i].name, name) || !EqualsIgnoreCase(projects[j].name, name)
    {
      SingleOrDefault(projects, (p: Project) => EqualsIgnoreCase(p.name, name))
    }

    /**
     * `AssertIsValid`: one problem per project-dependency name that occurs
     * with two versions, in order of the name's first occurrence; the
     * check fails exactly when there is such a name.
     */
    method AssertIsValid() returns (r: Outcome<seq<Problem>>)
      ensures r.Fail? <==> HasVersionConflict(DependenciesOf(projects))
      ensures r.Fail? ==> r.error == ProblemsFor(ConflictingNames(DependenciesOf(projects)))
    {
      var all := DependenciesOf(projects);
      var problems: seq<Problem> := [];
      var i := 0;
      while i < |all|
        invariant 0 <= i <= |all|
        invariant problems == ProblemsFor(ConflictsBefore(all, i))
      {
        if forall j :: 0 <= j < i ==> all[j].name != all[i].name {
          var version := all[i].version;
          if exists j :: 0 <= j < |all| && all[j].name == all[i].name && all[j].version != version {
            problems := problems + [ProblemFor(all[i].name)];
          }
        }
        i := i + 1;
      }
      ConflictingNamesEmpty(all);
      if problems != [] {
        return Fail(problems);
      }
      return Pass;
    }
  }

  /** After `AddDependency`, the next `Dependencies` read is rebuilt from the current lists. */
  method ReadAfterAddDependency(s: Solution, dependency: Dependency) returns (c: DependencyCollection)
    modifies s
    ensures c.configured == Fill(old(s.configured), dependency)
    ensures |c.children| == |s.projects| && s.projects == old(s.projects)
    ensures forall i :: 0 <= i < |s.projects| ==> c.children[i] == s.projects[i].dependencies
  {
    s.AddDependency(dependency);
    c := s.Dependencies();
  }

  /**
   * Only `AddDependency` resets the view: once it has been read, adding a
   * project leaves the next read returning the view built before.
   */
  method ViewSurvivesAddProject(s: Solution, project: Project) returns (before: DependencyCollection, after: DependencyCollection)
    modifies s, project
    ensures after == before
    ensures s.projects == Fill(old(s.projects), project)
  {
    before := s.Dependencies();
    s.AddProject(project);
    after := s.Dependencies();
  }

  /** Writing into the array a getter returned leaves the solution's projects as they were. */
  method ProjectsCopyIsDetached(s: Solution, other: Project) returns (a: array<Project>)
    ensures fresh(a) && a.Length == |s.projects|
    ensures a.Length > 0 ==> a[0] == other
    ensures s.projects == old(s.projects)
  {
    a := s.Projects();
    if a.Length > 0 {
      a[0] := other;
    }
  }
}
