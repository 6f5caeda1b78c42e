/**
  Task registration and the start-up check of the declared dependencies:
  a three-colour depth-first search that reports every back edge it meets.
 */
module TaskGraph {
  import opened Models

  type Tasks = map<string, TaskSpec>

  /** `child` declares `parent`, and both are registered. */
  predicate Edge(tasks: Tasks, child: string, parent: string) {
    child in tasks && parent in tasks && parent in tasks[child].dependencies
  }

  predicate Chain(tasks: Tasks, walk: seq<string>) {
    forall i :: 0 <= i < |walk| - 1 ==> Edge(tasks, walk[i], walk[i + 1])
  }

  predicate Cycle(tasks: Tasks, walk: seq<string>) {
    |walk| >= 2 && Chain(tasks, walk) && walk[0] == walk[|walk| - 1]
  }

  ghost predicate Acyclic(tasks: Tasks) {
    forall walk :: !Cycle(tasks, walk)
  }

  /** A reported path: a chain whose last node occurred before, so that it ends in a cycle. */
  predicate EndsInCycle(tasks: Tasks, path: seq<string>) {
    |path| >= 2 && Chain(tasks, path) && path[|path| - 1] in path[..|path| - 1]
  }

  /** Every registered parent of a listed node is listed before it. */
  predicate ParentsFirst(tasks: Tasks, order: seq<string>) {
    forall i :: 0 <= i < |order| ==>
      forall parent :: parent in tasks && Edge(tasks, order[i], parent) ==> parent in order[..i]
  }

  lemma SuffixIsChain(tasks: Tasks, walk: seq<string>, from: nat)
    requires Chain(tasks, walk) && from <= |walk|
    ensures Chain(tasks, walk[from..])
  {
    var rest := walk[from..];
    forall j | 0 <= j < |rest| - 1
      ensures Edge(tasks, rest[j], rest[j + 1])
    {
      assert Edge(tasks, walk[from + j], walk[from + j + 1]);
    }
  }

  lemma LongerChain(tasks: Tasks, walk: seq<string>, next: string)
    requires Chain(tasks, walk) && |walk| > 0 && Edge(tasks, walk[|walk| - 1], next)
    ensures Chain(tasks, walk + [next])
    ensures next in walk ==> EndsInCycle(tasks, walk + [next])
  {
    var longer := walk + [next];
    assert longer[..|longer| - 1] == walk;
    forall j | 0 <= j < |longer| - 1
      ensures Edge(tasks, longer[j], longer[j + 1])
    {
      if j < |walk| - 1 {
        assert Edge(tasks, walk[j], walk[j + 1]);
      }
    }
  }

  lemma LongerOrder(tasks: Tasks, order: seq<string>, node: string)
    requires ParentsFirst(tasks, order)
    requires forall parent :: parent in tasks && Edge(tasks, node, parent) ==> parent in order
    ensures ParentsFirst(tasks, order + [node])
  {
    var longer := order + [node];
    forall i | 0 <= i < |longer|
      ensures forall parent :: parent in tasks && Edge(tasks, longer[i], parent) ==> parent in longer[..i]
    {
      assert longer[..i] == order[..i];
      assert i == |order| ==> order[..i] == order;
    }
  }

  lemma ReportedPathHoldsCycle(tasks: Tasks, path: seq<string>) returns (cycle: seq<string>)
    requires EndsInCycle(tasks, path)
    ensures Cycle(tasks, cycle)
    ensures exists i :: 0 <= i < |path| && cycle == path[i..]
  {
    var i :| 0 <= i < |path| - 1 && path[i] == path[|path| - 1];
    cycle := path[i..];
    SuffixIsChain(tasks, path, i);
  }

  /** Along a chain the position in a parents-first order strictly falls. */
  lemma {:induction false} ChainDescends(tasks: Tasks, order: seq<string>, walk: seq<string>, m: nat) returns (n: nat)
    requires ParentsFirst(tasks, order) && Chain(tasks, walk) && |walk| >= 2
    requires m < |order| && order[m] == walk[0]
    ensures n < m && order[n] == walk[|walk| - 1]
  {
    assert Edge(tasks, walk[0], walk[1]);
    assert walk[1] in order[..m];
    var k :| 0 <= k < m && order[k] == walk[1];
    if |walk| == 2 {
      n := k;
    } else {
      SuffixIsChain(tasks, walk, 1);
      n := ChainDescends(tasks, order, walk[1..], k);
    }
  }

  lemma {:induction false} NoCycleThrough(tasks: Tasks, order: seq<string>, walk: seq<string>, m: nat)
    requires ParentsFirst(tasks, order)
    requires |walk| > 0 && m < |order| && order[m] == walk[0]
    ensures !Cycle(tasks, walk)
    decreases m
  {
    if Cycle(tasks, walk) {
      var n := ChainDescends(tasks, order, walk, m);
      NoCycleThrough(tasks, order, walk, n);
    }
  }

  /** A parents-first order of all tasks leaves no room for a cycle. */
  lemma OrderedIsAcyclic(tasks: Tasks, order: seq<string>)
    requires ParentsFirst(tasks, order)
    requires forall node :: node in tasks ==> node in order
    ensures Acyclic(tasks)
  {
    forall walk | Cycle(tasks, walk)
      ensures false
    {
      assert Edge(tasks, walk[0], walk[1]);
      var m :| 0 <= m < |order| && order[m] == walk[0];
      NoCycleThrough(tasks, order, walk, m);
    }
  }

  /** Walk towards parents inside `group` until a member has none left there. */
  lemma {:induction false} WalkToMinimal(tasks: Tasks, group: set<string>, seen: set<string>, walk: seq<string>)
    returns (least: string)
    requires Acyclic(tasks) && group <= tasks.Keys
    requires |walk| > 0 && Chain(tasks, walk)
    requires seen == (set node | node in walk) && seen <= group
    ensures least in group
    ensures forall parent :: Edge(tasks, least, parent) ==> parent !in group
    decreases group - seen
  {
    var last := walk[|walk| - 1];
    if parent :| parent in group && Edge(tasks, last, parent) {
      var longer := walk + [parent];
      LongerChain(tasks, walk, parent);
      if parent in walk {
        var cycle := ReportedPathHoldsCycle(tasks, longer);
        assert false;
      }
      assert parent !in seen;
      least := WalkToMinimal(tasks, group, seen + {parent}, longer);
    } else {
      least := last;
      forall parent | Edge(tasks, least, parent)
        ensures parent !in group
      {
      }
    }
  }

  /** In an acyclic graph every non-empty group of tasks has a member with no parent in the group. */
  lemma MinimalMember(tasks: Tasks, group: set<string>) returns (least: string)
    requires Acyclic(tasks) && group <= tasks.Keys && group != {}
    ensures least in group
    ensures forall parent :: Edge(tasks, least, parent) ==> parent !in group
  {
    var start :| start in group;
    least := WalkToMinimal(tasks, group, {start}, [start]);
  }

  datatype Colour = Grey | Black

  /** The search's captured variables: the colour table and the list of reported paths. */
  class DepthFirst {
    const tasks: Tasks
    var state: map<string, Colour>
    var errors: seq<seq<string>>
    ghost var order: seq<string>  // finished nodes, in the order they turned black

    ghost predicate Valid()
      reads this
    {
      && state.Keys <= tasks.Keys
      && (forall path :: path in errors ==> EndsInCycle(tasks, path))
      && (forall node :: node in order <==> node in state && state[node].Black?)
      && (errors == [] ==> ParentsFirst(tasks, order))
    }

    constructor (tasks: Tasks)
      ensures Valid() && this.tasks == tasks && state == map[] && errors == [] && order == []
    {
      this.tasks := tasks;
      state, errors, order := map[], [], [];
    }

    /** The grey nodes are exactly the current path. */
    ghost predicate GreyIs(path: seq<string>)
      reads this
    {
      forall node :: node in path <==> node in state && state[node].Grey?
    }

    /** What a visit may do: finish white nodes and report more paths. */
    twostate predicate Grew()
      reads this
    {
      && (forall n :: n in old(state) ==> n in state && state[n] == old(state)[n])
      && (forall n :: n in state && n !in old(state) ==> state[n].Black?)
      && |old(errors)| <= |errors| && errors[..|old(errors)|] == old(errors)
    }

    /** Reports the back edge from the end of the path. */
    method Report(here: seq<string>, parent: string)
      requires Valid() && EndsInCycle(tasks, here + [parent])
      modifies this`errors
      ensures Valid() && errors == old(errors) + [here + [parent]]
    {
      errors := errors + [here + [parent]];
    }

    /** Turns the last node of the path black once its parents are done. */
    method Finish(path: seq<string>, node: string)
      requires Valid() && GreyIs(path + [node]) && node in state && node !in path
      requires errors == [] ==> forall parent :: parent in tasks && Edge(tasks, node, parent) ==> parent in order
      modifies this`state, this`order
      ensures Valid() && GreyIs(path) && state == old(state)[node := Black]
    {
      if errors == [] {
        LongerOrder(tasks, order, node);
      }
      state := state[node := Black];
      order := order + [node];
      assert forall n :: n in path <==> n in path + [node] && n != node;
    }

    /** The edge to one parent: reported when it closes a cycle, followed when the parent is new. */
    method Follow(here: seq<string>, parent: string)
      requires Valid() && GreyIs(here)
      requires here != [] && Chain(tasks, here) && Edge(tasks, here[|here| - 1], parent)
      modifies this
      ensures Valid() && GreyIs(here) && Grew()
      ensures errors == [] ==> parent in order
      decreases tasks.Keys - state.Keys, 1
    {
      LongerChain(tasks, here, parent);
      if parent in state && state[parent].Grey? {
        Report(here, parent);
      } else if parent !in state {
        Visit(parent, here);
      }
    }

    method Visit(node: string, path: seq<string>)
      requires Valid() && GreyIs(path)
      requires node in tasks && node !in state && Chain(tasks, path + [node])
      modifies this
      ensures Valid() && GreyIs(path) && Grew()
      ensures node in state
      decreases tasks.Keys - state.Keys, 0
    {
      state := state[node := Grey];
      label Marked:
      var here := path + [node];
      assert GreyIs(here);
      var parents := tasks[node].dependencies;
      for i := 0 to |parents|
        invariant Valid() && GreyIs(here) && Grew@Marked()
        invariant errors == [] ==>
                    forall j :: 0 <= j < i && parents[j] in tasks ==> parents[j] in order
      {
        if parents[i] in tasks {
          Follow(here, parents[i]);
        }
      }
      Finish(path, node);
    }

    /** The outer loop: `names` lists the tasks in the order they are started. */
    method Search(names: seq<string>)
      requires Valid() && state == map[] && errors == []
      requires forall name :: name in names <==> name in tasks
      modifies this
      ensures Valid()
      ensures errors == [] <==> Acyclic(tasks)
    {
      for i := 0 to |names|
        invariant Valid() && GreyIs([])
        invariant forall j :: 0 <= j < i ==> names[j] in state
      {
        if names[i] !in state {
          Visit(names[i], []);
        }
      }
      if errors == [] {
        OrderedIsAcyclic(tasks, order);
      } else {
        var cycle := ReportedPathHoldsCycle(tasks, errors[0]);
      }
    }
  }

  datatype ValidationError =
    | MissingParent(job: string, parent: string)
    | MissingVersionProvider(job: string)
    | UnexpectedVersionProvider(job: string)
    | DependencyCycle(path: seq<string>)

  /** The three kinds of complaint about one task alone. */
  predicate WellDeclared(tasks: Tasks, spec: TaskSpec) {
    && (forall parent :: parent in spec.dependencies ==> parent in tasks)
    && (Versioned(spec.kind) <==> spec.hasVersionProvider)
  }

  function DefOf(spec: TaskSpec): JobDef {
    JobDef(spec.jobId, spec.kind, spec.dataset, spec.schedule, spec.priority, spec.maxAttempts)
  }

  class TaskRegistry {
    var tasks: Tasks
    var names: seq<string>  // registration order, the order of the source's dict

    ghost predicate Valid()
      reads this
    {
      && (forall name :: name in names <==> name in tasks)
      && (forall name :: name in tasks ==> tasks[name].jobId == name)
    }

    constructor ()
      ensures Valid() && tasks == map[] && names == []
    {
      tasks, names := map[], [];
    }

    /** Refuses a second registration of the same job and leaves the table alone then. */
    method Register(spec: TaskSpec) returns (accepted: bool)
      requires Valid()
      modifies this
      ensures Valid()
      ensures accepted == (spec.jobId !in old(tasks))
      ensures tasks == if accepted then old(tasks)[spec.jobId := spec] else old(tasks)
      ensures names == if accepted then old(names) + [spec.jobId] else old(names)
    {
      accepted := spec.jobId !in tasks;
      if accepted {
        tasks := tasks[spec.jobId := spec];
        names := names + [spec.jobId];
      }
    }

    /** The definitions in registration order. */
    method Defs() returns (defs: seq<JobDef>)
      requires Valid()
      ensures |defs| == |names| && forall i :: 0 <= i < |names| ==> names[i] in tasks && defs[i] == DefOf(tasks[names[i]])
    {
      defs := [];
      for i := 0 to |names|
        invariant |defs| == i && forall j :: 0 <= j < i ==> names[j] in tasks && defs[j] == DefOf(tasks[names[j]])
      {
        defs := defs + [DefOf(tasks[names[i]])];
      }
    }

    /** The declared edges, as the dependency table mirrors them. */
    method Dependencies() returns (deps: seq<JobDependency>)
      requires Valid()
      ensures forall dep :: dep in deps <==>
                dep.child in tasks && dep.parent in tasks[dep.child].dependencies
                && dep.condition == tasks[dep.child].condition
    {
      deps := [];
      for i := 0 to |names|
        invariant forall dep :: dep in deps <==>
                    dep.child in names[..i] && dep.parent in tasks[dep.child].dependencies
                    && dep.condition == tasks[dep.child].condition
      {
        var spec := tasks[names[i]];
        ghost var before := deps;
        for j := 0 to |spec.dependencies|
          invariant forall dep :: dep in deps <==>
                      dep in before
                      || (dep.child == spec.jobId && dep.parent in spec.dependencies[..j]
                          && dep.condition == spec.condition)
        {
          deps := deps + [JobDependency(spec.dependencies[j], spec.jobId, spec.condition)];
        }
        assert spec.dependencies[..|spec.dependencies|] == spec.dependencies;
        assert names[..i + 1] == names[..i] + [names[i]];
      }
      assert names[..|names|] == names;
    }

    /** Start-up validation: silent exactly when every task is well declared and the graph is acyclic. */
    method Validate(sortedNames: seq<string>) returns (errors: seq<ValidationError>)
      requires Valid()
      requires forall name :: name in sortedNames <==> name in tasks
      ensures errors == [] <==> (forall name :: name in tasks ==> WellDeclared(tasks, tasks[name])) && Acyclic(tasks)
      ensures forall error :: error in errors && error.DependencyCycle? ==> EndsInCycle(tasks, error.path)
      ensures forall job, parent :: MissingParent(job, parent) in errors <==>
                job in tasks && parent in tasks[job].dependencies && parent !in tasks
    {
      errors := [];
      for i := 0 to |names|
        invariant forall error :: error in errors ==> !error.DependencyCycle?
        invariant errors == [] <==> forall name :: name in names[..i] ==> WellDeclared(tasks, tasks[name])
        invariant forall job, parent :: MissingParent(job, parent) in errors <==>
                    job in names[..i] && parent in tasks[job].dependencies && parent !in tasks
      {
        var found := TaskErrors(tasks[names[i]]);
        errors := errors + found;
        assert names[..i + 1] == names[..i] + [names[i]];
      }
      assert names[..|names|] == names;
      var search := new DepthFirst(tasks);
      search.Search(sortedNames);
      for k := 0 to |search.errors|
        invariant forall error :: error in errors && error.DependencyCycle? ==> EndsInCycle(tasks, error.path)
        invariant errors == [] <==>
                    (forall name :: name in tasks ==> WellDeclared(tasks, tasks[name])) && k == 0
        invariant forall job, parent :: MissingParent(job, parent) in errors <==>
                    job in tasks && parent in tasks[job].dependencies && parent !in tasks
      {
        errors := errors + [DependencyCycle(search.errors[k])];
      }
    }

    method TaskErrors(spec: TaskSpec) returns (errors: seq<ValidationError>)
      ensures errors == [] <==> WellDeclared(tasks, spec)
      ensures forall error :: error in errors ==> !error.DependencyCycle?
      ensures forall job, parent :: MissingParent(job, parent) in errors <==>
                job == spec.jobId && parent in spec.dependencies && parent !in tasks
      ensures forall job :: MissingVersionProvider(job) in errors <==>
                job == spec.jobId && Versioned(spec.kind) && !spec.hasVersionProvider
      ensures forall job :: UnexpectedVersionProvider(job) in errors <==>
                job == spec.jobId && !Versioned(spec.kind) && spec.hasVersionProvider
    {
      errors := [];
      for j := 0 to |spec.dependencies|
        invariant forall error :: error in errors ==> error.MissingParent?
        invariant errors == [] <==> forall parent :: parent in spec.dependencies[..j] ==> parent in tasks
        invariant forall job, parent :: MissingParent(job, parent) in errors <==>
                    job == spec.jobId && parent in spec.dependencies[..j] && parent !in tasks
      {
        if spec.dependencies[j] !in tasks {
          errors := errors + [MissingParent(spec.jobId, spec.dependencies[j])];
        }
      }
      assert spec.dependencies[..|spec.dependencies|] == spec.dependencies;
      if Versioned(spec.kind) && !spec.hasVersionProvider {
        errors := errors + [MissingVersionProvider(spec.jobId)];
      }
      if !Versioned(spec.kind) && spec.hasVersionProvider {
        errors := errors + [UnexpectedVersionProvider(spec.jobId)];
      }
    }
  }
}
