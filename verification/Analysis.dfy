/**
  The analysis controller of pkg/controller/schedule/analysis/analysis_controller.go as a system of
  atomic steps: any number of reconcile workers, the deployment Add handler and the cluster run
  interleaved over one namespace cache.
 */
module Analysis {
  import opened Common

  datatype Selector = Selector(kind: string, apiVersion: string, name: string)

  datatype Task = Task(namespace: string, kind: string, selectors: seq<Selector>, strategy: int)

  /** `uid` tells apart deployments that reuse a name; it is never used again. */
  datatype Deployment = Deployment(namespace: string, name: string, uid: nat)

  /** A CreateCraneAnalysis call. */
  datatype Request = Request(namespace: string, target: Selector, strategy: int)

  /** A call made, with the deployment it was made for as history; a deployment task names its targets itself. */
  datatype Issued = Issued(request: Request, of: Option<Deployment>)

  const DEPLOYMENT := "Deployment"
  const NAMESPACE := "Namespace"

  function ConvertResource(d: Deployment): Selector {
    Selector(DEPLOYMENT, "apps/v1", d.name)
  }

  // ----- The state

  /** Where a reconcile worker is. */
  datatype Pc =
    | Idle
    | Direct(task: Task, i: nat)                                        // deployment task, before selector i
    | AtSelector(task: Task, i: nat)                                    // namespace task, before selector i
    | Listing(task: Task, i: nat)                                       // cache written, List not answered
    | Issuing(task: Task, i: nat, items: seq<Deployment>, j: nat)       // before the request for item j

  datatype State = State(
    live: set<Deployment>,                      // what the cluster holds
    pending: set<Deployment>,                   // Add events not delivered yet
    cache: map<string, Task>,                   // NameSpaceCache
    handler: Option<(Deployment, Task)>,        // an Add handler that has read the cache
    workers: seq<Pc>,
    issued: seq<Issued>,
    known: set<Deployment>,                     // history: every deployment there ever was
    tasks: set<Task>,                           // history: every task a reconcile was started for
    done: set<string>)                          // history: namespaces whose List succeeded and loop ended

  datatype Step =
    | Create(d: Deployment)
    | Delete(d: Deployment)
    | Deliver(d: Deployment)
    | HandlerIssue
    | Start(w: nat, task: Task)
    | Direct1(w: nat)
    | Select(w: nat)
    | ListOk(w: nat, items: seq<Deployment>)
    | ListFail(w: nat)
    | Issue(w: nat)

  function InNamespace(s: State, ns: string): set<Deployment> {
    set d | d in s.live && d.namespace == ns
  }

  function At(s: State, w: nat, pc: Pc): State
    requires w < |s.workers|
  {
    s.(workers := s.workers[w := pc])
  }

  function Requested(s: State, d: Deployment, strategy: int): State {
    s.(issued := s.issued + [Issued(Request(d.namespace, ConvertResource(d), strategy), Some(d))])
  }

  /** One atomic step, or None when it is not possible. */
  function Next(s: State, step: Step): Option<State> {
    match step
    case Create(d) =>
      if d in s.known then None
      else Some(s.(live := s.live + {d}, pending := s.pending + {d}, known := s.known + {d}))
    case Delete(d) =>
      if d in s.live then Some(s.(live := s.live - {d})) else None
    case Deliver(d) =>
      if d !in s.pending || s.handler.Some? then None
      else
        var s1 := s.(pending := s.pending - {d});
        if d.namespace in s.cache then Some(s1.(handler := Some((d, s.cache[d.namespace])))) else Some(s1)
    case HandlerIssue =>
      if s.handler.None? then None
      else Some(Requested(s, s.handler.value.0, s.handler.value.1.strategy).(handler := None))
    case Start(w, task) =>
      if w >= |s.workers| || !s.workers[w].Idle? then None
      else
        var s1 := s.(tasks := s.tasks + {task});
        if task.kind == DEPLOYMENT then Some(At(s1, w, Direct(task, 0)))
        else if task.kind == NAMESPACE then Some(At(s1, w, AtSelector(task, 0)))
        else Some(s1)
    case Direct1(w) =>
      if w >= |s.workers| || !s.workers[w].Direct? then None
      else
        var Direct(task, i) := s.workers[w];
        if i >= |task.selectors| then Some(At(s, w, Idle))
        else if task.selectors[i].kind != DEPLOYMENT then Some(At(s, w, Direct(task, i + 1)))
        else Some(At(s, w, Direct(task, i + 1)).(
                    issued := s.issued + [Issued(Request(task.namespace, task.selectors[i], task.strategy), None)]))
    case Select(w) =>
      if w >= |s.workers| || !s.workers[w].AtSelector? then None
      else
        var AtSelector(task, i) := s.workers[w];
        if i >= |task.selectors| then Some(At(s, w, Idle))
        else if task.selectors[i].kind != NAMESPACE then Some(At(s, w, AtSelector(task, i + 1)))
        else if task.selectors[i].name == "" then Some(At(s, w, Idle))
        else Some(At(s, w, Listing(task, i)).(cache := s.cache[task.selectors[i].name := task]))
    case ListOk(w, items) =>
      if w >= |s.workers| || !s.workers[w].Listing? then None
      else
        var Listing(task, i) := s.workers[w];
        if i < |task.selectors| && (set d | d in items) == InNamespace(s, task.selectors[i].name)
        then Some(At(s, w, Issuing(task, i, items, 0))) else None
    case ListFail(w) =>
      if w < |s.workers| && s.workers[w].Listing? then Some(At(s, w, Idle)) else None
    case Issue(w) =>
      if w >= |s.workers| || !s.workers[w].Issuing? then None
      else
        var Issuing(task, i, items, j) := s.workers[w];
        if j < |items| then
          Some(Requested(At(s, w, Issuing(task, i, items, j + 1)), items[j], task.strategy))
        else if i < |task.selectors| then
          Some(At(s, w, AtSelector(task, i + 1)).(done := s.done + {task.selectors[i].name}))
        else None
  }

  function Run(s: State, steps: seq<Step>): Option<State>
    decreases steps
  {
    if steps == [] then Some(s)
    else match Next(s, steps[0])
         case None => None
         case Some(t) => Run(t, steps[1..])
  }

  /** Start-up: the cluster may hold anything, and any of its Add events may have been delivered already. */
  ghost predicate Init(s: State) {
    && s.live <= s.known && s.pending <= s.known
    && s.cache == map[] && s.handler.None? && s.issued == [] && s.tasks == {} && s.done == {}
    && forall w | 0 <= w < |s.workers| :: s.workers[w] == Idle
  }

  // ----- The invariant

  /** The task is a namespace task with a Namespace selector that names `ns`. */
  ghost predicate Names(t: Task, ns: string) {
    t.kind == "Namespace" &&
    exists i :: 0 <= i < |t.selectors| && t.selectors[i].kind == "Namespace" && t.selectors[i].name == ns
  }

  ghost predicate InFlight(s: State, d: Deployment) {
    s.handler.Some? && s.handler.value.0 == d
  }

  /** A request has been issued for this very deployment, not for another one of its name. */
  ghost predicate Served(s: State, d: Deployment) {
    exists c :: c in s.issued && IssuedFor(c, d)
  }

  ghost predicate IssuedFor(c: Issued, d: Deployment) {
    c.of == Some(d) && Targets(c.request, d)
  }

  /** The request names the deployment: its namespace, its name, and that it is a Deployment of apps/v1. */
  ghost predicate Targets(r: Request, d: Deployment) {
    && r.namespace == d.namespace
    && r.target.kind == "Deployment" && r.target.apiVersion == "apps/v1" && r.target.name == d.name
  }

  /** Every live deployment of `ns` has been requested, is about to be, or is one of `rest`. */
  ghost predicate Covered(s: State, ns: string, rest: seq<Deployment>) {
    forall d | d in s.live && d.namespace == ns :: Served(s, d) || d in s.pending || InFlight(s, d) || d in rest
  }

  ghost predicate SelectorOK(t: Task, i: nat) {
    t.kind == NAMESPACE && i < |t.selectors| && t.selectors[i].kind == NAMESPACE
  }

  ghost predicate WorkerOK(s: State, pc: Pc) {
    match pc
    case Idle => true
    case Direct(_, _) => true
    case AtSelector(t, _) => t.kind == NAMESPACE
    case Listing(t, i) => SelectorOK(t, i) && t.selectors[i].name in s.cache
    case Issuing(t, i, items, j) =>
      && SelectorOK(t, i) && t.selectors[i].name in s.cache && j <= |items|
      && Covered(s, t.selectors[i].name, items[j..])
  }

  ghost predicate Inv(s: State) {
    && (forall ns | ns in s.cache :: Names(s.cache[ns], ns))
    && (forall w | 0 <= w < |s.workers| :: WorkerOK(s, s.workers[w]))
    && (forall ns | ns in s.done :: ns in s.cache && Covered(s, ns, []))
    && s.live <= s.known && s.pending <= s.known
  }

  lemma InitInv(s: State)
    requires Init(s)
    ensures Inv(s)
  {
  }

  /** Coverage of a cached namespace survives every step; an issued item leaves the rest. */
  lemma CoveredStep(s: State, step: Step, ns: string, rest: seq<Deployment>)
    requires Next(s, step).Some? && ns in s.cache && Covered(s, ns, rest)
    ensures var t := Next(s, step).value; ns in t.cache && Covered(t, ns, rest)
  {
    var t := Next(s, step).value;
    forall d | d in t.live && d.namespace == ns ensures Served(t, d) || d in t.pending || InFlight(t, d) || d in rest {
      if d in s.live && (Served(s, d) || InFlight(s, d)) {
        ServedStep(s, step, d);
      }
    }
  }

  /** What has been requested stays requested, and the handler drops its deployment only by requesting it. */
  lemma ServedStep(s: State, step: Step, d: Deployment)
    requires Next(s, step).Some?
    ensures var t := Next(s, step).value;
            && (Served(s, d) ==> Served(t, d))
            && (InFlight(s, d) ==> Served(t, d) || InFlight(t, d))
  {
    var t := Next(s, step).value;
    if Served(s, d) {
      var c :| c in s.issued && IssuedFor(c, d);
      assert c in t.issued;
    }
    if step.HandlerIssue? && InFlight(s, d) {
      assert IssuedFor(t.issued[|t.issued| - 1], d);
    }
  }

  lemma CacheStep(s: State, step: Step)
    requires Inv(s) && Next(s, step).Some?
    ensures var t := Next(s, step).value;
            s.cache.Keys <= t.cache.Keys && forall ns | ns in t.cache :: Names(t.cache[ns], ns)
  {
    if step.Select? {
      assert WorkerOK(s, s.workers[step.w]);
    }
  }

  predicate Moves(step: Step, w: nat) {
    match step
    case Start(v, _) => v == w
    case Direct1(v) => v == w
    case Select(v) => v == w
    case ListOk(v, _) => v == w
    case ListFail(v) => v == w
    case Issue(v) => v == w
    case _ => false
  }

  lemma OtherStepKeeps(s: State, step: Step, w: nat)
    requires Next(s, step).Some? && !Moves(step, w) && w < |s.workers|
    ensures var t := Next(s, step).value; |t.workers| == |s.workers| && t.workers[w] == s.workers[w]
  {
  }

  /** One more item of a worker's List is requested; the others stay to be done. */
  lemma IssueStep(s: State, step: Step)
    requires Next(s, step).Some? && step.Issue? && s.workers[step.w].j < |s.workers[step.w].items|
    requires var pc := s.workers[step.w];
             SelectorOK(pc.task, pc.i) && Covered(s, pc.task.selectors[pc.i].name, pc.items[pc.j..])
    ensures var pc := s.workers[step.w];
            Covered(Next(s, step).value, pc.task.selectors[pc.i].name, pc.items[pc.j + 1..])
  {
    var t, pc := Next(s, step).value, s.workers[step.w];
    var ns, rest := pc.task.selectors[pc.i].name, pc.items[pc.j + 1..];
    assert pc.items[pc.j..] == [pc.items[pc.j]] + rest;
    forall d | d in t.live && d.namespace == ns ensures Served(t, d) || d in t.pending || InFlight(t, d) || d in rest {
      ServedStep(s, step, d);
      assert IssuedFor(t.issued[|t.issued| - 1], pc.items[pc.j]);
    }
  }

  lemma OwnStep(s: State, step: Step, w: nat)
    requires Inv(s) && Next(s, step).Some? && Moves(step, w)
    ensures var t := Next(s, step).value;
            w < |s.workers| == |t.workers| && WorkerOK(t, t.workers[w])
  {
    var pc := s.workers[w];
    assert WorkerOK(s, pc);
    if step.Issue? && pc.j < |pc.items| {
      assert pc.items[pc.j..] == [pc.items[pc.j]] + pc.items[pc.j + 1..];
      IssueStep(s, step);
    }
    if step.ListOk? {
      assert step.items[0..] == step.items;
      assert forall d | d in InNamespace(s, pc.task.selectors[pc.i].name) :: d in step.items;
    }
  }

  lemma WorkerStep(s: State, step: Step, w: nat)
    requires Inv(s) && Next(s, step).Some? && w < |s.workers|
    ensures var t := Next(s, step).value; |t.workers| == |s.workers| && WorkerOK(t, t.workers[w])
  {
    if Moves(step, w) {
      OwnStep(s, step, w);
    } else {
      hide Next;
      OtherStepKeeps(s, step, w);
      CacheStep(s, step);
      var pc := s.workers[w];
      assert WorkerOK(s, pc);
      if pc.Issuing? {
        CoveredStep(s, step, pc.task.selectors[pc.i].name, pc.items[pc.j..]);
      }
    }
  }

  lemma DoneStep(s: State, step: Step, ns: string)
    requires Inv(s) && Next(s, step).Some? && ns in Next(s, step).value.done
    ensures var t := Next(s, step).value; ns in t.cache && Covered(t, ns, [])
  {
    if ns in s.done {
      CoveredStep(s, step, ns, []);
    } else {
      var pc := s.workers[step.w];
      assert WorkerOK(s, pc) && pc.items[pc.j..] == [];
    }
  }

  lemma InvStep(s: State, step: Step)
    requires Inv(s) && Next(s, step).Some?
    ensures Inv(Next(s, step).value)
  {
    var t := Next(s, step).value;
    CacheStep(s, step);
    forall w | 0 <= w < |t.workers| ensures WorkerOK(t, t.workers[w]) {
      WorkerStep(s, step, w);
    }
    forall ns | ns in t.done ensures ns in t.cache && Covered(t, ns, []) {
      DoneStep(s, step, ns);
    }
  }

  lemma {:induction false} InvRun(s: State, steps: seq<Step>)
    requires Inv(s) && Run(s, steps).Some?
    ensures Inv(Run(s, steps).value)
    decreases steps
  {
    if steps != [] {
      InvStep(s, steps[0]);
      InvRun(Next(s, steps[0]).value, steps[1..]);
    }
  }

  // ----- The guarantees

  /**
    No lost deployment: once a namespace's List has succeeded and its loop has ended, in every
    later state every live deployment of the namespace has been requested itself, also when it
    was created again under its old name, or its Add event is still undelivered or in the handler
    that will request it.
   */
  lemma NoLostDeployment(s: State, steps: seq<Step>, ns: string, d: Deployment)
    requires Init(s) && Run(s, steps).Some?
    requires var t := Run(s, steps).value; ns in t.done && d in t.live && d.namespace == ns
    ensures var t := Run(s, steps).value; Served(t, d) || d in t.pending || InFlight(t, d)
  {
    InitInv(s);
    InvRun(s, steps);
  }

  /** Once the event queue has drained, previous and subsequent workloads alike have been requested. */
  lemma AllRequestedWhenDrained(s: State, steps: seq<Step>, ns: string)
    requires Init(s) && Run(s, steps).Some?
    requires var t := Run(s, steps).value; ns in t.done && t.pending == {} && t.handler.None?
    ensures var t := Run(s, steps).value; forall d | d in t.live && d.namespace == ns :: Served(t, d)
  {
    var t := Run(s, steps).value;
    forall d | d in t.live && d.namespace == ns ensures Served(t, d) {
      NoLostDeployment(s, steps, ns, d);
    }
  }

  // ----- Nothing is requested unasked

  /** The request was asked for: by a deployment task that names it, or for a namespace that a task names. */
  ghost predicate Asked(s: State, c: Issued) {
    match c.of
    case None => exists t :: t in s.tasks && AskedDirectly(t, c.request)
    case Some(d) =>
      && d in s.known && Targets(c.request, d)
      && exists t :: t in s.tasks && Names(t, d.namespace) && c.request.strategy == t.strategy
  }

  ghost predicate AskedDirectly(t: Task, r: Request) {
    t.kind == "Deployment" && r.target in t.selectors && r.target.kind == "Deployment"
    && r.namespace == t.namespace && r.strategy == t.strategy
  }

  ghost predicate OriginOK(s: State, pc: Pc) {
    match pc
    case Idle => true
    case Direct(t, _) => t in s.tasks && t.kind == DEPLOYMENT
    case AtSelector(t, _) => t in s.tasks
    case Listing(t, _) => t in s.tasks
    case Issuing(t, i, items, _) =>
      t in s.tasks && i < |t.selectors| && forall d | d in items :: d in s.known && d.namespace == t.selectors[i].name
  }

  ghost predicate Origins(s: State) {
    && (forall ns | ns in s.cache :: s.cache[ns] in s.tasks)
    && (s.handler.Some? ==> s.handler.value.0 in s.known && s.handler.value.1 in s.tasks
                            && Names(s.handler.value.1, s.handler.value.0.namespace))
    && (forall w | 0 <= w < |s.workers| :: OriginOK(s, s.workers[w]))
    && (forall k | 0 <= k < |s.issued| :: Asked(s, s.issued[k]))
  }

  /** Only a task that asks for it makes a step issue a request. */
  lemma NewlyAsked(s: State, step: Step)
    requires Inv(s) && Origins(s) && Next(s, step).Some? && |Next(s, step).value.issued| > |s.issued|
    ensures var t := Next(s, step).value; |t.issued| == |s.issued| + 1 && Asked(s, t.issued[|s.issued|])
  {
    var c := Next(s, step).value.issued[|s.issued|];
    if step.Issue? {
      var pc := s.workers[step.w];
      assert WorkerOK(s, pc) && OriginOK(s, pc);
      assert pc.items[pc.j] in pc.items && Names(pc.task, pc.items[pc.j].namespace);
    } else if step.Direct1? {
      var pc := s.workers[step.w];
      assert OriginOK(s, pc);
      assert AskedDirectly(pc.task, c.request);
    }
  }

  lemma OriginsStep(s: State, step: Step)
    requires Inv(s) && Origins(s) && Next(s, step).Some?
    ensures Origins(Next(s, step).value)
  {
    hide Next, Asked, Inv;
    var t := Next(s, step).value;
    GrowsStep(s, step);
    forall w | 0 <= w < |t.workers| ensures OriginOK(t, t.workers[w]) {
      OriginStep(s, step, w);
    }
    forall k | 0 <= k < |t.issued| ensures Asked(t, t.issued[k]) {
      if k < |s.issued| {
        assert t.issued[k] == s.issued[k];
      } else {
        NewlyAsked(s, step);
      }
      StillAsked(s, t, t.issued[k]);
    }
    CacheOrigins(s, step);
    HandlerOrigins(s, step);
  }

  lemma CacheOrigins(s: State, step: Step)
    requires Inv(s) && Origins(s) && Next(s, step).Some?
    ensures var t := Next(s, step).value; forall ns | ns in t.cache :: t.cache[ns] in t.tasks
  {
    hide Asked, Names, WorkerOK, Covered;
    if step.Select? {
      assert OriginOK(s, s.workers[step.w]);
    }
  }

  lemma HandlerOrigins(s: State, step: Step)
    requires Inv(s) && Origins(s) && Next(s, step).Some?
    ensures var t := Next(s, step).value;
            t.handler.Some? ==> t.handler.value.0 in t.known && t.handler.value.1 in t.tasks
                                && Names(t.handler.value.1, t.handler.value.0.namespace)
  {
    hide Asked, Names, WorkerOK, OriginOK, Covered;
  }

  lemma StillAsked(s: State, t: State, c: Issued)
    requires Asked(s, c) && s.tasks <= t.tasks && s.known <= t.known
    ensures Asked(t, c)
  {
  }

  lemma ListedKnown(s: State, step: Step)
    requires Inv(s) && step.ListOk? && Next(s, step).Some?
    ensures var pc := s.workers[step.w];
            forall d | d in step.items :: d in s.known && d.namespace == pc.task.selectors[pc.i].name
  {
    var pc := s.workers[step.w];
    forall d | d in step.items ensures d in s.known && d.namespace == pc.task.selectors[pc.i].name {
      assert d in InNamespace(s, pc.task.selectors[pc.i].name);
    }
  }

  lemma OriginStep(s: State, step: Step, w: nat)
    requires Inv(s) && Origins(s) && Next(s, step).Some? && w < |s.workers|
    ensures var t := Next(s, step).value; |t.workers| == |s.workers| && OriginOK(t, t.workers[w])
  {
    assert OriginOK(s, s.workers[w]);
    if !Moves(step, w) {
      OtherStepKeeps(s, step, w);
      GrowsStep(s, step);
    } else if step.ListOk? {
      ListedKnown(s, step);
    }
  }

  lemma {:induction false} OriginsRun(s: State, steps: seq<Step>)
    requires Inv(s) && Origins(s) && Run(s, steps).Some?
    ensures Origins(Run(s, steps).value)
    decreases steps
  {
    if steps != [] {
      InvStep(s, steps[0]);
      OriginsStep(s, steps[0]);
      OriginsRun(Next(s, steps[0]).value, steps[1..]);
    }
  }

  /**
    Nothing is requested unasked: in every run each request is for a Deployment selector of some
    deployment task, or for a deployment of a namespace that some namespace task selects, and
    carries that task's strategy.
   */
  lemma NoUnaskedRequest(s: State, steps: seq<Step>, c: Issued)
    requires Init(s) && Run(s, steps).Some? && c in Run(s, steps).value.issued
    ensures Asked(Run(s, steps).value, c)
  {
    InitInv(s);
    OriginsRun(s, steps);
    var t := Run(s, steps).value;
    var k :| 0 <= k < |t.issued| && t.issued[k] == c;
  }

  // ----- What only grows

  /** Every cached task is a namespace task that names its key, and keys are never removed. */
  lemma {:induction false} CacheFacts(s: State, steps: seq<Step>, later: seq<Step>)
    requires Init(s) && Run(s, steps).Some? && Run(Run(s, steps).value, later).Some?
    ensures var t := Run(s, steps).value;
            && (forall ns | ns in t.cache :: Names(t.cache[ns], ns))
            && t.cache.Keys <= Run(t, later).value.cache.Keys
            && t.issued <= Run(t, later).value.issued
  {
    InitInv(s);
    InvRun(s, steps);
    Grows(Run(s, steps).value, later);
  }

  lemma GrowsStep(s: State, step: Step)
    requires Next(s, step).Some?
    ensures var t := Next(s, step).value;
            && s.cache.Keys <= t.cache.Keys && s.issued <= t.issued && s.done <= t.done && |s.workers| == |t.workers|
            && s.known <= t.known && s.tasks <= t.tasks
  {
  }

  lemma {:induction false} Grows(s: State, steps: seq<Step>)
    requires Run(s, steps).Some?
    ensures var t := Run(s, steps).value;
            |s.workers| == |t.workers| && s.cache.Keys <= t.cache.Keys && s.issued <= t.issued && s.done <= t.done
    decreases steps
  {
    if steps != [] {
      GrowsStep(s, steps[0]);
      Grows(Next(s, steps[0]).value, steps[1..]);
    }
  }
}
