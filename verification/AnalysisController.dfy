/**
  The controller's own code: the reconcile loops and the Add handler as methods over the shared
  state, with everybody else free to run between any two of their atomic steps.
 */
module AnalysisController {
  import opened Common
  import opened Analysis

  ghost predicate Processed(done: set<string>, task: Task, k: nat, listOk: nat -> bool)
    requires k < |task.selectors|
  {
    task.selectors[k].kind == NAMESPACE ==>
      task.selectors[k].name != "" && listOk(k) && task.selectors[k].name in done
  }

  lemma StillProcessed(done: set<string>, more: set<string>, task: Task, n: nat, listOk: nat -> bool)
    requires done <= more && n <= |task.selectors| && forall k | 0 <= k < n :: Processed(done, task, k, listOk)
    ensures forall k | 0 <= k < n :: Processed(more, task, k, listOk)
  {
    forall k | 0 <= k < n ensures Processed(more, task, k, listOk) {
      assert Processed(done, task, k, listOk);
    }
  }

  /** The call for a target that a deployment task names itself. */
  ghost function Named(task: Task, target: Selector): Issued {
    Issued(Request(task.namespace, target, task.strategy), None)
  }

  /** The call for a deployment of a selected namespace: it names the deployment as a Deployment of apps/v1. */
  ghost function CallFor(d: Deployment, strategy: int): Issued {
    Issued(Request(d.namespace, Selector("Deployment", "apps/v1", d.name), strategy), Some(d))
  }

  /** Only the handler itself ends its call, and no step announces a known deployment again. */
  lemma HandlerWaits(s: State, step: Step, d: Deployment)
    requires Next(s, step).Some? && !step.HandlerIssue? && s.handler.Some? && d in s.known && d !in s.pending
    ensures var t := Next(s, step).value;
            t.handler == s.handler && d in t.known && d !in t.pending && s.issued <= t.issued
  {
  }

  class Controller {
    var s: State

    constructor (s: State)
      requires Init(s)
      ensures this.s == s && Inv(this.s)
    {
      this.s := s;
      new;
      InitInv(s);
    }

    /** One atomic step of the caller. */
    method Act(step: Step)
      requires Inv(s) && Next(s, step).Some?
      modifies this
      ensures Inv(s) && s == Next(old(s), step).value
      ensures |s.workers| == |old(s).workers| && old(s).done <= s.done && old(s).issued <= s.issued
    {
      InvStep(s, step);
      GrowsStep(s, step);
      s := Next(s, step).value;
    }

    /** Any number of steps of anybody but worker `w`; callers know only what such steps keep. */
    method Interfere(w: nat)
      requires Inv(s) && w < |s.workers|
      modifies this
      ensures Inv(s) && |s.workers| == |old(s).workers| && s.workers[w] == old(s).workers[w]
      ensures old(s).done <= s.done && old(s).issued <= s.issued
    {
      hide Inv;
      var count: int := *;
      while count > 0
        invariant Inv(s) && |s.workers| == |old(s).workers| && s.workers[w] == old(s).workers[w]
        invariant old(s).done <= s.done && old(s).issued <= s.issued
      {
        var step: Step := *;
        if Next(s, step).Some? && !Moves(step, w) {
          OtherStepKeeps(s, step, w);
          Act(step);
        }
        count := count - 1;
      }
    }

    ghost predicate At(w: nat, pc: Pc)
      reads this
    {
      Inv(s) && w < |s.workers| && s.workers[w] == pc
    }

    /** The deployments of a namespace in some order. */
    method ItemsOf(ns: string) returns (items: seq<Deployment>)
      ensures (set d | d in items) == InNamespace(s, ns)
    {
      items := [];
      var rest := InNamespace(s, ns);
      while rest != {}
        invariant (set d | d in items) + rest == InNamespace(s, ns)
      {
        var d :| d in rest;
        items := items + [d];
        rest := rest - {d};
      }
    }

    /** The loop over the listed deployments, and the end of it. */
    method IssueAll(w: nat, task: Task, i: nat, items: seq<Deployment>)
      requires i < |task.selectors| && At(w, Issuing(task, i, items, 0))
      modifies this
      ensures At(w, AtSelector(task, i + 1)) && task.selectors[i].name in s.done && old(s).done <= s.done
      ensures forall k | 0 <= k < |items| :: CallFor(items[k], task.strategy) in s.issued
    {
      hide Inv;
      for j := 0 to |items|
        invariant At(w, Issuing(task, i, items, j)) && old(s).done <= s.done
        invariant forall k | 0 <= k < j :: CallFor(items[k], task.strategy) in s.issued
      {
        Interfere(w);
        ghost var before := s.issued;
        Act(Issue(w));
        assert s.issued[|before|] == CallFor(items[j], task.strategy);
        assert forall c | c in before :: c in s.issued;
      }
      ghost var before := s.issued;
      Interfere(w);
      Act(Issue(w));
      assert forall c | c in before :: c in s.issued;
    }

    /** One Namespace selector: write the cache, List, and request an analysis of every item. */
    method ReconcileSelector(w: nat, task: Task, i: nat, listOk: bool) returns (ok: bool)
      requires i < |task.selectors| && At(w, AtSelector(task, i))
      requires task.selectors[i].kind == NAMESPACE && task.selectors[i].name != ""
      modifies this
      ensures ok == listOk && old(s).done <= s.done
      ensures ok ==> At(w, AtSelector(task, i + 1)) && task.selectors[i].name in s.done
      ensures !ok ==> At(w, Idle)
    {
      hide Inv;
      Act(Select(w));
      Interfere(w);
      if !listOk {
        Act(ListFail(w));
        return false;
      }
      var items := ItemsOf(task.selectors[i].name);
      Act(ListOk(w, items));
      IssueAll(w, task, i, items);
      return true;
    }

    /**
      ReconcileNamespaceAnalysis. `listOk(i)` says whether the List for selector i succeeds. The
      loop runs to its end exactly when no named List fails, and then every namespace is covered.
     */
    method ReconcileNamespaceAnalysis(w: nat, task: Task, listOk: nat -> bool) returns (finished: bool)
      requires At(w, AtSelector(task, 0))
      modifies this
      ensures At(w, Idle)
      ensures finished ==> forall k | 0 <= k < |task.selectors| :: Processed(s.done, task, k, listOk)
      ensures !finished ==> exists k :: 0 <= k < |task.selectors| && task.selectors[k].kind == NAMESPACE
                                        && (task.selectors[k].name == "" || !listOk(k))
    {
      hide Inv;
      for i := 0 to |task.selectors|
        invariant At(w, AtSelector(task, i))
        invariant forall k | 0 <= k < i :: Processed(s.done, task, k, listOk)
      {
        ghost var before := s.done;
        Interfere(w);
        var resource := task.selectors[i];
        if resource.kind != NAMESPACE {
          Act(Select(w));
          StillProcessed(before, s.done, task, i, listOk);
          continue;
        }
        if resource.name == "" {
          Act(Select(w));
          return false;
        }
        var ok := ReconcileSelector(w, task, i, listOk(i));
        if !ok {
          return false;
        }
        StillProcessed(before, s.done, task, i, listOk);
      }
      ghost var before := s.done;
      Act(Select(w));
      StillProcessed(before, s.done, task, |task.selectors|, listOk);
      finished := true;
    }

    /** ReconcileDeploymentAnalysis issues one request per Deployment selector. */
    method ReconcileDeploymentAnalysis(w: nat, task: Task)
      requires At(w, Direct(task, 0))
      modifies this
      ensures At(w, Idle)
      ensures forall k | 0 <= k < |task.selectors| && task.selectors[k].kind == DEPLOYMENT ::
                Named(task, task.selectors[k]) in s.issued
    {
      hide Inv;
      for i := 0 to |task.selectors|
        invariant At(w, Direct(task, i))
        invariant forall k | 0 <= k < i && task.selectors[k].kind == DEPLOYMENT ::
                    Named(task, task.selectors[k]) in s.issued
      {
        Interfere(w);
        ghost var before := s.issued;
        Act(Direct1(w));
        assert task.selectors[i].kind == DEPLOYMENT ==>
                 s.issued[|before|] == Named(task, task.selectors[i]);
        assert forall r | r in before :: r in s.issued;
      }
      Act(Direct1(w));
    }

    /** Reconcile for the task that Get returned; None when Get fails. */
    method Reconcile(w: nat, analysis: Option<Task>, listOk: nat -> bool) returns (ok: bool)
      requires At(w, Idle)
      modifies this
      ensures At(w, Idle) && (ok <==> analysis.Some?)
      ensures ok && analysis.value.kind == NAMESPACE ==>
                || (forall k | 0 <= k < |analysis.value.selectors| :: Processed(s.done, analysis.value, k, listOk))
                || exists k :: 0 <= k < |analysis.value.selectors| && analysis.value.selectors[k].kind == NAMESPACE
                               && (analysis.value.selectors[k].name == "" || !listOk(k))
      ensures ok && analysis.value.kind == DEPLOYMENT ==>
                forall k | 0 <= k < |analysis.value.selectors| && analysis.value.selectors[k].kind == DEPLOYMENT ::
                  Named(analysis.value, analysis.value.selectors[k]) in s.issued
    {
      if analysis.None? {
        return false;
      }
      var task := analysis.value;
      Act(Start(w, task));
      if task.kind == DEPLOYMENT {
        ReconcileDeploymentAnalysis(w, task);
      } else if task.kind == NAMESPACE {
        var _ := ReconcileNamespaceAnalysis(w, task, listOk);
      }
      return true;
    }

    /** Any number of steps of anybody while an Add handler has read the cache and not yet called. */
    method InterfereHandler(d: Deployment)
      requires Inv(s) && s.handler.Some? && d in s.known && d !in s.pending
      modifies this
      ensures Inv(s) && s.handler == old(s).handler && old(s).issued <= s.issued && d !in s.pending
    {
      hide Inv;
      var count: int := *;
      while count > 0
        invariant Inv(s) && s.handler == old(s).handler && old(s).issued <= s.issued
        invariant d in s.known && d !in s.pending
      {
        var step: Step := *;
        if Next(s, step).Some? && !step.HandlerIssue? {
          HandlerWaits(s, step, d);
          Act(step);
        }
        count := count - 1;
      }
    }

    /**
      The deployment AddFunc, with others running between its cache read and its call. When the
      namespace is cached on arrival, a request is issued for the deployment with the strategy
      cached then; otherwise nothing happens.
     */
    method AddFunc(d: Deployment)
      requires Inv(s) && d in s.pending && s.handler.None?
      modifies this
      ensures Inv(s) && s.handler.None? && d !in s.pending && old(s).issued <= s.issued
      ensures d.namespace in old(s).cache ==>
                CallFor(d, old(s).cache[d.namespace].strategy) in s.issued
      ensures d.namespace !in old(s).cache ==> s.issued == old(s).issued
    {
      assert d in s.known;
      hide Inv;
      Act(Deliver(d));
      if s.handler.Some? {
        InterfereHandler(d);
        ghost var before := s.issued;
        Act(HandlerIssue);
        assert s.issued[|before|] == CallFor(d, old(s).cache[d.namespace].strategy);
      }
    }
  }
}
