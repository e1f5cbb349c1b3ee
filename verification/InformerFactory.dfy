/**
  The shared informer factory of pkg/client/informers/externalversions/factory.go. InformerFor,
  Start and the first part of WaitForCacheSync run under one lock, so an interleaving of callers is
  a sequence of these; other calls may come between that first part and the return.
 */
module InformerFactory {
  /** A Go type, used as a map key, and an informer by identity. */
  type TypeKey = nat
  type Informer = nat

  /** The factory's maps, with a history of what was built and what was run. */
  datatype State = State(informers: map<TypeKey, Informer>, started: map<TypeKey, bool>,
                         built: seq<TypeKey>, runs: seq<(TypeKey, Informer)>)

  /** One call: `made` is what newFunc would return, `order` how Start visits the informers map. */
  datatype Call = InformerFor(t: TypeKey, made: Informer) | Start(order: seq<TypeKey>) | TakeSnapshot

  const EMPTY := State(map[], map[], [], [])

  predicate IsStarted(s: State, t: TypeKey) {
    t in s.started && s.started[t]
  }

  /** Start run over the types still to be visited. */
  function StartAll(s: State, order: seq<TypeKey>): State
    decreases order
  {
    if order == [] then s
    else if order[0] in s.informers && !IsStarted(s, order[0]) then
      StartAll(s.(started := s.started[order[0] := true],
                   runs := s.runs + [(order[0], s.informers[order[0]])]), order[1..])
    else StartAll(s, order[1..])
  }

  function Snapshot(s: State): map<TypeKey, Informer> {
    map t | t in s.informers && IsStarted(s, t) :: s.informers[t]
  }

  function After(s: State, c: Call): State {
    match c
    case InformerFor(t, made) =>
      if t in s.informers then s
      else s.(informers := s.informers[t := made], built := s.built + [t])
    case Start(order) => StartAll(s, order)
    case TakeSnapshot => s
  }

  /** Start visits every registered type. */
  ghost predicate Possible(s: State, c: Call) {
    c.Start? ==> forall t :: t in s.informers <==> t in c.order
  }

  function AfterAll(s: State, calls: seq<Call>): State
    decreases calls
  {
    if calls == [] then s else AfterAll(After(s, calls[0]), calls[1..])
  }

  ghost predicate PossibleAll(s: State, calls: seq<Call>)
    decreases calls
  {
    calls == [] || (Possible(s, calls[0]) && PossibleAll(After(s, calls[0]), calls[1..]))
  }

  // ----- The class

  class Factory {
    var informers: map<TypeKey, Informer>
    var startedInformers: map<TypeKey, bool>
    const customResync: map<TypeKey, int>
    const defaultResync: int
    ghost var built: seq<TypeKey>
    ghost var runs: seq<(TypeKey, Informer)>

    ghost function View(): State
      reads this
    {
      State(informers, startedInformers, built, runs)
    }

    constructor (defaultResync: int, customResync: map<TypeKey, int>)
      ensures View() == EMPTY && this.defaultResync == defaultResync && this.customResync == customResync
    {
      informers, startedInformers := map[], map[];
      built, runs := [], [];
      this.defaultResync, this.customResync := defaultResync, customResync;
    }

    /** newFunc is only called, and with the type's own resync period, when no informer exists yet. */
    method InformerFor(t: TypeKey, newFunc: int -> Informer) returns (informer: Informer)
      modifies this
      ensures var resync := if t in customResync then customResync[t] else defaultResync;
              View() == After(old(View()), Call.InformerFor(t, newFunc(resync)))
      ensures t in informers && informer == informers[t]
    {
      if t in informers {
        return informers[t];
      }
      var resyncPeriod := defaultResync;
      if t in customResync {
        resyncPeriod := customResync[t];
      }
      informer := newFunc(resyncPeriod);
      informers := informers[t := informer];
      built := built + [t];
    }

    method Start() returns (ghost order: seq<TypeKey>)
      modifies this
      ensures Possible(old(View()), Call.Start(order)) && View() == After(old(View()), Call.Start(order))
    {
      order := [];
      var rest := informers.Keys;
      while rest != {}
        invariant informers == old(informers) && rest <= informers.Keys
        invariant forall t :: t in informers <==> t in order || t in rest
        invariant View() == StartAll(old(View()), order)
      {
        var t :| t in rest;
        StartAppend(old(View()), order, t);
        if !(t in startedInformers && startedInformers[t]) {
          runs := runs + [(t, informers[t])];
          startedInformers := startedInformers[t := true];
        }
        order := order + [t];
        rest := rest - {t};
      }
    }

    /** Any number of calls by others; what they keep is all that is known. */
    method OtherCalls()
      requires Inv(View())
      modifies this
      ensures Inv(View()) && Keeps(old(View()), View())
    {
      hide Inv;
      var count: int := *;
      while count > 0
        invariant Inv(View()) && Keeps(old(View()), View())
      {
        ghost var before := View();
        var register: bool := *;
        if register {
          var t: TypeKey, made: Informer := *, *;
          var _ := InformerFor(t, _ => made);
          CallInv(before, Call.InformerFor(t, made));
        } else {
          ghost var order := Start();
          CallInv(before, Call.Start(order));
        }
        count := count - 1;
      }
    }

    /** The part under the lock: the informers that are started. */
    method TakeSnapshot() returns (started: map<TypeKey, Informer>)
      ensures started == Snapshot(View())
    {
      started := map[];
      var rest := informers.Keys;
      while rest != {}
        invariant rest <= informers.Keys
        invariant started == map t | t in Snapshot(View()) && t !in rest :: informers[t]
      {
        var t :| t in rest;
        if t in startedInformers && startedInformers[t] {
          started := started[t := informers[t]];
        }
        rest := rest - {t};
      }
    }

    /**
      The lock is given up before the waiting starts, so that others may register and start
      informers meanwhile. `synced(i)` is the outcome of waiting for informer i. What is reported is
      what was started when the call took its snapshot, and it is still registered and started.
     */
    method WaitForCacheSync(synced: Informer -> bool) returns (res: map<TypeKey, bool>)
      requires Inv(View())
      modifies this
      ensures res == map t | t in Snapshot(old(View())) :: synced(Snapshot(old(View()))[t])
      ensures Inv(View()) && Keeps(old(View()), View())
      ensures forall t | t in res :: t in Snapshot(View()) && res[t] == synced(informers[t])
    {
      hide Inv;
      var started := TakeSnapshot();
      res := map[];
      var rest := started.Keys;
      while rest != {}
        invariant rest <= started.Keys && Inv(View()) && Keeps(old(View()), View())
        invariant res == map t | t in started && t !in rest :: synced(started[t])
      {
        OtherCalls();
        var t :| t in rest;
        res := res[t := synced(started[t])];
        rest := rest - {t};
      }
    }
  }

  lemma {:induction false} StartAppend(s: State, order: seq<TypeKey>, t: TypeKey)
    ensures StartAll(s, order + [t])
         == var r := StartAll(s, order);
            if t in r.informers && !IsStarted(r, t)
            then r.(started := r.started[t := true], runs := r.runs + [(t, r.informers[t])]) else r
    decreases order
  {
    if order == [] {
      assert ([] + [t])[1..] == [];
    } else {
      assert (order + [t])[1..] == order[1..] + [t];
      var s1 := if order[0] in s.informers && !IsStarted(s, order[0])
                then s.(started := s.started[order[0] := true], runs := s.runs + [(order[0], s.informers[order[0]])])
                else s;
      StartAppend(s1, order[1..], t);
    }
  }

  // ----- Over any sequence of calls

  /** Built once per type, run at most once per type, and only what is registered and marked started. */
  ghost predicate Inv(s: State) {
    && (forall t :: t in s.informers <==> t in s.built)
    && (forall i, j | 0 <= i < j < |s.built| :: s.built[i] != s.built[j])
    && (forall i | 0 <= i < |s.runs| :: IsStarted(s, s.runs[i].0) && s.runs[i].0 in s.informers
                                        && s.informers[s.runs[i].0] == s.runs[i].1)
    && (forall i, j | 0 <= i < j < |s.runs| :: s.runs[i].0 != s.runs[j].0)
    && (forall t | IsStarted(s, t) :: Running(s, t))
  }

  /** No informer is replaced, nothing built or run is undone, and nothing stops. */
  ghost predicate Keeps(s: State, r: State) {
    && s.runs <= r.runs && s.built <= r.built
    && (forall t | t in s.informers :: t in r.informers && r.informers[t] == s.informers[t])
    && (forall t | IsStarted(s, t) :: IsStarted(r, t))
  }

  ghost predicate Running(s: State, t: TypeKey) {
    exists i :: 0 <= i < |s.runs| && s.runs[i].0 == t
  }

  lemma {:induction false} StartInv(s: State, order: seq<TypeKey>)
    requires Inv(s)
    ensures var r := StartAll(s, order);
            && Inv(r) && r.informers == s.informers && r.built == s.built && s.runs <= r.runs
            && (forall t | IsStarted(s, t) :: IsStarted(r, t))
            && (forall t | t in order && t in s.informers :: IsStarted(r, t))
    decreases order
  {
    if order != [] {
      var t := order[0];
      if t in s.informers && !IsStarted(s, t) {
        var s1 := s.(started := s.started[t := true], runs := s.runs + [(t, s.informers[t])]);
        RunOne(s, t);
        StartInv(s1, order[1..]);
      } else {
        StartInv(s, order[1..]);
      }
    }
  }

  lemma RunOne(s: State, t: TypeKey)
    requires Inv(s) && t in s.informers && !IsStarted(s, t)
    ensures Inv(s.(started := s.started[t := true], runs := s.runs + [(t, s.informers[t])]))
  {
    var s1 := s.(started := s.started[t := true], runs := s.runs + [(t, s.informers[t])]);
    forall u | IsStarted(s1, u) ensures Running(s1, u) {
      if u == t {
        assert s1.runs[|s.runs|].0 == t;
      } else {
        assert Running(s, u);
        var i :| 0 <= i < |s.runs| && s.runs[i].0 == u;
        assert s1.runs[i].0 == u;
      }
    }
  }

  /** One call keeps the invariant, replaces no informer and stops nothing. */
  lemma CallInv(s: State, c: Call)
    requires Inv(s) && Possible(s, c)
    ensures var r := After(s, c);
            && Inv(r) && Keeps(s, r)
  {
    match c
    case InformerFor(t, made) =>
      var r := After(s, c);
      if t !in s.informers {
        forall u | IsStarted(r, u) ensures Running(r, u) {
          assert Running(s, u);
        }
      }
    case Start(order) => StartInv(s, order);
    case TakeSnapshot =>
  }

  /**
    Over any interleaving each type's informer is built at most once and never replaced, and each
    is run at most once and only if it is registered.
   */
  lemma {:induction false} AnyInterleaving(s: State, calls: seq<Call>)
    requires Inv(s) && PossibleAll(s, calls)
    ensures var r := AfterAll(s, calls);
            && Inv(r) && Keeps(s, r)
    decreases calls
  {
    if calls != [] {
      CallInv(s, calls[0]);
      AnyInterleaving(After(s, calls[0]), calls[1..]);
    }
  }

  lemma EmptyInv()
    ensures Inv(EMPTY)
  {
  }

  /** After a Start every informer registered before it is running, whatever happened earlier or happens later. */
  lemma RegisteredRunsAfterStart(calls: seq<Call>, order: seq<TypeKey>, later: seq<Call>, t: TypeKey)
    requires PossibleAll(EMPTY, calls)
    requires var s := AfterAll(EMPTY, calls);
             t in s.informers && Possible(s, Call.Start(order)) && PossibleAll(After(s, Call.Start(order)), later)
    ensures var s := AfterAll(EMPTY, calls);
            var r := AfterAll(After(s, Call.Start(order)), later);
            (t, s.informers[t]) in r.runs && t in r.informers && r.informers[t] == s.informers[t]
  {
    EmptyInv();
    AnyInterleaving(EMPTY, calls);
    var s := AfterAll(EMPTY, calls);
    StartInv(s, order);
    var u := After(s, Call.Start(order));
    assert Running(u, t);
    var i :| 0 <= i < |u.runs| && u.runs[i].0 == t;
    AnyInterleaving(u, later);
    assert AfterAll(u, later).runs[i] == (t, s.informers[t]);
  }

  /** The types WaitForCacheSync reports are exactly those whose informer has been run by then. */
  lemma SyncReportsRunning(calls: seq<Call>, t: TypeKey)
    requires PossibleAll(EMPTY, calls)
    ensures var s := AfterAll(EMPTY, calls); t in Snapshot(s) <==> Running(s, t)
  {
    EmptyInv();
    AnyInterleaving(EMPTY, calls);
  }
}
