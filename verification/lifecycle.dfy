/** Spawning and tearing down the micro-VMs behind a router, against a remote agent whose calls may fail. */
module Lifecycle {
  import opened Wrappers
  import opened RouterStore
  import opened VmNames

  datatype Code = OK | AlreadyExists | FailedPrecondition | NotFound | Unavailable

  /**
   The agent's inventory. A failed call may or may not have taken effect before the failure. faults counts the replies
   that the caller does not tolerate.
   */
  class Agent {
    var vms: set<string>
    var started: set<string>
    ghost var faults: nat

    constructor ()
      ensures vms == {} && started == {} && faults == 0
    {
      vms, started, faults := {}, {}, 0;
    }

    method RegisterMicroVM(name: string) returns (code: Code)
      modifies this`vms, this`faults
      ensures code.OK? ==> vms == old(vms) + {name}
      ensures code.AlreadyExists? ==> vms == old(vms) && name in vms
      ensures old(vms) <= vms <= old(vms) + {name}
      ensures faults == old(faults) + if code.OK? || code.AlreadyExists? then 0 else 1
    {
      var tookEffect: bool := *;
      code := *;
      if code.AlreadyExists? && name !in vms {
        code := Unavailable;
      }
      if code.OK? || (tookEffect && !code.AlreadyExists?) {
        vms := vms + {name};
      }
      faults := faults + if code.OK? || code.AlreadyExists? then 0 else 1;
    }

    method StartVM(name: string) returns (code: Code)
      modifies this`started, this`faults
      ensures code.OK? || code.AlreadyExists? || code.FailedPrecondition? ==> name in started
      ensures old(started) <= started <= old(started) + {name}
      ensures faults == old(faults) + if code.OK? || code.AlreadyExists? || code.FailedPrecondition? then 0 else 1
    {
      code := *;
      var tookEffect: bool := *;
      if (code.AlreadyExists? || code.FailedPrecondition?) && name !in started {
        code := Unavailable;
      }
      if code.OK? || tookEffect {
        started := started + {name};
      }
      faults := faults + if code.OK? || code.AlreadyExists? || code.FailedPrecondition? then 0 else 1;
    }

    /** Whatever it answers is tolerated. */
    method StopVM(name: string) returns (code: Code)
      modifies this`started
      ensures old(started) - {name} <= started <= old(started)
    {
      code := *;
      var tookEffect: bool := *;
      if code.OK? || tookEffect {
        started := started - {name};
      }
    }

    method DeleteVM(name: string) returns (code: Code)
      modifies this`vms, this`faults
      ensures code.OK? || code.NotFound? ==> vms == old(vms) - {name}
      ensures old(vms) - {name} <= vms <= old(vms)
      ensures faults == old(faults) + if code.OK? || code.NotFound? then 0 else 1
    {
      code := *;
      var tookEffect: bool := *;
      if code.NotFound? && name in vms {
        code := Unavailable;
      }
      if code.OK? || tookEffect {
        vms := vms - {name};
      }
      faults := faults + if code.OK? || code.NotFound? then 0 else 1;
    }
  }

  ghost function NameSet(names: seq<string>): set<string> {
    set n | n in names
  }

  predicate Spawns(r: Router) {
    r.kind == "egress" && r.backend == "gobgp"
  }

  /** The VMs a router asks for. */
  ghost function Asked(r: Router): set<string> {
    if Spawns(r) then NameSet(VmNamesFor(r.uuid, r.replicas)) else {}
  }

  /** The router is one the client spawns VMs for, and name is one of them. */
  ghost predicate WantsVM(r: Router, name: string) {
    r.kind == "egress" && r.backend == "gobgp" && Wanted(r.uuid, r.replicas, name)
  }

  /** How many VMs the router is to have. */
  function WantedCount(r: Router): nat {
    if !(r.kind == "egress" && r.backend == "gobgp") then 0
    else if r.replicas <= 1 then 1
    else if r.replicas <= 10 then r.replicas
    else 10
  }

  lemma AskedMeaning(r: Router)
    ensures forall name :: name in Asked(r) <==> WantsVM(r, name)
    ensures |Asked(r)| == WantedCount(r)
  {
    NamesAreWanted(r.uuid, r.replicas);
    DistinctNamesSize(VmNamesFor(r.uuid, r.replicas));
  }

  lemma {:induction false} DistinctNamesSize(names: seq<string>)
    requires forall i, j :: 0 <= i < j < |names| ==> names[i] != names[j]
    ensures |NameSet(names)| == |names|
  {
    if names == [] {
      assert NameSet(names) == {};
    } else {
      DistinctNamesSize(names[1..]);
      assert names == [names[0]] + names[1..];
      assert NameSet(names) == {names[0]} + NameSet(names[1..]) && names[0] !in NameSet(names[1..]);
    }
  }

  class WeftClient {
    const agent: Agent

    constructor (agent: Agent)
      ensures this.agent == agent
    {
      this.agent := agent;
    }

    /** Register and start each replica; stop at the first real error. */
    method Ensure(r: Router) returns (result: Result<(), string>)
      modifies agent
      ensures old(agent.vms) <= agent.vms <= old(agent.vms) + Asked(r)
      ensures result.Ok? ==> Asked(r) <= agent.vms && Asked(r) <= agent.started
      ensures agent.faults == old(agent.faults) + if result.Err? then 1 else 0
      ensures !Spawns(r) ==> result.Ok? && agent.vms == old(agent.vms) && agent.started == old(agent.started)
      ensures result.Ok? ==> forall name :: WantsVM(r, name) ==> name in agent.vms && name in agent.started
      ensures forall name :: name in agent.vms ==> name in old(agent.vms) || WantsVM(r, name)
      ensures result.Ok? ==> |set name | name in agent.vms && WantsVM(r, name)| == WantedCount(r)
    {
      result := RegisterAndStart(r);
      AskedMeaning(r);
      if result.Ok? {
        assert (set name | name in agent.vms && WantsVM(r, name)) == Asked(r);
      }
    }

    method RegisterAndStart(r: Router) returns (result: Result<(), string>)
      modifies agent
      ensures old(agent.vms) <= agent.vms <= old(agent.vms) + Asked(r)
      ensures result.Ok? ==> Asked(r) <= agent.vms && Asked(r) <= agent.started
      ensures agent.faults == old(agent.faults) + if result.Err? then 1 else 0
      ensures !Spawns(r) ==> result.Ok? && agent.vms == old(agent.vms) && agent.started == old(agent.started)
    {
      if r.kind != "egress" || r.backend != "gobgp" {
        return Ok(());
      }
      var names := VmNamesFor(r.uuid, r.replicas);
      for i := 0 to |names|
        invariant old(agent.vms) <= agent.vms <= old(agent.vms) + NameSet(names)
        invariant NameSet(names[..i]) <= agent.vms && NameSet(names[..i]) <= agent.started
        invariant agent.faults == old(agent.faults)
      {
        assert names[i] in names && names[..i + 1] == names[..i] + [names[i]];
        var code := agent.RegisterMicroVM(names[i]);
        if !code.OK? && !code.AlreadyExists? {
          return Err("RegisterMicroVM");
        }
        code := agent.StartVM(names[i]);
        if !code.OK? && !code.AlreadyExists? && !code.FailedPrecondition? {
          return Err("StartVM");
        }
      }
      assert names[..|names|] == names;
      return Ok(());
    }

    /**
     Tear down every name the router can have. On success none of them is left, whatever earlier calls did; in
     every case no other VM is touched.
     */
    method Destroy(uuid: string) returns (result: Result<(), string>)
      modifies agent
      ensures old(agent.vms) - NameSet(ProbedNames(uuid)) <= agent.vms <= old(agent.vms)
      ensures result.Ok? ==> agent.vms == old(agent.vms) - NameSet(ProbedNames(uuid))
      ensures agent.faults == old(agent.faults) + if result.Err? then 1 else 0
    {
      var replicas := ReplicaNames(uuid, MAX_REPLICAS);
      var names := [VmBareName(uuid)] + replicas;
      for i := 0 to |names|
        invariant old(agent.vms) - NameSet(names[..i]) <= agent.vms
        invariant agent.vms <= old(agent.vms) - NameSet(names[..i])
        invariant agent.faults == old(agent.faults)
      {
        assert names[..i + 1] == names[..i] + [names[i]];
        assert NameSet(names[..i + 1]) == NameSet(names[..i]) + {names[i]};
        var _ := agent.StopVM(names[i]);
        var code := agent.DeleteVM(names[i]);
        if code.NotFound? {
          continue;
        }
        if !code.OK? {
          assert NameSet(names[..i + 1]) <= NameSet(names);
          return Err("DeleteVM");
        }
      }
      assert names[..|names|] == names;
      return Ok(());
    }
  }

  // ---- Whole histories ----

  datatype LifecycleCall = EnsureRouter(r: Router) | DestroyRouter(uuid: string)

  /** The two routers can have a VM name in common. */
  ghost predicate NamesMeet(u: string, v: string) {
    u == v || IsSuffixed(u, v) || IsSuffixed(v, u)
  }

  /** Call k is an Ensure, and no later Destroy is of a router that can share a name with its router. */
  ghost predicate Standing(calls: seq<LifecycleCall>, k: nat)
    requires k < |calls|
  {
    && calls[k].EnsureRouter?
    && forall m :: k < m < |calls| && calls[m].DestroyRouter? ==> !NamesMeet(calls[k].r.uuid, calls[m].uuid)
  }

  /** Every name some Ensure of the history asked for. */
  ghost function EverAsked(calls: seq<LifecycleCall>): set<string> {
    set k, n | 0 <= k < |calls| && calls[k].EnsureRouter? && n in Asked(calls[k].r) :: n
  }

  /** Every name some Destroy of the history probed. */
  ghost function EverProbed(calls: seq<LifecycleCall>): set<string> {
    set k, n | 0 <= k < |calls| && calls[k].DestroyRouter? && n in NameSet(ProbedNames(calls[k].uuid)) :: n
  }

  /** The VMs of every successful Ensure that still stands are there. */
  ghost predicate KeepsStanding(calls: seq<LifecycleCall>, results: seq<Result<(), string>>, vms: set<string>) {
    && |results| == |calls|
    && forall k {:trigger Standing(calls, k)} :: 0 <= k < |calls| && results[k].Ok? && Standing(calls, k) ==>
         Asked(calls[k].r) <= vms
  }

  lemma StandingMeaning(calls: seq<LifecycleCall>, results: seq<Result<(), string>>, vms: set<string>)
    requires KeepsStanding(calls, results, vms)
    ensures forall k, name :: 0 <= k < |calls| && results[k].Ok? && Standing(calls, k) && WantsVM(calls[k].r, name) ==>
      name in vms
  {
    forall k, name | 0 <= k < |calls| && results[k].Ok? && Standing(calls, k) && WantsVM(calls[k].r, name)
      ensures name in vms
    {
      AskedMeaning(calls[k].r);
    }
  }

  lemma StandingBefore(calls: seq<LifecycleCall>, c: LifecycleCall, k: nat)
    requires k < |calls| && Standing(calls + [c], k)
    ensures Standing(calls, k)
    ensures c.DestroyRouter? ==> Asked(calls[k].r) !! NameSet(ProbedNames(c.uuid))
  {
    var all := calls + [c];
    assert all[k] == calls[k] && forall m :: k < m < |calls| ==> all[m] == calls[m];
    if c.DestroyRouter? {
      assert all[|calls|] == c;
      SharedNames(calls[k].r.uuid, c.uuid);
      ProbeCoversEnsure(calls[k].r.uuid, calls[k].r.replicas);
    }
  }

  lemma KeptByEnsure(calls: seq<LifecycleCall>, results: seq<Result<(), string>>, r: Router, result: Result<(), string>,
                     before: set<string>, after: set<string>)
    requires KeepsStanding(calls, results, before) && before <= after && (result.Ok? ==> Asked(r) <= after)
    ensures KeepsStanding(calls + [EnsureRouter(r)], results + [result], after)
  {
    var all, answers := calls + [EnsureRouter(r)], results + [result];
    forall k | 0 <= k < |all| && answers[k].Ok? && Standing(all, k) ensures Asked(all[k].r) <= after {
      if k < |calls| { StandingBefore(calls, EnsureRouter(r), k); }
    }
  }

  lemma KeptByDestroy(calls: seq<LifecycleCall>, results: seq<Result<(), string>>, uuid: string,
                      result: Result<(), string>, before: set<string>, after: set<string>)
    requires KeepsStanding(calls, results, before) && before - NameSet(ProbedNames(uuid)) <= after
    ensures KeepsStanding(calls + [DestroyRouter(uuid)], results + [result], after)
  {
    var all, answers := calls + [DestroyRouter(uuid)], results + [result];
    forall k | 0 <= k < |all| && answers[k].Ok? && Standing(all, k) ensures Asked(all[k].r) <= after {
      if k < |calls| { StandingBefore(calls, DestroyRouter(uuid), k); }
    }
  }

  lemma EverStep(calls: seq<LifecycleCall>, i: nat)
    requires i < |calls|
    ensures EverAsked(calls[..i + 1]) == EverAsked(calls[..i]) + if calls[i].EnsureRouter? then Asked(calls[i].r)
      else {}
    ensures EverProbed(calls[..i + 1])
      == EverProbed(calls[..i]) + if calls[i].DestroyRouter? then NameSet(ProbedNames(calls[i].uuid)) else {}
  {
    var a, b := calls[..i], calls[..i + 1];
    assert b == a + [calls[i]] && b[i] == calls[i];
    assert forall k :: 0 <= k < i ==> b[k] == a[k];
  }

  ghost predicate AllOk(results: seq<Result<(), string>>) {
    forall k :: 0 <= k < |results| ==> results[k].Ok?
  }

  lemma AllOkAppend(results: seq<Result<(), string>>, result: Result<(), string>)
    ensures AllOk(results + [result]) <==> AllOk(results) && result.Ok?
  {
    assert (results + [result])[|results|] == result;
    assert forall k :: 0 <= k < |results| ==> (results + [result])[k] == results[k];
  }

  /** One call of a history on the client. */
  method Perform(w: WeftClient, call: LifecycleCall) returns (result: Result<(), string>)
    modifies w.agent
    ensures call.EnsureRouter? ==> old(w.agent.vms) <= w.agent.vms <= old(w.agent.vms) + Asked(call.r)
    ensures call.EnsureRouter? && result.Ok? ==> Asked(call.r) <= w.agent.vms
    ensures call.DestroyRouter? ==>
      old(w.agent.vms) - NameSet(ProbedNames(call.uuid)) <= w.agent.vms <= old(w.agent.vms)
    ensures call.DestroyRouter? && result.Ok? ==> w.agent.vms == old(w.agent.vms) - NameSet(ProbedNames(call.uuid))
    ensures w.agent.faults == old(w.agent.faults) + if result.Err? then 1 else 0
  {
    match call
    case EnsureRouter(r) => result := w.Ensure(r);
    case DestroyRouter(uuid) => result := w.Destroy(uuid);
  }

  /**
   Any sequence of Ensure and Destroy calls, each of which may fail midway: the VMs of every successful Ensure are there
   as long as no later Destroy is of a router that can share a name with it; no other VM appears or goes away; and
   without a fault of the agent every call succeeds.
   */
  method PerformAll(agent: Agent, calls: seq<LifecycleCall>) returns (results: seq<Result<(), string>>)
    modifies agent
    ensures KeepsStanding(calls, results, agent.vms)
    ensures forall k, name :: 0 <= k < |calls| && results[k].Ok? && Standing(calls, k) && WantsVM(calls[k].r, name) ==>
      name in agent.vms
    ensures old(agent.vms) - EverProbed(calls) <= agent.vms <= old(agent.vms) + EverAsked(calls)
    ensures AllOk(results) <==> agent.faults == old(agent.faults)
    ensures agent.faults >= old(agent.faults)
  {
    var w := new WeftClient(agent);
    results := [];
    for i := 0 to |calls|
      invariant KeepsStanding(calls[..i], results, agent.vms)
      invariant old(agent.vms) - EverProbed(calls[..i]) <= agent.vms <= old(agent.vms) + EverAsked(calls[..i])
      invariant agent.faults >= old(agent.faults)
      invariant AllOk(results) <==> agent.faults == old(agent.faults)
    {
      ghost var before := agent.vms;
      var result := Perform(w, calls[i]);
      EverStep(calls, i);
      AllOkAppend(results, result);
      assert calls[..i + 1] == calls[..i] + [calls[i]];
      match calls[i] {
        case EnsureRouter(r) => KeptByEnsure(calls[..i], results, r, result, before, agent.vms);
        case DestroyRouter(uuid) => KeptByDestroy(calls[..i], results, uuid, result, before, agent.vms);
      }
      results := results + [result];
    }
    assert calls[..|calls|] == calls;
    StandingMeaning(calls, results, agent.vms);
  }

  /**
   A Destroy after any such history, whatever failed in it: on success no VM of that router is left, whatever replica
   counts the Ensures used; every other router's successful Ensure that still stood before still stands, unless the two
   uuids can share a name.
   */
  method DestroyAfterAnything(agent: Agent, calls: seq<LifecycleCall>, uuid: string)
    returns (results: seq<Result<(), string>>, result: Result<(), string>)
    modifies agent
    ensures KeepsStanding(calls + [DestroyRouter(uuid)], results + [result], agent.vms)
    ensures |results| == |calls|
    ensures forall k, name ::
      0 <= k < |calls| && results[k].Ok? && calls[k].EnsureRouter? && WantsVM(calls[k].r, name) ==>
        (Standing(calls + [DestroyRouter(uuid)], k) ==> name in agent.vms)
    ensures result.Ok? ==> forall replicas, name :: Wanted(uuid, replicas, name) ==> name !in agent.vms
    ensures agent.faults == old(agent.faults) ==> result.Ok?
  {
    results := PerformAll(agent, calls);
    ghost var before := agent.vms;
    var w := new WeftClient(agent);
    result := w.Destroy(uuid);
    KeptByDestroy(calls, results, uuid, result, before, agent.vms);
    StandingMeaning(calls + [DestroyRouter(uuid)], results + [result], agent.vms);
    forall k | 0 <= k < |calls|
      ensures (calls + [DestroyRouter(uuid)])[k] == calls[k] && (results + [result])[k] == results[k] {}
    forall replicas, name | Wanted(uuid, replicas, name) ensures name in ProbedNames(uuid) {
      NamesAreWanted(uuid, replicas);
      ProbeCoversEnsure(uuid, replicas);
    }
  }
}
