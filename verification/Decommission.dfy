/**
 Decommissioning nodes: check readiness, mark the nodes as decommissioning until they hold no replicas,
 drain them, and mark them as decommissioned. The requests sent are recorded; what the cluster answers
 to the n-th request is a parameter.
 */
module Decommission {
  import opened Common

  type NodeID = int

  const MAX_INT64: int := 0x7FFF_FFFF_FFFF_FFFF
  const SAME_STATUS_THRESHOLD: nat := 15

  /** `detail` is everything else in a status, the reported replicas among it. */
  datatype NodeStatus = NodeStatus(node: NodeID, active: bool, replicaCount: int, detail: string)

  type Response = seq<NodeStatus>

  datatype Readiness = Ready | AlreadyDecommissioned | AllocationErrors | Unknown

  datatype Checks = ChecksSkip | ChecksEnabled | ChecksStrict

  datatype Wait = WaitAll | WaitNone

  datatype Rpc =
    | PreCheck
    | StatusQuery
    | MarkDecommissioning(numReplicaReport: nat)
    | Drain(node: NodeID)
    | MarkDecommissioned

  /** How the cluster answers the n-th request, and whether printing after it works. */
  datatype Cluster = Cluster(
    preCheck: nat -> Option<seq<Readiness>>,
    statusOk: nat -> bool,
    decommission: nat -> Option<Response>,
    drainOk: nat -> bool,
    printOk: nat -> bool)

  predicate MembershipChange(rpc: Rpc)
  {
    rpc.MarkDecommissioning? || rpc.MarkDecommissioned?
  }

  /** Every request is answered, every drain works, and everything can be printed. */
  ghost predicate AllWell(cluster: Cluster)
  {
    forall n :: cluster.decommission(n).Some? && cluster.preCheck(n).Some? && cluster.drainOk(n) && cluster.printOk(n)
  }

  /** From the n-th request on the cluster answers that nothing is left. */
  ghost predicate EmptiedFrom(cluster: Cluster, n: nat)
  {
    forall m :: n <= m ==> cluster.decommission(m).Some? && Emptied(cluster.decommission(m).value)
  }

  /** decommissionPreCheckReady; no response means that the checks are disabled. */
  predicate PreCheckReady(resp: Option<seq<Readiness>>)
  {
    resp.None? || forall i :: 0 <= i < |resp.value| ==> resp.value[i].Ready? || resp.value[i].AlreadyDecommissioned?
  }

  function AnyActive(resp: Response): bool
  {
    exists i :: 0 <= i < |resp| && resp[i].active
  }

  function TotalReplicas(resp: Response): int
  {
    if resp == [] then 0 else TotalReplicas(resp[..|resp| - 1]) + resp[|resp| - 1].replicaCount
  }

  ghost predicate NonNegative(resp: Response)
  {
    forall i :: 0 <= i < |resp| ==> resp[i].replicaCount >= 0
  }

  /** The counts the cluster reports are counts. */
  ghost predicate CountsReplicas(cluster: Cluster)
  {
    forall n :: cluster.decommission(n).Some? ==> NonNegative(cluster.decommission(n).value)
  }

  /** A response after which the nodes may be drained. */
  ghost predicate Emptied(resp: Response)
  {
    !AnyActive(resp) && TotalReplicas(resp) == 0
  }

  lemma {:induction false} TotalIsNonNegative(resp: Response)
    requires NonNegative(resp)
    ensures TotalReplicas(resp) >= 0
    ensures TotalReplicas(resp) == 0 ==> forall i :: 0 <= i < |resp| ==> resp[i].replicaCount == 0
  {
    if resp != [] {
      TotalIsNonNegative(resp[..|resp| - 1]);
    }
  }

  /** The drain requests for all targets but the node that serves the requests. */
  function Drains(nodes: seq<NodeID>, local: NodeID): seq<Rpc>
  {
    if nodes == [] then []
    else
      var last := nodes[|nodes| - 1];
      Drains(nodes[..|nodes| - 1], local) + if last == local then [] else [Drain(last)]
  }

  lemma {:induction false} DrainsGrow(nodes: seq<NodeID>, local: NodeID, i: nat)
    requires i <= |nodes|
    ensures Drains(nodes[..i], local) <= Drains(nodes, local)
    decreases |nodes| - i
  {
    if i == |nodes| {
      assert nodes[..i] == nodes;
    } else {
      DrainsGrow(nodes, local, i + 1);
      assert nodes[..i + 1][..i] == nodes[..i];
    }
  }

  /** The drains, sent from the n-th request on, all work. */
  ghost predicate DrainsWork(cluster: Cluster, nodes: seq<NodeID>, local: NodeID, n: nat)
  {
    forall i :: n <= i < n + |Drains(nodes, local)| ==> cluster.drainOk(i)
  }

  // ---------- What a run may send ----------

  /** The last phase: an emptied response, all drains, and the final mark as the very last request. */
  ghost predicate FinishedAt(cluster: Cluster, trace: seq<Rpc>, nodes: seq<NodeID>, local: NodeID, k: nat)
  {
    && k < |trace| && trace[k].MarkDecommissioning?
    && cluster.decommission(k).Some? && Emptied(cluster.decommission(k).value)
    && trace[k + 1..] == Drains(nodes, local) + [MarkDecommissioned]
    && (forall i :: 0 <= i <= k ==> trace[i].MarkDecommissioning? || trace[i].PreCheck?)
  }

  /** Before the last phase only checks and decommissioning marks are sent. */
  ghost predicate Polling(trace: seq<Rpc>)
  {
    forall i :: 0 <= i < |trace| ==> trace[i].MarkDecommissioning? || trace[i].PreCheck?
  }

  class Client {
    const cluster: Cluster
    var trace: seq<Rpc>

    constructor (cluster: Cluster)
      ensures this.cluster == cluster && trace == []
    {
      this.cluster, trace := cluster, [];
    }

    method Send(rpc: Rpc) returns (n: nat)
      modifies this
      ensures n == old(|trace|) && trace == old(trace) + [rpc]
    {
      n := |trace|;
      trace := trace + [rpc];
    }

    /** The final drains, of every target but the local node; stops at the first one that fails. */
    method DrainAll(nodes: seq<NodeID>, local: NodeID) returns (ok: bool)
      modifies this
      ensures ok <==> DrainsWork(cluster, nodes, local, |old(trace)|)
      ensures ok ==> trace == old(trace) + Drains(nodes, local)
      ensures !ok ==>
                && old(trace) < trace <= old(trace) + Drains(nodes, local)
                && !cluster.drainOk(|trace| - 1)
                && forall i :: |old(trace)| <= i < |trace| - 1 ==> cluster.drainOk(i)
      ensures old(trace) <= trace && forall i :: |old(trace)| <= i < |trace| ==> trace[i].Drain?
    {
      ghost var more: seq<Rpc> := [];
      for i := 0 to |nodes|
        invariant more == Drains(nodes[..i], local) && trace == old(trace) + more
        invariant forall j :: 0 <= j < |more| ==> more[j].Drain?
        invariant forall j :: |old(trace)| <= j < |trace| ==> cluster.drainOk(j)
      {
        assert nodes[..i + 1][..i] == nodes[..i];
        DrainsGrow(nodes, local, i + 1);
        if nodes[i] == local {
          continue;
        }
        var n := Send(Drain(nodes[i]));
        more := more + [Drain(nodes[i])];
        if !cluster.drainOk(n) {
          assert n - |old(trace)| < |Drains(nodes, local)|;
          return false;
        }
      }
      assert nodes[..|nodes|] == nodes;
      return true;
    }
  }

  method SumStatuses(resp: Response) returns (anyActive: bool, replicaCount: int)
    ensures anyActive == AnyActive(resp) && replicaCount == TotalReplicas(resp)
  {
    anyActive, replicaCount := false, 0;
    for i := 0 to |resp|
      invariant anyActive == (exists j :: 0 <= j < i && resp[j].active)
      invariant replicaCount == TotalReplicas(resp[..i])
    {
      assert resp[..i + 1][..i] == resp[..i];
      anyActive := anyActive || resp[i].active;
      replicaCount := replicaCount + resp[i].replicaCount;
    }
    assert resp[..|resp|] == resp;
  }

  /** What the loop carries from one round to the next. */
  datatype Progress = Progress(
    minReplicaCount: int,
    sameStatusCount: nat,
    numReplicaReport: nat,
    prevResponse: Response,
    resets: nat)

  const START := Progress(MAX_INT64, 0, 0, [], 0)

  /** The change detection of one round: a changed response resets the counters, an unchanged one is
      counted until a stall is reported. `refresh` says that the pre-check is to be repeated. */
  function Observe(p: Progress, resp: Response): (r: (Progress, bool))
    ensures r.0.minReplicaCount == p.minReplicaCount && r.0.resets == p.resets
  {
    if p.prevResponse != resp then
      (p.(prevResponse := resp, sameStatusCount := 0, numReplicaReport := 0), false)
    else if p.sameStatusCount >= SAME_STATUS_THRESHOLD && p.numReplicaReport == 0 then
      (p.(numReplicaReport := 5), true)
    else (p.(sameStatusCount := p.sameStatusCount + 1), false)
  }

  /** What the loop carries on after an answer that does not end it. */
  function Advance(p: Progress, resp: Response): Progress
  {
    var p1 := Observe(p, resp).0;
    if TotalReplicas(resp) < p1.minReplicaCount
    then p1.(minReplicaCount := TotalReplicas(resp), resets := p1.resets + 1)
    else p1
  }

  /** A new minimum of the replicas counted is remembered and resets the backoff; nothing else does. */
  lemma NewMinimumResets(p: Progress, resp: Response)
    ensures var p', total := Advance(p, resp), TotalReplicas(resp);
            && p'.minReplicaCount == (if total < p.minReplicaCount then total else p.minReplicaCount)
            && p'.resets == p.resets + (if total < p.minReplicaCount then 1 else 0)
            && p'.prevResponse == resp
  {
    var observed := Observe(p, resp);
  }

  /** The state after `k` more answers equal to the last one. */
  function Unchanged(p: Progress, k: nat): Progress
  {
    if k == 0 then p else Advance(Unchanged(p, k - 1), p.prevResponse)
  }

  /** A stall is reported, and the pre-check repeated, on the sixteenth unchanged answer in a row, once.
      Unchanged means equal in every detail, the reported replicas included. */
  lemma {:induction false} StallIsReportedOnce(p: Progress, k: nat)
    requires p.sameStatusCount == 0 && p.numReplicaReport == 0
    ensures Unchanged(p, k).prevResponse == p.prevResponse
    ensures Unchanged(p, k).numReplicaReport == if k > 15 then 5 else 0
    ensures Unchanged(p, k).sameStatusCount == if k > 15 then k - 1 else k
    ensures Observe(Unchanged(p, k), p.prevResponse).1 <==> k == 15
  {
    if k > 0 {
      StallIsReportedOnce(p, k - 1);
    }
  }

  /** Any change of an answer starts the count over, even if only the replicas differ that are reported
      because of the stall; so the same stall is reported again after sixteen more unchanged answers. */
  lemma StallIsReportedAgain(p: Progress, resp: Response)
    requires p.prevResponse != resp
    ensures var p' := Advance(p, resp);
            && p'.prevResponse == resp && p'.sameStatusCount == 0 && p'.numReplicaReport == 0
            && Unchanged(p', SAME_STATUS_THRESHOLD).numReplicaReport == 0
            && Observe(Unchanged(p', SAME_STATUS_THRESHOLD), resp).1
            && Unchanged(p', SAME_STATUS_THRESHOLD + 1).numReplicaReport == 5
  {
    StallIsReportedOnce(Advance(p, resp), SAME_STATUS_THRESHOLD);
    StallIsReportedOnce(Advance(p, resp), SAME_STATUS_THRESHOLD + 1);
  }

  /** Each reset of the backoff goes with a new minimum, so there are at most as many as replicas at
      the start, plus one. */
  ghost predicate ResetsBounded(p: Progress, first: Option<int>)
  {
    && p.minReplicaCount >= 0
    && (p.resets == 0 ==> p.minReplicaCount == MAX_INT64 && (first.Some? ==> first.value >= MAX_INT64))
    && (p.resets > 0 ==> first.Some? && p.resets + p.minReplicaCount <= first.value + 1)
  }

  /** The loop does not go on after an emptied response, so none is ever counted as unchanged. */
  ghost predicate Unfinished(p: Progress)
  {
    Emptied(p.prevResponse) ==> p.sameStatusCount == 0
  }

  /** `MarkFailed`: the final mark was sent, but the cluster answered with an error. */
  datatype Outcome = Continue | Finished | MarkFailed | Returned | Failed

  predicate Marked(o: Outcome)
  {
    o == Finished || o == MarkFailed
  }

  /** Whether the final mark, which is the last request, was answered without an error. */
  ghost predicate MarkAnswered(c: Client)
    reads c
  {
    c.trace != [] && c.cluster.decommission(|c.trace| - 1).Some?
  }

  /** One round: mark as decommissioning, look at the answer, and finish if nothing is left. */
  method Round(c: Client, p0: Progress, checks: Checks, wait: Wait, nodes: seq<NodeID>, local: NodeID, ghost first0: Option<int>)
    returns (o: Outcome, p: Progress, ghost first: Option<int>)
    requires Polling(c.trace) && (CountsReplicas(c.cluster) ==> ResetsBounded(p0, first0)) && Unfinished(p0)
    modifies c
    ensures Marked(o) ==> exists k :: FinishedAt(c.cluster, c.trace, nodes, local, k)
    ensures Marked(o) ==> (o == Finished <==> MarkAnswered(c))
    ensures !Marked(o) ==> MarkDecommissioned !in c.trace
    ensures old(c.trace) + [MarkDecommissioning(p0.numReplicaReport)] <= c.trace
    ensures AllWell(c.cluster) ==>
              o == if Emptied(c.cluster.decommission(old(|c.trace|)).value) then Finished
                   else if wait == WaitNone then Returned else Continue
    ensures o == Continue ==> Polling(c.trace) && Unfinished(p) && first.Some?
    ensures o == Continue && CountsReplicas(c.cluster) ==> ResetsBounded(p, first)
    ensures o == Continue ==>
              var n := old(|c.trace|);
              && c.cluster.decommission(n).Some?
              && p == Advance(p0, c.cluster.decommission(n).value)
              && c.trace == old(c.trace) + [MarkDecommissioning(p0.numReplicaReport)] +
                 (if Observe(p0, c.cluster.decommission(n).value).1 && checks != ChecksSkip then [PreCheck] else [])
    ensures first0.Some? ==> first == first0
    ensures first.Some? && first0.None? ==>
              c.cluster.decommission(old(|c.trace|)).Some?
              && first.value == TotalReplicas(c.cluster.decommission(old(|c.trace|)).value)
    ensures CountsReplicas(c.cluster) && p.resets > 0 ==> first.Some? && p.resets <= first.value + 1
  {
    p, first := p0, first0;
    var n := c.Send(MarkDecommissioning(p.numReplicaReport));
    assert Polling(c.trace);
    var answer := c.cluster.decommission(n);
    if answer.None? {
      return Failed, p, first;
    }
    var resp := answer.value;
    if p.prevResponse != resp && !c.cluster.printOk(n) {
      return Failed, p, first;
    }
    var (p1, refresh) := Observe(p, resp);
    p := p1;
    if refresh && checks != ChecksSkip {
      var m := c.Send(PreCheck);
      if c.cluster.preCheck(m).None? {
        return Failed, p, first;
      }
    }
    var anyActive, replicaCount := SumStatuses(resp);
    if NonNegative(resp) {
      TotalIsNonNegative(resp);
    }
    first := if first.None? then Some(replicaCount) else first;
    if !anyActive && replicaCount == 0 {
      o := Finish(c, nodes, local, n);
      return o, p, first;
    }
    if wait == WaitNone {
      return Returned, p, first;
    }
    if replicaCount < p.minReplicaCount {
      p := p.(minReplicaCount := replicaCount, resets := p.resets + 1);
    }
    return Continue, p, first;
  }

  /** Drain the targets, then mark them as decommissioned. */
  method Finish(c: Client, nodes: seq<NodeID>, local: NodeID, ghost k: nat) returns (o: Outcome)
    requires Polling(c.trace) && k < |c.trace| && c.trace[k].MarkDecommissioning?
    requires c.cluster.decommission(k).Some? && Emptied(c.cluster.decommission(k).value)
    requires k + 1 == |c.trace|
    modifies c
    ensures Marked(o) || o == Failed
    ensures Marked(o) <==> DrainsWork(c.cluster, nodes, local, old(|c.trace|))
    ensures old(c.trace) <= c.trace
    ensures Marked(o) ==> FinishedAt(c.cluster, c.trace, nodes, local, k)
    ensures Marked(o) ==> (o == Finished <==> MarkAnswered(c))
    ensures !Marked(o) ==> MarkDecommissioned !in c.trace
  {
    var ok := c.DrainAll(nodes, local);
    if !ok {
      return Failed;
    }
    var n := c.Send(MarkDecommissioned);
    return if c.cluster.decommission(n).None? then MarkFailed else Finished;
  }

  /** The retry loop, for as many rounds as the retry policy and the context allow. */
  method Poll(c: Client, checks: Checks, wait: Wait, nodes: seq<NodeID>, local: NodeID, rounds: nat)
    returns (o: Outcome, resets: nat)
    requires Polling(c.trace)
    modifies c
    ensures Marked(o) ==> exists k :: FinishedAt(c.cluster, c.trace, nodes, local, k)
    ensures Marked(o) ==> (o == Finished <==> MarkAnswered(c))
    ensures !Marked(o) ==> MarkDecommissioned !in c.trace
    ensures rounds > 0 ==> old(c.trace) + [MarkDecommissioning(0)] <= c.trace
    ensures AllWell(c.cluster) && wait == WaitAll ==>
              forall n :: old(|c.trace|) <= n < old(|c.trace|) + rounds && EmptiedFrom(c.cluster, n) ==> o == Finished
    ensures CountsReplicas(c.cluster) && resets > 0 ==>
              c.cluster.decommission(old(|c.trace|)).Some?
              && resets <= TotalReplicas(c.cluster.decommission(old(|c.trace|)).value) + 1
  {
    var p := START;
    ghost var first: Option<int> := None;
    for i := 0 to rounds
      invariant Polling(c.trace) && (CountsReplicas(c.cluster) ==> ResetsBounded(p, first)) && Unfinished(p)
      invariant first.None? ==> c.trace == old(c.trace)
      invariant if i == 0 then c.trace == old(c.trace) && p == START
                else old(c.trace) + [MarkDecommissioning(0)] <= c.trace
      invariant old(|c.trace|) + i <= |c.trace|
      invariant AllWell(c.cluster) && wait == WaitAll ==>
                  forall n :: old(|c.trace|) <= n && EmptiedFrom(c.cluster, n) ==> old(|c.trace|) + i <= n
      invariant first.Some? ==> c.cluster.decommission(old(|c.trace|)).Some?
                                && first.value == TotalReplicas(c.cluster.decommission(old(|c.trace|)).value)
    {
      o, p, first := Round(c, p, checks, wait, nodes, local, first);
      if o != Continue {
        return o, p.resets;
      }
    }
    return Failed, p.resets;
  }

  /** The pre-check was answered, and every node is ready or decommissioned already. */
  ghost predicate ReadyToGo(resp: Option<seq<Readiness>>)
  {
    resp.Some? && forall i :: 0 <= i < |resp.value| ==> resp.value[i] == Ready || resp.value[i] == AlreadyDecommissioned
  }

  /** Before anything is marked: the pre-check, and for a dry run or nodes that are not ready a status query. */
  method Prepare(c: Client, checks: Checks, dryRun: bool) returns (go: bool, o: Outcome)
    requires c.trace == []
    modifies c
    ensures go <==> !dryRun && (checks == ChecksSkip || ReadyToGo(c.cluster.preCheck(0)))
    ensures go ==> c.trace == if checks == ChecksSkip then [] else [PreCheck]
    ensures !go ==> !Marked(o) && forall i :: 0 <= i < |c.trace| ==> !MembershipChange(c.trace[i])
  {
    go, o := false, Failed;
    var preCheckResp: Option<seq<Readiness>> := None;
    if checks != ChecksSkip {
      var n := c.Send(PreCheck);
      preCheckResp := c.cluster.preCheck(n);
      if preCheckResp.None? {
        return;
      }
    }
    if dryRun || !PreCheckReady(preCheckResp) {
      var n := c.Send(StatusQuery);
      if !c.cluster.statusOk(n) || !c.cluster.printOk(n) || !PreCheckReady(preCheckResp) {
        return;
      }
      return false, Returned;
    }
    return true, Continue;
  }

  /** runDecommissionNodeImpl. The final mark is sent at most once, as the last request, and only after an
      answer with no active node and no replica left and after draining every target but the local node.
      A dry run and a failed pre-check change no membership. A cluster that answers every request and at last
      reports nothing left is decommissioned, if there are enough rounds. The backoff is reset at most once per replica
      counted at first, plus one. */
  method RunDecommissionNodeImpl(c: Client, wait: Wait, checks: Checks, dryRun: bool,
                                 nodes: seq<NodeID>, local: NodeID, rounds: nat)
    returns (o: Outcome, resets: nat)
    requires c.trace == []
    modifies c
    ensures MarkDecommissioned in c.trace <==> Marked(o)
    ensures Marked(o) ==> exists k :: FinishedAt(c.cluster, c.trace, nodes, local, k)
    ensures Marked(o) ==> (o == Finished <==> MarkAnswered(c))
    ensures dryRun || (checks != ChecksSkip && !ReadyToGo(c.cluster.preCheck(0))) ==>
              forall i :: 0 <= i < |c.trace| ==> !c.trace[i].MarkDecommissioning? && !c.trace[i].MarkDecommissioned?
    ensures !dryRun && (checks == ChecksSkip || ReadyToGo(c.cluster.preCheck(0))) && rounds > 0 ==>
              (if checks == ChecksSkip then [MarkDecommissioning(0)] else [PreCheck, MarkDecommissioning(0)]) <= c.trace
    ensures !dryRun && (checks == ChecksSkip || ReadyToGo(c.cluster.preCheck(0))) && AllWell(c.cluster) && wait == WaitAll ==>
              var mark := if checks == ChecksSkip then 0 else 1;
              forall n :: mark <= n < mark + rounds && EmptiedFrom(c.cluster, n) ==> o == Finished
    ensures CountsReplicas(c.cluster) && resets > 0 ==>
              var mark := if checks == ChecksSkip then 0 else 1;
              c.cluster.decommission(mark).Some? && resets <= TotalReplicas(c.cluster.decommission(mark).value) + 1
  {
    var go;
    go, o := Prepare(c, checks, dryRun);
    if !go {
      return o, 0;
    }
    o, resets := Poll(c, checks, wait, nodes, local, rounds);
    if Marked(o) {
      ghost var k :| FinishedAt(c.cluster, c.trace, nodes, local, k);
      FinalMarkIsLast(c.cluster, c.trace, nodes, local, k);
      assert c.trace[|c.trace| - 1] == MarkDecommissioned;
    }
  }

  lemma {:induction false} DrainsOnly(nodes: seq<NodeID>, local: NodeID)
    ensures forall i :: 0 <= i < |Drains(nodes, local)| ==>
              Drains(nodes, local)[i].Drain? && Drains(nodes, local)[i].node in nodes && Drains(nodes, local)[i].node != local
    ensures forall n :: n in nodes && n != local ==> Drain(n) in Drains(nodes, local)
  {
    if nodes != [] {
      var init := nodes[..|nodes| - 1];
      DrainsOnly(init, local);
      assert nodes == init + [nodes[|nodes| - 1]];
    }
  }

  /** In a finished run the final mark occurs once, at the end, and every other target was drained after
      the last decommissioning mark. */
  lemma FinalMarkIsLast(cluster: Cluster, trace: seq<Rpc>, nodes: seq<NodeID>, local: NodeID, k: nat)
    requires FinishedAt(cluster, trace, nodes, local, k)
    ensures forall i :: 0 <= i < |trace| ==> (trace[i].MarkDecommissioned? <==> i == |trace| - 1)
    ensures forall n :: n in nodes && n != local ==> exists i :: k < i < |trace| - 1 && trace[i] == Drain(n)
    ensures Drain(local) !in trace
  {
    var drains := Drains(nodes, local);
    DrainsOnly(nodes, local);
    var tail := trace[k + 1..];
    assert tail[|drains|] == MarkDecommissioned;
    forall i | k < i < |trace|
      ensures trace[i] == if i - k - 1 < |drains| then drains[i - k - 1] else MarkDecommissioned
    {
      assert trace[i] == tail[i - k - 1];
    }
    forall n | n in nodes && n != local
      ensures exists i :: k < i < |trace| - 1 && trace[i] == Drain(n)
    {
      var j :| 0 <= j < |drains| && drains[j] == Drain(n);
      assert trace[k + 1 + j] == Drain(n);
    }
  }

  /** The final mark means that in the last answer no node was active and, counts being counts, none held a
      replica. */
  lemma FinalMarkMeansEmpty(cluster: Cluster, trace: seq<Rpc>, nodes: seq<NodeID>, local: NodeID, k: nat)
    requires FinishedAt(cluster, trace, nodes, local, k) && CountsReplicas(cluster)
    ensures forall i :: 0 <= i < |cluster.decommission(k).value| ==>
              !cluster.decommission(k).value[i].active && cluster.decommission(k).value[i].replicaCount == 0
  {
    TotalIsNonNegative(cluster.decommission(k).value);
  }

  /** And the other way round: such an answer is all that is asked for. */
  lemma {:induction false} EmptyIsEmptied(resp: Response)
    requires forall i :: 0 <= i < |resp| ==> !resp[i].active && resp[i].replicaCount == 0
    ensures Emptied(resp)
  {
    if resp != [] {
      EmptyIsEmptied(resp[..|resp| - 1]);
    }
  }
}
