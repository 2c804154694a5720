/**
 Verifying that a loss-of-quorum recovery plan was applied: the statuses reported by the nodes are
 compared with the plan, and the differences decide whether recovery is complete.
 */
module RecoveryVerify {
  import opened Common

  type NodeID = int
  type PlanID = int

  /** The nodes named by the plan, once per replica update, and as stale leaseholders. */
  datatype Plan = Plan(id: PlanID, updates: seq<NodeID>, stale: seq<NodeID>)

  datatype Status = Status(node: NodeID, pending: Option<PlanID>, applied: Option<PlanID>, error: string)

  datatype Severity = Fine | Pending | Error

  datatype Message =
    | ApplyFailed | AppliedSuccessfully | ApplicationPending | UnexpectedPlan | NotStaged
    | StagedWithoutUpdate | NodeMissing | Staged | FailedPlan | FailedSome | AppliedPlan

  datatype Line = Line(node: NodeID, message: Message, severity: Severity)

  class ClusterDiff {
    var report: seq<Line>
    var pending: nat
    var errors: nat

    ghost predicate Valid()
      reads this
    {
      pending == CountOf(report, Pending) && errors == CountOf(report, Error)
    }

    constructor ()
      ensures Valid() && report == []
    {
      report, pending, errors := [], 0, 0;
    }

    /** append, appendPending or appendError, by the severity of the line. */
    method Append(line: Line)
      requires Valid()
      modifies this
      ensures Valid() && report == old(report) + [line]
    {
      CountSnoc(report, line);
      report := report + [line];
      match line.severity {
        case Fine =>
        case Pending => pending := pending + 1;
        case Error => errors := errors + 1;
      }
    }
  }

  function CountOf(report: seq<Line>, severity: Severity): nat
  {
    if report == [] then 0
    else CountOf(report[..|report| - 1], severity) + if report[|report| - 1].severity == severity then 1 else 0
  }

  lemma CountSnoc(report: seq<Line>, line: Line)
    ensures forall severity :: CountOf(report + [line], severity) ==
                               CountOf(report, severity) + if line.severity == severity then 1 else 0
  {
    assert (report + [line])[..|report|] == report;
  }

  lemma {:induction false} CountZero(report: seq<Line>, severity: Severity)
    ensures CountOf(report, severity) == 0 <==> Free(report, severity)
  {
    if report != [] {
      CountZero(report[..|report| - 1], severity);
    }
  }

  /** How many lines of the report are about a node. */
  function LinesAbout(report: seq<Line>, node: NodeID): nat
  {
    if report == [] then 0
    else (if report[0].node == node then 1 else 0) + LinesAbout(report[1..], node)
  }

  lemma {:induction false} LinesAboutConcat(a: seq<Line>, b: seq<Line>, node: NodeID)
    ensures LinesAbout(a + b, node) == LinesAbout(a, node) + LinesAbout(b, node)
  {
    if a == [] {
      assert a + b == b;
    } else {
      assert (a + b)[1..] == a[1..] + b;
      LinesAboutConcat(a[1..], b, node);
    }
  }

  // ---------- What each status contributes ----------

  /** A node the plan names must have applied the plan; another node must not have a plan staged. */
  function StatusLines(plan: PlanID, planned: bool, s: Status): seq<Line>
  {
    if planned then
      if s.applied == Some(plan) && s.error != "" then [Line(s.node, ApplyFailed, Error)]
      else if s.applied == Some(plan) then [Line(s.node, AppliedSuccessfully, Fine)]
      else if s.pending == Some(plan) then [Line(s.node, ApplicationPending, Pending)]
      else if s.pending.Some? then [Line(s.node, UnexpectedPlan, Error)]
      else [Line(s.node, NotStaged, Error)]
    else if s.pending == Some(plan) then [Line(s.node, StagedWithoutUpdate, Error)]
    else if s.pending.Some? then [Line(s.node, UnexpectedPlan, Error)]
    else []
  }

  function Named(plan: Plan): (named: set<NodeID>)
    ensures forall n :: n in named <==> n in plan.updates || n in plan.stale
  {
    (set n | n in plan.updates) + (set n | n in plan.stale)
  }

  /** Statuses in the order given; a named node is struck off when its status is seen. */
  function PlanLines(plan: PlanID, expected: set<NodeID>, nodes: seq<Status>): seq<Line>
  {
    if nodes == [] then []
    else
      StatusLines(plan, nodes[0].node in expected, nodes[0])
      + PlanLines(plan, expected - {nodes[0].node}, nodes[1..])
  }

  function Reporting(nodes: seq<Status>): set<NodeID>
  {
    set i | 0 <= i < |nodes| :: nodes[i].node
  }

  function MissingLines(missing: seq<NodeID>): seq<Line>
  {
    seq(|missing|, i requires 0 <= i < |missing| => Line(missing[i], NodeMissing, Error))
  }

  ghost predicate Distinct(nodes: seq<Status>)
  {
    forall i, j :: 0 <= i < j < |nodes| ==> nodes[i].node != nodes[j].node
  }

  /** No line has the severity. */
  ghost predicate Free(report: seq<Line>, severity: Severity)
  {
    forall i :: 0 <= i < |report| ==> report[i].severity != severity
  }

  /** A status that is not an error: a named node has applied the plan or has it pending, another node has
      no plan staged. */
  predicate Acceptable(plan: PlanID, planned: bool, s: Status)
  {
    if !planned then s.pending == None
    else if s.applied == Some(plan) then s.error == ""
    else s.pending == Some(plan)
  }

  /** A named node that has yet to apply the plan. */
  predicate Waiting(plan: PlanID, planned: bool, s: Status)
  {
    planned && s.applied != Some(plan) && s.pending == Some(plan)
  }

  /** A status that raises no concern at all. */
  predicate InOrder(plan: PlanID, planned: bool, s: Status)
  {
    if planned then s.applied == Some(plan) && s.error == "" else s.pending == None
  }

  ghost predicate StatusesInOrder(plan: PlanID, expected: set<NodeID>, nodes: seq<Status>)
  {
    forall s :: s in nodes ==> InOrder(plan, s.node in expected, s)
  }

  ghost predicate AllAcceptable(plan: PlanID, expected: set<NodeID>, nodes: seq<Status>)
  {
    forall s :: s in nodes ==> Acceptable(plan, s.node in expected, s)
  }

  ghost predicate NoneWaiting(plan: PlanID, expected: set<NodeID>, nodes: seq<Status>)
  {
    forall s :: s in nodes ==> !Waiting(plan, s.node in expected, s)
  }

  lemma InOrderIff(plan: PlanID, expected: set<NodeID>, nodes: seq<Status>)
    ensures StatusesInOrder(plan, expected, nodes) <==>
            AllAcceptable(plan, expected, nodes) && NoneWaiting(plan, expected, nodes)
  {
    forall s: Status
      ensures InOrder(plan, s.node in expected, s) <==>
              Acceptable(plan, s.node in expected, s) && !Waiting(plan, s.node in expected, s)
    {
    }
  }

  lemma StatusLinesFree(plan: PlanID, planned: bool, s: Status)
    ensures Free(StatusLines(plan, planned, s), Error) <==> Acceptable(plan, planned, s)
    ensures Free(StatusLines(plan, planned, s), Pending) <==> !Waiting(plan, planned, s)
  {
    var lines := StatusLines(plan, planned, s);
    assert lines == [] || lines == [lines[0]];
    assert lines != [] ==> (Free(lines, Error) <==> lines[0].severity != Error);
    assert lines != [] ==> (Free(lines, Pending) <==> lines[0].severity != Pending);
  }

  lemma FreeConcat(a: seq<Line>, b: seq<Line>, severity: Severity)
    ensures Free(a + b, severity) <==> Free(a, severity) && Free(b, severity)
  {
    if Free(a + b, severity) {
      assert forall i :: 0 <= i < |a| ==> a[i] == (a + b)[i];
      assert forall i :: 0 <= i < |b| ==> b[i] == (a + b)[|a| + i];
    }
  }

  /** With the first node struck off, distinct nodes are named as before. */
  lemma StillNamed(expected: set<NodeID>, nodes: seq<Status>)
    requires Distinct(nodes) && nodes != []
    ensures Distinct(nodes[1..])
    ensures forall s :: s in nodes[1..] ==> (s.node in expected - {nodes[0].node} <==> s.node in expected)
    ensures forall s :: s in nodes <==> s == nodes[0] || s in nodes[1..]
  {
    var rest := nodes[1..];
    assert forall i :: 0 <= i < |rest| ==> rest[i] == nodes[i + 1];
    assert nodes == [nodes[0]] + rest;
  }

  lemma AcceptableSplit(plan: PlanID, expected: set<NodeID>, nodes: seq<Status>)
    requires Distinct(nodes) && nodes != []
    ensures AllAcceptable(plan, expected, nodes) <==>
            && Acceptable(plan, nodes[0].node in expected, nodes[0])
            && AllAcceptable(plan, expected - {nodes[0].node}, nodes[1..])
    ensures NoneWaiting(plan, expected, nodes) <==>
            && !Waiting(plan, nodes[0].node in expected, nodes[0])
            && NoneWaiting(plan, expected - {nodes[0].node}, nodes[1..])
  {
    StillNamed(expected, nodes);
  }

  /** Over distinct nodes, no line is an error exactly if every status is acceptable, and none is pending
      exactly if no node is waiting. */
  lemma {:induction false} PlanLinesFree(plan: PlanID, expected: set<NodeID>, nodes: seq<Status>)
    requires Distinct(nodes)
    ensures Free(PlanLines(plan, expected, nodes), Error) <==> AllAcceptable(plan, expected, nodes)
    ensures Free(PlanLines(plan, expected, nodes), Pending) <==> NoneWaiting(plan, expected, nodes)
  {
    if nodes != [] {
      var s, rest, expected' := nodes[0], nodes[1..], expected - {nodes[0].node};
      var lines, more := StatusLines(plan, s.node in expected, s), PlanLines(plan, expected', rest);
      StillNamed(expected, nodes);
      AcceptableSplit(plan, expected, nodes);
      StatusLinesFree(plan, s.node in expected, s);
      PlanLinesFree(plan, expected', rest);
      FreeConcat(lines, more, Error);
      FreeConcat(lines, more, Pending);
    }
  }

  /** A named node gets one line if it reported, and none here if it did not. */
  lemma {:induction false} PlanLinesAbout(plan: PlanID, expected: set<NodeID>, nodes: seq<Status>, n: NodeID)
    requires Distinct(nodes) && n in expected
    ensures LinesAbout(PlanLines(plan, expected, nodes), n) == if n in Reporting(nodes) then 1 else 0
  {
    if nodes != [] {
      var s, rest := nodes[0], nodes[1..];
      assert Reporting(nodes) == {s.node} + Reporting(rest) by {
        assert forall i :: 0 <= i < |rest| ==> rest[i] == nodes[i + 1];
        assert nodes[0].node in Reporting(nodes);
        forall m | m in Reporting(rest)
          ensures m in Reporting(nodes)
        {
          var i :| 0 <= i < |rest| && rest[i].node == m;
          assert nodes[i + 1].node == m;
        }
      }
      LinesAboutConcat(StatusLines(plan, s.node in expected, s), PlanLines(plan, expected - {s.node}, rest), n);
      if s.node == n {
        assert n !in Reporting(rest);
        NoLinesAbout(plan, expected - {n}, rest, n);
      } else {
        PlanLinesAbout(plan, expected - {s.node}, rest, n);
      }
    }
  }

  lemma {:induction false} NoLinesAbout(plan: PlanID, expected: set<NodeID>, nodes: seq<Status>, n: NodeID)
    requires n !in Reporting(nodes)
    ensures LinesAbout(PlanLines(plan, expected, nodes), n) == 0
  {
    if nodes != [] {
      assert nodes[0].node in Reporting(nodes);
      assert n !in Reporting(nodes[1..]) by {
        assert forall i :: 0 <= i < |nodes[1..]| ==> nodes[1..][i] == nodes[i + 1];
      }
      NoLinesAbout(plan, expected - {nodes[0].node}, nodes[1..], n);
      LinesAboutConcat(StatusLines(plan, nodes[0].node in expected, nodes[0]),
                       PlanLines(plan, expected - {nodes[0].node}, nodes[1..]), n);
    }
  }

  /** What a line says about the status it was written for. */
  ghost predicate Says(plan: PlanID, planned: bool, s: Status, line: Line)
  {
    && line.node == s.node
    && match line.message
       case ApplyFailed => line.severity == Error && planned && s.applied == Some(plan) && s.error != ""
       case AppliedSuccessfully => line.severity == Fine && planned && s.applied == Some(plan) && s.error == ""
       case ApplicationPending =>
         line.severity == Pending && planned && s.applied != Some(plan) && s.pending == Some(plan)
       case UnexpectedPlan =>
         && line.severity == Error && s.pending.Some? && s.pending != Some(plan)
         && (planned ==> s.applied != Some(plan))
       case NotStaged => line.severity == Error && planned && s.applied != Some(plan) && s.pending == None
       case StagedWithoutUpdate => line.severity == Error && !planned && s.pending == Some(plan)
       case _ => false
  }

  lemma StatusLinesSay(plan: PlanID, planned: bool, s: Status, line: Line)
    ensures line in StatusLines(plan, planned, s) <==> Says(plan, planned, s, line)
  {
  }

  ghost predicate SaidOf(plan: PlanID, expected: set<NodeID>, nodes: seq<Status>, line: Line)
  {
    exists s :: s in nodes && Says(plan, s.node in expected, s, line)
  }

  lemma SaidSplit(plan: PlanID, expected: set<NodeID>, nodes: seq<Status>, line: Line)
    requires Distinct(nodes) && nodes != []
    ensures SaidOf(plan, expected, nodes, line) <==>
            || Says(plan, nodes[0].node in expected, nodes[0], line)
            || SaidOf(plan, expected - {nodes[0].node}, nodes[1..], line)
  {
    StillNamed(expected, nodes);
    if SaidOf(plan, expected - {nodes[0].node}, nodes[1..], line) {
      var s :| s in nodes[1..] && Says(plan, s.node in expected - {nodes[0].node}, s, line);
      assert s in nodes && Says(plan, s.node in expected, s, line);
    }
  }

  /** Over distinct nodes the lines are exactly what is to be said of the statuses. */
  lemma {:induction false} PlanLinesSay(plan: PlanID, expected: set<NodeID>, nodes: seq<Status>, line: Line)
    requires Distinct(nodes)
    ensures line in PlanLines(plan, expected, nodes) <==> SaidOf(plan, expected, nodes, line)
  {
    if nodes != [] {
      StatusLinesSay(plan, nodes[0].node in expected, nodes[0], line);
      StillNamed(expected, nodes);
      PlanLinesSay(plan, expected - {nodes[0].node}, nodes[1..], line);
      SaidSplit(plan, expected, nodes, line);
    }
  }

  // ---------- The comparison ----------

  /** sort.Slice by node ID */
  function InsertByNode(s: Status, nodes: seq<Status>): seq<Status>
  {
    if nodes == [] then [s]
    else if nodes[0].node < s.node then [nodes[0]] + InsertByNode(s, nodes[1..])
    else [s] + nodes
  }

  function SortByNode(nodes: seq<Status>): seq<Status>
  {
    if nodes == [] then [] else InsertByNode(nodes[0], SortByNode(nodes[1..]))
  }

  lemma {:induction false} InsertByNodeKeeps(s: Status, nodes: seq<Status>)
    ensures multiset(InsertByNode(s, nodes)) == multiset{s} + multiset(nodes)
  {
    if nodes != [] {
      assert nodes == [nodes[0]] + nodes[1..];
      if nodes[0].node < s.node {
        InsertByNodeKeeps(s, nodes[1..]);
      }
    }
  }

  lemma {:induction false} InsertByNodeAscends(s: Status, nodes: seq<Status>)
    requires Ascending(nodes)
    ensures Ascending(InsertByNode(s, nodes))
  {
    if nodes != [] && nodes[0].node < s.node {
      var rest, r := nodes[1..], InsertByNode(s, nodes[1..]);
      InsertByNodeAscends(s, rest);
      InsertByNodeKeeps(s, rest);
      forall i | 0 <= i < |r|
        ensures nodes[0].node <= r[i].node
      {
        assert r[i] in multiset(r);
        assert r[i] == s || r[i] in rest;
      }
    }
  }

  ghost predicate Ascending(nodes: seq<Status>)
  {
    forall i, j :: 0 <= i < j < |nodes| ==> nodes[i].node <= nodes[j].node
  }

  lemma {:induction false} SortByNodeSorts(nodes: seq<Status>)
    ensures multiset(SortByNode(nodes)) == multiset(nodes) && Ascending(SortByNode(nodes))
  {
    if nodes != [] {
      assert nodes == [nodes[0]] + nodes[1..];
      SortByNodeSorts(nodes[1..]);
      InsertByNodeKeeps(nodes[0], SortByNode(nodes[1..]));
      InsertByNodeAscends(nodes[0], SortByNode(nodes[1..]));
    }
  }

  lemma SortedKeepsDistinct(nodes: seq<Status>)
    requires Distinct(nodes)
    ensures Distinct(SortByNode(nodes))
    ensures Reporting(SortByNode(nodes)) == Reporting(nodes)
    ensures forall s :: s in SortByNode(nodes) <==> s in nodes
  {
    SortByNodeSorts(nodes);
    var sorted := SortByNode(nodes);
    assert forall s :: s in sorted <==> s in multiset(sorted);
    assert forall s :: s in nodes <==> s in multiset(nodes);
    assert |sorted| == |multiset(sorted)| == |nodes|;
    DistinctByMultiset(nodes, sorted);
    forall n
      ensures n in Reporting(sorted) <==> n in Reporting(nodes)
    {
      if n in Reporting(sorted) {
        var i :| 0 <= i < |sorted| && sorted[i].node == n;
        assert sorted[i] in nodes;
      }
      if n in Reporting(nodes) {
        var i :| 0 <= i < |nodes| && nodes[i].node == n;
        assert nodes[i] in sorted;
      }
    }
  }

  lemma {:induction false} DistinctByMultiset(a: seq<Status>, b: seq<Status>)
    requires Distinct(a) && multiset(a) == multiset(b)
    ensures Distinct(b)
  {
    forall i, j | 0 <= i < j < |b|
      ensures b[i].node != b[j].node
    {
      assert b[i] in multiset(b) && b[j] in multiset(b);
      assert b[i] in a && b[j] in a;
      if b[i] == b[j] {
        TwiceIn(b, i, j);
        OnceIn(a, b[i]);
      }
    }
  }

  lemma TwiceIn(b: seq<Status>, i: nat, j: nat)
    requires i < j < |b| && b[i] == b[j]
    ensures multiset(b)[b[i]] >= 2
  {
    assert b == b[..j] + [b[j]] + b[j + 1..];
    assert b[i] in b[..j];
    assert b[i] in multiset(b[..j]);
  }

  lemma {:induction false} OnceIn(a: seq<Status>, s: Status)
    requires Distinct(a)
    ensures multiset(a)[s] <= 1
  {
    if a != [] {
      assert a == [a[0]] + a[1..];
      OnceIn(a[1..], s);
      if s == a[0] {
        assert s !in a[1..];
      }
    }
  }

  /** The nodes of a set in ascending order. */
  ghost predicate Lists(missing: seq<NodeID>, nodes: set<NodeID>)
  {
    && (forall i, j :: 0 <= i < j < |missing| ==> missing[i] < missing[j])
    && (forall n :: n in missing <==> n in nodes)
  }

  function InsertID(n: NodeID, ids: seq<NodeID>): seq<NodeID>
  {
    if ids == [] then [n] else if ids[0] < n then [ids[0]] + InsertID(n, ids[1..]) else [n] + ids
  }

  lemma {:induction false} InsertIDLists(n: NodeID, ids: seq<NodeID>, nodes: set<NodeID>)
    requires Lists(ids, nodes) && n !in nodes
    ensures Lists(InsertID(n, ids), nodes + {n})
  {
    if ids != [] {
      assert ids == [ids[0]] + ids[1..];
      assert ids[0] in ids;
      if ids[0] < n {
        var rest := nodes - {ids[0]};
        assert Lists(ids[1..], rest) by {
          assert forall i :: 0 <= i < |ids| - 1 ==> ids[1..][i] == ids[i + 1];
        }
        InsertIDLists(n, ids[1..], rest);
        var r := InsertID(n, ids[1..]);
        forall i | 0 <= i < |r|
          ensures ids[0] < r[i]
        {
          assert r[i] in r;
        }
      }
    }
  }

  /** The nodes left in the map, sorted. */
  method ListMissing(nodes: set<NodeID>) returns (missing: seq<NodeID>)
    ensures Lists(missing, nodes)
  {
    missing := [];
    var rest := nodes;
    while rest != {}
      invariant rest <= nodes && Lists(missing, nodes - rest)
      decreases rest
    {
      var n := AnyOf(rest);
      InsertIDLists(n, missing, nodes - rest);
      missing := InsertID(n, missing);
      assert nodes - rest + {n} == nodes - (rest - {n});
      rest := rest - {n};
    }
  }

  /** Nothing went wrong, as far as the statuses tell: every named node reported, and every status is
      acceptable. */
  ghost predicate ErrorFree(plan: Plan, nodes: seq<Status>)
  {
    Named(plan) <= Reporting(nodes) && AllAcceptable(plan.id, Named(plan), nodes)
  }

  /** Everything a plan asks for has happened: every named node reported the plan applied without error,
      and no other node has a plan staged. */
  ghost predicate FullyApplied(plan: Plan, nodes: seq<Status>)
  {
    && Named(plan) <= Reporting(nodes)
    && StatusesInOrder(plan.id, Named(plan), nodes)
  }

  method NodesWithPlan(plan: Plan) returns (nodesWithPlan: set<NodeID>)
    ensures nodesWithPlan == Named(plan)
  {
    nodesWithPlan := {};
    for i := 0 to |plan.updates|
      invariant nodesWithPlan == set n | n in plan.updates[..i]
    {
      assert plan.updates[..i + 1] == plan.updates[..i] + [plan.updates[i]];
      nodesWithPlan := nodesWithPlan + {plan.updates[i]};
    }
    assert plan.updates[..|plan.updates|] == plan.updates;
    for i := 0 to |plan.stale|
      invariant nodesWithPlan == (set n | n in plan.updates) + (set n | n in plan.stale[..i])
    {
      assert plan.stale[..i + 1] == plan.stale[..i] + [plan.stale[i]];
      nodesWithPlan := nodesWithPlan + {plan.stale[i]};
    }
    assert plan.stale[..|plan.stale|] == plan.stale;
  }

  /** diffPlanWithNodeStatus. For distinct nodes and a plan that names a node, it finds nothing pending
      and no error exactly if the plan was fully applied, and every named node has exactly one line in the
      report. Without a plan the statuses are only listed. */
  method DiffPlanWithNodeStatus(plan: Plan, nodes: seq<Status>) returns (diff: ClusterDiff)
    ensures fresh(diff) && diff.Valid()
    ensures Distinct(nodes) && Named(plan) != {} ==>
              && (diff.errors == 0 <==> ErrorFree(plan, nodes))
              && (diff.pending == 0 <==> NoneWaiting(plan.id, Named(plan), nodes))
              && (diff.pending == 0 && diff.errors == 0 <==> FullyApplied(plan, nodes))
    ensures Distinct(nodes) ==> forall n :: n in Named(plan) ==> LinesAbout(diff.report, n) == 1
    ensures Distinct(nodes) && Named(plan) != {} ==>
              forall line :: line in diff.report <==>
                || SaidOf(plan.id, Named(plan), nodes, line)
                || (line == Line(line.node, NodeMissing, Error) && line.node in Named(plan) && line.node !in Reporting(nodes))
    ensures Named(plan) == {} ==>
              forall line :: line in diff.report <==> exists s :: s in nodes && ListsStatus(s, line)
    ensures Named(plan) != {} ==>
              exists missing :: Lists(missing, Named(plan) - Reporting(SortByNode(nodes)))
                                && diff.report == PlanLines(plan.id, Named(plan), SortByNode(nodes)) + MissingLines(missing)
    ensures Named(plan) == {} ==>
              diff.report == DumpLines(SortByNode(nodes)) && diff.pending == 0 && diff.errors == 0
  {
    diff := new ClusterDiff();
    var nodesWithPlan := NodesWithPlan(plan);
    var sorted := SortByNode(nodes);
    if nodesWithPlan == {} {
      DumpStatuses(sorted, diff);
      SortByNodeSorts(nodes);
      forall line
        ensures line in diff.report <==> exists s :: s in nodes && ListsStatus(s, line)
      {
        DumpLinesSay(sorted, line);
        SameStatuses(nodes, sorted);
      }
      return;
    }
    nodesWithPlan := CompareStatuses(plan, sorted, nodesWithPlan, diff);
    ghost var missing := AppendMissing(nodesWithPlan, diff);
    if Distinct(nodes) {
      ReportMeaning(plan, nodes, missing, diff.report);
      forall line
        ensures line in diff.report <==>
                || SaidOf(plan.id, Named(plan), nodes, line)
                || (line == Line(line.node, NodeMissing, Error) && line.node in Named(plan) && line.node !in Reporting(nodes))
      {
        ReportSays(plan, nodes, missing, diff.report, line);
      }
      forall n | n in Named(plan)
        ensures LinesAbout(diff.report, n) == 1
      {
        OneLinePerNamedNode(plan, nodes, missing, diff.report, n);
      }
    }
  }

  lemma SameStatuses(nodes: seq<Status>, sorted: seq<Status>)
    requires multiset(sorted) == multiset(nodes)
    ensures forall s :: s in sorted <==> s in nodes
  {
    assert forall s :: s in sorted <==> s in multiset(sorted);
    assert forall s :: s in nodes <==> s in multiset(nodes);
  }

  /** The lines for the named nodes that did not report. */
  method AppendMissing(left: set<NodeID>, diff: ClusterDiff) returns (ghost listed: seq<NodeID>)
    requires diff.Valid()
    modifies diff
    ensures diff.Valid() && Lists(listed, left) && diff.report == old(diff.report) + MissingLines(listed)
  {
    var missing := ListMissing(left);
    for i := 0 to |missing|
      invariant diff.Valid() && diff.report == old(diff.report) + MissingLines(missing[..i])
    {
      diff.Append(Line(missing[i], NodeMissing, Error));
      assert MissingLines(missing[..i + 1]) == MissingLines(missing[..i]) + [Line(missing[i], NodeMissing, Error)];
    }
    assert missing[..|missing|] == missing;
    listed := missing;
  }

  /** What a node has staged, and what it applied or failed to apply. */
  function DumpOf(s: Status): seq<Line>
  {
    (if s.pending.Some? then [Line(s.node, Staged, Fine)] else [])
    + if s.error != "" && s.applied.Some? then [Line(s.node, FailedPlan, Fine)]
      else if s.error != "" then [Line(s.node, FailedSome, Fine)]
      else if s.applied.Some? then [Line(s.node, AppliedPlan, Fine)]
      else []
  }

  function DumpLines(nodes: seq<Status>): (lines: seq<Line>)
    ensures Free(lines, Pending) && Free(lines, Error)
  {
    if nodes == [] then [] else DumpLines(nodes[..|nodes| - 1]) + DumpOf(nodes[|nodes| - 1])
  }

  method DumpStatus(s: Status, diff: ClusterDiff)
    requires diff.Valid()
    modifies diff
    ensures diff.Valid() && diff.report == old(diff.report) + DumpOf(s)
  {
    if s.pending.Some? {
      diff.Append(Line(s.node, Staged, Fine));
    }
    if s.error != "" && s.applied.Some? {
      diff.Append(Line(s.node, FailedPlan, Fine));
    } else if s.error != "" {
      diff.Append(Line(s.node, FailedSome, Fine));
    } else if s.applied.Some? {
      diff.Append(Line(s.node, AppliedPlan, Fine));
    }
  }

  /** Without a plan: what each node reports, with no conclusion drawn. */
  method DumpStatuses(nodes: seq<Status>, diff: ClusterDiff)
    requires diff.Valid() && diff.report == []
    modifies diff
    ensures diff.Valid() && diff.report == DumpLines(nodes) && diff.pending == 0 && diff.errors == 0
  {
    for i := 0 to |nodes|
      invariant diff.Valid() && diff.report == DumpLines(nodes[..i])
    {
      assert nodes[..i + 1][..i] == nodes[..i];
      DumpStatus(nodes[i], diff);
    }
    assert nodes[..|nodes|] == nodes;
    CountZero(diff.report, Pending);
    CountZero(diff.report, Error);
  }

  /** The loop over the statuses; returns the named nodes that did not report. */
  method CompareStatuses(plan: Plan, nodes: seq<Status>, expected: set<NodeID>, diff: ClusterDiff)
    returns (left: set<NodeID>)
    requires diff.Valid() && diff.report == []
    modifies diff
    ensures diff.Valid() && diff.report == PlanLines(plan.id, expected, nodes)
    ensures left == expected - Reporting(nodes)
  {
    left := expected;
    for i := 0 to |nodes|
      invariant diff.Valid() && left == expected - Reporting(nodes[..i])
      invariant diff.report + PlanLines(plan.id, left, nodes[i..]) == PlanLines(plan.id, expected, nodes)
    {
      var s := nodes[i];
      ghost var before := diff.report;
      if s.node in left {
        if s.applied == Some(plan.id) && s.error != "" {
          diff.Append(Line(s.node, ApplyFailed, Error));
        } else if s.applied == Some(plan.id) {
          diff.Append(Line(s.node, AppliedSuccessfully, Fine));
        } else if s.pending == Some(plan.id) {
          diff.Append(Line(s.node, ApplicationPending, Pending));
        } else if s.pending.Some? {
          diff.Append(Line(s.node, UnexpectedPlan, Error));
        } else {
          diff.Append(Line(s.node, NotStaged, Error));
        }
      } else {
        if s.pending == Some(plan.id) {
          diff.Append(Line(s.node, StagedWithoutUpdate, Error));
        } else if s.pending.Some? {
          diff.Append(Line(s.node, UnexpectedPlan, Error));
        }
      }
      PlanLinesStep(plan.id, left, nodes, i, before, diff.report);
      ReportingSnoc(nodes, i);
      left := left - {s.node};
    }
    assert nodes[..|nodes|] == nodes && nodes[|nodes|..] == [];
  }

  lemma PlanLinesStep(plan: PlanID, left: set<NodeID>, nodes: seq<Status>, i: nat, before: seq<Line>, after: seq<Line>)
    requires i < |nodes| && after == before + StatusLines(plan, nodes[i].node in left, nodes[i])
    ensures before + PlanLines(plan, left, nodes[i..]) == after + PlanLines(plan, left - {nodes[i].node}, nodes[i + 1..])
  {
    assert nodes[i..][0] == nodes[i] && nodes[i..][1..] == nodes[i + 1..];
  }

  lemma ReportingSnoc(nodes: seq<Status>, i: nat)
    requires i < |nodes|
    ensures Reporting(nodes[..i + 1]) == Reporting(nodes[..i]) + {nodes[i].node}
  {
    assert nodes[..i + 1] == nodes[..i] + [nodes[i]];
    assert nodes[..i + 1][i] == nodes[i];
    forall n | n in Reporting(nodes[..i])
      ensures n in Reporting(nodes[..i + 1])
    {
      var k :| 0 <= k < i && nodes[..i][k].node == n;
      assert nodes[..i + 1][k].node == n;
    }
  }

  lemma {:induction false} MissingLinesAbout(missing: seq<NodeID>, nodes: set<NodeID>, n: NodeID)
    requires Lists(missing, nodes)
    ensures LinesAbout(MissingLines(missing), n) == if n in nodes then 1 else 0
  {
    if missing != [] {
      var rest := missing[1..];
      assert MissingLines(missing)[1..] == MissingLines(rest);
      assert missing[0] in missing;
      assert Lists(rest, nodes - {missing[0]}) by {
        assert missing == [missing[0]] + rest;
      }
      MissingLinesAbout(rest, nodes - {missing[0]}, n);
    }
  }

  lemma NothingMissing(missing: seq<NodeID>, named: set<NodeID>, reporting: set<NodeID>)
    requires Lists(missing, named - reporting)
    ensures missing == [] <==> named <= reporting
  {
    if missing != [] {
      assert missing[0] in missing;
    } else {
      forall n | n in named
        ensures n in reporting
      {
        assert n in named - reporting <==> n in missing;
      }
    }
  }

  lemma MissingLinesFree(missing: seq<NodeID>)
    ensures Free(MissingLines(missing), Pending)
    ensures Free(MissingLines(missing), Error) <==> missing == []
  {
    if missing != [] {
      assert MissingLines(missing)[0].severity == Error;
    }
  }

  /** What the severities in a whole report say about the plan. */
  lemma ReportMeaning(plan: Plan, nodes: seq<Status>, missing: seq<NodeID>, report: seq<Line>)
    requires Distinct(nodes) && Lists(missing, Named(plan) - Reporting(SortByNode(nodes)))
    requires report == PlanLines(plan.id, Named(plan), SortByNode(nodes)) + MissingLines(missing)
    ensures CountOf(report, Error) == 0 <==> ErrorFree(plan, nodes)
    ensures CountOf(report, Pending) == 0 <==> NoneWaiting(plan.id, Named(plan), nodes)
    ensures CountOf(report, Pending) == 0 && CountOf(report, Error) == 0 <==> FullyApplied(plan, nodes)
  {
    var sorted := SortByNode(nodes);
    var lines := PlanLines(plan.id, Named(plan), sorted);
    SortedKeepsDistinct(nodes);
    CountZero(report, Pending);
    CountZero(report, Error);
    FreeConcat(lines, MissingLines(missing), Pending);
    FreeConcat(lines, MissingLines(missing), Error);
    MissingLinesFree(missing);
    PlanLinesFree(plan.id, Named(plan), sorted);
    NothingMissing(missing, Named(plan), Reporting(nodes));
    InOrderIff(plan.id, Named(plan), nodes);
  }

  /** Every named node has one line in the whole report. */
  lemma OneLinePerNamedNode(plan: Plan, nodes: seq<Status>, missing: seq<NodeID>, report: seq<Line>, n: NodeID)
    requires Distinct(nodes) && Lists(missing, Named(plan) - Reporting(SortByNode(nodes))) && n in Named(plan)
    requires report == PlanLines(plan.id, Named(plan), SortByNode(nodes)) + MissingLines(missing)
    ensures LinesAbout(report, n) == 1
  {
    var sorted := SortByNode(nodes);
    SortedKeepsDistinct(nodes);
    LinesAboutConcat(PlanLines(plan.id, Named(plan), sorted), MissingLines(missing), n);
    PlanLinesAbout(plan.id, Named(plan), sorted, n);
    MissingLinesAbout(missing, Named(plan) - Reporting(sorted), n);
  }

  /** The whole report, line by line: what is to be said of each status, and each named node that is missing. */
  lemma ReportSays(plan: Plan, nodes: seq<Status>, missing: seq<NodeID>, report: seq<Line>, line: Line)
    requires Distinct(nodes) && Lists(missing, Named(plan) - Reporting(SortByNode(nodes)))
    requires report == PlanLines(plan.id, Named(plan), SortByNode(nodes)) + MissingLines(missing)
    ensures line in report <==>
            || SaidOf(plan.id, Named(plan), nodes, line)
            || (line == Line(line.node, NodeMissing, Error) && line.node in Named(plan) && line.node !in Reporting(nodes))
  {
    var sorted := SortByNode(nodes);
    SortedKeepsDistinct(nodes);
    PlanLinesSay(plan.id, Named(plan), sorted, line);
    assert SaidOf(plan.id, Named(plan), sorted, line) <==> SaidOf(plan.id, Named(plan), nodes, line);
    MissingLinesSay(missing, line);
  }

  lemma MissingLinesSay(missing: seq<NodeID>, line: Line)
    ensures line in MissingLines(missing) <==> line == Line(line.node, NodeMissing, Error) && line.node in missing
  {
    if line == Line(line.node, NodeMissing, Error) && line.node in missing {
      var i :| 0 <= i < |missing| && missing[i] == line.node;
      assert MissingLines(missing)[i] == line;
    }
  }

  /** Without a plan: what is listed of a status. */
  ghost predicate ListsStatus(s: Status, line: Line)
  {
    && line.node == s.node && line.severity == Fine
    && match line.message
       case Staged => s.pending.Some?
       case FailedPlan => s.error != "" && s.applied.Some?
       case FailedSome => s.error != "" && s.applied.None?
       case AppliedPlan => s.error == "" && s.applied.Some?
       case _ => false
  }

  lemma {:induction false} DumpLinesSay(nodes: seq<Status>, line: Line)
    ensures line in DumpLines(nodes) <==> exists s :: s in nodes && ListsStatus(s, line)
  {
    if nodes != [] {
      var front, last := nodes[..|nodes| - 1], nodes[|nodes| - 1];
      assert nodes == front + [last];
      DumpLinesSay(front, line);
      assert line in DumpOf(last) <==> ListsStatus(last, line);
    }
  }

  // ---------- The verdict ----------

  datatype Verdict = Complete | NotFinished | NotFullySucceeded | Unhealthy

  /** The verdict in terms of what was planned and reported. A plan without replica updates is held to no
      pending node and to no decommissioned one; one that names no node is not compared at all. */
  ghost function VerdictOf(plan: Plan, nodes: seq<Status>, decommissioned: seq<bool>, rangesAvailable: bool): Verdict
  {
    if plan.updates != [] then
      if false in decommissioned || !NoneWaiting(plan.id, Named(plan), nodes) then NotFinished
      else if ErrorFree(plan, nodes) && rangesAvailable then Complete
      else NotFullySucceeded
    else if rangesAvailable && (plan.stale == [] || ErrorFree(plan, nodes)) then Complete
    else Unhealthy
  }

  /** A named node did not report, or has neither applied the plan without error nor has it pending, or another
      node has a plan staged. */
  ghost predicate SomethingWrong(plan: Plan, nodes: seq<Status>)
  {
    || (exists n :: n in Named(plan) && n !in Reporting(nodes))
    || (exists s :: s in nodes && Wrong(plan, s))
  }

  ghost predicate Wrong(plan: Plan, s: Status)
  {
    if s.node !in Named(plan) then s.pending.Some?
    else if s.applied == Some(plan.id) then s.error != ""
    else s.pending != Some(plan.id)
  }

  lemma WrongIsNotErrorFree(plan: Plan, nodes: seq<Status>)
    ensures SomethingWrong(plan, nodes) <==> !ErrorFree(plan, nodes)
  {
    assert (forall n :: n in Named(plan) ==> n in Reporting(nodes)) ==> Named(plan) <= Reporting(nodes);
    if !AllAcceptable(plan.id, Named(plan), nodes) {
      var s :| s in nodes && !Acceptable(plan.id, s.node in Named(plan), s);
    }
    if exists s :: s in nodes && Wrong(plan, s) {
      var s :| s in nodes && Wrong(plan, s);
      assert !Acceptable(plan.id, s.node in Named(plan), s);
    }
  }

  lemma WaitingOrNot(plan: Plan, nodes: seq<Status>)
    ensures NoneWaiting(plan.id, Named(plan), nodes) <==>
            !exists s :: s in nodes && s.node in Named(plan) && s.applied != Some(plan.id) && s.pending == Some(plan.id)
  {
    assert forall s: Status :: Waiting(plan.id, s.node in Named(plan), s) <==>
      s.node in Named(plan) && s.applied != Some(plan.id) && s.pending == Some(plan.id);
  }

  lemma NamedOrNot(plan: Plan)
    ensures Named(plan) == {} <==> plan.updates == [] && plan.stale == []
  {
    if plan.updates != [] {
      assert plan.updates[0] in Named(plan);
    }
    if plan.stale != [] {
      assert plan.stale[0] in Named(plan);
    }
  }

  method AllDecommissioned(decommissioned: seq<bool>) returns (all: bool)
    ensures all == (false !in decommissioned)
  {
    all := true;
    for i := 0 to |decommissioned|
      invariant all == (false !in decommissioned[..i])
    {
      if !decommissioned[i] {
        all := false;
      }
    }
  }

  /** The end of runDebugVerify. A plan with replica updates is reported complete exactly if it was fully
      applied, the dead nodes are decommissioned and no range is unavailable. */
  method Conclude(plan: Plan, nodes: seq<Status>, decommissioned: seq<bool>, rangesAvailable: bool)
    returns (v: Verdict, diff: ClusterDiff)
    requires Distinct(nodes)
    ensures diff.Valid() && v == VerdictOf(plan, nodes, decommissioned, rangesAvailable)
    ensures plan.updates != [] ==>
              (v == Complete <==> FullyApplied(plan, nodes) && rangesAvailable && false !in decommissioned)
    ensures v == NotFinished <==>
              && plan.updates != []
              && (false in decommissioned ||
                  exists s :: s in nodes && s.node in Named(plan) && s.applied != Some(plan.id) && s.pending == Some(plan.id))
    ensures v == NotFullySucceeded <==>
              plan.updates != [] && v != NotFinished && (!rangesAvailable || SomethingWrong(plan, nodes))
    ensures v == Unhealthy <==>
              plan.updates == [] && (!rangesAvailable || (plan.stale != [] && SomethingWrong(plan, nodes)))
  {
    diff := DiffPlanWithNodeStatus(plan, nodes);
    NamedOrNot(plan);
    WrongIsNotErrorFree(plan, nodes);
    WaitingOrNot(plan, nodes);
    InOrderIff(plan.id, Named(plan), nodes);
    var allDecommissioned := AllDecommissioned(decommissioned);
    if |plan.updates| > 0 {
      if !allDecommissioned || diff.pending > 0 {
        return NotFinished, diff;
      }
      if diff.errors > 0 || !rangesAvailable {
        return NotFullySucceeded, diff;
      }
    } else if diff.errors > 0 || !rangesAvailable {
      return Unhealthy, diff;
    }
    return Complete, diff;
  }

  /** When a plan that was not fully applied passes: there are no replica updates, ranges are available, and
      either no node is named but some node has a plan staged, or nothing went wrong but a named stale
      leaseholder still has the plan pending. */
  lemma CompleteThoughNotApplied(plan: Plan, nodes: seq<Status>, decommissioned: seq<bool>, rangesAvailable: bool)
    ensures VerdictOf(plan, nodes, decommissioned, rangesAvailable) == Complete && !FullyApplied(plan, nodes) <==>
            && plan.updates == [] && rangesAvailable
            && if plan.stale == [] then exists s :: s in nodes && s.pending.Some?
               else ErrorFree(plan, nodes) && !NoneWaiting(plan.id, Named(plan), nodes)
  {
    NamedOrNot(plan);
    InOrderIff(plan.id, Named(plan), nodes);
    if Named(plan) == {} {
      assert forall s: Status :: s in nodes ==> (InOrder(plan.id, s.node in Named(plan), s) <==> s.pending == None);
    }
  }

  /** Plan 7 asks node 1 to drop a stale lease; node 1 has it staged but not applied, and a dead node is not
      decommissioned. The verdict is that all is well. */
  lemma PendingStaleLeaseholderPasses()
    ensures var plan, nodes := Plan(7, [], [1]), [Status(1, Some(7), None, "")];
            VerdictOf(plan, nodes, [false], true) == Complete && !FullyApplied(plan, nodes)
  {
    var plan, s := Plan(7, [], [1]), Status(1, Some(7), None, "");
    var nodes := [s];
    assert Named(plan) == {1};
    assert nodes[0].node in Reporting(nodes);
    assert s in nodes && !InOrder(7, true, s);
  }
}
