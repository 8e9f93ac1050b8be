/** Grow: splitting the investigated claims, binding compiled nodes to them, and the write plan. */
module GrowBinding {
  import opened Wrappers
  import opened DistinctItems

  /** `Other` stands for every decision that is not written directly (duplicate, defer, unknown). */
  datatype Decision = NewMemory | SourceOnly | Evolve | Enrich | Contradicts | Supersedes | Delete | Other

  datatype Claim = Claim(id: string, decision: Decision, targets: seq<string>, decisionId: string)

  datatype Error =
    | NewMemoryTargetForbidden | SourceOnlyTargetForbidden | TargetRequired | EvolveSingleTarget | SingleTarget
    | EvolveNotHydrated | NotHydrated | DecisionInvalid | BindingMissing | BindingIncomplete | NothingBound

  predicate Direct(d: Decision) { d != Other }

  predicate Maintenance(d: Decision) { d == Supersedes || d == Delete }

  predicate Creates(d: Decision) { d == NewMemory || d == SourceOnly }

  // ----- Compile now, or leave to maintenance

  predicate HasMaterial(claims: seq<Claim>) {
    exists i :: 0 <= i < |claims| && Direct(claims[i].decision) && !Maintenance(claims[i].decision)
  }

  predicate CompilesNow(c: Claim, material: bool) {
    Direct(c.decision) && !(material && Maintenance(c.decision))
  }

  predicate TargetsAllowed(c: Claim, hydrated: set<string>) {
    if Creates(c.decision) then c.targets == [] else |c.targets| == 1 && c.targets[0] in hydrated
  }

  function TargetError(c: Claim, hydrated: set<string>): Error {
    match c.decision
    case NewMemory => NewMemoryTargetForbidden
    case SourceOnly => SourceOnlyTargetForbidden
    case Evolve => if |c.targets| != 1 then EvolveSingleTarget else EvolveNotHydrated
    case _ => if |c.targets| != 1 then SingleTarget else NotHydrated
  }

  function Compiled(claims: seq<Claim>, material: bool): seq<Claim> {
    if claims == [] then []
    else
      var n := |claims| - 1;
      var rest := Compiled(claims[..n], material);
      if CompilesNow(claims[n], material) then rest + [claims[n]] else rest
  }

  predicate FirstForbidden(claims: seq<Claim>, hydrated: set<string>, i: nat) {
    && i < |claims| && CompilesNow(claims[i], HasMaterial(claims)) && !TargetsAllowed(claims[i], hydrated)
    && forall j :: 0 <= j < i && CompilesNow(claims[j], HasMaterial(claims)) ==> TargetsAllowed(claims[j], hydrated)
  }

  /** `_grow_v3_direct_compiler_claims`: all claims to compile, or the first error. */
  method DirectClaims(claims: seq<Claim>, hydrated: set<string>) returns (r: Result<seq<Claim>, Error>)
    ensures r.Ok? <==> forall i :: 0 <= i < |claims| && CompilesNow(claims[i], HasMaterial(claims)) ==>
        TargetsAllowed(claims[i], hydrated)
    ensures r.Ok? ==> r.value == Compiled(claims, HasMaterial(claims))
    ensures r.Err? ==>
        exists i: nat :: FirstForbidden(claims, hydrated, i) && r.error == TargetError(claims[i], hydrated)
  {
    var material := HasMaterial(claims);
    var direct: seq<Claim> := [];
    for i := 0 to |claims|
      invariant direct == Compiled(claims[..i], material)
      invariant forall j :: 0 <= j < i && CompilesNow(claims[j], material) ==> TargetsAllowed(claims[j], hydrated)
    {
      assert claims[..i + 1][..i] == claims[..i];
      if CompilesNow(claims[i], material) {
        if !TargetsAllowed(claims[i], hydrated) {
          assert FirstForbidden(claims, hydrated, i);
          return Err(TargetError(claims[i], hydrated));
        }
        direct := direct + [claims[i]];
      }
    }
    assert claims[..|claims|] == claims;
    r := Ok(direct);
  }

  lemma {:induction false} CompiledExactly(claims: seq<Claim>, material: bool, c: Claim)
    ensures multiset(Compiled(claims, material))[c] == if CompilesNow(c, material) then multiset(claims)[c] else 0
    ensures c in Compiled(claims, material) <==> c in claims && CompilesNow(c, material)
  {
    if claims != [] {
      var n := |claims| - 1;
      hide CompilesNow;
      CompiledExactly(claims[..n], material, c);
      CountAppended(Compiled(claims[..n], material), claims[n], c);
      CountAppended(claims[..n], claims[n], c);
      assert claims == claims[..n] + [claims[n]];
    }
  }

  lemma {:induction false} CountAppended(a: seq<Claim>, b: Claim, c: Claim)
    ensures multiset(a + [b])[c] == multiset(a)[c] + if b == c then 1 else 0
    ensures c in a + [b] <==> c in a || c == b
  {
  }

  /** The ids handed to maintenance: set-aside decisions whose id no compiled claim has. */
  function Deferred(claims: seq<Claim>, compiled: seq<Claim>): set<string> {
    set i | 0 <= i < |claims| && claims[i].id != "" && Maintenance(claims[i].decision)
            && (forall k :: 0 <= k < |compiled| ==> compiled[k].id != claims[i].id) :: claims[i].id
  }

  /** A claim set aside reaches maintenance exactly when its id is not blank and not shared with
      a compiled claim; otherwise it is lost. */
  lemma {:induction false} SetAsideIsDeferredIff(claims: seq<Claim>, c: Claim)
    requires c in claims && Direct(c.decision) && !CompilesNow(c, HasMaterial(claims))
    ensures var compiled := Compiled(claims, HasMaterial(claims));
      c.id in Deferred(claims, compiled) <==> c.id != "" && forall d :: d in compiled ==> d.id != c.id
  {
    var compiled := Compiled(claims, HasMaterial(claims));
    assert forall k :: 0 <= k < |compiled| ==> compiled[k] in compiled;
  }

  /** Claims of one id carry one decision. */
  ghost predicate OneDecision(claims: seq<Claim>) {
    forall i, j :: 0 <= i < |claims| && 0 <= j < |claims| && claims[i].id == claims[j].id ==>
        claims[i].decision == claims[j].decision
  }

  /** Then, unless its id is blank, every direct claim is compiled or deferred, never both. */
  lemma {:induction false} CompiledXorDeferred(claims: seq<Claim>, c: Claim)
    requires OneDecision(claims) && c in claims && c.id != "" && Direct(c.decision)
    ensures var compiled := Compiled(claims, HasMaterial(claims));
      c in compiled <==> c.id !in Deferred(claims, compiled)
  {
    var material := HasMaterial(claims);
    var compiled := Compiled(claims, material);
    CompiledExactly(claims, material, c);
    if c !in compiled {
      forall d | d in compiled ensures d.id != c.id { CompiledExactly(claims, material, d); }
      SetAsideIsDeferredIff(claims, c);
    }
  }

  // ----- Where the claims come from

  /** What the investigation decided about one claim. */
  datatype Ruling = Ruling(claimId: string, decision: Decision, deferred: bool, targets: seq<string>,
      decisionId: string)

  /** The rulings by claim id; a later one replaces an earlier one. */
  function RulingsById(rulings: seq<Ruling>): (m: map<string, Ruling>)
    ensures forall id :: id in m ==> m[id].claimId == id && m[id] in rulings
    ensures forall r :: r in rulings ==> r.claimId in m
  {
    if rulings == [] then map[]
    else
      var n := |rulings| - 1;
      assert rulings == rulings[..n] + [rulings[n]];
      RulingsById(rulings[..n])[rulings[n].claimId := rulings[n]]
  }

  function ClaimUnder(id: string, m: map<string, Ruling>): seq<Claim> {
    if id in m && !m[id].deferred then [Claim(id, m[id].decision, m[id].targets, m[id].decisionId)] else []
  }

  /** The claims handed to the compiler: those with a ruling that does not defer them. */
  function CompilerClaims(ids: seq<string>, m: map<string, Ruling>): seq<Claim> {
    if ids == [] then []
    else CompilerClaims(ids[..|ids| - 1], m) + ClaimUnder(ids[|ids| - 1], m)
  }

  /** `_compiler_claims` of the investigator. */
  method ProduceClaims(ids: seq<string>, rulings: seq<Ruling>) returns (claims: seq<Claim>)
    ensures claims == CompilerClaims(ids, RulingsById(rulings))
  {
    var m: map<string, Ruling> := map[];
    for i := 0 to |rulings|
      invariant m == RulingsById(rulings[..i])
    {
      assert rulings[..i + 1][..i] == rulings[..i];
      m := m[rulings[i].claimId := rulings[i]];
    }
    assert rulings[..|rulings|] == rulings;
    claims := [];
    for i := 0 to |ids|
      invariant claims == CompilerClaims(ids[..i], m)
    {
      ClaimsStep(ids, m, i);
      if ids[i] in m && !m[ids[i]].deferred {
        claims := claims + [Claim(ids[i], m[ids[i]].decision, m[ids[i]].targets, m[ids[i]].decisionId)];
      }
    }
    assert ids[..|ids|] == ids;
  }

  lemma {:induction false} ClaimsStep(ids: seq<string>, m: map<string, Ruling>, i: nat)
    requires i < |ids|
    ensures CompilerClaims(ids[..i + 1], m) == CompilerClaims(ids[..i], m) + ClaimUnder(ids[i], m)
  {
    assert ids[..i + 1][..i] == ids[..i];
  }

  lemma {:induction false} ProducedExactly(ids: seq<string>, m: map<string, Ruling>, c: Claim)
    ensures c in CompilerClaims(ids, m) <==> c.id in ids && ClaimUnder(c.id, m) == [c]
  {
    if ids != [] {
      var n := |ids| - 1;
      ProducedExactly(ids[..n], m, c);
      assert ids == ids[..n] + [ids[n]];
    }
  }

  /** Of the claims the investigation produces, none is lost between compilation and
      maintenance, and none goes to both. */
  lemma {:induction false} ProducedXorDeferred(ids: seq<string>, rulings: seq<Ruling>, c: Claim)
    requires "" !in ids
    ensures var claims := CompilerClaims(ids, RulingsById(rulings));
            var compiled := Compiled(claims, HasMaterial(claims));
            c in claims && Direct(c.decision) ==> (c in compiled <==> c.id !in Deferred(claims, compiled))
  {
    var m := RulingsById(rulings);
    var claims := CompilerClaims(ids, m);
    forall i, j | 0 <= i < |claims| && 0 <= j < |claims| && claims[i].id == claims[j].id
      ensures claims[i].decision == claims[j].decision
    {
      ProducedExactly(ids, m, claims[i]);
      ProducedExactly(ids, m, claims[j]);
      assert [claims[i]] == [claims[j]];
    }
    if c in claims && Direct(c.decision) {
      ProducedExactly(ids, m, c);
      CompiledXorDeferred(claims, c);
    }
  }

  // ----- What a decision turns into

  datatype Kind = CreateFact | UpdateFact | EvolveFact | MarkContradiction | SupersedeMemory | DeleteFact

  datatype Link = NoLink | Enriches | ContradictsLink | SupersedesLink

  datatype Act = Act(kind: Kind, relation: Link, highImpact: bool)

  /** `_grow_v3_materialized_action`. */
  function Action(d: Decision, targets: seq<string>): (r: Result<Act, Error>)
    ensures r.Ok? <==> Direct(d) && if Creates(d) then targets == [] else |targets| == 1
    ensures r.Err? ==> r.error !in {BindingMissing, BindingIncomplete, NothingBound}
    ensures r.Ok? ==> (r.value.highImpact <==> d in {Evolve, Contradicts, Supersedes, Delete})
  {
    if d == Other then Err(DecisionInvalid)
    else if Creates(d) && targets != [] then
      Err(if d == NewMemory then NewMemoryTargetForbidden else SourceOnlyTargetForbidden)
    else if !Creates(d) && targets == [] then Err(TargetRequired)
    else if d == Evolve && |targets| != 1 then Err(EvolveSingleTarget)
    else if !Creates(d) && |targets| != 1 then Err(SingleTarget)
    else
      match d
      case Enrich => Ok(Act(UpdateFact, Enriches, false))
      case Evolve => Ok(Act(EvolveFact, NoLink, true))
      case Contradicts => Ok(Act(MarkContradiction, ContradictsLink, true))
      case Supersedes => Ok(Act(SupersedeMemory, SupersedesLink, true))
      case Delete => Ok(Act(DeleteFact, NoLink, true))
      case _ => Ok(Act(CreateFact, NoLink, false))
  }

  /** The split's target check implies the later action check. */
  lemma {:induction false} CompiledPassAction(claims: seq<Claim>, hydrated: set<string>, c: Claim)
    requires forall i :: 0 <= i < |claims| && CompilesNow(claims[i], HasMaterial(claims)) ==>
        TargetsAllowed(claims[i], hydrated)
    requires c in Compiled(claims, HasMaterial(claims))
    ensures Action(c.decision, c.targets).Ok?
  {
    CompiledExactly(claims, HasMaterial(claims), c);
  }

  // ----- Binding nodes to claims

  /** A compiled node. `decision` and `targets` are what the compiler itself put there. */
  datatype Node = Node(
    id: string, claimId: string, sourceUnitId: string, structural: bool,
    decision: Decision, targets: seq<string>, selectedByDefault: bool)

  datatype Entry = ClaimNode(node: Node, claim: Claim, act: Act, selected: bool) | StructureNode(node: Node)

  datatype Suppression = Suppression(previewId: string, claimId: string, decisionId: string)

  /** The claims that may be bound, by id; a later claim replaces an earlier one. */
  function Table(claims: seq<Claim>): (t: map<string, Claim>)
    ensures forall id :: id in t ==> t[id].id == id && t[id] in claims && Direct(t[id].decision)
    ensures forall i :: 0 <= i < |claims| && Direct(claims[i].decision) ==> claims[i].id in t
  {
    if claims == [] then map[]
    else
      var n := |claims| - 1;
      var t := Table(claims[..n]);
      assert forall i :: 0 <= i < n ==> claims[..n][i] == claims[i];
      if Direct(claims[n].decision) then t[claims[n].id := claims[n]] else t
  }

  lemma {:induction false} TableHoldsLast(claims: seq<Claim>, i: nat)
    requires i < |claims| && Direct(claims[i].decision)
    requires forall j :: i < j < |claims| && Direct(claims[j].decision) ==> claims[j].id != claims[i].id
    ensures Table(claims)[claims[i].id] == claims[i]
  {
    hide Table;
    var n := |claims| - 1;
    var front := claims[..n];
    TableStep(claims);
    if i < n {
      assert front[i] == claims[i];
      forall j | i < j < |front| && Direct(front[j].decision) ensures front[j].id != front[i].id {
        assert front[j] == claims[j];
      }
      TableHoldsLast(front, i);
      assert Direct(claims[n].decision) ==> claims[n].id != claims[i].id;
    }
  }

  lemma {:induction false} TableStep(claims: seq<Claim>)
    requires claims != []
    ensures var n := |claims| - 1;
      Table(claims) == if Direct(claims[n].decision) then Table(claims[..n])[claims[n].id := claims[n]]
          else Table(claims[..n])
  {
  }

  ghost predicate ValidTable(t: map<string, Claim>) {
    forall id :: id in t ==> t[id].id == id && Direct(t[id].decision)
  }

  /** The claim id a node is looked up under: its own, else its source unit's, else the blank one. */
  function Key(node: Node, t: map<string, Claim>): string {
    if node.claimId != "" && node.claimId in t then node.claimId
    else if node.sourceUnitId != "" && node.sourceUnitId in t then node.sourceUnitId
    else ""
  }

  predicate Claimed(node: Node, t: map<string, Claim>) { Key(node, t) in t }

  predicate First(nodes: seq<Node>, t: map<string, Claim>, i: nat)
    requires i < |nodes|
  {
    forall j :: 0 <= j < i ==> Key(nodes[j], t) != Key(nodes[i], t) || !Claimed(nodes[j], t)
  }

  predicate Keeps(nodes: seq<Node>, t: map<string, Claim>, i: nat)
    requires i < |nodes|
  {
    Claimed(nodes[i], t) ==> First(nodes, t, i)
  }

  predicate NodeFits(nodes: seq<Node>, t: map<string, Claim>, i: nat)
    requires i < |nodes|
  {
    if Claimed(nodes[i], t)
    then First(nodes, t, i) ==> ActionOf(nodes[i], t).Ok?
    else nodes[i].structural
  }

  /** The action a claimed node is bound with. */
  function ActionOf(node: Node, t: map<string, Claim>): Result<Act, Error>
    requires Claimed(node, t)
  {
    Action(t[Key(node, t)].decision, t[Key(node, t)].targets)
  }

  function Bound(node: Node, t: map<string, Claim>): Entry {
    if !Claimed(node, t) then StructureNode(node)
    else
      var claim := t[Key(node, t)];
      match Action(claim.decision, claim.targets)
      case Ok(act) => ClaimNode(node, claim, act, !act.highImpact && node.selectedByDefault)
      case Err(_) => StructureNode(node)
  }

  function BoundOf(nodes: seq<Node>, t: map<string, Claim>, n: nat): seq<Entry>
    requires n <= |nodes|
  {
    if n == 0 then []
    else
      var rest := BoundOf(nodes, t, n - 1);
      if Keeps(nodes, t, n - 1) then rest + [Bound(nodes[n - 1], t)] else rest
  }

  function SuppressedOf(nodes: seq<Node>, t: map<string, Claim>, n: nat): seq<Suppression>
    requires n <= |nodes|
  {
    if n == 0 then []
    else
      var node := nodes[n - 1];
      SuppressedOf(nodes, t, n - 1)
      + if Keeps(nodes, t, n - 1) then [] else [Suppression(node.id, Key(node, t), t[Key(node, t)].decisionId)]
  }

  predicate StructureReported(node: Node) {
    Direct(node.decision) ==> Action(node.decision, node.targets).Ok?
  }

  predicate AllFit(nodes: seq<Node>, t: map<string, Claim>) {
    forall i: nat :: i < |nodes| ==> NodeFits(nodes, t, i)
  }

  predicate AllNamed(nodes: seq<Node>, t: map<string, Claim>) {
    forall id :: id in t ==> exists i :: 0 <= i < |nodes| && Key(nodes[i], t) == id
  }

  /** Node `i` names no claim and is not structural, and nothing before it fails. */
  predicate FirstUnclaimed(nodes: seq<Node>, t: map<string, Claim>, i: nat) {
    && i < |nodes| && !Claimed(nodes[i], t) && !nodes[i].structural
    && forall j: nat :: j < i ==> NodeFits(nodes, t, j)
  }

  /** Node `i` is the first for its claim, whose action is refused, and nothing before it fails. */
  predicate FirstIllegal(nodes: seq<Node>, t: map<string, Claim>, i: nat) {
    && i < |nodes| && Claimed(nodes[i], t) && First(nodes, t, i) && ActionOf(nodes[i], t).Err?
    && forall j: nat :: j < i ==> NodeFits(nodes, t, j)
  }

  /** Node `i` is the first structural one whose own decision is refused. */
  predicate FirstMisreported(nodes: seq<Node>, t: map<string, Claim>, i: nat) {
    && i < |nodes| && !Claimed(nodes[i], t) && !StructureReported(nodes[i])
    && forall j :: 0 <= j < i && !Claimed(nodes[j], t) ==> StructureReported(nodes[j])
  }

  /** What each error of a binding says. */
  ghost predicate ErrorFits(nodes: seq<Node>, t: map<string, Claim>, e: Error) {
    match e
    case BindingMissing => exists i: nat :: FirstUnclaimed(nodes, t, i)
    case BindingIncomplete => AllFit(nodes, t) && !AllNamed(nodes, t)
    case NothingBound => nodes == [] && AllNamed(nodes, t)
    case _ =>
      || (exists i: nat :: FirstIllegal(nodes, t, i) && ActionOf(nodes[i], t) == Err(e))
      || (AllFit(nodes, t) && AllNamed(nodes, t)
          && exists i: nat :: FirstMisreported(nodes, t, i) && Action(nodes[i].decision, nodes[i].targets) == Err(e))
  }

  /** Every node is bound or structural, every claim has a node, and all the actions are legal. */
  ghost predicate Bindable(nodes: seq<Node>, t: map<string, Claim>) {
    && nodes != []
    && AllFit(nodes, t)
    && AllNamed(nodes, t)
    && (forall i :: 0 <= i < |nodes| && !Claimed(nodes[i], t) ==> StructureReported(nodes[i]))
  }

  // ----- The write plan

  datatype PlannedAct = PlannedAct(
    previewId: string, claimId: string, decision: Decision, kind: Kind, targets: seq<string>, review: bool,
        selected: bool)

  datatype Transition = Transition(previewId: string, kind: Kind, targets: seq<string>, relation: Link)

  datatype Plan = Plan(
    acts: seq<PlannedAct>, transitions: seq<Transition>, mutationChecks: seq<string>,
    structural: nat, createCount: nat, highImpact: nat)

  predicate Sound(e: Entry) { e.ClaimNode? ==> Action(e.claim.decision, e.claim.targets) == Ok(e.act) }

  function ActOf(e: Entry): PlannedAct
    requires e.ClaimNode?
  {
    PlannedAct(e.node.id, e.claim.id, e.claim.decision, e.act.kind, e.claim.targets, e.act.highImpact, e.selected)
  }

  function ClaimEntries(bound: seq<Entry>): (r: seq<Entry>)
    ensures forall k :: 0 <= k < |r| ==> r[k].ClaimNode? && r[k] in bound
  {
    if bound == [] then []
    else
      var n := |bound| - 1;
      ClaimEntries(bound[..n]) + if bound[n].ClaimNode? then [bound[n]] else []
  }

  function Transitions(entries: seq<Entry>): seq<Transition> {
    if entries == [] then []
    else
      var n := |entries| - 1;
      var e := entries[n];
      Transitions(entries[..n])
      + if e.ClaimNode? && e.act.relation != NoLink then
          [Transition(e.node.id, e.act.kind, e.claim.targets, e.act.relation)] else []
  }

  function EvolvedIds(entries: seq<Entry>): seq<string> {
    if entries == [] then []
    else
      var n := |entries| - 1;
      EvolvedIds(entries[..n]) + if entries[n].ClaimNode? && entries[n].claim.decision == Evolve then
          [entries[n].node.id] else []
  }

  function Reviews(acts: seq<PlannedAct>): nat {
    if acts == [] then 0 else Reviews(acts[..|acts| - 1]) + if acts[|acts| - 1].review then 1 else 0
  }

  /** One act per claim node, in order; everything else in the bundle is structure. */
  ghost predicate PlanFits(p: Plan, bound: seq<Entry>) {
    && |p.acts| == |ClaimEntries(bound)|
    && (forall k :: 0 <= k < |p.acts| ==> p.acts[k] == ActOf(ClaimEntries(bound)[k]))
    && |p.acts| + p.structural == p.createCount == |bound|
    && p.transitions == Transitions(bound)
    && p.mutationChecks == EvolvedIds(bound)
    && p.highImpact == Reviews(p.acts)
  }

  /** `_grow_v3_cognitive_write_plan`. */
  method WritePlan(bound: seq<Entry>) returns (p: Plan)
    requires forall k :: 0 <= k < |bound| ==> Sound(bound[k])
    ensures PlanFits(p, bound)
  {
    var acts: seq<PlannedAct>, transitions: seq<Transition>, checks: seq<string>, structural := [], [], [], 0;
    for i := 0 to |bound|
      invariant |acts| == |ClaimEntries(bound[..i])| && |acts| + structural == i
      invariant forall k :: 0 <= k < |acts| ==> acts[k] == ActOf(ClaimEntries(bound[..i])[k])
      invariant transitions == Transitions(bound[..i]) && checks == EvolvedIds(bound[..i])
    {
      var e := bound[i];
      assert bound[..i + 1][..i] == bound[..i];
      match e
      case StructureNode(_) =>
        structural := structural + 1;
      case ClaimNode(node, claim, act, selected) =>
        var action := Action(claim.decision, claim.targets).value;
        acts := acts + [PlannedAct(node.id, claim.id, claim.decision, action.kind, claim.targets, action.highImpact,
            selected)];
        if action.relation != NoLink {
          transitions := transitions + [Transition(node.id, action.kind, claim.targets, action.relation)];
        }
        if claim.decision == Evolve {
          checks := checks + [node.id];
        }
    }
    assert bound[..|bound|] == bound;
    var high := CountReviews(acts);
    p := Plan(acts, transitions, checks, structural, |acts| + structural, high);
  }

  method CountReviews(acts: seq<PlannedAct>) returns (n: nat)
    ensures n == Reviews(acts)
  {
    n := 0;
    for k := 0 to |acts|
      invariant n == Reviews(acts[..k])
    {
      assert acts[..k + 1][..k] == acts[..k];
      if acts[k].review {
        n := n + 1;
      }
    }
    assert acts[..|acts|] == acts;
  }

  /** The entries the authority record reports: a structural node that carries a decision of the
      compiler's own is reported too. */
  predicate Reported(e: Entry) {
    match e case ClaimNode(_, claim, _, _) => true case StructureNode(node) => Direct(node.decision)
  }

  function ReportedCount(bound: seq<Entry>): nat {
    if bound == [] then 0 else ReportedCount(bound[..|bound| - 1]) + if Reported(bound[|bound| - 1]) then 1 else 0
  }

  /** The two structural counts, reported and planned, agree exactly when no structural node
      carries a decision of its own. */
  lemma {:induction false} CountsAgreeIff(bound: seq<Entry>)
    ensures ReportedCount(bound) >= |ClaimEntries(bound)|
    ensures ReportedCount(bound) == |ClaimEntries(bound)|
      <==> forall k :: 0 <= k < |bound| && bound[k].StructureNode? ==> !Direct(bound[k].node.decision)
  {
    if bound != [] {
      var n := |bound| - 1;
      CountsAgreeIff(bound[..n]);
      assert forall k :: 0 <= k < n ==> bound[..n][k] == bound[k];
      assert Reported(bound[n]) <==> bound[n].ClaimNode? || Direct(bound[n].node.decision);
    }
  }

  datatype Preview = Preview(bound: seq<Entry>, suppressed: seq<Suppression>, reportedStructural: nat, plan: Plan)

  /** `_bind_grow_v3_preview_to_claims`. */
  method Bind(nodes: seq<Node>, claims: seq<Claim>) returns (r: Result<Preview, Error>)
    ensures r.Ok? <==> Bindable(nodes, Table(claims))
    ensures r.Ok? ==> r.value.bound == BoundOf(nodes, Table(claims), |nodes|)
    ensures r.Ok? ==> r.value.suppressed == SuppressedOf(nodes, Table(claims), |nodes|)
    ensures r.Ok? ==> PlanFits(r.value.plan, r.value.bound)
    ensures r.Ok? ==> r.value.reportedStructural == |r.value.bound| - ReportedCount(r.value.bound)
    ensures r == Err(BindingMissing) <==> exists i: nat :: FirstUnclaimed(nodes, Table(claims), i)
    ensures r == Err(BindingIncomplete) <==> AllFit(nodes, Table(claims)) && !AllNamed(nodes, Table(claims))
    ensures r.Err? ==> ErrorFits(nodes, Table(claims), r.error)
  {
    hide Bindable, PlanFits, Table, Action, Key, ErrorFits, FirstUnclaimed;
    var t := BuildTable(claims);
    var bound: seq<Entry>, suppressed: seq<Suppression> := [], [];
    var used: set<string>, unused := {}, t.Keys;
    for i := 0 to |nodes|
      invariant bound == BoundOf(nodes, t, i) && suppressed == SuppressedOf(nodes, t, i)
      invariant forall id :: id in used <==> id in t && exists j :: 0 <= j < i && Key(nodes[j], t) == id
      invariant unused == t.Keys - used
      invariant forall j: nat :: j < i ==> NodeFits(nodes, t, j)
    {
      var node := nodes[i];
      var key := Key(node, t);
      if key !in t {
        if !node.structural {
          StopsUnclaimed(nodes, t, i);
          return Err(BindingMissing);
        }
        bound := bound + [StructureNode(node)];
      } else if key in used {
        suppressed := suppressed + [Suppression(node.id, key, t[key].decisionId)];
      } else {
        var action := Action(t[key].decision, t[key].targets);
        if action.Err? {
          StopsIllegal(nodes, t, i);
          return Err(action.error);
        }
        used := used + {key};
        unused := unused - {key};
        bound := bound + [ClaimNode(node, t[key], action.value, !action.value.highImpact && node.selectedByDefault)];
      }
    }
    AllFitFacts(nodes, t);
    if unused != {} {
      return Err(BindingIncomplete);
    }
    assert AllNamed(nodes, t);
    r := Seal(nodes, t, bound, suppressed);
  }

  /** What is known when the loop stops at a node that names no claim. */
  lemma {:induction false} StopsUnclaimed(nodes: seq<Node>, t: map<string, Claim>, i: nat)
    requires i < |nodes| && !Claimed(nodes[i], t) && !nodes[i].structural && forall j: nat :: j < i ==>
        NodeFits(nodes, t, j)
    ensures !AllFit(nodes, t) && !Bindable(nodes, t)
    ensures FirstUnclaimed(nodes, t, i) && ErrorFits(nodes, t, BindingMissing)
  {
    assert !NodeFits(nodes, t, i) && FirstUnclaimed(nodes, t, i);
  }

  /** What is known when the loop stops at a refused action. */
  lemma {:induction false} StopsIllegal(nodes: seq<Node>, t: map<string, Claim>, i: nat)
    requires i < |nodes| && Claimed(nodes[i], t) && First(nodes, t, i) && ActionOf(nodes[i], t).Err?
    requires forall j: nat :: j < i ==> NodeFits(nodes, t, j)
    ensures !AllFit(nodes, t) && !Bindable(nodes, t) && !(exists j: nat :: FirstUnclaimed(nodes, t, j))
    ensures ErrorFits(nodes, t, ActionOf(nodes[i], t).error)
  {
    assert !NodeFits(nodes, t, i);
    assert forall j: nat :: FirstUnclaimed(nodes, t, j) ==> !NodeFits(nodes, t, j);
    assert FirstIllegal(nodes, t, i);
  }

  /** What is known when every node fits. */
  lemma {:induction false} AllFitFacts(nodes: seq<Node>, t: map<string, Claim>)
    requires AllFit(nodes, t)
    ensures !(exists j: nat :: FirstUnclaimed(nodes, t, j))
    ensures !AllNamed(nodes, t) ==> !Bindable(nodes, t) && ErrorFits(nodes, t, BindingIncomplete)
  {
    assert forall j: nat :: FirstUnclaimed(nodes, t, j) ==> !NodeFits(nodes, t, j);
  }

  method BuildTable(claims: seq<Claim>) returns (t: map<string, Claim>)
    ensures t == Table(claims)
  {
    t := map[];
    for i := 0 to |claims|
      invariant t == Table(claims[..i])
    {
      assert claims[..i + 1][..i] == claims[..i];
      if Direct(claims[i].decision) {
        t := t[claims[i].id := claims[i]];
      }
    }
    assert claims[..|claims|] == claims;
  }

  /** The authority record and the write plan over the bound nodes. */
  method Seal(ghost nodes: seq<Node>, ghost t: map<string, Claim>, bound: seq<Entry>, suppressed: seq<Suppression>)
    returns (r: Result<Preview, Error>)
    requires AllFit(nodes, t) && AllNamed(nodes, t) && bound == BoundOf(nodes, t, |nodes|)
    ensures r.Ok? <==> Bindable(nodes, t)
    ensures r.Ok? ==> r.value.bound == bound && r.value.suppressed == suppressed && PlanFits(r.value.plan, bound)
    ensures r.Ok? ==> r.value.reportedStructural == |bound| - ReportedCount(bound)
    ensures r.Err? ==> r.error != BindingMissing && r.error != BindingIncomplete && ErrorFits(nodes, t, r.error)
  {
    hide Keeps, Action, Bound, Key, Claimed, NodeFits, Sound;
    StructureReportedIff(nodes, t);
    if bound == [] {
      FirstIsKept(nodes, t);
      return Err(NothingBound);
    }
    var reported := 0;
    for k := 0 to |bound|
      invariant reported == ReportedCount(bound[..k]) && reported <= k
      invariant forall j :: 0 <= j < k && Reported(bound[j]) ==> EntryAction(bound[j]).Ok?
    {
      assert bound[..k + 1][..k] == bound[..k];
      if Reported(bound[k]) {
        var action := EntryAction(bound[k]);
        if action.Err? {
          ghost var i := MisreportedNode(nodes, t, k);
          return Err(action.error);
        }
        reported := reported + 1;
      }
    }
    assert bound[..|bound|] == bound;
    EntriesSound(nodes, t);
    var plan := WritePlan(bound);
    r := Ok(Preview(bound, suppressed, |bound| - reported, plan));
  }

  lemma {:induction false} FirstIsKept(nodes: seq<Node>, t: map<string, Claim>)
    ensures nodes != [] ==> BoundOf(nodes, t, |nodes|) != []
  {
    var kept := KeptInOrder(nodes, t, |nodes|);
    assert nodes != [] ==> Keeps(nodes, t, 0);
  }

  function EntryAction(e: Entry): Result<Act, Error> {
    match e
    case ClaimNode(_, claim, _, _) => Action(claim.decision, claim.targets)
    case StructureNode(node) => Action(node.decision, node.targets)
  }

  // ----- What a successful binding is

  /** `kept` lists, in order, the nodes below `n` that are kept, and each is bound at its place. */
  ghost predicate IsKept(nodes: seq<Node>, t: map<string, Claim>, n: nat, kept: seq<nat>)
    requires n <= |nodes|
  {
    && |kept| == |BoundOf(nodes, t, n)|
    && (forall k :: 0 <= k < |kept| ==> kept[k] < n && Keeps(nodes, t, kept[k]))
    && (forall k :: 0 <= k < |kept| ==> BoundOf(nodes, t, n)[k] == Bound(nodes[kept[k]], t))
    && (forall k, l :: 0 <= k < l < |kept| ==> kept[k] < kept[l])
    && (forall i: nat :: i < n && Keeps(nodes, t, i) ==> i in kept)
  }

  /** The bound nodes are exactly the kept ones, each bound once, in the order given. */
  lemma {:induction false} KeptInOrder(nodes: seq<Node>, t: map<string, Claim>, n: nat) returns (kept: seq<nat>)
    requires n <= |nodes|
    ensures IsKept(nodes, t, n, kept)
  {
    hide IsKept, Keeps, BoundOf;
    if n == 0 {
      kept := KeptNone(nodes, t);
    } else {
      kept := KeptInOrder(nodes, t, n - 1);
      if Keeps(nodes, t, n - 1) {
        KeptGrows(nodes, t, n - 1, kept);
        kept := kept + [n - 1];
      } else {
        KeptStays(nodes, t, n - 1, kept);
      }
    }
  }

  lemma {:induction false} KeptNone(nodes: seq<Node>, t: map<string, Claim>) returns (kept: seq<nat>)
    ensures IsKept(nodes, t, 0, kept)
  {
    kept := [];
  }

  lemma {:induction false} KeptGrows(nodes: seq<Node>, t: map<string, Claim>, n: nat, front: seq<nat>)
    requires n < |nodes| && Keeps(nodes, t, n) && IsKept(nodes, t, n, front)
    ensures IsKept(nodes, t, n + 1, front + [n])
  {
    assert BoundOf(nodes, t, n + 1) == BoundOf(nodes, t, n) + [Bound(nodes[n], t)];
    hide Keeps, Bound, BoundOf;
  }

  lemma {:induction false} KeptStays(nodes: seq<Node>, t: map<string, Claim>, n: nat, front: seq<nat>)
    requires n < |nodes| && !Keeps(nodes, t, n) && IsKept(nodes, t, n, front)
    ensures IsKept(nodes, t, n + 1, front)
  {
    assert BoundOf(nodes, t, n + 1) == BoundOf(nodes, t, n);
    hide Keeps, Bound, BoundOf;
  }

  lemma {:induction false} EntriesSound(nodes: seq<Node>, t: map<string, Claim>)
    ensures forall k :: 0 <= k < |BoundOf(nodes, t, |nodes|)| ==> Sound(BoundOf(nodes, t, |nodes|)[k])
  {
    var kept := KeptInOrder(nodes, t, |nodes|);
  }

  lemma {:induction false} StructureReportedIff(nodes: seq<Node>, t: map<string, Claim>)
    requires forall i: nat :: i < |nodes| ==> NodeFits(nodes, t, i)
    ensures var bound := BoundOf(nodes, t, |nodes|);
      (forall k :: 0 <= k < |bound| && Reported(bound[k]) ==> EntryAction(bound[k]).Ok?)
      <==> forall i :: 0 <= i < |nodes| && !Claimed(nodes[i], t) ==> StructureReported(nodes[i])
  {
    var bound := BoundOf(nodes, t, |nodes|);
    var kept := KeptInOrder(nodes, t, |nodes|);
    forall k | 0 <= k < |bound|
      ensures Reported(bound[k]) && EntryAction(bound[k]).Err? ==>
          !Claimed(nodes[kept[k]], t) && !StructureReported(nodes[kept[k]])
    {
      assert NodeFits(nodes, t, kept[k]);
    }
    forall i: nat | i < |nodes| && !Claimed(nodes[i], t) && !StructureReported(nodes[i])
      ensures exists k :: 0 <= k < |bound| && Reported(bound[k]) && EntryAction(bound[k]).Err?
    {
      assert Keeps(nodes, t, i);
      var k :| 0 <= k < |kept| && kept[k] == i;
      assert bound[k] == StructureNode(nodes[i]);
    }
  }

  /** The node behind the first reported entry whose action is refused. */
  lemma {:induction false} MisreportedNode(nodes: seq<Node>, t: map<string, Claim>, k: nat) returns (i: nat)
    requires AllFit(nodes, t) && k < |BoundOf(nodes, t, |nodes|)|
    requires var bound := BoundOf(nodes, t, |nodes|);
      && Reported(bound[k]) && EntryAction(bound[k]).Err?
      && forall j :: 0 <= j < k && Reported(bound[j]) ==> EntryAction(bound[j]).Ok?
    ensures FirstMisreported(nodes, t, i)
    ensures Action(nodes[i].decision, nodes[i].targets) == EntryAction(BoundOf(nodes, t, |nodes|)[k])
  {
    var bound := BoundOf(nodes, t, |nodes|);
    var kept := KeptInOrder(nodes, t, |nodes|);
    i := kept[k];
    assert NodeFits(nodes, t, i);
    forall j: nat | j < i && !Claimed(nodes[j], t) ensures StructureReported(nodes[j]) {
      assert Keeps(nodes, t, j);
      var m :| 0 <= m < |kept| && kept[m] == j;
      assert bound[m] == StructureNode(nodes[j]);
    }
  }

  /** No node is lost: each is bound or recorded as suppressed. */
  lemma {:induction false} NodesConserved(nodes: seq<Node>, t: map<string, Claim>, n: nat)
    requires n <= |nodes|
    ensures |BoundOf(nodes, t, n)| + |SuppressedOf(nodes, t, n)| == n
  {
    if n > 0 { NodesConserved(nodes, t, n - 1); }
  }

  /** A node is suppressed only after an earlier node was bound to the same claim. */
  lemma {:induction false} SuppressedHasEarlier(nodes: seq<Node>, t: map<string, Claim>, n: nat, k: nat)
      returns (i: nat, j: nat)
    requires n <= |nodes| && k < |SuppressedOf(nodes, t, n)|
    ensures j < i < n && Claimed(nodes[i], t) && Key(nodes[j], t) == Key(nodes[i], t) && Keeps(nodes, t, j)
    ensures SuppressedOf(nodes, t, n)[k] == Suppression(nodes[i].id, Key(nodes[i], t), t[Key(nodes[i], t)].decisionId)
  {
    if k < |SuppressedOf(nodes, t, n - 1)| {
      i, j := SuppressedHasEarlier(nodes, t, n - 1, k);
    } else {
      i := n - 1;
      j := EarliestWith(nodes, t, i);
    }
  }

  lemma {:induction false} EarliestWith(nodes: seq<Node>, t: map<string, Claim>, i: nat) returns (j: nat)
    requires i < |nodes| && Claimed(nodes[i], t)
    ensures j <= i && Key(nodes[j], t) == Key(nodes[i], t) && First(nodes, t, j)
  {
    if First(nodes, t, i) {
      j := i;
    } else {
      var m: nat :| m < i && Key(nodes[m], t) == Key(nodes[i], t) && Claimed(nodes[m], t);
      j := EarliestWith(nodes, t, m);
    }
  }

  /** Exactly one claim node for every claim of the table. */
  ghost predicate OneEach(entries: seq<Entry>, t: map<string, Claim>) {
    && (forall k :: 0 <= k < |entries| && entries[k].ClaimNode? ==>
        entries[k].claim.id in t && t[entries[k].claim.id] == entries[k].claim)
    && (forall k, l :: 0 <= k < l < |entries| && entries[k].ClaimNode? && entries[l].ClaimNode? ==>
        entries[k].claim.id != entries[l].claim.id)
    && (forall id :: id in t ==> exists k :: 0 <= k < |entries| && entries[k].ClaimNode? && entries[k].claim == t[id])
  }

  /** Bound claim nodes and eligible claims correspond one to one, and the node bound to a claim
      is the first one that names it. */
  lemma {:induction false} BindingIsBijection(nodes: seq<Node>, t: map<string, Claim>)
    requires ValidTable(t) && Bindable(nodes, t)
    ensures var bound := BoundOf(nodes, t, |nodes|);
      && OneEach(bound, t)
      && forall k :: 0 <= k < |bound| && bound[k].ClaimNode? ==> FirstNamed(nodes, t, bound[k])
  {
    hide BoundOf, Bound, Keeps, First, Key, FirstNamed, NodeFits;
    var bound := BoundOf(nodes, t, |nodes|);
    var kept := KeptInOrder(nodes, t, |nodes|);
    forall k | 0 <= k < |bound| && bound[k].ClaimNode?
      ensures bound[k].claim.id in t && t[bound[k].claim.id] == bound[k].claim && FirstNamed(nodes, t, bound[k])
      ensures bound[k].claim.id == Key(nodes[kept[k]], t)
    {
      ClaimEntryFacts(nodes, t, kept[k], bound[k]);
    }
    forall k, l | 0 <= k < l < |bound| && bound[k].ClaimNode? && bound[l].ClaimNode?
      ensures bound[k].claim.id != bound[l].claim.id
    {
      OnlyFirstKept(nodes, t, kept[k], kept[l]);
    }
    forall id | id in t ensures exists k :: 0 <= k < |bound| && bound[k].ClaimNode? && bound[k].claim == t[id] {
      var i: nat :| i < |nodes| && Key(nodes[i], t) == id;
      var j := EarliestWith(nodes, t, i);
      FirstIsBound(nodes, t, j);
      var k :| 0 <= k < |kept| && kept[k] == j;
      assert bound[k].claim == t[id];
    }
  }

  lemma {:induction false} ClaimEntryFacts(nodes: seq<Node>, t: map<string, Claim>, i: nat, e: Entry)
    requires ValidTable(t) && i < |nodes| && Keeps(nodes, t, i) && e == Bound(nodes[i], t) && e.ClaimNode?
    ensures Claimed(nodes[i], t) && e.claim == t[Key(nodes[i], t)] && e.claim.id == Key(nodes[i], t)
    ensures FirstNamed(nodes, t, e)
  {
    assert First(nodes, t, i);
  }

  lemma {:induction false} OnlyFirstKept(nodes: seq<Node>, t: map<string, Claim>, i: nat, j: nat)
    requires i < j < |nodes| && Claimed(nodes[i], t) && Claimed(nodes[j], t) && Keeps(nodes, t, i) && Keeps(nodes, t, j)
    ensures Key(nodes[i], t) != Key(nodes[j], t)
  {
  }

  lemma {:induction false} FirstIsBound(nodes: seq<Node>, t: map<string, Claim>, j: nat)
    requires j < |nodes| && Claimed(nodes[j], t) && First(nodes, t, j) && NodeFits(nodes, t, j)
    ensures Keeps(nodes, t, j) && Bound(nodes[j], t).ClaimNode? && Bound(nodes[j], t).claim == t[Key(nodes[j], t)]
  {
  }

  ghost predicate FirstNamed(nodes: seq<Node>, t: map<string, Claim>, e: Entry)
    requires e.ClaimNode?
  {
    exists i: nat :: i < |nodes| && nodes[i] == e.node && Key(nodes[i], t) == e.claim.id && First(nodes, t, i)
  }

  /** The plan of a successful binding: one act per eligible claim and no more, acts and structure
      together make up what is created, and whatever needs review is not selected by default. */
  lemma {:induction false} PlanCoversClaims(nodes: seq<Node>, t: map<string, Claim>, p: Plan)
    requires ValidTable(t) && Bindable(nodes, t) && PlanFits(p, BoundOf(nodes, t, |nodes|))
    ensures |p.acts| == |t|
    ensures p.createCount == |nodes| - |SuppressedOf(nodes, t, |nodes|)|
    ensures forall id :: id in t ==>
        exists k :: 0 <= k < |p.acts| && p.acts[k].claimId == id && p.acts[k].decision == t[id].decision
    ensures forall k, l :: 0 <= k < l < |p.acts| ==> p.acts[k].claimId != p.acts[l].claimId
    ensures forall k :: 0 <= k < |p.acts| ==>
        (p.acts[k].review <==> p.acts[k].decision in {Evolve, Contradicts, Supersedes, Delete})
            && (p.acts[k].review ==> !p.acts[k].selected)
  {
    var bound := BoundOf(nodes, t, |nodes|);
    var entries := ClaimEntries(bound);
    BindingIsBijection(nodes, t);
    NodesConserved(nodes, t, |nodes|);
    hide BoundOf, ClaimEntries, Bindable, Reviews, Transitions, EvolvedIds;
    EntriesCover(bound, t);
    ActsCover(p.acts, entries, t);
    PlanReviews(nodes, t, p);
  }

  lemma {:induction false} PlanReviews(nodes: seq<Node>, t: map<string, Claim>, p: Plan)
    requires PlanFits(p, BoundOf(nodes, t, |nodes|))
    ensures forall k :: 0 <= k < |p.acts| ==>
        (p.acts[k].review <==> p.acts[k].decision in {Evolve, Contradicts, Supersedes, Delete})
            && (p.acts[k].review ==> !p.acts[k].selected)
  {
    var bound := BoundOf(nodes, t, |nodes|);
    forall k | 0 <= k < |p.acts|
      ensures (p.acts[k].review <==> p.acts[k].decision in {Evolve, Contradicts, Supersedes, Delete})
      ensures (p.acts[k].review ==> !p.acts[k].selected)
    {
      var e := ClaimEntries(bound)[k];
      var b: nat :| b < |bound| && bound[b] == e;
      ReviewIsNotSelected(nodes, t, b);
    }
  }

  lemma {:induction false} ActsCover(acts: seq<PlannedAct>, entries: seq<Entry>, t: map<string, Claim>)
    requires ValidTable(t) && OneEach(entries, t) && |acts| == |entries|
    requires forall k :: 0 <= k < |acts| ==> entries[k].ClaimNode? && acts[k] == ActOf(entries[k])
    ensures |acts| == |t|
    ensures forall id :: id in t ==>
        exists k :: 0 <= k < |acts| && acts[k].claimId == id && acts[k].decision == t[id].decision
    ensures forall k, l :: 0 <= k < l < |acts| ==> acts[k].claimId != acts[l].claimId
  {
    forall id | id in t
        ensures exists k :: 0 <= k < |acts| && acts[k].claimId == id && acts[k].decision == t[id].decision {
      var k :| 0 <= k < |entries| && entries[k].claim == t[id];
      assert acts[k] == ActOf(entries[k]) && t[t[id].id] == t[id];
    }
    ActCount(acts, t.Keys);
  }

  lemma {:induction false} EntriesCover(bound: seq<Entry>, t: map<string, Claim>)
    requires OneEach(bound, t)
    ensures OneEach(ClaimEntries(bound), t)
  {
    var entries := ClaimEntries(bound);
    var at := ClaimPositions(bound);
    forall k, l | 0 <= k < l < |entries| ensures entries[k].claim.id != entries[l].claim.id {
      assert at[k] < at[l];
    }
    forall id | id in t ensures exists k :: 0 <= k < |entries| && entries[k].ClaimNode? && entries[k].claim == t[id] {
      var b: nat :| b < |bound| && bound[b].ClaimNode? && bound[b].claim == t[id];
      var k :| 0 <= k < |at| && at[k] == b;
      assert entries[k] == bound[b];
    }
  }

  lemma {:induction false} ReviewIsNotSelected(nodes: seq<Node>, t: map<string, Claim>, k: nat)
    requires k < |BoundOf(nodes, t, |nodes|)| && BoundOf(nodes, t, |nodes|)[k].ClaimNode?
    ensures var e := BoundOf(nodes, t, |nodes|)[k];
      (e.act.highImpact <==> e.claim.decision in {Evolve, Contradicts, Supersedes, Delete})
          && (e.act.highImpact ==> !e.selected)
  {
    var kept := KeptInOrder(nodes, t, |nodes|);
  }

  lemma {:induction false} ActCount(acts: seq<PlannedAct>, all: set<string>)
    requires forall k, l :: 0 <= k < l < |acts| ==> acts[k].claimId != acts[l].claimId
    requires forall k :: 0 <= k < |acts| ==> acts[k].claimId in all
    requires forall id :: id in all ==> exists k :: 0 <= k < |acts| && acts[k].claimId == id
    ensures |acts| == |all|
  {
    var ids := seq(|acts|, k requires 0 <= k < |acts| => acts[k].claimId);
    forall id | id in all ensures id in ids {
      var k :| 0 <= k < |acts| && acts[k].claimId == id;
      assert ids[k] == id;
    }
    DistinctSize(ids, all);
  }

  lemma {:induction false} ClaimPositions(bound: seq<Entry>) returns (at: seq<nat>)
    ensures |at| == |ClaimEntries(bound)|
    ensures forall k :: 0 <= k < |at| ==> at[k] < |bound| && bound[at[k]] == ClaimEntries(bound)[k]
    ensures forall k, l :: 0 <= k < l < |at| ==> at[k] < at[l]
    ensures forall i: nat :: i < |bound| && bound[i].ClaimNode? ==> i in at
  {
    if bound == [] {
      at := [];
    } else {
      var n := |bound| - 1;
      at := ClaimPositions(bound[..n]);
      if bound[n].ClaimNode? { at := at + [n]; }
    }
  }

  /** After the split, binding fails only for want of a node or of a claim (or because the
      compiler gave structure an illegal decision of its own): no action is refused. */
  lemma {:induction false} SplitThenBindableIff(claims: seq<Claim>, hydrated: set<string>, nodes: seq<Node>)
    requires forall i :: 0 <= i < |claims| && CompilesNow(claims[i], HasMaterial(claims)) ==>
        TargetsAllowed(claims[i], hydrated)
    ensures var t := Table(Compiled(claims, HasMaterial(claims)));
      Bindable(nodes, t) <==>
        && nodes != []
        && (forall i: nat :: i < |nodes| ==> Claimed(nodes[i], t) || nodes[i].structural)
        && AllNamed(nodes, t)
        && (forall i :: 0 <= i < |nodes| && !Claimed(nodes[i], t) ==> StructureReported(nodes[i]))
  {
    var compiled := Compiled(claims, HasMaterial(claims));
    var t := Table(compiled);
    forall c | c in compiled ensures Action(c.decision, c.targets).Ok? { CompiledPassAction(claims, hydrated, c); }
    assert forall id :: id in t ==> t[id] in compiled;
    assert forall i: nat :: i < |nodes| ==> (NodeFits(nodes, t, i) <==> Claimed(nodes[i], t) || nodes[i].structural);
  }

  /** The node carries the claim's id, as its own or as that of its source unit. */
  predicate Names(node: Node, id: string) {
    id != "" && (node.claimId == id || node.sourceUnitId == id)
  }

  /** Every bound node names its claim exactly when no claim has a blank id. */
  lemma {:induction false} BoundNodesNameIff(nodes: seq<Node>, t: map<string, Claim>)
    requires ValidTable(t) && Bindable(nodes, t)
    ensures var bound := BoundOf(nodes, t, |nodes|);
      (forall k :: 0 <= k < |bound| && bound[k].ClaimNode? ==> Names(bound[k].node, bound[k].claim.id)) <==> "" !in t
  {
    var bound := BoundOf(nodes, t, |nodes|);
    BindingIsBijection(nodes, t);
    forall k | 0 <= k < |bound| && bound[k].ClaimNode? && bound[k].claim.id != ""
      ensures Names(bound[k].node, bound[k].claim.id)
    {
      assert FirstNamed(nodes, t, bound[k]);
    }
    if "" in t {
      var k :| 0 <= k < |bound| && bound[k].ClaimNode? && bound[k].claim == t[""];
      assert !Names(bound[k].node, bound[k].claim.id);
    }
  }

  /** So every node bound to a produced claim names it. */
  lemma {:induction false} ProducedNodesName(ids: seq<string>, rulings: seq<Ruling>, nodes: seq<Node>, k: nat)
    requires "" !in ids
    ensures var claims := CompilerClaims(ids, RulingsById(rulings));
            var t := Table(Compiled(claims, HasMaterial(claims)));
            var bound := BoundOf(nodes, t, |nodes|);
            Bindable(nodes, t) && k < |bound| && bound[k].ClaimNode? ==> Names(bound[k].node, bound[k].claim.id)
  {
    var claims := CompilerClaims(ids, RulingsById(rulings));
    var compiled := Compiled(claims, HasMaterial(claims));
    var t := Table(compiled);
    if "" in t {
      CompiledExactly(claims, HasMaterial(claims), t[""]);
      ProducedExactly(ids, RulingsById(rulings), t[""]);
    }
    hide Table, BoundOf, Bindable;
    if Bindable(nodes, t) { BoundNodesNameIff(nodes, t); }
  }
}
