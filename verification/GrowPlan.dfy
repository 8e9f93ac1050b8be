/** What a grow batch does, decision by decision: which claims are compiled, which node each is bound
    to, and which act and transition it gets in the plan. */
module GrowPlan {
  import opened Wrappers
  import opened GrowBinding

  // ----- Compiling

  predicate NeedsOneTarget(d: Decision) {
    d in {Evolve, Enrich, Contradicts, Supersedes, Delete}
  }

  /** A claim is compiled unless its decision is not a direct one, or it supersedes or deletes in a
      batch where some other direct decision stands. */
  lemma {:induction false} CompiledTells(claims: seq<Claim>, c: Claim)
    ensures c in Compiled(claims, HasMaterial(claims)) <==>
              && c in claims && c.decision != Other
              && (c.decision in {Supersedes, Delete} ==>
                    forall d :: d in claims ==> d.decision in {Supersedes, Delete, Other})
  {
    CompiledExactly(claims, HasMaterial(claims), c);
    if HasMaterial(claims) {
      var i :| 0 <= i < |claims| && Direct(claims[i].decision) && !Maintenance(claims[i].decision);
      assert claims[i] in claims;
    }
  }

  /** A new memory and a source-only claim must name no target, any other direct one exactly one
      that was hydrated; the first claim to compile that does not decides the error. */
  lemma {:induction false} ForbiddenTells(claims: seq<Claim>, hydrated: set<string>, i: nat)
    requires FirstForbidden(claims, hydrated, i)
    ensures claims[i] in Compiled(claims, HasMaterial(claims))
    ensures var c, error := claims[i], TargetError(claims[i], hydrated);
            match c.decision
            case NewMemory => c.targets != [] && error == NewMemoryTargetForbidden
            case SourceOnly => c.targets != [] && error == SourceOnlyTargetForbidden
            case Evolve => if |c.targets| != 1 then error == EvolveSingleTarget
                           else c.targets[0] !in hydrated && error == EvolveNotHydrated
            case Other => false
            case _ => if |c.targets| != 1 then error == SingleTarget
                      else c.targets[0] !in hydrated && error == NotHydrated
  {
    CompiledExactly(claims, HasMaterial(claims), claims[i]);
  }

  lemma {:induction false} AllowedTells(claims: seq<Claim>, hydrated: set<string>, c: Claim)
    requires forall i :: 0 <= i < |claims| && CompilesNow(claims[i], HasMaterial(claims)) ==>
        TargetsAllowed(claims[i], hydrated)
    requires c in Compiled(claims, HasMaterial(claims))
    ensures if NeedsOneTarget(c.decision) then |c.targets| == 1 && c.targets[0] in hydrated else c.targets == []
  {
    CompiledExactly(claims, HasMaterial(claims), c);
  }

  // ----- Where a claim comes from

  /** The claim handed over for an id carries what its last ruling says, and there is one exactly if
      there is a ruling and the last one does not defer. */
  lemma {:induction false} ProducedTells(ids: seq<string>, front: seq<Ruling>, r: Ruling, rest: seq<Ruling>, c: Claim)
    requires r.claimId in ids && c.id == r.claimId && forall q :: q in rest ==> q.claimId != r.claimId
    ensures c in CompilerClaims(ids, RulingsById(front + [r] + rest))
        <==> !r.deferred && c == Claim(r.claimId, r.decision, r.targets, r.decisionId)
  {
    hide CompilerClaims, RulingsById;
    LastRulingHolds(front, r, rest);
    ProducedExactly(ids, RulingsById(front + [r] + rest), c);
  }

  lemma {:induction false} LastRulingHolds(front: seq<Ruling>, r: Ruling, rest: seq<Ruling>)
    requires forall q :: q in rest ==> q.claimId != r.claimId
    ensures var m := RulingsById(front + [r] + rest);
            r.claimId in m && m[r.claimId] == r
  {
    hide RulingsById;
    var all := front + [r] + rest;
    RulingsStep(all);
    if rest == [] {
      assert all == front + [r];
    } else {
      var last := rest[|rest| - 1];
      assert last in rest && all[..|all| - 1] == front + [r] + rest[..|rest| - 1];
      LastRulingHolds(front, r, rest[..|rest| - 1]);
    }
  }

  lemma {:induction false} RulingsStep(rulings: seq<Ruling>)
    requires rulings != []
    ensures var n := |rulings| - 1;
            RulingsById(rulings) == RulingsById(rulings[..n])[rulings[n].claimId := rulings[n]]
  {
  }

  lemma {:induction false} UnruledIsNotProduced(ids: seq<string>, rulings: seq<Ruling>, c: Claim)
    requires forall q :: q in rulings ==> q.claimId != c.id
    ensures c !in CompilerClaims(ids, RulingsById(rulings))
  {
    hide CompilerClaims, RulingsById;
    ProducedExactly(ids, RulingsById(rulings), c);
  }

  // ----- Which claim a node gets

  /** A bound node is bound to the claim it names itself, if that is one of the eligible claims, else
      to the one its source unit names; else to a claim with a blank id. */
  lemma {:induction false} BoundTells(nodes: seq<Node>, t: map<string, Claim>, k: nat)
    requires ValidTable(t) && Bindable(nodes, t)
    requires k < |BoundOf(nodes, t, |nodes|)| && BoundOf(nodes, t, |nodes|)[k].ClaimNode?
    ensures var e := BoundOf(nodes, t, |nodes|)[k];
            var node := e.node;
            && node in nodes
            && (if node.claimId != "" && node.claimId in t then e.claim == t[node.claimId]
                else if node.sourceUnitId != "" && node.sourceUnitId in t then e.claim == t[node.sourceUnitId]
                else "" in t && e.claim == t[""])
            && (e.selected <==> node.selectedByDefault && e.claim.decision in {NewMemory, SourceOnly, Enrich})
  {
    hide BoundOf, Bindable, Keeps, First, OneEach, FirstNamed;
    var kept := KeptInOrder(nodes, t, |nodes|);
    BindingIsBijection(nodes, t);
    assert nodes[kept[k]] in nodes;
  }

  // ----- The acts of the plan

  function KindFor(d: Decision): Kind
    requires d != Other
  {
    match d
    case NewMemory => CreateFact case SourceOnly => CreateFact case Enrich => UpdateFact case Evolve => EvolveFact
    case Contradicts => MarkContradiction case Supersedes => SupersedeMemory case Delete => DeleteFact
  }

  /** The decisions that link the new memory to its target, and how. */
  predicate Links(d: Decision) { d == Enrich || d == Contradicts || d == Supersedes }

  function LinkFor(d: Decision): Link
    requires Links(d)
  {
    match d case Enrich => Enriches case Contradicts => ContradictsLink case Supersedes => SupersedesLink
  }

  /** Every act is that of a claim: its decision, its targets, and the kind that the decision stands
      for; and it is selected exactly if its node was and nobody has to review it. */
  lemma {:induction false} ActsTell(nodes: seq<Node>, t: map<string, Claim>, p: Plan, k: nat)
    requires ValidTable(t) && Bindable(nodes, t) && PlanFits(p, BoundOf(nodes, t, |nodes|)) && k < |p.acts|
    ensures var a := p.acts[k];
            && a.claimId in t && a.decision == t[a.claimId].decision && a.targets == t[a.claimId].targets
            && a.decision != Other && a.kind == KindFor(a.decision)
            && (if a.decision in {NewMemory, SourceOnly} then a.targets == [] else |a.targets| == 1)
            && (a.review <==> a.decision in {Evolve, Contradicts, Supersedes, Delete})
            && exists node :: node in nodes && node.id == a.previewId
                 && (a.selected <==> node.selectedByDefault && !a.review)
  {
    hide BoundOf, Bindable, Transitions, EvolvedIds, Reviews, ClaimEntries, Sound, OneEach, ValidTable;
    var bound := BoundOf(nodes, t, |nodes|);
    EntriesSound(nodes, t);
    var e := ClaimEntries(bound)[k];
    var b :| 0 <= b < |bound| && bound[b] == e;
    EntryTells(nodes, t, b);
  }

  lemma {:induction false} EntryTells(nodes: seq<Node>, t: map<string, Claim>, b: nat)
    requires ValidTable(t) && Bindable(nodes, t) && b < |BoundOf(nodes, t, |nodes|)|
    requires BoundOf(nodes, t, |nodes|)[b].ClaimNode? && Sound(BoundOf(nodes, t, |nodes|)[b])
    ensures var e := BoundOf(nodes, t, |nodes|)[b];
            && e.claim.id in t && t[e.claim.id] == e.claim && e.node in nodes
            && e.claim.decision != Other && e.act.kind == KindFor(e.claim.decision)
            && (if e.claim.decision in {NewMemory, SourceOnly} then e.claim.targets == [] else |e.claim.targets| == 1)
            && (e.act.highImpact <==> e.claim.decision in {Evolve, Contradicts, Supersedes, Delete})
            && (e.selected <==> e.node.selectedByDefault && !e.act.highImpact)
  {
    hide BoundOf, Bindable;
    BindingIsBijection(nodes, t);
    BoundTells(nodes, t, b);
  }

  /** The transitions of the plan are those of its enriching, contradicting and superseding acts, one
      for each in their order, under the relation the decision stands for and with its targets. */
  lemma {:induction false} TransitionsTell(nodes: seq<Node>, t: map<string, Claim>, p: Plan) returns (at: seq<nat>)
    requires ValidTable(t) && Bindable(nodes, t) && PlanFits(p, BoundOf(nodes, t, |nodes|))
    ensures |at| == |p.transitions| && forall m, n :: 0 <= m < n < |at| ==> at[m] < at[n]
    ensures forall k: nat :: k in at <==> k < |p.acts| && Links(p.acts[k].decision)
    ensures forall m :: 0 <= m < |at| ==>
              at[m] < |p.acts| && Links(p.acts[at[m]].decision)
              && p.transitions[m] == Transition(p.acts[at[m]].previewId, p.acts[at[m]].kind, p.acts[at[m]].targets,
                   LinkFor(p.acts[at[m]].decision))
  {
    EntriesSound(nodes, t);
    hide BoundOf, Bindable, Transitions, EvolvedIds, Reviews, ClaimEntries;
    at := LinkPositions(BoundOf(nodes, t, |nodes|));
  }

  /** `at` lists, in order, the places of the chosen items. */
  ghost predicate Picks(items: seq<Entry>, chosen: Entry -> bool, at: seq<nat>) {
    && (forall m, n :: 0 <= m < n < |at| ==> at[m] < at[n])
    && (forall m :: 0 <= m < |at| ==> at[m] < |items| && chosen(items[at[m]]))
    && (forall k: nat {:trigger items[k]} :: k < |items| && chosen(items[k]) ==> k in at)
  }

  lemma {:induction false} PicksAppend(items: seq<Entry>, chosen: Entry -> bool, at: seq<nat>, e: Entry)
    requires Picks(items, chosen, at)
    ensures Picks(items + [e], chosen, if chosen(e) then at + [|items|] else at)
  {
    var all, at' := items + [e], if chosen(e) then at + [|items|] else at;
    forall m | 0 <= m < |at'| ensures at'[m] < |all| && chosen(all[at'[m]]) {
      if m < |at| { assert all[at[m]] == items[at[m]]; }
    }
    forall k: nat {:trigger all[k]} | k < |all| && chosen(all[k]) ensures k in at' {
      if k < |items| {
        assert all[k] == items[k] && k in at;
      } else {
        assert at'[|at|] == k;
      }
    }
  }

  predicate Linking(e: Entry) { e.ClaimNode? && Links(e.claim.decision) }

  predicate Evolving(e: Entry) { e.ClaimNode? && e.claim.decision == Evolve }

  function TransitionFor(e: Entry): Transition
    requires Linking(e)
  {
    Transition(e.node.id, e.act.kind, e.claim.targets, LinkFor(e.claim.decision))
  }

  lemma {:induction false} LinkPositions(bound: seq<Entry>) returns (at: seq<nat>)
    requires forall k :: 0 <= k < |bound| ==> Sound(bound[k])
    ensures |at| == |Transitions(bound)| && Picks(ClaimEntries(bound), Linking, at)
    ensures forall m :: 0 <= m < |at| ==>
        at[m] < |ClaimEntries(bound)| && Linking(ClaimEntries(bound)[at[m]])
        && Transitions(bound)[m] == TransitionFor(ClaimEntries(bound)[at[m]])
  {
    hide Picks, TransitionFor, ClaimEntries, Transitions;
    if bound == [] {
      at := [];
      EmptyPlan();
    } else {
      var n := |bound| - 1;
      var front, e := bound[..n], bound[n];
      at := LinkPositions(front);
      PlanSteps(bound);
      TransitionStep(front, e);
      assert ClaimEntries(front) + [] == ClaimEntries(front);
      if e.ClaimNode? { PicksAppend(ClaimEntries(front), Linking, at, e); }
      if Linking(e) { at := at + [|ClaimEntries(front)|]; }
    }
  }

  lemma {:induction false} EmptyPlan()
    ensures ClaimEntries([]) == [] && Transitions([]) == [] && EvolvedIds([]) == []
    ensures Picks([], Linking, []) && Picks([], Evolving, [])
  {
  }

  lemma {:induction false} PlanSteps(bound: seq<Entry>)
    requires bound != []
    ensures var n := |bound| - 1;
            var e := bound[n];
            && ClaimEntries(bound) == ClaimEntries(bound[..n]) + (if e.ClaimNode? then [e] else [])
            && Transitions(bound) == Transitions(bound[..n]) + (if e.ClaimNode? && e.act.relation != NoLink then
                 [Transition(e.node.id, e.act.kind, e.claim.targets, e.act.relation)] else [])
            && EvolvedIds(bound) == EvolvedIds(bound[..n]) + (if Evolving(e) then [e.node.id] else [])
  {
  }

  lemma {:induction false} TransitionStep(front: seq<Entry>, e: Entry)
    requires Sound(e)
    ensures e.ClaimNode? && e.act.relation != NoLink <==> Linking(e)
    ensures Linking(e) ==> Transition(e.node.id, e.act.kind, e.claim.targets, e.act.relation) == TransitionFor(e)
  {
  }

  /** The targets to be checked before they are changed are those of the evolving acts, in order. */
  lemma {:induction false} ChecksTell(nodes: seq<Node>, t: map<string, Claim>, p: Plan) returns (at: seq<nat>)
    requires PlanFits(p, BoundOf(nodes, t, |nodes|))
    ensures |at| == |p.mutationChecks| && forall m, n :: 0 <= m < n < |at| ==> at[m] < at[n]
    ensures forall k: nat :: k in at <==> k < |p.acts| && p.acts[k].decision == Evolve
    ensures forall m :: 0 <= m < |at| ==> at[m] < |p.acts| && p.mutationChecks[m] == p.acts[at[m]].previewId
  {
    hide BoundOf, Transitions, EvolvedIds, Reviews, ClaimEntries;
    at := EvolvePositions(BoundOf(nodes, t, |nodes|));
  }

  lemma {:induction false} EvolvePositions(bound: seq<Entry>) returns (at: seq<nat>)
    ensures |at| == |EvolvedIds(bound)| && Picks(ClaimEntries(bound), Evolving, at)
    ensures forall m :: 0 <= m < |at| ==>
        at[m] < |ClaimEntries(bound)| && EvolvedIds(bound)[m] == ClaimEntries(bound)[at[m]].node.id
  {
    hide Picks, ClaimEntries, EvolvedIds, Transitions;
    if bound == [] {
      at := [];
      EmptyPlan();
    } else {
      var n := |bound| - 1;
      var front, e := bound[..n], bound[n];
      at := EvolvePositions(front);
      PlanSteps(bound);
      assert ClaimEntries(front) + [] == ClaimEntries(front);
      if e.ClaimNode? { PicksAppend(ClaimEntries(front), Evolving, at, e); }
      if Evolving(e) { at := at + [|ClaimEntries(front)|]; }
    }
  }

  /** What a decision whose targets do not fit is refused with. */
  lemma {:induction false} RefusedActionTells(d: Decision, targets: seq<string>)
    requires Action(d, targets).Err?
    ensures var error := Action(d, targets).error;
            match d
            case Other => error == DecisionInvalid
            case NewMemory => targets != [] && error == NewMemoryTargetForbidden
            case SourceOnly => targets != [] && error == SourceOnlyTargetForbidden
            case Evolve => |targets| != 1 && error == if targets == [] then TargetRequired else EvolveSingleTarget
            case _ => |targets| != 1 && error == if targets == [] then TargetRequired else SingleTarget
  {
  }
}
