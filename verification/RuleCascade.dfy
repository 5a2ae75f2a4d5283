/** Rule dependencies as phase 8 of the verifier sees them, and the nested rule firings of
    the engine that follow them. */
module RuleCascade {
  import opened Digraph
  import opened RuleGraph

  datatype Anchor = OnEvent | OnCause(kind: string) | OnProblem(kind: string)

  datatype Stmt = Infer(cause: string) | Emit(problem: string) | Action

  /** `stmts` gathers the statements of every branch of the body. */
  datatype Rule = Rule(decision: bool, anchor: Anchor, stmts: seq<Stmt>)

  predicate Wakes(s: Stmt, r: Rule)
  {
    r.decision &&
    match s
    case Infer(k) => r.anchor == OnCause(k)
    case Emit(p) => r.anchor == OnProblem(p)
    case Action => false
  }

  ghost predicate Triggers(a: Rule, b: Rule) { exists s :: s in a.stmts && Wakes(s, b) }

  /** `edges` is the trigger relation of `rules`. */
  ghost predicate IsTriggerGraph(rules: seq<Rule>, edges: Edges)
  {
    && |edges| == |rules|
    && EdgesOk(edges)
    && forall i, t :: 0 <= i < |rules| && 0 <= t < |rules| ==> (t in edges[i] <==> Triggers(rules[i], rules[t]))
  }

  ghost predicate Indexes(rules: seq<Rule>, n: nat, index: map<Anchor, seq<nat>>)
    requires n <= |rules|
  {
    && (forall a :: a in index ==> forall k :: 0 <= k < |index[a]| ==> index[a][k] < n)
    && (forall t: nat, a: Anchor :: 0 <= t < n && !a.OnEvent? ==>
          ((rules[t].decision && rules[t].anchor == a) <==> (a in index && t in index[a])))
  }

  /** The two anchor tables, as one map keyed by the anchor. */
  method BuildIndex(rules: seq<Rule>) returns (index: map<Anchor, seq<nat>>)
    ensures Indexes(rules, |rules|, index)
  {
    index := map[];
    var i := 0;
    while i < |rules|
      invariant 0 <= i <= |rules|
      invariant Indexes(rules, i, index)
    {
      if rules[i].decision && !rules[i].anchor.OnEvent? {
        var a := rules[i].anchor;
        index := index[a := (if a in index then index[a] else []) + [i]];
      }
      i := i + 1;
    }
  }

  function AnchorOf(s: Stmt): Anchor
    requires !s.Action?
  {
    match s case Infer(k) => OnCause(k) case Emit(p) => OnProblem(p)
  }

  /** `phase08_acyclicity`'s edge lists. */
  method BuildEdges(rules: seq<Rule>) returns (edges: Edges)
    ensures IsTriggerGraph(rules, edges)
  {
    var index := BuildIndex(rules);
    edges := [];
    var i := 0;
    while i < |rules|
      invariant 0 <= i <= |rules| && |edges| == i
      invariant forall j, k :: 0 <= j < i && 0 <= k < |edges[j]| ==> edges[j][k] < |rules|
      invariant forall j, t :: 0 <= j < i && 0 <= t < |rules| ==> (t in edges[j] <==> Triggers(rules[j], rules[t]))
    {
      var out := SuccessorsOf(rules, index, rules[i].stmts);
      edges := edges + [out];
      i := i + 1;
    }
  }

  method SuccessorsOf(rules: seq<Rule>, index: map<Anchor, seq<nat>>, stmts: seq<Stmt>) returns (out: seq<nat>)
    requires Indexes(rules, |rules|, index)
    ensures forall k :: 0 <= k < |out| ==> out[k] < |rules|
    ensures forall t :: 0 <= t < |rules| ==> (t in out <==> exists s :: s in stmts && Wakes(s, rules[t]))
  {
    out := [];
    var i := 0;
    while i < |stmts|
      invariant 0 <= i <= |stmts|
      invariant forall k :: 0 <= k < |out| ==> out[k] < |rules|
      invariant forall t :: 0 <= t < |rules| ==> (t in out <==> exists s :: s in stmts[..i] && Wakes(s, rules[t]))
    {
      var s := stmts[i];
      assert stmts[..i + 1] == stmts[..i] + [s];
      if !s.Action? && AnchorOf(s) in index {
        assert forall t :: 0 <= t < |rules| ==> (t in index[AnchorOf(s)] <==> Wakes(s, rules[t]));
        out := out + index[AnchorOf(s)];
      } else {
        assert forall t :: 0 <= t < |rules| ==> !Wakes(s, rules[t]);
      }
      i := i + 1;
    }
    assert stmts[..i] == stmts;
  }

  /** `phase08_acyclicity`: a ruleset is accepted exactly when no rule can reach itself
      through what it infers and emits. */
  method Accepts(rules: seq<Rule>) returns (ok: bool, edges: Edges)
    ensures IsTriggerGraph(rules, edges)
    ensures ok <==> !HasDirectedCycle(edges)
  {
    edges := BuildEdges(rules);
    var found, _ := HasCycle(edges);
    ok := !found;
  }

  // ----- what a cascade is -----

  /** A firing met without budget, or a body run with the decisions taken while it runs. */
  datatype Firing = Refused(rule: nat) | Body(rule: nat, tries: seq<Try>)

  /** Statement `s` of a body offers rule `t`, in pass 0 in the body's own scope and in pass 1
      in the parent scope to which an inference rolls up. */
  datatype Offer = Offer(s: nat, pass: nat, t: nat)

  datatype Try = Declined(offer: Offer) | Taken(offer: Offer, firing: Firing)

  /** Everything that can stop a firing: the branch taken, the dedup sets, scope types and
      anchor predicates, given the bodies run so far, the call chain and the offer. */
  type Decide = (seq<nat>, seq<nat>, nat, nat, nat) -> bool

  /** The rules of the bodies run, in order. */
  function Bodies(f: Firing): seq<nat>
    decreases f
  {
    if f.Refused? then [] else [f.rule] + BodiesOf(f.tries)
  }

  function BodiesIn(t: Try): seq<nat>
    decreases t
  {
    if t.Taken? then Bodies(t.firing) else []
  }

  function BodiesOf(tries: seq<Try>): seq<nat>
    decreases tries
  {
    if tries == [] then [] else BodiesOf(tries[..|tries| - 1]) + BodiesIn(tries[|tries| - 1])
  }

  /** The call chain of each body run. */
  function Chains(f: Firing, caller: seq<nat>): seq<seq<nat>>
    decreases f
  {
    if f.Refused? then [] else [caller + [f.rule]] + ChainsOf(f.tries, caller + [f.rule])
  }

  function ChainsIn(t: Try, chain: seq<nat>): seq<seq<nat>>
    decreases t
  {
    if t.Taken? then Chains(t.firing, chain) else []
  }

  function ChainsOf(tries: seq<Try>, chain: seq<nat>): seq<seq<nat>>
    decreases tries
  {
    if tries == [] then [] else ChainsOf(tries[..|tries| - 1], chain) + ChainsIn(tries[|tries| - 1], chain)
  }

  /** How many firings met an empty budget. */
  function Refusals(f: Firing): nat
    decreases f
  {
    if f.Refused? then 1 else RefusalsOf(f.tries)
  }

  function RefusalsIn(t: Try): nat
    decreases t
  {
    if t.Taken? then Refusals(t.firing) else 0
  }

  function RefusalsOf(tries: seq<Try>): nat
    decreases tries
  {
    if tries == [] then 0 else RefusalsOf(tries[..|tries| - 1]) + RefusalsIn(tries[|tries| - 1])
  }

  /** Rule `t` is a decision rule anchored on exactly what statement `s` of rule `i` infers or
      emits; an inference is offered in both passes. */
  predicate Offered(rules: seq<Rule>, i: nat, o: Offer)
    requires i < |rules|
  {
    && o.s < |rules[i].stmts| && o.t < |rules| && rules[o.t].decision
    && match rules[i].stmts[o.s]
       case Infer(k) => o.pass <= 1 && rules[o.t].anchor == OnCause(k)
       case Emit(p) => o.pass == 0 && rules[o.t].anchor == OnProblem(p)
       case Action => false
  }

  /** Statement by statement, pass by pass, in rule order. */
  predicate Earlier(a: Offer, b: Offer)
  {
    a.s < b.s || (a.s == b.s && (a.pass < b.pass || (a.pass == b.pass && a.t < b.t)))
  }

  /** The tries are exactly the offers before `end`, in order. */
  ghost predicate AllOffers(rules: seq<Rule>, i: nat, tries: seq<Try>, end: Offer)
    requires i < |rules|
  {
    && (forall k :: 0 <= k < |tries| ==> Offered(rules, i, tries[k].offer) && Earlier(tries[k].offer, end))
    && (forall j, k :: 0 <= j < k < |tries| ==> Earlier(tries[j].offer, tries[k].offer))
    && (forall o :: Offered(rules, i, o) && Earlier(o, end) ==> exists k :: 0 <= k < |tries| && tries[k].offer == o)
  }

  /** A firing as it must go. Without budget it is refused. Otherwise the body runs and makes
      all its offers in order; an offer fires exactly if it is decided so on the bodies run
      up to then, and the firing goes as it must with the budget left. */
  ghost predicate Lawful(rules: seq<Rule>, decide: Decide, caller: seq<nat>, before: seq<nat>, budget: nat, f: Firing)
    decreases f
  {
    && f.rule < |rules|
    && if budget == 0 then f.Refused?
       else
         && f.Body? && AllOffers(rules, f.rule, f.tries, Offer(|rules[f.rule].stmts|, 0, 0))
         && LawfulTries(rules, decide, caller + [f.rule], before + [f.rule], budget - 1, f.tries)
  }

  ghost predicate LawfulTry(rules: seq<Rule>, decide: Decide, chain: seq<nat>, before: seq<nat>, budget: nat, t: Try)
    decreases t
  {
    && (t.Taken? <==> decide(before, chain, t.offer.s, t.offer.pass, t.offer.t))
    && (t.Taken? ==> t.firing.rule == t.offer.t && Lawful(rules, decide, chain, before, budget, t.firing))
  }

  ghost predicate LawfulTries(rules: seq<Rule>, decide: Decide, chain: seq<nat>, before: seq<nat>, budget: nat, tries: seq<Try>)
    decreases tries
  {
    tries != [] ==>
      var init := tries[..|tries| - 1];
      var ran := BodiesOf(init);
      && LawfulTries(rules, decide, chain, before, budget, init)
      && |ran| <= budget && LawfulTry(rules, decide, chain, before + ran, budget - |ran|, tries[|tries| - 1])
  }

  lemma {:induction false} TryIsLawful(rules: seq<Rule>, decide: Decide, chain: seq<nat>, before: seq<nat>, budget: nat, tries: seq<Try>, k: nat)
    returns (h: seq<nat>, left: nat)
    requires LawfulTries(rules, decide, chain, before, budget, tries) && k < |tries|
    ensures LawfulTry(rules, decide, chain, h, left, tries[k]) && RefusalsIn(tries[k]) <= RefusalsOf(tries)
    ensures forall c :: c in ChainsIn(tries[k], chain) ==> c in ChainsOf(tries, chain)
    decreases |tries|
  {
    hide LawfulTry;
    var n := |tries| - 1;
    if k == n {
      h, left := before + BodiesOf(tries[..n]), budget - |BodiesOf(tries[..n])|;
    } else {
      h, left := TryIsLawful(rules, decide, chain, before, budget, tries[..n], k);
    }
  }

  lemma OfferIsTried(rules: seq<Rule>, i: nat, tries: seq<Try>, o: Offer) returns (k: nat)
    requires i < |rules| && AllOffers(rules, i, tries, Offer(|rules[i].stmts|, 0, 0)) && Offered(rules, i, o)
    ensures k < |tries| && tries[k].offer == o
  {
    k :| 0 <= k < |tries| && tries[k].offer == o;
  }

  lemma {:induction false} ChainOfTry(tries: seq<Try>, chain: seq<nat>, c: seq<nat>) returns (k: nat)
    requires c in ChainsOf(tries, chain)
    ensures k < |tries| && c in ChainsIn(tries[k], chain)
    decreases |tries|
  {
    var n := |tries| - 1;
    if c in ChainsIn(tries[n], chain) { k := n; } else { k := ChainOfTry(tries[..n], chain, c); }
  }

  /** While the budget lasts, each decision rule anchored on what a body infers or emits runs,
      called from that body, if it is decided so. */
  lemma {:induction false} EveryWokenRuleRuns(rules: seq<Rule>, decide: Decide, caller: seq<nat>, before: seq<nat>, budget: nat, f: Firing,
                                              c: seq<nat>, o: Offer)
    requires Lawful(rules, decide, caller, before, budget, f) && Refusals(f) == 0 && c in Chains(f, caller)
    requires c != [] && c[|c| - 1] < |rules| && Offered(rules, c[|c| - 1], o) && forall h :: decide(h, c, o.s, o.pass, o.t)
    ensures c + [o.t] in Chains(f, caller)
    decreases f
  {
    hide LawfulTries, Offered;
    var chain := caller + [f.rule];
    if c == chain {
      var k := OfferIsTried(rules, f.rule, f.tries, o);
      var h, left := TryIsLawful(rules, decide, chain, before + [f.rule], budget - 1, f.tries, k);
      assert decide(h, c, o.s, o.pass, o.t);
      assert c + [o.t] in ChainsIn(f.tries[k], chain);
    } else {
      var k := ChainOfTry(f.tries, chain, c);
      var h, left := TryIsLawful(rules, decide, chain, before + [f.rule], budget - 1, f.tries, k);
      EveryWokenRuleRuns(rules, decide, chain, h, left, f.tries[k].firing, c, o);
    }
  }

  /** And nothing else runs: the body of every other chain was offered to the one before. */
  lemma {:induction false} OnlyWokenRulesRun(rules: seq<Rule>, decide: Decide, caller: seq<nat>, before: seq<nat>, budget: nat, f: Firing, c: seq<nat>)
    returns (o: Offer, h: seq<nat>)
    requires Lawful(rules, decide, caller, before, budget, f) && c in Chains(f, caller) && c != caller + [f.rule]
    ensures |c| >= 2 && c[..|c| - 1] in Chains(f, caller) && c[|c| - 2] < |rules|
    ensures Offered(rules, c[|c| - 2], o) && o.t == c[|c| - 1] && decide(h, c[..|c| - 1], o.s, o.pass, o.t)
    decreases f
  {
    hide LawfulTries, Offered;
    var chain := caller + [f.rule];
    var k := ChainOfTry(f.tries, chain, c);
    var left;
    h, left := TryIsLawful(rules, decide, chain, before + [f.rule], budget - 1, f.tries, k);
    var inner := f.tries[k].firing;
    if c == chain + [inner.rule] {
      o := f.tries[k].offer;
      assert c[..|c| - 1] == chain;
    } else {
      o, h := OnlyWokenRulesRun(rules, decide, chain, h, left, inner, c);
    }
  }

  // ----- the engine's cascade -----

  /** Where the cascade stands when a body has just begun. */
  datatype Mark = Mark(fired: seq<nat>, chains: seq<seq<nat>>, exceeded: nat, budget: nat)

  /** The nested firings started by one root: `run_rule`, the mutations and emissions of
      its body, and the decision rules they re-evaluate. */
  class Cascade {
    const rules: seq<Rule>
    var budget: nat
    var fired: seq<nat>
    var exceeded: nat
    // The call chain of each body run, outermost rule first.
    ghost var chains: seq<seq<nat>>

    constructor (rules: seq<Rule>, maxFirings: nat)
      ensures this.rules == rules && budget == maxFirings && fired == [] && exceeded == 0 && chains == []
    {
      this.rules := rules;
      budget, fired, exceeded, chains := maxFirings, [], 0, [];
    }

    ghost function Now(): Mark
      reads this
    {
      Mark(fired, chains, exceeded, budget)
    }

    /** Each firing is one unit of the budget or one refusal, and is listed with its chain. */
    ghost predicate Added(since: Mark, f: Firing, caller: seq<nat>)
      reads this
    {
      && fired == since.fired + Bodies(f) && chains == since.chains + Chains(f, caller)
      && exceeded == since.exceeded + Refusals(f) && budget + |Bodies(f)| == since.budget
    }

    /** `tries` is what the body on top of `chain` has led to up to its offer `end`. */
    ghost predicate Tried(since: Mark, i: nat, decide: Decide, chain: seq<nat>, tries: seq<Try>, end: Offer)
      requires i < |rules|
      reads this
    {
      && AllOffers(rules, i, tries, end) && LawfulTries(rules, decide, chain, since.fired, since.budget, tries)
      && fired == since.fired + BodiesOf(tries) && chains == since.chains + ChainsOf(tries, chain)
      && exceeded == since.exceeded + RefusalsOf(tries) && budget + |BodiesOf(tries)| == since.budget
    }

    /** Every call chain follows the trigger graph. */
    ghost predicate Walks(edges: Edges)
      reads this
    {
      forall c :: c in chains ==> Walk(edges, c)
    }

    method RunRule(i: nat, decide: Decide, chain: seq<nat>, ghost edges: Edges) returns (ghost f: Firing)
      requires i < |rules| && IsTriggerGraph(rules, edges) && Walk(edges, chain + [i]) && Walks(edges)
      modifies this
      ensures Lawful(rules, decide, chain, old(fired), old(budget), f) && f.rule == i
      ensures Added(old(Now()), f, chain) && Walks(edges)
      decreases budget, 1
    {
      hide Walk, IsTriggerGraph, AllOffers, LawfulTries;
      if budget == 0 {
        exceeded := exceeded + 1;
        return Refused(i);
      }
      budget := budget - 1;
      fired := fired + [i];
      chains := chains + [chain + [i]];
      ghost var since, tries := Now(), [];
      NothingOffered(rules, i, decide, chain + [i], fired, budget);
      var s := 0;
      while s < |rules[i].stmts|
        invariant 0 <= s <= |rules[i].stmts|
        invariant Tried(since, i, decide, chain + [i], tries, Offer(s, 0, 0)) && Walks(edges)
      {
        tries := ReEvaluate(i, s, 0, decide, chain, edges, since, tries);
        // An inference is re-evaluated once more in the parent scope it rolls up to.
        if rules[i].stmts[s].Infer? { tries := ReEvaluate(i, s, 1, decide, chain, edges, since, tries); }
        NextStatement(rules, i, s, tries);
        s := s + 1;
      }
      f := Body(i, tries);
    }

    /** `on_confidence_mutation` / `on_problem_emission`. */
    method ReEvaluate(i: nat, s: nat, pass: nat, decide: Decide, chain: seq<nat>, ghost edges: Edges, ghost since: Mark, ghost before: seq<Try>)
      returns (ghost tries: seq<Try>)
      requires i < |rules| && s < |rules[i].stmts| && pass <= (if rules[i].stmts[s].Infer? then 1 else 0)
      requires IsTriggerGraph(rules, edges) && Walk(edges, chain + [i]) && Walks(edges)
      requires Tried(since, i, decide, chain + [i], before, Offer(s, pass, 0))
      modifies this
      ensures Tried(since, i, decide, chain + [i], tries, Offer(s, pass + 1, 0)) && Walks(edges)
      ensures budget <= old(budget)
      decreases budget, 2
    {
      hide Walk, IsTriggerGraph, AllOffers, LawfulTries, Lawful, Bodies, Chains, Refusals;
      tries := before;
      var t := 0;
      while t < |rules|
        invariant 0 <= t <= |rules| && budget <= old(budget)
        invariant Tried(since, i, decide, chain + [i], tries, Offer(s, pass, t)) && Walks(edges)
      {
        var o := Offer(s, pass, t);
        WakesIsOffered(rules, i, o);
        if Wakes(rules[i].stmts[s], rules[t]) {
          if decide(fired, chain + [i], s, pass, t) {
            Follows(rules, edges, chain, i, s, t);
            ghost var f := RunRule(t, decide, chain + [i], edges);
            TrySnoc(rules, decide, chain + [i], since.fired, since.budget, tries, Taken(o, f));
            tries := tries + [Taken(o, f)];
          } else {
            TrySnoc(rules, decide, chain + [i], since.fired, since.budget, tries, Declined(o));
            tries := tries + [Declined(o)];
          }
        }
        NextRule(rules, i, o, tries);
        t := t + 1;
      }
      NextPass(rules, i, s, pass, tries);
    }
  }

  lemma ExtendWalk(edges: Edges, chain: seq<nat>, i: nat, t: nat)
    requires Walk(edges, chain + [i]) && t in Succ(GraphOf(edges), i) && t < |edges|
    ensures Walk(edges, chain + [i] + [t])
  {
    PushChain(GraphOf(edges), chain + [i], t);
  }

  lemma Follows(rules: seq<Rule>, edges: Edges, chain: seq<nat>, i: nat, s: nat, t: nat)
    requires IsTriggerGraph(rules, edges) && i < |rules| && s < |rules[i].stmts| && t < |rules|
    requires Wakes(rules[i].stmts[s], rules[t]) && Walk(edges, chain + [i])
    ensures Walk(edges, chain + [i] + [t])
  {
    hide Walk;
    assert Triggers(rules[i], rules[t]);
    assert t in Succ(GraphOf(edges), i);
    ExtendWalk(edges, chain, i, t);
  }

  // ----- the offers, in order -----

  lemma NothingOffered(rules: seq<Rule>, i: nat, decide: Decide, chain: seq<nat>, before: seq<nat>, budget: nat)
    requires i < |rules|
    ensures AllOffers(rules, i, [], Offer(0, 0, 0)) && LawfulTries(rules, decide, chain, before, budget, [])
  {
  }

  lemma EarlierNext(p: Offer, o: Offer)
    ensures Earlier(p, o.(t := o.t + 1)) <==> p == o || Earlier(p, o)
  {
  }

  /** The offer `o` has been dealt with: tried if it is one. */
  lemma NextRule(rules: seq<Rule>, i: nat, o: Offer, tries: seq<Try>)
    requires i < |rules|
    requires if Offered(rules, i, o) then tries != [] && tries[|tries| - 1].offer == o && AllOffers(rules, i, tries[..|tries| - 1], o)
             else AllOffers(rules, i, tries, o)
    ensures AllOffers(rules, i, tries, o.(t := o.t + 1))
  {
    hide Offered, Earlier;
    forall p ensures Earlier(p, o.(t := o.t + 1)) <==> p == o || Earlier(p, o) { EarlierNext(p, o); }
    var init := if Offered(rules, i, o) then tries[..|tries| - 1] else tries;
    forall p | Offered(rules, i, p) && Earlier(p, o.(t := o.t + 1)) ensures exists k :: 0 <= k < |tries| && tries[k].offer == p {
      if p == o {
        assert tries[|tries| - 1].offer == p;
      } else {
        var k :| 0 <= k < |init| && init[k].offer == p;
        assert tries[k].offer == p;
      }
    }
  }

  lemma NextPass(rules: seq<Rule>, i: nat, s: nat, pass: nat, tries: seq<Try>)
    requires i < |rules| && AllOffers(rules, i, tries, Offer(s, pass, |rules|))
    ensures AllOffers(rules, i, tries, Offer(s, pass + 1, 0))
  {
    forall o | Offered(rules, i, o) && Earlier(o, Offer(s, pass + 1, 0)) ensures Earlier(o, Offer(s, pass, |rules|)) {}
  }

  lemma NextStatement(rules: seq<Rule>, i: nat, s: nat, tries: seq<Try>)
    requires i < |rules| && s < |rules[i].stmts|
    requires AllOffers(rules, i, tries, Offer(s, if rules[i].stmts[s].Infer? then 2 else 1, 0))
    ensures AllOffers(rules, i, tries, Offer(s + 1, 0, 0))
  {
    forall o | Offered(rules, i, o) && Earlier(o, Offer(s + 1, 0, 0))
      ensures Earlier(o, Offer(s, if rules[i].stmts[s].Infer? then 2 else 1, 0)) {}
  }

  lemma TrySnoc(rules: seq<Rule>, decide: Decide, chain: seq<nat>, before: seq<nat>, budget: nat, tries: seq<Try>, last: Try)
    requires LawfulTries(rules, decide, chain, before, budget, tries) && |BodiesOf(tries)| <= budget
    requires LawfulTry(rules, decide, chain, before + BodiesOf(tries), budget - |BodiesOf(tries)|, last)
    ensures LawfulTries(rules, decide, chain, before, budget, tries + [last])
    ensures BodiesOf(tries + [last]) == BodiesOf(tries) + BodiesIn(last)
    ensures ChainsOf(tries + [last], chain) == ChainsOf(tries, chain) + ChainsIn(last, chain)
    ensures RefusalsOf(tries + [last]) == RefusalsOf(tries) + RefusalsIn(last)
  {
    assert (tries + [last])[..|tries + [last]| - 1] == tries;
  }

  lemma WakesIsOffered(rules: seq<Rule>, i: nat, o: Offer)
    requires i < |rules| && o.s < |rules[i].stmts| && o.t < |rules| && o.pass <= (if rules[i].stmts[o.s].Infer? then 1 else 0)
    ensures Wakes(rules[i].stmts[o.s], rules[o.t]) <==> Offered(rules, i, o)
  {
  }

  /** One root match: the cascade is a lawful firing of the root with the whole budget, so at
      most `maxFirings` bodies run whatever the ruleset; and if the verifier accepted it, no
      rule is re-entered on its own call chain, so nesting is at most the number of rules. */
  method RunRoot(rules: seq<Rule>, i: nat, maxFirings: nat, decide: Decide, ghost edges: Edges) returns (c: Cascade, ghost f: Firing)
    requires i < |rules| && IsTriggerGraph(rules, edges)
    ensures f.rule == i && Lawful(rules, decide, [], [], maxFirings, f)
    ensures c.fired == Bodies(f) && c.chains == Chains(f, []) && c.exceeded == Refusals(f)
    ensures |c.fired| + c.budget == maxFirings
    ensures !HasDirectedCycle(edges) ==> forall p :: p in c.chains ==> Distinct(p) && |p| <= |rules|
  {
    c := new Cascade(rules, maxFirings);
    assert [] + [i] == [i];
    f := c.RunRule(i, decide, [], edges);
    if !HasDirectedCycle(edges) {
      forall p | p in c.chains ensures Distinct(p) && |p| <= |rules| { AcyclicWalkIsShort(edges, p); }
    }
  }
}
