/** The temporal core of crates/airpulse_dsl-evaluator/src/engine.rs as functions on a state:
    what each call does to rings, queues and watermark, and which rule bodies it runs. */
module EngineModel {
  import opened Options
  import opened EventTime
  import opened Ring
  import opened Waiting
  import opened RuleImage
  import Kleene

  type T3 = Kleene.T3

  datatype Bound = EventBound(event: Event) | NodeBound(node: nat)

  datatype Binding = Present(to: Bound) | Unknown | Absent

  /** `origin` is the suspended match that a run resumes; `None` is an immediate run. */
  datatype Step =
    | Ran(rule: Rule, anchor: Event, origin: Option<Pending>, at: Time, bindings: seq<Binding>)
    | Exceeded(rule: Rule, anchor: Event, origin: Option<Pending>)
    | Swept(wm: Time)

  /** The verified rules with everything that stays fixed during a run. Graph state is a
      function of the steps so far: `nodes` are the causes or problems a correlate finds,
      `cascade` is the number of decision firings the last body starts. */
  datatype Image = Image(
    rules: seq<Rule>,
    matches: (Rule, Event) -> bool,
    topology: (Rule, nat, seq<Binding>, Bound) -> T3,
    nodes: (seq<Step>, Rule, nat, Event) -> seq<Bound>,
    cascade: seq<Step> -> nat,
    scopeType: Scope -> nat,
    hash: Hash)

  datatype Limits = Limits(
    ringCapacity: nat,
    queueCapacity: nat,
    maxFirings: nat,
    maxLookback: Duration,
    maxDisorder: Duration,
    allowedLateness: Duration,
    idleTimeout: Duration)

  /** Where suspended matches went. */
  datatype Ledger = Ledger(
    suspended: multiset<Pending>,
    resumed: multiset<Pending>,
    spilled: multiset<Pending>,
    missing: multiset<Pending>,
    unlisted: multiset<Pending>)

  /** `history` and `lost` record every event pushed and every event a full ring dropped. */
  datatype State = State(
    rings: map<Scope, seq<Event>>,
    queues: Queues,
    wm: Time,
    last: Option<Time>,
    finished: bool,
    trace: seq<Step>,
    ledger: Ledger,
    history: seq<Event>,
    lost: seq<Event>)

  function Start(): State
  {
    State(map[], map[], TIME_MIN, None, false, [], Ledger(multiset{}, multiset{}, multiset{}, multiset{}, multiset{}), [], [])
  }

  function AtLeastOne(n: nat): (r: nat) { if n == 0 then 1 else n }

  function RingOf(rings: map<Scope, seq<Event>>, s: Scope): seq<Event> { if s in rings then rings[s] else [] }

  // ----- correlates -----

  function Others(window: seq<Event>, kind: nat, self: nat): seq<Bound>
  {
    if window == [] then []
    else
      var rest := Others(window[..|window| - 1], kind, self);
      var e := window[|window| - 1];
      if e.kind == kind && e.id != self then rest + [EventBound(e)] else rest
  }

  function Candidates(img: Image, rule: Rule, k: nat, anchor: Event, buf: seq<Event>, trace: seq<Step>): seq<Bound>
    requires k < |rule.correlates| && rule.correlates[k].window.Calculable?
  {
    var c := rule.correlates[k];
    if c.source.FromEvents?
    then Others(Between(buf, Sub(anchor.time, c.window.back), Add(anchor.time, c.window.forward)), c.source.kind, anchor.id)
    else img.nodes(trace, rule, k, anchor)
  }

  function Satisfying(img: Image, rule: Rule, k: nat, prev: seq<Binding>, cands: seq<Bound>, v: T3): seq<Bound>
  {
    if cands == [] then []
    else
      var rest := Satisfying(img, rule, k, prev, cands[..|cands| - 1], v);
      var c := cands[|cands| - 1];
      if img.topology(rule, k, prev, c) == v then rest + [c] else rest
  }

  /** Bind the earliest True candidate if there are enough of them; otherwise any Unknown
      candidate keeps the correlate undecided. */
  function Decide(minMatch: Count, yes: seq<Bound>, undecided: bool): Binding
  {
    if yes != [] && |yes| >= minMatch then Present(yes[0])
    else if undecided || minMatch == 0 then Unknown
    else Absent
  }

  function ResolveOne(img: Image, rule: Rule, k: nat, prev: seq<Binding>, anchor: Event, buf: seq<Event>, trace: seq<Step>): Binding
    requires k < |rule.correlates|
  {
    var c := rule.correlates[k];
    if c.window.RuntimeCheck? then Absent
    else
      var cands := Candidates(img, rule, k, anchor, buf, trace);
      Decide(c.minMatch, Satisfying(img, rule, k, prev, cands, Kleene.True),
             Satisfying(img, rule, k, prev, cands, Kleene.Unknown) != [])
  }

  /** The anchor's binding followed by those of the first `k` correlates. */
  function Resolve(img: Image, rule: Rule, k: nat, anchor: Event, buf: seq<Event>, trace: seq<Step>): seq<Binding>
    requires k <= |rule.correlates|
  {
    if k == 0 then [Present(EventBound(anchor))]
    else
      var prev := Resolve(img, rule, k - 1, anchor, buf, trace);
      prev + [ResolveOne(img, rule, k - 1, prev, anchor, buf, trace)]
  }

  function Bindings(img: Image, rule: Rule, anchor: Event, buf: seq<Event>, trace: seq<Step>): seq<Binding>
  {
    Resolve(img, rule, |rule.correlates|, anchor, buf, trace)
  }

  // ----- running rules -----

  function FindRule(rules: seq<Rule>, id: nat): Option<Rule>
  {
    if rules == [] then None else if rules[0].id == id then Some(rules[0]) else FindRule(rules[1..], id)
  }

  function RunRule(img: Image, st: State, rule: Rule, anchor: Event, origin: Option<Pending>, budget: nat): (State, nat)
  {
    if budget == 0 then (st.(trace := st.trace + [Exceeded(rule, anchor, origin)]), 0)
    else
      var bindings := Bindings(img, rule, anchor, RingOf(st.rings, anchor.scope), st.trace);
      var trace := st.trace + [Ran(rule, anchor, origin, st.wm, bindings)];
      var used := img.cascade(trace);
      (st.(trace := trace), if used >= budget - 1 then 0 else budget - 1 - used)
  }

  function ResumeOne(img: Image, lim: Limits, st: State, m: Pending): State
  {
    var anchor := Lookup(RingOf(st.rings, m.scope), m.anchor);
    if anchor.None? then st.(ledger := st.ledger.(missing := st.ledger.missing + multiset{m}))
    else
      var rule := FindRule(img.rules, m.rule);
      if rule.None? then st.(ledger := st.ledger.(unlisted := st.ledger.unlisted + multiset{m}))
      else
        var counted := st.(ledger := st.ledger.(resumed := st.ledger.resumed + multiset{m}));
        RunRule(img, counted, rule.value, anchor.value, Some(m), lim.maxFirings).0
  }

  function ResumeAll(img: Image, lim: Limits, st: State, expired: seq<Pending>): State
    decreases |expired|
  {
    if expired == [] then st else ResumeAll(img, lim, ResumeOne(img, lim, st, expired[0]), expired[1..])
  }

  // ----- matching anchors -----

  predicate Fires(img: Image, r: Rule, e: Event)
  {
    r.evidence && r.anchorKind == e.kind && r.scopeType == img.scopeType(e.scope) && img.matches(r, e)
  }

  function Deadline(r: Rule, e: Event): Time { Add(e.time, MaxForward(r.correlates)) }

  function PendingOf(r: Rule, e: Event): Pending { Pending(r.id, e.id, Deadline(r, e), e.scope) }

  function Suspend(img: Image, lim: Limits, st: State, p: Pending): State
  {
    var (queue, dropped) := Bounded(img.hash, QueueOf(st.queues, p.scope), AtLeastOne(lim.queueCapacity), p);
    var spilled := if dropped.Some? then multiset{dropped.value} else multiset{};
    st.(queues := st.queues[p.scope := queue],
        ledger := st.ledger.(suspended := st.ledger.suspended + multiset{p}, spilled := st.ledger.spilled + spilled))
  }

  function MatchOne(img: Image, lim: Limits, st: State, budget: nat, e: Event, r: Rule): (State, nat)
  {
    if !Fires(img, r, e) then (st, budget)
    else if Deadline(r, e) > st.wm then (Suspend(img, lim, st, PendingOf(r, e)), budget)
    else RunRule(img, st, r, e, None, budget)
  }

  function MatchAll(img: Image, lim: Limits, st: State, budget: nat, e: Event, rules: seq<Rule>): State
    decreases |rules|
  {
    if rules == [] then st
    else
      var (next, left) := MatchOne(img, lim, st, budget, e, rules[0]);
      MatchAll(img, lim, next, left, e, rules[1..])
  }

  // ----- the calls -----

  function PushEvent(lim: Limits, st: State, e: Event): State
  {
    var (ring, dropped) := Push(RingOf(st.rings, e.scope), AtLeastOne(lim.ringCapacity), e);
    st.(rings := st.rings[e.scope := ring],
        history := st.history + [e],
        lost := st.lost + (if dropped.Some? then [dropped.value] else []))
  }

  function Take(st: State): State
  {
    st.(queues := map s | s in st.queues :: Later(st.queues[s], st.wm))
  }

  function Sweep(lim: Limits, st: State): State
  {
    st.(rings := map s | s in st.rings :: From(st.rings[s], Sub(st.wm, lim.maxLookback)), trace := st.trace + [Swept(st.wm)])
  }

  function Noted(st: State, e: Event): State
  {
    st.(last := Some(Latest(if st.last.Some? then st.last.value else e.time, e.time)))
  }

  function Ahead(st: State, t: Time): State { st.(wm := Latest(st.wm, t)) }

  /** Resume sweep, then collection, at the current watermark. */
  function Settle(img: Image, lim: Limits, st: State, expired: seq<Pending>): State
  {
    Sweep(lim, ResumeAll(img, lim, Take(st), expired))
  }

  function FlushTime(img: Image, last: Time): Time { Add(Add(last, ImageMaxForward(img.rules)), 1) }

  /** `expired` lists the matches a sweep pops, in the order in which it resumes them;
      `target` is the watermark the event asks for. */
  datatype Op =
    | Accept(event: Event, target: Time, expired: seq<Pending>)
    | Discard(event: Event)
    | Advance(to: Time, expired: seq<Pending>)
    | Finish(expired: seq<Pending>)

  function Do(img: Image, lim: Limits, st: State, op: Op): State
  {
    match op
    case Accept(e, target, expired) =>
      var arrived := PushEvent(lim, Ahead(Noted(st, e), target), e);
      MatchAll(img, lim, Settle(img, lim, arrived, expired), lim.maxFirings, e, img.rules)
    case Discard(e) => Noted(st, e)
    case Advance(to, expired) => Settle(img, lim, Ahead(st, to), expired)
    case Finish(expired) =>
      if st.finished then st
      else if st.last.None? then st.(finished := true)
      else Settle(img, lim, Ahead(st.(finished := true), FlushTime(img, st.last.value)), expired)
  }

  /** `expired` is what the sweep of `op` pops. */
  ghost predicate Legal(img: Image, st: State, op: Op)
  {
    match op
    case Accept(e, target, expired) => PopOk(img.hash, st.queues, Latest(st.wm, target), expired)
    case Discard(e) => true
    case Advance(to, expired) => PopOk(img.hash, st.queues, Latest(st.wm, to), expired)
    case Finish(expired) =>
      !st.finished && st.last.Some? ==> PopOk(img.hash, st.queues, Latest(st.wm, FlushTime(img, st.last.value)), expired)
  }

  function Run(img: Image, lim: Limits, ops: seq<Op>): State
  {
    if ops == [] then Start() else Do(img, lim, Run(img, lim, ops[..|ops| - 1]), ops[|ops| - 1])
  }

  ghost predicate LegalRun(img: Image, lim: Limits, ops: seq<Op>)
  {
    ops == [] || (LegalRun(img, lim, ops[..|ops| - 1]) && Legal(img, Run(img, lim, ops[..|ops| - 1]), ops[|ops| - 1]))
  }
}
