/**
 Memory figures of a showplan: whatever the stream, the root ends up with the
 last usable figure of each kind stated anywhere in it.
 */
module PlanMemory {
  import opened Wrappers
  import opened PlanXml

  datatype Figures = Figures(grant: Option<real>, used: Option<real>, requested: Option<real>)

  const NO_FIGURES := Figures(None, None, None)

  function IfPositive(v: Option<real>): Option<real> { if v.Some? && v.value > 0.0 then v else None }

  /** What one event says about the query's memory. */
  function FiguresIn(ev: Event): Figures {
    match ev
    case End(_) => NO_FIGURES
    case Text => NO_FIGURES
    case _ =>
      (match ev.e
       case QueryPlan(grant) => Figures(IfPositive(grant), None, None)
       case MemoryGrantInfo(granted, used, requested) => Figures(IfPositive(granted), used, IfPositive(requested))
       case _ => NO_FIGURES)
  }

  /** Of each kind the figure stated last. */
  function LastFigures(events: seq<Event>): Figures {
    if events == [] then NO_FIGURES
    else
      var before, last := LastFigures(Init(events)), FiguresIn(Last(events));
      Figures(OrElse(last.grant, before.grant), OrElse(last.used, before.used),
              OrElse(last.requested, before.requested))
  }

  function FiguresOf(n: PlanNode): Figures { Figures(n.memoryGrant, n.memoryUsed, n.memoryRequested) }

  function Pended(p: Pending): Figures { Figures(p.grant, p.used, p.requested) }

  /** No operator carries figures while the plan is being read. */
  ghost predicate Blank(st: State) {
    && (forall k :: 0 <= k < |st.stack| ==> FiguresOf(st.stack[k]) == NO_FIGURES)
    && (st.root.Some? ==> FiguresOf(st.root.value) == NO_FIGURES)
  }

  lemma OnNodeKeepsFigures(n: PlanNode, ctx: Context, e: Elem, depth: nat)
    ensures FiguresOf(OnNode(n, ctx, e, depth)) == FiguresOf(n)
    ensures FiguresOf(WithCounters(n, e)) == FiguresOf(n)
  {
    hide Unbracket, WithColumn, IsLookup, CapturesObject, AddSome;
  }

  lemma OnTopStaysBlank(stack: seq<PlanNode>, ctx: Context, e: Elem, depth: nat)
    requires forall k :: 0 <= k < |stack| ==> FiguresOf(stack[k]) == NO_FIGURES
    ensures forall n :: n in OnTop(stack, ctx, e, depth) ==> FiguresOf(n) == NO_FIGURES
  {
    hide OnNode;
    if stack != [] {
      OnNodeKeepsFigures(Last(stack), ctx, e, depth);
    }
  }

  lemma StepStaysBlank(st: State, ev: Event)
    requires Blank(st)
    ensures Blank(Step(st, ev))
  {
    hide OnNode, OnTop, Enter, OnPending, WithCounters, ColumnOnMissing, Leave;
    match ev
    case Start(e) => OnTopStaysBlank(st.stack, st.ctx, e, TopDepth(Deeper(st.depths)));
    case Empty(e) =>
      var stack := OnTop(st.stack, st.ctx, e, TopDepth(st.depths));
      OnTopStaysBlank(st.stack, st.ctx, e, TopDepth(st.depths));
      if stack != [] {
        assert Last(stack) in stack;
        OnNodeKeepsFigures(Last(stack), st.ctx, e, 0);
      }
    case End(tag) =>
    case Text =>
  }

  lemma StepPends(st: State, ev: Event)
    ensures var before, last := Pended(st.pending), FiguresIn(ev);
            Pended(Step(st, ev).pending) ==
            Figures(OrElse(last.grant, before.grant), OrElse(last.used, before.used),
                    OrElse(last.requested, before.requested))
  {
    hide OnTop, Enter, WithCounters, ColumnOnMissing, Leave;
  }

  lemma RunSnoc(st: State, events: seq<Event>)
    requires events != []
    ensures Run(st, events) == Step(Run(st, Init(events)), Last(events))
  {
    hide Step, Run;
    assert events == Init(events) + [Last(events)];
    RunConcat(st, Init(events), [Last(events)]);
    var mid := Run(st, Init(events));
    RunStep(mid, [Last(events)]);
    assert [Last(events)][1..] == [];
    RunStep(Step(mid, Last(events)), []);
  }

  lemma {:induction false} RunPends(events: seq<Event>)
    ensures Blank(Run(INITIAL, events)) && Pended(Run(INITIAL, events).pending) == LastFigures(events)
    decreases |events|
  {
    hide Step, Run, FiguresIn;
    if events == [] {
      RunStep(INITIAL, events);
    } else {
      var st := Run(INITIAL, Init(events));
      RunPends(Init(events));
      RunSnoc(INITIAL, events);
      StepStaysBlank(st, Last(events));
      StepPends(st, Last(events));
    }
  }

  /** For any stream of events with an operator, the root's memory figures are
      the last ones stated anywhere: grants and requests only if positive. */
  lemma RootHasLastFigures(events: seq<Event>)
    ensures Parsed(events).Some? ==> FiguresOf(Parsed(events).value) == LastFigures(events)
  {
    hide Run, LastFigures;
    RunPends(events);
  }
}
