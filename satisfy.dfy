/**
 * The builder: the Gherkin parser's event sink.  It keeps an ordered list of
 * features and two "current" pointers, and each callback appends one thing
 * to one list and/or moves one pointer.  Scenarios, backgrounds and
 * outlines are one class, `StepContainer`, told apart by their `kind`.
 */
module Satisfy {
  import opened Wrappers
  import opened Gherkin
  import opened Steps
  import Tags
  import Outline

  datatype Kind = ScenarioKind | BackgroundKind | OutlineKind

  /** The arguments of a built step: the doc-string's value first when there
      is one, then a table of the rows' cells when there are rows (an empty
      list of rows still gives a table). */
  function StepArgs(step: StepRepr): (args: seq<Arg>)
    ensures |args| == (if step.docString.Some? then 1 else 0) + (if step.rows.Some? then 1 else 0)
    ensures step.docString.Some? ==> args[0] == Text(step.docString.value)
    ensures step.rows.Some? ==> args[|args| - 1] == Grid(step.rows.value)
  {
    (if step.docString.Some? then [Text(step.docString.value)] else [])
    + (if step.rows.Some? then [Grid(step.rows.value)] else [])
  }

  /** A scenario, a background or a scenario outline: a header and a list of
      steps that step events append to. */
  class StepContainer {
    const kind: Kind
    const repr: Repr
    var steps: seq<Step>

    constructor (kind: Kind, repr: Repr)
      ensures this.kind == kind && this.repr == repr && steps == []
    {
      this.kind := kind;
      this.repr := repr;
      steps := [];
    }

    /** `rows_to_scenarios`: one new scenario per data row, in row order,
        sharing this outline's header and holding the expanded steps. */
    method RowsToScenarios(examples: ExamplesRepr, render: seq<string> -> string)
      returns (scenarios: seq<StepContainer>)
      requires kind == OutlineKind
      ensures |scenarios| == |Outline.Expand(steps, examples.rows, render)|
      ensures forall i :: 0 <= i < |scenarios| ==>
                && fresh(scenarios[i])
                && scenarios[i].kind == ScenarioKind
                && scenarios[i].repr == repr
                && scenarios[i].steps == Outline.Expand(steps, examples.rows, render)[i]
      ensures forall i, j :: 0 <= i < j < |scenarios| ==> scenarios[i] != scenarios[j]
    {
      var expanded := Outline.Expand(steps, examples.rows, render);
      scenarios := [];
      var i := 0;
      while i < |expanded|
        invariant 0 <= i <= |expanded| && |scenarios| == i
        invariant forall k :: 0 <= k < i ==>
                    && fresh(scenarios[k])
                    && scenarios[k].kind == ScenarioKind
                    && scenarios[k].repr == repr
                    && scenarios[k].steps == expanded[k]
        invariant forall k, m :: 0 <= k < m < i ==> scenarios[k] != scenarios[m]
      {
        var scenario := new StepContainer(ScenarioKind, repr);
        scenario.steps := expanded[i];
        scenarios := scenarios + [scenario];
        i := i + 1;
      }
    }
  }

  class Feature {
    const repr: Repr
    var scenarios: seq<StepContainer>
    var backgrounds: seq<StepContainer>

    constructor (repr: Repr)
      ensures this.repr == repr && scenarios == [] && backgrounds == []
    {
      this.repr := repr;
      scenarios := [];
      backgrounds := [];
    }

    /** `metadata_hash`: the tags hash merged with `type` and `satisfy: true`;
        the two fixed entries win over tags of the same name. */
    function MetadataHash(specType: string): (m: map<string, Tags.MetaValue>)
      ensures "type" in m && m["type"] == Tags.Classification(specType)
      ensures "satisfy" in m && m["satisfy"] == Tags.Flag(true)
      ensures forall i :: 0 <= i < |repr.tags| ==> Tags.StripTag(repr.tags[i]) in m
      ensures forall t :: t in m && t != "type" ==> m[t] == Tags.Flag(true)
      ensures forall t :: t in m ==> t in Tags.Tags(repr.tags) || t == "type" || t == "satisfy"
    {
      var tagsHash := Tags.TagsHash(repr.tags);
      var fixed := map["type" := Tags.Classification(specType), "satisfy" := Tags.Flag(true)];
      assert forall t :: t in tagsHash + fixed ==> t in tagsHash || t in fixed;
      tagsHash + fixed
    }
  }

  /** The callbacks the Gherkin parser makes, with their representations. */
  datatype Event =
    | FeatureEvent(repr: Repr)
    | ScenarioEvent(repr: Repr)
    | BackgroundEvent(repr: Repr)
    | OutlineEvent(repr: Repr)
    | StepEvent(step: StepRepr)
    | ExamplesEvent(examples: ExamplesRepr)

  /** What the builder's pointers are set to, as far as the callbacks care. */
  datatype Context = NoContext | PlainContext | OutlineContext
  datatype Phase = Phase(hasFeature: bool, context: Context)

  /** The phase after one event, or `None` when the callback would fail:
      `scenario` and `background` dereference the current feature, `step`
      the current context, and `examples` both, calling a method only an
      outline has.  `feature` leaves the current context as it was. */
  function Next(p: Phase, e: Event): Option<Phase> {
    match e
    case FeatureEvent(_) => Some(Phase(true, p.context))
    case ScenarioEvent(_) => if p.hasFeature then Some(Phase(true, PlainContext)) else None
    case BackgroundEvent(_) => if p.hasFeature then Some(Phase(true, PlainContext)) else None
    case OutlineEvent(_) => Some(Phase(p.hasFeature, OutlineContext))
    case StepEvent(_) => if p.context != NoContext then Some(p) else None
    case ExamplesEvent(_) =>
      if p.hasFeature && p.context == OutlineContext then Some(p) else None
  }

  /** The phase after a whole event stream, from a fresh builder. */
  function Run(events: seq<Event>): Option<Phase>
    decreases |events|
  {
    if events == [] then Some(Phase(false, NoContext))
    else
      match Run(events[..|events| - 1])
      case None => None
      case Some(p) => Next(p, events[|events| - 1])
  }

  /** No callback of the stream fails. */
  predicate WellNested(events: seq<Event>) {
    Run(events).Some?
  }

  lemma {:induction false} WellNestedPrefix(events: seq<Event>, n: int)
    requires WellNested(events) && 0 <= n <= |events|
    ensures WellNested(events[..n])
    decreases |events|
  {
    if n < |events| {
      var init := events[..|events| - 1];
      assert Run(init).Some?;
      WellNestedPrefix(init, n);
      assert init[..n] == events[..n];
    } else {
      assert events[..n] == events;
    }
  }

  /** The headers of the stream's feature events, in order. */
  function FeatureReprs(events: seq<Event>): seq<Repr>
    decreases |events|
  {
    if events == [] then []
    else
      var init := FeatureReprs(events[..|events| - 1]);
      match events[|events| - 1]
      case FeatureEvent(r) => init + [r]
      case _ => init
  }

  /** One more event extends the run by `Next` and, for a feature event,
      the feature headers by that header. */
  lemma RunExtend(events: seq<Event>, i: int)
    requires 0 <= i < |events|
    ensures Run(events[..i + 1]) == match Run(events[..i]) case None => None case Some(p) => Next(p, events[i])
    ensures FeatureReprs(events[..i + 1])
            == FeatureReprs(events[..i]) + (if events[i].FeatureEvent? then [events[i].repr] else [])
  {
    assert events[..i + 1][..i] == events[..i];
  }

  function Reprs(features: seq<Feature>): (r: seq<Repr>)
    ensures |r| == |features| && forall i :: 0 <= i < |r| ==> r[i] == features[i].repr
  {
    seq(|features|, i requires 0 <= i < |features| => features[i].repr)
  }

  class Builder {
    var specs: seq<Feature>
    var currentFeature: Feature?
    var currentContext: StepContainer?

    /** The current feature is the last one built, and is set once any is. */
    ghost predicate Valid()
      reads this
    {
      && (currentFeature == null <==> specs == [])
      && (specs != [] ==> currentFeature == specs[|specs| - 1])
    }

    ghost function CurrentPhase(): Phase
      reads this
    {
      Phase(
        currentFeature != null,
        if currentContext == null then NoContext
        else if currentContext.kind == OutlineKind then OutlineContext
        else PlainContext)
    }

    constructor ()
      ensures Valid() && specs == [] && currentFeature == null && currentContext == null
    {
      specs := [];
      currentFeature := null;
      currentContext := null;
    }

    /** `feature`: a new, empty feature is appended and becomes current. */
    method OnFeature(repr: Repr)
      modifies this`specs, this`currentFeature
      ensures currentFeature != null && fresh(currentFeature)
      ensures currentFeature.repr == repr
      ensures currentFeature.scenarios == [] && currentFeature.backgrounds == []
      ensures specs == old(specs) + [currentFeature]
      ensures Valid()
    {
      var feature := new Feature(repr);
      currentFeature := feature;
      specs := specs + [feature];
    }

    /** `scenario`: a new scenario becomes the current context and is
        appended to the current feature's scenarios. */
    method OnScenario(repr: Repr)
      requires currentFeature != null
      modifies this`currentContext, currentFeature`scenarios
      ensures currentContext != null && fresh(currentContext)
      ensures currentContext.kind == ScenarioKind && currentContext.repr == repr && currentContext.steps == []
      ensures currentFeature.scenarios == old(currentFeature.scenarios) + [currentContext]
    {
      var scenario := new StepContainer(ScenarioKind, repr);
      currentContext := scenario;
      currentFeature.scenarios := currentFeature.scenarios + [scenario];
    }

    /** `background`: a new background becomes the current context and is
        appended to the current feature's backgrounds. */
    method OnBackground(repr: Repr)
      requires currentFeature != null
      modifies this`currentContext, currentFeature`backgrounds
      ensures currentContext != null && fresh(currentContext)
      ensures currentContext.kind == BackgroundKind && currentContext.repr == repr && currentContext.steps == []
      ensures currentFeature.backgrounds == old(currentFeature.backgrounds) + [currentContext]
    {
      var background := new StepContainer(BackgroundKind, repr);
      currentContext := background;
      currentFeature.backgrounds := currentFeature.backgrounds + [background];
    }

    /** `scenario_outline`: a new outline becomes the current context; it is
        not added to the feature. */
    method OnScenarioOutline(repr: Repr)
      modifies this`currentContext
      ensures currentContext != null && fresh(currentContext)
      ensures currentContext.kind == OutlineKind && currentContext.repr == repr && currentContext.steps == []
    {
      currentContext := new StepContainer(OutlineKind, repr);
    }

    /** `step`: one step is appended to the current context's steps. */
    method OnStep(step: StepRepr)
      requires currentContext != null
      modifies currentContext`steps
      ensures currentContext.steps
              == old(currentContext.steps) + [Step(step.keyword, step.name, step.line, StepArgs(step))]
    {
      currentContext.steps := currentContext.steps + [Step(step.keyword, step.name, step.line, StepArgs(step))];
    }

    /** `examples`: the current outline's expansion is appended, in row
        order, to the current feature's scenarios. */
    method OnExamples(examples: ExamplesRepr, render: seq<string> -> string)
      requires currentFeature != null && currentContext != null && currentContext.kind == OutlineKind
      modifies currentFeature`scenarios
      ensures |currentFeature.scenarios|
              == |old(currentFeature.scenarios)| + |Outline.Expand(currentContext.steps, examples.rows, render)|
      ensures currentFeature.scenarios[..|old(currentFeature.scenarios)|] == old(currentFeature.scenarios)
      ensures forall i :: |old(currentFeature.scenarios)| <= i < |currentFeature.scenarios| ==>
                && fresh(currentFeature.scenarios[i])
                && currentFeature.scenarios[i].kind == ScenarioKind
                && currentFeature.scenarios[i].repr == currentContext.repr
                && currentFeature.scenarios[i].steps
                   == Outline.Expand(currentContext.steps, examples.rows, render)[i - |old(currentFeature.scenarios)|]
    {
      var added := currentContext.RowsToScenarios(examples, render);
      currentFeature.scenarios := currentFeature.scenarios + added;
    }

    /** The callback an event stands for. */
    method Handle(e: Event, render: seq<string> -> string)
      requires Next(CurrentPhase(), e).Some?
      requires Valid()
      modifies this, currentFeature, currentContext
      ensures Valid()
      ensures Next(old(CurrentPhase()), e) == Some(CurrentPhase())
      ensures Reprs(specs) == old(Reprs(specs)) + (if e.FeatureEvent? then [e.repr] else [])
      ensures currentFeature == old(currentFeature) || fresh(currentFeature)
      ensures currentContext == old(currentContext) || fresh(currentContext)
    {
      match e {
        case FeatureEvent(r) =>
          OnFeature(r);
        case ScenarioEvent(r) =>
          OnScenario(r);
        case BackgroundEvent(r) =>
          OnBackground(r);
        case OutlineEvent(r) =>
          OnScenarioOutline(r);
        case StepEvent(s) =>
          OnStep(s);
        case ExamplesEvent(x) =>
          OnExamples(x, render);
      }
    }

    /** `Builder.build` with the parser's callbacks given as an event stream:
        one feature per feature event, in event order. */
    static method Build(events: seq<Event>, render: seq<string> -> string) returns (specs: seq<Feature>)
      requires WellNested(events)
      ensures Reprs(specs) == FeatureReprs(events)
    {
      var builder := new Builder();
      var i := 0;
      while i < |events|
        invariant 0 <= i <= |events|
        invariant fresh(builder) && builder.Valid()
        invariant builder.currentFeature != null ==> fresh(builder.currentFeature)
        invariant builder.currentContext != null ==> fresh(builder.currentContext)
        invariant Run(events[..i]) == Some(builder.CurrentPhase())
        invariant Reprs(builder.specs) == FeatureReprs(events[..i])
      {
        WellNestedPrefix(events, i + 1);
        RunExtend(events, i);
        builder.Handle(events[i], render);
        i := i + 1;
      }
      assert events[..i] == events;
      specs := builder.specs;
    }
  }
}
