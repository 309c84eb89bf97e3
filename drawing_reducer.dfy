/** The drawing reducer: a total, pure state machine over the editing-mode
    record. Every recognised tag overwrites a fixed set of fields, taken from
    the action or set to constants, and keeps the rest of the state. */
module DrawingReducer {
  import opened Js
  import opened DrawingActionTypes
  import A = DrawingActions

  /** One entry of the measurement history. */
  datatype MeasuredFeature = MeasuredFeature(feature: JsVal<Obj>, segments: JsVal<Segments>)

  datatype State = State(
    interaction: JsVal<Interaction>,
    sourceName: JsVal<string>,
    feature: JsVal<Obj>,
    measureFeature: JsVal<Obj>,
    measureSegments: JsVal<Segments>,
    currentMode: JsVal<string>,
    afterMode: JsVal<string>,
    currentModeOptions: JsVal<Obj>,
    measureDone: bool,
    editStyle: JsVal<Obj>,
    modifyStyle: JsVal<Obj>,
    selectStyle: JsVal<Obj>,
    measureStyle: JsVal<Obj>,
    /** Most recent first. */
    measuredFeatures: seq<MeasuredFeature>,
    /** Not part of the default state, so it starts out undefined. */
    measureFinishGeometry: JsVal<bool>)

  /** The state used when the store has none yet. */
  function DefaultState(): (s: State)
    ensures s.measuredFeatures == [] && !s.measureDone
    ensures s.interaction == Null && s.sourceName == Null && s.feature == Null
    ensures s.measureFeature == Null && s.measureSegments == Null
    ensures s.currentMode == Null && s.afterMode == Null && s.currentModeOptions == Null
    ensures s.editStyle == Null && s.modifyStyle == Null && s.selectStyle == Null && s.measureStyle == Null
    ensures s.measureFinishGeometry == Undefined
  {
    State(Null, Null, Null, Null, Null, Null, Null, Null, false,
          Null, Null, Null, Null, [], Undefined)
  }

  /** The fields of the state record, to speak about frames. */
  datatype Field =
    | InteractionField | SourceNameField | FeatureField | MeasureFeatureField
    | MeasureSegmentsField | CurrentModeField | AfterModeField | CurrentModeOptionsField
    | MeasureDoneField | EditStyleField | ModifyStyleField | SelectStyleField
    | MeasureStyleField | MeasuredFeaturesField | MeasureFinishGeometryField

  /** `s` and `t` hold the same value in field `f`. */
  predicate Agree(s: State, t: State, f: Field) {
    match f
    case InteractionField => s.interaction == t.interaction
    case SourceNameField => s.sourceName == t.sourceName
    case FeatureField => s.feature == t.feature
    case MeasureFeatureField => s.measureFeature == t.measureFeature
    case MeasureSegmentsField => s.measureSegments == t.measureSegments
    case CurrentModeField => s.currentMode == t.currentMode
    case AfterModeField => s.afterMode == t.afterMode
    case CurrentModeOptionsField => s.currentModeOptions == t.currentModeOptions
    case MeasureDoneField => s.measureDone == t.measureDone
    case EditStyleField => s.editStyle == t.editStyle
    case ModifyStyleField => s.modifyStyle == t.modifyStyle
    case SelectStyleField => s.selectStyle == t.selectStyle
    case MeasureStyleField => s.measureStyle == t.measureStyle
    case MeasuredFeaturesField => s.measuredFeatures == t.measuredFeatures
    case MeasureFinishGeometryField => s.measureFinishGeometry == t.measureFinishGeometry
  }

  /** The keys of the object literal each case merges into the state. */
  function Writes(a: Action): (fs: set<Field>) {
    match a
    case Start(_, _, _, _, _, _, _) =>
      {InteractionField, SourceNameField, CurrentModeField, AfterModeField,
       CurrentModeOptionsField, MeasureDoneField, MeasureFeatureField,
       MeasureSegmentsField, FeatureField}
    case End(_, _, _, _) =>
      {InteractionField, SourceNameField, CurrentModeField, AfterModeField,
       CurrentModeOptionsField, MeasureDoneField, MeasureFeatureField, MeasureSegmentsField}
    case SetEditStyle(_) => {EditStyleField}
    case SetSelectStyle(_) => {SelectStyleField}
    case SetModifyStyle(_) => {ModifyStyleField}
    case SetMeasureStyle(_) => {MeasureStyleField}
    case SetMeasureFeature(_, _) => {MeasureDoneField, MeasureFeatureField, MeasureSegmentsField}
    case FinalizeMeasureFeature(_, _) =>
      {MeasureDoneField, MeasureFinishGeometryField, MeasureFeatureField,
       MeasureSegmentsField, MeasuredFeaturesField}
    case FinishMeasureGeometry(_, _) => {MeasureFinishGeometryField}
    case ClearMeasureFeature(_) =>
      {MeasureFeatureField, MeasureSegmentsField, MeasureDoneField, MeasuredFeaturesField}
    case Unrecognized(_) => {}
  }

  /** Two states that agree on every field are equal. */
  lemma Extensionality(s: State, t: State)
    requires forall f :: Agree(s, t, f)
    ensures s == t
  {
    assert Agree(s, t, InteractionField) && Agree(s, t, SourceNameField);
    assert Agree(s, t, FeatureField) && Agree(s, t, MeasureFeatureField);
    assert Agree(s, t, MeasureSegmentsField) && Agree(s, t, CurrentModeField);
    assert Agree(s, t, AfterModeField) && Agree(s, t, CurrentModeOptionsField);
    assert Agree(s, t, MeasureDoneField) && Agree(s, t, EditStyleField);
    assert Agree(s, t, ModifyStyleField) && Agree(s, t, SelectStyleField);
    assert Agree(s, t, MeasureStyleField) && Agree(s, t, MeasuredFeaturesField);
    assert Agree(s, t, MeasureFinishGeometryField);
  }

  /** The drawing reducer. Fields outside `Writes(a)` keep their value;
      `measureDone` is true afterwards exactly when the action finalized a
      measurement, or it was already true and the action does not touch it. */
  function Reduce(s: State, a: Action): (r: State)
    ensures forall f :: f !in Writes(a) ==> Agree(s, r, f)
    ensures r.measureDone <==>
              a.FinalizeMeasureFeature? ||
              (s.measureDone && (IsStyleSetter(a) || a.FinishMeasureGeometry? || a.Unrecognized?))
    ensures a.FinalizeMeasureFeature? ==>
              r.measuredFeatures == [MeasuredFeature(a.feature, a.segments)] + s.measuredFeatures
    ensures a.ClearMeasureFeature? ==> r.measuredFeatures == []
  {
    match a
    case End(afterMode, currentMode, feature, segments) =>
      s.(interaction := Null, sourceName := Null, currentMode := currentMode,
         afterMode := afterMode, currentModeOptions := Null, measureDone := false,
         measureFeature := feature, measureSegments := segments)
    case Start(interaction, sourceName, currentMode, afterMode, options, feature, segments) =>
      s.(interaction := interaction, sourceName := sourceName, currentMode := currentMode,
         afterMode := afterMode, currentModeOptions := options, measureDone := false,
         measureFeature := feature, measureSegments := segments, feature := feature)
    case SetEditStyle(style) => s.(editStyle := style)
    case SetSelectStyle(style) => s.(selectStyle := style)
    case SetModifyStyle(style) => s.(modifyStyle := style)
    case SetMeasureStyle(style) => s.(measureStyle := style)
    case SetMeasureFeature(feature, segments) =>
      s.(measureDone := false, measureFeature := feature, measureSegments := segments)
    case FinalizeMeasureFeature(feature, segments) =>
      s.(measureDone := true, measureFinishGeometry := Defined(false),
         measureFeature := feature, measureSegments := segments,
         measuredFeatures := [MeasuredFeature(feature, segments)] + s.measuredFeatures)
    case FinishMeasureGeometry(_, _) => s.(measureFinishGeometry := Defined(true))
    case ClearMeasureFeature(_) =>
      s.(measureFeature := Null, measureSegments := Null, measureDone := false,
         measuredFeatures := [])
    case Unrecognized(_) => s
  }

  /** What a call of the reducer comes to. */
  datatype ReducerResult =
    | Record(state: State)
      /** An object holding only the fields `keys`, with the values `values`
          has in them; every other field is undefined. */
    | Partial(keys: set<Field>, values: State)
    | NullResult
      /** A TypeError, from reading `measuredFeatures` of null. */
    | Throws

  /** The reducer as called by the store. The default parameter replaces only
      an undefined state. A null state stays null: an unknown tag returns it,
      FINALIZE throws on reading its history, and every other tag returns its
      own object literal alone, since `Object.assign` skips a null source. */
  function ReduceInitial(state: JsVal<State>, a: Action): (r: ReducerResult)
    ensures state.Defined? ==> r == Record(Reduce(state.value, a))
    ensures state.Undefined? ==> r == Record(Reduce(DefaultState(), a))
    ensures state.Null? ==> (r.NullResult? <==> a.Unrecognized?)
    ensures state.Null? ==> (r.Throws? <==> a.FinalizeMeasureFeature?)
    ensures state.Null? && !a.Unrecognized? && !a.FinalizeMeasureFeature? ==> r.Partial?
    ensures state.Null? && r.Partial? ==>
              && r.keys == Writes(a)
              && forall s: State, f :: f in Writes(a) ==> Agree(r.values, Reduce(s, a), f)
  {
    match state
    case Defined(s) => Record(Reduce(s, a))
    case Undefined => Record(Reduce(DefaultState(), a))
    case Null =>
      if a.Unrecognized? then NullResult
      else if a.FinalizeMeasureFeature? then Throws
      else
        WrittenIgnoreState(DefaultState(), a);
        Partial(Writes(a), Reduce(DefaultState(), a))
  }

  /** Except for FINALIZE, which reads the history, the values a tag writes
      come from the action alone and not from the state. */
  lemma WrittenIgnoreState(t: State, a: Action)
    requires !a.FinalizeMeasureFeature?
    ensures forall s: State, f :: f in Writes(a) ==> Agree(Reduce(t, a), Reduce(s, a), f)
  {
  }

  // ---------------------------------------------------------------------------
  // The effect of each tag

  /** An unrecognised tag returns the state unchanged. */
  lemma UnrecognizedIsIdentity(s: State, tag: string)
    ensures Reduce(s, Unrecognized(tag)) == s
  {
    Extensionality(s, Reduce(s, Unrecognized(tag)));
  }

  /** START: everything about the interaction comes from the action, the
      measurement restarts, styles and history are kept. */
  lemma StartEffect(s: State, a: Action)
    requires a.Start?
    ensures var r := Reduce(s, a);
      && r.interaction == a.interaction && r.sourceName == a.sourceName
      && r.currentMode == a.currentMode && r.afterMode == a.afterMode
      && r.currentModeOptions == a.currentModeOptions && r.feature == a.feature
      && r.measureFeature == a.feature && r.measureSegments == a.segments
      && !r.measureDone
      && r.editStyle == s.editStyle && r.selectStyle == s.selectStyle
      && r.modifyStyle == s.modifyStyle && r.measureStyle == s.measureStyle
      && r.measuredFeatures == s.measuredFeatures
      && r.measureFinishGeometry == s.measureFinishGeometry
  {
  }

  /** END: the interaction, its source and its options are nulled; modes and
      the measurement come from the action; `feature`, styles and history are kept. */
  lemma EndEffect(s: State, a: Action)
    requires a.End?
    ensures var r := Reduce(s, a);
      && r.interaction == Null && r.sourceName == Null && r.currentModeOptions == Null
      && !r.measureDone
      && r.currentMode == a.currentMode && r.afterMode == a.afterMode
      && r.measureFeature == a.feature && r.measureSegments == a.segments
      && r.feature == s.feature
      && r.editStyle == s.editStyle && r.selectStyle == s.selectStyle
      && r.modifyStyle == s.modifyStyle && r.measureStyle == s.measureStyle
      && r.measuredFeatures == s.measuredFeatures
      && r.measureFinishGeometry == s.measureFinishGeometry
  {
  }

  /** FINALIZE_MEASURE_FEATURE prepends the entry, so the history grows by one
      and its newest entry is at index 0. */
  lemma FinalizeEffect(s: State, a: Action)
    requires a.FinalizeMeasureFeature?
    ensures var r := Reduce(s, a);
      && |r.measuredFeatures| == |s.measuredFeatures| + 1
      && r.measuredFeatures[0] == MeasuredFeature(a.feature, a.segments)
      && r.measuredFeatures[1..] == s.measuredFeatures
      && r.measureDone && r.measureFinishGeometry == Defined(false)
      && r.measureFeature == a.feature && r.measureSegments == a.segments
  {
  }

  /** FINISH_MEASURE_GEOMETRY changes only `measureFinishGeometry`; its payload is ignored. */
  lemma FinishEffect(s: State, a: Action)
    requires a.FinishMeasureGeometry?
    ensures Reduce(s, a) == s.(measureFinishGeometry := Defined(true))
  {
    Extensionality(Reduce(s, a), s.(measureFinishGeometry := Defined(true)));
  }

  /** CLEAR_MEASURE_FEATURE resets the measurement and empties the history;
      interaction, modes, styles and `measureFinishGeometry` are kept, and the
      action's own payload plays no part. */
  lemma ClearEffect(s: State, a: Action, b: Action)
    requires a.ClearMeasureFeature? && b.ClearMeasureFeature?
    ensures var r := Reduce(s, a);
      && r.measureFeature == Null && r.measureSegments == Null
      && !r.measureDone && r.measuredFeatures == []
      && r.interaction == s.interaction && r.sourceName == s.sourceName
      && r.currentMode == s.currentMode && r.afterMode == s.afterMode
      && r.currentModeOptions == s.currentModeOptions && r.feature == s.feature
      && r.editStyle == s.editStyle && r.selectStyle == s.selectStyle
      && r.modifyStyle == s.modifyStyle && r.measureStyle == s.measureStyle
      && r.measureFinishGeometry == s.measureFinishGeometry
    ensures Reduce(s, a) == Reduce(s, b)
  {
  }

  /** SET_MEASURE_FEATURE changes only the measurement and resets `measureDone`. */
  lemma SetMeasureFeatureEffect(s: State, a: Action)
    requires a.SetMeasureFeature?
    ensures Reduce(s, a) == s.(measureFeature := a.feature, measureSegments := a.segments,
                               measureDone := false)
  {
    Extensionality(Reduce(s, a), s.(measureFeature := a.feature, measureSegments := a.segments,
                                    measureDone := false));
  }

  /** Each style setter changes exactly its own style field. */
  lemma StyleSetterEffect(s: State, a: Action)
    requires IsStyleSetter(a)
    ensures a.SetEditStyle? ==> Reduce(s, a) == s.(editStyle := a.editStyle)
    ensures a.SetSelectStyle? ==> Reduce(s, a) == s.(selectStyle := a.selectStyle)
    ensures a.SetModifyStyle? ==> Reduce(s, a) == s.(modifyStyle := a.modifyStyle)
    ensures a.SetMeasureStyle? ==> Reduce(s, a) == s.(measureStyle := a.measureStyle)
  {
  }

  /** Every action other than FINALIZE_MEASURE_FEATURE is idempotent: sending it
      twice in a row has the effect of sending it once. */
  lemma IdempotentExceptFinalize(s: State, a: Action)
    requires !a.FinalizeMeasureFeature?
    ensures Reduce(Reduce(s, a), a) == Reduce(s, a)
  {
  }

  // ---------------------------------------------------------------------------
  // Creators composed with the reducer

  /** `startModify` is `startDrawing` with the modify interaction and no options. */
  lemma StartModifyIsStartDrawing(src: JsVal<string>, after: JsVal<string>,
                                  cur: JsVal<string>, f: JsVal<Obj>)
    ensures A.StartModify(src, after, cur, f)
         == A.StartDrawing(src, Defined(Modify), after, cur, Undefined, f)
  {
  }

  /** Starting a drawing leaves the measurement segments undefined, because
      the creator has no `segments` field. */
  lemma StartDrawingClearsSegments(s: State, src: JsVal<string>, t: JsVal<Interaction>,
                                   after: JsVal<string>, cur: JsVal<string>,
                                   opts: JsVal<Obj>, f: JsVal<Obj>)
    ensures var r := Reduce(s, A.StartDrawing(src, t, after, cur, opts, f));
      && r.interaction == t && r.sourceName == src && r.afterMode == after
      && r.currentMode == cur && r.currentModeOptions == opts
      && r.feature == f && r.measureFeature == f
      && r.measureSegments == Undefined && !r.measureDone
  {
  }

  /** Starting a selection leaves modes, options, feature and measurement
      undefined while keeping the styles, the history and `measureFinishGeometry`. */
  lemma StartSelectEffect(s: State, src: JsVal<string>)
    ensures var r := Reduce(s, A.StartSelect(src));
      && r.interaction == Defined(Select) && r.sourceName == src
      && r.currentMode == Undefined && r.afterMode == Undefined
      && r.currentModeOptions == Undefined && r.feature == Undefined
      && r.measureFeature == Undefined && r.measureSegments == Undefined
      && !r.measureDone
      && r.editStyle == s.editStyle && r.selectStyle == s.selectStyle
      && r.modifyStyle == s.modifyStyle && r.measureStyle == s.measureStyle
      && r.measuredFeatures == s.measuredFeatures
      && r.measureFinishGeometry == s.measureFinishGeometry
  {
  }

  /** Starting a measurement targets no source. */
  lemma StartMeasureEffect(s: State, i: JsVal<Interaction>)
    ensures var r := Reduce(s, A.StartMeasure(i));
      && r.interaction == i && r.sourceName == Null && !r.measureDone
      && r.feature == Undefined && r.measureFeature == Undefined
  {
  }

  /** Ending through any of the three creators makes the current mode, the
      measurement feature and its segments undefined, and only `afterMode`
      differs between them. */
  lemma EndCreatorsEffect(s: State, after: JsVal<string>)
    ensures Reduce(s, A.EndModify(after)) == Reduce(s, A.EndDrawing(after))
    ensures Reduce(s, A.EndSelect()) == Reduce(s, A.EndDrawing(Undefined))
    ensures var r := Reduce(s, A.EndDrawing(after));
      && r.afterMode == after && r.currentMode == Undefined
      && r.measureFeature == Undefined && r.measureSegments == Undefined
      && r.interaction == Null && r.sourceName == Null && r.currentModeOptions == Null
      && r.feature == s.feature && r.measuredFeatures == s.measuredFeatures
  {
  }

  /** The payload of `finishMeasureGeometry` does not matter to the reducer. */
  lemma FinishIgnoresPayload(s: State, f: JsVal<Obj>, g: JsVal<Segments>,
                             f': JsVal<Obj>, g': JsVal<Segments>)
    ensures Reduce(s, A.FinishMeasureGeometry(f, g)) == Reduce(s, A.FinishMeasureGeometry(f', g'))
  {
  }

  /** Scenario: starting a drawing from the default state. */
  lemma StartFromDefault()
    ensures var r := ReduceInitial(Undefined,
                       A.StartDrawing(Defined("parcels"), Defined(Other("draw")),
                                      Defined("view"), Defined("edit"), Null, Null)).state;
      && r.interaction == Defined(Other("draw")) && r.sourceName == Defined("parcels")
      && r.currentMode == Defined("edit") && r.afterMode == Defined("view")
      && r.currentModeOptions == Null && r.feature == Null
      && r.measureFeature == Null && r.measureSegments == Undefined
      && !r.measureDone && r.measuredFeatures == []
      && r.editStyle == Null && r.measureFinishGeometry == Undefined
  {
  }

  // ---------------------------------------------------------------------------
  // Sequences of actions

  /** The state after dispatching `acts` in order. */
  function ReduceAll(s: State, acts: seq<Action>): (r: State)
    decreases |acts|
  {
    if acts == [] then s else ReduceAll(Reduce(s, acts[0]), acts[1..])
  }

  /** The finalize actions, one per entry, in the order given. */
  function Finalizes(items: seq<MeasuredFeature>): (acts: seq<Action>)
    ensures |acts| == |items|
    ensures forall i :: 0 <= i < |items| ==>
              acts[i] == A.FinalizeMeasureFeature(items[i].feature, items[i].segments)
  {
    if items == [] then []
    else [A.FinalizeMeasureFeature(items[0].feature, items[0].segments)] + Finalizes(items[1..])
  }

  /** The history entries of `items`, finalized in the order given, as the
      history lists them: the one finalized last comes first. */
  function NewestFirst(items: seq<MeasuredFeature>): (h: seq<MeasuredFeature>) {
    if items == [] then [] else NewestFirst(items[1..]) + [items[0]]
  }

  /** Entry k of the history counts back k finalizes from the most recent one. */
  lemma {:induction false} NewestFirstAt(items: seq<MeasuredFeature>, k: nat)
    requires k < |items|
    ensures |NewestFirst(items)| == |items| && NewestFirst(items)[k] == items[|items| - 1 - k]
  {
    if |items| == 1 {
    } else if k < |items| - 1 {
      NewestFirstAt(items[1..], k);
    } else {
      NewestFirstLength(items[1..]);
    }
  }

  /** The history lists one entry per finalize. */
  lemma {:induction false} NewestFirstLength(items: seq<MeasuredFeature>)
    ensures |NewestFirst(items)| == |items|
  {
    if items != [] {
      NewestFirstLength(items[1..]);
    }
  }

  /** N finalizes push their entries onto the history, newest first. */
  lemma {:induction false} FinalizesHistory(s: State, items: seq<MeasuredFeature>)
    ensures ReduceAll(s, Finalizes(items)).measuredFeatures == NewestFirst(items) + s.measuredFeatures
    decreases |items|
  {
    if items != [] {
      var acts := Finalizes(items);
      var s' := Reduce(s, acts[0]);
      assert acts[1..] == Finalizes(items[1..]);
      FinalizesHistory(s', items[1..]);
      assert s'.measuredFeatures == [items[0]] + s.measuredFeatures;
      assert NewestFirst(items) == NewestFirst(items[1..]) + [items[0]];
    }
  }

  /** From an empty history, N finalizes give a history of length N whose
      entry k is the (k+1)-th most recent. */
  lemma FinalizesFromEmpty(s: State, items: seq<MeasuredFeature>, k: nat)
    requires s.measuredFeatures == [] && k < |items|
    ensures var r := ReduceAll(s, Finalizes(items));
      && |r.measuredFeatures| == |items|
      && r.measuredFeatures[k] == items[|items| - 1 - k]
  {
    FinalizesHistory(s, items);
    NewestFirstAt(items, k);
  }

  /** The number of finalize actions in `acts`. */
  function CountFinalizes(acts: seq<Action>): (n: nat) {
    if acts == [] then 0
    else (if acts[0].FinalizeMeasureFeature? then 1 else 0) + CountFinalizes(acts[1..])
  }

  /** Between two clears the history only grows: the old history stays as a
      suffix, below one new entry per finalize. */
  lemma {:induction false} HistoryGrowsUntilCleared(s: State, acts: seq<Action>)
    requires forall i :: 0 <= i < |acts| ==> !acts[i].ClearMeasureFeature?
    ensures var h := ReduceAll(s, acts).measuredFeatures;
      && |h| == |s.measuredFeatures| + CountFinalizes(acts)
      && h[CountFinalizes(acts)..] == s.measuredFeatures
    decreases |acts|
  {
    if acts != [] {
      var s' := Reduce(s, acts[0]);
      assert MeasuredFeaturesField !in Writes(acts[0]) ==> Agree(s, s', MeasuredFeaturesField);
      HistoryGrowsUntilCleared(s', acts[1..]);
      var h := ReduceAll(s', acts[1..]).measuredFeatures;
      var n := CountFinalizes(acts[1..]);
      if acts[0].FinalizeMeasureFeature? {
        assert s'.measuredFeatures[1..] == s.measuredFeatures;
        assert h[n + 1..] == h[n..][1..];
      }
    }
  }

  /** A clear anywhere in the sequence, followed by no finalize, leaves the
      history empty. */
  lemma {:induction false} ClearEmptiesHistory(s: State, acts: seq<Action>, i: nat)
    requires i < |acts| && acts[i].ClearMeasureFeature?
    requires forall j :: i < j < |acts| ==> !acts[j].FinalizeMeasureFeature?
    ensures ReduceAll(s, acts).measuredFeatures == []
    decreases |acts|
  {
    var s' := Reduce(s, acts[0]);
    if i == 0 {
      NoFinalizeKeepsHistory(s', acts[1..]);
    } else {
      ClearEmptiesHistory(s', acts[1..], i - 1);
    }
  }

  /** An empty history stays empty while no finalize arrives. */
  lemma {:induction false} NoFinalizeKeepsHistory(s: State, acts: seq<Action>)
    requires s.measuredFeatures == []
    requires forall j :: 0 <= j < |acts| ==> !acts[j].FinalizeMeasureFeature?
    ensures ReduceAll(s, acts).measuredFeatures == []
    decreases |acts|
  {
    if acts != [] {
      var s' := Reduce(s, acts[0]);
      assert MeasuredFeaturesField !in Writes(acts[0]) ==> Agree(s, s', MeasuredFeaturesField);
      NoFinalizeKeepsHistory(s', acts[1..]);
    }
  }
}
