/** The action messages consumed by the drawing reducer, one constructor per
    DRAWING.* tag. Each constructor carries every field the reducer reads for
    that tag, so a field a creator leaves out shows up as `Undefined`. */
module DrawingActionTypes {
  import opened Js

  /** Values of the INTERACTIONS constants. Only `modify` and `select` are
      named by the creators; every other drawing or measuring type is opaque. */
  datatype Interaction = Modify | Select | Other(name: string)

  /** Incremental measurements in meters: [] for a point, [area] for a polygon. */
  type Segments = seq<real>

  datatype Action =
    | Start(interaction: JsVal<Interaction>, sourceName: JsVal<string>,
            currentMode: JsVal<string>, afterMode: JsVal<string>,
            currentModeOptions: JsVal<Obj>, feature: JsVal<Obj>,
            segments: JsVal<Segments>)
    | End(afterMode: JsVal<string>, currentMode: JsVal<string>,
          feature: JsVal<Obj>, segments: JsVal<Segments>)
    | SetEditStyle(editStyle: JsVal<Obj>)
    | SetSelectStyle(selectStyle: JsVal<Obj>)
    | SetModifyStyle(modifyStyle: JsVal<Obj>)
    | SetMeasureStyle(measureStyle: JsVal<Obj>)
    | SetMeasureFeature(feature: JsVal<Obj>, segments: JsVal<Segments>)
    | FinalizeMeasureFeature(feature: JsVal<Obj>, segments: JsVal<Segments>)
    | FinishMeasureGeometry(feature: JsVal<Obj>, segments: JsVal<Segments>)
      /** The creator's misspelled `measuredFeautres` field, which no reducer reads. */
    | ClearMeasureFeature(measuredFeautres: JsVal<seq<Obj>>)
      /** Any action whose tag is none of the above (other slices' actions). */
    | Unrecognized(tag: string)

  /** True of the four style setters. */
  predicate IsStyleSetter(a: Action) {
    a.SetEditStyle? || a.SetSelectStyle? || a.SetModifyStyle? || a.SetMeasureStyle?
  }
}

/** The action creators of the drawing slice. Arguments a JavaScript caller
    leaves out are passed as `Undefined`. */
module DrawingActions {
  import opened Js
  import opened T = DrawingActionTypes

  /** Start an interaction on the map: the drawing type becomes `interaction`,
      the other five arguments are passed through, and no `segments` field is set. */
  function StartDrawing(sourceName: JsVal<string>, drawingType: JsVal<Interaction>,
                        afterMode: JsVal<string>, currentMode: JsVal<string>,
                        currentModeOptions: JsVal<Obj>, feature: JsVal<Obj>): (a: Action)
    ensures a.Start? && a.interaction == drawingType && a.sourceName == sourceName
    ensures a.afterMode == afterMode && a.currentMode == currentMode
    ensures a.currentModeOptions == currentModeOptions && a.feature == feature
    ensures a.segments == Undefined
  {
    T.Start(drawingType, sourceName, currentMode, afterMode, currentModeOptions, feature, Undefined)
  }

  /** Short-hand for modify: a START whose interaction is `modify` and whose
      mode options are undefined. */
  function StartModify(sourceName: JsVal<string>, afterMode: JsVal<string>,
                       currentMode: JsVal<string>, feature: JsVal<Obj>): (a: Action)
    ensures a.Start? && a.interaction == Defined(Modify)
    ensures a.sourceName == sourceName && a.afterMode == afterMode
    ensures a.currentMode == currentMode && a.feature == feature
    ensures a.currentModeOptions == Undefined && a.segments == Undefined
  {
    StartDrawing(sourceName, Defined(Modify), afterMode, currentMode, Undefined, feature)
  }

  /** Short-hand for select: only the source name is given. */
  function StartSelect(sourceName: JsVal<string>): (a: Action)
    ensures a.Start? && a.interaction == Defined(Select) && a.sourceName == sourceName
    ensures a.afterMode == Undefined && a.currentMode == Undefined
    ensures a.currentModeOptions == Undefined && a.feature == Undefined && a.segments == Undefined
  {
    StartDrawing(sourceName, Defined(Select), Undefined, Undefined, Undefined, Undefined)
  }

  /** Stop drawing, select or modify: the END message carries only `afterMode`. */
  function EndDrawing(afterMode: JsVal<string>): (a: Action)
    ensures a.End? && a.afterMode == afterMode
    ensures a.currentMode == Undefined && a.feature == Undefined && a.segments == Undefined
  {
    T.End(afterMode, Undefined, Undefined, Undefined)
  }

  /** Alias of `EndDrawing`. */
  function EndModify(afterMode: JsVal<string>): (a: Action)
    ensures a == EndDrawing(afterMode)
  {
    EndDrawing(afterMode)
  }

  /** Alias of `EndDrawing` called without an argument. */
  function EndSelect(): (a: Action)
    ensures a == EndDrawing(Undefined)
  {
    EndDrawing(Undefined)
  }

  /** Start measuring: a START with a null source name. */
  function StartMeasure(interaction: JsVal<Interaction>): (a: Action)
    ensures a.Start? && a.interaction == interaction && a.sourceName == Null
    ensures a.afterMode == Undefined && a.currentMode == Undefined
    ensures a.currentModeOptions == Undefined && a.feature == Undefined && a.segments == Undefined
  {
    StartDrawing(Null, interaction, Undefined, Undefined, Undefined, Undefined)
  }

  function SetMeasureFeature(feature: JsVal<Obj>, segments: JsVal<Segments>): (a: Action)
    ensures a.SetMeasureFeature? && a.feature == feature && a.segments == segments
  {
    T.SetMeasureFeature(feature, segments)
  }

  function FinalizeMeasureFeature(feature: JsVal<Obj>, segments: JsVal<Segments>): (a: Action)
    ensures a.FinalizeMeasureFeature? && a.feature == feature && a.segments == segments
  {
    T.FinalizeMeasureFeature(feature, segments)
  }

  function FinishMeasureGeometry(feature: JsVal<Obj>, segments: JsVal<Segments>): (a: Action)
    ensures a.FinishMeasureGeometry? && a.feature == feature && a.segments == segments
  {
    T.FinishMeasureGeometry(feature, segments)
  }

  /** Clear the measurement; the payload is an empty list under the misspelled key. */
  function ClearMeasureFeature(): (a: Action)
    ensures a.ClearMeasureFeature? && a.measuredFeautres == Defined([])
  {
    T.ClearMeasureFeature(Defined([]))
  }

  function SetEditStyle(mbStyle: JsVal<Obj>): (a: Action)
    ensures a.SetEditStyle? && a.editStyle == mbStyle
  {
    T.SetEditStyle(mbStyle)
  }

  function SetSelectStyle(mbStyle: JsVal<Obj>): (a: Action)
    ensures a.SetSelectStyle? && a.selectStyle == mbStyle
  {
    T.SetSelectStyle(mbStyle)
  }

  function SetModifyStyle(mbStyle: JsVal<Obj>): (a: Action)
    ensures a.SetModifyStyle? && a.modifyStyle == mbStyle
  {
    T.SetModifyStyle(mbStyle)
  }

  function SetMeasureStyle(mbStyle: JsVal<Obj>): (a: Action)
    ensures a.SetMeasureStyle? && a.measureStyle == mbStyle
  {
    T.SetMeasureStyle(mbStyle)
  }
}
