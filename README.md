# Drawing state, map-info messages and WFS-T edit bookkeeping

This project models three parts of a web mapping client and proves properties of the models.

1. **The drawing slice of the Redux store.**
   - The action creators build one message per `DRAWING.*` tag.
   - The reducer turns the current editing-mode record and one message into the next record. Each recognised tag overwrites a fixed set of fields and keeps the rest.
   - `FINALIZE_MEASURE_FEATURE` pushes one entry onto a measurement history, newest first. `CLEAR_MEASURE_FEATURE` empties it.
   - JavaScript's `undefined` and `null` are kept apart (`Js.JsVal`). A field a creator leaves out therefore shows up in the reducer's result as `Undefined`.
2. **The map-info action creators.** There is one message per `MAPINFO.*` tag, each with its payload keys.
3. **The WFS-T editing tool.**
   - A controller keeps a WFS feature store in step with draw, modify/select and delete gestures on one vector layer.
   - Each network exchange is split in two. The gesture handler returns the transaction it posts. A separate response method applies the finished exchange: its HTTP status, status text and the parsed transaction summary.
   - The controller keeps these, all updated in place:
     - a dirty map from feature id to `true`;
     - the selection, an ordered collection of features;
     - the set of features carrying a change listener;
     - a per-layer memo of draw interactions;
     - the set of interactions on the map;
     - the error shown to the user.
   - The property projection applied before an Update, the status routing and the outcome rules are pure functions in `WfsTransaction`.

Modules and files:

| file | modules |
|---|---|
| `js.dfy` | `Js`: `JsVal` (undefined / null / value), opaque `Obj`, `Option` |
| `drawing_actions.dfy` | `DrawingActionTypes`, `DrawingActions` |
| `drawing_reducer.dfy` | `DrawingReducer` |
| `mapinfo_actions.dfy` | `MapInfoActionTypes`, `MapInfoActions` |
| `wfs_transaction.dfy` | `WfsTransaction`: requests, outcomes, projection, dirty-driven Updates |
| `wfst.dfy` | `Wfst`: the live objects and the `Controller` class |
| `wfst_scenarios.dfy` | `WfstScenarios`: whole gestures with their responses, proved from the contracts |

## Model

| member | source | states |
|---|---|---|
| DrawingActions.StartDrawing | src/actions/drawing.js:31-41 | START whose interaction is the drawing type and whose source, modes, options and feature are passed through; `segments` is absent |
| DrawingActions.StartModify | src/actions/drawing.js:51-53 | START with the modify interaction, undefined mode options and undefined segments |
| DrawingActions.StartSelect | src/actions/drawing.js:60-62 | START with the select interaction and the source name; every other field undefined |
| DrawingActions.EndDrawing | src/actions/drawing.js:69-74 | END carrying `afterMode` only; current mode, feature and segments undefined |
| DrawingActions.EndModify | src/actions/drawing.js:81-83 | the same message as `endDrawing` with the same argument |
| DrawingActions.EndSelect | src/actions/drawing.js:88-90 | the same message as `endDrawing()` without argument |
| DrawingActions.StartMeasure | src/actions/drawing.js:98-100 | START with a null source name and the given interaction; the rest undefined |
| DrawingActions.SetMeasureFeature | src/actions/drawing.js:112-118 | SET_MEASURE_FEATURE carrying feature and segments unchanged |
| DrawingActions.FinalizeMeasureFeature | src/actions/drawing.js:126-132 | FINALIZE_MEASURE_FEATURE carrying feature and segments unchanged |
| DrawingActions.FinishMeasureGeometry | src/actions/drawing.js:140-146 | FINISH_MEASURE_GEOMETRY carrying feature and segments unchanged |
| DrawingActions.ClearMeasureFeature | src/actions/drawing.js:151-156 | CLEAR_MEASURE_FEATURE whose only payload is an empty list under the misspelled key |
| DrawingActions.SetEditStyle | src/actions/drawing.js:162-167 | the argument under `editStyle` |
| DrawingActions.SetSelectStyle | src/actions/drawing.js:173-178 | the argument under `selectStyle` |
| DrawingActions.SetModifyStyle | src/actions/drawing.js:184-189 | the argument under `modifyStyle` |
| DrawingActions.SetMeasureStyle | src/actions/drawing.js:195-200 | the argument under `measureStyle` |
| DrawingReducer.DefaultState | src/reducers/drawing.js:24-41 | every field null, `measureDone` false, empty history, `measureFinishGeometry` undefined because it is not listed |
| DrawingReducer.Reduce | src/reducers/drawing.js:49-131 | fields a tag does not write keep their value; `measureDone` is true afterwards iff the step finalized, or it was true and the step was a style setter, FINISH or unrecognised; FINALIZE prepends the entry to the history; CLEAR empties the history |
| DrawingReducer.ReduceInitial | src/reducers/drawing.js:49-131 | an undefined state is replaced by the default state; a null state is kept, so an unknown tag returns null, FINALIZE throws on reading its history, and every other tag returns an object holding only the keys it writes |
| DrawingReducer.WrittenIgnoreState | src/reducers/drawing.js:51-127 | except for FINALIZE, the values a tag writes do not depend on the state |
| DrawingReducer.UnrecognizedIsIdentity | src/reducers/drawing.js:128-129 | an unknown tag returns the state unchanged |
| DrawingReducer.StartEffect | src/reducers/drawing.js:66-79 | START takes interaction, source, modes, options and feature from the action, copies feature and segments into the measurement, clears `measureDone`, keeps styles, history and `measureFinishGeometry` |
| DrawingReducer.EndEffect | src/reducers/drawing.js:51-65 | END nulls interaction, source and options, clears `measureDone`, copies modes and measurement from the action, keeps `feature`, styles and history |
| DrawingReducer.FinalizeEffect | src/reducers/drawing.js:102-114 | the history grows by one with the new entry at index 0 over the old history; `measureDone` true, `measureFinishGeometry` false |
| DrawingReducer.FinishEffect | src/reducers/drawing.js:115-118 | the result is the state with only `measureFinishGeometry` set to true |
| DrawingReducer.ClearEffect | src/reducers/drawing.js:119-127 | the measurement is nulled, `measureDone` cleared and the history emptied; every other field kept; two CLEAR messages give the same result whatever their payload |
| DrawingReducer.SetMeasureFeatureEffect | src/reducers/drawing.js:96-101 | only feature, segments and `measureDone := false` change |
| DrawingReducer.StyleSetterEffect | src/reducers/drawing.js:80-95 | each style setter changes exactly its own style field |
| DrawingReducer.IdempotentExceptFinalize | src/reducers/drawing.js:49-131 | every message except FINALIZE has the same effect sent twice as once |
| DrawingReducer.StartModifyIsStartDrawing | src/actions/drawing.js:51-53 | `startModify` equals `startDrawing` with the modify interaction and undefined options |
| DrawingReducer.StartDrawingClearsSegments | src/reducers/drawing.js:66-79 | reducing a `startDrawing` message leaves `measureSegments` undefined and takes the rest from the arguments |
| DrawingReducer.StartSelectEffect | src/actions/drawing.js:60-62 | reducing `startSelect` leaves modes, options, feature and measurement undefined, keeps all four styles, the history and `measureFinishGeometry` |
| DrawingReducer.StartMeasureEffect | src/actions/drawing.js:98-100 | reducing `startMeasure` leaves the source null and the feature undefined |
| DrawingReducer.EndCreatorsEffect | src/actions/drawing.js:69-90 | the three end creators reduce alike except for `afterMode`; current mode and measurement become undefined |
| DrawingReducer.FinishIgnoresPayload | src/reducers/drawing.js:115-118 | the FINISH payload does not affect the result |
| DrawingReducer.StartFromDefault | src/reducers/drawing.js:49-79 | a START reduced without a state starts from the default state |
| DrawingReducer.FinalizesHistory | src/reducers/drawing.js:102-114 | N finalizes put their entries, in reverse order, on top of the old history |
| DrawingReducer.FinalizesFromEmpty | src/reducers/drawing.js:102-114 | from an empty history N finalizes give length N, entry k being the (k+1)-th most recent |
| DrawingReducer.HistoryGrowsUntilCleared | src/reducers/drawing.js:102-127 | without a CLEAR the history gains one entry per finalize, and the old history stays as its suffix |
| DrawingReducer.ClearEmptiesHistory | src/reducers/drawing.js:119-127 | a CLEAR followed by no finalize leaves the history empty |
| DrawingReducer.NoFinalizeKeepsHistory | src/reducers/drawing.js:102-127 | an empty history stays empty while no finalize arrives |
| MapInfoActions.SetMapSize | src/actions/mapinfo.js:25-30 | SET_SIZE carrying exactly `size` |
| MapInfoActions.SetMousePosition | src/actions/mapinfo.js:38-44 | SET_MOUSE_POSITION carrying `lngLat` and `coordinate` |
| MapInfoActions.SetMapExtent | src/actions/mapinfo.js:51-56 | SET_EXTENT carrying exactly `extent` |
| MapInfoActions.SetResolution | src/actions/mapinfo.js:63-68 | SET_RESOLUTION carrying exactly `resolution` |
| MapInfoActions.SetProjection | src/actions/mapinfo.js:75-80 | SET_PROJECTION carrying exactly `projection` |
| MapInfoActions.RequestRedraw | src/actions/mapinfo.js:86-90 | REQUEST_REDRAW with no payload |
| MapInfoActions.RequestSourceRedraw | src/actions/mapinfo.js:98-103 | REQUEST_SOURCE_REDRAW carrying exactly `srcName` |
| MapInfoActions.SetSourceError | src/actions/mapinfo.js:111-116 | SET_SOURCE_ERROR carrying exactly `srcName` |
| MapInfoActions.ClearSourceErrors | src/actions/mapinfo.js:122-126 | CLEAR_SOURCE_ERRORS with no payload |
| MapInfoActions.SetMapLoading | src/actions/mapinfo.js:132-136 | SET_MAP_LOADING with no payload |
| MapInfoActions.SetMapLoaded | src/actions/mapinfo.js:142-146 | SET_MAP_LOADED with no payload |
| MapInfoActions.SourceMessagesDifferOnlyByTag | src/actions/mapinfo.js:98-116 | the two source messages carry the same key and value and are told apart by the tag alone |
| WfsTransaction.Classify | js/components/WFST.jsx:217-224 | status 200 goes to the success callback, any other status to the failure callback |
| WfsTransaction.ProjectForUpdate | js/components/WFST.jsx:178-184 | `bbox` is gone; with equal names the rest is kept; with different names the geometry moves from the feature's key to the layer's key and the old key is gone; every other key keeps its value |
| WfsTransaction.CloneForUpdate | js/components/WFST.jsx:185-189 | the clone has the feature's id and the projected properties; it takes the layer's geometry name when that differs, and otherwise keeps the default name of a new feature |
| WfsTransaction.CloneKeepsCleanProperties | js/components/WFST.jsx:178-185 | with no `bbox` and matching names the clone's properties are the feature's |
| WfsTransaction.CloneGeometryUnderLayerName | js/components/WFST.jsx:181-189 | after renaming, the clone's geometry name points at the feature's geometry value and the old key is gone |
| WfsTransaction.FirstInsertId | js/components/WFST.jsx:253 | the first insert id, or undefined for an empty list |
| WfsTransaction.NatToString | js/components/WFST.jsx:153 | the text of a status as string concatenation renders it: non-empty, digits only, one digit exactly below 10, a leading zero only for 0 |
| WfsTransaction.NatToStringValue | js/components/WFST.jsx:153 | the digits denote the status they render |
| WfsTransaction.NatToStringInjective | js/components/WFST.jsx:153 | two statuses have the same text exactly when they are equal |
| WfsTransaction.ErrorText | js/components/WFST.jsx:149-153 | a failed exchange reads as the decimal text of its status, a space, then the status text |
| WfsTransaction.PendingUpdate | js/components/WFST.jsx:171-197 | deselecting posts an Update exactly when the id is dirty, carrying the clone and the layer's namespace and type |
| WfsTransaction.UpdatesOnClearSingle | js/components/WFST.jsx:146 | clearing one selected feature posts its pending Update, so one request exactly when it is dirty |
| WfsTransaction.UpdatesOnClearCount | js/components/WFST.jsx:146 | clearing a selection posts one Update per dirty feature, and none when no feature is dirty |
| WfsTransaction.UpdatesOnClearAreUpdates | js/components/WFST.jsx:171-190 | each request posted while clearing is an Update of the clone of a dirty selected feature |
| Wfst.IsEditableLayer | js/components/WFST.jsx:162-164 | a layer is offered iff its `isWFST` flag is true; a missing or null flag excludes it |
| Wfst.Controller.constructor | js/components/WFST.jsx:75-104 | nothing dirty, nothing selected, no draw interaction, nothing on the map, no error |
| Wfst.Controller.SetLayer | js/components/WFST.jsx:120-121 | the edited layer becomes the given one |
| Wfst.Controller.Deactivate | js/components/WFST.jsx:128 | no interaction is left on the map |
| Wfst.Controller.Activate | js/components/WFST.jsx:129 | the given interactions are added to those on the map |
| Wfst.Controller.ModifyFeature | js/components/WFST.jsx:127-130 | afterwards exactly select and modify are on the map |
| Wfst.Controller.DrawFeature | js/components/WFST.jsx:269-286 | the layer's draw interaction is created once, with the layer's source, geometry type and name, and reused later; afterwards it alone is on the map |
| Wfst.Controller.AddToSelection | js/components/WFST.jsx:99 | the feature is appended to the selection and the 'add' handler runs |
| Wfst.Controller.OnSelectAdd | js/components/WFST.jsx:165-170 | the feature gets the change listener |
| Wfst.Controller.OnFeatureChange | js/components/WFST.jsx:167-169 | a change of a listened feature marks its current id dirty; nothing else changes |
| Wfst.Controller.RemoveFromSelection | js/components/WFST.jsx:100 | the feature leaves the selection, the rest keeps its order, and the pending Update of that feature is posted |
| Wfst.Controller.OnSelectRemove | js/components/WFST.jsx:171-197 | the in-place projection done by the handler posts exactly the pending Update |
| Wfst.Controller.OnUpdateResponse | js/components/WFST.jsx:198-208 | success with exactly one updated feature clears its dirty flag; any other success keeps it; failure keeps it and reports status and text |
| Wfst.Controller.DeleteFeature | js/components/WFST.jsx:131-141 | a Delete of the selected feature is posted iff exactly one is selected |
| Wfst.Controller.ClearSelection | js/components/WFST.jsx:146 | the selection is emptied from its end and the posted Updates are those of the reference `UpdatesOnClear` |
| Wfst.Controller.OnDeleteResponse | js/components/WFST.jsx:142-154 | exactly-one-deleted empties the selection and removes the feature from the layer; otherwise both are kept and the delete message shows; failure reports status and text |
| Wfst.Controller.OnDrawEnd | js/components/WFST.jsx:238-248 | the drawn feature is posted as an Insert with the layer's namespace and type |
| Wfst.Controller.OnInsertResponse | js/components/WFST.jsx:249-267 | id `new0` empties the layer and keeps the feature's id; any other first id becomes the feature's id; no summary changes nothing; failure takes every interaction off the map and reports status and text |
| WfstScenarios.InsertAssignsServerId | js/components/WFST.jsx:249-260 | a drawn feature gets the server's insert id and stays in the layer |
| WfstScenarios.InsertSentinelClearsLayer | js/components/WFST.jsx:253-256 | the sentinel empties the layer and leaves the feature without an id |
| WfstScenarios.InsertFailureDeactivates | js/components/WFST.jsx:262-265 | a 500 on insert leaves nothing on the map and reports 500 and its text |
| WfstScenarios.DrawInteractionIsReused | js/components/WFST.jsx:269-286 | arming draw, then modify, then draw reuses the first interaction, which is alone on the map |
| WfstScenarios.DeselectSendsProjectedUpdate | js/components/WFST.jsx:171-197 | a changed feature whose geometry is under another name is sent with the geometry under the layer's name and without `bbox` |
| WfstScenarios.UpdateClearsDirtyOnlyWhenOneUpdated | js/components/WFST.jsx:198-204 | the change stays pending iff the summary does not report exactly one updated feature |
| WfstScenarios.CleanDeselectPostsNothing | js/components/WFST.jsx:175 | deselecting an unchanged feature posts nothing |
| WfstScenarios.DeleteNeedsExactlyOneSelected | js/components/WFST.jsx:135 | with two features selected the delete button posts nothing and keeps both |
| WfstScenarios.DeleteRemovesFeature | js/components/WFST.jsx:145-147 | a confirmed delete removes that feature only and empties the selection |

## Notes on the behaviour modelled

- **Clearing the selection runs the 'remove' handler.** After a confirmed delete (js/components/WFST.jsx:146) the selection collection is cleared. Clearing removes the features one by one from the end and fires 'remove' for each. So a deleted feature that still had an unsaved change is also sent as an Update. `Controller.OnDeleteResponse` returns those Updates, and `UpdatesOnClearCount` and `UpdatesOnClearSingle` count them.
- **The clone's geometry name.** The clone is built from a property map (js/components/WFST.jsx:185), so it gets the library's default geometry name, `geometry`. It is renamed only when the layer's geometry name differs from the feature's (187-189). When the two names agree, the clone's geometry name is therefore `geometry`, not the layer's geometry name. `CloneForUpdate` states this.
- **The change listener is never removed.** It is attached on every selection (js/components/WFST.jsx:167) and never detached. A feature that was once selected marks its id dirty on every later change, selected or not. `listened` only grows.
- **An empty insert-id list.** With no insert ids, the first id is undefined, and undefined becomes the feature's id (js/components/WFST.jsx:253, 258).
- **`measureFinishGeometry` starts undefined.** It is not part of the default state (src/reducers/drawing.js:24-41).
- **A null state is not replaced.** The default parameter of the reducer (src/reducers/drawing.js:49) stands in only for an undefined state. With null, an unknown tag returns null, FINALIZE raises a TypeError on `state.measuredFeatures` (line 103), and every other tag returns its own object literal alone, because `Object.assign` skips a null source. `ReduceInitial` returns these as the outcomes `NullResult`, `Throws` and `Partial`.
- **The error is never reset.** Once a failure has been reported, the error stays set until a later failure replaces it, as in the component state (js/components/WFST.jsx:114-119).

## Left out

- The network exchange of `_doPOST` (js/components/WFST.jsx:212-227): the request, the URL, the headers and the asynchronous callbacks. Each callback is a method taking the finished exchange. The order in which responses arrive is up to the caller.
- The WFS XML encoding and decoding of the mapping library, and the XML serializer. A request is its kind, its feature and its type information, and a response body is the parsed summary or nothing. No property of the XML is claimed.
- The exception-report branch of `_readResponse` (js/components/WFST.jsx:230-232). Every caller passes the response text, a string, so that branch cannot be taken from the calls shown.
- The `srsName` taken from the map view, and the view fit in `_setLayer` (js/components/WFST.jsx:122-125): these are map-engine values.
- Rendering, the i18n messages, the layer picker widget, the dispatcher registration and the mount/unmount hooks (js/components/WFST.jsx:27-58, 78-89, 105-113, 287-314). Of the messages, only the delete text is used, as `DeleteFailed`. Wrapping a message into the "Error saving…" sentence at render time is not modelled.
- What `activate`/`deactivate` do inside the map tool base class: MapTool.js is not part of this model. They are modelled as adding to, and emptying, the set of interactions on the map.
- DrawingReducer.ReduceInitial: the TypeError a null state raises on FINALIZE is the outcome `Throws`; the exception object and its message are not modelled.
- The geometry 'change' event itself: `OnFeatureChange` is its handler, called by the client.
- Wfst.IsEditableLayer: JavaScript truthiness of a non-boolean `isWFST` value is not modelled, since the flag is taken to be a boolean, undefined or null.
- Wfst.Controller.OnFeatureChange: JavaScript object keys are strings, so an undefined id and the string "undefined", or a numeric id and its decimal text, share one entry of the dirty map. Keys inherited from the object prototype, such as a feature id `constructor`, also read as set, both in the dirty map and in the draw-interaction memo. The model keys on `JsVal<string>` and does not reproduce these collisions.
- Wfst.Controller.OnSelectRemove: the feature's properties are read as a copy, so the live feature is not changed by the projection. The library's `getProperties` lies outside this model.
- The concrete strings of the `DRAWING.*`, `MAPINFO.*` and `INTERACTIONS.*` constants are defined in modules that are not part of this model. Tags are distinct constructors; interactions other than modify and select are opaque names.
