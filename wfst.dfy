/** The WFS-T editing tool: keeps a remote feature store in step with draw,
    modify and delete gestures on one vector layer. Each network exchange is
    split in two: the gesture handler returns the transaction it would post,
    and a response method applies the completed exchange. */
module Wfst {
  import opened Js
  import opened WfsTransaction

  /** A live map feature; the map engine and this tool change it in place. */
  class Feature {
    var id: JsVal<string>
    var geometryName: string
    var properties: Properties

    constructor (id: JsVal<string>, geometryName: string, properties: Properties)
      ensures this.id == id && this.geometryName == geometryName && this.properties == properties
    {
      this.id := id;
      this.geometryName := geometryName;
      this.properties := properties;
    }

    /** The feature as it is serialized now. */
    function Data(): (d: FeatureData)
      reads this
    {
      FeatureData(id, geometryName, properties)
    }
  }

  /** The vector source of a layer: the features shown on the map. */
  class Source {
    var features: set<Feature>

    constructor (features: set<Feature>)
      ensures this.features == features
    {
      this.features := features;
    }
  }

  type LayerId = string

  /** An editable vector layer with its immutable configuration. */
  class Layer {
    const id: LayerId
    const wfsInfo: WfsInfo
    const isWfst: JsVal<bool>
    const source: Source

    constructor (id: LayerId, wfsInfo: WfsInfo, isWfst: JsVal<bool>, source: Source)
      ensures this.id == id && this.wfsInfo == wfsInfo && this.isWfst == isWfst
      ensures this.source == source
    {
      this.id := id;
      this.wfsInfo := wfsInfo;
      this.isWfst := isWfst;
      this.source := source;
    }
  }

  /** The filter of the layer picker: a layer is offered only when its
      `isWFST` property is true; a missing or null flag excludes it. */
  function IsEditableLayer(l: Layer): (keep: bool)
    ensures keep <==> l.isWfst == Defined(true)
    ensures l.isWfst.Undefined? || l.isWfst.Null? ==> !keep
  {
    l.isWfst == Defined(true)
  }

  datatype InteractionKind =
    | SelectKind
    | ModifyKind
      /** A draw interaction adding to `source` geometries of the given type under the given name. */
    | DrawKind(source: Source, geometryType: string, geometryName: string)

  /** A map interaction object (select, modify or draw). */
  class MapInteraction {
    const kind: InteractionKind

    constructor (kind: InteractionKind)
      ensures this.kind == kind
    {
      this.kind := kind;
    }
  }

  class Controller {
    /** The layer being edited. */
    var layer: Layer
    /** Features with unsaved geometry changes, by id; every value is true. */
    var dirty: map<JsVal<string>, bool>
    /** The features of the select interaction, in order of selection. */
    var selection: seq<Feature>
    /** Features carrying the change listener; it is added on selection and
        never removed. */
    var listened: set<Feature>
    /** The draw interaction of each layer, created on first use. */
    var drawInteractions: map<LayerId, MapInteraction>
    /** The interactions currently on the map. */
    var active: set<MapInteraction>
    /** The error shown to the user, if any. */
    var error: Option<ErrorMsg>
    const selectTool: MapInteraction
    const modifyTool: MapInteraction

    ghost predicate Valid()
      reads this`dirty, this`drawInteractions
    {
      && selectTool.kind == SelectKind && modifyTool.kind == ModifyKind
      && (forall id :: id in dirty ==> dirty[id])
      && (forall l :: l in drawInteractions ==> drawInteractions[l].kind.DrawKind?)
    }

    constructor (layer: Layer)
      ensures Valid() && fresh(selectTool) && fresh(modifyTool)
      ensures this.layer == layer
      ensures dirty == map[] && selection == [] && listened == {}
      ensures drawInteractions == map[] && active == {} && error == None
    {
      this.layer := layer;
      dirty := map[];
      selection := [];
      listened := {};
      drawInteractions := map[];
      active := {};
      error := None;
      selectTool := new MapInteraction(SelectKind);
      modifyTool := new MapInteraction(ModifyKind);
    }

    /** `fid` has an unsaved change. */
    predicate IsDirty(fid: JsVal<string>)
      reads this`dirty
    {
      Dirty(dirty, fid)
    }

    /** Switches the edited layer (the view fit that follows is left out). */
    method SetLayer(l: Layer)
      requires Valid()
      modifies this`layer
      ensures Valid() && layer == l
    {
      layer := l;
    }

    /** Removes every interaction from the map. */
    method Deactivate()
      requires Valid()
      modifies this`active
      ensures Valid() && active == {}
    {
      active := {};
    }

    /** Puts the given interactions on the map. */
    method Activate(xs: seq<MapInteraction>)
      requires Valid()
      modifies this`active
      ensures Valid() && active == old(active) + set x | x in xs
    {
      active := active + set x | x in xs;
    }

    /** Arms select and modify: afterwards exactly those two are on the map. */
    method ModifyFeature()
      requires Valid()
      modifies this`active
      ensures Valid() && active == {selectTool, modifyTool}
    {
      Deactivate();
      Activate([selectTool, modifyTool]);
      assert (set x | x in [selectTool, modifyTool]) == {selectTool, modifyTool};
    }

    /** Arms drawing on the current layer. The layer's draw interaction is
        created on first use and reused afterwards; afterwards it is the only
        interaction on the map. */
    method DrawFeature()
      requires Valid()
      modifies this`drawInteractions, this`active
      ensures Valid()
      ensures layer.id in drawInteractions
      ensures layer.id in old(drawInteractions) ==> drawInteractions == old(drawInteractions)
      ensures layer.id !in old(drawInteractions) ==>
                && fresh(drawInteractions[layer.id])
                && drawInteractions == old(drawInteractions)[layer.id := drawInteractions[layer.id]]
                && drawInteractions[layer.id].kind
                     == DrawKind(layer.source, layer.wfsInfo.geometryType, layer.wfsInfo.geometryName)
      ensures active == {drawInteractions[layer.id]}
    {
      var layerId := layer.id;
      if layerId !in drawInteractions {
        var created := new MapInteraction(
          DrawKind(layer.source, layer.wfsInfo.geometryType, layer.wfsInfo.geometryName));
        drawInteractions := drawInteractions[layerId := created];
      }
      var draw := drawInteractions[layerId];
      Deactivate();
      Activate([draw]);
      assert (set x | x in [draw]) == {draw};
    }

    /** The select interaction adds `f` to its collection; the 'add' handler
        attaches the change listener. */
    method AddToSelection(f: Feature)
      requires Valid()
      modifies this`selection, this`listened
      ensures Valid()
      ensures selection == old(selection) + [f] && listened == old(listened) + {f}
    {
      selection := selection + [f];
      OnSelectAdd(f);
    }

    /** The 'add' handler of the selection. */
    method OnSelectAdd(f: Feature)
      requires Valid()
      modifies this`listened
      ensures Valid() && listened == old(listened) + {f}
    {
      listened := listened + {f};
    }

    /** The change listener: a change of a feature that was ever selected
        marks its current id dirty. */
    method OnFeatureChange(f: Feature)
      requires Valid()
      modifies this`dirty
      ensures Valid()
      ensures f in listened ==> dirty == old(dirty)[f.id := true]
      ensures f !in listened ==> dirty == old(dirty)
    {
      if f in listened {
        dirty := dirty[f.id := true];
      }
    }

    /** The select interaction removes the feature at index `i`; the 'remove'
        handler returns the Update it posts, if any. */
    method RemoveFromSelection(i: nat) returns (req: Option<Request>)
      requires Valid() && i < |selection|
      modifies this`selection
      ensures Valid()
      ensures selection == old(selection[..i] + selection[i + 1..])
      ensures req == PendingUpdate(old(selection[i].Data()), dirty, layer.wfsInfo)
    {
      var f := selection[i];
      selection := selection[..i] + selection[i + 1..];
      req := OnSelectRemove(f);
    }

    /** The 'remove' handler of the selection: a dirty feature is sent as an
        Update of its projected clone; a clean one sends nothing. Nothing of the
        tool's state changes. */
    method OnSelectRemove(f: Feature) returns (req: Option<Request>)
      requires Valid()
      ensures req == PendingUpdate(f.Data(), dirty, layer.wfsInfo)
    {
      var wfsInfo := layer.wfsInfo;
      var fid := f.id;
      // Only `true` is ever stored, so a present key is a truthy one.
      if fid in dirty {
        var featureGeometryName := f.geometryName;
        var properties := f.properties;
        ProjectInPlace(properties, featureGeometryName, wfsInfo.geometryName);
        properties := properties - {BBox};
        if wfsInfo.geometryName != featureGeometryName {
          properties := properties[wfsInfo.geometryName := Lookup(properties, featureGeometryName)];
          properties := properties - {featureGeometryName};
        }
        var clone := FeatureData(fid, DefaultGeometryName, properties);
        if wfsInfo.geometryName != featureGeometryName {
          clone := clone.(geometryName := wfsInfo.geometryName);
        }
        req := Some(Request(Update, clone, wfsInfo.featureNS, wfsInfo.featureType));
      } else {
        req := None;
      }
    }

    /** Applies a completed Update exchange for the feature id `fid`: only a
        summary of exactly one updated feature clears its dirty flag, and a
        failed exchange raises "status statusText". */
    method OnUpdateResponse(fid: JsVal<string>, resp: HttpResponse)
      requires Valid()
      modifies this`dirty, this`error
      ensures Valid()
      ensures Classify(resp.status) == SuccessHandler ==>
                && error == old(error)
                && dirty == (if resp.body.Parsed? && resp.body.totalUpdated == 1
                             then old(dirty) - {fid} else old(dirty))
      ensures Classify(resp.status) == FailureHandler ==>
                dirty == old(dirty) && error == Some(Transport(resp.status, resp.statusText))
    {
      if Classify(resp.status) == SuccessHandler {
        if resp.body.Parsed? && resp.body.totalUpdated == 1 {
          dirty := dirty - {fid};
        }
      } else {
        error := Some(Transport(resp.status, resp.statusText));
      }
    }

    /** The delete button: a Delete is posted only when exactly one feature is
        selected; otherwise nothing happens. Nothing of the tool's state changes. */
    method DeleteFeature() returns (req: Option<Request>)
      requires Valid()
      ensures req.Some? <==> |selection| == 1
      ensures req.Some? ==> req.value == Request(Delete, selection[0].Data(),
                                                 layer.wfsInfo.featureNS, layer.wfsInfo.featureType)
    {
      if |selection| == 1 {
        var feature := selection[0];
        req := Some(Request(Delete, feature.Data(), layer.wfsInfo.featureNS, layer.wfsInfo.featureType));
      } else {
        req := None;
      }
    }

    /** Empties the selection from its last element to its first, running the
        'remove' handler for each; returns the Updates those handlers post. */
    method ClearSelection() returns (updates: seq<Request>)
      requires Valid()
      modifies this`selection
      ensures Valid() && selection == []
      ensures updates == UpdatesOnClear(old(DataOf(selection)), dirty, layer.wfsInfo)
    {
      ghost var data := DataOf(selection);
      updates := [];
      while |selection| > 0
        invariant Valid()
        invariant updates + UpdatesOnClear(DataOf(selection), dirty, layer.wfsInfo)
                  == UpdatesOnClear(data, dirty, layer.wfsInfo)
        decreases |selection|
      {
        ghost var sel, before := selection, DataOf(selection);
        var r := RemoveFromSelection(|selection| - 1);
        assert selection == sel[..|sel| - 1] && DataOf(sel) == before;
        DataOfPrefix(sel, |sel| - 1);
        ConcatAssoc(updates, AsSeq(r), UpdatesOnClear(DataOf(selection), dirty, layer.wfsInfo));
        updates := updates + AsSeq(r);
      }
    }

    /** Applies a completed Delete exchange for `feature`. A summary of exactly
        one deleted feature empties the selection (the handlers of the cleared
        features may post Updates, which are returned) and removes the feature
        from the current layer's source; any other summary raises the delete
        message, and a failed exchange raises "status statusText". */
    method OnDeleteResponse(feature: Feature, resp: HttpResponse) returns (updates: seq<Request>)
      requires Valid()
      modifies this`selection, this`error, layer.source`features
      ensures Valid() && layer == old(layer)
      ensures var deleted := Classify(resp.status) == SuccessHandler
                             && resp.body.Parsed? && resp.body.totalDeleted == 1;
              && (deleted ==>
                    && selection == []
                    && layer.source.features == old(layer.source.features) - {feature}
                    && updates == UpdatesOnClear(old(DataOf(selection)), dirty, layer.wfsInfo)
                    && error == old(error))
              && (!deleted ==>
                    && selection == old(selection)
                    && layer.source.features == old(layer.source.features)
                    && updates == [])
      ensures (Classify(resp.status) == SuccessHandler
               && !(resp.body.Parsed? && resp.body.totalDeleted == 1)) ==> error == Some(DeleteFailed)
      ensures Classify(resp.status) == FailureHandler ==>
                error == Some(Transport(resp.status, resp.statusText))
    {
      updates := [];
      if Classify(resp.status) == SuccessHandler {
        if resp.body.Parsed? && resp.body.totalDeleted == 1 {
          updates := ClearSelection();
          layer.source.features := layer.source.features - {feature};
        } else {
          error := Some(DeleteFailed);
        }
      } else {
        error := Some(Transport(resp.status, resp.statusText));
      }
    }

    /** The 'drawend' handler: the drawn feature is posted as an Insert.
        Nothing of the tool's state changes. */
    method OnDrawEnd(f: Feature) returns (req: Request)
      requires Valid()
      ensures req.kind == Insert && req.feature == f.Data()
      ensures req.featureNS == layer.wfsInfo.featureNS && req.featureType == layer.wfsInfo.featureType
    {
      req := Request(Insert, f.Data(), layer.wfsInfo.featureNS, layer.wfsInfo.featureType);
    }

    /** Applies a completed Insert exchange for the drawn feature `f`. The
        sentinel id empties the layer's source (the store re-indexed and is to
        be reloaded) and keeps `f`'s id; any other first id becomes `f`'s id;
        no summary changes nothing. A failed exchange takes every interaction
        off the map and raises "status statusText". */
    method OnInsertResponse(f: Feature, resp: HttpResponse)
      requires Valid()
      modifies this`active, this`error, f`id, layer.source`features
      ensures Valid() && layer == old(layer)
      ensures Classify(resp.status) == SuccessHandler ==> active == old(active) && error == old(error)
      ensures Classify(resp.status) == SuccessHandler && resp.body.Parsed? ==>
                if FirstInsertId(resp.body) == Defined(ReindexSentinel)
                then layer.source.features == {} && f.id == old(f.id)
                else f.id == FirstInsertId(resp.body) && layer.source.features == old(layer.source.features)
      ensures Classify(resp.status) == SuccessHandler && resp.body.NoResult? ==>
                f.id == old(f.id) && layer.source.features == old(layer.source.features)
      ensures Classify(resp.status) == FailureHandler ==>
                && active == {} && error == Some(Transport(resp.status, resp.statusText))
                && f.id == old(f.id) && layer.source.features == old(layer.source.features)
    {
      if Classify(resp.status) == SuccessHandler {
        if resp.body.Parsed? {
          var insertId := FirstInsertId(resp.body);
          if insertId == Defined(ReindexSentinel) {
            layer.source.features := {};
          } else {
            f.id := insertId;
          }
        }
      } else {
        Deactivate();
        error := Some(Transport(resp.status, resp.statusText));
      }
    }
  }

  lemma ConcatAssoc<X>(a: seq<X>, b: seq<X>, c: seq<X>)
    ensures (a + b) + c == a + (b + c)
  {
  }

  lemma DataOfPrefix(fs: seq<Feature>, k: nat)
    requires k <= |fs|
    ensures DataOf(fs[..k]) == DataOf(fs)[..k]
  {
  }

  /** The serialized values of a sequence of live features. */
  function DataOf(fs: seq<Feature>): (ds: seq<FeatureData>)
    reads fs
    ensures |ds| == |fs|
    ensures forall i :: 0 <= i < |fs| ==> ds[i] == fs[i].Data()
  {
    if fs == [] then [] else DataOf(fs[..|fs| - 1]) + [fs[|fs| - 1].Data()]
  }
}
