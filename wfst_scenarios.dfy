/** Clients of the editing tool: whole gestures followed by their server
    responses, showing what callers can conclude from the contracts alone. */
module WfstScenarios {
  import opened Js
  import opened WfsTransaction
  import opened Wfst

  /** The layer configuration used by the scenarios. */
  function ParcelsInfo(): (info: WfsInfo)
    ensures info.geometryName == "geom" && info.featureType == "Parcels"
  {
    WfsInfo("http://ex.org", "Parcels", "Polygon", "geom", "http://svc/wfs")
  }

  /** Drawing a feature and receiving an insert id assigns that id to the
      feature and keeps the layer's features. */
  method InsertAssignsServerId() returns (id: JsVal<string>, remaining: nat)
    ensures id == Defined("42") && remaining == 1
  {
    var src := new Source({});
    var layer := new Layer("parcels", ParcelsInfo(), Defined(true), src);
    var c := new Controller(layer);
    c.DrawFeature();
    var f := new Feature(Undefined, "geom", map["geom" := Defined(Obj(1))]);
    src.features := src.features + {f};
    var req := c.OnDrawEnd(f);
    assert req.kind == Insert && req.featureType == "Parcels";
    c.OnInsertResponse(f, HttpResponse(200, "OK", Parsed(["42"], 0, 0)));
    id := f.id;
    remaining := |src.features|;
  }

  /** The re-index sentinel empties the layer's features and leaves the
      drawn feature without an id. */
  method InsertSentinelClearsLayer() returns (id: JsVal<string>, remaining: nat)
    ensures id == Undefined && remaining == 0
  {
    var src := new Source({});
    var layer := new Layer("parcels", ParcelsInfo(), Defined(true), src);
    var c := new Controller(layer);
    c.DrawFeature();
    var f := new Feature(Undefined, "geom", map["geom" := Defined(Obj(1))]);
    src.features := src.features + {f};
    var req := c.OnDrawEnd(f);
    c.OnInsertResponse(f, HttpResponse(200, "OK", Parsed(["new0"], 0, 0)));
    id := f.id;
    remaining := |src.features|;
  }

  /** A failed insert takes the draw interaction off the map and reports the
      status and its text. */
  method InsertFailureDeactivates() returns (active: nat, error: Option<ErrorMsg>)
    ensures active == 0 && error == Some(Transport(500, "Internal Server Error"))
  {
    var src := new Source({});
    var layer := new Layer("parcels", ParcelsInfo(), Defined(true), src);
    var c := new Controller(layer);
    c.DrawFeature();
    assert c.layer == layer;
    var f := new Feature(Undefined, "geom", map["geom" := Defined(Obj(1))]);
    var req := c.OnDrawEnd(f);
    c.OnInsertResponse(f, HttpResponse(500, "Internal Server Error", NoResult));
    active := |c.active|;
    error := c.error;
  }

  /** Arming draw twice on the same layer reuses the interaction created the
      first time; arming modify in between replaces it on the map. */
  method DrawInteractionIsReused() returns (same: bool, drawOnly: bool)
    ensures same && drawOnly
  {
    var src := new Source({});
    var layer := new Layer("parcels", ParcelsInfo(), Defined(true), src);
    var c := new Controller(layer);
    c.DrawFeature();
    var first := c.drawInteractions["parcels"];
    c.ModifyFeature();
    assert first !in c.active;
    c.DrawFeature();
    same := c.drawInteractions["parcels"] == first;
    drawOnly := c.active == {first};
  }

  /** Change a selected feature, then deselect it: one Update is posted, with
      the geometry moved to the layer's geometry name and `bbox` dropped. */
  method DeselectSendsProjectedUpdate() returns (sent: bool, geometry: JsVal<Obj>, hasBBox: bool)
    ensures sent && geometry == Defined(Obj(1)) && !hasBBox
  {
    var src := new Source({});
    var layer := new Layer("parcels", ParcelsInfo(), Defined(true), src);
    var c := new Controller(layer);
    var f := new Feature(Defined("parcels.7"), "the_geom",
                         map["the_geom" := Defined(Obj(1)), "bbox" := Defined(Obj(2))]);
    c.AddToSelection(f);
    c.OnFeatureChange(f);
    assert c.layer == layer && c.IsDirty(f.id);
    ghost var d := f.Data();
    var req := c.RemoveFromSelection(0);
    assert c.layer == layer && req == PendingUpdate(d, c.dirty, ParcelsInfo());
    ghost var clone := CloneForUpdate(d, ParcelsInfo());
    CloneGeometryUnderLayerName(d, ParcelsInfo());
    assert req == Some(Request(Update, clone, "http://ex.org", "Parcels"));
    sent := req.Some?;
    geometry := Lookup(req.value.feature.properties, "geom");
    hasBBox := BBox in req.value.feature.properties;
  }

  /** The dirty flag of a changed feature clears exactly when the server
      reports one updated feature. */
  method UpdateClearsDirtyOnlyWhenOneUpdated(totalUpdated: int) returns (stillDirty: bool)
    ensures stillDirty <==> totalUpdated != 1
  {
    var src := new Source({});
    var layer := new Layer("parcels", ParcelsInfo(), Defined(true), src);
    var c := new Controller(layer);
    var f := new Feature(Defined("parcels.7"), "geom", map["geom" := Defined(Obj(1))]);
    c.AddToSelection(f);
    c.OnFeatureChange(f);
    c.OnUpdateResponse(f.id, HttpResponse(200, "OK", Parsed([], totalUpdated, 0)));
    stillDirty := c.IsDirty(f.id);
  }

  /** Deselecting a feature that was never changed posts nothing. */
  method CleanDeselectPostsNothing() returns (sent: bool)
    ensures !sent
  {
    var src := new Source({});
    var layer := new Layer("parcels", ParcelsInfo(), Defined(true), src);
    var c := new Controller(layer);
    var f := new Feature(Defined("parcels.7"), "geom", map["geom" := Defined(Obj(1))]);
    c.AddToSelection(f);
    var req := c.RemoveFromSelection(0);
    sent := req.Some?;
  }

  /** With two features selected the delete button posts nothing. */
  method DeleteNeedsExactlyOneSelected() returns (sent: bool, selected: nat)
    ensures !sent && selected == 2
  {
    var src := new Source({});
    var layer := new Layer("parcels", ParcelsInfo(), Defined(true), src);
    var c := new Controller(layer);
    var f := new Feature(Defined("parcels.1"), "geom", map[]);
    var g := new Feature(Defined("parcels.2"), "geom", map[]);
    src.features := {f, g};
    c.AddToSelection(f);
    c.AddToSelection(g);
    var req := c.DeleteFeature();
    sent := req.Some?;
    selected := |c.selection|;
  }

  /** A confirmed delete empties the selection and removes the feature, and
      only that feature, from the layer. */
  method DeleteRemovesFeature() returns (removed: bool, kept: bool, selected: nat)
    ensures removed && kept && selected == 0
  {
    var src := new Source({});
    var layer := new Layer("parcels", ParcelsInfo(), Defined(true), src);
    var c := new Controller(layer);
    var f := new Feature(Defined("parcels.1"), "geom", map[]);
    var g := new Feature(Defined("parcels.2"), "geom", map[]);
    src.features := {f, g};
    c.AddToSelection(f);
    var req := c.DeleteFeature();
    assert req.value.kind == Delete && req.value.feature.id == Defined("parcels.1");
    assert c.layer.source == src;
    var posted := c.OnDeleteResponse(f, HttpResponse(200, "OK", Parsed([], 0, 1)));
    removed := f !in src.features;
    kept := g in src.features;
    selected := |c.selection|;
  }
}
