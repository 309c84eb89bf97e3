/** The value-level bookkeeping of the WFS-T editing tool: transaction
    requests, parsed outcomes, status routing, error messages and the
    property projection applied to a feature before it is sent as an Update.
    XML encoding and decoding belong to the mapping library and are abstract:
    a request is the feature it carries plus its type information, and a
    response is the record the library's parser returns. */
module WfsTransaction {
  import opened Js

  /** Feature properties; OpenLayers keeps the geometry among them, under the
      feature's geometry name. */
  type Properties = map<string, JsVal<Obj>>

  /** A feature as it is serialized: its id, geometry name and properties. */
  datatype FeatureData = FeatureData(id: JsVal<string>, geometryName: string, properties: Properties)

  /** The per-layer `wfsInfo` configuration. */
  datatype WfsInfo = WfsInfo(featureNS: string, featureType: string, geometryType: string,
                             geometryName: string, url: string)

  datatype Kind = Insert | Update | Delete

  /** One transaction with one feature, typed by namespace and type name. */
  datatype Request = Request(kind: Kind, feature: FeatureData, featureNS: string, featureType: string)

  /** What `readTransactionResponse` gives back: a parsed summary, or nothing. */
  datatype Outcome =
    | Parsed(insertIds: seq<string>, totalUpdated: int, totalDeleted: int)
    | NoResult

  /** A completed exchange: the HTTP status, its text and the parsed body. */
  datatype HttpResponse = HttpResponse(status: nat, statusText: string, body: Outcome)

  /** Which callback `_doPOST` runs once the exchange is complete. */
  datatype Route = SuccessHandler | FailureHandler

  function Classify(status: nat): (r: Route)
    ensures r == SuccessHandler <==> status == 200
    ensures r == FailureHandler <==> status != 200
  {
    if status == 200 then SuccessHandler else FailureHandler
  }

  /** The pseudo-property that is removed before an Update. */
  const BBox: string := "bbox"

  /** The geometry name of a feature built by `new ol.Feature(properties)`. */
  const DefaultGeometryName: string := "geometry"

  /** The insert id that signals a store which re-indexed its features. */
  const ReindexSentinel: string := "new0"

  /** Reading a property: a missing key reads as undefined. */
  function Lookup(p: Properties, k: string): (v: JsVal<Obj>)
    ensures k !in p ==> v == Undefined
    ensures k in p ==> v == p[k]
  {
    if k in p then p[k] else Undefined
  }

  /** The properties sent in an Update: `bbox` removed and, when the layer's
      geometry name differs from the feature's, the geometry moved from the
      feature's key to the layer's key. Written key by key. */
  function ProjectForUpdate(props: Properties, featureGeometryName: string,
                            geometryName: string): (r: Properties)
    ensures featureGeometryName == geometryName ==> r == props - {BBox}
    ensures BBox in r <==> geometryName == BBox && featureGeometryName != BBox
    ensures featureGeometryName != geometryName ==>
              && featureGeometryName !in r && geometryName in r
              && r[geometryName] == (if featureGeometryName == BBox then Undefined
                                     else Lookup(props, featureGeometryName))
    ensures forall k :: k != BBox && k != featureGeometryName && k != geometryName ==>
              (k in r <==> k in props) && (k in r ==> r[k] == props[k])
  {
    if featureGeometryName == geometryName then
      map k | k in props && k != BBox :: props[k]
    else
      map k | k in (props.Keys - {BBox, featureGeometryName}) + {geometryName} ::
        if k == geometryName then Lookup(props - {BBox}, featureGeometryName) else props[k]
  }

  /** The projection done in place: drop `bbox`, then, when the names differ,
      copy the geometry to the layer's key and drop the feature's key. */
  lemma ProjectInPlace(props: Properties, featureGeometryName: string, geometryName: string)
    ensures var p := props - {BBox};
            ProjectForUpdate(props, featureGeometryName, geometryName)
            == if featureGeometryName == geometryName then p
               else p[geometryName := Lookup(p, featureGeometryName)] - {featureGeometryName}
  {
  }

  /** The clone sent in an Update: same id, projected properties, and the
      layer's geometry name when it differs from the feature's (otherwise the
      clone keeps the default name of a newly built feature). */
  function CloneForUpdate(f: FeatureData, info: WfsInfo): (c: FeatureData)
    ensures c.id == f.id
    ensures c.properties == ProjectForUpdate(f.properties, f.geometryName, info.geometryName)
    ensures f.geometryName != info.geometryName ==> c.geometryName == info.geometryName
    ensures f.geometryName == info.geometryName ==> c.geometryName == DefaultGeometryName
  {
    FeatureData(f.id,
                if f.geometryName != info.geometryName then info.geometryName else DefaultGeometryName,
                ProjectForUpdate(f.properties, f.geometryName, info.geometryName))
  }

  /** When the geometry is stored under its own name and there is no `bbox`,
      the clone's properties are exactly the feature's. */
  lemma CloneKeepsCleanProperties(f: FeatureData, info: WfsInfo)
    requires BBox !in f.properties && f.geometryName == info.geometryName
    ensures CloneForUpdate(f, info).properties == f.properties
  {
    assert f.properties - {BBox} == f.properties;
  }

  /** After renaming, the geometry can be read under the layer's geometry
      name, and the clone's geometry name points at it. */
  lemma CloneGeometryUnderLayerName(f: FeatureData, info: WfsInfo)
    requires f.geometryName != info.geometryName && f.geometryName != BBox
    requires f.geometryName in f.properties
    ensures var c := CloneForUpdate(f, info);
      && c.geometryName == info.geometryName
      && c.geometryName in c.properties
      && c.properties[c.geometryName] == f.properties[f.geometryName]
      && f.geometryName !in c.properties
  {
  }

  /** The first insert id of a parsed response; `insertIds[0]` of an empty list is undefined. */
  function FirstInsertId(o: Outcome): (id: JsVal<string>)
    requires o.Parsed?
    ensures |o.insertIds| == 0 <==> id == Undefined
    ensures |o.insertIds| > 0 ==> id == Defined(o.insertIds[0])
  {
    if |o.insertIds| > 0 then Defined(o.insertIds[0]) else Undefined
  }

  /** The error the tool shows. */
  datatype ErrorMsg = Transport(status: nat, statusText: string) | DeleteFailed

  function Digit(d: nat): (c: char)
    requires d < 10
    ensures '0' <= c <= '9' && c as int - '0' as int == d
  {
    "0123456789"[d]
  }

  /** The number a string of decimal digits denotes. */
  function DecimalValue(s: string): (v: nat)
    requires forall i :: 0 <= i < |s| ==> '0' <= s[i] <= '9'
  {
    if s == [] then 0
    else 10 * DecimalValue(s[..|s| - 1]) + (s[|s| - 1] as int - '0' as int)
  }

  /** Decimal text of a status code, as string concatenation renders a number:
      digits only, and a leading zero only in "0" itself. */
  function NatToString(n: nat): (s: string)
    ensures |s| > 0
    ensures forall i :: 0 <= i < |s| ==> '0' <= s[i] <= '9'
    ensures n < 10 <==> |s| == 1
    ensures s[0] == '0' <==> n == 0
    decreases n
  {
    if n < 10 then [Digit(n)] else NatToString(n / 10) + [Digit(n % 10)]
  }

  /** The text denotes the number it renders. */
  lemma {:induction false} NatToStringValue(n: nat)
    ensures DecimalValue(NatToString(n)) == n
    decreases n
  {
    if n >= 10 {
      var s := NatToString(n);
      NatToStringValue(n / 10);
      assert s[..|s| - 1] == NatToString(n / 10);
    }
  }

  /** Two statuses with the same text are the same status. */
  lemma NatToStringInjective(m: nat, n: nat)
    ensures NatToString(m) == NatToString(n) <==> m == n
  {
    NatToStringValue(m);
    NatToStringValue(n);
  }

  /** The message text: "status statusText" for a failed exchange, the default
      text of the delete message otherwise. */
  function ErrorText(e: ErrorMsg): (t: string)
    ensures e.Transport? ==>
              && |t| > |e.statusText|
              && t[|t| - |e.statusText|..] == e.statusText
              && t[|t| - |e.statusText| - 1] == ' '
              && t[..|t| - |e.statusText| - 1] == NatToString(e.status)
              && DecimalValue(t[..|t| - |e.statusText| - 1]) == e.status
  {
    match e
    case Transport(status, statusText) =>
      var t := NatToString(status) + " " + statusText;
      assert t[..|t| - |statusText| - 1] == NatToString(status);
      NatToStringValue(status);
      t
    case DeleteFailed => "There was an issue deleting the feature."
  }

  // ---------------------------------------------------------------------------
  // Dirty tracking

  /** Unsaved geometry changes, by feature id. */
  type DirtyMap = map<JsVal<string>, bool>

  /** An id absent from the map is not dirty. */
  predicate Dirty(dirty: DirtyMap, fid: JsVal<string>) {
    fid in dirty && dirty[fid]
  }

  /** The Update that deselecting the feature `d` posts, if any: an Update of
      its projected clone exactly when its id is dirty. */
  function PendingUpdate(d: FeatureData, dirty: DirtyMap, info: WfsInfo): (r: Option<Request>)
    ensures r.Some? <==> Dirty(dirty, d.id)
    ensures r.Some? ==>
              && r.value.kind == Update
              && r.value.feature == CloneForUpdate(d, info)
              && r.value.featureNS == info.featureNS
              && r.value.featureType == info.featureType
  {
    if Dirty(dirty, d.id) then
      Some(Request(Update, CloneForUpdate(d, info), info.featureNS, info.featureType))
    else None
  }

  /** The requests an optional request stands for. */
  function AsSeq(r: Option<Request>): (rs: seq<Request>)
    ensures r.None? ==> rs == []
    ensures r.Some? ==> rs == [r.value]
  {
    match r
    case Some(x) => [x]
    case None => []
  }

  /** The Updates posted while a selection is cleared: the collection is
      emptied from its last element to its first, and each removal runs the
      deselect handler. */
  function UpdatesOnClear(sel: seq<FeatureData>, dirty: DirtyMap, info: WfsInfo): (reqs: seq<Request>) {
    if sel == [] then []
    else AsSeq(PendingUpdate(sel[|sel| - 1], dirty, info)) + UpdatesOnClear(sel[..|sel| - 1], dirty, info)
  }

  /** Emptying the first `n` features starts with the pending Update of the
      `n`-th and continues with the first `n - 1`. */
  lemma UpdatesOnClearPrefix(sel: seq<FeatureData>, n: nat, dirty: DirtyMap, info: WfsInfo)
    requires 0 < n <= |sel|
    ensures UpdatesOnClear(sel[..n], dirty, info)
            == AsSeq(PendingUpdate(sel[n - 1], dirty, info)) + UpdatesOnClear(sel[..n - 1], dirty, info)
  {
    assert sel[..n][..n - 1] == sel[..n - 1];
  }

  /** Clearing a one-feature selection posts exactly that feature's pending Update. */
  lemma UpdatesOnClearSingle(d: FeatureData, dirty: DirtyMap, info: WfsInfo)
    ensures UpdatesOnClear([d], dirty, info) == AsSeq(PendingUpdate(d, dirty, info))
    ensures |UpdatesOnClear([d], dirty, info)| == if Dirty(dirty, d.id) then 1 else 0
  {
    assert [d][..0] == [];
  }

  /** The number of features of `sel` whose id is dirty. */
  function DirtyCount(sel: seq<FeatureData>, dirty: DirtyMap): (n: nat) {
    if sel == [] then 0
    else (if Dirty(dirty, sel[|sel| - 1].id) then 1 else 0) + DirtyCount(sel[..|sel| - 1], dirty)
  }

  /** Clearing a selection posts one Update per dirty feature in it, and
      nothing at all when none of them is dirty. */
  lemma {:induction false} UpdatesOnClearCount(sel: seq<FeatureData>, dirty: DirtyMap, info: WfsInfo)
    ensures |UpdatesOnClear(sel, dirty, info)| == DirtyCount(sel, dirty) <= |sel|
    ensures (forall i :: 0 <= i < |sel| ==> !Dirty(dirty, sel[i].id)) ==> UpdatesOnClear(sel, dirty, info) == []
    decreases |sel|
  {
    if sel != [] {
      var init := sel[..|sel| - 1];
      UpdatesOnClearCount(init, dirty, info);
      assert forall i :: 0 <= i < |init| ==> init[i] == sel[i];
    }
  }

  /** Everything posted while clearing a selection is an Update of the
      projected clone of a dirty feature of that selection. */
  lemma {:induction false} UpdatesOnClearAreUpdates(sel: seq<FeatureData>, dirty: DirtyMap, info: WfsInfo, k: nat)
    requires k < |UpdatesOnClear(sel, dirty, info)|
    ensures UpdatesOnClear(sel, dirty, info)[k].kind == Update
    ensures exists i :: 0 <= i < |sel| && Dirty(dirty, sel[i].id)
                        && UpdatesOnClear(sel, dirty, info)[k].feature == CloneForUpdate(sel[i], info)
    decreases |sel|
  {
    var init := sel[..|sel| - 1];
    var head := AsSeq(PendingUpdate(sel[|sel| - 1], dirty, info));
    if k >= |head| {
      UpdatesOnClearAreUpdates(init, dirty, info, k - |head|);
      var i :| 0 <= i < |init| && Dirty(dirty, init[i].id)
               && UpdatesOnClear(init, dirty, info)[k - |head|].feature == CloneForUpdate(init[i], info);
      assert init[i] == sel[i];
    } else {
      assert Dirty(dirty, sel[|sel| - 1].id);
    }
  }
}
