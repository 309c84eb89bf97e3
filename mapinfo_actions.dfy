/** The action messages about the map itself, one constructor per MAPINFO.* tag. */
module MapInfoActionTypes {
  import opened Js

  datatype Action =
    | SetSize(size: JsVal<seq<real>>)
    | SetMousePosition(lngLat: JsVal<Obj>, coordinate: JsVal<seq<real>>)
    | SetExtent(extent: JsVal<seq<real>>)
    | SetResolution(resolution: JsVal<real>)
    | SetProjection(projection: JsVal<string>)
    | RequestRedraw
    | RequestSourceRedraw(srcName: JsVal<string>)
    | SetSourceError(srcName: JsVal<string>)
    | ClearSourceErrors
    | SetMapLoading
    | SetMapLoaded

  /** The payload keys each message carries besides its tag. */
  function PayloadKeys(a: Action): (keys: set<string>) {
    match a
    case SetSize(_) => {"size"}
    case SetMousePosition(_, _) => {"lngLat", "coordinate"}
    case SetExtent(_) => {"extent"}
    case SetResolution(_) => {"resolution"}
    case SetProjection(_) => {"projection"}
    case RequestRedraw => {}
    case RequestSourceRedraw(_) => {"srcName"}
    case SetSourceError(_) => {"srcName"}
    case ClearSourceErrors => {}
    case SetMapLoading => {}
    case SetMapLoaded => {}
  }
}

/** The action creators of the map-info slice. */
module MapInfoActions {
  import opened Js
  import opened T = MapInfoActionTypes

  function SetMapSize(size: JsVal<seq<real>>): (a: Action)
    ensures a.SetSize? && a.size == size && PayloadKeys(a) == {"size"}
  {
    T.SetSize(size)
  }

  function SetMousePosition(lngLat: JsVal<Obj>, coordinate: JsVal<seq<real>>): (a: Action)
    ensures a.SetMousePosition? && a.lngLat == lngLat && a.coordinate == coordinate
    ensures PayloadKeys(a) == {"lngLat", "coordinate"}
  {
    T.SetMousePosition(lngLat, coordinate)
  }

  function SetMapExtent(extent: JsVal<seq<real>>): (a: Action)
    ensures a.SetExtent? && a.extent == extent && PayloadKeys(a) == {"extent"}
  {
    T.SetExtent(extent)
  }

  function SetResolution(resolution: JsVal<real>): (a: Action)
    ensures a.SetResolution? && a.resolution == resolution && PayloadKeys(a) == {"resolution"}
  {
    T.SetResolution(resolution)
  }

  function SetProjection(projection: JsVal<string>): (a: Action)
    ensures a.SetProjection? && a.projection == projection && PayloadKeys(a) == {"projection"}
  {
    T.SetProjection(projection)
  }

  function RequestRedraw(): (a: Action)
    ensures a.RequestRedraw? && PayloadKeys(a) == {}
  {
    T.RequestRedraw
  }

  function RequestSourceRedraw(srcName: JsVal<string>): (a: Action)
    ensures a.RequestSourceRedraw? && a.srcName == srcName && PayloadKeys(a) == {"srcName"}
  {
    T.RequestSourceRedraw(srcName)
  }

  function SetSourceError(srcName: JsVal<string>): (a: Action)
    ensures a.SetSourceError? && a.srcName == srcName && PayloadKeys(a) == {"srcName"}
  {
    T.SetSourceError(srcName)
  }

  function ClearSourceErrors(): (a: Action)
    ensures a.ClearSourceErrors? && PayloadKeys(a) == {}
  {
    T.ClearSourceErrors
  }

  function SetMapLoading(): (a: Action)
    ensures a.SetMapLoading? && PayloadKeys(a) == {}
  {
    T.SetMapLoading
  }

  function SetMapLoaded(): (a: Action)
    ensures a.SetMapLoaded? && PayloadKeys(a) == {}
  {
    T.SetMapLoaded
  }

  /** The source-redraw request and the source-error report carry the same
      payload and are told apart only by their tag. */
  lemma SourceMessagesDifferOnlyByTag(srcName: JsVal<string>)
    ensures RequestSourceRedraw(srcName) != SetSourceError(srcName)
    ensures RequestSourceRedraw(srcName).srcName == SetSourceError(srcName).srcName
    ensures PayloadKeys(RequestSourceRedraw(srcName)) == PayloadKeys(SetSourceError(srcName))
  {
  }
}
