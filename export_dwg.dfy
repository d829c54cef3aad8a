/**
 * The `/export-dwg` request handler of server.js around the encoder: the
 * bounding-box guard (400), the outcome of the Overpass call, the
 * no-geometry guard (404), the encoder, and the error branch (500).
 *
 * The Overpass call itself is network I/O; its outcome is a parameter of
 * the handler (Upstream).
 */
module ExportDwg {
  import opened Wrappers
  import opened Osm
  import opened DxfEncoder
  import opened DxfReader

  /** One parsed query parameter: a plain string, or the array or object
      Express builds for a repeated or bracketed key. */
  datatype Param = Text(text: string) | Compound

  /** The query string: parameter name to value. */
  type Query = map<string, Param>

  /** The four sides of the bounding box, in the order server.js tests them. */
  const BoxSides: seq<string> := ["south", "west", "north", "east"]

  /** A query parameter passes a JavaScript truthiness test: it is present,
      and it is an array or object (always truthy) or a non-empty string. */
  predicate ParamTruthy(q: Query, key: string)
  {
    key in q && (q[key].Compound? || q[key].text != "")
  }

  /** All four sides of the bounding box are given. */
  predicate HasBoundingBox(q: Query): (complete: bool)
    ensures complete <==> forall k :: 0 <= k < |BoxSides| ==> ParamTruthy(q, BoxSides[k])
    ensures !complete <==> exists k :: 0 <= k < |BoxSides| && (BoxSides[k] !in q || q[BoxSides[k]] == Text(""))
  {
    assert BoxSides[0] == "south" && BoxSides[1] == "west" && BoxSides[2] == "north" && BoxSides[3] == "east";
    assert forall k | 0 <= k < |BoxSides| ::
      BoxSides[k] == BoxSides[0] || BoxSides[k] == BoxSides[1] || BoxSides[k] == BoxSides[2] || BoxSides[k] == BoxSides[3];
    ParamTruthy(q, "south") && ParamTruthy(q, "west") && ParamTruthy(q, "north") && ParamTruthy(q, "east")
  }

  /** The JSON value of the Overpass reply: `null`, an object whose
      `elements` field may be missing, or any other JSON value (an array, a
      number, a string or a boolean), on which `.elements` is undefined. */
  datatype Payload = Null | Object(elements: Option<seq<Element>>) | Other

  /** What the Overpass call gives: no reply at all (the request is
      rejected), or a reply with an HTTP status and a body that is JSON
      (Some) or is not (None). */
  datatype Upstream = Unreachable | Answered(status: int, body: Option<Payload>)

  /** `response.ok`: a status in the range 200-299. */
  predicate Ok(status: int)
  {
    200 <= status <= 299
  }

  /** The reply was accepted and its JSON is not `null`, so reading its
      `elements` field does not throw. */
  predicate Listed(up: Upstream)
  {
    up.Answered? && Ok(up.status) && up.body.Some? && !up.body.value.Null?
  }

  /** `data.elements`, when it is defined. */
  function ElementsOf(up: Upstream): Option<seq<Element>>
    requires Listed(up)
  {
    if up.body.value.Object? then up.body.value.elements else None
  }

  /** `!data.elements?.length`: the field is undefined or the list is empty. */
  predicate NoGeometry(up: Upstream): (none: bool)
    ensures none ==> up.Answered? && Ok(up.status) && up.body.Some? && !up.body.value.Null?
    ensures none <==> Listed(up) && (ElementsOf(up).None? || |ElementsOf(up).value| == 0)
  {
    Listed(up) && (ElementsOf(up).None? || ElementsOf(up).value == [])
  }

  /** The elements handed to the encoder. */
  function Found(up: Upstream): seq<Element>
    requires Listed(up) && ElementsOf(up).Some?
  {
    ElementsOf(up).value
  }

  /** The HTTP response: status, the headers the handler sets itself (not
      those Express adds), and body. */
  datatype Response = Response(status: nat, headers: map<string, string>, body: string)

  const IncompleteMessage: string := "Parâmetros incompletos para exportação DWG."
  const NothingFoundMessage: string := "Nenhuma geometria encontrada nesta área."
  const FailureMessage: string := "Erro ao gerar arquivo DWG."

  /** The headers of a successful export: a download named export_mapa.dxf. */
  const DownloadHeaders: map<string, string> :=
    map["Content-Disposition" := "attachment; filename=export_mapa.dxf", "Content-Type" := "application/dxf"]

  /**
   * Handles one request. A missing side of the bounding box gives 400; a
   * rejected call, a status outside 200-299, a body that is not JSON or is
   * `null` gives 500; a reply without a non-empty `elements` list gives 404;
   * otherwise the elements are encoded, and an encoder failure gives 500.
   */
  method HandleExportDwg(query: Query, upstream: Upstream, fmt: Formatter) returns (res: Response)
    ensures res.status in {200, 400, 404, 500}
    ensures res.status == 400 <==> !HasBoundingBox(query)
    ensures res.status == 404 <==> HasBoundingBox(query) && NoGeometry(upstream)
    ensures res.status == 200 <==>
      HasBoundingBox(query) && Listed(upstream) && !NoGeometry(upstream) && Encodable(Found(upstream))
    ensures res.status == 200 ==> res.headers == DownloadHeaders && res.body == DocumentText(Found(upstream), fmt)
    ensures res.status == 200 && OneLineFormatter(fmt) ==>
      ReadDxf(res.body) == Some(WrittenAll(Polylines(Found(upstream)), fmt))
    ensures res.status != 200 ==> res.headers == map[]
    ensures res.status == 400 ==> res.body == IncompleteMessage
    ensures res.status == 404 ==> res.body == NothingFoundMessage
    ensures res.status == 500 ==> res.body == FailureMessage
  {
    if !ParamTruthy(query, "south") || !ParamTruthy(query, "west")
       || !ParamTruthy(query, "north") || !ParamTruthy(query, "east") {
      return Response(400, map[], IncompleteMessage);
    }
    if upstream.Unreachable? || !Ok(upstream.status) || upstream.body.None? || upstream.body.value.Null? {
      return Response(500, map[], FailureMessage);
    }
    var elements := if upstream.body.value.Object? then upstream.body.value.elements else None;
    if elements.None? || |elements.value| == 0 {
      return Response(404, map[], NothingFoundMessage);
    }
    var dxf := EncodeDxf(elements.value, fmt);
    if dxf.Failure? {
      return Response(500, map[], FailureMessage);
    }
    if OneLineFormatter(fmt) {
      ReadEncodedDocument(elements.value, fmt);
    }
    res := Response(200, DownloadHeaders, dxf.value);
  }
}
