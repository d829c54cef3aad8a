# OSM-to-DXF export, modelled in Dafny

This project models the `/export-dwg` endpoint of the map server in
`server.js`. The endpoint takes a bounding box, asks the Overpass API for the
OpenStreetMap ways and relations in it, and returns a DXF drawing. The drawing
has a fixed HEADER section declaring `$ACADVER AC1021`, then an ENTITIES
section with one `LWPOLYLINE` per element that has a geometry, then
`ENDSEC`/`EOF`. Each entity carries:

- a layer chosen from the element's tags: `EDIFICIOS` for a building,
  `VIAS` for a highway, `OUTROS` otherwise;
- the vertex count (group 90);
- a closed flag (group 70), which is 1 when the first and last points are
  equal;
- one group-10/group-20 pair per point (X = longitude, Y = latitude).

Modules:

- `Wrappers`: `Option` and `Result`.
- `Osm`: points, elements and tags, with the JavaScript truthiness of a tag
  (an empty string counts as absent). Also the layer choice (`Classify`) and
  the closure test (`IsClosed`).
- `Decimal`: the decimal text of the vertex count (`NatToString`), a parser
  for it, and their round trip.
- `Lines`: text as newline-separated lines. `Unlines` ends every line with
  a newline, and `JoinLines` puts newlines only between lines. `JoinLines`
  and `SplitLines` are proved inverse to each other. For `JoinLines`, this
  holds on lines without a newline.
- `DxfEncoder`: the document as a function on the elements (`DocumentLines`,
  `DocumentText`). `EncodeDxf` builds the same text with the source's two
  nested loops, which append to one string. It is proved equal to
  `DocumentText`, or it fails at the first element whose geometry is present
  but empty.
- `DxfProperties`: properties of the document. They cover entity order and
  count, the position of each element's entity, the vertex layout, the
  framing, skipped elements, and distribution over concatenation.
- `DxfReader`: a reader for the produced text. It is proved to give back
  every entity's layer, closed flag and vertex text.
- `ExportDwg`: the request handler around the encoder. It covers the
  400/404/500 branches and the download headers. The Overpass reply is a
  parameter. A query parameter is a string, or an array or object (which
  is always truthy). The JSON reply is `null`, an object, or another
  value on which `.elements` is undefined.

Coordinates are `real`. JavaScript's conversion of a number to text
(`${pt.lon}`) is a parameter `fmt: real -> string` that is never
interpreted. The reader's round trip only assumes that `fmt` never produces
a line break.

Two behaviours of `server.js` that a reader may not expect, and that the
model keeps:

- A one-point geometry is written with closed flag 1, because its first and
  last points are the same point. It is not written with closed flag 0.
- A geometry that is present but empty is not skipped. An empty array is
  truthy in JavaScript, so the handler reads `geometry[0].lat`, throws, and
  answers 500. `EncodeDxf` returns `Failure(i)` for the first such element,
  and `HandleExportDwg` maps it to 500.

## Model

| member | source | states |
|---|---|---|
| Osm.TagTruthy | server.js:79-81 | A tag is truthy only when the tags exist and hold the key. A present tag is truthy exactly when its value is a non-empty string. |
| Osm.Classify | server.js:79-83 | The layer is EDIFICIOS exactly when `building` is truthy. It is VIAS exactly when `building` is not truthy and `highway` is. It is OUTROS exactly when neither is truthy, which includes absent tags. |
| Osm.ClassifyIgnoresOtherTags | server.js:79-83 | Adding, changing or removing any tag other than `building` and `highway` never changes the layer. |
| Osm.EmptyTagIsAbsent | server.js:79-81 | A tag whose value is the empty string selects the same layer as a missing tag. |
| Osm.IsClosed | server.js:84-86 | The closed flag holds exactly when the first and last points are equal in both latitude and longitude. |
| Osm.OnePointIsClosed | server.js:84-86 | A geometry of one point is closed. |
| Osm.ClosureIgnoresInterior | server.js:84-86 | Two geometries with the same first and last points get the same closed flag, whatever lies between those points. |
| Decimal.NatToString | server.js:92-93 | The vertex count is written as a non-empty string of decimal digits, with no leading zero except for 0 itself. |
| Decimal.ParseNat | server.js:92-93 | Inverse of the count writing, not in the source: a line parses as a count exactly when it is a non-empty string of decimal digits. |
| Decimal.ParseNatToString | server.js:92-93 | Parsing the written vertex count gives back the count. |
| Decimal.NatToStringInjective | server.js:92-93 | Different counts are written as different text. |
| Lines.SplitLines | server.js:60-110 | Inverse of the line joining, not in the source: splitting text at newlines gives at least one line, and no line contains a newline. |
| Lines.UnlinesAppend | server.js:88-104 | Appending the newline-terminated text of two runs of lines gives the text of the joined run. |
| Lines.JoinLinesAfter | server.js:107-110 | Newline-terminated lines followed by newline-joined lines give the newline-joined text of all of them. |
| Lines.SplitJoinLines | server.js:60-110 | Round trip of the line joining: splitting the joined text of newline-free lines gives back exactly those lines. |
| Lines.JoinSplitLines | server.js:60-110 | Round trip of the line splitting: joining the lines of a split text gives back the text. |
| DxfEncoder.Encodable | server.js:77-85 | When a list is encodable, every present geometry has a first point to read. When it is not, some element has a present but empty geometry. |
| DxfEncoder.ToPolyline | server.js:79-96 | An element's entity keeps its points unchanged and is on the layer its tags select. It is closed exactly when its first and last points are equal. |
| DxfEncoder.Polylines | server.js:76-96 | There are at most as many entities as elements, and every entity has at least one vertex. |
| DxfEncoder.VertexLines | server.js:98-104 | A geometry's vertex lines are four per point. |
| DxfEncoder.PolylineHead | server.js:88-96 | An entity's head has 8 lines. Line 2 is `LWPOLYLINE` and line 4 is the layer name. Line 6 parses back to the number of points, and line 8 is `1` exactly when the entity is closed. |
| DxfEncoder.DocumentLines | server.js:60-110 | The document's lines start with the 14 header lines `0 SECTION 2 HEADER 9 $ACADVER 1 AC1021 0 ENDSEC 0 SECTION 2 ENTITIES`. They end with the 4 trailer lines `0 ENDSEC 0 EOF`. |
| DxfEncoder.DocumentText | server.js:60-110 | The document text ends with `EOF`, with no newline after it. |
| DxfEncoder.AppendVertices | server.js:98-104 | After the inner loop, the text is the text before it followed by `10`, X, `20`, Y for every point, in the original order. |
| DxfEncoder.AppendPolyline | server.js:79-104 | One pass of the outer loop for an element with points appends that element's LWPOLYLINE record: its head, then its vertices. |
| DxfEncoder.SkipElement | server.js:77 | An element without a geometry adds no entity. |
| DxfEncoder.AddElement | server.js:76-105 | An element with points adds exactly its own record after the records of the earlier elements. |
| DxfEncoder.WriteTrailer | server.js:107-110 | The header, the entity records and the trailer make up the document text. |
| DxfEncoder.EncodeDxf | server.js:60-110 | Encoding succeeds exactly when no element has a present but empty geometry. On success the text is the document of header, entities and trailer. On failure it names the first element with an empty geometry. |
| DxfProperties.PolylinesAppend | server.js:76-105 | The entities for `xs + ys` are the entities for `xs` followed by the entities for `ys`. |
| DxfProperties.EntitiesLinesAppend | server.js:88-104 | The lines of a run of entities are the lines of each part, in order. |
| DxfProperties.EntitySectionAppend | server.js:76-105 | The ENTITIES section for `xs + ys` is the section for `xs` followed by the section for `ys`. |
| DxfProperties.PolylineCount | server.js:76-77 | There is exactly one entity per element that has a geometry. |
| DxfProperties.PolylineAt | server.js:76-96 | Element `i` with a geometry is the entity after the entities of all earlier elements with a geometry. That entity has the layer its tags select, is closed exactly when its first and last points are equal, and has the element's points unchanged. |
| DxfProperties.GeometryCountIncreasing | server.js:76-77 | A later element's entity comes strictly after an earlier one's, so input order is kept. |
| DxfProperties.EncodableAppend | server.js:77-85 | A list can be encoded exactly when both of its parts can. |
| DxfProperties.SkippedElement | server.js:77 | Inserting an element without a geometry anywhere leaves the document unchanged. |
| DxfProperties.VertexLinesAt | server.js:98-104 | There are four lines per point. Lines `4k` to `4k+3` are `10`, the longitude of point `k`, `20`, and its latitude. |
| DxfProperties.VertexLinesAppend | server.js:98-104 | The vertex lines of joined point runs are the vertex lines of each run, in order. |
| DxfProperties.PolylineRecord | server.js:88-104 | A record has 8 + 4n lines and opens with `0 LWPOLYLINE 8 <layer> 90 <n> 70 <flag>`. The group-90 value parses back to the number of points. |
| DxfProperties.DocumentFraming | server.js:60-110 | The document starts with the HEADER section declaring `$ACADVER AC1021` and the ENTITIES opener. It ends with `0 ENDSEC 0 EOF` and no trailing newline. |
| DxfProperties.AllSkipped | server.js:60-110 | When no element has a geometry, the document is exactly the header followed by the trailer. |
| DxfReader.ReadVertices | server.js:98-104 | Reader for these lines, not in the source: a successful read of `n` vertices consumes exactly `4n` lines and gives `n` pairs. |
| DxfReader.ReadEntity | server.js:88-96 | Reader for these lines, not in the source: a successful read of an entity consumes at least one line. |
| DxfReader.ReadVerticesOf | server.js:98-104 | Reading the vertex lines written for some points gives back each point's X and Y text, in order, and leaves what follows. |
| DxfReader.ReadEntityOf | server.js:88-104 | Reading a written record gives back its layer name, closed flag and vertices, and leaves what follows. |
| DxfReader.ReadEntitiesOf | server.js:76-110 | Reading the written entity records up to the trailer gives back every entity, in order. |
| DxfReader.ReadDocumentOf | server.js:60-110 | Reading a header, entity records and trailer gives back every entity. |
| DxfReader.ReadEncodedDocument | server.js:60-110 | Reading the produced text gives back every entity the encoder wrote, provided number formatting never produces a line break. |
| DxfReader.ReadBackElement | server.js:76-104 | The text holds one entity per element with a geometry. For element `i`, the entity at its position has the layer its tags select. It is closed exactly when the ends agree in latitude and longitude. It has one vertex per point, with X = longitude and Y = latitude, in order. |
| ExportDwg.HasBoundingBox | server.js:19 | The box is complete exactly when all four sides are truthy. It is incomplete exactly when some side is missing or is the empty string. |
| ExportDwg.NoGeometry | server.js:56 | The 404 test holds only for an accepted reply whose JSON is not `null`. It holds exactly when `data.elements` is undefined or an empty list. |
| ExportDwg.HandleExportDwg | server.js:16-118 | A missing or empty `south`, `west`, `north` or `east` gives exactly 400 with the incomplete-parameters message. A reply whose `elements` is missing or empty gives exactly 404 with the no-geometry message. Exactly the requests with a complete box, an accepted reply with elements, and no empty geometry succeed. They get the encoded document, which reads back to every entity, with the headers `Content-Disposition: attachment; filename=export_mapa.dxf` and `Content-Type: application/dxf`. Every other request gets 500 with the error message, and the handler sets no headers. |

## Left out

- Express setup, CORS, static files and the catch-all `index.html` route
  (server.js:7-14, 121-126) are HTTP plumbing and are not modelled.
- The Overpass request (server.js:43-54) is network I/O. Its outcome is the
  `Upstream` parameter of `HandleExportDwg`: no reply, or a status with a
  body that is JSON or is not. `Upstream` is a free parameter. Nothing ties
  the reply to the bounding box in the query.
- The bounding-box expansion by 0.002, the `parseFloat` calls and the text of
  the Overpass QL query (server.js:23-41) are floating-point parsing and
  formatting sent to the network. Only the truthiness guard on the four
  parameters is modelled.
- JavaScript's number-to-text conversion of `pt.lon` and `pt.lat` is the
  parameter `fmt`, with no properties. These JavaScript values are not
  modelled: `-0`, `NaN`, a point without `lat` or `lon`, a `geometry` that
  is not an array, and an `elements` field that is not an array.
- The `console.error` log in the error branch (server.js:116) is output
  only, and is not modelled.
- DxfReader.ReadEncodedDocument: the round trip is stated only for a `fmt`
  that never writes a newline. A formatter that did would change the line
  structure of the text.
- ExportDwg.HandleExportDwg: `headers` holds only the headers the handler
  sets. Express also sets headers of its own. `res.send` adds
  `; charset=utf-8` to `application/dxf`, and gives the 400/404/500 text
  replies `Content-Type: text/html; charset=utf-8`. Neither is modelled.
- ExportDwg.HandleExportDwg: an array or object query parameter is modelled
  only as truthy. Its entries are not modelled, since only the truthiness
  test at server.js:19 reads it.
- The `/api/collection` store and its persistence, which the repository's
  tests exercise, are not part of this `server.js` and are not part of this
  model.
