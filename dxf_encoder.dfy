/**
 * The OSM-to-DXF encoder of the `/export-dwg` handler (server.js): a fixed
 * HEADER section declaring AutoCAD version AC1021, then an ENTITIES section
 * with one LWPOLYLINE per element that has a geometry, then ENDSEC and EOF.
 *
 * The document is specified as a sequence of lines (DocumentLines) and its
 * text as those lines joined by newlines (DocumentText); EncodeDxf builds the
 * text by appending to one string, the way server.js does.
 */
module DxfEncoder {
  import opened Wrappers
  import opened Osm
  import opened Decimal
  import opened Lines

  /** JavaScript's conversion of a number to text (`${pt.lon}`), which this
      model leaves uninterpreted. */
  type Formatter = real -> string

  /** The drawing format version declared in the header: AutoCAD 2007. */
  const AcadVersion: string := "AC1021"

  /** The HEADER section, and the opening of the ENTITIES section. */
  const HeaderLines: seq<string> :=
    ["0", "SECTION", "2", "HEADER", "9", "$ACADVER", "1", AcadVersion, "0", "ENDSEC",
     "0", "SECTION", "2", "ENTITIES"]

  /** The end of the ENTITIES section and of the file. */
  const TrailerLines: seq<string> := ["0", "ENDSEC", "0", "EOF"]

  /** The template text server.js starts from: the header lines, each ended
      by a newline. */
  const HeaderText: string := Unlines(HeaderLines)

  /** The template text server.js ends with; no newline follows `EOF`. */
  const TrailerText: string := JoinLines(TrailerLines)

  /** One LWPOLYLINE entity: its layer, its closed flag and its vertices. */
  datatype Polyline = Polyline(layer: Layer, closed: bool, vertices: seq<Point>)

  /** No element has a geometry that is present but empty: for such an
      element server.js reads `geometry[0].lat` of an empty array and throws. */
  predicate Encodable(els: seq<Element>): (ok: bool)
    ensures ok ==> forall i :: 0 <= i < |els| && els[i].geometry.Some? ==> |els[i].geometry.value| > 0
    ensures !ok ==> exists i :: 0 <= i < |els| && els[i].geometry == Some([])
  {
    forall i :: 0 <= i < |els| ==> els[i].geometry != Some([])
  }

  /** The entity written for an element that has a geometry. */
  function ToPolyline(el: Element): (p: Polyline)
    requires el.geometry.Some? && el.geometry.value != []
    ensures p.vertices == el.geometry.value
    ensures p.layer == Classify(el.tags)
    ensures p.closed <==> p.vertices[0] == p.vertices[|p.vertices| - 1]
  {
    Polyline(Classify(el.tags), IsClosed(el.geometry.value), el.geometry.value)
  }

  /** The entities written for one element: none when it has no geometry. */
  function EntitiesOf(el: Element): seq<Polyline>
    requires el.geometry != Some([])
  {
    if el.geometry.None? then [] else [ToPolyline(el)]
  }

  /** The entities written for a list of elements, in the list's order. */
  function Polylines(els: seq<Element>): (ps: seq<Polyline>)
    requires Encodable(els)
    ensures |ps| <= |els|
    ensures forall k :: 0 <= k < |ps| ==> ps[k].vertices != []
  {
    if els == [] then [] else Polylines(els[..|els| - 1]) + EntitiesOf(els[|els| - 1])
  }

  /** Group codes 10 and 20 (X = longitude, Y = latitude) for each vertex. */
  function VertexLines(pts: seq<Point>, fmt: Formatter): (ls: seq<string>)
    ensures |ls| == 4 * |pts|
  {
    if pts == [] then []
    else
      var p := pts[|pts| - 1];
      VertexLines(pts[..|pts| - 1], fmt) + ["10", fmt(p.lon), "20", fmt(p.lat)]
  }

  /** The group codes 0, 8 (layer), 90 (vertex count) and 70 (closed flag)
      that open an LWPOLYLINE. */
  function PolylineHead(p: Polyline): (head: seq<string>)
    ensures |head| == 8 && head[1] == "LWPOLYLINE" && head[3] == LayerName(p.layer)
    ensures ParseNat(head[5]) == Some(|p.vertices|)
    ensures head[7] == "1" <==> p.closed
  {
    ParseNatToString(|p.vertices|);
    ["0", "LWPOLYLINE", "8", LayerName(p.layer), "90", NatToString(|p.vertices|),
     "70", if p.closed then "1" else "0"]
  }

  function PolylineLines(p: Polyline, fmt: Formatter): seq<string>
  {
    PolylineHead(p) + VertexLines(p.vertices, fmt)
  }

  function EntitiesLines(ps: seq<Polyline>, fmt: Formatter): seq<string>
  {
    if ps == [] then [] else EntitiesLines(ps[..|ps| - 1], fmt) + PolylineLines(ps[|ps| - 1], fmt)
  }

  /** The lines of the document written for a list of elements. */
  function DocumentLines(els: seq<Element>, fmt: Formatter): (lines: seq<string>)
    requires Encodable(els)
    ensures |HeaderLines| + |TrailerLines| <= |lines|
    ensures lines[..|HeaderLines|] == HeaderLines
    ensures lines[|lines| - |TrailerLines|..] == TrailerLines
  {
    HeaderLines + EntitiesLines(Polylines(els), fmt) + TrailerLines
  }

  /** The text of that document: its lines joined by newlines. */
  function DocumentText(els: seq<Element>, fmt: Formatter): (text: string)
    requires Encodable(els)
    ensures |text| >= 3 && text[|text| - 3..] == "EOF"
  {
    JoinLines(DocumentLines(els, fmt))
  }

  /** The template text server.js writes to open an entity. */
  function EntityHeadText(layer: string, count: string, flag: string): string
  {
    Unlines(["0", "LWPOLYLINE", "8", layer, "90", count, "70", flag])
  }

  /** The template text server.js writes for one vertex. */
  function VertexText(x: string, y: string): string
  {
    Unlines(["10", x, "20", y])
  }

  /** Associativity of concatenation, as a separate step so that the
      proofs that use it do not re-derive it in a large context. */
  lemma ConcatAssoc<T>(a: seq<T>, b: seq<T>, c: seq<T>)
    ensures (a + b) + c == a + (b + c)
  {
  }

  lemma EntitiesLinesSnoc(ps: seq<Polyline>, p: Polyline, fmt: Formatter)
    ensures EntitiesLines(ps + [p], fmt) == EntitiesLines(ps, fmt) + PolylineLines(p, fmt)
  {
    assert (ps + [p])[..|ps|] == ps;
  }

  /** Text already written, followed by the next vertex. */
  lemma WriteVertex(written: string, g: seq<Point>, j: nat, fmt: Formatter)
    requires j < |g|
    ensures (written + Unlines(VertexLines(g[..j], fmt))) + VertexText(fmt(g[j].lon), fmt(g[j].lat))
      == written + Unlines(VertexLines(g[..j + 1], fmt))
  {
    var four := ["10", fmt(g[j].lon), "20", fmt(g[j].lat)];
    assert g[..j + 1][..j] == g[..j];
    UnlinesAppend(VertexLines(g[..j], fmt), four);
    var done, next := Unlines(VertexLines(g[..j], fmt)), VertexText(fmt(g[j].lon), fmt(g[j].lat));
    ConcatAssoc(written, done, next);
  }

  /** Text already written, followed by the text of more lines. */
  lemma WriteLines(written: string, done: seq<string>, more: seq<string>)
    ensures (written + Unlines(done)) + Unlines(more) == written + Unlines(done + more)
  {
    UnlinesAppend(done, more);
    ConcatAssoc(written, Unlines(done), Unlines(more));
  }

  /** The entities of one more element: nothing when it has no geometry. */
  lemma SkipElement(els: seq<Element>, i: nat, fmt: Formatter)
    requires i < |els| && Encodable(els[..i]) && els[i].geometry.None?
    ensures Encodable(els[..i + 1])
    ensures EntitiesLines(Polylines(els[..i + 1]), fmt) == EntitiesLines(Polylines(els[..i]), fmt)
  {
    assert els[..i + 1] == els[..i] + [els[i]];
    assert els[..i + 1][..i] == els[..i];
    assert Polylines(els[..i + 1]) == Polylines(els[..i]) + [] == Polylines(els[..i]);
  }

  /** The entities of one more element: its polyline when it has a geometry. */
  lemma AddElement(els: seq<Element>, i: nat, fmt: Formatter)
    requires i < |els| && Encodable(els[..i])
    requires els[i].geometry.Some? && els[i].geometry.value != []
    ensures Encodable(els[..i + 1])
    ensures EntitiesLines(Polylines(els[..i + 1]), fmt) ==
      EntitiesLines(Polylines(els[..i]), fmt) + PolylineLines(ToPolyline(els[i]), fmt)
  {
    var p := ToPolyline(els[i]);
    assert els[..i + 1] == els[..i] + [els[i]];
    assert els[..i + 1][..i] == els[..i];
    assert Polylines(els[..i + 1]) == Polylines(els[..i]) + [p];
    EntitiesLinesSnoc(Polylines(els[..i]), p, fmt);
  }

  /** The finished text: header, entities, trailer. */
  lemma WriteTrailer(els: seq<Element>, fmt: Formatter)
    requires Encodable(els)
    ensures (HeaderText + Unlines(EntitiesLines(Polylines(els), fmt))) + TrailerText == DocumentText(els, fmt)
  {
    var entities := EntitiesLines(Polylines(els), fmt);
    UnlinesAppend(HeaderLines, entities);
    JoinLinesAfter(HeaderLines + entities, TrailerLines);
  }

  /** The inner loop of the encoder: appends group codes 10 and 20 for every
      point of a geometry, in order, to the text written so far. */
  method AppendVertices(dxf: string, g: seq<Point>, fmt: Formatter) returns (out: string)
    ensures out == dxf + Unlines(VertexLines(g, fmt))
  {
    out := dxf;
    assert g[..0] == [];
    var j := 0;
    while j < |g|
      invariant 0 <= j <= |g|
      invariant out == dxf + Unlines(VertexLines(g[..j], fmt))
    {
      WriteVertex(dxf, g, j, fmt);
      out := out + VertexText(fmt(g[j].lon), fmt(g[j].lat));
      j := j + 1;
    }
    assert g[..j] == g;
  }

  /** The body of the encoder's loop for an element with points: the entity's
      head (layer, vertex count, closed flag), then its vertices. */
  method AppendPolyline(dxf: string, el: Element, fmt: Formatter) returns (out: string)
    requires el.geometry.Some? && el.geometry.value != []
    ensures out == dxf + Unlines(PolylineLines(ToPolyline(el), fmt))
  {
    var g := el.geometry.value;
    var layer := LayerName(Classify(el.tags));
    var closed := IsClosed(g);
    out := dxf + EntityHeadText(layer, NatToString(|g|), if closed then "1" else "0");
    out := AppendVertices(out, g, fmt);
    WriteLines(dxf, PolylineHead(ToPolyline(el)), VertexLines(g, fmt));
  }

  /**
   * Writes the DXF text for the elements returned by Overpass. Elements
   * without a geometry are skipped. An element whose geometry is an empty
   * list makes the source throw (it reads the first point); the result is
   * then a failure naming the first such element.
   */
  method EncodeDxf(elements: seq<Element>, fmt: Formatter) returns (r: Result<string, nat>)
    ensures r.Success? <==> Encodable(elements)
    ensures r.Success? ==> r.value == DocumentText(elements, fmt)
    ensures r.Failure? ==>
      r.error < |elements| && elements[r.error].geometry == Some([]) && Encodable(elements[..r.error])
  {
    var dxf := HeaderText;
    ghost var header := dxf;
    assert elements[..0] == [];
    var i := 0;
    while i < |elements|
      invariant 0 <= i <= |elements|
      invariant Encodable(elements[..i])
      invariant dxf == header + Unlines(EntitiesLines(Polylines(elements[..i]), fmt))
    {
      var el := elements[i];
      if el.geometry.None? {
        SkipElement(elements, i, fmt);
        i := i + 1;
        continue;
      }
      var g := el.geometry.value;
      if |g| == 0 {
        return Failure(i);
      }
      AddElement(elements, i, fmt);
      WriteLines(header, EntitiesLines(Polylines(elements[..i]), fmt), PolylineLines(ToPolyline(el), fmt));
      dxf := AppendPolyline(dxf, el, fmt);
      i := i + 1;
    }
    assert elements[..i] == elements;
    WriteTrailer(elements, fmt);
    dxf := dxf + TrailerText;
    r := Success(dxf);
  }
}
