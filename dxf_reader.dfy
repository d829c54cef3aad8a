/**
 * A reader for the DXF text the encoder writes. It splits the text into
 * lines, checks the fixed header, then reads LWPOLYLINE entities up to the
 * trailer: each entity's layer (group 8), its vertex count (group 90), its
 * closed flag (group 70) and then exactly that many vertices (groups 10 and
 * 20). Reading what the encoder wrote gives back, entity by entity, what
 * each element was written as.
 */
module DxfReader {
  import opened Wrappers
  import opened Osm
  import opened Decimal
  import opened Lines
  import opened DxfEncoder
  import opened DxfProperties

  /** An entity as read from the text: its layer name, its closed flag, and
      the X and Y text of each vertex. */
  datatype Entity = Entity(layer: string, closed: bool, vertices: seq<(string, string)>)

  /** Reads `n` vertices, each as the four lines `10`, X, `20`, Y; gives them
      and the lines that follow them. */
  function ReadVertices(ls: seq<string>, n: nat): (r: Option<(seq<(string, string)>, seq<string>)>)
    ensures r.Some? ==> 4 * n <= |ls| && |r.value.0| == n && r.value.1 == ls[4 * n..]
  {
    if n == 0 then Some(([], ls))
    else if 4 <= |ls| && ls[0] == "10" && ls[2] == "20" then
      match ReadVertices(ls[4..], n - 1)
      case None => None
      case Some((vs, rest)) => Some(([(ls[1], ls[3])] + vs, rest))
    else None
  }

  /** Reads one LWPOLYLINE entity: its head (group codes 0, 8, 90, 70) and
      then as many vertices as group 90 announces; gives it and the lines
      that follow it. */
  function ReadEntity(ls: seq<string>): (r: Option<(Entity, seq<string>)>)
    ensures r.Some? ==> |r.value.1| < |ls|
  {
    if 8 <= |ls| && ls[0] == "0" && ls[1] == "LWPOLYLINE" && ls[2] == "8" && ls[4] == "90"
       && ls[6] == "70" && (ls[7] == "0" || ls[7] == "1") then
      match ParseNat(ls[5])
      case None => None
      case Some(n) =>
        match ReadVertices(ls[8..], n)
        case None => None
        case Some((vs, rest)) => Some((Entity(ls[3], ls[7] == "1", vs), rest))
    else None
  }

  /** Reads entities until exactly the trailer remains. */
  function ReadEntities(ls: seq<string>): Option<seq<Entity>>
    decreases |ls|
  {
    if ls == TrailerLines then Some([])
    else
      match ReadEntity(ls)
      case None => None
      case Some((e, rest)) =>
        match ReadEntities(rest)
        case None => None
        case Some(es) => Some([e] + es)
  }

  /** Reads a whole document given as lines. */
  function ReadDocument(ls: seq<string>): Option<seq<Entity>>
  {
    if |HeaderLines| <= |ls| && ls[..|HeaderLines|] == HeaderLines then ReadEntities(ls[|HeaderLines|..])
    else None
  }

  /** Reads a whole document given as text. */
  function ReadDxf(text: string): Option<seq<Entity>>
  {
    ReadDocument(SplitLines(text))
  }

  /** The X and Y text written for each point. */
  function VertexPairs(pts: seq<Point>, fmt: Formatter): seq<(string, string)>
  {
    seq(|pts|, k requires 0 <= k < |pts| => (fmt(pts[k].lon), fmt(pts[k].lat)))
  }

  /** What an entity is read back as. */
  function Written(p: Polyline, fmt: Formatter): Entity
  {
    Entity(LayerName(p.layer), p.closed, VertexPairs(p.vertices, fmt))
  }

  function WrittenAll(ps: seq<Polyline>, fmt: Formatter): seq<Entity>
  {
    seq(|ps|, k requires 0 <= k < |ps| => Written(ps[k], fmt))
  }

  /** Number formatting never produces a line break. */
  ghost predicate OneLineFormatter(fmt: Formatter)
  {
    forall x :: NoNewline(fmt(x))
  }

  lemma {:induction false} ReadVerticesOf(pts: seq<Point>, rest: seq<string>, fmt: Formatter)
    ensures ReadVertices(VertexLines(pts, fmt) + rest, |pts|) == Some((VertexPairs(pts, fmt), rest))
    decreases |pts|
  {
    if pts != [] {
      var p, tail := pts[0], pts[1..];
      assert pts == [p] + tail;
      VertexLinesAppend([p], tail, fmt);
      assert [p][..0] == [];
      var four := ["10", fmt(p.lon), "20", fmt(p.lat)];
      assert VertexLines([p], fmt) == four;
      var ls := VertexLines(pts, fmt) + rest;
      assert ls == four + (VertexLines(tail, fmt) + rest);
      assert ls[4..] == VertexLines(tail, fmt) + rest;
      assert ls[0] == "10" && ls[1] == fmt(p.lon) && ls[2] == "20" && ls[3] == fmt(p.lat);
      ReadVerticesOf(tail, rest, fmt);
      assert ReadVertices(ls[4..], |pts| - 1) == Some((VertexPairs(tail, fmt), rest));
      VertexPairsCons(pts, fmt);
      assert ReadVertices(ls, |pts|) == Some(([(ls[1], ls[3])] + VertexPairs(tail, fmt), rest));
    } else {
      assert VertexLines(pts, fmt) + rest == rest;
      assert VertexPairs(pts, fmt) == [];
    }
  }

  /** Reading one entity's lines, whatever follows them. */
  lemma ReadEntityOf(p: Polyline, after: seq<string>, fmt: Formatter)
    ensures ReadEntity(PolylineLines(p, fmt) + after) == Some((Written(p, fmt), after))
  {
    var head := PolylineHead(p);
    var n := |p.vertices|;
    var vertices := VertexLines(p.vertices, fmt);
    var ls := PolylineLines(p, fmt) + after;
    assert ls == head + (vertices + after);
    assert ls[..8] == head;
    assert ls[8..] == vertices + after;
    ParseNatToString(n);
    ReadVerticesOf(p.vertices, after, fmt);
    assert ReadVertices(ls[8..], n) == Some((VertexPairs(p.vertices, fmt), after));
    assert ls[3] == LayerName(p.layer) && ParseNat(ls[5]) == Some(n) && (ls[7] == "1" <==> p.closed);
  }

  lemma {:induction false} ReadEntitiesOf(ps: seq<Polyline>, fmt: Formatter)
    ensures ReadEntities(EntitiesLines(ps, fmt) + TrailerLines) == Some(WrittenAll(ps, fmt))
    decreases |ps|
  {
    if ps == [] {
      assert EntitiesLines(ps, fmt) + TrailerLines == TrailerLines;
      assert ReadEntities(TrailerLines) == Some([]);
      assert WrittenAll(ps, fmt) == [];
    } else {
      var p, tail := ps[0], ps[1..];
      assert ps == [p] + tail;
      EntitiesLinesAppend([p], tail, fmt);
      assert [p][..0] == [];
      assert EntitiesLines([p], fmt) == PolylineLines(p, fmt);
      var after := EntitiesLines(tail, fmt) + TrailerLines;
      var record, others := PolylineLines(p, fmt), EntitiesLines(tail, fmt);
      ConcatAssoc(record, others, TrailerLines);
      assert EntitiesLines(ps, fmt) + TrailerLines == PolylineLines(p, fmt) + after;
      ReadEntitiesOf(tail, fmt);
      ReadEntityOf(p, after, fmt);
      assert |PolylineLines(p, fmt) + after| != |TrailerLines|;
      WrittenAllCons(ps, fmt);
    }
  }

  lemma VertexPairsCons(pts: seq<Point>, fmt: Formatter)
    requires pts != []
    ensures VertexPairs(pts, fmt) == [(fmt(pts[0].lon), fmt(pts[0].lat))] + VertexPairs(pts[1..], fmt)
  {
  }

  lemma WrittenAllCons(ps: seq<Polyline>, fmt: Formatter)
    requires ps != []
    ensures WrittenAll(ps, fmt) == [Written(ps[0], fmt)] + WrittenAll(ps[1..], fmt)
  {
  }

  lemma AllNoNewlineAppend(a: seq<string>, b: seq<string>)
    requires AllNoNewline(a) && AllNoNewline(b)
    ensures AllNoNewline(a + b)
  {
  }

  lemma {:induction false} VertexLinesOneLine(pts: seq<Point>, fmt: Formatter)
    requires OneLineFormatter(fmt)
    ensures AllNoNewline(VertexLines(pts, fmt))
    decreases |pts|
  {
    if pts != [] {
      var p := pts[|pts| - 1];
      VertexLinesOneLine(pts[..|pts| - 1], fmt);
      assert NoNewline(fmt(p.lon)) && NoNewline(fmt(p.lat));
      AllNoNewlineAppend(VertexLines(pts[..|pts| - 1], fmt), ["10", fmt(p.lon), "20", fmt(p.lat)]);
    }
  }

  lemma DigitsOneLine(s: string)
    requires AllDigits(s)
    ensures NoNewline(s)
  {
  }

  lemma {:induction false} EntitiesLinesOneLine(ps: seq<Polyline>, fmt: Formatter)
    requires OneLineFormatter(fmt)
    ensures AllNoNewline(EntitiesLines(ps, fmt))
    decreases |ps|
  {
    if ps != [] {
      var p := ps[|ps| - 1];
      EntitiesLinesOneLine(ps[..|ps| - 1], fmt);
      VertexLinesOneLine(p.vertices, fmt);
      DigitsOneLine(NatToString(|p.vertices|));
      assert NoNewline(LayerName(p.layer));
      AllNoNewlineAppend(PolylineHead(p), VertexLines(p.vertices, fmt));
      AllNoNewlineAppend(EntitiesLines(ps[..|ps| - 1], fmt), PolylineLines(p, fmt));
    }
  }

  /** The fixed header and trailer lines hold no line break. */
  lemma FramingOneLine()
    ensures AllNoNewline(HeaderLines) && AllNoNewline(TrailerLines)
  {
  }

  lemma DocumentOneLine(els: seq<Element>, fmt: Formatter)
    requires Encodable(els) && OneLineFormatter(fmt)
    ensures AllNoNewline(DocumentLines(els, fmt))
  {
    var entities := EntitiesLines(Polylines(els), fmt);
    EntitiesLinesOneLine(Polylines(els), fmt);
    FramingOneLine();
    AllNoNewlineAppend(HeaderLines, entities);
    AllNoNewlineAppend(HeaderLines + entities, TrailerLines);
  }

  lemma ReadDocumentOf(ps: seq<Polyline>, fmt: Formatter)
    ensures ReadDocument(HeaderLines + EntitiesLines(ps, fmt) + TrailerLines) == Some(WrittenAll(ps, fmt))
  {
    var doc := HeaderLines + EntitiesLines(ps, fmt) + TrailerLines;
    ConcatAssoc(HeaderLines, EntitiesLines(ps, fmt), TrailerLines);
    assert doc[..|HeaderLines|] == HeaderLines;
    assert doc[|HeaderLines|..] == EntitiesLines(ps, fmt) + TrailerLines;
    ReadEntitiesOf(ps, fmt);
  }

  /** Reading what the encoder wrote gives back every entity it wrote: the
      layer name, the closed flag and the X/Y text of every vertex. */
  lemma ReadEncodedDocument(els: seq<Element>, fmt: Formatter)
    requires Encodable(els) && OneLineFormatter(fmt)
    ensures ReadDxf(DocumentText(els, fmt)) == Some(WrittenAll(Polylines(els), fmt))
  {
    DocumentOneLine(els, fmt);
    SplitJoinLines(DocumentLines(els, fmt));
    ReadDocumentOf(Polylines(els), fmt);
  }

  /** What the text says about each element: the elements with a geometry
      are read back in input order, one entity each; element `i` is the
      entity after all earlier elements with a geometry, on the layer its
      tags select, closed exactly when its first and last points are equal,
      and with one vertex per point, X = longitude and Y = latitude, in the
      original order. */
  lemma ReadBackElement(els: seq<Element>, i: nat, fmt: Formatter)
    requires Encodable(els) && OneLineFormatter(fmt)
    requires i < |els| && els[i].geometry.Some?
    ensures ReadDxf(DocumentText(els, fmt)).Some?
    ensures |ReadDxf(DocumentText(els, fmt)).value| == GeometryCount(els)
    ensures GeometryCount(els[..i]) < GeometryCount(els)
    ensures
      var e := ReadDxf(DocumentText(els, fmt)).value[GeometryCount(els[..i])];
      var g := els[i].geometry.value;
      && e.layer == LayerName(Classify(els[i].tags))
      && (e.closed <==> g[0].lat == g[|g| - 1].lat && g[0].lon == g[|g| - 1].lon)
      && |e.vertices| == |g|
      && forall j :: 0 <= j < |g| ==> e.vertices[j] == (fmt(g[j].lon), fmt(g[j].lat))
  {
    ReadEncodedDocument(els, fmt);
    PolylineCount(els);
    PolylineAt(els, i);
  }
}
