/**
 * What the document written by the encoder promises: fixed framing, one
 * entity per element that has a geometry, in input order, and within each
 * entity the vertex count followed by exactly that many X/Y pairs.
 */
module DxfProperties {
  import opened Wrappers
  import opened Osm
  import opened Decimal
  import opened Lines
  import opened DxfEncoder

  /** The number of elements that carry a geometry. */
  function GeometryCount(els: seq<Element>): nat
  {
    if els == [] then 0
    else GeometryCount(els[..|els| - 1]) + (if els[|els| - 1].geometry.Some? then 1 else 0)
  }

  /** The entities of a concatenation are the entities of each part, because
      each element's entity depends on that element alone. */
  lemma {:induction false} PolylinesAppend(xs: seq<Element>, ys: seq<Element>)
    requires Encodable(xs + ys)
    ensures Encodable(xs) && Encodable(ys)
    ensures Polylines(xs + ys) == Polylines(xs) + Polylines(ys)
    decreases |ys|
  {
    EncodableAppend(xs, ys);
    if ys == [] {
      assert xs + ys == xs;
    } else {
      var init, last := ys[..|ys| - 1], ys[|ys| - 1];
      assert ys == init + [last];
      assert (xs + ys)[..|xs + ys| - 1] == xs + init;
      EncodableAppend(init, [last]);
      EncodableAppend(xs, init);
      PolylinesAppend(xs, init);
      assert Polylines(xs + ys) == Polylines(xs + init) + EntitiesOf(last);
      assert Polylines(ys) == Polylines(init) + EntitiesOf(last);
      ConcatAssoc(Polylines(xs), Polylines(init), EntitiesOf(last));
    }
  }

  lemma {:induction false} EntitiesLinesAppend(ps: seq<Polyline>, qs: seq<Polyline>, fmt: Formatter)
    ensures EntitiesLines(ps + qs, fmt) == EntitiesLines(ps, fmt) + EntitiesLines(qs, fmt)
    decreases |qs|
  {
    if qs == [] {
      assert ps + qs == ps;
    } else {
      var init, last := qs[..|qs| - 1], qs[|qs| - 1];
      assert qs == init + [last];
      assert ps + qs == (ps + init) + [last];
      EntitiesLinesSnoc(ps + init, last, fmt);
      EntitiesLinesSnoc(init, last, fmt);
      EntitiesLinesAppend(ps, init, fmt);
      var a, b, c := EntitiesLines(ps, fmt), EntitiesLines(init, fmt), PolylineLines(last, fmt);
      ConcatAssoc(a, b, c);
    }
  }

  /** The ENTITIES section distributes over concatenation of element lists. */
  lemma EntitySectionAppend(xs: seq<Element>, ys: seq<Element>, fmt: Formatter)
    requires Encodable(xs + ys)
    ensures Encodable(xs) && Encodable(ys)
    ensures EntitiesLines(Polylines(xs + ys), fmt)
         == EntitiesLines(Polylines(xs), fmt) + EntitiesLines(Polylines(ys), fmt)
  {
    PolylinesAppend(xs, ys);
    EntitiesLinesAppend(Polylines(xs), Polylines(ys), fmt);
  }

  /** One entity per element that has a geometry. */
  lemma {:induction false} PolylineCount(els: seq<Element>)
    requires Encodable(els)
    ensures |Polylines(els)| == GeometryCount(els)
  {
    if els != [] {
      PolylineCount(els[..|els| - 1]);
    }
  }

  /** Element `i`, when it has a geometry, is written as the entity whose
      position is the number of geometry-carrying elements before it, on the
      layer its tags select, closed exactly when its end points coincide,
      with its points unchanged and in order. */
  lemma PolylineAt(els: seq<Element>, i: nat)
    requires Encodable(els) && i < |els| && els[i].geometry.Some?
    ensures GeometryCount(els[..i]) < |Polylines(els)|
    ensures Polylines(els)[GeometryCount(els[..i])] ==
      Polyline(Classify(els[i].tags), els[i].geometry.value[0] == els[i].geometry.value[|els[i].geometry.value| - 1],
               els[i].geometry.value)
  {
    var xs, rest := els[..i], els[i + 1..];
    var el := els[i];
    assert els == (xs + [el]) + rest;
    EncodableAppend(xs + [el], rest);
    EncodableAppend(xs, [el]);
    PolylinesAppend(xs + [el], rest);
    PolylinesAppend(xs, [el]);
    assert [el][..0] == [];
    assert Polylines([el]) == [ToPolyline(el)];
    PolylineCount(xs);
    var before := Polylines(xs);
    assert Polylines(els) == (before + [ToPolyline(el)]) + Polylines(rest);
    assert Polylines(els)[|before|] == ToPolyline(el);
  }

  /** Earlier elements come first: of two elements with a geometry, the one
      earlier in the input has the earlier entity. */
  lemma {:induction false} GeometryCountIncreasing(els: seq<Element>, i: nat, j: nat)
    requires i < j <= |els| && els[i].geometry.Some?
    ensures GeometryCount(els[..i]) < GeometryCount(els[..j])
    decreases j
  {
    assert els[..j][..j - 1] == els[..j - 1];
    if j - 1 > i {
      GeometryCountIncreasing(els, i, j - 1);
    } else {
      assert els[..j][j - 1] == els[i];
    }
  }

  lemma EncodableAppend(xs: seq<Element>, ys: seq<Element>)
    ensures Encodable(xs + ys) <==> Encodable(xs) && Encodable(ys)
  {
    assert forall i | 0 <= i < |xs| :: xs[i] == (xs + ys)[i];
    assert forall i | 0 <= i < |ys| :: ys[i] == (xs + ys)[|xs| + i];
  }

  /** An element without a geometry adds nothing to the document. */
  lemma SkippedElement(xs: seq<Element>, el: Element, ys: seq<Element>, fmt: Formatter)
    requires Encodable(xs + ys) && el.geometry.None?
    ensures Encodable(xs + [el] + ys)
    ensures DocumentLines(xs + [el] + ys, fmt) == DocumentLines(xs + ys, fmt)
  {
    EncodableAppend(xs, ys);
    EncodableAppend(xs, [el]);
    EncodableAppend(xs + [el], ys);
    PolylinesAppend(xs + [el], ys);
    PolylinesAppend(xs, [el]);
    PolylinesAppend(xs, ys);
    assert [el][..0] == [];
    assert Polylines([el]) == [];
    assert Polylines(xs) + [] == Polylines(xs);
  }

  /** The lines for one vertex list: four per point, X = longitude then
      Y = latitude, in the original order. */
  lemma {:induction false} VertexLinesAt(pts: seq<Point>, k: nat, fmt: Formatter)
    requires k < |pts|
    ensures |VertexLines(pts, fmt)| == 4 * |pts|
    ensures VertexLines(pts, fmt)[4 * k .. 4 * k + 4] == ["10", fmt(pts[k].lon), "20", fmt(pts[k].lat)]
    decreases |pts|
  {
    var init := pts[..|pts| - 1];
    if k < |pts| - 1 {
      VertexLinesAt(init, k, fmt);
      assert init[k] == pts[k];
    } else if init != [] {
      VertexLinesAt(init, 0, fmt);
    }
  }

  lemma {:induction false} VertexLinesAppend(a: seq<Point>, b: seq<Point>, fmt: Formatter)
    ensures VertexLines(a + b, fmt) == VertexLines(a, fmt) + VertexLines(b, fmt)
    decreases |b|
  {
    if b == [] {
      assert a + b == a;
    } else {
      var init, last := b[..|b| - 1], b[|b| - 1];
      assert (a + b)[..|a + b| - 1] == a + init;
      assert (a + b)[|a + b| - 1] == last;
      VertexLinesAppend(a, init, fmt);
      var four := ["10", fmt(last.lon), "20", fmt(last.lat)];
      assert VertexLines(a + b, fmt) == (VertexLines(a, fmt) + VertexLines(init, fmt)) + four;
      assert VertexLines(b, fmt) == VertexLines(init, fmt) + four;
      var front, middle := VertexLines(a, fmt), VertexLines(init, fmt);
      ConcatAssoc(front, middle, four);
    }
  }

  /** The record of one entity: its head declares the layer, the number of
      points (group 90) and the closed flag (group 70), and exactly that many
      vertex groups follow. */
  lemma PolylineRecord(p: Polyline, fmt: Formatter)
    ensures |PolylineLines(p, fmt)| == 8 + 4 * |p.vertices|
    ensures PolylineLines(p, fmt)[..8] ==
      ["0", "LWPOLYLINE", "8", LayerName(p.layer), "90", NatToString(|p.vertices|),
       "70", if p.closed then "1" else "0"]
    ensures ParseNat(PolylineLines(p, fmt)[5]) == Some(|p.vertices|)
  {
    if p.vertices != [] {
      VertexLinesAt(p.vertices, 0, fmt);
    }
    ParseNatToString(|p.vertices|);
  }

  /** Every document begins with the fixed header, which declares AutoCAD
      version AC1021, and ends with ENDSEC and EOF, with no newline after EOF. */
  lemma DocumentFraming(els: seq<Element>, fmt: Formatter)
    requires Encodable(els)
    ensures DocumentLines(els, fmt)[..|HeaderLines|] == HeaderLines
    ensures DocumentLines(els, fmt)[|DocumentLines(els, fmt)| - 4..] == ["0", "ENDSEC", "0", "EOF"]
    ensures HeaderLines[5] == "$ACADVER" && HeaderLines[7] == "AC1021"
    ensures DocumentText(els, fmt) == HeaderText + Unlines(EntitiesLines(Polylines(els), fmt)) + TrailerText
    ensures DocumentText(els, fmt)[|DocumentText(els, fmt)| - 1] == 'F'
  {
    var entities := EntitiesLines(Polylines(els), fmt);
    var doc := HeaderLines + entities + TrailerLines;
    assert doc[..|HeaderLines|] == HeaderLines;
    assert doc[|doc| - 4..] == TrailerLines;
    UnlinesAppend(HeaderLines, entities);
    JoinLinesAfter(HeaderLines + entities, TrailerLines);
    assert TrailerText == Unlines(TrailerLines[..3]) + "EOF";
  }

  /** When every element lacks a geometry, the document is the header
      followed directly by the trailer. */
  lemma {:induction false} AllSkipped(els: seq<Element>, fmt: Formatter)
    requires forall i :: 0 <= i < |els| ==> els[i].geometry.None?
    ensures Encodable(els)
    ensures Polylines(els) == []
    ensures DocumentText(els, fmt) == HeaderText + TrailerText
  {
    if els != [] {
      AllSkipped(els[..|els| - 1], fmt);
    }
    DocumentFraming(els, fmt);
  }
}
