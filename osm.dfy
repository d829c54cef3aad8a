/**
 * The elements of an Overpass API answer (`out geom`), as the `/export-dwg`
 * handler of server.js reads them: a geometry that may be absent, and tags
 * that may be absent.
 */
module Osm {
  import opened Wrappers

  /** One vertex of an element's geometry. JSON numbers are modelled as reals,
      so `===` on them is equality of reals (a JSON document holds no NaN). */
  datatype Point = Point(lat: real, lon: real)

  /** The `tags` object of an element: tag name to tag value. */
  type Tags = map<string, string>

  /** One entry of `data.elements`; either field may be missing from the JSON. */
  datatype Element = Element(geometry: Option<seq<Point>>, tags: Option<Tags>)

  /** `el.tags?.[key]` is truthy: the tags exist, hold the key, and its value
      is not the empty string (the only falsy string). */
  predicate TagTruthy(tags: Option<Tags>, key: string): (truthy: bool)
    ensures tags.None? || key !in tags.value ==> !truthy
    ensures tags.Some? && key in tags.value ==> (truthy <==> |tags.value[key]| > 0)
  {
    tags.Some? && key in tags.value && tags.value[key] != ""
  }

  /** The layers an entity can be written on. */
  datatype Layer = Edificios | Vias | Outros

  /** The layer's name as written after DXF group code 8. */
  function LayerName(layer: Layer): string
  {
    match layer
    case Edificios => "EDIFICIOS"
    case Vias => "VIAS"
    case Outros => "OUTROS"
  }

  /** The layer of an element: a truthy `building` tag wins over everything,
      then a truthy `highway` tag; every other element, including one without
      tags, goes to OUTROS. */
  function Classify(tags: Option<Tags>): (layer: Layer)
    ensures layer == Edificios <==> TagTruthy(tags, "building")
    ensures layer == Vias <==> !TagTruthy(tags, "building") && TagTruthy(tags, "highway")
    ensures layer == Outros <==> !TagTruthy(tags, "building") && !TagTruthy(tags, "highway")
    ensures tags.None? ==> layer == Outros
  {
    if TagTruthy(tags, "building") then Edificios
    else if TagTruthy(tags, "highway") then Vias
    else Outros
  }

  /** Only the `building` and `highway` tags matter: adding or changing any
      other tag never moves an element to another layer. */
  lemma ClassifyIgnoresOtherTags(tags: Tags, key: string, value: string)
    requires key != "building" && key != "highway"
    ensures Classify(Some(tags[key := value])) == Classify(Some(tags))
    ensures Classify(Some(tags - {key})) == Classify(Some(tags))
  {
  }

  /** A tag whose value is the empty string is treated as absent. */
  lemma EmptyTagIsAbsent(tags: Tags, key: string)
    ensures Classify(Some(tags[key := ""])) == Classify(Some(tags - {key}))
  {
  }

  /** The closed flag: the first and the last point are equal in both
      coordinates, compared exactly. Reading `geometry[0]` needs a point. */
  function IsClosed(g: seq<Point>): (closed: bool)
    requires |g| > 0
    ensures closed <==> g[0] == g[|g| - 1]
  {
    g[0].lat == g[|g| - 1].lat && g[0].lon == g[|g| - 1].lon
  }

  /** A geometry of one point is closed, since its first point is its last. */
  lemma OnePointIsClosed(p: Point)
    ensures IsClosed([p])
  {
  }

  /** Closure looks at the two end points only: the points in between never
      change it, and a one-point geometry is closed like any geometry whose
      ends are equal. */
  lemma ClosureIgnoresInterior(g: seq<Point>, h: seq<Point>)
    requires |g| > 0 && |h| > 0
    requires g[0] == h[0] && g[|g| - 1] == h[|h| - 1]
    ensures IsClosed(g) == IsClosed(h)
  {
  }
}
