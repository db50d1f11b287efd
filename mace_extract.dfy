/** Waypoint extraction from a MACE route document (`parse_mace_xml`). */
module MaceExtract {
  import opened Wrappers
  import opened ElementTree
  import opened PyNumbers

  const WaypointTag := "XMLSerializableWaypoint"
  const GeoPointTag := "currentGeoPoint"
  const LatitudeTag := "latitude"
  const LongitudeTag := "longitude"
  const AltitudeTag := "altitudeAboveGroundLevel_Feet"
  const OrdinalTag := "waypointOrdinalNumber"

  /** The tuple `(ordinal, lat, lon, alt)` the extractor appends. */
  datatype Waypoint<!F> = Waypoint(ordinal: Option<int>, lat: F, lon: F, alt: F)

  /** Why a waypoint element was skipped: the exception its processing
      raised, by the field that caused it. */
  datatype SkipReason =
    | NoGeoPoint                   // `geo_point` is None: AttributeError
    | MissingField(tag: string)    // `find(tag)` is None: AttributeError on `.text`
    | MissingText(tag: string)     // `float(None)`: TypeError
    | NotANumber(tag: string)      // `float(text)` raises ValueError
    | NoOrdinalElement             // `find('waypointOrdinalNumber')` is None: AttributeError
    | OrdinalNotInteger            // `int(text)` raises ValueError

  /** The outcome of processing one waypoint element. */
  datatype Extraction<!F> = Extracted(waypoint: Waypoint<F>) | Skipped(reason: SkipReason)

  /** `float(geo.find(tag).text)`, or the reason it raises. */
  function ReadFloat<F>(geo: Element, tag: string, ops: FloatOps<F>): Result<F, SkipReason>
  {
    match FindChild(geo, tag)
    case None => Err(MissingField(tag))
    case Some(field) =>
      match field.text
      case None => Err(MissingText(tag))
      case Some(t) =>
        match ops.parse(t)
        case None => Err(NotANumber(tag))
        case Some(x) => Ok(x)
  }


  /** Latitude, longitude and altitude, in that order, from a geo-point element. */
  function ReadGeoPoint<F>(geo: Element, ops: FloatOps<F>): Result<(F, F, F), SkipReason>
  {
    match ReadFloat(geo, LatitudeTag, ops)
    case Err(why) => Err(why)
    case Ok(lat) =>
      match ReadFloat(geo, LongitudeTag, ops)
      case Err(why) => Err(why)
      case Ok(lon) =>
        match ReadFloat(geo, AltitudeTag, ops)
        case Err(why) => Err(why)
        case Ok(alt) => Ok((lat, lon, alt))
  }

  /** `waypoint.find('waypointOrdinalNumber').text`, then `int()` of it unless
      it is None. */
  function ReadOrdinal(wp: Element): Result<Option<int>, SkipReason>
  {
    match FindChild(wp, OrdinalTag)
    case None => Err(NoOrdinalElement)
    case Some(o) =>
      match o.text
      case None => Ok(None)
      case Some(t) =>
        match ParseInt(t)
        case None => Err(OrdinalNotInteger)
        case Some(n) => Ok(Some(n))
  }

  /** The body of the `try` block of the extraction loop, for one waypoint
      element: the three values from the first `currentGeoPoint` below it,
      then the ordinal from its direct child. */
  function ExtractWaypoint<F>(wp: Element, ops: FloatOps<F>): Extraction<F>
  {
    match FindFirst(wp, GeoPointTag)
    case None => Skipped(NoGeoPoint)
    case Some(geo) =>
      match ReadGeoPoint(geo, ops)
      case Err(why) => Skipped(why)
      case Ok((lat, lon, alt)) =>
        match ReadOrdinal(wp)
        case Err(why) => Skipped(why)
        case Ok(ordinal) => Extracted(Waypoint(ordinal, lat, lon, alt))
  }

  /** The outcome of each element of `ms`, in order. */
  function Extractions<F>(ms: seq<Element>, ops: FloatOps<F>): seq<Extraction<F>>
  {
    seq(|ms|, i requires 0 <= i < |ms| => ExtractWaypoint(ms[i], ops))
  }

  /** The records of the outcomes that succeeded, in order. */
  function Successes<F>(xs: seq<Extraction<F>>): seq<Waypoint<F>>
  {
    if xs == [] then []
    else Successes(xs[..|xs| - 1]) + (if xs[|xs| - 1].Extracted? then [xs[|xs| - 1].waypoint] else [])
  }

  /** The positions of the outcomes that succeeded, in increasing order. */
  function SuccessIndices<F>(xs: seq<Extraction<F>>): seq<nat>
  {
    if xs == [] then []
    else SuccessIndices(xs[..|xs| - 1]) + (if xs[|xs| - 1].Extracted? then [|xs| - 1] else [])
  }

  /** The records of the elements of `ms` that extract, in the order of `ms`. */
  function Collect<F>(ms: seq<Element>, ops: FloatOps<F>): seq<Waypoint<F>>
  {
    Successes(Extractions(ms, ops))
  }

  /** The positions in `ms` of the elements that extract, in increasing order. */
  function KeptIndices<F>(ms: seq<Element>, ops: FloatOps<F>): seq<nat>
  {
    SuccessIndices(Extractions(ms, ops))
  }

  /** What `parse_mace_xml` returns for a document. */
  function Extract<F>(doc: Document, ops: FloatOps<F>): seq<Waypoint<F>>
  {
    match doc
    case Malformed => []
    case Parsed(root) => Collect(FindAll(root, WaypointTag), ops)
  }

  /** `parse_mace_xml`: a malformed document gives the empty list; otherwise each
      `XMLSerializableWaypoint` below the root, in document order, is processed
      and its record appended, or it is skipped and the loop continues. */
  method ParseMaceXml<F>(doc: Document, ops: FloatOps<F>) returns (waypoints: seq<Waypoint<F>>)
    ensures waypoints == Extract(doc, ops)
    ensures doc.Malformed? ==> waypoints == []
    ensures doc.Parsed? ==> |waypoints| <= |FindAll(doc.root, WaypointTag)|
  {
    if doc.Malformed? {
      return [];
    }
    var matches := FindAll(doc.root, WaypointTag);
    ghost var outcomes := Extractions(matches, ops);
    waypoints := [];
    for i := 0 to |matches|
      invariant waypoints == Successes(outcomes[..i])
    {
      var x := ExtractWaypoint(matches[i], ops);
      assert x == outcomes[i];
      PrefixSnoc(outcomes, i);
      SuccessesSnoc(outcomes[..i], x);
      if x.Skipped? {
        continue;
      }
      waypoints := waypoints + [x.waypoint];
    }
    assert outcomes[..|matches|] == outcomes;
    SuccessesLength(outcomes);
  }

  lemma PrefixSnoc<T>(s: seq<T>, i: nat)
    requires i < |s|
    ensures s[..i + 1] == s[..i] + [s[i]]
  {
  }

  /** One more outcome adds its waypoint, if any, at the end. */
  lemma SuccessesSnoc<F>(xs: seq<Extraction<F>>, x: Extraction<F>)
    ensures Successes(xs + [x]) == Successes(xs) + (if x.Extracted? then [x.waypoint] else [])
  {
    assert (xs + [x])[..|xs|] == xs;
  }

  lemma {:induction false} SuccessesLength<F>(xs: seq<Extraction<F>>)
    ensures |Successes(xs)| <= |xs|
  {
    if xs != [] {
      SuccessesLength(xs[..|xs| - 1]);
    }
  }

  lemma {:induction false} SuccessesAppend<F>(a: seq<Extraction<F>>, b: seq<Extraction<F>>)
    ensures Successes(a + b) == Successes(a) + Successes(b)
    decreases |b|
  {
    if b == [] {
      assert a + b == a;
    } else {
      var b' := b[..|b| - 1];
      assert (a + b)[..|a + b| - 1] == a + b';
      SuccessesAppend(a, b');
    }
  }

  lemma {:induction false} SuccessesIsSubsequence<F>(xs: seq<Extraction<F>>)
    ensures |SuccessIndices(xs)| == |Successes(xs)|
    ensures forall k :: 0 <= k < |SuccessIndices(xs)| ==> SuccessIndices(xs)[k] < |xs|
    ensures forall k, l :: 0 <= k < l < |SuccessIndices(xs)| ==> SuccessIndices(xs)[k] < SuccessIndices(xs)[l]
    ensures forall k :: 0 <= k < |SuccessIndices(xs)| ==> xs[SuccessIndices(xs)[k]] == Extracted(Successes(xs)[k])
    ensures forall j :: 0 <= j < |xs| ==> (j in SuccessIndices(xs) <==> xs[j].Extracted?)
  {
    if xs != [] {
      var n := |xs| - 1;
      var init := xs[..n];
      SuccessesIsSubsequence(init);
      forall j | 0 <= j < n ensures xs[j] == init[j] { }
      forall j | 0 <= j < |xs|
        ensures j in SuccessIndices(xs) <==> xs[j].Extracted?
      {
        if j < n {
          assert j in SuccessIndices(xs) <==> j in SuccessIndices(init);
        }
      }
    }
  }

  lemma {:induction false} SuccessesAll<F>(xs: seq<Extraction<F>>)
    requires forall j :: 0 <= j < |xs| ==> xs[j].Extracted?
    ensures |Successes(xs)| == |xs|
    ensures forall k :: 0 <= k < |xs| ==> Extracted(Successes(xs)[k]) == xs[k]
  {
    if xs != [] {
      var init := xs[..|xs| - 1];
      SuccessesAll(init);
      forall k | 0 <= k < |xs|
        ensures Extracted(Successes(xs)[k]) == xs[k]
      {
        if k < |init| {
          assert xs[k] == init[k];
        }
      }
    }
  }

  /** At most one record per matching element. */
  lemma CollectLength<F>(ms: seq<Element>, ops: FloatOps<F>)
    ensures |Collect(ms, ops)| <= |ms|
  {
    SuccessesLength(Extractions(ms, ops));
  }

  /** Extraction distributes over concatenation: each element is processed on
      its own and contributes in place. */
  lemma CollectAppend<F>(a: seq<Element>, b: seq<Element>, ops: FloatOps<F>)
    ensures Collect(a + b, ops) == Collect(a, ops) + Collect(b, ops)
  {
    ExtractionsAppend(a, b, ops);
    SuccessesAppend(Extractions(a, ops), Extractions(b, ops));
  }

  lemma ExtractionsAppend<F>(a: seq<Element>, b: seq<Element>, ops: FloatOps<F>)
    ensures Extractions(a + b, ops) == Extractions(a, ops) + Extractions(b, ops)
  {
    var xa, xb, xab := Extractions(a, ops), Extractions(b, ops), Extractions(a + b, ops);
    forall i | 0 <= i < |xab| ensures xab[i] == (xa + xb)[i] {
      if i < |a| {
        assert (a + b)[i] == a[i];
      } else {
        assert (a + b)[i] == b[i - |a|];
      }
    }
  }

  /** A skipped element contributes nothing and does not stop the elements
      after it from being processed. */
  lemma SkippedContributesNothing<F>(before: seq<Element>, wp: Element, after: seq<Element>, ops: FloatOps<F>)
    requires ExtractWaypoint(wp, ops).Skipped?
    ensures Collect(before + [wp] + after, ops) == Collect(before, ops) + Collect(after, ops)
  {
    CollectAppend(before + [wp], after, ops);
    CollectAppend(before, [wp], ops);
    var one := Extractions([wp], ops);
    assert one[..0] == [];
    assert one[0].Skipped?;
    assert Successes(one) == Successes(one[..0]) + [];
  }

  /** The extracted list is the subsequence of `ms` at `KeptIndices(ms)`, and
      those are exactly the positions whose element extracts. */
  lemma CollectIsSubsequence<F>(ms: seq<Element>, ops: FloatOps<F>)
    ensures |KeptIndices(ms, ops)| == |Collect(ms, ops)|
    ensures forall k :: 0 <= k < |KeptIndices(ms, ops)| ==> KeptIndices(ms, ops)[k] < |ms|
    ensures forall k, l :: 0 <= k < l < |KeptIndices(ms, ops)| ==> KeptIndices(ms, ops)[k] < KeptIndices(ms, ops)[l]
    ensures forall k :: 0 <= k < |KeptIndices(ms, ops)| ==>
              ExtractWaypoint(ms[KeptIndices(ms, ops)[k]], ops) == Extracted(Collect(ms, ops)[k])
    ensures forall j :: 0 <= j < |ms| ==> (j in KeptIndices(ms, ops) <==> ExtractWaypoint(ms[j], ops).Extracted?)
  {
    SuccessesIsSubsequence(Extractions(ms, ops));
  }

  /** When every element extracts, the list has one record per element, the
      k-th record coming from the k-th element. */
  lemma CollectAllExtracted<F>(ms: seq<Element>, ops: FloatOps<F>)
    requires forall j :: 0 <= j < |ms| ==> ExtractWaypoint(ms[j], ops).Extracted?
    ensures |Collect(ms, ops)| == |ms|
    ensures forall k :: 0 <= k < |ms| ==> Extracted(Collect(ms, ops)[k]) == ExtractWaypoint(ms[k], ops)
  {
    SuccessesAll(Extractions(ms, ops));
  }

  /** A waypoint element with no `currentGeoPoint` anywhere below it is skipped. */
  lemma NoGeoPointSkips<F>(wp: Element, ops: FloatOps<F>)
    requires FindAll(wp, GeoPointTag) == []
    ensures ExtractWaypoint(wp, ops) == Skipped(NoGeoPoint)
  {
    FindFirstIsFirstOfFindAll(wp, GeoPointTag);
  }

  /** The first `currentGeoPoint` in document order is the one read: when its
      fields cannot all be read the waypoint is skipped, and a kept record
      carries their values. */
  lemma FirstGeoPointIsRead<F>(wp: Element, ops: FloatOps<F>)
    requires FindAll(wp, GeoPointTag) != []
    ensures var g := ReadGeoPoint(FindAll(wp, GeoPointTag)[0], ops);
            var r := ExtractWaypoint(wp, ops);
            && (g.Err? ==> r == Skipped(g.error))
            && (r.Extracted? ==> g == Ok((r.waypoint.lat, r.waypoint.lon, r.waypoint.alt)))
  {
    FindFirstIsFirstOfFindAll(wp, GeoPointTag);
  }

  // The skip policy stated through the first child carrying a tag, found by
  // position, independently of the readers above.

  /** The text of the first direct child of `e` with tag `tag`: None when
      there is no such child, `Some(None)` when that child has no text. */
  function FirstChildText(e: Element, tag: string): Option<Option<string>>
  {
    match ChildIndex(e.children, tag)
    case None => None
    case Some(i) => Some(e.children[i].text)
  }

  /** The field `tag` of `geo` exists, has text, and the text is a float. */
  predicate FieldReads<F>(geo: Element, tag: string, ops: FloatOps<F>)
  {
    var t := FirstChildText(geo, tag);
    t.Some? && t.value.Some? && ops.parse(t.value.value).Some?
  }

  function FieldValue<F>(geo: Element, tag: string, ops: FloatOps<F>): F
    requires FieldReads(geo, tag, ops)
  {
    ops.parse(FirstChildText(geo, tag).value.value).value
  }

  /** The ordinal child exists and has either no text or integer text. */
  predicate OrdinalReads(wp: Element)
  {
    var t := FirstChildText(wp, OrdinalTag);
    t.Some? && (t.value.None? || ParseInt(t.value.value).Some?)
  }

  function OrdinalValue(wp: Element): Option<int>
    requires OrdinalReads(wp)
  {
    var t := FirstChildText(wp, OrdinalTag).value;
    if t.None? then None else Some(ParseInt(t.value).value)
  }

  /** The skip policy for every waypoint element: it is kept exactly when it
      has a `currentGeoPoint` below it, the first such element has latitude,
      longitude and altitude children whose text is a float, and the
      waypoint has an ordinal child with no text or integer text; the kept
      record holds exactly those values. */
  lemma ExtractionRule<F>(wp: Element, ops: FloatOps<F>)
    ensures ExtractWaypoint(wp, ops).Extracted? <==>
              && FindAll(wp, GeoPointTag) != []
              && FieldReads(FindAll(wp, GeoPointTag)[0], LatitudeTag, ops)
              && FieldReads(FindAll(wp, GeoPointTag)[0], LongitudeTag, ops)
              && FieldReads(FindAll(wp, GeoPointTag)[0], AltitudeTag, ops)
              && OrdinalReads(wp)
    ensures ExtractWaypoint(wp, ops).Extracted? ==>
              var geo := FindAll(wp, GeoPointTag)[0];
              ExtractWaypoint(wp, ops).waypoint
                == Waypoint(OrdinalValue(wp), FieldValue(geo, LatitudeTag, ops),
                            FieldValue(geo, LongitudeTag, ops), FieldValue(geo, AltitudeTag, ops))
  {
    FindFirstIsFirstOfFindAll(wp, GeoPointTag);
    if FindAll(wp, GeoPointTag) != [] {
      var geo := FindAll(wp, GeoPointTag)[0];
      FieldReadsRule(geo, LatitudeTag, ops);
      FieldReadsRule(geo, LongitudeTag, ops);
      FieldReadsRule(geo, AltitudeTag, ops);
    }
    OrdinalReadsRule(wp);
  }

  lemma FieldReadsRule<F>(geo: Element, tag: string, ops: FloatOps<F>)
    ensures ReadFloat(geo, tag, ops).Ok? <==> FieldReads(geo, tag, ops)
    ensures ReadFloat(geo, tag, ops).Ok? ==> ReadFloat(geo, tag, ops).value == FieldValue(geo, tag, ops)
  {
  }

  lemma OrdinalReadsRule(wp: Element)
    ensures ReadOrdinal(wp).Ok? <==> OrdinalReads(wp)
    ensures ReadOrdinal(wp).Ok? ==> ReadOrdinal(wp).value == OrdinalValue(wp)
  {
  }

  /** Once the geo-point is read, the ordinal alone decides: the record is
      kept, with the ordinal read, exactly when the ordinal can be read. */
  lemma OrdinalDecides<F>(wp: Element, ops: FloatOps<F>, lat: F, lon: F, alt: F)
    requires FindAll(wp, GeoPointTag) != []
    requires ReadGeoPoint(FindAll(wp, GeoPointTag)[0], ops) == Ok((lat, lon, alt))
    ensures ReadOrdinal(wp).Err? ==> ExtractWaypoint(wp, ops) == Skipped(ReadOrdinal(wp).error)
    ensures ReadOrdinal(wp).Ok? ==> ExtractWaypoint(wp, ops) == Extracted(Waypoint(ReadOrdinal(wp).value, lat, lon, alt))
  {
    FindFirstIsFirstOfFindAll(wp, GeoPointTag);
  }

  /** The root element is never processed as a waypoint, even when its own
      tag is `XMLSerializableWaypoint`: a document that is a single such
      element yields nothing. */
  lemma RootIsNotAWaypoint<F>(root: Element, ops: FloatOps<F>)
    ensures root !in FindAll(root, WaypointTag)
    ensures root.children == [] ==> Extract(Parsed(root), ops) == []
  {
    RootNeverFound(root, WaypointTag);
  }

  /** Every record comes from some `XMLSerializableWaypoint` below the root,
      and the list is never longer than the number of such elements. */
  lemma ExtractFromWaypoints<F>(root: Element, ops: FloatOps<F>)
    ensures |Extract(Parsed(root), ops)| <= |FindAll(root, WaypointTag)|
    ensures forall w :: w in Extract(Parsed(root), ops) ==>
              exists m :: m in FindAll(root, WaypointTag) && m.tag == WaypointTag && ExtractWaypoint(m, ops) == Extracted(w)
  {
    var ms := FindAll(root, WaypointTag);
    CollectLength(ms, ops);
    CollectIsSubsequence(ms, ops);
    forall w | w in Collect(ms, ops)
      ensures exists m :: m in ms && m.tag == WaypointTag && ExtractWaypoint(m, ops) == Extracted(w)
    {
      var k :| 0 <= k < |Collect(ms, ops)| && Collect(ms, ops)[k] == w;
      var m := ms[KeptIndices(ms, ops)[k]];
      assert m in ms;
    }
  }
}
