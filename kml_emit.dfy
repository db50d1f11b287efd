/** KML 2.2 serialisation of the extracted waypoints (`convert_to_kml`).

    The file is modelled as the sequence of lines written to it: each
    `file.write` writes one of these lines followed by a newline. */
module KmlEmit {
  import opened Wrappers
  import opened PyNumbers
  import opened MaceExtract
  import opened Lines

  const Header: seq<string> := [
    "<?xml version=\"1.0\" encoding=\"UTF-8\"?>",
    "<kml xmlns=\"http://www.opengis.net/kml/2.2\">",
    "  <Document>",
    "    <name>MACE Route</name>"
  ]

  const Footer: seq<string> := [
    "  </Document>",
    "</kml>"
  ]

  const PlacemarkOpen := "    <Placemark>"
  const NamePrefix := "      <name>Waypoint "
  const NameSuffix := "</name>"
  const AltitudePrefix := "        <![CDATA[Altitude: "
  const AltitudeSuffix := " feet]]>"
  const CoordinatesPrefix := "        <coordinates>"
  const CoordinatesSuffix := "</coordinates>"

  /** `f'{ordinal}'`: the integer, or the literal `None`. */
  function OrdinalText(ordinal: Option<int>): string
  {
    match ordinal
    case None => "None"
    case Some(n) => IntToString(n)
  }

  function NameLine(ordinal: Option<int>): string
  {
    NamePrefix + OrdinalText(ordinal) + NameSuffix
  }

  function DescriptionLine(altText: string): string
  {
    AltitudePrefix + altText + AltitudeSuffix
  }

  function CoordinatesLine(lonText: string, latText: string, altText: string): string
  {
    CoordinatesPrefix + lonText + "," + latText + "," + altText + CoordinatesSuffix
  }

  /** The nine lines written for one waypoint. */
  function Placemark<F>(w: Waypoint<F>, ops: FloatOps<F>): seq<string>
  {
    [ PlacemarkOpen,
      NameLine(w.ordinal),
      "      <description>",
      DescriptionLine(ops.fixed2(w.alt)),
      "      </description>",
      "      <Point>",
      CoordinatesLine(ops.repr(w.lon), ops.repr(w.lat), ops.fixed2(w.alt)),
      "      </Point>",
      "    </Placemark>" ]
  }

  /** The placemarks of `ws`, in order. */
  function Placemarks<F>(ws: seq<Waypoint<F>>, ops: FloatOps<F>): seq<string>
  {
    Blocks(ws, w => Placemark(w, ops))
  }

  /** The whole file. */
  function KmlDocument<F>(ws: seq<Waypoint<F>>, ops: FloatOps<F>): seq<string>
  {
    Header + Placemarks(ws, ops) + Footer
  }

  /** `convert_to_kml`: the file opened for writing (so emptied) receives the
      header, then one placemark per waypoint in order, then the footer. */
  method ConvertToKml<F>(waypoints: seq<Waypoint<F>>, ops: FloatOps<F>) returns (file: seq<string>)
    ensures file == KmlDocument(waypoints, ops)
    ensures |file| == 6 + 9 * |waypoints|
    ensures file[..4] == Header && file[|file| - 2..] == Footer
    ensures forall k :: 0 <= k < |waypoints| ==> file[4 + 9 * k..13 + 9 * k] == Placemark(waypoints[k], ops)
  {
    file := [];
    file := file + ["<?xml version=\"1.0\" encoding=\"UTF-8\"?>"];
    file := file + ["<kml xmlns=\"http://www.opengis.net/kml/2.2\">"];
    file := file + ["  <Document>"];
    file := file + ["    <name>MACE Route</name>"];
    HeaderWritten();

    for i := 0 to |waypoints|
      invariant file == Header + Placemarks(waypoints[..i], ops)
    {
      var w := waypoints[i];
      ghost var before := file;
      file := file + [PlacemarkOpen];
      file := file + [NameLine(w.ordinal)];
      file := file + ["      <description>"];
      file := file + [DescriptionLine(ops.fixed2(w.alt))];
      file := file + ["      </description>"];
      file := file + ["      <Point>"];
      file := file + [CoordinatesLine(ops.repr(w.lon), ops.repr(w.lat), ops.fixed2(w.alt))];
      file := file + ["      </Point>"];
      file := file + ["    </Placemark>"];
      PlacemarkWritten(before, w, ops);
      assert waypoints[..i + 1][..i] == waypoints[..i];
      assert Placemarks(waypoints[..i + 1], ops) == Placemarks(waypoints[..i], ops) + Placemark(w, ops);
    }

    ghost var body := file;
    file := file + ["  </Document>"];
    file := file + ["</kml>"];
    assert file == body + Footer;
    assert waypoints[..|waypoints|] == waypoints;
    DocumentShape(waypoints, ops);
  }

  /** Writing the four header lines one after the other gives the header. */
  lemma HeaderWritten()
    ensures [] + ["<?xml version=\"1.0\" encoding=\"UTF-8\"?>"] + ["<kml xmlns=\"http://www.opengis.net/kml/2.2\">"]
            + ["  <Document>"] + ["    <name>MACE Route</name>"] == Header
  {
  }

  /** Writing the nine lines of a placemark one after the other appends the
      placemark. */
  lemma PlacemarkWritten<F>(before: seq<string>, w: Waypoint<F>, ops: FloatOps<F>)
    ensures before + [PlacemarkOpen] + [NameLine(w.ordinal)] + ["      <description>"]
            + [DescriptionLine(ops.fixed2(w.alt))] + ["      </description>"] + ["      <Point>"]
            + [CoordinatesLine(ops.repr(w.lon), ops.repr(w.lat), ops.fixed2(w.alt))]
            + ["      </Point>"] + ["    </Placemark>"]
            == before + Placemark(w, ops)
  {
  }

  lemma PlacemarkLength<F>(ops: FloatOps<F>)
    ensures forall w :: |Placemark(w, ops)| == 9
  {
  }

  /** The k-th block of nine placemark lines belongs to the k-th waypoint. */
  lemma PlacemarksAt<F>(ws: seq<Waypoint<F>>, ops: FloatOps<F>, k: nat)
    requires k < |ws|
    ensures |Placemarks(ws, ops)| == 9 * |ws|
    ensures Placemarks(ws, ops)[9 * k..9 * k + 9] == Placemark(ws[k], ops)
  {
    PlacemarkLength(ops);
    BlocksAt(ws, w => Placemark(w, ops), 9, k);
  }

  /** The k-th nine-line block after the header is the k-th waypoint's placemark. */
  lemma DocumentBlock<F>(ws: seq<Waypoint<F>>, ops: FloatOps<F>, k: nat)
    requires k < |ws|
    ensures |KmlDocument(ws, ops)| == 6 + 9 * |ws|
    ensures KmlDocument(ws, ops)[4 + 9 * k..13 + 9 * k] == Placemark(ws[k], ops)
  {
    var body := Placemarks(ws, ops);
    PlacemarksAt(ws, ops, k);
    SliceOfMiddle(Header, body, Footer, 9 * k, 9 * k + 9);
  }

  /** The fixed frame: 4 header lines, 9 lines per waypoint in input order,
      then 2 footer lines; an empty list gives the header and footer alone. */
  lemma DocumentShape<F>(ws: seq<Waypoint<F>>, ops: FloatOps<F>)
    ensures |KmlDocument(ws, ops)| == 6 + 9 * |ws|
    ensures KmlDocument(ws, ops)[..4] == Header
    ensures KmlDocument(ws, ops)[6 + 9 * |ws| - 2..] == Footer
    ensures forall k :: 0 <= k < |ws| ==> KmlDocument(ws, ops)[4 + 9 * k..13 + 9 * k] == Placemark(ws[k], ops)
    ensures ws == [] ==> KmlDocument(ws, ops) == Header + Footer
  {
    var body := Placemarks(ws, ops);
    PlacemarkLength(ops);
    BlocksLength(ws, w => Placemark(w, ops), 9);
    assert KmlDocument(ws, ops) == Header + (body + Footer);
    assert KmlDocument(ws, ops) == (Header + body) + Footer;
    forall k | 0 <= k < |ws|
      ensures KmlDocument(ws, ops)[4 + 9 * k..13 + 9 * k] == Placemark(ws[k], ops)
    {
      DocumentBlock(ws, ops, k);
    }
  }

  /** Placemarks are emitted in input order: the blocks of a concatenation
      are the blocks of each part in turn. */
  lemma PlacemarksAppend<F>(a: seq<Waypoint<F>>, b: seq<Waypoint<F>>, ops: FloatOps<F>)
    ensures Placemarks(a + b, ops) == Placemarks(a, ops) + Placemarks(b, ops)
  {
    BlocksAppend(a, b, w => Placemark(w, ops));
  }

  // Reading lines back

  /** The ordinal a name line shows, as a reader of the KML recovers it:
      `None`, or the integer after `Waypoint `. */
  function ParseNameLine(line: string): Option<Option<int>>
  {
    match Between(line, NamePrefix, NameSuffix)
    case None => None
    case Some(t) =>
      if t == "None" then Some(None)
      else match ParseInt(t)
        case None => None
        case Some(n) => Some(Some(n))
  }

  /** The altitude text of a description line. */
  function ParseDescriptionLine(line: string): Option<string>
  {
    Between(line, AltitudePrefix, AltitudeSuffix)
  }

  /** The three comma-separated fields of a coordinates line; the last one is
      whatever follows the second comma. */
  function ParseCoordinatesLine(line: string): Option<(string, string, string)>
  {
    match Between(line, CoordinatesPrefix, CoordinatesSuffix)
    case None => None
    case Some(t) =>
      match SplitComma(t)
      case None => None
      case Some((first, rest)) =>
        match SplitComma(rest)
        case None => None
        case Some((second, third)) => Some((first, second, third))
  }

  /** The name line of a placemark gives back the waypoint's ordinal, and
      an absent ordinal is shown as `None`. */
  lemma NameLineRoundTrip(ordinal: Option<int>)
    ensures ParseNameLine(NameLine(ordinal)) == Some(ordinal)
    ensures ordinal.None? ==> NameLine(ordinal) == "      <name>Waypoint None</name>"
  {
    BetweenOfConcat(NamePrefix, OrdinalText(ordinal), NameSuffix);
    if ordinal.Some? {
      IntToStringRoundTrip(ordinal.value);
      var t := IntToString(ordinal.value);
      var d := NatToString(if ordinal.value < 0 then -ordinal.value else ordinal.value);
      assert t[|t| - 1] == d[|d| - 1];
      assert t != "None" by { assert IsDigit(t[|t| - 1]); }
    }
  }

  /** A coordinates line reads back as the three texts it was written from,
      provided the first two contain no comma. */
  lemma CoordinatesRoundTrip(lon: string, lat: string, alt: string)
    requires ',' !in lon && ',' !in lat
    ensures ParseCoordinatesLine(CoordinatesLine(lon, lat, alt)) == Some((lon, lat, alt))
  {
    var middle := lon + "," + lat + "," + alt;
    assert CoordinatesLine(lon, lat, alt) == CoordinatesPrefix + middle + CoordinatesSuffix;
    BetweenOfConcat(CoordinatesPrefix, middle, CoordinatesSuffix);
    assert middle == lon + "," + (lat + "," + alt);
    SplitCommaOfJoin(lon, lat + "," + alt);
    SplitCommaOfJoin(lat, alt);
  }

  /** A description line reads back as the altitude text it was written from. */
  lemma DescriptionRoundTrip(alt: string)
    ensures ParseDescriptionLine(DescriptionLine(alt)) == Some(alt)
  {
    BetweenOfConcat(AltitudePrefix, alt, AltitudeSuffix);
  }

  /** The coordinates are written longitude first, then latitude, then the
      altitude, and the altitude of the description is the same text as the
      altitude of the coordinates. */
  lemma PlacemarkFields<F>(w: Waypoint<F>, ops: FloatOps<F>)
    requires ',' !in ops.repr(w.lon) && ',' !in ops.repr(w.lat)
    ensures ParseNameLine(Placemark(w, ops)[1]) == Some(w.ordinal)
    ensures ParseDescriptionLine(Placemark(w, ops)[3]) == Some(ops.fixed2(w.alt))
    ensures ParseCoordinatesLine(Placemark(w, ops)[6]) == Some((ops.repr(w.lon), ops.repr(w.lat), ops.fixed2(w.alt)))
    ensures ParseCoordinatesLine(Placemark(w, ops)[6]).value.2 == ParseDescriptionLine(Placemark(w, ops)[3]).value
  {
    var p := Placemark(w, ops);
    assert p[1] == NameLine(w.ordinal);
    assert p[3] == DescriptionLine(ops.fixed2(w.alt));
    assert p[6] == CoordinatesLine(ops.repr(w.lon), ops.repr(w.lat), ops.fixed2(w.alt));
    NameLineRoundTrip(w.ordinal);
    DescriptionRoundTrip(ops.fixed2(w.alt));
    CoordinatesRoundTrip(ops.repr(w.lon), ops.repr(w.lat), ops.fixed2(w.alt));
  }

  /** Exactly one line of a placemark opens it, whatever the rendered values. */
  lemma PlacemarkOpensOnce<F>(w: Waypoint<F>, ops: FloatOps<F>)
    ensures Count(Placemark(w, ops), PlacemarkOpen) == 1
  {
    var p := Placemark(w, ops);
    var rest := p[1..];
    assert p == [PlacemarkOpen] + rest;
    CountAppend([PlacemarkOpen], rest, PlacemarkOpen);
    assert [PlacemarkOpen][..0] == [];
    forall i | 0 <= i < |rest|
      ensures rest[i] != PlacemarkOpen
    {
      assert |rest[i]| > 5 && rest[i][5] != PlacemarkOpen[5];
    }
    CountAbsent(rest, PlacemarkOpen);
  }

  /** The placemarks of `ws` hold exactly one `<Placemark>` line per waypoint. */
  lemma PlacemarksCount<F>(ws: seq<Waypoint<F>>, ops: FloatOps<F>)
    ensures Count(Placemarks(ws, ops), PlacemarkOpen) == |ws|
  {
    forall w ensures Count(Placemark(w, ops), PlacemarkOpen) == 1 {
      PlacemarkOpensOnce(w, ops);
    }
    BlocksCount(ws, w => Placemark(w, ops), PlacemarkOpen);
  }

  /** Neither the header nor the footer holds a `<Placemark>` line. */
  lemma FrameHasNoPlacemark()
    ensures Count(Header, PlacemarkOpen) == 0 && Count(Footer, PlacemarkOpen) == 0
  {
    CountAbsent(Header, PlacemarkOpen);
    CountAbsent(Footer, PlacemarkOpen);
  }

  /** The document holds exactly one `<Placemark>` line per waypoint. */
  lemma OnePlacemarkPerWaypoint<F>(ws: seq<Waypoint<F>>, ops: FloatOps<F>)
    ensures Count(KmlDocument(ws, ops), PlacemarkOpen) == |ws|
  {
    var body := Placemarks(ws, ops);
    PlacemarksCount(ws, ops);
    FrameHasNoPlacemark();
    CountAppend(Header + body, Footer, PlacemarkOpen);
    CountAppend(Header, body, PlacemarkOpen);
  }
}
