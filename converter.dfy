/** The decision logic of `select_and_convert_xml_to_kml`: the two paths
    the dialogs returned (empty when cancelled), the extraction, and whether
    anything is written. */
module Converter {
  import opened ElementTree
  import opened PyNumbers
  import opened MaceExtract
  import opened KmlEmit
  import opened Lines

  datatype Outcome =
    | NoInputSelected                               // warning, stop
    | NoOutputSelected                              // warning, stop
    | NoWaypointsFound                              // error message, nothing written
    | Written(kmlPath: string, file: seq<string>)   // the file at `kmlPath` now holds `file`

  /** `readXml(path)` stands for parsing the file at `path`. */
  method SelectAndConvert<F>(xmlPath: string, kmlPath: string, readXml: string -> Document, ops: FloatOps<F>)
    returns (outcome: Outcome)
    ensures xmlPath == "" ==> outcome == NoInputSelected
    ensures xmlPath != "" && kmlPath == "" ==> outcome == NoOutputSelected
    ensures xmlPath != "" && kmlPath != "" ==>
              (outcome == NoWaypointsFound <==> Extract(readXml(xmlPath), ops) == [])
    ensures xmlPath != "" && kmlPath != "" && readXml(xmlPath).Malformed? ==> outcome == NoWaypointsFound
    ensures xmlPath != "" && kmlPath != "" && Extract(readXml(xmlPath), ops) != [] ==>
              outcome == Written(kmlPath, KmlDocument(Extract(readXml(xmlPath), ops), ops))
    ensures outcome.Written? ==>
              outcome.kmlPath == kmlPath && Extract(readXml(xmlPath), ops) != []
              && outcome.file == KmlDocument(Extract(readXml(xmlPath), ops), ops)
              && |outcome.file| >= 15
  {
    if xmlPath == "" {
      return NoInputSelected;
    }
    if kmlPath == "" {
      return NoOutputSelected;
    }
    var waypoints := ParseMaceXml(readXml(xmlPath), ops);
    if waypoints == [] {
      return NoWaypointsFound;
    }
    var file := ConvertToKml(waypoints, ops);
    outcome := Written(kmlPath, file);
  }

  /** When every `XMLSerializableWaypoint` of a document extracts, the KML
      holds exactly one placemark per such element, in document order. */
  lemma EveryWaypointBecomesAPlacemark<F>(root: Element, ops: FloatOps<F>)
    requires forall m :: m in FindAll(root, WaypointTag) ==> ExtractWaypoint(m, ops).Extracted?
    ensures var ms := FindAll(root, WaypointTag);
            var doc := KmlDocument(Extract(Parsed(root), ops), ops);
            && |doc| == 6 + 9 * |ms|
            && Count(doc, PlacemarkOpen) == |ms|
            && forall k :: 0 <= k < |ms| ==> doc[4 + 9 * k..13 + 9 * k] == Placemark(ExtractWaypoint(ms[k], ops).waypoint, ops)
  {
    var ms := FindAll(root, WaypointTag);
    var ws := Extract(Parsed(root), ops);
    CollectAllExtracted(ms, ops);
    DocumentShape(ws, ops);
    OnePlacemarkPerWaypoint(ws, ops);
    forall k | 0 <= k < |ms|
      ensures KmlDocument(ws, ops)[4 + 9 * k..13 + 9 * k] == Placemark(ExtractWaypoint(ms[k], ops).waypoint, ops)
    {
      assert ExtractWaypoint(ms[k], ops).waypoint == ws[k];
    }
  }
}
