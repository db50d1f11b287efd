# MACE route XML to KML, modelled in Dafny

`xml_to_kml.py` converts a MACE route-planning XML document into a KML 2.2
file. It has two stages:

* `parse_mace_xml` finds every `XMLSerializableWaypoint` element below the
  document root. From each one it reads latitude, longitude and altitude
  from the first `currentGeoPoint` below it, and the ordinal from its
  `waypointOrdinalNumber` child. It keeps the tuple `(ordinal, lat, lon, alt)`,
  or skips the element when any step raises.
* `convert_to_kml` writes a fixed header, one nine-line `Placemark` per
  tuple and a fixed footer.

`select_and_convert_xml_to_kml` ties the two together behind file dialogs.

The model is split into modules:

| file | module | what it holds |
|---|---|---|
| `wrappers.dfy` | `Wrappers` | `Option`, `Result`, `Head` |
| `element_tree.dfy` | `ElementTree` | the parsed element tree; `findall('.//t')`, `find('.//t')`, `find('t')` |
| `py_numbers.dfy` | `PyNumbers` | Python's `int(text)` and `str(n)` made concrete; `float`, `repr` and `:.2f` as caller-supplied `FloatOps` |
| `mace_extract.dfy` | `MaceExtract` | `parse_mace_xml` as a method with a loop, plus the per-waypoint extraction and its skip policy |
| `lines.dfy` | `Lines` | facts about lists of lines that do not depend on what the lines say: equal-sized blocks, counting a line, cutting a line at a prefix, a suffix or a comma |
| `kml_emit.dfy` | `KmlEmit` | `convert_to_kml` as a method that appends lines, plus the templates and functions that read the lines back |
| `converter.dfy` | `Converter` | what `select_and_convert_xml_to_kml` decides |

How the model represents the source:

* A document is `Malformed` when `ET.parse` raises `ParseError`, and
  `Parsed(root)` otherwise.
* An element is its tag, its text (`None` when it has none) and its child
  elements.
* `findall('.//t')` is the preorder list of the strict descendants that
  carry tag `t`.
* `find('.//t')` is a depth-first search. It is proved to return the first
  element `findall` returns.
* `find('t')` is the first direct child with tag `t`.
* The output file is the list of lines written to it. Each `file.write`
  writes one such line followed by `"\n"`.
* The file is opened with mode `'w'`, so the list starts empty.
* Float parsing and rendering are abstract: the caller passes a `FloatOps<F>`
  value holding `float(...)`, `f'{x}'` and `f'{x:.2f}'`.
* `int(text)` is concrete. It strips whitespace from both ends: tab, line
  feed, vertical tab, form feed, carriage return and space, and the
  non-ASCII characters `str.isspace` accepts (not the ASCII separators
  U+001C to U+001F, which `str.isspace` accepts but `int()` does not strip).
  Then it takes an optional `+` or `-`, then ASCII digits. A single `_` may
  separate two digits.

A missing or non-integer ordinal is not kept as unknown:
* a missing `waypointOrdinalNumber` child makes `.text` raise, so the
  whole waypoint is skipped;
* text that is not an integer makes `int()` raise, so the waypoint is
  skipped;
* only a child with no text gives `ordinal = None`, which is written as
  `Waypoint None`.

The footer is the two lines `  </Document>` and `</kml>`.

## Model

| member | source | states |
|---|---|---|
| `ElementTree.WithTag` | xml_to_kml.py:19 | the tag filter behind `findall` keeps every element of its input that carries the tag and nothing else, and is never longer than its input |
| `ElementTree.WithTagCounts` | xml_to_kml.py:19 | the filter keeps each element carrying the tag exactly as many times as it occurs in the input, and drops every other element |
| `ElementTree.FindChild` | xml_to_kml.py:22-26 | `find(tag)` returns None exactly when no direct child has the tag; otherwise it returns a child with the tag, and no earlier child has that tag |
| `ElementTree.ChildIndex` | xml_to_kml.py:22-26 | the position `find(tag)` stops at is the first child carrying the tag; None exactly when no child carries it |
| `ElementTree.FindFirstIsFirstOfFindAll` | xml_to_kml.py:19-21 | `find('.//t')` (a depth-first search) returns the head of `findall('.//t')` (the preorder descendant list), and None exactly when that list is empty |
| `ElementTree.RootNeverFound` | xml_to_kml.py:19 | the element searched from is never among its own descendants, so it is never among the results of `findall('.//t')` |
| `ElementTree.ChildrenAreDescendants` | xml_to_kml.py:19-21 | every direct child is among the descendants that `.//` searches |
| `ElementTree.WithTagAppend` | xml_to_kml.py:19 | filtering by tag distributes over concatenation, so document order is kept |
| `PyNumbers.TrimStart` | xml_to_kml.py:27 | `int()` skips exactly the leading Python whitespace: the result is a suffix, everything removed is whitespace, and the result does not start with whitespace |
| `PyNumbers.TrimEnd` | xml_to_kml.py:27 | the trailing counterpart of `TrimStart` |
| `PyNumbers.IntToStringRoundTrip` | xml_to_kml.py:27 | `int(str(n)) == n` for every integer: the ordinal as rendered in the name line reads back as the same integer |
| `PyNumbers.NoneIsNotAnInteger` | xml_to_kml.py:51 | the literal `None` printed for an absent ordinal can never be mistaken for an integer ordinal |
| `PyNumbers.ParseIntNeedsDigit` | xml_to_kml.py:27 | text without any digit, including empty or all-whitespace text, makes `int()` fail |
| `PyNumbers.ParseIntIgnoresSurroundingSpace` | xml_to_kml.py:27 | for any text, whitespace added at either end does not change what `int()` returns, failure included |
| `PyNumbers.SignedDigits` | xml_to_kml.py:27 | any text made of a `-` or `+` followed by digit groups is left as it is by the whitespace strip, and `int()` reads it as the negated, or the plain, value of the digits (`-0` included) |
| `PyNumbers.ParseIntUnderscores` | xml_to_kml.py:27 | `int("+1_000") == 1000` |
| `PyNumbers.ParseIntRefusesDoubleUnderscore` | xml_to_kml.py:27 | `int("1__0")` raises |
| `PyNumbers.ParseIntRefusesStrayCharacter` | xml_to_kml.py:27 | text holding, anywhere, a character that is not whitespace, a digit, `_` or a sign makes `int()` raise |
| `PyNumbers.ParseIntRefusesDecimalPoint` | xml_to_kml.py:27 | any text with a decimal point makes `int()` raise |
| `MaceExtract.ParseMaceXml` | xml_to_kml.py:5-34 | the list built by the loop is exactly the records of the `XMLSerializableWaypoint` descendants of the root that extract, in document order; a malformed document gives the empty list; the list is never longer than the number of matching elements |
| `MaceExtract.CollectLength` | xml_to_kml.py:19-32 | at most one record per matching element |
| `MaceExtract.CollectAppend` | xml_to_kml.py:19-32 | each element is processed on its own: the records of a concatenation are the records of each part, in order |
| `MaceExtract.SkippedContributesNothing` | xml_to_kml.py:30-32 | a waypoint whose processing raises adds nothing, and the elements after it are still processed exactly as they would be without it |
| `MaceExtract.CollectIsSubsequence` | xml_to_kml.py:19-32 | the list is the subsequence of the matching elements at strictly increasing positions; a position is among them exactly when its element extracts; the k-th record is the extraction of the element at the k-th position |
| `MaceExtract.CollectAllExtracted` | xml_to_kml.py:19-29 | when every matching element extracts, there is one record per element and the k-th record comes from the k-th element |
| `MaceExtract.NoGeoPointSkips` | xml_to_kml.py:21-22 | a waypoint with no `currentGeoPoint` anywhere below it is skipped |
| `MaceExtract.FirstGeoPointIsRead` | xml_to_kml.py:21-24 | the first `currentGeoPoint` in document order is the one read; when its fields cannot all be read the waypoint is skipped with that reason; a kept record carries exactly the values read from it |
| `MaceExtract.ExtractionRule` | xml_to_kml.py:21-29 | every waypoint element is kept exactly when it has a `currentGeoPoint` below it, the first such element has latitude, longitude and altitude children (the first of each) whose text is a float, and the element has a `waypointOrdinalNumber` child (the first) with no text or integer text; the kept record holds exactly those values |
| `MaceExtract.OrdinalDecides` | xml_to_kml.py:26-29 | once the geo-point is read, the ordinal alone decides: an ordinal error skips the waypoint with that reason, and a readable ordinal keeps the record `(ordinal, lat, lon, alt)` |
| `MaceExtract.RootIsNotAWaypoint` | xml_to_kml.py:19 | the root is never processed as a waypoint, even when its own tag is `XMLSerializableWaypoint`; a childless root yields nothing |
| `MaceExtract.ExtractFromWaypoints` | xml_to_kml.py:19-32 | every record comes from some `XMLSerializableWaypoint` descendant that extracts to it, and there are no more records than such elements |
| `KmlEmit.ConvertToKml` | xml_to_kml.py:36-62 | the lines written are the KML document of the records: 6 + 9·n lines, the 4 header lines first, the 2 footer lines last, and the k-th nine-line block is the placemark of the k-th record |
| `KmlEmit.HeaderWritten` | xml_to_kml.py:43-46 | the four header writes, into a file opened empty, give exactly the header |
| `KmlEmit.PlacemarkWritten` | xml_to_kml.py:50-58 | the nine writes of the loop body append exactly one placemark |
| `KmlEmit.PlacemarksAt` | xml_to_kml.py:49-58 | the placemarks of n records are 9·n lines, and the k-th block of nine lines is the placemark of the k-th record |
| `KmlEmit.DocumentBlock` | xml_to_kml.py:43-62 | in the whole document, the k-th nine-line block after the four header lines is the placemark of the k-th record |
| `KmlEmit.PlacemarksAppend` | xml_to_kml.py:49-58 | placemarks are emitted in input order: the blocks of a concatenation are the blocks of each part in turn |
| `KmlEmit.DocumentShape` | xml_to_kml.py:43-62 | the fixed frame: 6 + 9·n lines, header first, footer last, k-th block is the k-th record's placemark; an empty list gives header plus footer only |
| `KmlEmit.NameLineRoundTrip` | xml_to_kml.py:51 | the name line reads back as the record's ordinal, and an absent ordinal is shown as `Waypoint None` |
| `KmlEmit.DescriptionRoundTrip` | xml_to_kml.py:53 | the description line reads back as the altitude text it was written from |
| `KmlEmit.CoordinatesRoundTrip` | xml_to_kml.py:56 | when the longitude and latitude texts contain no comma, the coordinates line reads back as the three texts written, in the order longitude, latitude, altitude |
| `KmlEmit.PlacemarkFields` | xml_to_kml.py:51-56 | in a placemark the name shows the ordinal, the coordinates are longitude, latitude, altitude in that order, and the same `:.2f` altitude text appears in the description and in the coordinates |
| `KmlEmit.PlacemarkOpensOnce` | xml_to_kml.py:50-58 | exactly one line of a placemark is `<Placemark>`, whatever the rendered values |
| `KmlEmit.PlacemarksCount` | xml_to_kml.py:49-58 | the placemark lines hold exactly one `<Placemark>` line per record |
| `KmlEmit.FrameHasNoPlacemark` | xml_to_kml.py:43-62 | neither the header nor the footer holds a `<Placemark>` line |
| `KmlEmit.OnePlacemarkPerWaypoint` | xml_to_kml.py:43-62 | the whole document holds exactly one `<Placemark>` line per record |
| `Converter.SelectAndConvert` | xml_to_kml.py:81-103 | an empty input path aborts first; then an empty output path aborts; otherwise nothing is written exactly when extraction gives the empty list, which a malformed document always does; otherwise the output path receives the KML document of the extracted records |
| `Converter.EveryWaypointBecomesAPlacemark` | xml_to_kml.py:19-62 | when every waypoint element extracts, the KML has exactly one placemark per element, in document order |

## Left out

- Text parsing of XML by `ET.parse` is not modelled. The model starts from a parsed element tree, or from `Malformed`.
- Namespaced tags, attributes and element tails are not modelled, since the core never reads them.
- Floating point is not modelled. `float(text)`, the `repr` used by `f'{lon}'` and `f'{lat}'`, and `f'{alt:.2f}'` are the caller-supplied functions of `FloatOps`.
- Because of that, whether `float()` accepts some particular text is a property of the supplied `parse`, not of the model.
- KmlEmit.PlacemarkFields: requires the rendered longitude and latitude to contain no comma. Python's `repr` of a float never contains one, but the abstract renderer cannot promise it.
- PyNumbers.ParseInt: reads only ASCII digits. Python's `int()` also accepts other Unicode decimal digits.
- PyNumbers.ParseInt: ignores the digit-count limit that recent Python versions place on converting strings to `int`.
- Opening and writing the output file is not modelled, and neither is its `IOError` handling. In the code, `convert_to_kml` catches the error and only prints it (xml_to_kml.py:65-66), so the caller still reports success (xml_to_kml.py:103). The model writes every line.
- The exception handler around extraction and conversion is not modelled (xml_to_kml.py:104-105). In the model no other exception can arise. In the code, an input file that cannot be read makes `ET.parse` raise `OSError`, which the `ParseError` clause at xml_to_kml.py:12 does not catch; it leaves `parse_mace_xml` and reaches that handler. The model has no such document: `readXml` always gives `Malformed` or `Parsed`.
- The tkinter dialogs and message boxes are left out (xml_to_kml.py:72-94, 99, 103-105). The paths they return are parameters of `SelectAndConvert`, with an empty path standing for a cancelled dialog.
- `readXml` stands for reading and parsing the chosen file.
- The `print` diagnostics are left out (xml_to_kml.py:13, 31, 64, 66), including the `ET.tostring` of a skipped waypoint. The skip reason is kept in `Extraction.Skipped` but not printed.
- Running extraction twice on the same document gives the same list. This holds because `Extract` is a function; no lemma states it.
