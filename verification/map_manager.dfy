/**
 * The map message builder of backend/map_manager.py: the map dataclasses, the legacy
 * single-floor conversion from an already parsed JSON document, the arrow bitmap scan,
 * the recursive dataclass-to-dictionary conversion and the two WebSocket messages.
 */
module MapManager {
  import opened Basics

  // ---------------------------------------------------------------- JSON values

  /** A JSON value as `json.load` returns it; an object keeps its members in document order. */
  datatype Json =
    | JNull
    | JBool(b: bool)
    | JNum(n: real)
    | JStr(s: string)
    | JArr(elems: seq<Json>)
    | JObj(members: seq<Member>)

  datatype Member = Member(key: string, value: Json)

  /** The position of the last member named `key`: the one a Python dict keeps. */
  function LastKeyIndex(ms: seq<Member>, key: string): (r: Option<nat>)
    ensures r.Some? ==> r.value < |ms| && ms[r.value].key == key
    ensures r.Some? ==> forall k :: r.value < k < |ms| ==> ms[k].key != key
    ensures r.None? ==> forall k :: 0 <= k < |ms| ==> ms[k].key != key
    decreases |ms|
  {
    if ms == [] then None
    else if ms[|ms| - 1].key == key then Some(|ms| - 1)
    else LastKeyIndex(ms[..|ms| - 1], key)
  }

  /** `d[key]` on the dictionary built from the members, or `None` for a `KeyError`. */
  function Lookup(ms: seq<Member>, key: string): Option<Json> {
    match LastKeyIndex(ms, key)
    case None => None
    case Some(k) => Some(ms[k].value)
  }

  /** The keys of the dictionary built from the members. */
  function Keys(ms: seq<Member>): set<string> {
    set m | m in ms :: m.key
  }

  /** A member list whose keys are pairwise distinct looks each of them up to its own value. */
  lemma LookupDistinct(ms: seq<Member>, k: nat)
    requires k < |ms|
    requires forall i, j :: 0 <= i < j < |ms| ==> ms[i].key != ms[j].key
    ensures Lookup(ms, ms[k].key) == Some(ms[k].value)
  {
  }

  /** A JSON object with the given keys and values, in order. */
  function Object(keys: seq<string>, values: seq<Json>): (j: Json)
    requires |keys| == |values|
    ensures j.JObj? && |j.members| == |keys|
    ensures forall i :: 0 <= i < |keys| ==> j.members[i] == Member(keys[i], values[i])
  {
    JObj(seq(|keys|, i requires 0 <= i < |keys| => Member(keys[i], values[i])))
  }

  /** Looking up a key of an object built with distinct keys gives the value it was built with. */
  lemma ObjectLookup(keys: seq<string>, values: seq<Json>, i: nat)
    requires |keys| == |values| && i < |keys|
    requires forall a, b :: 0 <= a < b < |keys| ==> keys[a] != keys[b]
    ensures Lookup(Object(keys, values).members, keys[i]) == Some(values[i])
  {
    LookupDistinct(Object(keys, values).members, i);
  }

  // ---------------------------------------------------------------- dataclasses

  /*
   * Python does not check dataclass annotations, so a field filled from the JSON
   * document holds whatever JSON value the document has there.
   */

  datatype Coordinate = Coordinate(x: Json, y: Json)

  datatype Point = Point(px: Json, py: Json, x: Json, y: Json)

  datatype CoordinateSystem = CoordinateSystem(topLeft: Point, bottomRight: Point, scaleX: Json, scaleY: Json)

  datatype Rectangle = Rectangle(name: Json, topLeft: Coordinate, bottomRight: Coordinate, width: Json, height: Json)

  datatype Floor = Floor(
    floorId: string,
    floorName: string,
    floorImage: string,
    coordinateSystem: CoordinateSystem,
    rectangles: seq<Rectangle>)

  datatype Bitmap = Bitmap(bitmapId: string, bitmapName: string, bitmapFile: string)

  datatype MapDefinition = MapDefinition(floors: seq<Floor>, bitmaps: seq<Bitmap>)

  /** The manager's state: its data directory, the loaded definition and the current floor. */
  datatype Manager = Manager(dataDir: string, mapDefinition: Option<MapDefinition>, currentFloorId: Option<string>)

  /** A new manager over `dataDir`: nothing loaded and no floor selected. */
  function NewManager(dataDir: string): (m: Manager)
    ensures m.dataDir == dataDir
    ensures m.mapDefinition.None? && m.currentFloorId.None?
  {
    Manager(dataDir, None, None)
  }

  // ---------------------------------------------------------------- legacy load

  /** The keyword arguments of `Point(**d)`: exactly these keys, none missing, none extra. */
  const PointKeys: set<string> := {"px", "py", "x", "y"}

  const CoordinateKeys: set<string> := {"x", "y"}

  /** `Point(**j)`: `None` stands for the `TypeError` of a non-dictionary or a wrong key set. */
  function PointOf(j: Json): (r: Option<Point>)
    ensures r.Some? <==> j.JObj? && Keys(j.members) == PointKeys
  {
    if j.JObj? && Keys(j.members) == PointKeys then
      var ms := j.members;
      assert "px" in Keys(ms) && "py" in Keys(ms) && "x" in Keys(ms) && "y" in Keys(ms);
      Some(Point(Lookup(ms, "px").value, Lookup(ms, "py").value, Lookup(ms, "x").value, Lookup(ms, "y").value))
    else None
  }

  /** `Coordinate(**j)`. */
  function CoordinateOf(j: Json): (r: Option<Coordinate>)
    ensures r.Some? <==> j.JObj? && Keys(j.members) == CoordinateKeys
  {
    if j.JObj? && Keys(j.members) == CoordinateKeys then
      var ms := j.members;
      assert "x" in Keys(ms) && "y" in Keys(ms);
      Some(Coordinate(Lookup(ms, "x").value, Lookup(ms, "y").value))
    else None
  }

  /** `d[key]` where `d` must be a dictionary: `None` for a `TypeError` or a `KeyError`. */
  function Field(j: Json, key: string): Option<Json> {
    if j.JObj? then Lookup(j.members, key) else None
  }

  /** The coordinate system built from `data['coordinateSystem']`. */
  function CoordinateSystemOf(j: Json): Option<CoordinateSystem> {
    var tl :- Field(j, "topLeft");
    var topLeft :- PointOf(tl);
    var br :- Field(j, "bottomRight");
    var bottomRight :- PointOf(br);
    var sx :- Field(j, "scaleX");
    var sy :- Field(j, "scaleY");
    Some(CoordinateSystem(topLeft, bottomRight, sx, sy))
  }

  /** The rectangle built from one element of `data['rectangles']`. */
  function RectangleOf(j: Json): Option<Rectangle> {
    var name :- Field(j, "name");
    var tl :- Field(j, "topLeft");
    var topLeft :- CoordinateOf(tl);
    var br :- Field(j, "bottomRight");
    var bottomRight :- CoordinateOf(br);
    var width :- Field(j, "width");
    var height :- Field(j, "height");
    Some(Rectangle(name, topLeft, bottomRight, width, height))
  }

  /**
   * What `for rect in value` walks over when each `rect` is then indexed by a string: the
   * elements of a list; nothing for an empty dictionary or string, whose iteration is
   * empty; `None` otherwise (iterating a non-empty dictionary or string gives strings,
   * and indexing a string by a string raises, as does iterating a number, bool or null).
   */
  function RectangleEntries(j: Json): (r: Option<seq<Json>>)
    ensures j.JArr? ==> r == Some(j.elems)
    ensures !j.JArr? ==> (r.Some? <==> j == JObj([]) || j == JStr(""))
  {
    match j
    case JArr(elems) => Some(elems)
    case JObj(ms) => if ms == [] then Some([]) else None
    case JStr(s) => if s == "" then Some([]) else None
    case _ => None
  }

  /** Reads every element, or fails if one cannot be read: a list comprehension that may raise. */
  function ReadAll<T>(js: seq<Json>, read: Json -> Option<T>): (r: Option<seq<T>>)
    ensures r.Some? <==> forall k :: 0 <= k < |js| ==> read(js[k]).Some?
    ensures r.Some? ==> |r.value| == |js| && forall k :: 0 <= k < |js| ==> read(js[k]) == Some(r.value[k])
    decreases |js|
  {
    if js == [] then Some([])
    else
      var first := read(js[0]);
      var rest := ReadAll(js[1..], read);
      assert forall k :: 1 <= k < |js| ==> js[k] == js[1..][k - 1];
      if first.None? || rest.None? then None
      else Some([first.value] + rest.value)
  }

  /**
   * The coordinate system and rectangles of a legacy document, or `None` where Python raises:
   * the coordinate system is read from the `coordinateSystem` entry and the rectangles, one
   * per element and in order, from the `rectangles` entry.
   */
  function LegacyContents(data: Json): (r: Option<(CoordinateSystem, seq<Rectangle>)>)
    ensures r.Some? <==>
      && Field(data, "coordinateSystem").Some? && CoordinateSystemOf(Field(data, "coordinateSystem").value).Some?
      && Field(data, "rectangles").Some? && RectangleEntries(Field(data, "rectangles").value).Some?
      && forall k :: 0 <= k < |RectangleEntries(Field(data, "rectangles").value).value| ==>
           RectangleOf(RectangleEntries(Field(data, "rectangles").value).value[k]).Some?
    ensures r.Some? ==> data.JObj? && Some(r.value.0) == CoordinateSystemOf(Field(data, "coordinateSystem").value)
    ensures r.Some? ==>
      var entries := RectangleEntries(Field(data, "rectangles").value).value;
      |r.value.1| == |entries| && forall k :: 0 <= k < |entries| ==> RectangleOf(entries[k]) == Some(r.value.1[k])
  {
    var csData :- Field(data, "coordinateSystem");
    var cs :- CoordinateSystemOf(csData);
    var rectsData :- Field(data, "rectangles");
    var entries :- RectangleEntries(rectsData);
    var rects :- ReadAll(entries, RectangleOf);
    Some((cs, rects))
  }

  /** The bitmap directory as the scan sees it: whether it exists and which files it holds. */
  datatype BitmapDir = BitmapDir(present: bool, hasFile: string -> bool)

  /** The four arrow bitmaps the scan looks for, in the order it looks for them. */
  const ArrowBitmaps: seq<Bitmap> := [
    Bitmap("arrow_up", "上向き矢印", "arrow_up.bmp"),
    Bitmap("arrow_down", "下向き矢印", "arrow_down.bmp"),
    Bitmap("arrow_left", "左向き矢印", "arrow_left.bmp"),
    Bitmap("arrow_right", "右向き矢印", "arrow_right.bmp")
  ]

  /**
   * The arrow bitmaps whose files exist, in the fixed up, down, left, right order; none
   * when the directory is missing.
   */
  function ScanBitmaps(dir: BitmapDir): (r: seq<Bitmap>)
    ensures !dir.present ==> r == []
    ensures IsSubsequence(r, ArrowBitmaps)
    ensures forall k :: 0 <= k < |r| ==> dir.hasFile(r[k].bitmapFile)
    ensures dir.present ==> forall b :: b in ArrowBitmaps && dir.hasFile(b.bitmapFile) ==> b in r
  {
    if dir.present then Filter(ArrowBitmaps, (b: Bitmap) => dir.hasFile(b.bitmapFile)) else []
  }

  /** Why loading failed: the document lacks a key, has a wrong type or a wrong key set. */
  datatype LoadError = MalformedLegacyData

  /** The manager after loading, and the definition `load_legacy_data` returns. */
  datatype Loaded = Loaded(manager: Manager, definition: MapDefinition)

  /**
   * `load_legacy_data` given the parsed contents of the rectangles file: one floor with the
   * given id, name and image, the document's coordinate system and rectangles in document
   * order, and the bitmaps found; the manager keeps the new definition. Where Python
   * raises, the manager is left as it was.
   */
  function LoadLegacyData(m: Manager, floorImage: string, data: Json, dir: BitmapDir,
                          floorId: string := "1F", floorName: string := "1階"): (r: Result<Loaded, LoadError>)
    ensures r.Ok? <==> LegacyContents(data).Some?
    ensures r.Ok? ==>
      var d := r.value.definition;
      && |d.floors| == 1
      && d.floors[0].floorId == floorId && d.floors[0].floorName == floorName
      && d.floors[0].floorImage == floorImage
      && (d.floors[0].coordinateSystem, d.floors[0].rectangles) == LegacyContents(data).value
      && d.bitmaps == ScanBitmaps(dir)
    ensures r.Ok? ==> r.value.manager == m.(mapDefinition := Some(r.value.definition))
  {
    match LegacyContents(data)
    case None => Err(MalformedLegacyData)
    case Some((cs, rects)) =>
      var floor := Floor(floorId, floorName, floorImage, cs, rects);
      var d := MapDefinition([floor], ScanBitmaps(dir));
      Ok(Loaded(m.(mapDefinition := Some(d)), d))
  }

  // ------------------------------------------------- legacy documents, written out

  function PointJson(p: Point): Json {
    Object(["px", "py", "x", "y"], [p.px, p.py, p.x, p.y])
  }

  function CoordinateJson(c: Coordinate): Json {
    Object(["x", "y"], [c.x, c.y])
  }

  function CoordinateSystemJson(cs: CoordinateSystem): Json {
    Object(["topLeft", "bottomRight", "scaleX", "scaleY"],
      [PointJson(cs.topLeft), PointJson(cs.bottomRight), cs.scaleX, cs.scaleY])
  }

  function RectangleJson(r: Rectangle): Json {
    Object(["name", "topLeft", "bottomRight", "width", "height"],
      [r.name, CoordinateJson(r.topLeft), CoordinateJson(r.bottomRight), r.width, r.height])
  }

  function RectangleListJson(rects: seq<Rectangle>): Json {
    JArr(seq(|rects|, k requires 0 <= k < |rects| => RectangleJson(rects[k])))
  }

  /** The legacy document that describes a coordinate system and rectangles. */
  function LegacyJson(cs: CoordinateSystem, rects: seq<Rectangle>): Json {
    Object(["coordinateSystem", "rectangles"],
      [CoordinateSystemJson(cs), RectangleListJson(rects)])
  }

  lemma PointRoundTrip(p: Point)
    ensures PointOf(PointJson(p)) == Some(p)
  {
    var keys := ["px", "py", "x", "y"];
    var values := [p.px, p.py, p.x, p.y];
    var ms := PointJson(p).members;
    assert Keys(ms) == PointKeys by {
      assert forall m :: m in ms ==> m.key in PointKeys;
      assert ms[0].key == "px" && ms[1].key == "py" && ms[2].key == "x" && ms[3].key == "y";
    }
    ObjectLookup(keys, values, 0);
    ObjectLookup(keys, values, 1);
    ObjectLookup(keys, values, 2);
    ObjectLookup(keys, values, 3);
  }

  lemma CoordinateRoundTrip(c: Coordinate)
    ensures CoordinateOf(CoordinateJson(c)) == Some(c)
  {
    var ms := CoordinateJson(c).members;
    assert Keys(ms) == CoordinateKeys by {
      assert forall m :: m in ms ==> m.key in CoordinateKeys;
      assert ms[0].key == "x" && ms[1].key == "y";
    }
    ObjectLookup(["x", "y"], [c.x, c.y], 0);
    ObjectLookup(["x", "y"], [c.x, c.y], 1);
  }

  lemma CoordinateSystemRoundTrip(cs: CoordinateSystem)
    ensures CoordinateSystemOf(CoordinateSystemJson(cs)) == Some(cs)
  {
    var keys := ["topLeft", "bottomRight", "scaleX", "scaleY"];
    var values := [PointJson(cs.topLeft), PointJson(cs.bottomRight), cs.scaleX, cs.scaleY];
    ObjectLookup(keys, values, 0);
    ObjectLookup(keys, values, 1);
    ObjectLookup(keys, values, 2);
    ObjectLookup(keys, values, 3);
    PointRoundTrip(cs.topLeft);
    PointRoundTrip(cs.bottomRight);
  }

  lemma RectangleRoundTrip(r: Rectangle)
    ensures RectangleOf(RectangleJson(r)) == Some(r)
  {
    var keys := ["name", "topLeft", "bottomRight", "width", "height"];
    var values := [r.name, CoordinateJson(r.topLeft), CoordinateJson(r.bottomRight), r.width, r.height];
    ObjectLookup(keys, values, 0);
    ObjectLookup(keys, values, 1);
    ObjectLookup(keys, values, 2);
    ObjectLookup(keys, values, 3);
    ObjectLookup(keys, values, 4);
    CoordinateRoundTrip(r.topLeft);
    CoordinateRoundTrip(r.bottomRight);
  }

  /** Loading the document written out for a coordinate system and rectangles gives them back. */
  lemma LegacyRoundTrip(cs: CoordinateSystem, rects: seq<Rectangle>)
    ensures LegacyContents(LegacyJson(cs, rects)) == Some((cs, rects))
  {
    var entries := RectangleListJson(rects).elems;
    var keys := ["coordinateSystem", "rectangles"];
    ObjectLookup(keys, [CoordinateSystemJson(cs), RectangleListJson(rects)], 0);
    ObjectLookup(keys, [CoordinateSystemJson(cs), RectangleListJson(rects)], 1);
    CoordinateSystemRoundTrip(cs);
    forall k | 0 <= k < |rects| ensures RectangleOf(entries[k]) == Some(rects[k]) {
      RectangleRoundTrip(rects[k]);
    }
    var built := ReadAll(entries, RectangleOf).value;
    assert built == rects;
  }

  /** Loading a well-formed legacy document into a new manager yields the one-floor definition. */
  lemma LoadLegacyDocument(dataDir: string, floorImage: string, cs: CoordinateSystem, rects: seq<Rectangle>, dir: BitmapDir)
    ensures var r := LoadLegacyData(NewManager(dataDir), floorImage, LegacyJson(cs, rects), dir);
      && r.Ok?
      && r.value.definition == MapDefinition([Floor("1F", "1階", floorImage, cs, rects)], ScanBitmaps(dir))
      && r.value.manager.mapDefinition == Some(r.value.definition)
      && r.value.manager.currentFloorId.None?
  {
    LegacyRoundTrip(cs, rects);
  }

  // ---------------------------------------------------------------- to dictionary

  /** A Python value as the conversion sees it: a dataclass instance, a list, or anything else. */
  datatype PyValue =
    | Dataclass(fields: seq<Attr>)
    | PyList(items: seq<PyValue>)
    | Plain(json: Json)

  /** One dataclass field with its value, in declaration order. */
  datatype Attr = Attr(name: string, value: PyValue)

  /**
   * `_dataclass_to_dict`: a dataclass becomes a dictionary from its field names to their
   * converted values, a list the list of its converted items, and anything else itself.
   */
  function ToDict(v: PyValue): (r: Json)
    ensures v.Dataclass? ==> r.JObj? && |r.members| == |v.fields|
    ensures v.Dataclass? ==> forall i :: 0 <= i < |v.fields| ==> r.members[i].key == v.fields[i].name
    ensures v.PyList? ==> r.JArr? && |r.elems| == |v.items|
    ensures v.Plain? ==> r == v.json
    decreases v
  {
    match v
    case Dataclass(fs) =>
      JObj(seq(|fs|, i requires 0 <= i < |fs| => Member(fs[i].name, ToDict(fs[i].value))))
    case PyList(items) =>
      JArr(seq(|items|, i requires 0 <= i < |items| => ToDict(items[i])))
    case Plain(j) => j
  }

  /** Converting a dataclass converts each field's value in place, under the field's name. */
  lemma ToDictFields(fs: seq<Attr>, i: nat)
    requires i < |fs|
    ensures ToDict(Dataclass(fs)).members[i] == Member(fs[i].name, ToDict(fs[i].value))
  {
  }

  /** Converting a list converts each item in place. */
  lemma ToDictItems(items: seq<PyValue>, i: nat)
    requires i < |items|
    ensures ToDict(PyList(items)).elems[i] == ToDict(items[i])
  {
  }

  function CoordinateValue(c: Coordinate): PyValue {
    Dataclass([Attr("x", Plain(c.x)), Attr("y", Plain(c.y))])
  }

  function PointValue(p: Point): PyValue {
    Dataclass([Attr("px", Plain(p.px)), Attr("py", Plain(p.py)), Attr("x", Plain(p.x)), Attr("y", Plain(p.y))])
  }

  function CoordinateSystemValue(cs: CoordinateSystem): PyValue {
    Dataclass([
      Attr("topLeft", PointValue(cs.topLeft)), Attr("bottomRight", PointValue(cs.bottomRight)),
      Attr("scaleX", Plain(cs.scaleX)), Attr("scaleY", Plain(cs.scaleY))])
  }

  function RectangleValue(r: Rectangle): PyValue {
    Dataclass([
      Attr("name", Plain(r.name)), Attr("topLeft", CoordinateValue(r.topLeft)),
      Attr("bottomRight", CoordinateValue(r.bottomRight)), Attr("width", Plain(r.width)),
      Attr("height", Plain(r.height))])
  }

  function FloorValue(f: Floor): PyValue {
    Dataclass([
      Attr("floorId", Plain(JStr(f.floorId))), Attr("floorName", Plain(JStr(f.floorName))),
      Attr("floorImage", Plain(JStr(f.floorImage))),
      Attr("coordinateSystem", CoordinateSystemValue(f.coordinateSystem)),
      Attr("rectangles", RectangleListValue(f.rectangles))])
  }

  function BitmapValue(b: Bitmap): PyValue {
    Dataclass([
      Attr("bitmapId", Plain(JStr(b.bitmapId))), Attr("bitmapName", Plain(JStr(b.bitmapName))),
      Attr("bitmapFile", Plain(JStr(b.bitmapFile)))])
  }

  function RectangleListValue(rects: seq<Rectangle>): PyValue {
    PyList(seq(|rects|, k requires 0 <= k < |rects| => RectangleValue(rects[k])))
  }

  function FloorListValue(floors: seq<Floor>): PyValue {
    PyList(seq(|floors|, k requires 0 <= k < |floors| => FloorValue(floors[k])))
  }

  function BitmapListValue(bitmaps: seq<Bitmap>): PyValue {
    PyList(seq(|bitmaps|, k requires 0 <= k < |bitmaps| => BitmapValue(bitmaps[k])))
  }

  /** A map definition as a Python object: the dataclass instances, their lists and fields. */
  function DefinitionValue(d: MapDefinition): PyValue {
    Dataclass([
      Attr("floors", FloorListValue(d.floors)),
      Attr("bitmaps", BitmapListValue(d.bitmaps))])
  }

  // ------------------------------------------------ reading the dictionary back

  function ReadString(j: Json): Option<string> {
    if j.JStr? then Some(j.s) else None
  }

  function ReadList(j: Json): Option<seq<Json>> {
    if j.JArr? then Some(j.elems) else None
  }

  function ReadCoordinate(j: Json): Option<Coordinate> {
    var x :- Field(j, "x");
    var y :- Field(j, "y");
    Some(Coordinate(x, y))
  }

  function ReadPoint(j: Json): Option<Point> {
    var px :- Field(j, "px");
    var py :- Field(j, "py");
    var x :- Field(j, "x");
    var y :- Field(j, "y");
    Some(Point(px, py, x, y))
  }

  function ReadCoordinateSystem(j: Json): Option<CoordinateSystem> {
    var tl :- Field(j, "topLeft");
    var topLeft :- ReadPoint(tl);
    var br :- Field(j, "bottomRight");
    var bottomRight :- ReadPoint(br);
    var sx :- Field(j, "scaleX");
    var sy :- Field(j, "scaleY");
    Some(CoordinateSystem(topLeft, bottomRight, sx, sy))
  }

  function ReadRectangle(j: Json): Option<Rectangle> {
    var name :- Field(j, "name");
    var tl :- Field(j, "topLeft");
    var topLeft :- ReadCoordinate(tl);
    var br :- Field(j, "bottomRight");
    var bottomRight :- ReadCoordinate(br);
    var width :- Field(j, "width");
    var height :- Field(j, "height");
    Some(Rectangle(name, topLeft, bottomRight, width, height))
  }

  function ReadFloor(j: Json): Option<Floor> {
    var idJ :- Field(j, "floorId");
    var id :- ReadString(idJ);
    var nameJ :- Field(j, "floorName");
    var name :- ReadString(nameJ);
    var imageJ :- Field(j, "floorImage");
    var image :- ReadString(imageJ);
    var csJ :- Field(j, "coordinateSystem");
    var cs :- ReadCoordinateSystem(csJ);
    var rectsJ :- Field(j, "rectangles");
    var entries :- ReadList(rectsJ);
    var rects :- ReadAll(entries, ReadRectangle);
    Some(Floor(id, name, image, cs, rects))
  }

  function ReadBitmap(j: Json): Option<Bitmap> {
    var idJ :- Field(j, "bitmapId");
    var id :- ReadString(idJ);
    var nameJ :- Field(j, "bitmapName");
    var name :- ReadString(nameJ);
    var fileJ :- Field(j, "bitmapFile");
    var file :- ReadString(fileJ);
    Some(Bitmap(id, name, file))
  }

  /** Reads a map definition back from the dictionary the frontend receives. */
  function ReadDefinition(j: Json): Option<MapDefinition> {
    var floorsJ :- Field(j, "floors");
    var floorEntries :- ReadList(floorsJ);
    var floors :- ReadAll(floorEntries, ReadFloor);
    var bitmapsJ :- Field(j, "bitmaps");
    var bitmapEntries :- ReadList(bitmapsJ);
    var bitmaps :- ReadAll(bitmapEntries, ReadBitmap);
    Some(MapDefinition(floors, bitmaps))
  }

  /** The field `name` of the converted dataclass `fs` (names distinct) is its converted value. */
  lemma FieldOfConverted(fs: seq<Attr>, i: nat)
    requires i < |fs|
    requires forall a, b :: 0 <= a < b < |fs| ==> fs[a].name != fs[b].name
    ensures Field(ToDict(Dataclass(fs)), fs[i].name) == Some(ToDict(fs[i].value))
  {
    var ms := ToDict(Dataclass(fs)).members;
    assert forall a :: 0 <= a < |fs| ==> ms[a] == Member(fs[a].name, ToDict(fs[a].value));
    LookupDistinct(ms, i);
  }

  lemma CoordinateDictRoundTrip(c: Coordinate)
    ensures ReadCoordinate(ToDict(CoordinateValue(c))) == Some(c)
  {
    var fs := CoordinateValue(c).fields;
    FieldOfConverted(fs, 0);
    FieldOfConverted(fs, 1);
  }

  lemma PointDictRoundTrip(p: Point)
    ensures ReadPoint(ToDict(PointValue(p))) == Some(p)
  {
    var fs := PointValue(p).fields;
    FieldOfConverted(fs, 0);
    FieldOfConverted(fs, 1);
    FieldOfConverted(fs, 2);
    FieldOfConverted(fs, 3);
  }

  lemma CoordinateSystemDictRoundTrip(cs: CoordinateSystem)
    ensures ReadCoordinateSystem(ToDict(CoordinateSystemValue(cs))) == Some(cs)
  {
    var fs := CoordinateSystemValue(cs).fields;
    FieldOfConverted(fs, 0);
    FieldOfConverted(fs, 1);
    FieldOfConverted(fs, 2);
    FieldOfConverted(fs, 3);
    PointDictRoundTrip(cs.topLeft);
    PointDictRoundTrip(cs.bottomRight);
  }

  lemma RectangleDictRoundTrip(r: Rectangle)
    ensures ReadRectangle(ToDict(RectangleValue(r))) == Some(r)
  {
    var fs := RectangleValue(r).fields;
    FieldOfConverted(fs, 0);
    FieldOfConverted(fs, 1);
    FieldOfConverted(fs, 2);
    FieldOfConverted(fs, 3);
    FieldOfConverted(fs, 4);
    CoordinateDictRoundTrip(r.topLeft);
    CoordinateDictRoundTrip(r.bottomRight);
  }

  lemma RectangleListDictRoundTrip(rects: seq<Rectangle>)
    ensures ReadAll(ToDict(RectangleListValue(rects)).elems, ReadRectangle) == Some(rects)
  {
    var list := RectangleListValue(rects);
    var entries := ToDict(list).elems;
    forall k | 0 <= k < |rects| ensures ReadRectangle(entries[k]) == Some(rects[k]) {
      ToDictItems(list.items, k);
      RectangleDictRoundTrip(rects[k]);
    }
    assert ReadAll(entries, ReadRectangle).value == rects;
  }

  lemma FloorDictRoundTrip(f: Floor)
    ensures ReadFloor(ToDict(FloorValue(f))) == Some(f)
  {
    var fs := FloorValue(f).fields;
    FieldOfConverted(fs, 0);
    FieldOfConverted(fs, 1);
    FieldOfConverted(fs, 2);
    FieldOfConverted(fs, 3);
    FieldOfConverted(fs, 4);
    CoordinateSystemDictRoundTrip(f.coordinateSystem);
    RectangleListDictRoundTrip(f.rectangles);
  }

  lemma BitmapDictRoundTrip(b: Bitmap)
    ensures ReadBitmap(ToDict(BitmapValue(b))) == Some(b)
  {
    var fs := BitmapValue(b).fields;
    FieldOfConverted(fs, 0);
    FieldOfConverted(fs, 1);
    FieldOfConverted(fs, 2);
  }

  lemma FloorListDictRoundTrip(floors: seq<Floor>)
    ensures ReadAll(ToDict(FloorListValue(floors)).elems, ReadFloor) == Some(floors)
  {
    var list := FloorListValue(floors);
    var entries := ToDict(list).elems;
    forall k | 0 <= k < |floors| ensures ReadFloor(entries[k]) == Some(floors[k]) {
      ToDictItems(list.items, k);
      FloorDictRoundTrip(floors[k]);
    }
    assert ReadAll(entries, ReadFloor).value == floors;
  }

  lemma BitmapListDictRoundTrip(bitmaps: seq<Bitmap>)
    ensures ReadAll(ToDict(BitmapListValue(bitmaps)).elems, ReadBitmap) == Some(bitmaps)
  {
    var list := BitmapListValue(bitmaps);
    var entries := ToDict(list).elems;
    forall k | 0 <= k < |bitmaps| ensures ReadBitmap(entries[k]) == Some(bitmaps[k]) {
      ToDictItems(list.items, k);
      BitmapDictRoundTrip(bitmaps[k]);
    }
    assert ReadAll(entries, ReadBitmap).value == bitmaps;
  }

  /** The dictionary a map definition converts to reads back as the same definition. */
  lemma DefinitionDictRoundTrip(d: MapDefinition)
    ensures ReadDefinition(ToDict(DefinitionValue(d))) == Some(d)
  {
    var fs := DefinitionValue(d).fields;
    FieldOfConverted(fs, 0);
    FieldOfConverted(fs, 1);
    FloorListDictRoundTrip(d.floors);
    BitmapListDictRoundTrip(d.bitmaps);
  }

  // ---------------------------------------------------------------- messages

  /** A WebSocket message: `{"type": kind, "content": content}`. */
  function Envelope(kind: string, content: Json): Json {
    Object(["type", "content"], [JStr(kind), content])
  }

  /** Reads the kind and content of a message. */
  function ReadEnvelope(j: Json): Option<(string, Json)> {
    var kindJ :- Field(j, "type");
    var kind :- ReadString(kindJ);
    var content :- Field(j, "content");
    Some((kind, content))
  }

  lemma EnvelopeRoundTrip(kind: string, content: Json)
    ensures ReadEnvelope(Envelope(kind, content)) == Some((kind, content))
  {
    ObjectLookup(["type", "content"], [JStr(kind), content], 0);
    ObjectLookup(["type", "content"], [JStr(kind), content], 1);
  }

  /**
   * The `map_definition` message of the loaded definition, or the "not loaded" error when
   * there is none; its content reads back as the loaded definition.
   */
  function GetMapDefinitionMessage(m: Manager): (r: Result<Json, string>)
    ensures r.Err? <==> m.mapDefinition.None?
    ensures r.Err? ==> r.error == "Map definition not loaded"
    ensures r.Ok? ==>
      var read := ReadEnvelope(r.value);
      read.Some? && read.value.0 == "map_definition" && ReadDefinition(read.value.1) == m.mapDefinition
  {
    match m.mapDefinition
    case None => Err("Map definition not loaded")
    case Some(d) =>
      var msg := Envelope("map_definition", ToDict(DefinitionValue(d)));
      EnvelopeRoundTrip("map_definition", ToDict(DefinitionValue(d)));
      DefinitionDictRoundTrip(d);
      Ok(msg)
  }

  /** A new manager has nothing to send. */
  lemma NewManagerHasNoDefinition(dataDir: string)
    ensures GetMapDefinitionMessage(NewManager(dataDir)) == Err("Map definition not loaded")
  {
  }

  /** After a successful load the definition message carries exactly the loaded definition. */
  lemma LoadThenMessage(m: Manager, floorImage: string, data: Json, dir: BitmapDir, floorId: string, floorName: string)
    requires LoadLegacyData(m, floorImage, data, dir, floorId, floorName).Ok?
    ensures var loaded := LoadLegacyData(m, floorImage, data, dir, floorId, floorName).value;
      var msg := GetMapDefinitionMessage(loaded.manager);
      msg.Ok? && ReadDefinition(ReadEnvelope(msg.value).value.1) == Some(loaded.definition)
  {
  }

  /** The content of a map display command. */
  datatype MapCommand = MapCommand(floorId: string, timestamp: string, rectangles: seq<Json>, overlays: seq<Json>)

  /**
   * The `map` command: the floor, rectangles and overlays passed through, and the given
   * timestamp, or the current UTC time in ISO 8601 followed by `Z` when none is given.
   */
  function CreateMapCommand(floorId: string, rectangles: seq<Json>, overlays: seq<Json>,
                            utcNowIso: string, timestamp: Option<string> := None): (r: Json)
    ensures ReadEnvelope(r).Some? && ReadEnvelope(r).value.0 == "map"
    ensures var content := ReadEnvelope(r).value.1;
      content.JObj? && Keys(content.members) == {"floorId", "timestamp", "rectangles", "overlays"}
  {
    var stamp := match timestamp case Some(t) => t case None => utcNowIso + "Z";
    var content := Object(["floorId", "timestamp", "rectangles", "overlays"],
      [JStr(floorId), JStr(stamp), JArr(rectangles), JArr(overlays)]);
    EnvelopeRoundTrip("map", content);
    MapCommandKeys(content, [JStr(floorId), JStr(stamp), JArr(rectangles), JArr(overlays)]);
    Envelope("map", content)
  }

  /** The keys of a map command's content are exactly its four fields. */
  lemma MapCommandKeys(content: Json, values: seq<Json>)
    requires |values| == 4 && content == Object(["floorId", "timestamp", "rectangles", "overlays"], values)
    ensures content.JObj? && Keys(content.members) == {"floorId", "timestamp", "rectangles", "overlays"}
  {
    var ms := content.members;
    assert ms[0].key == "floorId" && ms[1].key == "timestamp" && ms[2].key == "rectangles" && ms[3].key == "overlays";
    assert forall m :: m in ms ==> m == ms[0] || m == ms[1] || m == ms[2] || m == ms[3];
  }

  /** Reads a map display command back from its message. */
  function ReadMapCommand(j: Json): Option<MapCommand> {
    var (kind, content) :- ReadEnvelope(j);
    if kind != "map" then None
    else
      var idJ :- Field(content, "floorId");
      var id :- ReadString(idJ);
      var stampJ :- Field(content, "timestamp");
      var stamp :- ReadString(stampJ);
      var rectsJ :- Field(content, "rectangles");
      var rects :- ReadList(rectsJ);
      var overlaysJ :- Field(content, "overlays");
      var overlays :- ReadList(overlaysJ);
      Some(MapCommand(id, stamp, rects, overlays))
  }

  /**
   * A map command passes the floor, rectangles and overlays through unchanged, uses a
   * supplied timestamp verbatim and generates one only when none is supplied.
   */
  lemma MapCommandRoundTrip(floorId: string, rectangles: seq<Json>, overlays: seq<Json>,
                            utcNowIso: string, timestamp: Option<string>)
    ensures ReadMapCommand(CreateMapCommand(floorId, rectangles, overlays, utcNowIso, timestamp))
      == Some(MapCommand(floorId, if timestamp.Some? then timestamp.value else utcNowIso + "Z", rectangles, overlays))
  {
    var stamp := if timestamp.Some? then timestamp.value else utcNowIso + "Z";
    var keys := ["floorId", "timestamp", "rectangles", "overlays"];
    var values := [JStr(floorId), JStr(stamp), JArr(rectangles), JArr(overlays)];
    EnvelopeRoundTrip("map", Object(keys, values));
    ObjectLookup(keys, values, 0);
    ObjectLookup(keys, values, 1);
    ObjectLookup(keys, values, 2);
    ObjectLookup(keys, values, 3);
  }
}
