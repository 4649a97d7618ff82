/** `GocadTSurfReader`: the line-driven accumulator that builds a triangulated
    surface from a GOCAD TSurf file. Lines arrive already classified (the
    regular expressions and number parsing are not modelled); the coordinate
    transformation of the reader parameters is passed in as a function. */
module TSurfReader {
  import opened Wrappers
  import Text
  import GocadParameters
  import opened GocadTokens

  /** `Float.MAX_VALUE`, the starting bound of the value range. */
  const FloatMax: real := 340282346638528859811704183484516925440.0

  datatype Point = Point(x: real, y: real, z: real)

  /** `Position.fromDegrees(latitude, longitude, elevation)`. */
  datatype Position = Position(latitude: real, longitude: real, elevation: real)

  /** A `float` value, which may be NaN. */
  datatype Value = NaN | Num(v: real)

  /** A colour read by the `*solid*color:` line parser. */
  datatype Color = Color(red: int, green: int, blue: int, alpha: int)

  /** A classified input line. */
  datatype Line =
    | Vertex(id: int, x: real, y: real, z: real, columns: seq<Token>)
    | Atom(id: int, refId: int, columns: seq<Token>)
    | Triangle(a: int, b: int, c: int)
    | SolidColor(color: Color)
    | Name(name: string)
    | ZPositive(direction: string)
    | PaintedVariable(variable: string)
    | Properties(names: seq<string>)
    | NoDataValues(tokens: seq<Token>)
    | Unrecognised

  /** The exceptions the reader throws. `NoDataIndexOutOfBounds` is the array
      access at index -1 a `NO_DATA_VALUES` line makes while no painted variable
      column is selected. */
  datatype ReadError = DuplicateVertexId(id: int) | UnknownVertexId(id: int) | NoDataIndexOutOfBounds(index: int)

  datatype Reader = Reader(
    parameters: GocadParameters.Parameters,
    paintedVariableParameter: Option<string>,
    positions: seq<Position>,
    values: seq<Value>,
    min: real,
    max: real,
    triangleIds: seq<int>,
    color: Option<Color>,
    vertexIdMap: map<int, nat>,
    name: Option<string>,
    zPositive: bool,
    paintedVariableName: Option<string>,
    paintedVariableId: nat,
    noDataValue: real)

  /** The reader's invariant: one value per position, and every mapped vertex id
      names a position. */
  predicate Valid(r: Reader) {
    |r.positions| == |r.values| && forall id :: id in r.vertexIdMap ==> r.vertexIdMap[id] < |r.positions|
  }

  /** `begin`, on a freshly constructed reader. The painted variable is the
      parameters' painted variable name, given separately. */
  function Begin(parameters: GocadParameters.Parameters, paintedVariable: Option<string>): (r: Reader)
    ensures Valid(r) && r.positions == [] && r.triangleIds == [] && r.vertexIdMap == map[]
    ensures r.min == FloatMax && r.max == -FloatMax && r.min > r.max
    ensures r.zPositive && r.paintedVariableId == 0 && r.paintedVariableName == paintedVariable
  {
    Reader(parameters, paintedVariable, [], [], FloatMax, -FloatMax, [], None, map[], None, true, paintedVariable, 0, -FloatMax)
  }

  /** A value takes part in the range when it is a number other than the no-data value. */
  predicate Counts(noDataValue: real, v: Value) {
    v.Num? && v.v != noDataValue
  }

  function Min(a: real, b: real): real { if a <= b then a else b }
  function Max(a: real, b: real): real { if a >= b then a else b }

  /** The value of a vertex: its elevation when no column is selected, the
      selected extra column when there are that many, NaN otherwise. */
  function ColumnValue(paintedVariableId: nat, elevation: real, columns: seq<Token>): (v: Value)
    ensures paintedVariableId == 0 ==> v == Num(elevation)
    ensures paintedVariableId > 0 && paintedVariableId <= |SplitToDoubles(columns)| ==>
      v == Num(SplitToDoubles(columns)[paintedVariableId - 1])
    ensures paintedVariableId > |SplitToDoubles(columns)| ==> v == NaN
  {
    if paintedVariableId <= 0 then Num(elevation)
    else
      var vs := SplitToDoubles(columns);
      if paintedVariableId <= |vs| then Num(vs[paintedVariableId - 1]) else NaN
  }

  /** With every extra column parseable, the vertex value is what the reader's
      own split yields: the elevation with no column selected, the selected
      column when there are that many, NaN otherwise. */
  lemma ColumnValueWhenColumnsParse(paintedVariableId: nat, elevation: real, columns: seq<Token>)
    requires forall k :: 0 <= k < |columns| ==> columns[k].Number?
    ensures ColumnValue(paintedVariableId, elevation, columns) ==
      if paintedVariableId == 0 then Num(elevation)
      else if paintedVariableId <= |columns| then Num(AsWrittenValues(columns)[paintedVariableId - 1])
      else NaN
  {
    SplitsAgreeWhenAllParse(columns);
  }

  /** Where the two splits part: a blank column list read for column 1 gives NaN
      here, while the split as written yields the single value 0.0. */
  lemma BlankColumnsGiveNaN(elevation: real)
    ensures ColumnValue(1, elevation, [Unparseable]) == NaN
    ensures AsWrittenValues([Unparseable]) == [0.0]
  {
    assert SplitToDoubles([Unparseable]) == [] by { SplitToDoublesSingle(Unparseable); }
  }

  /** Appends a vertex's position and value, widening the range by a counting value. */
  function Append(r: Reader, p: Position, v: Value): (s: Reader)
    ensures s.positions == r.positions + [p] && s.values == r.values + [v]
    ensures s.min <= r.min && s.max >= r.max
    ensures Counts(r.noDataValue, v) ==> s.min <= v.v <= s.max
    ensures !Counts(r.noDataValue, v) ==> s.min == r.min && s.max == r.max
    ensures s == r.(positions := s.positions, values := s.values, min := s.min, max := s.max)
  {
    var r1 := if Counts(r.noDataValue, v) then r.(min := Min(r.min, v.v), max := Max(r.max, v.v)) else r;
    r1.(positions := r.positions + [p], values := r.values + [v])
  }

  /** The parameters' coordinate transformation, when one is set, applied to a point. */
  function Transformed(parameters: GocadParameters.Parameters, transform: Point -> Point, p: Point): (q: Point)
    ensures parameters.coordinateTransformation.None? ==> q == p
    ensures parameters.coordinateTransformation.Some? ==> q == transform(p)
  {
    if parameters.coordinateTransformation.Some? then transform(p) else p
  }

  /** A `VRTX`/`PVRTX` line. The vertex is negated in depth when z is not
      positive, transformed, and stored as latitude y and longitude x. */
  function AddVertex(r: Reader, id: int, x: real, y: real, z: real, columns: seq<Token>, transform: Point -> Point): (o: Result<Reader, ReadError>)
    requires Valid(r)
    ensures o.Failure? <==> id in r.vertexIdMap
    ensures o.Failure? ==> o.error == DuplicateVertexId(id)
    ensures o.Success? ==> var s := o.value;
      && Valid(s)
      && s.vertexIdMap == r.vertexIdMap[id := |r.positions|]
      && |s.positions| == |r.positions| + 1 && s.positions[..|r.positions|] == r.positions
      && |s.values| == |r.values| + 1 && s.values[..|r.values|] == r.values
      && (var p := Transformed(r.parameters, transform, Point(x, y, if r.zPositive then z else -z));
          && s.positions[|r.positions|] == Position(p.y, p.x, p.z)
          && s.values[|r.values|] == ColumnValue(r.paintedVariableId, p.z, columns))
      && s == r.(positions := s.positions, values := s.values, vertexIdMap := s.vertexIdMap, min := s.min, max := s.max)
  {
    if id in r.vertexIdMap then Failure(DuplicateVertexId(id))
    else
      var p := Transformed(r.parameters, transform, Point(x, y, if r.zPositive then z else -z));
      var position := Position(p.y, p.x, p.z);
      var s := Append(r.(vertexIdMap := r.vertexIdMap[id := |r.positions|]), position, ColumnValue(r.paintedVariableId, p.z, columns));
      assert s.positions[..|r.positions|] == r.positions;
      assert s.values[..|r.values|] == r.values;
      Success(s)
  }

  /** An `ATOM`/`PATOM` line: a new vertex id sharing an existing vertex's position. */
  function AddAtom(r: Reader, id: int, refId: int, columns: seq<Token>): (o: Result<Reader, ReadError>)
    requires Valid(r)
    ensures id in r.vertexIdMap ==> o == Failure(DuplicateVertexId(id))
    ensures id !in r.vertexIdMap && refId !in r.vertexIdMap ==> o == Failure(UnknownVertexId(refId))
    ensures o.Success? <==> id !in r.vertexIdMap && refId in r.vertexIdMap
    ensures o.Success? ==> var s := o.value;
      && Valid(s)
      && s.vertexIdMap == r.vertexIdMap[id := |r.positions|]
      && s.positions == r.positions + [r.positions[r.vertexIdMap[refId]]]
      && s.values == r.values + [ColumnValue(r.paintedVariableId, r.positions[r.vertexIdMap[refId]].elevation, columns)]
      && s == r.(positions := s.positions, values := s.values, vertexIdMap := s.vertexIdMap, min := s.min, max := s.max)
  {
    if id in r.vertexIdMap then Failure(DuplicateVertexId(id))
    else if refId !in r.vertexIdMap then Failure(UnknownVertexId(refId))
    else
      var position := r.positions[r.vertexIdMap[refId]];
      Success(Append(r.(vertexIdMap := r.vertexIdMap[id := |r.positions|]), position, ColumnValue(r.paintedVariableId, position.elevation, columns)))
  }

  /** A `PROPERTIES` line: the painted variable's 1-based column, when it is listed. */
  function SelectProperties(r: Reader, names: seq<string>): (s: Reader)
    ensures s == r.(paintedVariableId := s.paintedVariableId)
    ensures r.paintedVariableName.None? ==> s == r
    ensures r.paintedVariableName.Some? ==>
      match Text.FirstEqualIgnoringCase(names, r.paintedVariableName.value)
      case Some(i) => s.paintedVariableId == i + 1
      case None => s == r
  {
    if r.paintedVariableName.None? then r
    else match Text.FirstEqualIgnoringCase(names, r.paintedVariableName.value)
      case Some(i) => r.(paintedVariableId := i + 1)
      case None => r
  }

  /** A `NO_DATA_VALUES` line: the selected column's entry becomes the no-data
      value; with no column selected the access is at index -1 and fails. */
  function SetNoData(r: Reader, tokens: seq<Token>): (o: Result<Reader, ReadError>)
    ensures r.paintedVariableId == 0 ==> o == Failure(NoDataIndexOutOfBounds(-1))
    ensures 0 < r.paintedVariableId <= |SplitToDoubles(tokens)| ==>
      o == Success(r.(noDataValue := SplitToDoubles(tokens)[r.paintedVariableId - 1]))
    ensures r.paintedVariableId > |SplitToDoubles(tokens)| ==> o == Success(r)
  {
    var vs := SplitToDoubles(tokens);
    if r.paintedVariableId <= |vs| then
      if r.paintedVariableId == 0 then Failure(NoDataIndexOutOfBounds(-1))
      else Success(r.(noDataValue := vs[r.paintedVariableId - 1]))
    else Success(r)
  }

  /** With every token parseable, a `NO_DATA_VALUES` line reads the same entry
      the split as written yields, and ignores a column past the last token. */
  lemma SetNoDataWhenTokensParse(r: Reader, tokens: seq<Token>)
    requires forall k :: 0 <= k < |tokens| ==> tokens[k].Number?
    ensures 0 < r.paintedVariableId <= |tokens| ==>
      SetNoData(r, tokens) == Success(r.(noDataValue := AsWrittenValues(tokens)[r.paintedVariableId - 1]))
    ensures r.paintedVariableId > |tokens| ==> SetNoData(r, tokens) == Success(r)
  {
    SplitsAgreeWhenAllParse(tokens);
  }

  /** `addLine`. */
  function AddLine(r: Reader, line: Line, transform: Point -> Point): (o: Result<Reader, ReadError>)
    requires Valid(r)
    ensures o.Success? ==> Valid(o.value)
    ensures o.Success? ==> o.value.min <= r.min && o.value.max >= r.max
    ensures o.Success? && !line.Vertex? && !line.Atom? ==> o.value.min == r.min && o.value.max == r.max && o.value.values == r.values
    ensures line.Triangle? ==> o == Success(r.(triangleIds := r.triangleIds + [line.a, line.b, line.c]))
    ensures line.Name? ==> o == Success(r.(name := Some(line.name)))
    ensures line.ZPositive? ==> o == Success(r.(zPositive := !Text.EqualsIgnoreCase(line.direction, "depth")))
    ensures line.PaintedVariable? ==>
      o == Success(if r.paintedVariableParameter.None? then r.(paintedVariableName := Some(line.variable)) else r)
    ensures line.Unrecognised? ==> o == Success(r)
  {
    match line
    case Vertex(id, x, y, z, columns) => AddVertex(r, id, x, y, z, columns, transform)
    case Atom(id, refId, columns) => AddAtom(r, id, refId, columns)
    case Triangle(a, b, c) => Success(r.(triangleIds := r.triangleIds + [a, b, c]))
    case SolidColor(c) => Success(r.(color := Some(c)))
    case Name(n) => Success(r.(name := Some(n)))
    case ZPositive(direction) => Success(r.(zPositive := !Text.EqualsIgnoreCase(direction, "depth")))
    case PaintedVariable(v) =>
      Success(if r.paintedVariableParameter.None? then r.(paintedVariableName := Some(v)) else r)
    case Properties(names) => Success(SelectProperties(r, names))
    case NoDataValues(tokens) => SetNoData(r, tokens)
    case Unrecognised => Success(r)
  }

  /** The value a vertex or atom line contributes to the range, judged against
      the no-data value in force when the line is read. */
  function CountedValue(r: Reader, line: Line, transform: Point -> Point): Option<real>
    requires Valid(r)
  {
    var o := AddLine(r, line, transform);
    if o.Success? && (line.Vertex? || line.Atom?) && Counts(r.noDataValue, o.value.values[|r.values|])
    then Some(o.value.values[|r.values|].v) else None
  }

  /** Reads lines in order, stopping at the first error. */
  function ReadLines(r: Reader, lines: seq<Line>, transform: Point -> Point): (o: Result<Reader, ReadError>)
    requires Valid(r)
    ensures o.Success? ==> Valid(o.value) && o.value.min <= r.min && o.value.max >= r.max
    decreases |lines|
  {
    if |lines| == 0 then Success(r)
    else match AddLine(r, lines[0], transform)
      case Failure(e) => Failure(e)
      case Success(r1) => ReadLines(r1, lines[1..], transform)
  }

  /** The values that took part in the range while reading `lines`, in order. */
  function Tracked(r: Reader, lines: seq<Line>, transform: Point -> Point): seq<real>
    requires Valid(r)
    decreases |lines|
  {
    if |lines| == 0 then []
    else match AddLine(r, lines[0], transform)
      case Failure(_) => []
      case Success(r1) =>
        (match CountedValue(r, lines[0], transform) case Some(v) => [v] case None => []) + Tracked(r1, lines[1..], transform)
  }

  /** Once a counting value has been read the range is non-empty, and it brackets
      every value that counted when it was read. */
  lemma {:induction false} RangeBracketsTrackedValues(r: Reader, lines: seq<Line>, transform: Point -> Point)
    requires Valid(r)
    requires ReadLines(r, lines, transform).Success?
    ensures var s := ReadLines(r, lines, transform).value;
      && (forall v :: v in Tracked(r, lines, transform) ==> s.min <= v <= s.max)
      && (|Tracked(r, lines, transform)| > 0 ==> s.min <= s.max)
    decreases |lines|
  {
    if |lines| > 0 {
      var r1 := AddLine(r, lines[0], transform).value;
      RangeBracketsTrackedValues(r1, lines[1..], transform);
      var s := ReadLines(r, lines, transform).value;
      assert s == ReadLines(r1, lines[1..], transform).value;
      var head := match CountedValue(r, lines[0], transform) case Some(v) => [v] case None => [];
      assert Tracked(r, lines, transform) == head + Tracked(r1, lines[1..], transform);
      if head != [] {
        AddLineBracketsCountedValue(r, lines[0], transform);
      }
    }
  }

  /** A vertex or atom whose value counts lies within the range afterwards. */
  lemma AddLineBracketsCountedValue(r: Reader, line: Line, transform: Point -> Point)
    requires Valid(r)
    ensures CountedValue(r, line, transform).Some? ==>
      var r1 := AddLine(r, line, transform).value;
      r1.min <= CountedValue(r, line, transform).value <= r1.max
  {
  }

  /** The reader's output shape. */
  datatype Coloring =
    | PerVertex(coloured: seq<bool>)
    | Uniform(color: Color)
    | Unspecified

  datatype Shape = Shape(positions: seq<Position>, indices: seq<nat>, name: string, coloring: Coloring)

  /** Maps triangle vertex ids to position indices, failing on the first unmapped id. */
  function MapIds(ids: seq<int>, vertexIdMap: map<int, nat>): (o: Result<seq<nat>, ReadError>)
    ensures o.Success? <==> forall k :: 0 <= k < |ids| ==> ids[k] in vertexIdMap
    ensures o.Success? ==> |o.value| == |ids| && forall k :: 0 <= k < |ids| ==> o.value[k] == vertexIdMap[ids[k]]
    ensures o.Failure? ==> exists k :: (0 <= k < |ids| && o.error == UnknownVertexId(ids[k]) && ids[k] !in vertexIdMap
                                        && forall j :: 0 <= j < k ==> ids[j] in vertexIdMap)
    decreases |ids|
  {
    if |ids| == 0 then Success([])
    else if ids[0] !in vertexIdMap then Failure(UnknownVertexId(ids[0]))
    else match MapIds(ids[1..], vertexIdMap)
      case Failure(e) =>
        assert exists k :: (0 <= k < |ids| - 1 && e == UnknownVertexId(ids[1..][k]) && ids[1..][k] !in vertexIdMap
                            && forall j :: 0 <= j < k ==> ids[1..][j] in vertexIdMap);
        var k :| 0 <= k < |ids| - 1 && e == UnknownVertexId(ids[1..][k]) && ids[1..][k] !in vertexIdMap
          && forall j :: 0 <= j < k ==> ids[1..][j] in vertexIdMap;
        assert forall j :: 0 <= j < k + 1 ==> ids[j] in vertexIdMap by {
          forall j | 0 <= j < k + 1 ensures ids[j] in vertexIdMap {
            if j > 0 { assert ids[j] == ids[1..][j - 1]; }
          }
        }
        Failure(e)
      case Success(rest) => Success([vertexIdMap[ids[0]]] + rest)
  }

  /** `end`: the triangle ids become position indices (each a valid index), the
      name defaults to "TSurf", and with a colour map each vertex is coloured
      exactly when its value counts against the final no-data value. */
  function End(r: Reader): (o: Result<Shape, ReadError>)
    requires Valid(r)
    ensures o.Success? <==> forall k :: 0 <= k < |r.triangleIds| ==> r.triangleIds[k] in r.vertexIdMap
    ensures o.Failure? ==> o.error.UnknownVertexId? && o.error.id in r.triangleIds && o.error.id !in r.vertexIdMap
    ensures o.Success? ==> var shape := o.value;
      && shape.positions == r.positions
      && |shape.indices| == |r.triangleIds|
      && (forall k :: 0 <= k < |shape.indices| ==> shape.indices[k] == r.vertexIdMap[r.triangleIds[k]] < |r.positions|)
      && shape.name == r.name.GetOr("TSurf")
      && (r.name.None? ==> shape.name == "TSurf")
    ensures o.Success? && r.parameters.colorMap.Some? ==>
      o.value.coloring.PerVertex? && |o.value.coloring.coloured| == |r.positions|
      && forall k :: 0 <= k < |r.values| ==> o.value.coloring.coloured[k] == Counts(r.noDataValue, r.values[k])
  {
    match MapIds(r.triangleIds, r.vertexIdMap)
    case Failure(e) => Failure(e)
    case Success(indices) =>
      var coloring :=
        if r.parameters.colorMap.Some? then PerVertex(seq(|r.values|, k requires 0 <= k < |r.values| => Counts(r.noDataValue, r.values[k])))
        else if r.color.Some? then Uniform(r.color.value)
        else Unspecified;
      assert forall k :: 0 <= k < |indices| ==> indices[k] < |r.positions| by {
        forall k | 0 <= k < |indices| ensures indices[k] < |r.positions| {
          var id := r.triangleIds[k];
          assert id in r.vertexIdMap;
          assert indices[k] == r.vertexIdMap[id];
        }
      }
      Success(Shape(r.positions, indices, r.name.GetOr("TSurf"), coloring))
  }
}
