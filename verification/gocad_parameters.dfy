/** `GocadReaderParameters`: the reader configuration record, its documented
    defaults, its construction from an attribute-value list, and its accessors. */
module GocadParameters {
  import opened Wrappers

  datatype ByteOrder = LittleEndian | BigEndian

  /** A GDAL coordinate transformation object, known only by reference. */
  datatype CoordinateTransformation = CoordinateTransformation(ref: nat)

  /** A colour map object, known only by reference. */
  datatype ColorMap = ColorMap(ref: nat)

  datatype Parameters = Parameters(
    byteOrder: ByteOrder,
    voxetSubsamplingU: int,
    voxetSubsamplingV: int,
    voxetSubsamplingW: int,
    voxetDynamicSubsampling: bool,
    voxetDynamicSubsamplingSamplesPerAxis: int,
    voxetBilinearMinification: bool,
    coordinateTransformation: Option<CoordinateTransformation>,
    colorMap: Option<ColorMap>)

  /** The no-argument constructor's field initialisers. */
  const Defaults := Parameters(LittleEndian, 1, 1, 1, true, 50, true, None, None)

  /** The fields of the record. */
  datatype Field =
    | ByteOrderField
    | SubsamplingUField
    | SubsamplingVField
    | SubsamplingWField
    | DynamicSubsamplingField
    | SamplesPerAxisField
    | BilinearMinificationField
    | CoordinateTransformationField
    | ColorMapField

  /** A field together with a value for it: what one setter is given and one
      getter returns. */
  datatype Setting =
    | ByteOrderSetting(byteOrder: ByteOrder)
    | SubsamplingUSetting(u: int)
    | SubsamplingVSetting(v: int)
    | SubsamplingWSetting(w: int)
    | DynamicSubsamplingSetting(dynamic: bool)
    | SamplesPerAxisSetting(samples: int)
    | BilinearMinificationSetting(bilinear: bool)
    | CoordinateTransformationSetting(transformation: Option<CoordinateTransformation>)
    | ColorMapSetting(colorMap: Option<ColorMap>)

  function FieldOf(s: Setting): Field {
    match s
    case ByteOrderSetting(_) => ByteOrderField
    case SubsamplingUSetting(_) => SubsamplingUField
    case SubsamplingVSetting(_) => SubsamplingVField
    case SubsamplingWSetting(_) => SubsamplingWField
    case DynamicSubsamplingSetting(_) => DynamicSubsamplingField
    case SamplesPerAxisSetting(_) => SamplesPerAxisField
    case BilinearMinificationSetting(_) => BilinearMinificationField
    case CoordinateTransformationSetting(_) => CoordinateTransformationField
    case ColorMapSetting(_) => ColorMapField
  }

  /** The getters (`getByteOrder`, `getVoxetSubsamplingU`, ..., `getColorMap`). */
  function Get(p: Parameters, f: Field): (s: Setting)
    ensures FieldOf(s) == f
  {
    match f
    case ByteOrderField => ByteOrderSetting(p.byteOrder)
    case SubsamplingUField => SubsamplingUSetting(p.voxetSubsamplingU)
    case SubsamplingVField => SubsamplingVSetting(p.voxetSubsamplingV)
    case SubsamplingWField => SubsamplingWSetting(p.voxetSubsamplingW)
    case DynamicSubsamplingField => DynamicSubsamplingSetting(p.voxetDynamicSubsampling)
    case SamplesPerAxisField => SamplesPerAxisSetting(p.voxetDynamicSubsamplingSamplesPerAxis)
    case BilinearMinificationField => BilinearMinificationSetting(p.voxetBilinearMinification)
    case CoordinateTransformationField => CoordinateTransformationSetting(p.coordinateTransformation)
    case ColorMapField => ColorMapSetting(p.colorMap)
  }

  /** The setters: the getter of the set field returns the value just set, and
      every other getter returns what it returned before. */
  function Set(p: Parameters, s: Setting): (p': Parameters)
    ensures Get(p', FieldOf(s)) == s
    ensures forall f :: f != FieldOf(s) ==> Get(p', f) == Get(p, f)
  {
    match s
    case ByteOrderSetting(b) => p.(byteOrder := b)
    case SubsamplingUSetting(u) => p.(voxetSubsamplingU := u)
    case SubsamplingVSetting(v) => p.(voxetSubsamplingV := v)
    case SubsamplingWSetting(w) => p.(voxetSubsamplingW := w)
    case DynamicSubsamplingSetting(d) => p.(voxetDynamicSubsampling := d)
    case SamplesPerAxisSetting(n) => p.(voxetDynamicSubsamplingSamplesPerAxis := n)
    case BilinearMinificationSetting(b) => p.(voxetBilinearMinification := b)
    case CoordinateTransformationSetting(t) => p.(coordinateTransformation := t)
    case ColorMapSetting(c) => p.(colorMap := c)
  }

  /** The record is determined by what its getters return. */
  lemma {:induction false} GettersDetermineRecord(p: Parameters, q: Parameters)
    requires forall f :: Get(p, f) == Get(q, f)
    ensures p == q
  {
    assert Get(p, ByteOrderField) == Get(q, ByteOrderField);
    assert Get(p, SubsamplingUField) == Get(q, SubsamplingUField);
    assert Get(p, SubsamplingVField) == Get(q, SubsamplingVField);
    assert Get(p, SubsamplingWField) == Get(q, SubsamplingWField);
    assert Get(p, DynamicSubsamplingField) == Get(q, DynamicSubsamplingField);
    assert Get(p, SamplesPerAxisField) == Get(q, SamplesPerAxisField);
    assert Get(p, BilinearMinificationField) == Get(q, BilinearMinificationField);
    assert Get(p, CoordinateTransformationField) == Get(q, CoordinateTransformationField);
    assert Get(p, ColorMapField) == Get(q, ColorMapField);
  }

  /** Setting a field to the value it already holds changes nothing. */
  lemma SetWhatIsThereIsNoChange(p: Parameters, f: Field)
    ensures Set(p, Get(p, f)) == p
  {
    forall g ensures Get(Set(p, Get(p, f)), g) == Get(p, g) {
    }
    GettersDetermineRecord(Set(p, Get(p, f)), p);
  }

  /** The keys of an `AVList` the constructor reads; an absent key is a null value. */
  datatype AttributeValues = AttributeValues(
    byteOrder: Option<ByteOrder>,
    subsamplingU: Option<int>,
    subsamplingV: Option<int>,
    subsamplingW: Option<int>,
    dynamicSubsampling: Option<bool>,
    dynamicSubsamplingSamplesPerAxis: Option<int>,
    bilinearMinification: Option<bool>,
    coordinateSystem: Option<string>,
    colorMap: Option<ColorMap>)

  /** The setting the constructor applies for a field: present exactly when the
      field's key is present. A coordinate system is turned into a transformation
      by `transformationTo`, which may yield null. */
  function Present(av: AttributeValues, transformationTo: string -> Option<CoordinateTransformation>, f: Field): (o: Option<Setting>)
    ensures o.Some? ==> FieldOf(o.value) == f
  {
    match f
    case ByteOrderField => if av.byteOrder.Some? then Some(ByteOrderSetting(av.byteOrder.value)) else None
    case SubsamplingUField => if av.subsamplingU.Some? then Some(SubsamplingUSetting(av.subsamplingU.value)) else None
    case SubsamplingVField => if av.subsamplingV.Some? then Some(SubsamplingVSetting(av.subsamplingV.value)) else None
    case SubsamplingWField => if av.subsamplingW.Some? then Some(SubsamplingWSetting(av.subsamplingW.value)) else None
    case DynamicSubsamplingField =>
      if av.dynamicSubsampling.Some? then Some(DynamicSubsamplingSetting(av.dynamicSubsampling.value)) else None
    case SamplesPerAxisField =>
      if av.dynamicSubsamplingSamplesPerAxis.Some? then Some(SamplesPerAxisSetting(av.dynamicSubsamplingSamplesPerAxis.value)) else None
    case BilinearMinificationField =>
      if av.bilinearMinification.Some? then Some(BilinearMinificationSetting(av.bilinearMinification.value)) else None
    case CoordinateTransformationField =>
      if av.coordinateSystem.Some? then Some(CoordinateTransformationSetting(transformationTo(av.coordinateSystem.value))) else None
    case ColorMapField => if av.colorMap.Some? then Some(ColorMapSetting(av.colorMap)) else None
  }

  /** The order in which the constructor consults the keys. */
  const ConstructorOrder := [ByteOrderField, SubsamplingUField, SubsamplingVField, SubsamplingWField,
    DynamicSubsamplingField, SamplesPerAxisField, BilinearMinificationField, CoordinateTransformationField, ColorMapField]

  /** The setter calls the constructor makes, in order, for the given keys. */
  function Overrides(av: AttributeValues, transformationTo: string -> Option<CoordinateTransformation>, fields: seq<Field>): seq<Setting>
    decreases |fields|
  {
    if |fields| == 0 then []
    else
      var o := Present(av, transformationTo, fields[0]);
      (if o.Some? then [o.value] else []) + Overrides(av, transformationTo, fields[1..])
  }

  /** Calls the setters in order. */
  function SetAll(p: Parameters, ss: seq<Setting>): Parameters
    decreases |ss|
  {
    if |ss| == 0 then p else SetAll(Set(p, ss[0]), ss[1..])
  }

  /** The last setting in `ss` for field `f`, if any. */
  function LastFor(ss: seq<Setting>, f: Field): (o: Option<Setting>)
    decreases |ss|
  {
    if |ss| == 0 then None
    else if FieldOf(ss[|ss| - 1]) == f then Some(ss[|ss| - 1])
    else LastFor(ss[..|ss| - 1], f)
  }

  /** After a run of setter calls a getter returns the last value set for its
      field, or what it returned before when none was. */
  lemma {:induction false} GetAfterSetAll(p: Parameters, ss: seq<Setting>, f: Field)
    ensures Get(SetAll(p, ss), f) == LastFor(ss, f).GetOr(Get(p, f))
    decreases |ss|
  {
    if |ss| > 0 {
      var last := ss[|ss| - 1];
      var init := ss[..|ss| - 1];
      SetAllSnoc(p, init, last);
      assert ss == init + [last];
      GetAfterSetAll(p, init, f);
    }
  }

  lemma {:induction false} SetAllSnoc(p: Parameters, ss: seq<Setting>, s: Setting)
    ensures SetAll(p, ss + [s]) == Set(SetAll(p, ss), s)
    decreases |ss|
  {
    if |ss| > 0 {
      assert (ss + [s])[1..] == ss[1..] + [s];
      SetAllSnoc(Set(p, ss[0]), ss[1..], s);
    }
  }

  lemma {:induction false} LastForConcat(a: seq<Setting>, b: seq<Setting>, f: Field)
    ensures LastFor(a + b, f) == (if LastFor(b, f).Some? then LastFor(b, f) else LastFor(a, f))
    decreases |b|
  {
    if |b| == 0 {
      assert a + b == a;
    } else {
      assert (a + b)[|a + b| - 1] == b[|b| - 1];
      assert (a + b)[..|a + b| - 1] == a + b[..|b| - 1];
      LastForConcat(a, b[..|b| - 1], f);
    }
  }

  /** Over distinct fields, the last override for `f` is the constructor's setting
      for `f` when `f` is consulted, and there is none otherwise. */
  lemma {:induction false} OverridesPick(av: AttributeValues, transformationTo: string -> Option<CoordinateTransformation>, fields: seq<Field>, f: Field)
    requires forall i, j :: 0 <= i < j < |fields| ==> fields[i] != fields[j]
    ensures LastFor(Overrides(av, transformationTo, fields), f) == (if f in fields then Present(av, transformationTo, f) else None)
    decreases |fields|
  {
    if |fields| > 0 {
      var o := Present(av, transformationTo, fields[0]);
      var head := if o.Some? then [o.value] else [];
      OverridesPick(av, transformationTo, fields[1..], f);
      LastForConcat(head, Overrides(av, transformationTo, fields[1..]), f);
      if head != [] {
        assert LastFor(head, f) == (if FieldOf(o.value) == f then Some(o.value) else LastFor([], f));
      }
    }
  }

  lemma ConstructorOrderPick(av: AttributeValues, transformationTo: string -> Option<CoordinateTransformation>, f: Field)
    ensures LastFor(Overrides(av, transformationTo, ConstructorOrder), f) == Present(av, transformationTo, f)
  {
    var fs := ConstructorOrder;
    assert forall i, j :: 0 <= i < j < |fs| ==> fs[i] != fs[j];
    assert f in fs by {
      match f
      case ByteOrderField => assert fs[0] == f;
      case SubsamplingUField => assert fs[1] == f;
      case SubsamplingVField => assert fs[2] == f;
      case SubsamplingWField => assert fs[3] == f;
      case DynamicSubsamplingField => assert fs[4] == f;
      case SamplesPerAxisField => assert fs[5] == f;
      case BilinearMinificationField => assert fs[6] == f;
      case CoordinateTransformationField => assert fs[7] == f;
      case ColorMapField => assert fs[8] == f;
    }
    OverridesPick(av, transformationTo, fs, f);
  }

  /** The `AVList` constructor: starting from the defaults, each field takes the
      attribute's value exactly when its key is present, and keeps its default
      otherwise. */
  function FromAttributeValues(av: AttributeValues, transformationTo: string -> Option<CoordinateTransformation>): (p: Parameters)
    ensures forall f :: Get(p, f) == Present(av, transformationTo, f).GetOr(Get(Defaults, f))
  {
    var ss := Overrides(av, transformationTo, ConstructorOrder);
    var p := SetAll(Defaults, ss);
    forall f ensures Get(p, f) == Present(av, transformationTo, f).GetOr(Get(Defaults, f)) {
      GetAfterSetAll(Defaults, ss, f);
      ConstructorOrderPick(av, transformationTo, f);
    }
    p
  }

  /** What the getters of a record say about its fields when each one returns
      the attribute's value if present and the default otherwise. */
  lemma {:induction false} OverriddenFields(av: AttributeValues, transformationTo: string -> Option<CoordinateTransformation>, p: Parameters)
    requires forall f :: Get(p, f) == Present(av, transformationTo, f).GetOr(Get(Defaults, f))
    ensures p.byteOrder == av.byteOrder.GetOr(Defaults.byteOrder)
    ensures p.voxetSubsamplingU == av.subsamplingU.GetOr(Defaults.voxetSubsamplingU)
    ensures p.voxetSubsamplingV == av.subsamplingV.GetOr(Defaults.voxetSubsamplingV)
    ensures p.voxetSubsamplingW == av.subsamplingW.GetOr(Defaults.voxetSubsamplingW)
    ensures p.voxetDynamicSubsampling == av.dynamicSubsampling.GetOr(Defaults.voxetDynamicSubsampling)
    ensures p.voxetDynamicSubsamplingSamplesPerAxis == av.dynamicSubsamplingSamplesPerAxis.GetOr(Defaults.voxetDynamicSubsamplingSamplesPerAxis)
    ensures p.voxetBilinearMinification == av.bilinearMinification.GetOr(Defaults.voxetBilinearMinification)
    ensures p.coordinateTransformation == (if av.coordinateSystem.Some? then transformationTo(av.coordinateSystem.value) else None)
    ensures p.colorMap == (if av.colorMap.Some? then av.colorMap else None)
  {
    assert Get(p, ByteOrderField) == Present(av, transformationTo, ByteOrderField).GetOr(Get(Defaults, ByteOrderField));
    assert Get(p, SubsamplingUField) == Present(av, transformationTo, SubsamplingUField).GetOr(Get(Defaults, SubsamplingUField));
    assert Get(p, SubsamplingVField) == Present(av, transformationTo, SubsamplingVField).GetOr(Get(Defaults, SubsamplingVField));
    assert Get(p, SubsamplingWField) == Present(av, transformationTo, SubsamplingWField).GetOr(Get(Defaults, SubsamplingWField));
    assert Get(p, DynamicSubsamplingField) == Present(av, transformationTo, DynamicSubsamplingField).GetOr(Get(Defaults, DynamicSubsamplingField));
    assert Get(p, SamplesPerAxisField) == Present(av, transformationTo, SamplesPerAxisField).GetOr(Get(Defaults, SamplesPerAxisField));
    assert Get(p, BilinearMinificationField) == Present(av, transformationTo, BilinearMinificationField).GetOr(Get(Defaults, BilinearMinificationField));
    assert Get(p, CoordinateTransformationField) == Present(av, transformationTo, CoordinateTransformationField).GetOr(Get(Defaults, CoordinateTransformationField));
    assert Get(p, ColorMapField) == Present(av, transformationTo, ColorMapField).GetOr(Get(Defaults, ColorMapField));
  }

  /** Field by field: a present key overrides, an absent key keeps the default;
      the coordinate transformation is built from the coordinate system key. */
  lemma FromAttributeValuesFields(av: AttributeValues, transformationTo: string -> Option<CoordinateTransformation>)
    ensures var p := FromAttributeValues(av, transformationTo);
      && p.byteOrder == av.byteOrder.GetOr(Defaults.byteOrder)
      && p.voxetSubsamplingU == av.subsamplingU.GetOr(Defaults.voxetSubsamplingU)
      && p.voxetSubsamplingV == av.subsamplingV.GetOr(Defaults.voxetSubsamplingV)
      && p.voxetSubsamplingW == av.subsamplingW.GetOr(Defaults.voxetSubsamplingW)
      && p.voxetDynamicSubsampling == av.dynamicSubsampling.GetOr(Defaults.voxetDynamicSubsampling)
      && p.voxetDynamicSubsamplingSamplesPerAxis == av.dynamicSubsamplingSamplesPerAxis.GetOr(Defaults.voxetDynamicSubsamplingSamplesPerAxis)
      && p.voxetBilinearMinification == av.bilinearMinification.GetOr(Defaults.voxetBilinearMinification)
      && p.coordinateTransformation == (if av.coordinateSystem.Some? then transformationTo(av.coordinateSystem.value) else None)
      && p.colorMap == (if av.colorMap.Some? then av.colorMap else None)
  {
    OverriddenFields(av, transformationTo, FromAttributeValues(av, transformationTo));
  }

  /** An empty attribute list yields exactly the defaults. */
  lemma EmptyAttributesGiveDefaults(transformationTo: string -> Option<CoordinateTransformation>)
    ensures FromAttributeValues(AttributeValues(None, None, None, None, None, None, None, None, None), transformationTo) == Defaults
  {
    var av := AttributeValues(None, None, None, None, None, None, None, None, None);
    OverriddenFields(av, transformationTo, FromAttributeValues(av, transformationTo));
  }
}
