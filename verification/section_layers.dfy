/** `ExtendedLayerList`: a layer list in which each registered section owns an
    invisible marker layer, so that layers added for a section go directly
    after its marker. */
module SectionLayers {
  import opened Wrappers

  /** A layer: one of the user's, or the dummy layer standing for a section. */
  datatype Layer = UserLayer(id: nat) | SectionMarker(serial: nat)

  datatype Section = Section(key: nat)

  /** The layer list, the section-to-marker map, and the serial number the next
      marker gets (each `new DummyLayer()` is a distinct object). */
  datatype SectionList = SectionList(layers: seq<Layer>, sectionMap: map<Section, Layer>, nextSerial: nat)

  /** Every marker in use was made before the next serial number. */
  predicate Fresh(l: SectionList) {
    && (forall i :: 0 <= i < |l.layers| && l.layers[i].SectionMarker? ==> l.layers[i].serial < l.nextSerial)
    && (forall s :: s in l.sectionMap && l.sectionMap[s].SectionMarker? ==> l.sectionMap[s].serial < l.nextSerial)
  }

  const Empty := SectionList([], map[], 0)

  /** `indexOf`: the first position holding `x`, if any. */
  function IndexOf(xs: seq<Layer>, x: Layer): (o: Option<nat>)
    ensures o.Some? ==> o.value < |xs| && xs[o.value] == x && x !in xs[..o.value]
    ensures o.None? <==> x !in xs
    decreases |xs|
  {
    if |xs| == 0 then None
    else if xs[0] == x then Some(0)
    else match IndexOf(xs[1..], x)
      case Some(k) =>
        assert xs[..k + 1] == [xs[0]] + xs[1..][..k];
        Some(k + 1)
      case None => None
  }

  /** `registerSectionObject`: a fresh marker is appended and the section is
      (re)mapped to it; a marker the section had before stays in the list. */
  function RegisterSection(l: SectionList, s: Section): (l': SectionList)
    ensures |l'.layers| == |l.layers| + 1 && l'.layers[..|l.layers|] == l.layers
    ensures s in l'.sectionMap && l'.layers[|l.layers|] == l'.sectionMap[s]
    ensures forall t :: t != s ==> (t in l'.sectionMap <==> t in l.sectionMap)
    ensures forall t :: t != s && t in l.sectionMap ==> l'.sectionMap[t] == l.sectionMap[t]
    ensures Fresh(l) ==> Fresh(l') && l'.sectionMap[s] !in l.layers
  {
    var marker := SectionMarker(l.nextSerial);
    var l' := SectionList(l.layers + [marker], l.sectionMap[s := marker], l.nextSerial + 1);
    assert l'.layers[..|l.layers|] == l.layers;
    l'
  }

  /** Where the section's marker is in the list, if the section is mapped and its
      marker is still there. */
  function MarkerIndex(l: SectionList, s: Section): (o: Option<nat>)
    ensures o.Some? ==> s in l.sectionMap && o.value < |l.layers| && l.layers[o.value] == l.sectionMap[s]
    ensures o.None? <==> s !in l.sectionMap || l.sectionMap[s] !in l.layers
  {
    if s in l.sectionMap then IndexOf(l.layers, l.sectionMap[s]) else None
  }

  /** `addAllFromSection`: the layers go, in order, right after the section's
      marker, or at the end when the section has no marker in the list. */
  function AddAllFromSection(l: SectionList, s: Section, c: seq<Layer>): (l': SectionList)
    ensures l'.sectionMap == l.sectionMap && l'.nextSerial == l.nextSerial
    ensures |l'.layers| == |l.layers| + |c|
    ensures MarkerIndex(l, s).None? ==> l'.layers == l.layers + c
    ensures MarkerIndex(l, s).Some? ==> var i := MarkerIndex(l, s).value;
      && l'.layers[..i + 1] == l.layers[..i + 1]
      && l'.layers[i + 1..i + 1 + |c|] == c
      && l'.layers[i + 1 + |c|..] == l.layers[i + 1..]
  {
    match MarkerIndex(l, s)
    case None => l.(layers := l.layers + c)
    case Some(i) =>
      var layers := l.layers[..i + 1] + c + l.layers[i + 1..];
      assert layers[..i + 1] == l.layers[..i + 1];
      assert layers[i + 1..i + 1 + |c|] == c;
      assert layers[i + 1 + |c|..] == l.layers[i + 1..];
      l.(layers := layers)
  }

  /** The elements of `xs` that are not in `c`, in their original order. */
  function Without(xs: seq<Layer>, c: seq<Layer>): (r: seq<Layer>)
    ensures forall x :: x in r <==> x in xs && x !in c
    decreases |xs|
  {
    if |xs| == 0 then []
    else
      var rest := Without(xs[1..], c);
      if xs[0] in c then rest else [xs[0]] + rest
  }

  /** Each layer not in `c` occurs as often after the removal as before. */
  lemma {:induction false} WithoutCounts(xs: seq<Layer>, c: seq<Layer>, x: Layer)
    ensures multiset(Without(xs, c))[x] == if x in c then 0 else multiset(xs)[x]
    decreases |xs|
  {
    if |xs| > 0 {
      WithoutCounts(xs[1..], c, x);
      assert xs == [xs[0]] + xs[1..];
      assert multiset(xs) == multiset{xs[0]} + multiset(xs[1..]);
    }
  }

  /** `removeAllFromSection`: every occurrence of every layer of `c` is removed,
      whichever section is named. */
  function RemoveAllFromSection(l: SectionList, s: Section, c: seq<Layer>): (l': SectionList)
    ensures l'.sectionMap == l.sectionMap && l'.nextSerial == l.nextSerial
    ensures forall x :: x in l'.layers <==> x in l.layers && x !in c
    ensures forall x :: x !in c ==> multiset(l'.layers)[x] == multiset(l.layers)[x]
  {
    var l' := l.(layers := Without(l.layers, c));
    forall x | x !in c ensures multiset(l'.layers)[x] == multiset(l.layers)[x] {
      WithoutCounts(l.layers, c, x);
    }
    l'
  }

  lemma {:induction false} WithoutConcat(xs: seq<Layer>, ys: seq<Layer>, c: seq<Layer>)
    ensures Without(xs + ys, c) == Without(xs, c) + Without(ys, c)
    decreases |xs|
  {
    if |xs| > 0 {
      assert (xs + ys)[0] == xs[0];
      assert (xs + ys)[1..] == xs[1..] + ys;
      WithoutConcat(xs[1..], ys, c);
    } else {
      assert xs + ys == ys;
    }
  }

  lemma {:induction false} WithoutDisjoint(xs: seq<Layer>, c: seq<Layer>)
    requires forall x :: x in c ==> x !in xs
    ensures Without(xs, c) == xs
    decreases |xs|
  {
    if |xs| > 0 {
      WithoutDisjoint(xs[1..], c);
    }
  }

  lemma {:induction false} WithoutCovered(xs: seq<Layer>, c: seq<Layer>)
    requires forall k :: 0 <= k < |xs| ==> xs[k] in c
    ensures Without(xs, c) == []
    decreases |xs|
  {
    if |xs| > 0 {
      WithoutCovered(xs[1..], c);
    }
  }

  /** Removing what was just added to a section, under any section name, gives
      back the list as it was, provided none of the added layers was in it. */
  lemma RemoveUndoesAdd(l: SectionList, s: Section, t: Section, c: seq<Layer>)
    requires forall x :: x in c ==> x !in l.layers
    ensures RemoveAllFromSection(AddAllFromSection(l, s, c), t, c) == l
  {
    var l' := AddAllFromSection(l, s, c);
    var a, b;
    if MarkerIndex(l, s).None? {
      a, b := l.layers, [];
      assert l'.layers == a + c + b;
    } else {
      var i := MarkerIndex(l, s).value;
      a, b := l.layers[..i + 1], l.layers[i + 1..];
      assert l'.layers == a + c + b by {
        assert l'.layers == l'.layers[..i + 1] + l'.layers[i + 1..i + 1 + |c|] + l'.layers[i + 1 + |c|..];
      }
    }
    assert l.layers == a + b;
    WithoutSplice(a, b, c);
  }

  lemma WithoutSplice(a: seq<Layer>, b: seq<Layer>, c: seq<Layer>)
    requires forall x :: x in c ==> x !in a && x !in b
    ensures Without(a + c + b, c) == a + b
  {
    WithoutCovered(c, c);
    WithoutConcat(a + c, b, c);
    WithoutConcat(a, c, c);
    WithoutDisjoint(a, c);
    WithoutDisjoint(b, c);
    assert Without(a + c, c) == a;
  }

  /** Layers added for a section that was just registered on a list whose
      markers are all older go at the very end, right after the new marker. */
  lemma RegisterThenAdd(l: SectionList, s: Section, c: seq<Layer>)
    requires Fresh(l)
    ensures var r := RegisterSection(l, s);
      AddAllFromSection(r, s, c).layers == l.layers + [r.sectionMap[s]] + c
  {
    var r := RegisterSection(l, s);
    var m := r.sectionMap[s];
    assert m !in l.layers;
    assert r.layers == l.layers + [m];
    assert IndexOf(r.layers, m) == Some(|l.layers|) by {
      var o := IndexOf(r.layers, m);
      assert r.layers[..|l.layers|] == l.layers;
    }
    var l' := AddAllFromSection(r, s, c);
    assert l'.layers == l'.layers[..|l.layers| + 1] + l'.layers[|l.layers| + 1..];
  }
}
