/**
 * The map screen: pins are created by a long press, shown as annotations,
 * listed by latitude, and a selected annotation is resolved back to its
 * pin by coordinate before the album screen opens. MapKit and UIKit are
 * not modelled; the map is the list of annotations it holds.
 */
module TravelLocations {
  import opened Wrappers
  import opened Coordinates
  import opened Sorting
  import opened AlbumStore

  /** The states of a long-press gesture recognizer. */
  datatype GestureState = Possible | Began | Changed | Ended | Cancelled | Failed

  /** A point annotation on the map. */
  datatype Annotation = Annotation(latitude: Coord, longitude: Coord)

  /** The screen: the store it writes to and the annotations its map shows. */
  datatype MapScreen = MapScreen(store: Store, annotations: seq<Annotation>)

  /** One gesture callback: its state and the map coordinate under the finger. */
  datatype Touch = Touch(state: GestureState, latitude: Coord, longitude: Coord)

  /** Inserts a new pin at the coordinate; pins are never deduplicated. */
  function CreatePin(s: Store, latitude: Coord, longitude: Coord): (r: Store)
    ensures |r.pins| == |s.pins| + 1 && r.pins[..|s.pins|] == s.pins
    ensures r.pins[|s.pins|].latitude == latitude && r.pins[|s.pins|].longitude == longitude
    ensures r.photos == s.photos && r.nextPhoto == s.nextPhoto
    ensures Valid(s) ==> Valid(r)
    ensures Valid(s) ==> forall i | 0 <= i < |s.pins| :: s.pins[i].id != r.pins[|s.pins|].id
    ensures Valid(s) ==> PhotoCount(r, r.pins[|s.pins|]) == 0
  {
    var p := Pin(s.nextPin, latitude, longitude);
    var r := s.(pins := s.pins + [p], nextPin := s.nextPin + 1);
    assert r.pins[..|s.pins|] == s.pins;
    assert Valid(s) ==> PhotosOf(s.photos, p.id) == [] by {
      if Valid(s) {
        PhotosOfNoneOwned(s.photos, p.id);
      }
    }
    r
  }

  /**
   * `addAnnotation(location:)`: one annotation on the map and one new pin
   * in the store, so a map that showed exactly the stored pins still does.
   */
  function AddAnnotation(m: MapScreen, latitude: Coord, longitude: Coord): (r: MapScreen)
    ensures r.store == CreatePin(m.store, latitude, longitude)
    ensures r.annotations == m.annotations + [Annotation(latitude, longitude)]
    ensures InSync(m) ==> InSync(r)
    ensures Valid(m.store) ==> Valid(r.store)
    ensures InSync(m) ==> |r.annotations| == |r.store.pins| == |m.store.pins| + 1
  {
    var s := CreatePin(m.store, latitude, longitude);
    var p := s.pins[|m.store.pins|];
    assert s.pins == m.store.pins + [p];
    AnnotationsOfSnoc(m.store.pins, p);
    MapScreen(s, m.annotations + [Annotation(latitude, longitude)])
  }

  lemma AnnotationsOfSnoc(pins: seq<Pin>, p: Pin)
    ensures AnnotationsOf(pins + [p]) == AnnotationsOf(pins) + [Annotation(p.latitude, p.longitude)]
  {
  }

  /** `longTap`: only the callback in state `.began` adds a pin. */
  function LongTap(m: MapScreen, t: Touch): (r: MapScreen)
    ensures t.state == Began ==> |r.store.pins| == |m.store.pins| + 1
    ensures t.state == Began ==> r.store.pins[|m.store.pins|].latitude == t.latitude
    ensures t.state == Began ==> r.store.pins[|m.store.pins|].longitude == t.longitude
    ensures t.state != Began ==> r == m
    ensures r.store.photos == m.store.photos
  {
    if t.state == Began then AddAnnotation(m, t.latitude, t.longitude) else m
  }

  function CountBegan(ts: seq<Touch>): nat {
    if |ts| == 0 then 0 else (if ts[0].state == Began then 1 else 0) + CountBegan(ts[1..])
  }

  /** The screen after a series of gesture callbacks. */
  function Replay(m: MapScreen, ts: seq<Touch>): MapScreen
    decreases |ts|
  {
    if |ts| == 0 then m else Replay(LongTap(m, ts[0]), ts[1..])
  }

  /** The annotation of each pin, in the order given. */
  function AnnotationsOf(pins: seq<Pin>): (r: seq<Annotation>)
    ensures |r| == |pins|
    ensures forall i | 0 <= i < |pins| :: r[i] == Annotation(pins[i].latitude, pins[i].longitude)
  {
    seq(|pins|, i requires 0 <= i < |pins| => Annotation(pins[i].latitude, pins[i].longitude))
  }

  /** `showPinsOnMap`: one annotation per stored pin, appended in fetch order. */
  function ShowPinsOnMap(m: MapScreen): (r: MapScreen)
    ensures r.store == m.store
    ensures |r.annotations| == |m.annotations| + |m.store.pins|
    ensures r.annotations[..|m.annotations|] == m.annotations
    ensures forall i | 0 <= i < |m.store.pins| ::
      r.annotations[|m.annotations| + i] == Annotation(m.store.pins[i].latitude, m.store.pins[i].longitude)
  {
    var r := m.(annotations := m.annotations + AnnotationsOf(m.store.pins));
    assert r.annotations[..|m.annotations|] == m.annotations;
    r
  }

  /** The map shows exactly one annotation per stored pin, in store order. */
  predicate InSync(m: MapScreen) {
    m.annotations == AnnotationsOf(m.store.pins)
  }

  lemma ShowPinsOnFreshMap(m: MapScreen)
    requires m.annotations == []
    ensures InSync(ShowPinsOnMap(m))
  {
    var r := ShowPinsOnMap(m);
    assert r.annotations == AnnotationsOf(m.store.pins);
  }

  /**
   * Every press that reaches `.began` adds exactly one pin and its
   * annotation, and no other callback adds anything: the map and the store
   * stay one-for-one through any series of gestures.
   */
  lemma {:induction false} ReplayKeepsInSync(m: MapScreen, ts: seq<Touch>)
    requires Valid(m.store) && InSync(m)
    ensures var r := Replay(m, ts);
      && Valid(r.store) && InSync(r)
      && |r.store.pins| == |m.store.pins| + CountBegan(ts)
      && r.store.pins[..|m.store.pins|] == m.store.pins
      && r.store.photos == m.store.photos
    decreases |ts|
  {
    if |ts| > 0 {
      var m1 := LongTap(m, ts[0]);
      if ts[0].state == Began {
        var p := m1.store.pins[|m.store.pins|];
        assert m1.store.pins == m.store.pins + [p];
        assert AnnotationsOf(m1.store.pins) == AnnotationsOf(m.store.pins) + [Annotation(p.latitude, p.longitude)];
      }
      ReplayKeepsInSync(m1, ts[1..]);
      var r := Replay(m1, ts[1..]);
      assert r.store.pins[..|m.store.pins|] == r.store.pins[..|m1.store.pins|][..|m.store.pins|];
    }
  }

  /** The sort descriptor on `latitude`, descending. */
  predicate LatitudeAtLeast(a: Pin, b: Pin) {
    a.latitude >= b.latitude
  }

  /** The pin fetch of the map screen: every stored pin, by latitude descending. */
  function PinListing(s: Store): (r: seq<Pin>)
    ensures forall i, j | 0 <= i < j < |r| :: r[i].latitude >= r[j].latitude
    ensures multiset(r) == multiset(s.pins)
  {
    assert TotalPreorder(LatitudeAtLeast);
    SortBy(LatitudeAtLeast, s.pins)
  }

  /** The selection test of `prepare(for:)`: both coordinates equal, and both present. */
  predicate Matches(p: Pin, latitude: Option<Coord>, longitude: Option<Coord>) {
    latitude == Some(p.latitude) && longitude == Some(p.longitude)
  }

  /** The position of the last pin matching the selected coordinate. */
  function LastMatch(pins: seq<Pin>, latitude: Option<Coord>, longitude: Option<Coord>): (r: Option<nat>)
    ensures r.Some? ==> r.value < |pins| && Matches(pins[r.value], latitude, longitude)
    ensures r.Some? ==> forall j | r.value < j < |pins| :: !Matches(pins[j], latitude, longitude)
    ensures r.None? <==> forall j | 0 <= j < |pins| :: !Matches(pins[j], latitude, longitude)
    decreases |pins|
  {
    if |pins| == 0 then None
    else if Matches(pins[|pins| - 1], latitude, longitude) then Some(|pins| - 1)
    else LastMatch(pins[..|pins| - 1], latitude, longitude)
  }

  /** `firstIndex(of:)` */
  function FirstIndexOf(pins: seq<Pin>, p: Pin): (r: Option<nat>)
    ensures r.Some? <==> p in pins
    ensures r.Some? ==> r.value < |pins| && pins[r.value] == p && p !in pins[..r.value]
    decreases |pins|
  {
    if |pins| == 0 then None
    else if pins[0] == p then Some(0)
    else match FirstIndexOf(pins[1..], p)
      case None => None
      case Some(k) => assert pins[..k + 1] == [pins[0]] + pins[1..][..k]; Some(k + 1)
  }

  /** What the album screen is handed: the last matching pin, or the pin it already had. */
  function Selected(pins: seq<Pin>, latitude: Option<Coord>, longitude: Option<Coord>, current: Option<Pin>)
    : Option<Pin>
  {
    match LastMatch(pins, latitude, longitude)
    case Some(k) => Some(pins[k])
    case None => current
  }

  /**
   * `prepare(for:)`: walks the unsorted fetch and hands the album screen
   * every pin whose coordinates equal the selection, so the last one wins;
   * with no match the screen keeps `current`.
   */
  method PrepareForSegue(pins: seq<Pin>, latitude: Option<Coord>, longitude: Option<Coord>, current: Option<Pin>)
    returns (selected: Option<Pin>)
    ensures selected == Selected(pins, latitude, longitude, current)
    ensures selected != current ==> selected.Some? && selected.value in pins
                                    && Matches(selected.value, latitude, longitude)
    ensures (forall j | 0 <= j < |pins| :: !Matches(pins[j], latitude, longitude)) ==> selected == current
  {
    selected := current;
    var i := 0;
    while i < |pins|
      invariant 0 <= i <= |pins|
      invariant selected == Selected(pins[..i], latitude, longitude, current)
    {
      var pin := pins[i];
      assert pins[..i + 1][..i] == pins[..i];
      if Matches(pin, latitude, longitude) {
        var index := FirstIndexOf(pins, pin);
        if index.Some? {
          selected := Some(pins[index.value]);
        }
      }
      i := i + 1;
    }
    assert pins[..|pins|] == pins;
  }

  /**
   * What `prepare(for:)` hands over, stated without the backward search:
   * the pin at any matching position with no match after it, or, when no
   * pin matches, the pin the album screen already had.
   */
  lemma SelectedIsLastMatching(pins: seq<Pin>, latitude: Option<Coord>, longitude: Option<Coord>, current: Option<Pin>)
    ensures (forall j | 0 <= j < |pins| :: !Matches(pins[j], latitude, longitude))
            ==> Selected(pins, latitude, longitude, current) == current
    ensures forall k | 0 <= k < |pins| && Matches(pins[k], latitude, longitude)
                       && (forall j | k < j < |pins| :: !Matches(pins[j], latitude, longitude))
            :: Selected(pins, latitude, longitude, current) == Some(pins[k])
  {
  }

  /** With two pins at the selected coordinate, the later one in fetch order is handed over. */
  lemma DuplicateCoordinatesLastWins(a: Pin, b: Pin, current: Option<Pin>)
    requires a.latitude == b.latitude && a.longitude == b.longitude
    ensures Selected([a, b], Some(a.latitude), Some(a.longitude), current) == Some(b)
  {
  }
}
