/**
 * The persisted object graph of the app: pins, photos, and the two
 * relationships between them. Object identity is an id drawn from a
 * counter, so a newly inserted object never equals an existing one. The
 * store's queries (a pin's photos, the album sorted by URL) are here; the
 * screens' transitions are in TravelLocations and PhotoAlbum.
 */
module AlbumStore {
  import opened Wrappers
  import opened Coordinates
  import opened Responses
  import opened Text
  import opened Sorting

  type PinId = nat
  type PhotoId = nat

  /** A marked location. */
  datatype Pin = Pin(id: PinId, latitude: Coord, longitude: Coord)

  /** One cached image: its remote URL, its bytes once downloaded, and its owning pin. */
  datatype Photo = Photo(id: PhotoId, url: string, image: Option<Bytes>, pin: PinId)

  /** The managed-object context: pins and photos in insertion order, and the next fresh ids. */
  datatype Store = Store(pins: seq<Pin>, photos: seq<Photo>, nextPin: nat, nextPhoto: nat)

  const Empty: Store := Store([], [], 0, 0)

  predicate DistinctPhotoIds(ps: seq<Photo>) {
    forall i, j | 0 <= i < j < |ps| :: ps[i].id != ps[j].id
  }

  /** Some stored pin has identity `id`. */
  predicate HasPin(pins: seq<Pin>, id: PinId) {
    exists j | 0 <= j < |pins| :: pins[j].id == id
  }

  /**
   * Identities are unique and below the counters, and every photo's owner
   * is a stored pin.
   */
  predicate Valid(s: Store) {
    && (forall i, j | 0 <= i < j < |s.pins| :: s.pins[i].id != s.pins[j].id)
    && (forall i | 0 <= i < |s.pins| :: s.pins[i].id < s.nextPin)
    && DistinctPhotoIds(s.photos)
    && (forall i | 0 <= i < |s.photos| :: s.photos[i].id < s.nextPhoto && s.photos[i].pin < s.nextPin)
    && (forall i | 0 <= i < |s.photos| :: HasPin(s.pins, s.photos[i].pin))
  }

  lemma EmptyValid()
    ensures Valid(Empty)
  {
  }

  /** The photos owned by pin `pin`, in insertion order: the relationship `pin.photos`. */
  function PhotosOf(ps: seq<Photo>, pin: PinId): (r: seq<Photo>)
    ensures |r| <= |ps|
    decreases |ps|
  {
    if |ps| == 0 then []
    else
      assert ps == ps[..|ps| - 1] + [ps[|ps| - 1]];
      PhotosOf(ps[..|ps| - 1], pin) + (if ps[|ps| - 1].pin == pin then [ps[|ps| - 1]] else [])
  }

  /** A photo is among a pin's photos exactly when it is in the store and owned by the pin. */
  lemma {:induction false} PhotosOfMembers(ps: seq<Photo>, pin: PinId)
    ensures forall p :: p in PhotosOf(ps, pin) <==> p in ps && p.pin == pin
    decreases |ps|
  {
    if |ps| > 0 {
      var init, last := ps[..|ps| - 1], ps[|ps| - 1];
      InitLast(ps);
      PhotosOfMembers(init, pin);
    }
  }

  /** `pin.photos.count` */
  function PhotoCount(s: Store, pin: Pin): nat {
    |PhotosOf(s.photos, pin.id)|
  }

  /** A pin's photo count is zero exactly when no stored photo is owned by it. */
  lemma PhotoCountZero(s: Store, pin: Pin)
    ensures PhotoCount(s, pin) == 0 <==> forall p | p in s.photos :: p.pin != pin.id
  {
    PhotosOfMembers(s.photos, pin.id);
    if PhotoCount(s, pin) != 0 {
      assert PhotosOf(s.photos, pin.id)[0] in PhotosOf(s.photos, pin.id);
    }
  }

  /** The sort descriptor on `url`, ascending. */
  predicate UrlLe(p: Photo, q: Photo) {
    LexLe(p.url, q.url)
  }

  lemma UrlOrder()
    ensures TotalPreorder(UrlLe)
  {
    forall p: Photo, q: Photo
      ensures UrlLe(p, q) || UrlLe(q, p)
    {
      LexLeTotal(p.url, q.url);
    }
    forall p: Photo, q: Photo, o: Photo | UrlLe(p, q) && UrlLe(q, o)
      ensures UrlLe(p, o)
    {
      LexLeTransitive(p.url, q.url, o.url);
    }
  }

  /**
   * The fetch behind a pin's photo grid: every photo whose owner is the pin,
   * sorted by URL ascending.
   */
  function Album(s: Store, pin: Pin): (r: seq<Photo>)
    ensures forall p :: p in r <==> p in s.photos && p.pin == pin.id
    ensures forall i, j | 0 <= i < j < |r| :: LexLe(r[i].url, r[j].url)
    ensures multiset(r) == multiset(PhotosOf(s.photos, pin.id))
    ensures |r| == PhotoCount(s, pin)
  {
    UrlOrder();
    PhotosOfMembers(s.photos, pin.id);
    var owned := PhotosOf(s.photos, pin.id);
    var r := SortBy(UrlLe, owned);
    assert forall p :: p in r <==> p in multiset(owned);
    r
  }

  /** The photos whose id is not in `ids`, in their original order. */
  function WithoutIds(ps: seq<Photo>, ids: set<PhotoId>): (r: seq<Photo>)
    ensures |r| <= |ps|
    decreases |ps|
  {
    if |ps| == 0 then []
    else
      assert ps == ps[..|ps| - 1] + [ps[|ps| - 1]];
      WithoutIds(ps[..|ps| - 1], ids) + (if ps[|ps| - 1].id in ids then [] else [ps[|ps| - 1]])
  }

  /** A photo survives the removal exactly when it was there and its id is not removed. */
  lemma {:induction false} WithoutIdsMembers(ps: seq<Photo>, ids: set<PhotoId>)
    ensures forall p :: p in WithoutIds(ps, ids) <==> p in ps && p.id !in ids
    decreases |ps|
  {
    if |ps| > 0 {
      var init, last := ps[..|ps| - 1], ps[|ps| - 1];
      InitLast(ps);
      WithoutIdsMembers(init, ids);
    }
  }

  lemma {:induction false} WithoutIdsTwice(ps: seq<Photo>, a: set<PhotoId>, b: set<PhotoId>)
    ensures WithoutIds(WithoutIds(ps, a), b) == WithoutIds(ps, a + b)
    decreases |ps|
  {
    if |ps| > 0 {
      var init, last := ps[..|ps| - 1], ps[|ps| - 1];
      WithoutIdsTwice(init, a, b);
      var w := WithoutIds(init, a);
      var tail := if last.id in a + b then [] else [last];
      assert WithoutIds(ps, a + b) == WithoutIds(init, a + b) + tail;
      if last.id in a {
        assert WithoutIds(ps, a) == w;
      } else {
        var wa := w + [last];
        assert WithoutIds(ps, a) == wa;
        assert wa[..|wa| - 1] == w;
        assert WithoutIds(wa, b) == WithoutIds(w, b) + tail;
      }
    }
  }

  lemma {:induction false} WithoutIdsDistinct(ps: seq<Photo>, ids: set<PhotoId>)
    requires DistinctPhotoIds(ps)
    ensures DistinctPhotoIds(WithoutIds(ps, ids))
    decreases |ps|
  {
    if |ps| > 0 {
      var init, last := ps[..|ps| - 1], ps[|ps| - 1];
      WithoutIdsDistinct(init, ids);
      var w := WithoutIds(init, ids);
      WithoutIdsMembers(init, ids);
      forall i | 0 <= i < |w|
        ensures w[i].id != last.id
      {
        assert w[i] in init;
        var k :| 0 <= k < |init| && init[k] == w[i];
        assert ps[k] == w[i];
      }
    }
  }

  /** Removing photos that pin `pin` does not own leaves that pin's photos exactly as they were. */
  lemma {:induction false} WithoutIdsKeepsPin(ps: seq<Photo>, ids: set<PhotoId>, pin: PinId)
    requires forall p | p in ps && p.pin == pin :: p.id !in ids
    ensures PhotosOf(WithoutIds(ps, ids), pin) == PhotosOf(ps, pin)
    decreases |ps|
  {
    if |ps| > 0 {
      var init, last := ps[..|ps| - 1], ps[|ps| - 1];
      assert ps == init + [last];
      assert forall p | p in init :: p in ps;
      WithoutIdsKeepsPin(init, ids, pin);
      var w := WithoutIds(init, ids);
      var kept := if last.id in ids then [] else [last];
      assert WithoutIds(ps, ids) == w + kept;
      PhotosOfAppend(w, kept, pin);
      PhotosOfAppend(init, [last], pin);
      if last.id in ids {
        assert PhotosOf([last], pin) == [];
      }
    }
  }

  /** Removing one photo by id takes exactly one photo away from its owner. */
  lemma RemoveOneCount(ps: seq<Photo>, t: Photo)
    requires DistinctPhotoIds(ps) && t in ps
    ensures |PhotosOf(WithoutIds(ps, {t.id}), t.pin)| + 1 == |PhotosOf(ps, t.pin)|
  {
    var k :| 0 <= k < |ps| && ps[k] == t;
    RemoveAt(ps, k);
    var before, after := ps[..k], ps[k + 1..];
    SplitAround(ps, k);
    PhotosOfAppend(before + [t], after, t.pin);
    PhotosOfAppend(before, [t], t.pin);
    PhotosOfAppend(before, after, t.pin);
    assert PhotosOf([t], t.pin) == [t];
  }

  /** With distinct ids, removing the id of the photo at `k` cuts out exactly that position. */
  lemma {:induction false} RemoveAt(ps: seq<Photo>, k: nat)
    requires DistinctPhotoIds(ps) && k < |ps|
    ensures WithoutIds(ps, {ps[k].id}) == ps[..k] + ps[k + 1..]
    decreases |ps|
  {
    var n := |ps| - 1;
    var init, last := ps[..n], ps[n];
    var ids := {ps[k].id};
    assert WithoutIds(ps, ids) == WithoutIds(init, ids) + (if last.id in ids then [] else [last]);
    if k == n {
      forall i | 0 <= i < |init|
        ensures init[i].id !in ids
      {
        assert init[i] == ps[i];
      }
      WithoutIdsIdentity(init, ids);
      calc {
        WithoutIds(ps, ids);
        WithoutIds(init, ids) + [];
        init;
        { assert ps[k + 1..] == []; }
        ps[..k] + ps[k + 1..];
      }
    } else {
      CutBeforeLast(ps, k);
      assert last.id !in ids;
      RemoveAt(init, k);
      var a, b := init[..k], init[k + 1..];
      calc {
        WithoutIds(ps, ids);
        WithoutIds(init, ids) + [last];
        a + b + [last];
        { AppendAssoc(a, b, [last]); }
        a + (b + [last]);
        ps[..k] + ps[k + 1..];
      }
    }
  }

  lemma PhotosOfSingle(p: Photo, pin: PinId)
    ensures PhotosOf([p], pin) == if p.pin == pin then [p] else []
  {
    assert [p][..0] == [];
  }

  lemma AppendAssoc<T>(a: seq<T>, b: seq<T>, c: seq<T>)
    ensures a + b + c == a + (b + c)
  {
  }

  lemma InitLast<T>(xs: seq<T>)
    requires |xs| > 0
    ensures xs == xs[..|xs| - 1] + [xs[|xs| - 1]]
  {
  }

  /** Cutting position `k` out of a list, seen from its last element. */
  lemma CutBeforeLast<T>(xs: seq<T>, k: nat)
    requires k + 1 < |xs|
    ensures xs[..k] == xs[..|xs| - 1][..k]
    ensures xs[k + 1..] == xs[..|xs| - 1][k + 1..] + [xs[|xs| - 1]]
    ensures xs[..|xs| - 1][k] == xs[k]
  {
  }

  lemma SplitAround<T>(xs: seq<T>, k: nat)
    requires k < |xs|
    ensures xs == xs[..k] + [xs[k]] + xs[k + 1..]
  {
  }

  lemma {:induction false} WithoutIdsIdentity(ps: seq<Photo>, ids: set<PhotoId>)
    requires forall p | p in ps :: p.id !in ids
    ensures WithoutIds(ps, ids) == ps
    decreases |ps|
  {
    if |ps| > 0 {
      WithoutIdsIdentity(ps[..|ps| - 1], ids);
    }
  }

  lemma {:induction false} PhotosOfAppend(ps: seq<Photo>, qs: seq<Photo>, pin: PinId)
    ensures PhotosOf(ps + qs, pin) == PhotosOf(ps, pin) + PhotosOf(qs, pin)
    decreases |qs|
  {
    if |qs| > 0 {
      var qi := qs[..|qs| - 1];
      assert (ps + qs)[..|ps + qs| - 1] == ps + qi;
      PhotosOfAppend(ps, qi, pin);
    } else {
      assert ps + qs == ps;
    }
  }

  /** A sequence in which every photo is owned by `pin` is its own filter for `pin`. */
  lemma {:induction false} PhotosOfAllOwned(qs: seq<Photo>, pin: PinId)
    requires forall i | 0 <= i < |qs| :: qs[i].pin == pin
    ensures PhotosOf(qs, pin) == qs
    decreases |qs|
  {
    if |qs| > 0 {
      var init, last := qs[..|qs| - 1], qs[|qs| - 1];
      InitLast(qs);
      PhotosOfAllOwned(init, pin);
      calc {
        PhotosOf(qs, pin);
        PhotosOf(init, pin) + [last];
        init + [last];
      }
    }
  }

  /** Within a list of distinct ids, different photos have different ids. */
  lemma IdsDiffer(ps: seq<Photo>)
    requires DistinctPhotoIds(ps)
    ensures forall a, b | a in ps && b in ps && a != b :: a.id != b.id
  {
    forall a, b | a in ps && b in ps && a != b
      ensures a.id != b.id
    {
      var i :| 0 <= i < |ps| && ps[i] == a;
      var j :| 0 <= j < |ps| && ps[j] == b;
      assert i != j;
    }
  }

  /** A sequence with no photo owned by `pin` contributes nothing to it. */
  lemma {:induction false} PhotosOfNoneOwned(qs: seq<Photo>, pin: PinId)
    requires forall i | 0 <= i < |qs| :: qs[i].pin != pin
    ensures PhotosOf(qs, pin) == []
    decreases |qs|
  {
    if |qs| > 0 {
      PhotosOfNoneOwned(qs[..|qs| - 1], pin);
    }
  }
}
