/**
 * The album screen of one pin: the first-visit population, the "new
 * collection" replacement, deleting a tapped photo, writing downloaded
 * bytes onto a photo, and the grid's item count. Each network completion
 * is one atomic step whose reply is an input; the main-queue hops are not
 * modelled.
 */
module PhotoAlbum {
  import opened Wrappers
  import opened Coordinates
  import opened Responses
  import opened Endpoints
  import opened Client
  import opened AlbumStore

  /** Page size of every album search. */
  const PerPage: int := 15
  /** Page requested when an empty album is first shown. */
  const FirstPage: int := 1
  /** Page requested by "new collection". */
  const NewCollectionPage: int := 2

  /** Why the process stopped: a force-unwrap of a missing page or of an unparseable URL. */
  datatype Fault = NilResponse | BadUrl(trap: Trap)

  /**
   * The end of a store-changing step. A crash still leaves behind whatever
   * was saved before it, so both cases carry a store.
   */
  datatype Outcome = Completed(store: Store) | Crashed(fault: Fault, store: Store)

  /** The end of `downloadPictures`: the store, and whether the "No Images" alert was shown. */
  datatype Populated = Populated(outcome: Outcome, noImagesAlert: bool)

  /** The end of a byte write: the store, and whether showing the image traps. */
  datatype ByteWrite = ByteWrite(store: Store, cellTraps: bool)

  /** The search the album screen issues for `pin`. */
  function SearchFor(pin: Pin, page: int): Endpoint {
    GetLocationUrl(pin.latitude, pin.longitude, PerPage, page)
  }

  /**
   * With a key and a coordinate rendering made of URL characters (digits,
   * `.`, `-`, `e`, `inf`, `nan` all are), the search URL of the album
   * screen always parses: its force-unwrap never traps.
   */
  lemma SearchNeverTraps(key: string, describe: Describe, pin: Pin, page: int)
    requires UrlSafe(key) && '&' !in key
    requires forall c: Coord :: UrlSafe(describe(c))
    ensures EndpointUrl(SearchFor(pin, page), key, describe).Some?
  {
    SearchUrlParses(key, describe, pin.latitude, pin.longitude, PerPage, page);
  }

  /** `viewDidLoad`: a search is issued, for the first page, only when the pin has no photos. */
  function InitialRequest(s: Store, pin: Pin): (r: Option<Endpoint>)
    ensures r.Some? <==> PhotoCount(s, pin) == 0
    ensures r.Some? ==> r.value.GetLocationUrl? && r.value.page == 1 && r.value.perPage == 15
    ensures r.Some? ==> r.value.latitude == pin.latitude && r.value.longitude == pin.longitude
  {
    if PhotoCount(s, pin) == 0 then Some(SearchFor(pin, FirstPage)) else None
  }

  predicate DescriptorSafe(d: PhotoDetails) {
    UrlSafe(d.server) && UrlSafe(d.id) && UrlSafe(d.secret)
  }

  /** The position of the first descriptor whose image URL does not parse, or `|ds|`. */
  function FirstUnsafe(ds: seq<PhotoDetails>): (k: nat)
    ensures k <= |ds|
    ensures forall i | 0 <= i < k :: DescriptorSafe(ds[i])
    ensures k < |ds| ==> !DescriptorSafe(ds[k])
    decreases |ds|
  {
    if |ds| == 0 || !DescriptorSafe(ds[0]) then 0 else 1 + FirstUnsafe(ds[1..])
  }

  /** A photo record with a URL and no bytes yet. */
  function Placeholder(id: PhotoId, pin: PinId, d: PhotoDetails): Photo {
    Photo(id, PhotoString(d.server, d.id, d.secret), None, pin)
  }

  /** One placeholder per descriptor, in order, with consecutive fresh ids from `base`. */
  function Placeholders(base: nat, pin: PinId, ds: seq<PhotoDetails>): (r: seq<Photo>)
    ensures |r| == |ds|
    ensures forall i | 0 <= i < |ds| :: r[i] == Placeholder(base + i, pin, ds[i])
  {
    seq(|ds|, i requires 0 <= i < |ds| => Placeholder(base + i, pin, ds[i]))
  }

  /** `s` with the placeholders for `ds` appended. */
  function WithPlaceholders(s: Store, pin: PinId, ds: seq<PhotoDetails>): Store {
    s.(photos := s.photos + Placeholders(s.nextPhoto, pin, ds), nextPhoto := s.nextPhoto + |ds|)
  }

  /**
   * The loop of `downloadPictures`: for each descriptor, build its URL (a
   * crash when it does not parse), insert a placeholder owned by the pin,
   * and save. A crash keeps the placeholders saved before it.
   */
  function AddPlaceholders(s: Store, pin: PinId, ds: seq<PhotoDetails>): (r: Outcome)
    ensures r.store == WithPlaceholders(s, pin, ds[..FirstUnsafe(ds)])
    ensures r.Completed? <==> FirstUnsafe(ds) == |ds|
    ensures r.Crashed? ==> r.fault.BadUrl?
    decreases |ds|
  {
    if |ds| == 0 then Completed(s)
    else
      match PhotoUrl(ds[0].server, ds[0].id, ds[0].secret)
      case Err(t) => Crashed(BadUrl(t), s)
      case Ok(url) =>
        var r := AddPlaceholders(InsertPhoto(s, Photo(s.nextPhoto, url, None, pin)), pin, ds[1..]);
        assert Photo(s.nextPhoto, url, None, pin) == Placeholder(s.nextPhoto, pin, ds[0]);
        FirstUnsafeStep(ds);
        PlaceholdersCons(s, pin, ds[0], ds[1..][..FirstUnsafe(ds[1..])]);
        r
  }

  /** Saves one new photo, issuing the next photo id. */
  function InsertPhoto(s: Store, p: Photo): Store {
    s.(photos := s.photos + [p], nextPhoto := s.nextPhoto + 1)
  }

  lemma FirstUnsafeStep(ds: seq<PhotoDetails>)
    requires |ds| > 0 && DescriptorSafe(ds[0])
    ensures ds[..FirstUnsafe(ds)] == [ds[0]] + ds[1..][..FirstUnsafe(ds[1..])]
  {
    var k := FirstUnsafe(ds[1..]);
    assert FirstUnsafe(ds) == k + 1;
    TakeAfterHead(ds, k);
  }

  lemma TakeAfterHead<T>(xs: seq<T>, k: nat)
    requires k < |xs|
    ensures xs[..k + 1] == [xs[0]] + xs[1..][..k]
  {
  }

  /** Inserting one placeholder, then the rest, is inserting them all. */
  lemma PlaceholdersCons(s: Store, pin: PinId, d: PhotoDetails, rest: seq<PhotoDetails>)
    ensures WithPlaceholders(InsertPhoto(s, Placeholder(s.nextPhoto, pin, d)), pin, rest) == WithPlaceholders(s, pin, [d] + rest)
  {
    assert [Placeholder(s.nextPhoto, pin, d)] + Placeholders(s.nextPhoto + 1, pin, rest) == Placeholders(s.nextPhoto, pin, [d] + rest);
  }

  /** Placeholders owned by a stored pin keep the store valid. */
  lemma PlaceholdersValid(s: Store, pin: PinId, ds: seq<PhotoDetails>)
    requires Valid(s) && HasPin(s.pins, pin)
    ensures Valid(WithPlaceholders(s, pin, ds))
  {
    var r := WithPlaceholders(s, pin, ds);
    var n := |s.photos|;
    forall i | n <= i < |r.photos|
      ensures r.photos[i].pin == pin && r.photos[i].id < r.nextPhoto
    {
      assert r.photos[i] == Placeholders(s.nextPhoto, pin, ds)[i - n];
    }
    forall i, j | 0 <= i < j < |r.photos|
      ensures r.photos[i].id != r.photos[j].id
    {
      if j >= n {
        assert r.photos[j].id == s.nextPhoto + (j - n);
        if i >= n {
          assert r.photos[i].id == s.nextPhoto + (i - n);
        } else {
          assert r.photos[i] == s.photos[i];
        }
      }
    }
  }

  /**
   * `downloadPictures`: shows the "No Images" alert when the page reports
   * zero results, then force-unwraps the page (a nil page crashes before
   * any change) and inserts one placeholder per descriptor.
   */
  function DownloadPictures(s: Store, pin: Pin, reply: Completion<Photos>): (r: Populated)
    requires Valid(s) && pin in s.pins
    ensures r.noImagesAlert <==> reply.value.Some? && reply.value.value.total == 0
    ensures reply.value.None? ==> r.outcome == Crashed(NilResponse, s)
    ensures reply.value.Some? ==>
      var ds := reply.value.value.photo;
      && r.outcome.store == WithPlaceholders(s, pin.id, ds[..FirstUnsafe(ds)])
      && (r.outcome.Completed? <==> FirstUnsafe(ds) == |ds|)
    ensures Valid(r.outcome.store)
  {
    var alert := reply.value.Some? && reply.value.value.total == 0;
    match reply.value
    case None => Populated(Crashed(NilResponse, s), alert)
    case Some(page) =>
      var ds := page.photo;
      assert HasPin(s.pins, pin.id) by {
        var k :| 0 <= k < |s.pins| && s.pins[k] == pin;
      }
      PlaceholdersValid(s, pin.id, ds[..FirstUnsafe(ds)]);
      Populated(AddPlaceholders(s, pin.id, ds), alert)
  }

  /**
   * `viewDidLoad`: an album that already has photos is left alone; an empty
   * one is populated from the reply to the request `InitialRequest` issues.
   * `search` stands for the network: the reply each request receives.
   */
  function ViewDidLoad(s: Store, pin: Pin, search: Endpoint -> Completion<Photos>): (r: Populated)
    requires Valid(s) && pin in s.pins
    ensures PhotoCount(s, pin) != 0 ==> r == Populated(Completed(s), false)
    ensures PhotoCount(s, pin) == 0 ==> r == DownloadPictures(s, pin, search(SearchFor(pin, FirstPage)))
    ensures Valid(r.outcome.store)
  {
    match InitialRequest(s, pin)
    case None => Populated(Completed(s), false)
    case Some(request) => DownloadPictures(s, pin, search(request))
  }

  /**
   * The first visit of an empty album that completes leaves the pin owning
   * exactly one placeholder per descriptor of the page-1 reply, and no
   * other pin changes; a visit to an album with photos changes nothing;
   * and once the first visit brought at least one photo, every later visit
   * changes nothing, whatever the network replies.
   */
  lemma ViewDidLoadPopulatesOnce(s: Store, pin: Pin, search: Endpoint -> Completion<Photos>,
                                 r: Populated, later: Endpoint -> Completion<Photos>)
    requires Valid(s) && pin in s.pins && r == ViewDidLoad(s, pin, search)
    ensures PhotoCount(s, pin) != 0 ==> r.outcome.store == s && !r.noImagesAlert
    ensures PhotoCount(s, pin) == 0 && r.outcome.Completed? ==>
      var reply := search(SearchFor(pin, FirstPage));
      && reply.value.Some?
      && PhotosOf(r.outcome.store.photos, pin.id) == Placeholders(s.nextPhoto, pin.id, reply.value.value.photo)
      && (forall q: PinId | q != pin.id :: PhotosOf(r.outcome.store.photos, q) == PhotosOf(s.photos, q))
    ensures PhotoCount(s, pin) == 0 && r.outcome.Completed? && PhotoCount(r.outcome.store, pin) > 0 ==>
      pin in r.outcome.store.pins
      && ViewDidLoad(r.outcome.store, pin, later) == Populated(Completed(r.outcome.store), false)
  {
    if PhotoCount(s, pin) == 0 && r.outcome.Completed? {
      var reply := search(SearchFor(pin, FirstPage));
      PopulateAddsOnePerDescriptor(s, pin, reply, r);
      assert PhotosOf(s.photos, pin.id) == [];
      assert r.outcome.store.pins == s.pins;
    }
  }

  /**
   * A completed population adds exactly one photo per descriptor to the
   * pin, in order, each with the descriptor's image URL and no bytes; the
   * photos already there and the photos of every other pin are unchanged.
   */
  lemma PopulateAddsOnePerDescriptor(s: Store, pin: Pin, reply: Completion<Photos>, r: Populated)
    requires Valid(s) && pin in s.pins
    requires r == DownloadPictures(s, pin, reply) && r.outcome.Completed?
    ensures reply.value.Some?
    ensures var after := r.outcome.store;
      var ds := reply.value.value.photo;
      && PhotosOf(after.photos, pin.id) == PhotosOf(s.photos, pin.id) + Placeholders(s.nextPhoto, pin.id, ds)
      && PhotoCount(after, pin) == PhotoCount(s, pin) + |ds|
      && (forall i | 0 <= i < |ds| :: PhotoUrl(ds[i].server, ds[i].id, ds[i].secret) == Ok(after.photos[|s.photos| + i].url))
      && (forall q: PinId | q != pin.id :: PhotosOf(after.photos, q) == PhotosOf(s.photos, q))
      && after.photos[..|s.photos|] == s.photos
  {
    var ds := reply.value.value.photo;
    assert FirstUnsafe(ds) == |ds|;
    assert ds[..|ds|] == ds;
    assert r.outcome.store == WithPlaceholders(s, pin.id, ds);
    WithPlaceholdersShape(s, pin.id, ds);
    PlaceholderUrls(s.nextPhoto, pin.id, ds);
    var after := r.outcome.store;
    assert PhotosOf(after.photos, pin.id) == PhotosOf(s.photos, pin.id) + Placeholders(s.nextPhoto, pin.id, ds);
    assert PhotoCount(after, pin) == PhotoCount(s, pin) + |ds|;
    assert forall i | 0 <= i < |ds| :: PhotoUrl(ds[i].server, ds[i].id, ds[i].secret) == Ok(after.photos[|s.photos| + i].url);
  }

  /**
   * Appending placeholders for a pin: the old list is a prefix, the pin's
   * photos gain exactly the placeholders, every other pin's stay the same.
   */
  lemma WithPlaceholdersShape(s: Store, pin: PinId, ds: seq<PhotoDetails>)
    ensures var after := WithPlaceholders(s, pin, ds);
      && after.photos[..|s.photos|] == s.photos
      && (forall i | 0 <= i < |ds| :: after.photos[|s.photos| + i] == Placeholders(s.nextPhoto, pin, ds)[i])
      && PhotosOf(after.photos, pin) == PhotosOf(s.photos, pin) + Placeholders(s.nextPhoto, pin, ds)
      && (forall q: PinId | q != pin :: PhotosOf(after.photos, q) == PhotosOf(s.photos, q))
  {
    PlaceholdersAppended(s, pin, ds);
    PlaceholdersOwned(s, pin, ds);
    forall q: PinId | q != pin
      ensures PhotosOf(WithPlaceholders(s, pin, ds).photos, q) == PhotosOf(s.photos, q)
    {
      PlaceholdersNotOwned(s, pin, ds, q);
    }
  }

  lemma PlaceholdersAppended(s: Store, pin: PinId, ds: seq<PhotoDetails>)
    ensures WithPlaceholders(s, pin, ds).photos[..|s.photos|] == s.photos
    ensures forall i | 0 <= i < |ds| ::
      WithPlaceholders(s, pin, ds).photos[|s.photos| + i] == Placeholders(s.nextPhoto, pin, ds)[i]
  {
  }

  lemma PlaceholdersOwned(s: Store, pin: PinId, ds: seq<PhotoDetails>)
    ensures PhotosOf(WithPlaceholders(s, pin, ds).photos, pin) == PhotosOf(s.photos, pin) + Placeholders(s.nextPhoto, pin, ds)
  {
    var news := Placeholders(s.nextPhoto, pin, ds);
    PhotosOfAppend(s.photos, news, pin);
    PhotosOfAllOwned(news, pin);
  }

  lemma PlaceholdersNotOwned(s: Store, pin: PinId, ds: seq<PhotoDetails>, q: PinId)
    requires q != pin
    ensures PhotosOf(WithPlaceholders(s, pin, ds).photos, q) == PhotosOf(s.photos, q)
  {
    var news := Placeholders(s.nextPhoto, pin, ds);
    PhotosOfAppend(s.photos, news, q);
    PhotosOfNoneOwned(news, q);
  }

  /** Each placeholder carries the URL its descriptor parses to. */
  lemma PlaceholderUrls(base: nat, pin: PinId, ds: seq<PhotoDetails>)
    requires forall i | 0 <= i < |ds| :: DescriptorSafe(ds[i])
    ensures forall i | 0 <= i < |ds| ::
      PhotoUrl(ds[i].server, ds[i].id, ds[i].secret) == Ok(Placeholders(base, pin, ds)[i].url)
  {
  }

  /**
   * A page reporting zero results shows the alert, and when it carries no
   * descriptors the store is left as it was.
   */
  lemma NoResultsLeavesAlbum(s: Store, pin: Pin, page: Photos)
    requires Valid(s) && pin in s.pins
    requires page.total == 0 && page.photo == []
    ensures DownloadPictures(s, pin, Completion(Some(page), None)) == Populated(Completed(s), true)
  {
    assert WithPlaceholders(s, pin.id, []) == s;
  }

  /** The number of grid items is the number of photos the pin owns. */
  function ItemCount(s: Store, pin: Pin): (n: nat)
    ensures n == |PhotosOf(s.photos, pin.id)|
  {
    |Album(s, pin)|
  }

  /** The ids of a list of photos. */
  function IdsOf(ps: seq<Photo>): set<PhotoId> {
    set p | p in ps :: p.id
  }

  lemma IdsOfSplit(ps: seq<Photo>)
    requires |ps| > 0
    ensures IdsOf(ps) == {ps[0].id} + IdsOf(ps[1..])
  {
    assert ps == [ps[0]] + ps[1..];
    assert forall p | p in ps :: p == ps[0] || p in ps[1..];
  }

  /** Deletes one photo by id. */
  function RemovePhoto(s: Store, id: PhotoId): Store {
    s.(photos := WithoutIds(s.photos, {id}))
  }

  /** Removing photos keeps the store's identities valid. */
  lemma WithoutIdsValid(s: Store, ids: set<PhotoId>)
    requires Valid(s)
    ensures Valid(s.(photos := WithoutIds(s.photos, ids)))
  {
    var r := WithoutIds(s.photos, ids);
    WithoutIdsDistinct(s.photos, ids);
    WithoutIdsMembers(s.photos, ids);
    forall i | 0 <= i < |r|
      ensures r[i].id < s.nextPhoto && r[i].pin < s.nextPin
    {
      assert r[i] in s.photos;
    }
  }

  /** The delete loop of `newCollection`: each fetched photo deleted, one save each. */
  function DeleteEach(s: Store, victims: seq<Photo>): (r: Store)
    ensures r.photos == WithoutIds(s.photos, IdsOf(victims))
    ensures r.pins == s.pins && r.nextPin == s.nextPin && r.nextPhoto == s.nextPhoto
    decreases |victims|
  {
    if |victims| == 0 then
      DeleteNothing(s.photos);
      s
    else
      var r := DeleteEach(RemovePhoto(s, victims[0].id), victims[1..]);
      WithoutIdsTwice(s.photos, {victims[0].id}, IdsOf(victims[1..]));
      IdsOfSplit(victims);
      r
  }

  lemma DeleteNothing(ps: seq<Photo>)
    ensures WithoutIds(ps, IdsOf([])) == ps
  {
    assert IdsOf([]) == {};
    WithoutIdsIdentity(ps, {});
  }

  /** The search "new collection" issues: page 2 at the pin's coordinate, 15 per page. */
  function NewCollectionRequest(pin: Pin): (r: Endpoint)
    ensures r.GetLocationUrl? && r.page == 2 && r.perPage == 15
    ensures r.latitude == pin.latitude && r.longitude == pin.longitude
    ensures r != SearchFor(pin, FirstPage)
  {
    SearchFor(pin, NewCollectionPage)
  }

  /**
   * `newCollection`: deletes every photo of the pin's album, then
   * populates the album from the reply to the page-2 search. The photos of
   * every other pin are untouched; the pin ends up owning exactly the new
   * placeholders, none of which shares an identity with a deleted photo. A
   * nil page still crashes, after the old album is already gone.
   */
  function NewCollection(s: Store, pin: Pin, search: Endpoint -> Completion<Photos>): (r: Populated)
    requires Valid(s) && pin in s.pins
    ensures forall q: PinId | q != pin.id :: PhotosOf(r.outcome.store.photos, q) == PhotosOf(s.photos, q)
    ensures var reply := search(NewCollectionRequest(pin));
      reply.value.Some? ==>
      var ds := reply.value.value.photo;
      PhotosOf(r.outcome.store.photos, pin.id) == Placeholders(s.nextPhoto, pin.id, ds[..FirstUnsafe(ds)])
    ensures search(NewCollectionRequest(pin)).value.None? ==> r.outcome.Crashed? && PhotoCount(r.outcome.store, pin) == 0
    ensures r.noImagesAlert <==> var reply := search(NewCollectionRequest(pin));
      reply.value.Some? && reply.value.value.total == 0
    ensures r.outcome.store.pins == s.pins && r.outcome.store.nextPin == s.nextPin
    ensures r.outcome.store.nextPhoto >= s.nextPhoto
    ensures Valid(r.outcome.store)
  {
    var reply := search(NewCollectionRequest(pin));
    var album := Album(s, pin);
    var cleared := DeleteEach(s, album);
    ClearedAlbum(s, pin, album, cleared);
    var r := DownloadPictures(cleared, pin, reply);
    NewCollectionShape(s, pin, cleared, reply, r);
    r
  }

  lemma ClearedAlbum(s: Store, pin: Pin, album: seq<Photo>, cleared: Store)
    requires Valid(s) && pin in s.pins
    requires album == Album(s, pin) && cleared == DeleteEach(s, album)
    ensures Valid(cleared) && pin in cleared.pins && cleared.nextPhoto == s.nextPhoto
    ensures PhotosOf(cleared.photos, pin.id) == []
    ensures forall q: PinId | q != pin.id :: PhotosOf(cleared.photos, q) == PhotosOf(s.photos, q)
  {
    var ids := IdsOf(album);
    WithoutIdsValid(s, ids);
    ClearedEmpty(s.photos, pin.id, album);
    forall q: PinId | q != pin.id
      ensures PhotosOf(cleared.photos, q) == PhotosOf(s.photos, q)
    {
      ClearedOthers(s.photos, pin.id, album, q);
    }
  }

  /** Deleting every photo a pin owns leaves it none. */
  lemma ClearedEmpty(ps: seq<Photo>, pin: PinId, album: seq<Photo>)
    requires forall p | p in ps && p.pin == pin :: p in album
    ensures PhotosOf(WithoutIds(ps, IdsOf(album)), pin) == []
  {
    var w := WithoutIds(ps, IdsOf(album));
    InIdsOf(album);
    WithoutIdsMembers(ps, IdsOf(album));
    forall i | 0 <= i < |w|
      ensures w[i].pin != pin
    {
      assert w[i] in ps;
    }
    PhotosOfNoneOwned(w, pin);
  }

  lemma InIdsOf(ps: seq<Photo>)
    ensures forall p | p in ps :: p.id in IdsOf(ps)
  {
  }

  /** Deleting photos of one pin leaves another pin's photos exactly as they were. */
  lemma ClearedOthers(ps: seq<Photo>, pin: PinId, album: seq<Photo>, q: PinId)
    requires DistinctPhotoIds(ps) && q != pin
    requires forall p | p in album :: p in ps && p.pin == pin
    ensures PhotosOf(WithoutIds(ps, IdsOf(album)), q) == PhotosOf(ps, q)
  {
    IdsDiffer(ps);
    WithoutIdsKeepsPin(ps, IdsOf(album), q);
  }

  lemma NewCollectionShape(s: Store, pin: Pin, cleared: Store, reply: Completion<Photos>, r: Populated)
    requires Valid(cleared) && pin in cleared.pins && cleared.nextPhoto == s.nextPhoto
    requires PhotosOf(cleared.photos, pin.id) == []
    requires forall q: PinId | q != pin.id :: PhotosOf(cleared.photos, q) == PhotosOf(s.photos, q)
    requires r == DownloadPictures(cleared, pin, reply)
    ensures forall q: PinId | q != pin.id :: PhotosOf(r.outcome.store.photos, q) == PhotosOf(s.photos, q)
    ensures reply.value.Some? ==>
      var ds := reply.value.value.photo;
      PhotosOf(r.outcome.store.photos, pin.id) == Placeholders(s.nextPhoto, pin.id, ds[..FirstUnsafe(ds)])
    ensures reply.value.None? ==> PhotosOf(r.outcome.store.photos, pin.id) == []
  {
    if reply.value.Some? {
      var ds := reply.value.value.photo;
      WithPlaceholdersShape(cleared, pin.id, ds[..FirstUnsafe(ds)]);
    }
  }

  /** No photo of the album after "new collection" is one of the photos it replaced. */
  lemma NewCollectionDisjoint(s: Store, pin: Pin, search: Endpoint -> Completion<Photos>)
    requires Valid(s) && pin in s.pins
    ensures var after := NewCollection(s, pin, search).outcome.store;
      forall p, q | p in Album(s, pin) && q in Album(after, pin) :: p.id != q.id
  {
    var after := NewCollection(s, pin, search).outcome.store;
    NewCollectionFresh(s, pin, search);
    forall p, q | p in Album(s, pin) && q in Album(after, pin)
      ensures p.id != q.id
    {
      var i :| 0 <= i < |s.photos| && s.photos[i] == p;
      PhotosOfMembers(after.photos, pin.id);
      assert q in PhotosOf(after.photos, pin.id);
    }
  }

  /** Every photo the pin owns after "new collection" has an id issued by it. */
  lemma NewCollectionFresh(s: Store, pin: Pin, search: Endpoint -> Completion<Photos>)
    requires Valid(s) && pin in s.pins
    ensures var after := NewCollection(s, pin, search).outcome.store;
      forall q | q in PhotosOf(after.photos, pin.id) :: q.id >= s.nextPhoto
  {
    var reply := search(NewCollectionRequest(pin));
    if reply.value.Some? {
      var ds := reply.value.value.photo;
      var news := Placeholders(s.nextPhoto, pin.id, ds[..FirstUnsafe(ds)]);
      assert forall k | 0 <= k < |news| :: news[k].id >= s.nextPhoto;
    }
  }

  /**
   * `didSelectItemAt`: deletes the photo shown at `index` of the pin's
   * grid. Exactly that photo goes; the pin's count drops by one and every
   * other photo stays as it was.
   */
  function DeletePhoto(s: Store, pin: Pin, index: nat): (r: Store)
    requires Valid(s) && index < |Album(s, pin)|
    ensures var t := Album(s, pin)[index];
      && t in s.photos && t.pin == pin.id
      && (forall p :: p in r.photos <==> p in s.photos && p.id != t.id)
    ensures PhotoCount(r, pin) == PhotoCount(s, pin) - 1
    ensures forall q: PinId | q != pin.id :: PhotosOf(r.photos, q) == PhotosOf(s.photos, q)
    ensures r.pins == s.pins && r.nextPin == s.nextPin && r.nextPhoto == s.nextPhoto
    ensures Valid(r)
  {
    var t := Album(s, pin)[index];
    assert t in Album(s, pin);
    RemoveOne(s, t);
    RemovePhoto(s, t.id)
  }

  /** Removing one saved photo: it alone goes, its owner loses one, every other pin keeps its photos. */
  lemma RemoveOne(s: Store, t: Photo)
    requires Valid(s) && t in s.photos
    ensures forall p :: p in RemovePhoto(s, t.id).photos <==> p in s.photos && p.id != t.id
    ensures |PhotosOf(RemovePhoto(s, t.id).photos, t.pin)| + 1 == |PhotosOf(s.photos, t.pin)|
    ensures forall q: PinId | q != t.pin :: PhotosOf(RemovePhoto(s, t.id).photos, q) == PhotosOf(s.photos, q)
    ensures Valid(RemovePhoto(s, t.id))
  {
    RemoveOneCount(s.photos, t);
    WithoutIdsMembers(s.photos, {t.id});
    WithoutIdsValid(s, {t.id});
    IdsDiffer(s.photos);
    forall q: PinId | q != t.pin
      ensures PhotosOf(RemovePhoto(s, t.id).photos, q) == PhotosOf(s.photos, q)
    {
      WithoutIdsKeepsPin(s.photos, {t.id}, q);
    }
  }

  /** Sets the bytes and the owner of every photo with id `id`. */
  function SetImage(ps: seq<Photo>, id: PhotoId, pin: PinId, data: Option<Bytes>): (r: seq<Photo>)
    ensures |r| == |ps|
    ensures forall i | 0 <= i < |ps| :: r[i].id == ps[i].id && r[i].url == ps[i].url
    ensures forall i | 0 <= i < |ps| && ps[i].id != id :: r[i] == ps[i]
    ensures forall i | 0 <= i < |ps| && ps[i].id == id :: r[i].image == data && r[i].pin == pin
    decreases |ps|
  {
    if |ps| == 0 then []
    else
      var last := ps[|ps| - 1];
      SetImage(ps[..|ps| - 1], id, pin, data) + [if last.id == id then last.(image := data, pin := pin) else last]
  }

  /**
   * The completion of `taskForDownloadImage` in `cellForItemAt`: the
   * downloaded data, even when there is none, replaces the photo's bytes,
   * the owner is set again to the screen's pin, and the store is saved. A
   * photo no longer in the store gets nothing. Displaying the image
   * force-unwraps the bytes, so a failed download traps.
   */
  function WriteBytes(s: Store, pin: Pin, id: PhotoId, data: Option<Bytes>): (r: ByteWrite)
    ensures r.store.pins == s.pins && r.store.nextPin == s.nextPin && r.store.nextPhoto == s.nextPhoto
    ensures |r.store.photos| == |s.photos|
    ensures forall i | 0 <= i < |s.photos| :: r.store.photos[i].id == s.photos[i].id && r.store.photos[i].url == s.photos[i].url
    ensures forall i | 0 <= i < |s.photos| && s.photos[i].id != id :: r.store.photos[i] == s.photos[i]
    ensures forall i | 0 <= i < |s.photos| && s.photos[i].id == id ::
      r.store.photos[i].image == data && r.store.photos[i].pin == pin.id
    ensures r.cellTraps <==> data.None?
    ensures Valid(s) && pin in s.pins ==> Valid(r.store)
  {
    ByteWrite(s.(photos := SetImage(s.photos, id, pin.id, data)), data.None?)
  }

  /** Writing the same download twice leaves the same store as writing it once. */
  lemma WriteBytesIdempotent(s: Store, pin: Pin, id: PhotoId, data: Option<Bytes>)
    ensures var once := WriteBytes(s, pin, id, data).store;
      WriteBytes(once, pin, id, data).store == once
  {
    var once := WriteBytes(s, pin, id, data).store;
    var twice := WriteBytes(once, pin, id, data).store;
    assert twice.photos == once.photos;
  }

  /** A download that completes after its photo was deleted does not bring the photo back. */
  lemma WriteAfterDeleteIsNoOp(s: Store, pin: Pin, id: PhotoId, data: Option<Bytes>)
    requires forall p | p in s.photos :: p.id != id
    ensures WriteBytes(s, pin, id, data).store == s
  {
    var r := WriteBytes(s, pin, id, data).store;
    assert r.photos == s.photos;
  }

  /** A failed download erases bytes the photo already had. */
  lemma FailedDownloadClearsBytes(s: Store, pin: Pin, i: nat)
    requires i < |s.photos| && s.photos[i].image.Some?
    ensures WriteBytes(s, pin, s.photos[i].id, None).store.photos[i].image.None?
    ensures WriteBytes(s, pin, s.photos[i].id, None).cellTraps
  {
  }

  /** Re-setting the owner of a pin's own photo changes no pin's album. */
  lemma {:induction false} SetImageKeepsOwners(ps: seq<Photo>, id: PhotoId, pin: PinId, data: Option<Bytes>, q: PinId)
    requires forall p | p in ps && p.id == id :: p.pin == pin
    ensures |PhotosOf(SetImage(ps, id, pin, data), q)| == |PhotosOf(ps, q)|
    decreases |ps|
  {
    if |ps| > 0 {
      var init, last := ps[..|ps| - 1], ps[|ps| - 1];
      InitLast(ps);
      assert forall p | p in init :: p in ps;
      SetImageKeepsOwners(init, id, pin, data, q);
      var ri := SetImage(init, id, pin, data);
      var x := if last.id == id then last.(image := data, pin := pin) else last;
      assert x.pin == last.pin;
      calc {
        |PhotosOf(SetImage(ps, id, pin, data), q)|;
        |PhotosOf(ri + [x], q)|;
        { PhotosOfAppend(ri, [x], q); }
        |PhotosOf(ri, q)| + |PhotosOf([x], q)|;
        { PhotosOfSingle(x, q); PhotosOfSingle(last, q); }
        |PhotosOf(init, q)| + |PhotosOf([last], q)|;
        { PhotosOfAppend(init, [last], q); }
        |PhotosOf(ps, q)|;
      }
    }
  }

  /** Writing bytes onto one of the screen's own photos keeps every pin's photo count. */
  lemma WriteBytesKeepsCounts(s: Store, pin: Pin, id: PhotoId, data: Option<Bytes>, other: Pin)
    requires forall p | p in s.photos && p.id == id :: p.pin == pin.id
    ensures PhotoCount(WriteBytes(s, pin, id, data).store, other) == PhotoCount(s, other)
  {
    SetImageKeepsOwners(s.photos, id, pin.id, data, other.id);
  }
}
