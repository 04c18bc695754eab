# Virtual Tourist: a Dafny model of the client and the album store

Virtual Tourist is an iOS app. The user drops pins on a map with a long
press. Tapping a pin opens a photo album of Flickr images taken near it.

This project models the two parts of the app that hold logic rather than
UI plumbing:

* **`VTClient`, the Flickr client.**
  * The two endpoint strings: the photo search URL and the static image URL.
  * The force-unwrapped `URL(string:)`.
  * `getPhotoURL`.
  * The decision rule of `taskForGETRequest`: no body, primary decode, error-envelope decode.
  * The result mapping of `downloadPhotos`.
  * The JSON shapes of `PhotoResponse.swift` and `VTResponse.swift` are the
    datatypes of module `Responses`. Decoding itself is an input: each
    decode attempt is a function that returns a value or a failure.
* **The store transitions of the two view controllers.** They are lifted
  into pure functions over an abstract store: a sequence of pins, a
  sequence of photos with unique ids, and two id counters.
  * Map screen: creating a pin from a long press, showing every pin as an
    annotation, the pin listing sorted by latitude, and resolving a tapped
    annotation back to its pin in `prepare(for:)`.
  * Album screen:
    * populating an empty album from a search page, one placeholder per
      descriptor;
    * "new collection": delete the album, then populate page 2;
    * deleting a tapped photo;
    * writing downloaded bytes onto a photo;
    * the album fetch (filter by pin, sort by URL) and its item count.

Each network completion is one atomic step. The reply is a parameter, or it comes from a `search` function that gives the reply to each request.

Modules:

* `Wrappers`: `Option`, `Result`.
* `Coordinates`: coordinates and their text rendering.
* `Text`: decimal rendering, literal string order, split and join.
* `Sorting`: insertion sort over a total preorder.
* `Responses`: the JSON shapes.
* `Endpoints`: URL building and the URL character set.
* `Client`: the GET decision rule and `downloadPhotos`.
* `AlbumStore`: the persisted objects and their queries.
* `TravelLocations`: the map screen.
* `PhotoAlbum`: the album screen.

Each store-changing step names the invariant it keeps. `Valid` says that
identities are unique and below their counters, and that every photo's
owner is a stored pin. Each step also states what it leaves alone. Every
step except pin creation keeps the pins. Creating a pin keeps all photos.
Deleting and byte writes keep both counters. Every album step keeps other
pins' photos.
Each step has a partner property:

* a URL and its parse back into its parts;
* a query string and its read-back into key/value pairs;
* a decimal rendering and its parse;
* the album as a sorted permutation of the pin's photos;
* the map and the store kept one-for-one through any series of gestures.

Sharp edges of the code that the model keeps:

* `prepare(for:)` keeps the **last** pin whose coordinates match. The loop
  reassigns on every match.
* A failed image download **overwrites** the stored bytes with nil. Bytes
  are not write-once. The following force-unwrap in the cell then traps.
* A search reply without a page **crashes** the populate path at
  `data!.photo`. It is not a recoverable failure. "New collection" has
  already deleted the old album by that point.
* Population saves after every placeholder. A crash part-way through
  (an image URL that does not parse) leaves the placeholders saved so far.
  Population is not an all-or-nothing batch.

## Model

| member | source | states |
|---|---|---|
| Text.NatToDecimal | VirtualTouristV2/Model/Client/VTClient.swift:27 | An `Int` interpolated into the search URL is a non-empty run of decimal digits with no leading zero |
| Text.IntToDecimal | VirtualTouristV2/Model/Client/VTClient.swift:27 | The rendering starts with a minus sign exactly when the number is negative |
| Text.NatToDecimalValue | VirtualTouristV2/Model/Client/VTClient.swift:27 | The digits of a natural number read back to that number |
| Text.IntToDecimalRoundTrip | VirtualTouristV2/Model/Client/VTClient.swift:27 | `perPage` and `page` as rendered in the URL parse back to the same integers, negative values included |
| Text.LexLeTotal | VirtualTouristV2/Controllers/ViewControllers/PhotoAlbumViewController.swift:38 | Any two URLs are comparable under the ascending string sort key |
| Text.LexLeTransitive | VirtualTouristV2/Controllers/ViewControllers/PhotoAlbumViewController.swift:38 | The URL sort key is transitive, so the album sort is well defined |
| Text.SplitJoin | VirtualTouristV2/Model/Client/VTClient.swift:27 | Joining the query pieces with a separator none of them contains, then splitting on it, gives back the pieces |
| Sorting.InsertBy | VirtualTouristV2/Controllers/ViewControllers/PhotoAlbumViewController.swift:38-39 | Inserting into a sorted list keeps it sorted and adds exactly that element |
| Sorting.SortBy | VirtualTouristV2/Controllers/ViewControllers/PhotoAlbumViewController.swift:38-39 | A sort descriptor's result is sorted and a permutation of its input |
| Endpoints.EndpointUrlCases | VirtualTouristV2/Model/Client/VTClient.swift:23-36 | `stringValue` of an image endpoint is the static base and `/server/id_secret.jpg`, and its `url` force-unwrap succeeds exactly when the three parts are URL-safe. `stringValue` of a search endpoint is the REST base and the eight query pairs, and with a URL-safe key and coordinate renderings its `url` succeeds. A parsed URL keeps the endpoint's text |
| Endpoints.DecimalIsUrlSafe | VirtualTouristV2/Model/Client/VTClient.swift:27 | Any rendered page number or page size is made of URL characters |
| Endpoints.PhotoStringSafe | VirtualTouristV2/Model/Client/VTClient.swift:29-30 | The image URL string is made of URL characters exactly when server, id and secret are |
| Endpoints.PhotoUrl | VirtualTouristV2/Model/Client/VTClient.swift:97-100 | `getPhotoURL` returns exactly the static base, `/server/id_secret.jpg` when all three parts are URL-safe, and traps otherwise. The result starts with the static base and ends in `.jpg` |
| Endpoints.PhotoUrlRoundTrip | VirtualTouristV2/Model/Client/VTClient.swift:29-30 | When the server has no `/` and the id has no `_`, the image URL parses back into the same server, id and secret: the three parts appear in that order and are recoverable |
| Endpoints.PhotoUrlInjective | VirtualTouristV2/Model/Client/VTClient.swift:29-30 | Under the same side conditions, different photo descriptors get different image URLs |
| Endpoints.QueryRoundTrip | VirtualTouristV2/Model/Client/VTClient.swift:27 | A query string built from `&`- and `=`-free pairs reads back into the same pairs in the same order |
| Endpoints.LocationUrlIsQuery | VirtualTouristV2/Model/Client/VTClient.swift:26-27 | The search URL is the REST base, `/?`, then the eight parameters `method`, `api_key`, `lat`, `lon`, `per_page`, `page`, `format`, `nojsoncallback` in that order |
| Endpoints.SearchUrlReadsBack | VirtualTouristV2/Model/Client/VTClient.swift:26-27 | The query of the search URL reads back as those eight pairs, and the `per_page` and `page` values parse back to the integers given |
| Endpoints.SearchUrlParses | VirtualTouristV2/Model/Client/VTClient.swift:34-36 | With a URL-safe key and coordinate renderings, the search URL's force-unwrap never traps and yields the built string |
| Client.TaskForGet | VirtualTouristV2/Model/Client/VTClient.swift:57-88 | No body: no value, and the session's error passed on. Otherwise a value exactly when the primary decode succeeds; an API error when only the error envelope decodes; the envelope's decode error when both fail |
| Client.NoBodyIgnoresDecoders | VirtualTouristV2/Model/Client/VTClient.swift:61-66 | Without a body the completion does not depend on either decoder: decoding is never attempted |
| Client.TaskForGetExclusive | VirtualTouristV2/Model/Client/VTClient.swift:61-82 | A completion never carries both a value and an error. It carries neither only when the session delivered neither a body nor an error |
| Client.DownloadPhotos | VirtualTouristV2/Model/Client/VTClient.swift:44-52 | A response yields its `photos` page and no error; no response passes the error on |
| Client.SearchOutcome | VirtualTouristV2/Model/Client/VTClient.swift:39-54 | End to end, a page arrives exactly when the body decodes as a photo response, never together with an error. An API error is reported exactly when only the error envelope decodes |
| AlbumStore.EmptyValid | VirtualTouristV2/Controllers/ViewControllers/TravelLocationsMapViewController.swift:60-68 | The empty store satisfies the identity invariant that pin creation preserves |
| AlbumStore.PhotosOfMembers | VirtualTouristV2/Controllers/ViewControllers/PhotoAlbumViewController.swift:35-36 | `PhotosOf`, the relationship `pin.photos`: a photo satisfies the `pin == %@` predicate exactly when it is in the store and owned by the pin |
| AlbumStore.PhotoCountZero | VirtualTouristV2/Controllers/ViewControllers/PhotoAlbumViewController.swift:62 | `pin.photos.count == 0` holds exactly when no stored photo is owned by the pin |
| AlbumStore.UrlOrder | VirtualTouristV2/Controllers/ViewControllers/PhotoAlbumViewController.swift:38 | Ascending order on `url` is a total preorder on photos |
| AlbumStore.Album | VirtualTouristV2/Controllers/ViewControllers/PhotoAlbumViewController.swift:32-48 | A pin's album holds exactly the photos the pin owns, as a permutation of them, sorted by URL ascending; its length is the pin's photo count |
| AlbumStore.WithoutIdsMembers | VirtualTouristV2/Controllers/ViewControllers/PhotoAlbumViewController.swift:137-141 | After deleting a set of photos, a photo remains exactly when it was there and was not deleted |
| AlbumStore.WithoutIdsTwice | VirtualTouristV2/Controllers/ViewControllers/PhotoAlbumViewController.swift:138-141 | Deleting one batch and then another equals deleting their union, so one delete per loop iteration deletes the whole album |
| AlbumStore.WithoutIdsDistinct | VirtualTouristV2/Controllers/ViewControllers/PhotoAlbumViewController.swift:139 | Deleting photos keeps photo identities unique |
| AlbumStore.WithoutIdsKeepsPin | VirtualTouristV2/Controllers/ViewControllers/PhotoAlbumViewController.swift:137-141 | Deleting only photos of other pins leaves a pin's photos exactly as they were |
| AlbumStore.RemoveOneCount | VirtualTouristV2/Controllers/ViewControllers/PhotoAlbumViewController.swift:176-177 | Deleting one stored photo reduces its owner's photo count by exactly one |
| AlbumStore.RemoveAt | VirtualTouristV2/Controllers/ViewControllers/PhotoAlbumViewController.swift:177 | With unique ids, deleting the photo at a position removes that position and keeps the rest in order |
| AlbumStore.PhotosOfAppend | VirtualTouristV2/Controllers/ViewControllers/PhotoAlbumViewController.swift:112-116 | A pin's photos among appended photos are its old photos followed by its new ones |
| TravelLocations.CreatePin | VirtualTouristV2/Controllers/ViewControllers/TravelLocationsMapViewController.swift:63-67 | Exactly one pin is added at the given coordinate, with no deduplication, a fresh identity and no photos. The other pins, all photos and the photo counter are unchanged, and the store stays valid |
| TravelLocations.AddAnnotation | VirtualTouristV2/Controllers/ViewControllers/TravelLocationsMapViewController.swift:60-68 | Adding the annotation and creating the pin together keep the map one-for-one with the stored pins and keep the store valid; both grow by one |
| TravelLocations.LongTap | VirtualTouristV2/Controllers/ViewControllers/TravelLocationsMapViewController.swift:52-58 | A callback in state `.began` adds exactly one pin at the touch; any other state changes nothing |
| TravelLocations.ReplayKeepsInSync | VirtualTouristV2/Controllers/ViewControllers/TravelLocationsMapViewController.swift:52-68 | Through any series of gesture callbacks the pin count grows by the number of `.began` callbacks. Older pins and all photos stay. Map annotations and stored pins stay one-for-one |
| TravelLocations.ShowPinsOnMap | VirtualTouristV2/Controllers/ViewControllers/TravelLocationsMapViewController.swift:70-77 | One annotation per stored pin is appended, in the store's order, which stands for the unsorted fetch's order. Annotations already on the map and the store are untouched |
| TravelLocations.ShowPinsOnFreshMap | VirtualTouristV2/Controllers/ViewControllers/TravelLocationsMapViewController.swift:41-50 | On a fresh map, showing the pins puts the map and the store one-for-one |
| TravelLocations.PinListing | VirtualTouristV2/Controllers/ViewControllers/TravelLocationsMapViewController.swift:26-30 | The pin fetch is a permutation of the stored pins, sorted by latitude descending |
| TravelLocations.LastMatch | VirtualTouristV2/Controllers/ViewControllers/TravelLocationsMapViewController.swift:119-128 | The selected position matches both coordinates and no later pin matches; there is no position exactly when no pin matches |
| TravelLocations.FirstIndexOf | VirtualTouristV2/Controllers/ViewControllers/TravelLocationsMapViewController.swift:121 | `firstIndex(of:)` finds a position exactly when the pin is present, holding that pin, with no earlier occurrence |
| TravelLocations.PrepareForSegue | VirtualTouristV2/Controllers/ViewControllers/TravelLocationsMapViewController.swift:117-130 | The album screen gets the last pin, in the store's order, whose coordinates both equal the selection. With no match its pin is left as it was |
| TravelLocations.SelectedIsLastMatching | VirtualTouristV2/Controllers/ViewControllers/TravelLocationsMapViewController.swift:117-129 | Without the backward search: the handed-over pin is the one at any matching position with no later match, and with no match at all it is the pin the screen already had |
| TravelLocations.DuplicateCoordinatesLastWins | VirtualTouristV2/Controllers/ViewControllers/TravelLocationsMapViewController.swift:119-128 | Of two pins at the selected coordinate, the later one is handed over |
| PhotoAlbum.SearchNeverTraps | VirtualTouristV2/Controllers/ViewControllers/PhotoAlbumViewController.swift:104 | With a URL-safe key free of `&` and coordinate renderings made of URL characters, the album's search URL always parses |
| PhotoAlbum.InitialRequest | VirtualTouristV2/Controllers/ViewControllers/PhotoAlbumViewController.swift:62-66 | A search is issued exactly when the pin has no photos, for page 1 with 15 per page at the pin's coordinate |
| PhotoAlbum.FirstUnsafe | VirtualTouristV2/Controllers/ViewControllers/PhotoAlbumViewController.swift:110-111 | The loop gets through every descriptor before the first one whose image URL does not parse, and stops at that one |
| PhotoAlbum.AddPlaceholders | VirtualTouristV2/Controllers/ViewControllers/PhotoAlbumViewController.swift:110-117 | The loop completes exactly when every descriptor's URL parses. Otherwise it traps on a bad URL, keeping the placeholders saved before it |
| PhotoAlbum.PlaceholdersValid | VirtualTouristV2/Controllers/ViewControllers/PhotoAlbumViewController.swift:112-116 | Inserting placeholders owned by a stored pin keeps identities unique and every owner a stored pin |
| PhotoAlbum.DownloadPictures | VirtualTouristV2/Controllers/ViewControllers/PhotoAlbumViewController.swift:101-124 | The "No Images" alert is shown exactly when the page reports zero results. A missing page crashes before any change. Otherwise the placeholders are added and the store stays valid |
| PhotoAlbum.ViewDidLoadPopulatesOnce | VirtualTouristV2/Controllers/ViewControllers/PhotoAlbumViewController.swift:62-66 | A visit to an album with photos changes nothing. A completed first visit of an empty album leaves the pin owning exactly one placeholder per descriptor of the page-1 reply, and other pins unchanged. Once that visit brought a photo, every later visit changes nothing |
| PhotoAlbum.PopulateAddsOnePerDescriptor | VirtualTouristV2/Controllers/ViewControllers/PhotoAlbumViewController.swift:110-116 | A completed population gives the pin exactly one new photo per descriptor, in order, each with its descriptor's `getPhotoURL`. The count grows by the number of descriptors. Existing photos and other pins' photos are unchanged |
| PhotoAlbum.WithPlaceholdersShape | VirtualTouristV2/Controllers/ViewControllers/PhotoAlbumViewController.swift:110-117 | Appending placeholders keeps the old photos as a prefix and gives the pin exactly the new ones; every other pin's photos are unchanged |
| PhotoAlbum.PlaceholderUrls | VirtualTouristV2/Controllers/ViewControllers/PhotoAlbumViewController.swift:111-113 | Each placeholder's URL is what `getPhotoURL` returns for its descriptor |
| PhotoAlbum.NoResultsLeavesAlbum | VirtualTouristV2/Controllers/ViewControllers/PhotoAlbumViewController.swift:106-110 | A page with zero results and no descriptors shows the alert and leaves the store unchanged |
| PhotoAlbum.ItemCount | VirtualTouristV2/Controllers/ViewControllers/PhotoAlbumViewController.swift:149-151 | The grid has as many items as the pin owns photos |
| PhotoAlbum.WithoutIdsValid | VirtualTouristV2/Controllers/ViewControllers/PhotoAlbumViewController.swift:139-140 | Deleting photos keeps the store valid |
| PhotoAlbum.DeleteEach | VirtualTouristV2/Controllers/ViewControllers/PhotoAlbumViewController.swift:137-142 | Deleting the fetched photos one at a time removes exactly their identities and touches neither pins nor counters |
| PhotoAlbum.NewCollectionRequest | VirtualTouristV2/Controllers/ViewControllers/PhotoAlbumViewController.swift:144 | The follow-up search is for page 2, 15 per page, at the pin's coordinate, never the page-1 request of the first visit |
| PhotoAlbum.NewCollection | VirtualTouristV2/Controllers/ViewControllers/PhotoAlbumViewController.swift:133-146 | Other pins' photos are untouched. The pin ends up owning exactly the placeholders of the reply to `NewCollectionRequest`, the page-2 search. A missing page crashes with the old album already deleted. The pins and the pin counter are unchanged, the photo counter never goes back, and the store stays valid |
| PhotoAlbum.ClearedAlbum | VirtualTouristV2/Controllers/ViewControllers/PhotoAlbumViewController.swift:137-142 | After the delete loop the pin owns no photos, every other pin's photos are as before, and the store is valid |
| PhotoAlbum.ClearedOthers | VirtualTouristV2/Controllers/ViewControllers/PhotoAlbumViewController.swift:137-142 | Deleting one pin's album leaves another pin's photos exactly as they were |
| PhotoAlbum.NewCollectionShape | VirtualTouristV2/Controllers/ViewControllers/PhotoAlbumViewController.swift:144 | Populating page 2 onto a cleared album gives the pin exactly the new placeholders and leaves every other pin alone |
| PhotoAlbum.NewCollectionDisjoint | VirtualTouristV2/Controllers/ViewControllers/PhotoAlbumViewController.swift:137-144 | No photo in the album after "new collection" shares an identity with a photo of the album before it |
| PhotoAlbum.NewCollectionFresh | VirtualTouristV2/Controllers/ViewControllers/PhotoAlbumViewController.swift:144 | Every photo the pin owns after "new collection" has an identity issued by that step |
| PhotoAlbum.DeletePhoto | VirtualTouristV2/Controllers/ViewControllers/PhotoAlbumViewController.swift:174-182 | Selecting an item deletes exactly the photo shown there. The pin's count drops by one. Every other photo, every other pin's album, the pins and both counters are unchanged, and the store stays valid |
| PhotoAlbum.RemoveOne | VirtualTouristV2/Controllers/ViewControllers/PhotoAlbumViewController.swift:176-177 | `RemovePhoto`, the context's `delete`: deleting a stored photo removes it alone, lowers its owner's count by one and keeps other pins' photos |
| PhotoAlbum.SetImage | VirtualTouristV2/Controllers/ViewControllers/PhotoAlbumViewController.swift:162-163 | The photo with the written id gets the data and the screen's pin as owner; every other photo, and every id and url, is unchanged |
| PhotoAlbum.WriteBytes | VirtualTouristV2/Controllers/ViewControllers/PhotoAlbumViewController.swift:160-168 | The downloaded data replaces the photo's bytes even when nil, and the owner is re-set. Nothing else changes. Showing the image traps exactly when the data is nil |
| PhotoAlbum.WriteBytesIdempotent | VirtualTouristV2/Controllers/ViewControllers/PhotoAlbumViewController.swift:162-165 | Writing the same download twice leaves the same store as writing it once |
| PhotoAlbum.WriteAfterDeleteIsNoOp | VirtualTouristV2/Controllers/ViewControllers/PhotoAlbumViewController.swift:160-165 | A download that completes after its photo was deleted changes nothing |
| PhotoAlbum.FailedDownloadClearsBytes | VirtualTouristV2/Controllers/ViewControllers/PhotoAlbumViewController.swift:162-167 | A failed download erases bytes the photo already had, and the cell traps |
| PhotoAlbum.SetImageKeepsOwners | VirtualTouristV2/Controllers/ViewControllers/PhotoAlbumViewController.swift:163 | Re-setting the owner of the screen's own photo changes no pin's photo count |
| PhotoAlbum.WriteBytesKeepsCounts | VirtualTouristV2/Controllers/ViewControllers/PhotoAlbumViewController.swift:162-165 | A byte write onto one of the screen's photos keeps every pin's photo count |

## Left out

- UIKit and MapKit are not modelled: annotation views, alerts, collection-view cells, the map drawn on the album screen, and the CGFloat layout arithmetic of the album's `viewDidLoad`. The alert is only the boolean `noImagesAlert`. The map is the list of annotations it holds.
- URLSession transport is not modelled; the body and the session's error are parameters. JSONDecoder is not modelled either: each decode attempt is a function parameter returning a value or a failure.
- `taskForDownloadImage` is not modelled; its data is the parameter of `PhotoAlbum.WriteBytes`. The force-unwrapped `URL(string:)` of a stored photo URL in `cellForItemAt` is not modelled either. Stored URLs are the parsed output of `getPhotoURL`, so it does not trap.
- DispatchQueue main-thread hops and the asynchronous order between completions are not modelled. Each completion is one atomic step. The button re-enable in `newCollection` is UI state and is left out.
- `DataController.swift` and `AppDelegate.swift` are not part of this model. They hold the CoreData stack, save-if-changed, and the autosave timer. Every save is taken to persist the store as it stands.
- NSFetchedResultsController caching is not modelled: the album is recomputed from the store at each step. Core Data merge policies and cascade rules are not modelled either; the app never deletes a pin.
- A failing `performFetch` or pin fetch (`fatalError` / `print`) is not modelled; fetches always succeed.
- Latitude and longitude are modelled as exact reals with equality and a total order. Double rounding, NaN and negative zero are not modelled. `Double.description` is an uninterpreted parameter `describe`.
- `URL(string:)` is modelled as accepting exactly the non-empty strings made of the characters of section 2 of RFC 3986. Percent-escape grammar and component structure are not modelled. The automatic percent-encoding of newer iOS versions is not modelled either.
- The pin fetch of `fetchPinFromDataController` has no sort descriptor, so its order is unspecified. The model takes it to be the store's insertion order. `ShowPinsOnMap`'s annotation order and which pin `PrepareForSegue` picks among pins with equal coordinates rest on that choice.
- The URL sort uses plain code-point order (`LexLe`). `NSString` comparison rules are not modelled.
- Ties in both sort descriptors are left in insertion order (the sort is stable). Core Data's tie order is unspecified.
- Flickr server behaviour is not modelled. The API key is a parameter, not the app's constant. Search URLs are proved to parse for any URL-safe key without `&`.
- `didSelectItemAt` deletes without saving. The model treats the deletion as taking effect in the store at once.
- The byte write to a photo that is no longer in the store is modelled as a no-op. What Core Data does with a deleted managed object is not visible in this source.
- Client.TaskForGet: the transport error is modelled as a plain description, and the case where the session delivers a body together with an error is not distinguished from a body alone. The code ignores that error, as the model does.
- Endpoints.PhotoUrlRoundTrip: stated only for servers without `/` and ids without `_`. For other inputs the image URL is ambiguous, as `PhotoUrlInjective`'s side conditions show.
