/**
 * The photo gallery page of client/src/components/pages/PhotoGallery.jsx: the
 * photos shown for a category and search term, and the favourite toggle.
 */
module PhotoGallery {
  import opened Text
  import opened Lists

  datatype Photo = Photo(
    id: int, title: string, description: string, image: string, date: string, category: string,
    location: string, tags: seq<string>, isFavorite: bool)

  const AllCategories := "Todos"

  /** `photo.tags.some(tag => lower(tag).includes(lower(term)))`. */
  predicate SomeTagMatches(p: Photo, term: string, lower: string -> string)
  {
    exists i :: 0 <= i < |p.tags| && Contains(lower(p.tags[i]), lower(term))
  }

  /** The test of `filteredPhotos`, with `toLowerCase` as the parameter `lower`. */
  function Shows(filter: string, term: string, lower: string -> string): Photo -> bool
  {
    (p: Photo) =>
      (filter == AllCategories || p.category == filter) &&
      (Contains(lower(p.title), lower(term)) || Contains(lower(p.description), lower(term)) ||
       SomeTagMatches(p, term, lower))
  }

  function FilteredPhotos(photos: seq<Photo>, filter: string, term: string, lower: string -> string): seq<Photo>
  {
    Filter(photos, Shows(filter, term, lower))
  }

  /**
   * The shown photos are those of the category (any, for `Todos`) whose
   * lowercased title, description or one of whose tags contains the
   * lowercased term, in gallery order.
   */
  lemma FilteredPhotosFacts(photos: seq<Photo>, filter: string, term: string, lower: string -> string, x: Photo)
    ensures x in FilteredPhotos(photos, filter, term, lower) <==>
            x in photos && (filter == AllCategories || x.category == filter) &&
            (Contains(lower(x.title), lower(term)) || Contains(lower(x.description), lower(term)) ||
             SomeTagMatches(x, term, lower))
    ensures IsSubsequence(FilteredPhotos(photos, filter, term, lower), photos)
  {
    FilterMembership(photos, Shows(filter, term, lower), x);
    FilterIsSubsequence(photos, Shows(filter, term, lower));
  }

  /** With `Todos` and an empty search every photo is shown. */
  lemma FilteredPhotosAll(photos: seq<Photo>, lower: string -> string)
    requires lower("") == ""
    ensures FilteredPhotos(photos, AllCategories, "", lower) == photos
  {
    forall i | 0 <= i < |photos| ensures Shows(AllCategories, "", lower)(photos[i]) {
      ContainsEmpty(lower(photos[i].title));
    }
    FilterKeepsAll(photos, Shows(AllCategories, "", lower));
  }

  function Flip(id: int): Photo -> Photo
  {
    (p: Photo) => if p.id == id then p.(isFavorite := !p.isFavorite) else p
  }

  /** `toggleFavorite`. */
  function ToggleFavorite(photos: seq<Photo>, id: int): seq<Photo>
  {
    MapSeq(photos, Flip(id))
  }

  /** Only the photos with the id change, only in `isFavorite`; toggling twice gives the gallery back. */
  lemma ToggleFavoriteFacts(photos: seq<Photo>, id: int)
    ensures var r := ToggleFavorite(photos, id);
            |r| == |photos| &&
            forall i :: 0 <= i < |r| ==>
              r[i] == if photos[i].id == id then photos[i].(isFavorite := !photos[i].isFavorite) else photos[i]
    ensures ToggleFavorite(ToggleFavorite(photos, id), id) == photos
  {
    var once := ToggleFavorite(photos, id);
    var twice := ToggleFavorite(once, id);
    assert forall i :: 0 <= i < |twice| ==> twice[i] == photos[i];
  }
}
