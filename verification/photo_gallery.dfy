/** The photo gallery: a year filter and a watch filter over the archive, a
    grid of the photos that pass both, and a lightbox that steps through that
    grid with wrap-around. */
module PhotoGallery {
  import opened Wrappers
  import opened PhotoData
  import Seqs
  import Cyclic

  /** A filter dropdown: "all", or one year or watch number. */
  datatype Choice = All | Only(value: int)

  /** `filteredPhotos` over the year list `pys`: every photo or the chosen
      year's photos, then, when a watch is chosen, only that watch's photos,
      in the same order. */
  function FilteredPhotos(pys: seq<PhotoYear>, year: Choice, prahari: Choice): (r: seq<Photo>)
    ensures prahari.Only? ==> forall p :: p in r ==> p.prahariId == prahari.value
  {
    var photos := if year.All? then FlatPhotos(pys) else PhotosOfYear(pys, year.value);
    if prahari.All? then photos else Seqs.Filter(photos, HasMoment(prahari.value))
  }

  /** With no filter the grid is the whole archive, 240 photos. */
  lemma FilteredEverything()
    ensures FilteredPhotos(PhotoYears(), All, All) == AllPhotos()
    ensures |FilteredPhotos(PhotoYears(), All, All)| == 240
  {
  }

  /** With only a year of the archive chosen the grid is that year's twenty photos. */
  lemma FilteredByYear(year: int)
    requires 2014 <= year <= 2025
    ensures FilteredPhotos(PhotoYears(), Only(year), All) == YearPhotos(year)
  {
    ArchiveYearFound(year);
  }

  /** A year outside the archive gives an empty grid. */
  lemma FilteredByOtherYear(year: int)
    requires !(2014 <= year <= 2025)
    ensures FilteredPhotos(PhotoYears(), Only(year), All) == []
  {
    OtherYearAbsent(year);
  }

  /** With only a watch chosen the grid is `getPhotosByPrahari`. */
  lemma FilteredByPrahari(k: int)
    ensures FilteredPhotos(PhotoYears(), All, Only(k)) == GetPhotosByPrahari(k)
  {
  }

  /** With both chosen the grid is that year's photos of that watch (a
      run of three or two photos, by `MomentRuns`). */
  lemma FilteredByYearAndPrahari(year: int, k: int)
    requires 2014 <= year <= 2025
    ensures FilteredPhotos(PhotoYears(), Only(year), Only(k)) == Seqs.Filter(YearPhotos(year), HasMoment(k))
  {
    ArchiveYearFound(year);
  }

  class Gallery {
    /** The archive the gallery shows, `photoYears`. */
    const photoYears: seq<PhotoYear>
    var selectedYear: Choice
    var selectedPrahari: Choice
    var selectedPhoto: Option<Photo>
    var currentPhotoIndex: int

    /** The photos the grid shows under the current filters. */
    function Shown(): seq<Photo>
      reads this
    {
      FilteredPhotos(photoYears, selectedYear, selectedPrahari)
    }

    /** The index is a position of some grid, never negative. */
    predicate Valid()
      reads this
    {
      currentPhotoIndex >= 0
    }

    /** The lightbox shows the grid photo at the current index. */
    predicate InStep()
      reads this
    {
      0 <= currentPhotoIndex < |Shown()| && selectedPhoto == Some(Shown()[currentPhotoIndex])
    }

    constructor ()
      ensures photoYears == PhotoYears()
      ensures selectedYear == All && selectedPrahari == All
      ensures selectedPhoto == None && currentPhotoIndex == 0 && Valid()
    {
      photoYears := PhotoYears();
      selectedYear := All;
      selectedPrahari := All;
      selectedPhoto := None;
      currentPhotoIndex := 0;
    }

    /** The year dropdown. */
    method SelectYear(year: Choice)
      modifies this
      ensures selectedYear == year && selectedPrahari == old(selectedPrahari)
      ensures selectedPhoto == old(selectedPhoto) && currentPhotoIndex == old(currentPhotoIndex)
    {
      selectedYear := year;
    }

    /** The watch dropdown. */
    method SelectPrahari(prahari: Choice)
      modifies this
      ensures selectedPrahari == prahari && selectedYear == old(selectedYear)
      ensures selectedPhoto == old(selectedPhoto) && currentPhotoIndex == old(currentPhotoIndex)
    {
      selectedPrahari := prahari;
    }

    /** "Clear filters", offered when the grid is empty: back to every photo. */
    method ClearFilters()
      modifies this
      ensures selectedYear == All && selectedPrahari == All
      ensures selectedPhoto == old(selectedPhoto) && currentPhotoIndex == old(currentPhotoIndex)
    {
      selectedYear := All;
      selectedPrahari := All;
    }

    /** `handlePhotoClick(photo, index)`: open the lightbox on a grid photo. */
    method HandlePhotoClick(photo: Photo, index: int)
      requires index >= 0
      modifies this
      ensures selectedPhoto == Some(photo) && currentPhotoIndex == index && Valid()
      ensures selectedYear == old(selectedYear) && selectedPrahari == old(selectedPrahari)
      ensures index < |Shown()| && photo == Shown()[index] ==> InStep()
    {
      selectedPhoto := Some(photo);
      currentPhotoIndex := index;
    }

    /** Closing the lightbox clears the selected photo and keeps the index. */
    method ClosePhoto()
      modifies this
      ensures selectedPhoto == None && currentPhotoIndex == old(currentPhotoIndex)
      ensures selectedYear == old(selectedYear) && selectedPrahari == old(selectedPrahari)
    {
      selectedPhoto := None;
    }

    /** `navigatePhoto`: step to the next or previous grid photo, wrapping
        round at both ends, and show it. An empty grid would make the
        modulus `NaN`, so the grid must hold a photo. */
    method NavigatePhoto(next: bool)
      requires Valid() && |Shown()| > 0
      modifies this
      ensures selectedYear == old(selectedYear) && selectedPrahari == old(selectedPrahari)
      ensures next ==> currentPhotoIndex == Cyclic.Next(old(currentPhotoIndex), |Shown()|)
      ensures !next ==> currentPhotoIndex == Cyclic.Prev(old(currentPhotoIndex), |Shown()|)
      ensures Valid() && InStep()
    {
      var n := |Shown()|;
      var newIndex := if next then Cyclic.Next(currentPhotoIndex, n) else Cyclic.Prev(currentPhotoIndex, n);
      currentPhotoIndex := newIndex;
      selectedPhoto := Some(Shown()[newIndex]);
    }
  }

  /** Stepping forward then back in the lightbox returns to the photo it showed. */
  method NextThenPrevious(gallery: Gallery)
    requires gallery.Valid() && gallery.InStep()
    modifies gallery
    ensures gallery.currentPhotoIndex == old(gallery.currentPhotoIndex)
    ensures gallery.selectedPhoto == old(gallery.selectedPhoto) && gallery.InStep()
  {
    var start := gallery.currentPhotoIndex;
    gallery.NavigatePhoto(true);
    gallery.NavigatePhoto(false);
    Cyclic.PrevUndoesNext(start, |gallery.Shown()|);
  }
}
