/** The generated photo archive: twenty placeholder photos for each festival
    year from 2014 to 2025, and the lookups over it. */
module PhotoData {
  import opened Wrappers
  import opened Text
  import opened Slugs
  import Seqs
  import Arith

  /** A moment of the festival night; `desc` is display text and is left out. */
  datatype Moment = Moment(id: int, name: string)

  const Moments: seq<Moment> := [
    Moment(1, "Evening Prayers"), Moment(2, "Night Vigil"), Moment(3, "Midnight Chant"),
    Moment(4, "Brahma Muhurta"), Moment(5, "Dawn Aarti"), Moment(6, "Morning Gathering"),
    Moment(7, "Noon Celebration"), Moment(8, "Afternoon Wind Down")
  ]

  const Categories: seq<string> := [
    "prayer", "crowd", "decoration", "food", "music", "dance",
    "ritual", "lamp", "flower", "procession", "elders", "children"
  ]

  datatype Photo = Photo(
    id: string,
    year: int,
    url: string,
    thumbnail: string,
    caption: string,
    prahariId: int,
    photographer: string,
    tags: seq<string>)

  datatype PhotoYear = PhotoYear(year: int, photos: seq<Photo>)

  /** `Math.floor((i - 1) / 2.5) % 8`: photo `i` of a year belongs to the
      moment at this index, which is the integer `2(i - 1) div 5`. */
  function MomentIndex(i: int): (k: int)
    requires 1 <= i <= 20
    ensures 0 <= k < 8 && k == 2 * (i - 1) / 5
  {
    assert (i - 1) as real / 2.5 == (2 * (i - 1)) as real / 5 as real;
    Arith.FloorOfQuotient(2 * (i - 1), 5);
    ((i - 1) as real / 2.5).Floor % 8
  }

  /** `String(i).padStart(3, '0')`. */
  function Pad3(i: nat): string {
    PadStart(NatToString(i), 3, '0')
  }

  /** For the photo numbers 1 to 20 the padded number is three digits that
      read back as the number. */
  lemma Pad3Value(i: nat)
    requires 1 <= i <= 20
    ensures |Pad3(i)| == 3 && AllDigits(Pad3(i)) && DigitsValue(Pad3(i)) == i
  {
    var s := NatToString(i);
    LeadingZero(s);
    if |s| == 1 {
      assert Pad3(i) == "0" + ("0" + s);
      LeadingZero("0" + s);
    } else {
      assert Pad3(i) == "0" + s;
    }
  }

  /** `category.charAt(0).toUpperCase() + category.slice(1)`. */
  function Capitalize(s: string): (r: string)
    ensures |r| == |s|
    ensures s != [] ==> r[0] == UpperChar(s[0]) && r[1..] == s[1..]
  {
    if s == [] then [] else [UpperChar(s[0])] + s[1..]
  }

  /** The tag each moment gives its photos, in watch order. */
  const MomentTags: seq<string> := ["evening-prayers", "night-vigil", "midnight-chant", "brahma-muhurta",
    "dawn-aarti", "morning-gathering", "noon-celebration", "afternoon-wind-down"]

  /** The moment tags: each name lower-cased with its spaces turned into
      dashes. */
  lemma MomentSlugs(k: nat)
    requires k < |Moments|
    ensures Slug(Moments[k].name) == MomentTags[k]
  {
    match k {
      case 0 => EveningPrayersSpelling(Moments[0].name);
      case 1 => NightVigilSpelling(Moments[1].name);
      case 2 => MidnightChantSpelling(Moments[2].name);
      case 3 => BrahmaMuhurtaSpelling(Moments[3].name);
      case 4 => DawnAartiSpelling(Moments[4].name);
      case 5 => MorningGatheringSpelling(Moments[5].name);
      case 6 => NoonCelebrationSpelling(Moments[6].name);
      case 7 => AfternoonWindDownSpelling(Moments[7].name);
    }
    SlugOfWords(Moments[k].name);
  }

  /** The identifier `{year}-{moment}-{i padded to 3}`. */
  function PhotoId(year: int, momentId: int, i: nat): string {
    IntToString(year) + "-" + IntToString(momentId) + "-" + Pad3(i)
  }

  /** The moment table lists moments 1 to 8 in order. */
  lemma MomentsInOrder()
    ensures |Moments| == 8 && forall k :: 0 <= k < 8 ==> Moments[k].id == k + 1
  {
  }

  /** Photo number `i` (from 1) of `year`, as one iteration of the loop in
      `generateYearPhotos` builds it. */
  function PhotoAt(year: int, i: int): (p: Photo)
    requires 1 <= i <= 20
    ensures p.year == year
    ensures p.prahariId == 2 * (i - 1) / 5 + 1
  {
    MomentsInOrder();
    var moment := Moments[MomentIndex(i)];
    var category := Categories[(i - 1) % |Categories|];
    var uniqueId := PhotoId(year, moment.id, i);
    Photo(
      uniqueId,
      year,
      "/photos/" + IntToString(year) + "/" + uniqueId + ".jpg",
      "/photos/" + IntToString(year) + "/thumbs/" + uniqueId + ".jpg",
      moment.name + " - " + Capitalize(category),
      moment.id,
      "Village Photographer",
      [category, "prahari-" + IntToString(moment.id), IntToString(year), Slug(moment.name)])
  }

  /** A photo's identifier names its year, its moment and its number, and
      its tags are its category, its moment tag, its year and its moment's
      slug, so the moment tag of photo `i` is the one of its moment. */
  lemma PhotoAtLabels(year: int, i: int)
    requires 1 <= i <= 20
    ensures var p := PhotoAt(year, i);
            && p.id == PhotoId(year, p.prahariId, i)
            && p.url == "/photos/" + IntToString(year) + "/" + p.id + ".jpg"
            && p.thumbnail == "/photos/" + IntToString(year) + "/thumbs/" + p.id + ".jpg"
            && |p.tags| == 4 && p.tags[0] == Categories[(i - 1) % 12]
            && p.tags[1] == "prahari-" + NatToString(p.prahariId)
            && p.tags[2] == IntToString(year)
            && p.tags[3] == Slug(Moments[p.prahariId - 1].name)
  {
    MomentsInOrder();
  }

  /** Photo `i` of `year`, as a partial function of `i`. */
  function PhotoOf(year: int): int --> Photo {
    (i: int) requires 1 <= i <= 20 => PhotoAt(year, i)
  }

  /** The twenty photos of `year`, in the order the loop pushes them. */
  function YearPhotos(year: int): (ps: seq<Photo>)
    ensures |ps| == 20
  {
    Seqs.Tabulate(PhotoOf(year), 20)
  }

  /** Position `j` of a year is photo number `j + 1`. */
  lemma YearPhotoAt(year: int, j: int)
    requires 0 <= j < 20
    ensures YearPhotos(year)[j] == PhotoAt(year, j + 1)
  {
    Seqs.TabulateAt(PhotoOf(year), 20, j);
  }

  /** Position `j` of a year carries the year and belongs to moment `2j div 5 + 1`. */
  lemma YearMomentAt(year: int, j: int)
    requires 0 <= j < 20
    ensures YearPhotos(year)[j].prahariId == 2 * j / 5 + 1
    ensures YearPhotos(year)[j].year == year
  {
    YearPhotoAt(year, j);
  }

  /** `generateYearPhotos(year)`: push photo 1 to photo 20 in turn. */
  method GenerateYearPhotos(year: int) returns (photos: seq<Photo>)
    ensures photos == YearPhotos(year)
  {
    photos := [];
    for i := 1 to 21
      invariant photos == Seqs.Tabulate(PhotoOf(year), i - 1)
    {
      assert PhotoOf(year)(i) == PhotoAt(year, i);
      photos := photos + [PhotoAt(year, i)];
    }
  }

  /** The photos of one moment form one contiguous run of the year: three
      photos for the odd-numbered moments and two for the even-numbered ones. */
  lemma MomentRuns(year: int, k: int)
    requires 1 <= k <= 8
    ensures Seqs.Filter(YearPhotos(year), HasMoment(k)) == YearPhotos(year)[RunStart(k)..RunStart(k + 1)]
    ensures |Seqs.Filter(YearPhotos(year), HasMoment(k))| == if k % 2 == 1 then 3 else 2
    ensures var r := Seqs.Filter(YearPhotos(year), HasMoment(k));
            forall j :: 0 <= j < |r| ==> r[j].year == year && r[j].prahariId == k
  {
    YearMoments(year);
    RunsOfMoments(YearPhotos(year), year, k);
  }

  /** Where the run of moment `k` starts within a year (from 0). */
  function RunStart(k: int): int {
    (5 * (k - 1) + 1) / 2
  }

  /** Every photo of a year carries the year, and position `j` the moment
      `2j div 5 + 1`. */
  lemma YearMoments(year: int)
    ensures forall j :: 0 <= j < 20 ==> YearPhotos(year)[j].prahariId == 2 * j / 5 + 1
    ensures forall j :: 0 <= j < 20 ==> YearPhotos(year)[j].year == year
  {
    forall j | 0 <= j < 20
      ensures YearPhotos(year)[j].prahariId == 2 * j / 5 + 1
      ensures YearPhotos(year)[j].year == year
    {
      YearMomentAt(year, j);
    }
  }

  /** Any twenty photos laid out moment by moment as a year is. */
  lemma RunsOfMoments(ps: seq<Photo>, year: int, k: int)
    requires |ps| == 20 && 1 <= k <= 8
    requires forall j :: 0 <= j < 20 ==> ps[j].prahariId == 2 * j / 5 + 1
    requires forall j :: 0 <= j < 20 ==> ps[j].year == year
    ensures Seqs.Filter(ps, HasMoment(k)) == ps[RunStart(k)..RunStart(k + 1)]
    ensures |Seqs.Filter(ps, HasMoment(k))| == if k % 2 == 1 then 3 else 2
    ensures var r := Seqs.Filter(ps, HasMoment(k));
            forall j :: 0 <= j < |r| ==> r[j].year == year && r[j].prahariId == k
  {
    forall j | 0 <= j < 20
      ensures HasMoment(k)(ps[j]) <==> RunStart(k) <= j < RunStart(k + 1)
    {
      MomentBlock(j, k);
    }
    RunLength(k);
    Seqs.FilterRange(ps, HasMoment(k), RunStart(k), RunStart(k + 1));
  }

  lemma RunLength(k: int)
    requires 1 <= k <= 8
    ensures RunStart(k + 1) - RunStart(k) == if k % 2 == 1 then 3 else 2
  {
  }

  /** Photo index `j` (from 0) has moment `k` exactly when it lies in the run
      `(5(k-1)+1)/2 .. (5k+1)/2`. */
  lemma MomentBlock(j: int, k: int)
    requires 0 <= j < 20 && 1 <= k <= 8
    ensures 2 * j / 5 + 1 == k <==> RunStart(k) <= j < RunStart(k + 1)
  {
  }

  /** `photoYears`: the years 2014 to 2025, each with its generated photos. */
  function PhotoYears(): (pys: seq<PhotoYear>)
    ensures |pys| == 12
    ensures forall k :: 0 <= k < 12 ==> pys[k].year == 2014 + k && |pys[k].photos| == 20
  {
    seq(12, k => PhotoYear(2014 + k, YearPhotos(2014 + k)))
  }

  /** Entry `k` of `photoYears` is year `2014 + k` with its generated photos. */
  lemma PhotoYearsAt(k: int)
    requires 0 <= k < 12
    ensures PhotoYears()[k] == PhotoYear(2014 + k, YearPhotos(2014 + k))
  {
  }

  /** `Array.prototype.find` on the year field. */
  function FindYear(pys: seq<PhotoYear>, year: int): (r: Option<PhotoYear>)
    ensures r.None? <==> forall k :: 0 <= k < |pys| ==> pys[k].year != year
    ensures r.Some? ==> r.value in pys && r.value.year == year
  {
    if pys == [] then None
    else if pys[0].year == year then Some(pys[0])
    else
      var r := FindYear(pys[1..], year);
      assert forall k :: 0 < k < |pys| ==> pys[k] == pys[1..][k - 1];
      r
  }

  /** `find` returns the first entry with the year. */
  lemma {:induction false} FindYearFirst(pys: seq<PhotoYear>, year: int, k: int)
    requires 0 <= k < |pys| && pys[k].year == year
    requires forall k' :: 0 <= k' < k ==> pys[k'].year != year
    ensures FindYear(pys, year) == Some(pys[k])
    ensures PhotosOfYear(pys, year) == pys[k].photos
  {
    if k > 0 {
      FindYearFirst(pys[1..], year, k - 1);
    }
  }

  /** `getPhotosByYear(year)`; the `|| []` fallback only matters when no year
      matches, since an array is always truthy. */
  function GetPhotosByYear(year: int): seq<Photo> {
    PhotosOfYear(PhotoYears(), year)
  }

  function PhotosOfYear(pys: seq<PhotoYear>, year: int): seq<Photo> {
    match FindYear(pys, year)
    case Some(py) => py.photos
    case None => []
  }

  /** A year of the archive gives that year's twenty photos; any other year
      gives none. */
  lemma GetPhotosByYearSpec(year: int)
    ensures 2014 <= year <= 2025 ==> GetPhotosByYear(year) == YearPhotos(year)
    ensures !(2014 <= year <= 2025) ==> GetPhotosByYear(year) == []
  {
    if 2014 <= year <= 2025 {
      ArchiveYearFound(year);
    } else {
      OtherYearAbsent(year);
    }
  }

  lemma ArchiveYearFound(year: int)
    requires 2014 <= year <= 2025
    ensures GetPhotosByYear(year) == YearPhotos(year)
  {
    var pys := PhotoYears();
    var k := year - 2014;
    assert year == 2014 + k;
    PhotoYearsAt(k);
    FindYearFirst(pys, year, k);
  }

  lemma OtherYearAbsent(year: int)
    requires !(2014 <= year <= 2025)
    ensures GetPhotosByYear(year) == []
  {
    var pys := PhotoYears();
    assert forall k :: 0 <= k < |pys| ==> pys[k].year != year;
    assert FindYear(pys, year).None?;
  }

  /** The photo lists of the years, in order. */
  function Blocks(pys: seq<PhotoYear>): (r: seq<seq<Photo>>)
    ensures |r| == |pys| && forall k :: 0 <= k < |pys| ==> r[k] == pys[k].photos
  {
    seq(|pys|, k requires 0 <= k < |pys| => pys[k].photos)
  }

  /** `pys.flatMap(py => py.photos)`: every photo, year after year. */
  function FlatPhotos(pys: seq<PhotoYear>): seq<Photo> {
    Seqs.Flatten(Blocks(pys))
  }

  /** Every photo of the archive. */
  function AllPhotos(): (r: seq<Photo>)
    ensures |r| == 240
  {
    Seqs.FlattenUniformLength(Blocks(PhotoYears()), 20);
    FlatPhotos(PhotoYears())
  }

  /** Position `20 k + j` of the whole archive is photo `j + 1` of year `2014 + k`. */
  lemma AllPhotosAt(k: int, j: int)
    requires 0 <= k < 12 && 0 <= j < 20
    ensures AllPhotos()[20 * k + j] == PhotoAt(2014 + k, j + 1)
  {
    FlatPhotosAt(PhotoYears(), k, j);
    PhotoYearsAt(k);
    YearPhotoAt(2014 + k, j);
  }

  /** In a year list whose years hold twenty photos each, position `20 k + j`
      of the flattening is photo `j` of entry `k`. */
  lemma FlatPhotosAt(pys: seq<PhotoYear>, k: int, j: int)
    requires forall i :: 0 <= i < |pys| ==> |pys[i].photos| == 20
    requires 0 <= k < |pys| && 0 <= j < 20
    ensures 20 * k + j < |FlatPhotos(pys)| && FlatPhotos(pys)[20 * k + j] == pys[k].photos[j]
  {
    Seqs.FlattenUniformAt(Blocks(pys), 20, k, j);
  }

  function HasMoment(prahariId: int): Photo -> bool {
    (p: Photo) => p.prahariId == prahariId
  }

  function HasTag(tag: string): Photo -> bool {
    (p: Photo) => tag in p.tags
  }

  /** `getPhotosByPrahari(prahariId)`. */
  function GetPhotosByPrahari(prahariId: int): (r: seq<Photo>)
    ensures forall p :: p in r <==> p in AllPhotos() && p.prahariId == prahariId
  {
    Seqs.Filter(AllPhotos(), HasMoment(prahariId))
  }

  /** Each odd watch has three photos a year and each even watch two, so
      the whole archive holds 36 photos of an odd watch and 24 of an even one. */
  lemma PrahariCount(k: int)
    requires 1 <= k <= 8
    ensures |GetPhotosByPrahari(k)| == if k % 2 == 1 then 36 else 24
  {
    var blocks := Blocks(PhotoYears());
    var c := if k % 2 == 1 then 3 else 2;
    forall y | 0 <= y < |blocks|
      ensures |Seqs.Filter(blocks[y], HasMoment(k))| == c
    {
      PhotoYearsAt(y);
      MomentRuns(2014 + y, k);
    }
    Seqs.FilterFlattenLength(blocks, HasMoment(k), c);
  }

  /** `getPhotosByTag(tag)`. */
  function GetPhotosByTag(tag: string): (r: seq<Photo>)
    ensures forall p :: p in r <==> p in AllPhotos() && tag in p.tags
  {
    Seqs.Filter(AllPhotos(), HasTag(tag))
  }

  /** `totalPhotos`: the sum of the years' photo counts. */
  function SumOfCounts(pys: seq<PhotoYear>): nat {
    if pys == [] then 0 else |pys[0].photos| + SumOfCounts(pys[1..])
  }

  function TotalPhotos(): nat {
    SumOfCounts(PhotoYears())
  }

  function TotalYears(): nat {
    |PhotoYears()|
  }

  /** Twelve years of twenty photos: 240 in all, the length of the whole archive. */
  lemma Totals()
    ensures TotalYears() == 12
    ensures TotalPhotos() == 240 && |AllPhotos()| == 240
  {
    var pys := PhotoYears();
    SumOfTwenties(pys);
  }

  lemma {:induction false} SumOfTwenties(pys: seq<PhotoYear>)
    requires forall k :: 0 <= k < |pys| ==> |pys[k].photos| == 20
    ensures SumOfCounts(pys) == 20 * |pys|
  {
    if pys != [] {
      SumOfTwenties(pys[1..]);
    }
  }

  /** Two photos of four-digit years with the same identifier are the same
      photo number of the same year. */
  lemma PhotoIdsDistinct(y1: int, i1: int, y2: int, i2: int)
    requires 1000 <= y1 < 10000 && 1000 <= y2 < 10000
    requires 1 <= i1 <= 20 && 1 <= i2 <= 20
    requires PhotoAt(y1, i1).id == PhotoAt(y2, i2).id
    ensures y1 == y2 && i1 == i2
  {
    PhotoAtLabels(y1, i1);
    PhotoAtLabels(y2, i2);
    PhotoIdInjective(y1, PhotoAt(y1, i1).prahariId, i1, y2, PhotoAt(y2, i2).prahariId, i2);
  }

  /** The identifier of a four-digit year, a one-digit moment and a photo
      number up to 20 determines the year and the number. */
  lemma PhotoIdInjective(y1: int, m1: int, i1: int, y2: int, m2: int, i2: int)
    requires 1000 <= y1 < 10000 && 1000 <= y2 < 10000
    requires 1 <= m1 <= 8 && 1 <= m2 <= 8
    requires 1 <= i1 <= 20 && 1 <= i2 <= 20
    requires PhotoId(y1, m1, i1) == PhotoId(y2, m2, i2)
    ensures y1 == y2 && i1 == i2
  {
    PhotoIdParts(y1, m1, i1);
    PhotoIdParts(y2, m2, i2);
    Pad3Value(i1);
    Pad3Value(i2);
    NatToStringInjective(y1, y2);
  }

  lemma PhotoIdParts(year: int, m: int, i: int)
    requires 1000 <= year < 10000 && 1 <= m <= 8 && 1 <= i <= 20
    ensures |PhotoId(year, m, i)| == 10
    ensures PhotoId(year, m, i)[..4] == NatToString(year)
    ensures PhotoId(year, m, i)[7..] == Pad3(i)
  {
    Pad3Value(i);
    var id := PhotoId(year, m, i);
    assert id == NatToString(year) + "-" + NatToString(m) + "-" + Pad3(i);
  }

  /** No two photos of the archive share an identifier: the photo at year
      slot `k1`, position `j1` and the one at a different slot or position differ. */
  lemma ArchiveIdsUnique(k1: int, j1: int, k2: int, j2: int)
    requires 0 <= k1 < 12 && 0 <= j1 < 20 && 0 <= k2 < 12 && 0 <= j2 < 20
    requires k1 != k2 || j1 != j2
    ensures 20 * k1 + j1 != 20 * k2 + j2
    ensures AllPhotos()[20 * k1 + j1].id != AllPhotos()[20 * k2 + j2].id
  {
    AllPhotosAt(k1, j1);
    AllPhotosAt(k2, j2);
    PhotoIdsDiffer(2014 + k1, j1 + 1, 2014 + k2, j2 + 1);
  }

  lemma PhotoIdsDiffer(y1: int, i1: int, y2: int, i2: int)
    requires 1000 <= y1 < 10000 && 1000 <= y2 < 10000
    requires 1 <= i1 <= 20 && 1 <= i2 <= 20
    requires y1 != y2 || i1 != i2
    ensures PhotoAt(y1, i1).id != PhotoAt(y2, i2).id
  {
    if PhotoAt(y1, i1).id == PhotoAt(y2, i2).id {
      PhotoIdsDistinct(y1, i1, y2, i2);
    }
  }
}
