/**
 * SearchResult (second generation, com.cuddlesoft.nori.api): the images of a search, the total
 * count, the paging offset, the query tags and whether another page may exist.
 *
 * Image itself (com/cuddlesoft/nori/api/Image.java) is not part of this model: it is a record
 * with the fields the modelled code reads, and the rating values are those of the first
 * generation's enum.
 */
module SearchResults {
  import opened Wrappers
  import opened JavaInts
  import opened Parcels
  import opened Seqs
  import opened Tags

  datatype Rating = Undefined | Safe | Questionable | Explicit

  datatype Image = Image(
    id: int,
    tags: seq<Tag>,
    rating: Rating,
    fileUrl: string,
    sampleUrl: string,
    previewUrl: string,
    webUrl: string,
    pixivId: Option<string>)

  datatype SearchResult = SearchResult(
    images: seq<Image>,
    count: Int32,
    offset: Int32,
    query: seq<Tag>,
    hasNextPage: bool)

  /** SearchResult(images, query, count, offset): a copy of both arrays; another page may exist. */
  function New(images: seq<Image>, query: seq<Tag>, count: Int32, offset: Int32): (r: SearchResult)
    ensures r.images == images && r.query == query
    ensures r.count == count && r.offset == offset
    ensures r.hasNextPage
  {
    SearchResult(images, count, offset, query, true)
  }

  // ---------------------------------------------------------------------------------------------
  // CollectionUtils.filter: keep the elements a predicate accepts, in order.

  function Keep(xs: seq<Image>, p: Image -> bool): (r: seq<Image>)
    ensures |r| <= |xs|
    ensures forall i :: 0 <= i < |r| ==> p(r[i])
    ensures forall x :: x in r <==> x in xs && p(x)
  {
    if xs == [] then []
    else if p(xs[0]) then [xs[0]] + Keep(xs[1..], p)
    else Keep(xs[1..], p)
  }

  /** Filtering works element by element: it distributes over concatenation. */
  lemma {:induction false} KeepAppend(a: seq<Image>, b: seq<Image>, p: Image -> bool)
    ensures Keep(a + b, p) == Keep(a, p) + Keep(b, p)
    decreases |a|
  {
    if a != [] {
      var ab := a + b;
      assert ab[0] == a[0] && ab[1..] == a[1..] + b;
      KeepAppend(a[1..], b, p);
      KeepCons(ab, p);
      KeepCons(a, p);
      var h := if p(a[0]) then [a[0]] else [];
      JoinAssociative(h, Keep(a[1..], p), Keep(b, p));
    } else {
      assert a + b == b;
    }
  }

  /** The first element kept (when the predicate accepts it), then the rest's survivors. */
  lemma KeepCons(xs: seq<Image>, p: Image -> bool)
    requires xs != []
    ensures Keep(xs, p) == (if p(xs[0]) then [xs[0]] else []) + Keep(xs[1..], p)
  {
    if !p(xs[0]) {
      assert [] + Keep(xs[1..], p) == Keep(xs[1..], p);
    }
  }

  lemma JoinAssociative(x: seq<Image>, y: seq<Image>, z: seq<Image>)
    ensures (x + y) + z == x + (y + z)
  {
  }

  /** What survives a filter survives it again. */
  lemma {:induction false} KeepIdempotent(xs: seq<Image>, p: Image -> bool)
    ensures Keep(Keep(xs, p), p) == Keep(xs, p)
    decreases |xs|
  {
    if xs != [] {
      KeepIdempotent(xs[1..], p);
      if p(xs[0]) {
        assert ([xs[0]] + Keep(xs[1..], p))[1..] == Keep(xs[1..], p);
      }
    }
  }

  lemma {:induction false} KeepAll(xs: seq<Image>, p: Image -> bool)
    requires forall i :: 0 <= i < |xs| ==> p(xs[i])
    ensures Keep(xs, p) == xs
    decreases |xs|
  {
    if xs != [] {
      KeepAll(xs[1..], p);
    }
  }

  // ---------------------------------------------------------------------------------------------
  // filter(Tag[])

  /** containsAny(image.tags, list) under Tag.equals, which compares names. */
  predicate SharesTag(image: Image, list: seq<Tag>) {
    exists i, j :: 0 <= i < |image.tags| && 0 <= j < |list| && image.tags[i].name == list[j].name
  }

  /** CollectionUtils.removeAll(list, remove): the elements of list not equal to any of remove. */
  function RemoveAll(list: seq<Tag>, remove: seq<Tag>): (r: seq<Tag>)
    ensures forall t :: t in r <==> t in list && forall j :: 0 <= j < |remove| ==> remove[j].name != t.name
  {
    if list == [] then []
    else
      var rest := RemoveAll(list[1..], remove);
      if exists j :: 0 <= j < |remove| && remove[j].name == list[0].name then rest
      else [list[0]] + rest
  }

  /**
   * filter(tags) as written: the value removeAll returns is dropped, so the list it filters by
   * still holds the query's own tags.
   */
  function FilterTagsAsWritten(r: SearchResult, tags: Option<seq<Tag>>): (s: SearchResult)
    ensures tags.None? || tags.value == [] ==> s == r
    ensures tags.Some? && tags.value != [] ==> s.images == Keep(r.images, (img: Image) => !SharesTag(img, tags.value))
    ensures s.(images := r.images) == r
  {
    if tags.None? || |tags.value| == 0 then r
    else
      var tagList := tags.value;
      var _ := RemoveAll(tagList, r.query);
      r.(images := Keep(r.images, (img: Image) => !SharesTag(img, tagList)))
  }

  /**
   * filter(tags) as its comment intends: tags the user searched for are taken out of the filter
   * list first, then every image sharing a tag with what is left is removed.
   */
  function FilterTags(r: SearchResult, tags: Option<seq<Tag>>): (s: SearchResult)
    ensures tags.None? || tags.value == [] ==> s == r
    ensures s.(images := r.images) == r
  {
    if tags.None? || |tags.value| == 0 then r
    else
      var tagList := RemoveAll(tags.value, r.query);
      r.(images := Keep(r.images, (img: Image) => !SharesTag(img, tagList)))
  }

  /** A tag the filter names removes an image unless the query itself names it. */
  predicate Blocked(image: Image, filter: seq<Tag>, query: seq<Tag>) {
    exists i, j :: 0 <= i < |image.tags| && 0 <= j < |filter|
      && image.tags[i].name == filter[j].name
      && forall k :: 0 <= k < |query| ==> query[k].name != filter[j].name
  }

  /** The corrected filter keeps exactly the images no non-query filter tag blocks, in order. */
  lemma FilterTagsKeeps(r: SearchResult, tags: seq<Tag>)
    requires tags != []
    ensures FilterTags(r, Some(tags)).images == Keep(r.images, (img: Image) => !Blocked(img, tags, r.query))
  {
    var tagList := RemoveAll(tags, r.query);
    var p := (img: Image) => !SharesTag(img, tagList);
    var q := (img: Image) => !Blocked(img, tags, r.query);
    forall img: Image
      ensures p(img) == q(img)
    {
      SharedIsBlocked(img, tags, r.query);
      BlockedIsShared(img, tags, r.query);
    }
    KeepSame(r.images, p, q);
  }

  /** A tag left in the filter list after the query's are removed blocks the image. */
  lemma SharedIsBlocked(img: Image, tags: seq<Tag>, query: seq<Tag>)
    ensures SharesTag(img, RemoveAll(tags, query)) ==> Blocked(img, tags, query)
  {
    var tagList := RemoveAll(tags, query);
    if SharesTag(img, tagList) {
      var i, j :| 0 <= i < |img.tags| && 0 <= j < |tagList| && img.tags[i].name == tagList[j].name;
      assert tagList[j] in tagList;
      var j' :| 0 <= j' < |tags| && tags[j'] == tagList[j];
      assert img.tags[i].name == tags[j'].name;
    }
  }

  /** A blocking tag is one the filter list keeps. */
  lemma BlockedIsShared(img: Image, tags: seq<Tag>, query: seq<Tag>)
    ensures Blocked(img, tags, query) ==> SharesTag(img, RemoveAll(tags, query))
  {
    var tagList := RemoveAll(tags, query);
    if Blocked(img, tags, query) {
      var i, j :| 0 <= i < |img.tags| && 0 <= j < |tags| && img.tags[i].name == tags[j].name
        && forall k :: 0 <= k < |query| ==> query[k].name != tags[j].name;
      assert tags[j] in tagList;
      var j' :| 0 <= j' < |tagList| && tagList[j'] == tags[j];
      assert img.tags[i].name == tagList[j'].name;
    }
  }

  lemma {:induction false} KeepSame(xs: seq<Image>, p: Image -> bool, q: Image -> bool)
    requires forall x :: p(x) == q(x)
    ensures Keep(xs, p) == Keep(xs, q)
    decreases |xs|
  {
    if xs != [] {
      KeepSame(xs[1..], p, q);
    }
  }

  /**
   * The difference, on one image: searching for "a" and filtering "a" removes the image tagged
   * "a" as written, and keeps it once the query tags are exempted.
   */
  lemma QueryTagNotExempted()
    ensures var t := NewTag("a");
            var img := Image(1, [t], Safe, "", "", "", "", None);
            var r := New([img], [t], 1, 0);
            FilterTagsAsWritten(r, Some([t])).images == [] && FilterTags(r, Some([t])).images == [img]
  {
    var t := NewTag("a");
    var img := Image(1, [t], Safe, "", "", "", "", None);
    var r := New([img], [t], 1, 0);
    assert SharesTag(img, [t]) by {
      assert img.tags[0].name == [t][0].name;
    }
    assert RemoveAll([t], [t]) == [] by {
      assert [t][0].name == [t][0].name;
    }
  }

  /** Filtering by tags twice is filtering once. */
  lemma FilterTagsIdempotent(r: SearchResult, tags: Option<seq<Tag>>)
    ensures FilterTags(FilterTags(r, tags), tags) == FilterTags(r, tags)
  {
    if tags.Some? && tags.value != [] {
      var tagList := RemoveAll(tags.value, r.query);
      KeepIdempotent(r.images, (img: Image) => !SharesTag(img, tagList));
    }
  }

  // ---------------------------------------------------------------------------------------------
  // filter(ObscenityRating[])

  /** filter(ratings): null or empty leaves the result alone; else listed ratings are removed. */
  function FilterRatings(r: SearchResult, ratings: Option<seq<Rating>>): (s: SearchResult)
    ensures ratings.None? || ratings.value == [] ==> s == r
    ensures s.(images := r.images) == r
    ensures forall x :: x in s.images <==> x in r.images && (ratings.None? || ratings.value == [] || x.rating !in ratings.value)
  {
    if ratings.None? || |ratings.value| == 0 then r
    else
      var list := ratings.value;
      r.(images := Keep(r.images, (img: Image) => img.rating !in list))
  }

  /** The rating filter keeps exactly the unlisted images, in their original order. */
  lemma FilterRatingsKeeps(r: SearchResult, ratings: seq<Rating>, a: seq<Image>, b: seq<Image>)
    requires ratings != [] && r.images == a + b
    ensures FilterRatings(r, Some(ratings)).images
         == FilterRatings(r.(images := a), Some(ratings)).images + FilterRatings(r.(images := b), Some(ratings)).images
  {
    KeepAppend(a, b, (img: Image) => img.rating !in ratings);
  }

  lemma FilterRatingsIdempotent(r: SearchResult, ratings: Option<seq<Rating>>)
    ensures FilterRatings(FilterRatings(r, ratings), ratings) == FilterRatings(r, ratings)
  {
    if ratings.Some? && ratings.value != [] {
      var list := ratings.value;
      KeepIdempotent(r.images, (img: Image) => img.rating !in list);
    }
  }

  /** A result none of whose images carries a listed rating is left as it is. */
  lemma FilterRatingsNothingToRemove(r: SearchResult, ratings: seq<Rating>)
    requires forall i :: 0 <= i < |r.images| ==> r.images[i].rating !in ratings
    ensures FilterRatings(r, Some(ratings)) == r
  {
    if ratings != [] {
      KeepAll(r.images, (img: Image) => img.rating !in ratings);
    }
  }

  // ---------------------------------------------------------------------------------------------
  // Paging

  /** addImages(images, offset): appended after the existing images; the offset replaced. */
  function AddImages(r: SearchResult, more: seq<Image>, offset: Int32): (s: SearchResult)
    ensures |s.images| == |r.images| + |more|
    ensures s.images[..|r.images|] == r.images && s.images[|r.images|..] == more
    ensures s.offset == offset
    ensures s.count == r.count && s.query == r.query && s.hasNextPage == r.hasNextPage
  {
    r.(images := r.images + more, offset := offset)
  }

  /** onLastPage(): no further page. */
  function OnLastPage(r: SearchResult): (s: SearchResult)
    ensures !s.hasNextPage
    ensures s.(hasNextPage := r.hasNextPage) == r
  {
    r.(hasNextPage := false)
  }

  /** Once the last page is reached no operation of the class brings the next page back. */
  lemma LastPageIsFinal(r: SearchResult, more: seq<Image>, offset: Int32, tags: Option<seq<Tag>>, ratings: Option<seq<Rating>>)
    requires !r.hasNextPage
    ensures !AddImages(r, more, offset).hasNextPage
    ensures !FilterTags(r, tags).hasNextPage && !FilterRatings(r, ratings).hasNextPage
    ensures !OnLastPage(r).hasNextPage
  {
  }

  /** The list the constructor creates: Arrays.asList is fixed-size, the parcel's list is not. */
  datatype Backing = FixedSize | Growable

  /**
   * addImages as written on a result built by the array constructor: the list from
   * Arrays.asList refuses addAll of anything non-empty with UnsupportedOperationException.
   */
  function AddImagesAsWritten(r: SearchResult, backing: Backing, more: seq<Image>, offset: Int32): (s: Result<SearchResult>)
    ensures s.Err? <==> backing == FixedSize && more != []
    ensures s.Ok? ==> s.value == AddImages(r, more, offset)
  {
    if backing == FixedSize && more != [] then Err(UnsupportedOperation)
    else Ok(AddImages(r, more, offset))
  }

  /**
   * CollectionUtils.filter as written on the same list: removing through the iterator of a
   * fixed-size list throws UnsupportedOperationException, so a filter only succeeds there when
   * every image passes, and then changes nothing.
   */
  function KeepAsWritten(xs: seq<Image>, p: Image -> bool, backing: Backing): (r: Result<seq<Image>>)
    ensures r.Err? <==> backing == FixedSize && exists i :: 0 <= i < |xs| && !p(xs[i])
    ensures r.Ok? ==> r.value == Keep(xs, p)
    ensures r.Ok? && backing == FixedSize ==> r.value == xs
  {
    if backing == FixedSize && exists i :: 0 <= i < |xs| && !p(xs[i]) then Err(UnsupportedOperation)
    else if backing == FixedSize then
      KeepAll(xs, p);
      Ok(Keep(xs, p))
    else Ok(Keep(xs, p))
  }

  /** A fresh result from the constructor cannot drop an image by filtering either. */
  lemma FilterOnFreshResultRejected(images: seq<Image>, p: Image -> bool, i: nat)
    requires i < |images| && !p(images[i])
    ensures KeepAsWritten(images, p, FixedSize) == Err(UnsupportedOperation)
  {
  }

  /** A fresh result from the constructor cannot take a second page. */
  lemma SecondPageRejected(images: seq<Image>, query: seq<Tag>, count: Int32, more: seq<Image>, offset: Int32)
    requires more != []
    ensures AddImagesAsWritten(New(images, query, count, 0), FixedSize, more, offset) == Err(UnsupportedOperation)
  {
  }

  /** The growable model: two pages appended are the concatenation of both. */
  lemma AddImagesTwice(r: SearchResult, a: seq<Image>, b: seq<Image>, o1: Int32, o2: Int32)
    ensures AddImages(AddImages(r, a, o1), b, o2) == AddImages(r, a + b, o2)
  {
    assert r.images + a + b == r.images + (a + b);
  }

  // ---------------------------------------------------------------------------------------------
  // Parcel: images, count, offset, query, hasNextPage.

  function WriteImages(xs: seq<Image>): (r: seq<Slot<Image>>)
    ensures |r| == 2 * |xs|
  {
    if xs == [] then [] else [IntSlot(1), ObjSlot(xs[0])] + WriteImages(xs[1..])
  }

  /** writeTypedList: the size, then a marker and the image for each element. */
  function WriteImageList(xs: seq<Image>): (r: seq<Slot<Image>>)
    requires |xs| < 0x8000_0000
    ensures |r| == 1 + 2 * |xs|
  {
    [IntSlot(|xs|)] + WriteImages(xs)
  }

  /**
   * n elements of a typed list; a null element is reported as an error. Each element is a
   * non-null marker followed by the image's own slot.
   */
  function ReadImages(p: seq<Slot<Image>>, pos: nat, n: nat): (r: Result<(seq<Image>, nat)>)
    ensures r.Ok? ==> |r.value.0| == n && r.value.1 == pos + 2 * n
    decreases n
  {
    if n == 0 then Ok(([], pos))
    else
      match ReadInt(p, pos)
      case Err(e) => Err(e)
      case Ok((marker, next)) =>
        if marker == 0 then Err(NullPointer)
        else if next < |p| && p[next].ObjSlot? then
          match ReadImages(p, next + 1, n - 1)
          case Err(e) => Err(e)
          case Ok((rest, last)) => Ok(([p[next].o] + rest, last))
        else Err(IllegalArgument)
  }

  /** createTypedArrayList: a negative size is a null list. */
  function ReadImageList(p: seq<Slot<Image>>, pos: nat): (r: Result<(Option<seq<Image>>, nat)>)
    ensures r.Ok? && r.value.0.None? ==> r.value.1 == pos + 1
    ensures r.Ok? && r.value.0.Some? ==> |r.value.0.value| < 0x8000_0000 && r.value.1 == pos + 1 + 2 * |r.value.0.value|
  {
    match ReadInt(p, pos)
    case Err(e) => Err(e)
    case Ok((n, next)) =>
      if n < 0 then Ok((None, next))
      else
        match ReadImages(p, next, n)
        case Err(e) => Err(e)
        case Ok((xs, after)) => Ok((Some(xs), after))
  }

  /** Element i of a read list is a non-null marker at pos + 2i and the image in the slot after it. */
  lemma {:induction false} ReadImagesElement(p: seq<Slot<Image>>, pos: nat, n: nat, i: nat)
    requires ReadImages(p, pos, n).Ok? && i < n
    ensures pos + 2 * i + 1 < |p| && p[pos + 2 * i].IntSlot? && p[pos + 2 * i].i != 0
    ensures p[pos + 2 * i + 1] == ObjSlot(ReadImages(p, pos, n).value.0[i])
    decreases i
  {
    if i > 0 {
      var xs := ReadImages(p, pos, n).value.0;
      ReadImagesElement(p, pos + 2, n - 1, i - 1);
      assert ReadImages(p, pos + 2, n - 1).value.0 == xs[1..];
      assert pos + 2 + 2 * (i - 1) == pos + 2 * i;
    }
  }

  lemma {:induction false} ImagesRoundTrip(xs: seq<Image>, p: seq<Slot<Image>>, pos: nat)
    requires pos + 2 * |xs| <= |p| && p[pos..pos + 2 * |xs|] == WriteImages(xs)
    ensures ReadImages(p, pos, |xs|) == Ok((xs, pos + 2 * |xs|))
    decreases |xs|
  {
    if xs != [] {
      var w := WriteImages(xs);
      assert w == [IntSlot(1), ObjSlot(xs[0])] + WriteImages(xs[1..]);
      assert p[pos] == w[0] && p[pos + 1] == w[1];
      assert w[2..] == WriteImages(xs[1..]);
      SliceOfSlice(p, pos, pos + 2 * |xs|, 2, 2 * |xs|);
      ImagesRoundTrip(xs[1..], p, pos + 2);
      assert [xs[0]] + xs[1..] == xs;
    }
  }

  predicate Parcelable(r: SearchResult) {
    |r.images| < 0x8000_0000 && |r.query| < 0x8000_0000
  }

  /** writeToParcel. */
  function WriteSearchResult(r: SearchResult): (p: seq<Slot<Image>>)
    requires Parcelable(r)
    ensures |p| == 5 + 2 * |r.images| + 3 * |r.query|
  {
    WriteImageList(r.images)
      + [IntSlot(r.count), IntSlot(r.offset)]
      + WriteTagArray(r.query)
      + WriteByte(if r.hasNextPage then 1 else 0)
  }

  /**
   * SearchResult(Parcel), reading in the order of writeToParcel. A null image list or query is
   * reported as an error, since the model's results always have both.
   */
  function ReadSearchResult(p: seq<Slot<Image>>): (r: Result<SearchResult>)
    ensures r.Ok? ==> Parcelable(r.value)
    ensures r.Ok? ==> 5 + 2 * |r.value.images| + 3 * |r.value.query| <= |p|
  {
    match ReadImageList(p, 0)
    case Err(e) => Err(e)
    case Ok((images, p1)) =>
      match ReadInt(p, p1)
      case Err(e) => Err(e)
      case Ok((count, p2)) =>
        match ReadInt(p, p2)
        case Err(e) => Err(e)
        case Ok((offset, p3)) =>
          match ReadTagArray(p, p3)
          case Err(e) => Err(e)
          case Ok((query, p4)) =>
            match ReadByte(p, p4)
            case Err(e) => Err(e)
            case Ok((b, _)) =>
              if images.None? || query.None? then Err(NullPointer)
              else Ok(SearchResult(images.value, count, offset, query.value, b == 1))
  }

  lemma ImageListRoundTrip(xs: seq<Image>, p: seq<Slot<Image>>, pos: nat)
    requires |xs| < 0x8000_0000
    requires pos + 1 + 2 * |xs| <= |p| && p[pos..pos + 1 + 2 * |xs|] == WriteImageList(xs)
    ensures ReadImageList(p, pos) == Ok((Some(xs), pos + 1 + 2 * |xs|))
  {
    var w := WriteImageList(xs);
    assert p[pos] == w[0];
    assert w[1..] == WriteImages(xs);
    SliceOfSlice(p, pos, pos + 1 + 2 * |xs|, 1, 1 + 2 * |xs|);
    ImagesRoundTrip(xs, p, pos + 1);
  }

  /** A parcel round trip preserves all five fields. */
  lemma ParcelRoundTrip(r: SearchResult)
    requires Parcelable(r)
    ensures ReadSearchResult(WriteSearchResult(r)) == Ok(r)
  {
    var p := WriteSearchResult(r);
    var n1 := 1 + 2 * |r.images|;
    var n4 := n1 + 3 + 3 * |r.query|;
    ParcelImages(r);
    ParcelInts(r);
    ParcelQuery(r);
    ParcelByte(r);
    ReadParts(p, r.images, r.count, r.offset, r.query, if r.hasNextPage then 1 else 0, n1, n4);
  }

  /** The parcel in its four parts: image list, count and offset, query array, next-page byte. */
  lemma ParcelParts(r: SearchResult)
    requires Parcelable(r)
    ensures var p := WriteSearchResult(r);
            var n1 := 1 + 2 * |r.images|;
            var n3 := n1 + 2;
            p[..n1] == WriteImageList(r.images) && p[n1] == IntSlot(r.count) && p[n1 + 1] == IntSlot(r.offset)
            && p[n3..n3 + 1 + 3 * |r.query|] == WriteTagArray(r.query)
            && p[n3 + 1 + 3 * |r.query|] == IntSlot(if r.hasNextPage then 1 else 0)
  {
    var a := WriteImageList(r.images);
    var b: seq<Slot<Image>> := [IntSlot(r.count), IntSlot(r.offset)];
    var c := WriteTagArray<Image>(r.query);
    var d := WriteByte<Image>(if r.hasNextPage then 1 else 0);
    ConcatSlices(a, b, c, d);
    var p := a + b + c + d;
    assert p[|a|] == b[0] && p[|a| + 1] == b[1];
    assert p[|a| + |b| + |c|] == d[0];
  }

  lemma ParcelImages(r: SearchResult)
    requires Parcelable(r)
    ensures ReadImageList(WriteSearchResult(r), 0) == Ok((Some(r.images), 1 + 2 * |r.images|))
  {
    ParcelParts(r);
    var p := WriteSearchResult(r);
    assert p[0..1 + 2 * |r.images|] == p[..1 + 2 * |r.images|];
    ImageListRoundTrip(r.images, p, 0);
  }

  lemma ParcelInts(r: SearchResult)
    requires Parcelable(r)
    ensures var n1 := 1 + 2 * |r.images|;
            ReadInt(WriteSearchResult(r), n1) == Ok((r.count, n1 + 1))
            && ReadInt(WriteSearchResult(r), n1 + 1) == Ok((r.offset, n1 + 2))
  {
    ParcelParts(r);
  }

  lemma ParcelQuery(r: SearchResult)
    requires Parcelable(r)
    ensures var n3 := 3 + 2 * |r.images|;
            ReadTagArray(WriteSearchResult(r), n3) == Ok((Some(r.query), n3 + 1 + 3 * |r.query|))
  {
    ParcelParts(r);
    TagArrayRoundTrip(r.query, WriteSearchResult(r), 3 + 2 * |r.images|);
  }

  lemma ParcelByte(r: SearchResult)
    requires Parcelable(r)
    ensures var n4 := 4 + 2 * |r.images| + 3 * |r.query|;
            ReadByte(WriteSearchResult(r), n4) == Ok((if r.hasNextPage then 1 else 0, n4 + 1))
  {
    ParcelParts(r);
    ReadByteAt(WriteSearchResult(r), 4 + 2 * |r.images| + 3 * |r.query|, if r.hasNextPage then 1 else 0);
  }

  /** The reads of the five fields, in turn, make up the result. */
  lemma ReadParts(p: seq<Slot<Image>>, images: seq<Image>, count: Int32, offset: Int32, query: seq<Tag>,
                  byte: int, i1: nat, i4: nat)
    requires ReadImageList(p, 0) == Ok((Some(images), i1))
    requires ReadInt(p, i1) == Ok((count, i1 + 1)) && ReadInt(p, i1 + 1) == Ok((offset, i1 + 2))
    requires ReadTagArray(p, i1 + 2) == Ok((Some(query), i4))
    requires ReadByte(p, i4) == Ok((byte, i4 + 1))
    ensures ReadSearchResult(p) == Ok(SearchResult(images, count, offset, query, byte == 1))
  {
  }

  lemma ReadByteAt(p: seq<Slot<Image>>, pos: nat, b: int)
    requires -128 <= b < 128 && pos < |p| && p[pos] == IntSlot(b)
    ensures ReadByte(p, pos) == Ok((b, pos + 1))
  {
  }
}
