/**
 * TagListDialogFragment (first generation): the list of an image's tags, copyright tags first,
 * then character, artist and general tags, each group coloured by its kind; clicking a tag
 * searches for it.
 */
module PeTagListDialog {
  import opened Wrappers
  import opened PeImages

  /** The text colours the list uses; general tags keep the default one. */
  datatype Colour = CopyrightColour | CharacterColour | ArtistColour | DefaultColour

  function All(group: Option<seq<string>>): (r: seq<string>)
    ensures |r| == LengthOrZero(group)
    ensures group.Some? ==> r == group.value
  {
    if group.None? then [] else group.value
  }

  /** The adapter's list: nothing for a null image; otherwise every non-null group in order. */
  function TagList(image: Option<PeImage>): (r: seq<string>)
    ensures image.None? ==> r == []
    ensures image.Some? ==>
              var i := image.value;
              |r| == LengthOrZero(i.copyrightTags) + LengthOrZero(i.characterTags) + LengthOrZero(i.artistTags) + LengthOrZero(i.generalTags)
  {
    if image.None? then []
    else
      var i := image.value;
      All(i.copyrightTags) + All(i.characterTags) + All(i.artistTags) + All(i.generalTags)
  }

  /** getCount. */
  function Count(image: Option<PeImage>): (n: nat)
    ensures n == |TagList(image)|
  {
    |TagList(image)|
  }

  /** getItem: the tag at the position; outside the list it throws. */
  function GetItem(image: Option<PeImage>, position: int): (r: Result<string>)
    ensures r.Ok? <==> 0 <= position < Count(image)
    ensures r.Ok? ==> r.value == TagList(image)[position]
  {
    var tags := TagList(image);
    if 0 <= position < |tags| then Ok(tags[position]) else Err(IndexOutOfBounds)
  }

  /** getItemId: the position. */
  function GetItemId(position: int): (id: int)
    ensures id == position
  {
    position
  }

  /**
   * setItemTextColor: copyright below the copyright count, character below the copyright and
   * character counts, artist below the three counts; a null group's branch is skipped and counts
   * as empty in the later bounds. A null image throws.
   */
  function ItemColour(image: Option<PeImage>, position: int): (r: Result<Colour>)
    ensures r.Err? <==> image.None?
  {
    if image.None? then Err(NullPointer)
    else
      var i := image.value;
      if i.copyrightTags.Some? && position < |i.copyrightTags.value| then Ok(CopyrightColour)
      else if i.characterTags.Some? && position < LengthOrZero(i.copyrightTags) + |i.characterTags.value| then Ok(CharacterColour)
      else if i.artistTags.Some? && position < LengthOrZero(i.copyrightTags) + LengthOrZero(i.characterTags) + |i.artistTags.value| then Ok(ArtistColour)
      else Ok(DefaultColour)
  }

  /** The group a list position falls in, and the tag's index inside that group. */
  function GroupOf(i: PeImage, position: nat): (r: (Colour, nat))
  {
    var cp := LengthOrZero(i.copyrightTags);
    var ch := LengthOrZero(i.characterTags);
    var ar := LengthOrZero(i.artistTags);
    if position < cp then (CopyrightColour, position)
    else if position < cp + ch then (CharacterColour, position - cp)
    else if position < cp + ch + ar then (ArtistColour, position - cp - ch)
    else (DefaultColour, position - cp - ch - ar)
  }

  /**
   * Every row is coloured after the group its tag came from, and shows that group's tag: the
   * colour bounds and the list's concatenation agree, null groups included.
   */
  lemma ColourMatchesGroup(i: PeImage, position: nat)
    requires position < Count(Some(i))
    ensures ItemColour(Some(i), position) == Ok(GroupOf(i, position).0)
    ensures var (kind, k) := GroupOf(i, position);
            match kind
            case CopyrightColour => k < LengthOrZero(i.copyrightTags) && TagList(Some(i))[position] == All(i.copyrightTags)[k]
            case CharacterColour => k < LengthOrZero(i.characterTags) && TagList(Some(i))[position] == All(i.characterTags)[k]
            case ArtistColour => k < LengthOrZero(i.artistTags) && TagList(Some(i))[position] == All(i.artistTags)[k]
            case DefaultColour => k < LengthOrZero(i.generalTags) && TagList(Some(i))[position] == All(i.generalTags)[k]
  {
  }

  /** onItemClick: a search for the tag at the position. */
  function OnItemClick(image: Option<PeImage>, position: int): (query: Result<string>)
    ensures query.Ok? <==> 0 <= position < Count(image)
    ensures query.Ok? ==> query.value in TagList(image)
  {
    GetItem(image, position)
  }

  /**
   * onSaveInstanceState stores the image under its key only when there is one, so the saved
   * state holds an image or nothing.
   */
  function Save(image: Option<PeImage>): (saved: Option<PeImage>)
    ensures saved.Some? <==> image.Some?
    ensures saved.Some? ==> saved.value == image.value
  {
    image
  }

  /** onCreateDialog: a saved image replaces the one the fragment was made with; otherwise that one stays. */
  function Restore(saved: Option<PeImage>, current: Option<PeImage>): (image: Option<PeImage>)
    ensures saved.Some? ==> image == saved
    ensures saved.None? ==> image == current
  {
    if saved.Some? then saved else current
  }

  /**
   * A dialog recreated by the system (through the empty constructor, so with no image) shows the
   * tags it showed before; without a saved image it shows none.
   */
  lemma RecreatedDialogKeepsTags(image: PeImage)
    ensures TagList(Restore(Save(Some(image)), None)) == TagList(Some(image))
    ensures Count(Restore(None, None)) == 0
  {
  }
}
