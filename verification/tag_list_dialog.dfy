/**
 * TagListDialogFragment (third generation): the list of an image's tags, each coloured by its
 * type; clicking one starts a search for it with the same client settings and closes the dialog.
 */
module TagListDialog {
  import opened Wrappers
  import opened Tags
  import opened SearchResults
  import PeTagListDialog

  datatype Colour = GeneralColour | ArtistColour | CharacterColour | CopyrightColour

  /** The dialog: the image and the client settings from its arguments (either may be null). */
  datatype Dialog<S> = Dialog(image: Option<Image>, settings: Option<S>)

  /** getCount: nothing for a null image; otherwise one row per tag. */
  function Count<S>(d: Dialog<S>): (n: nat)
    ensures d.image.None? ==> n == 0
    ensures d.image.Some? ==> n == |d.image.value.tags|
  {
    if d.image.None? then 0 else |d.image.value.tags|
  }

  /** getItem: the tag at the position; a null image or a bad position throws. */
  function GetItem<S>(d: Dialog<S>, position: int): (r: Result<Tag>)
    ensures r.Ok? <==> 0 <= position < Count(d)
    ensures r.Ok? ==> r.value == d.image.value.tags[position]
  {
    if d.image.None? then Err(NullPointer)
    else if 0 <= position < |d.image.value.tags| then Ok(d.image.value.tags[position])
    else Err(IndexOutOfBounds)
  }

  /** getItemId: the position, as the first generation's adapter already gives it. */
  function GetItemId(position: int): (id: int)
    ensures id == position
  {
    PeTagListDialog.GetItemId(position)
  }

  /** The colour getView gives a tag: one per tag type, so a recycled row never keeps a stale colour. */
  function TagColour(t: Tag): (c: Colour)
    ensures t.kind == General <==> c == GeneralColour
    ensures t.kind == Artist <==> c == ArtistColour
    ensures t.kind == Character <==> c == CharacterColour
    ensures t.kind == Copyright <==> c == CopyrightColour
  {
    match t.kind
    case General => GeneralColour
    case Artist => ArtistColour
    case Character => CharacterColour
    case Copyright => CopyrightColour
  }

  /** What a row shows: the tag's name in its type's colour. */
  function GetView<S>(d: Dialog<S>, position: int): (r: Result<(string, Colour)>)
    ensures r.Ok? <==> 0 <= position < Count(d)
    ensures r.Ok? ==> r.value == (d.image.value.tags[position].name, TagColour(d.image.value.tags[position]))
  {
    var t := GetItem(d, position);
    if t.Err? then Err(t.error) else Ok((t.value.name, TagColour(t.value)))
  }

  /** The search intent a click starts: the settings and the query. */
  datatype SearchIntent<S> = SearchIntent(settings: Option<S>, query: string)

  /** onItemClick: a search for the clicked tag's name with the dialog's settings; the dialog closes. */
  function OnItemClick<S>(d: Dialog<S>, position: int): (r: Result<SearchIntent<S>>)
    ensures r.Ok? <==> 0 <= position < Count(d)
    ensures r.Ok? ==> r.value.settings == d.settings && r.value.query == d.image.value.tags[position].name
  {
    var t := GetItem(d, position);
    if t.Err? then Err(t.error) else Ok(SearchIntent(d.settings, t.value.name))
  }

  /** Clicking a row searches for exactly the name the row shows. */
  lemma ClickSearchesShownName<S>(d: Dialog<S>, position: int)
    requires 0 <= position < Count(d)
    ensures OnItemClick(d, position).value.query == GetView(d, position).value.0
  {
  }
}
