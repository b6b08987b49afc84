/**
 * ServiceDropdownAdapter (first generation): the service picker in the search activity, one
 * entry per stored service setting.
 */
module ServiceDropdownAdapter {
  import opened Wrappers
  import opened JavaInts
  import opened ServiceSettingsProvider

  /** getItemId: the id of the settings at that position; an index past the list throws. */
  function GetItemId(items: seq<ServiceSettings>, position: int): (r: Result<int>)
    ensures r.Ok? <==> 0 <= position < |items|
    ensures r.Ok? ==> r.value == items[position].id
  {
    if 0 <= position < |items| then Ok(items[position].id as int) else Err(IndexOutOfBounds)
  }

  /**
   * getPositionByItemId: the first position whose id matches; with no match, the first item, or
   * -1 when there is no item at all.
   */
  method GetPositionByItemId(items: seq<ServiceSettings>, itemId: int) returns (p: int)
    ensures p == -1 <==> items == []
    ensures items != [] ==> 0 <= p < |items|
    ensures forall i :: 0 <= i < |items| && items[i].id == itemId ==> p <= i && items[p].id == itemId
    ensures (forall i :: 0 <= i < |items| ==> items[i].id != itemId) ==> p == (if items == [] then -1 else 0)
    ensures (exists i :: 0 <= i < |items| && items[i].id == itemId) ==> GetItemId(items, p) == Ok(itemId)
  {
    var i := 0;
    while i < |items|
      invariant 0 <= i <= |items|
      invariant forall j :: 0 <= j < i ==> items[j].id != itemId
    {
      if items[i].id as int == itemId {
        return i;
      }
      i := i + 1;
    }
    p := if |items| > 0 then 0 else -1;
  }
}
