/**
 * android.os.Parcel as the sequence of values written into it, with the reads the modelled
 * classes use. An object whose own writeToParcel is not part of this model (an Image of the
 * second generation) occupies a single Obj slot.
 */
module Parcels {
  import opened Wrappers
  import opened JavaInts

  datatype Slot<T> = IntSlot(i: Int32) | StrSlot(s: Option<string>) | ObjSlot(o: T)

  /** readInt at position pos: the value and the position after it. */
  function ReadInt<T>(p: seq<Slot<T>>, pos: nat): (r: Result<(Int32, nat)>)
    ensures r.Ok? ==> pos < |p| && p[pos] == IntSlot(r.value.0) && r.value.1 == pos + 1
    ensures pos < |p| && p[pos].IntSlot? ==> r.Ok?
  {
    if pos < |p| && p[pos].IntSlot? then Ok((p[pos].i, pos + 1)) else Err(IllegalArgument)
  }

  /** readString: null when a null string was written. */
  function ReadString<T>(p: seq<Slot<T>>, pos: nat): (r: Result<(Option<string>, nat)>)
    ensures r.Ok? ==> pos < |p| && p[pos] == StrSlot(r.value.0) && r.value.1 == pos + 1
    ensures pos < |p| && p[pos].StrSlot? ==> r.Ok?
  {
    if pos < |p| && p[pos].StrSlot? then Ok((p[pos].s, pos + 1)) else Err(IllegalArgument)
  }

  /** (byte) v: the low eight bits of an int, as a signed byte. */
  function ToByte(v: int): (b: int)
    ensures -128 <= b < 128
    ensures (b - v) % 256 == 0
  {
    var low := v % 256;
    if low >= 128 then low - 256 else low
  }

  /** writeByte stores the byte as an int; readByte narrows the int back to a byte. */
  function WriteByte<T>(b: int): (r: seq<Slot<T>>)
    requires -128 <= b < 128
    ensures |r| == 1
  {
    [IntSlot(b)]
  }

  function ReadByte<T>(p: seq<Slot<T>>, pos: nat): (r: Result<(int, nat)>)
    ensures r.Ok? ==> -128 <= r.value.0 < 128 && r.value.1 == pos + 1 && pos < |p|
  {
    match ReadInt(p, pos)
    case Err(e) => Err(e)
    case Ok((v, next)) => Ok((ToByte(v), next))
  }

  lemma ByteRoundTrip<T>(b: int, rest: seq<Slot<T>>)
    requires -128 <= b < 128
    ensures ReadByte(WriteByte<T>(b) + rest, 0) == Ok((b, 1))
  {
    assert (WriteByte<T>(b) + rest)[0] == IntSlot(b);
  }
}
