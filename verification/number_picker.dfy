/**
 * NumberPickerPreference (first generation): an integer preference edited in a dialog with a
 * number picker.
 */
module NumberPickerPreference {
  import opened Wrappers
  import opened JavaStrings

  /** The picker's fixed range. */
  const MinValue: int := 1
  const MaxValue: int := 15

  /** DialogInterface.BUTTON_POSITIVE. */
  const ButtonPositive: int := -1

  /** The value used when neither the persisted value nor a default says otherwise. */
  const FallbackValue: int := 1

  /** What the preference framework hands over as the default value. */
  datatype Default = NoDefault | IntegerDefault(n: int) | OtherNumber | TextDefault(text: string)

  /**
   * The preference: the persisted integer (none until first written), the value the dialog
   * opens with (null until set), and the values announced to change listeners.
   */
  datatype Pref = Pref(persisted: Option<int>, initial: Option<int>, announced: seq<int>)

  /** onGetDefaultValue: the integer attribute, or 1 when the attribute is absent. */
  function OnGetDefaultValue(attribute: Option<int>): (d: Default)
    ensures d.IntegerDefault?
    ensures attribute.Some? ==> d.n == attribute.value
    ensures attribute.None? ==> d.n == FallbackValue
  {
    IntegerDefault(attribute.GetOr(FallbackValue))
  }

  /**
   * The default resolved to an int: a number is cast to Integer (which only an Integer survives),
   * anything else non-null is parsed as a decimal, and null gives 1.
   */
  function ResolveDefault(d: Default): (r: Result<int>)
    ensures d.IntegerDefault? ==> r == Ok(d.n)
    ensures d.OtherNumber? ==> r == Err(ClassCast)
    ensures d.TextDefault? ==> r == ParseInt(d.text)
    ensures d.NoDefault? ==> r == Ok(FallbackValue)
  {
    match d
    case IntegerDefault(n) => Ok(n)
    case OtherNumber => Err(ClassCast)
    case TextDefault(text) => ParseInt(text)
    case NoDefault => Ok(FallbackValue)
  }

  /**
   * onSetInitialValue: the default is resolved first in every case; restoring takes the persisted
   * value or that default, otherwise the raw default is cast to Integer.
   */
  function OnSetInitialValue(p: Pref, restore: bool, d: Default): (r: Result<Pref>)
    ensures ResolveDefault(d).Err? ==> r.Err?
    ensures restore && ResolveDefault(d).Ok? ==>
              r == Ok(p.(initial := Some(if p.persisted.Some? then p.persisted.value else ResolveDefault(d).value)))
    ensures !restore && ResolveDefault(d).Ok? ==>
              (r.Ok? <==> !d.TextDefault?) && (r.Ok? ==> r.value.initial == (if d.IntegerDefault? then Some(d.n) else None))
    ensures r.Ok? ==> r.value.persisted == p.persisted && r.value.announced == p.announced
  {
    var def := ResolveDefault(d);
    if def.Err? then Err(def.error)
    else if restore then Ok(p.(initial := Some(p.persisted.GetOr(def.value))))
    else
      match d
      case IntegerDefault(n) => Ok(p.(initial := Some(n)))
      case NoDefault => Ok(p.(initial := None))
      case _ => Err(ClassCast)
  }

  /**
   * onBindDialogView: the picker spans 1 to 15 and starts at the initial value when there is one;
   * the result is the range and the value asked for.
   */
  function OnBindDialogView(p: Pref): (r: (int, int, Option<int>))
    ensures r.0 == MinValue && r.1 == MaxValue && r.2 == p.initial
  {
    (MinValue, MaxValue, p.initial)
  }

  /** onClick: the positive button persists and announces the picked value; other buttons do nothing. */
  function OnClick(p: Pref, which: int, picked: int): (r: Pref)
    ensures which == ButtonPositive ==> r.persisted == Some(picked) && r.initial == Some(picked)
                                         && r.announced == p.announced + [picked]
    ensures which != ButtonPositive ==> r == p
  {
    if which == ButtonPositive then Pref(Some(picked), Some(picked), p.announced + [picked]) else p
  }

  /** getValue: the persisted value, or -1 when none was ever persisted. */
  function GetValue(p: Pref): (v: int)
    ensures p.persisted.Some? ==> v == p.persisted.value
    ensures p.persisted.None? ==> v == -1
  {
    p.persisted.GetOr(-1)
  }

  /** A value accepted with the positive button is what getValue reports and what the next restore opens with. */
  lemma AcceptedValueSticks(p: Pref, picked: int, d: Default)
    requires ResolveDefault(d).Ok?
    ensures var q := OnClick(p, ButtonPositive, picked);
            GetValue(q) == picked && OnSetInitialValue(q, true, d) == Ok(q)
  {
  }

  /** A preference declared without a default attribute opens a fresh picker at 1. */
  lemma FreshOpensAtFallback()
    ensures OnSetInitialValue(Pref(None, None, []), true, OnGetDefaultValue(None)) == Ok(Pref(None, Some(1), []))
  {
  }
}
