/**
 * The custom select: a list of labelled options, the selected value, the
 * label shown for it, and the events the select emits.
 */
module CcSelect {
  import opened Wrappers

  /** One entry of the dropdown: its `label` (`caption` here, as `label` is a Dafny keyword) and its value, None standing for null. */
  datatype SelectOption = SelectOption(caption: string, value: Option<string>)

  /** JavaScript truthiness of a `string | null`: neither null nor the empty string. */
  predicate Truthy(v: Option<string>) {
    v.Some? && v.value != ""
  }

  /** `options.find(opt => opt.value === value)`, as the index of the option found. */
  function FindOption(options: seq<SelectOption>, value: Option<string>): (r: Option<nat>)
    ensures r.Some? ==> r.value < |options| && options[r.value].value == value
    ensures r.Some? ==> forall j | 0 <= j < r.value :: options[j].value != value
    ensures r.None? <==> forall j | 0 <= j < |options| :: options[j].value != value
  {
    if |options| == 0 then None
    else if options[0].value == value then Some(0)
    else match FindOption(options[1..], value)
      case None => None
      case Some(k) => Some(k + 1)
  }

  /**
   * The `findLabel` pipe: the label of the first option holding `value`; the
   * empty string when the options are missing, the value is null or empty, or
   * no option holds it.
   */
  function FindLabel(options: Option<seq<SelectOption>>, value: Option<string>): (r: string)
    ensures options.None? || !Truthy(value) ==> r == ""
    ensures options.Some? && Truthy(value) ==>
      if exists i :: 0 <= i < |options.value| && options.value[i].value == value then
        exists i :: 0 <= i < |options.value| && options.value[i].value == value && r == options.value[i].caption &&
          forall j | 0 <= j < i :: options.value[j].value != value
      else r == ""
  {
    if options.None? || !Truthy(value) then ""
    else match FindOption(options.value, value)
      case None => ""
      case Some(i) => options.value[i].caption
  }

  class CcSelectComponent {
    var options: seq<SelectOption>
    var defaultValue: Option<string>
    var value: Option<string>
    /** Whether the dropdown list is shown (`display: block`). */
    var dropdownOpen: bool
    /** What `onChange` has emitted so far, oldest first. */
    var onChangeEmitted: seq<Option<string>>
    /** What `valueChange` has emitted so far, oldest first. */
    var valueChangeEmitted: seq<Option<string>>

    constructor (options: seq<SelectOption>, defaultValue: Option<string>)
      ensures this.options == options && this.defaultValue == defaultValue
      ensures value == Some("") && !dropdownOpen
      ensures onChangeEmitted == [] && valueChangeEmitted == []
    {
      this.options := options;
      this.defaultValue := defaultValue;
      value := Some("");
      dropdownOpen := false;
      onChangeEmitted, valueChangeEmitted := [], [];
    }

    /** The label the select shows for its value. */
    function Shown(): (r: string)
      reads this
      ensures !Truthy(value) ==> r == ""
      ensures Truthy(value) ==>
        if exists i :: 0 <= i < |options| && options[i].value == value then
          exists i :: 0 <= i < |options| && options[i].value == value && r == options[i].caption &&
            forall j | 0 <= j < i :: options[j].value != value
        else r == ""
    {
      FindLabel(Some(options), value)
    }

    /** `ngOnInit`: a default that is set and not empty becomes the value, and is announced on `valueChange`. */
    method NgOnInit()
      modifies this`value, this`valueChangeEmitted
      ensures Truthy(defaultValue) ==>
        value == defaultValue && valueChangeEmitted == old(valueChangeEmitted) + [defaultValue]
      ensures !Truthy(defaultValue) ==>
        value == old(value) && valueChangeEmitted == old(valueChangeEmitted)
    {
      if Truthy(defaultValue) {
        value := defaultValue;
        valueChangeEmitted := valueChangeEmitted + [defaultValue];
      }
    }

    /** `toggleDropdown`: show the list when it is hidden, hide it when it is shown. */
    method ToggleDropdown()
      modifies this`dropdownOpen
      ensures dropdownOpen == !old(dropdownOpen)
    {
      dropdownOpen := !dropdownOpen;
    }

    /** `selectValue`: take the value, emit it on both outputs (`onChange` first) and close the list. */
    method SelectValue(v: Option<string>)
      modifies this`value, this`onChangeEmitted, this`valueChangeEmitted, this`dropdownOpen
      ensures value == v && !dropdownOpen
      ensures onChangeEmitted == old(onChangeEmitted) + [v]
      ensures valueChangeEmitted == old(valueChangeEmitted) + [v]
    {
      value := v;
      onChangeEmitted := onChangeEmitted + [v];
      valueChangeEmitted := valueChangeEmitted + [v];
      dropdownOpen := false;
    }

    /** `handleDocumentClick`: a click outside the select closes the list; one inside leaves it. */
    method HandleDocumentClick(insideSelect: bool)
      modifies this`dropdownOpen
      ensures dropdownOpen == (old(dropdownOpen) && insideSelect)
    {
      if !insideSelect {
        HandleFocusOut();
      }
    }

    /** `handleFocusOut`: close the list. */
    method HandleFocusOut()
      modifies this`dropdownOpen
      ensures !dropdownOpen
    {
      dropdownOpen := false;
    }
  }

  /** Picking an option with a non-empty value that no earlier option holds makes the select show that option's label. */
  lemma SelectShowsLabel(options: seq<SelectOption>, i: nat)
    requires i < |options| && Truthy(options[i].value)
    requires forall j | 0 <= j < i :: options[j].value != options[i].value
    ensures FindLabel(Some(options), options[i].value) == options[i].caption
  {
    var k := FindOption(options, options[i].value);
    assert k.Some?;
    assert k.value == i;
  }
}
