/**
 * The older string selection list of src/multi_select.rs: options are bare strings, and the
 * list carries a public `active` flag that only affects rendering. Its `next` uses a wrapping
 * `usize` add, modelled here explicitly.
 */
module LegacySelection {
  const USIZE_MODULUS: nat := 0x1_0000_0000_0000_0000

  datatype LegacyOption = LegacyOption(value: string, selected: bool)

  /** `cursor.wrapping_add(1)` on a 64-bit `usize`. */
  function WrappingIncrement(cursor: nat): nat
    requires cursor < USIZE_MODULUS
  {
    (cursor + 1) % USIZE_MODULUS
  }

  /** `next` as written: `min(len - 1, cursor.wrapping_add(1))`. */
  function WrappingNextCursor(cursor: nat, len: nat): (c: nat)
    requires 0 < len && cursor < USIZE_MODULUS
  {
    var stepped := WrappingIncrement(cursor);
    if stepped < len - 1 then stepped else len - 1
  }

  /**
   * While the cursor is on an option of a list that fits in memory, the wrapping add never
   * wraps, so `next` clamps exactly like the saturating version.
   */
  lemma NextNeverWraps(cursor: nat, len: nat)
    requires cursor < len < USIZE_MODULUS
    ensures WrappingNextCursor(cursor, len) == (if cursor + 1 < len then cursor + 1 else len - 1)
    ensures WrappingNextCursor(cursor, len) < len
  {
  }

  /** `selected`: the labels of the selected options, in list order. */
  function SelectedLabels(options: seq<LegacyOption>): seq<string> {
    if options == [] then []
    else (if options[0].selected then [options[0].value] else []) + SelectedLabels(options[1..])
  }

  /** A name is reported exactly when an option carrying it is selected. */
  lemma {:induction false} SelectedLabelsMembership(options: seq<LegacyOption>, name: string)
    ensures name in SelectedLabels(options) <==>
            exists i :: 0 <= i < |options| && options[i].selected && options[i].value == name
  {
    if options != [] {
      SelectedLabelsMembership(options[1..], name);
      if name in SelectedLabels(options[1..]) {
        var i :| 0 <= i < |options[1..]| && options[1..][i].selected && options[1..][i].value == name;
        assert options[i + 1] == options[1..][i];
      }
      if exists i :: 0 <= i < |options| && options[i].selected && options[i].value == name {
        var i :| 0 <= i < |options| && options[i].selected && options[i].value == name;
        if i > 0 {
          assert options[1..][i - 1] == options[i];
        }
      }
    }
  }

  /** At most one label per option; with every option selected, all labels in list order. */
  lemma {:induction false} SelectedLabelsBound(options: seq<LegacyOption>)
    ensures |SelectedLabels(options)| <= |options|
    ensures (forall i :: 0 <= i < |options| ==> options[i].selected) ==>
            SelectedLabels(options) == seq(|options|, i requires 0 <= i < |options| => options[i].value)
  {
    if options != [] {
      SelectedLabelsBound(options[1..]);
    }
  }

  /** The options `new` builds from the given strings: every one unselected. */
  function Unselected(values: seq<string>): (options: seq<LegacyOption>)
    ensures |options| == |values|
    ensures forall i :: 0 <= i < |values| ==> options[i] == LegacyOption(values[i], false)
  {
    seq(|values|, i requires 0 <= i < |values| => LegacyOption(values[i], false))
  }

  lemma {:induction false} NothingSelectedInitially(values: seq<string>)
    ensures SelectedLabels(Unselected(values)) == []
    decreases |values|
  {
    if values != [] {
      assert Unselected(values)[1..] == Unselected(values[1..]);
      NothingSelectedInitially(values[1..]);
    }
  }

  class MultiSelect {
    var options: seq<LegacyOption>
    var cursor: nat
    var active: bool

    ghost predicate Valid()
      reads this
    {
      |options| < USIZE_MODULUS && (cursor == 0 || cursor < |options|)
    }

    /** `new`: every option unselected, cursor 0, `active` as given. */
    constructor (values: seq<string>, active: bool)
      requires |values| < USIZE_MODULUS
      ensures Valid()
      ensures options == Unselected(values) && cursor == 0 && this.active == active
    {
      options := Unselected(values);
      cursor := 0;
      this.active := active;
    }

    method Previous()
      requires Valid()
      modifies this
      ensures Valid()
      ensures options == old(options) && active == old(active)
      ensures cursor == if old(cursor) == 0 then 0 else old(cursor) - 1
    {
      if cursor > 0 {
        cursor := cursor - 1;
      }
    }

    /** `len - 1` underflows on an empty list, so the list must not be empty. */
    method Next()
      requires Valid() && |options| > 0
      modifies this
      ensures Valid() && cursor < |options|
      ensures options == old(options) && active == old(active)
      ensures cursor == WrappingNextCursor(old(cursor), |options|)
    {
      var maxCursor := |options| - 1;
      var stepped := (cursor + 1) % USIZE_MODULUS;
      cursor := if stepped < maxCursor then stepped else maxCursor;
    }

    /** Flips the option under the cursor; indexing panics on an empty list. */
    method Toggle()
      requires Valid() && |options| > 0
      modifies this
      ensures Valid()
      ensures cursor == old(cursor) && active == old(active)
      ensures options == old(options)[cursor := LegacyOption(old(options)[cursor].value, !old(options)[cursor].selected)]
    {
      options := options[cursor := options[cursor].(selected := !options[cursor].selected)];
    }

    function Selected(): seq<string>
      reads this
    {
      SelectedLabels(options)
    }
  }
}
