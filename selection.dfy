/**
 * The generic selection list of crates/review/src/multi_select.rs: options with a label, a value
 * and a selected flag, and a cursor. The outdatui crate has its own `multi_select` module, which
 * is not part of this model; this list stands in for it in `ReviewApp`.
 */
module Selection {
  /** `label` is a reserved word in Dafny: an option's label is its `text`. */
  datatype SelectOption<T> = SelectOption(text: string, value: T, selected: bool)

  /** `SelectOption::new`: an option starts unselected. */
  function NewOption<T>(text: string, value: T): SelectOption<T> {
    SelectOption(text, value, false)
  }

  /** `previous`: one up, saturating at the top. */
  function PreviousCursor(cursor: nat): nat {
    if cursor == 0 then 0 else cursor - 1
  }

  /**
   * `next`: one down, clamped to the last option. The source computes `len - 1`, which
   * underflows on an empty list, so the list must not be empty.
   */
  function NextCursor(cursor: nat, len: nat): nat
    requires len > 0
  {
    if cursor + 1 < len - 1 then cursor + 1 else len - 1
  }

  /** `toggle`: flips the flag of the option at `i`. */
  function ToggleAt<T>(options: seq<SelectOption<T>>, i: nat): seq<SelectOption<T>>
    requires i < |options|
  {
    options[i := options[i].(selected := !options[i].selected)]
  }

  /** `selected_values`: the values of the selected options, in list order. */
  function SelectedValues<T>(options: seq<SelectOption<T>>): seq<T> {
    if options == [] then []
    else (if options[0].selected then [options[0].value] else []) + SelectedValues(options[1..])
  }

  ghost predicate SameEntries<T>(a: seq<SelectOption<T>>, b: seq<SelectOption<T>>) {
    |a| == |b| && forall i :: 0 <= i < |a| ==> a[i].text == b[i].text && a[i].value == b[i].value
  }

  /** Both cursor moves keep a cursor inside a non-empty list. */
  lemma CursorStaysInRange(cursor: nat, len: nat)
    requires cursor < len
    ensures PreviousCursor(cursor) < len && PreviousCursor(cursor) <= cursor
    ensures NextCursor(cursor, len) < len && NextCursor(cursor, len) >= cursor
    ensures NextCursor(cursor, len) == cursor <==> cursor == len - 1
  {
  }

  /** Toggling flips exactly one flag and nothing else; toggling twice restores the list. */
  lemma ToggleOnlyAt<T>(options: seq<SelectOption<T>>, i: nat)
    requires i < |options|
    ensures SameEntries(options, ToggleAt(options, i))
    ensures ToggleAt(options, i)[i].selected != options[i].selected
    ensures forall k :: 0 <= k < |options| && k != i ==> ToggleAt(options, i)[k] == options[k]
    ensures ToggleAt(ToggleAt(options, i), i) == options
  {
  }

  lemma {:induction false} SelectedValuesAppend<T>(a: seq<SelectOption<T>>, b: seq<SelectOption<T>>)
    ensures SelectedValues(a + b) == SelectedValues(a) + SelectedValues(b)
  {
    if a == [] {
      assert a + b == b;
    } else {
      assert (a + b)[0] == a[0];
      assert (a + b)[1..] == a[1..] + b;
      SelectedValuesAppend(a[1..], b);
    }
  }

  /** A value is reported exactly when an option carrying it is selected. */
  lemma {:induction false} SelectedValuesMembership<T>(options: seq<SelectOption<T>>, v: T)
    ensures v in SelectedValues(options) <==>
            exists i :: 0 <= i < |options| && options[i].selected && options[i].value == v
  {
    if options != [] {
      SelectedValuesMembership(options[1..], v);
      if v in SelectedValues(options[1..]) {
        var i :| 0 <= i < |options[1..]| && options[1..][i].selected && options[1..][i].value == v;
        assert options[i + 1] == options[1..][i];
      }
      if exists i :: 0 <= i < |options| && options[i].selected && options[i].value == v {
        var i :| 0 <= i < |options| && options[i].selected && options[i].value == v;
        if i > 0 {
          assert options[1..][i - 1] == options[i];
        }
      }
    }
  }

  /**
   * List order, not toggle order: when two options are selected, the earlier one's value comes
   * first, whichever was toggled first.
   */
  lemma ListOrderNotToggleOrder<T>(options: seq<SelectOption<T>>, i: nat, j: nat)
    requires i < j < |options| && !options[i].selected && !options[j].selected
    requires forall k :: 0 <= k < |options| ==> !options[k].selected
    ensures SelectedValues(ToggleAt(ToggleAt(options, j), i)) == [options[i].value, options[j].value]
    ensures SelectedValues(ToggleAt(ToggleAt(options, i), j)) == [options[i].value, options[j].value]
  {
    var both := ToggleAt(ToggleAt(options, j), i);
    assert both == ToggleAt(ToggleAt(options, i), j);
    assert both == options[..i] + [both[i]] + options[i + 1..j] + [both[j]] + options[j + 1..];
    SelectedValuesAppend(options[..i] + [both[i]] + options[i + 1..j] + [both[j]], options[j + 1..]);
    SelectedValuesAppend(options[..i] + [both[i]] + options[i + 1..j], [both[j]]);
    SelectedValuesAppend(options[..i] + [both[i]], options[i + 1..j]);
    SelectedValuesAppend(options[..i], [both[i]]);
    NoneSelected(options[..i]);
    NoneSelected(options[i + 1..j]);
    NoneSelected(options[j + 1..]);
  }

  /** With every flag cleared, nothing is selected; in particular just after `new`. */
  lemma {:induction false} NoneSelected<T>(options: seq<SelectOption<T>>)
    requires forall k :: 0 <= k < |options| ==> !options[k].selected
    ensures SelectedValues(options) == []
  {
    if options != [] {
      NoneSelected(options[1..]);
    }
  }

  /** `MultiSelect<T>`: the options and the cursor, updated in place. */
  class MultiSelect<T> {
    var options: seq<SelectOption<T>>
    var cursor: nat

    /** The cursor is on an option, or the list is empty and the cursor is 0. */
    ghost predicate Valid()
      reads this
    {
      cursor == 0 || cursor < |options|
    }

    /** `new`: the given options, cursor on the first one. */
    constructor (options: seq<SelectOption<T>>)
      ensures Valid()
      ensures this.options == options && cursor == 0
    {
      this.options := options;
      cursor := 0;
    }

    method Previous()
      requires Valid()
      modifies this
      ensures Valid()
      ensures options == old(options) && cursor == PreviousCursor(old(cursor))
    {
      if cursor > 0 {
        cursor := cursor - 1;
      }
    }

    method Next()
      requires Valid() && |options| > 0
      modifies this
      ensures Valid() && cursor < |options|
      ensures options == old(options) && cursor == NextCursor(old(cursor), |options|)
    {
      var maxCursor := |options| - 1;
      cursor := if maxCursor < cursor + 1 then maxCursor else cursor + 1;
    }

    /** Indexes `options[cursor]`, which panics on an empty list. */
    method Toggle()
      requires Valid() && |options| > 0
      modifies this
      ensures Valid()
      ensures cursor == old(cursor) && options == ToggleAt(old(options), cursor)
    {
      options := options[cursor := options[cursor].(selected := !options[cursor].selected)];
    }

    function Selected(): seq<T>
      reads this
    {
      SelectedValues(options)
    }

    method FocusedValue() returns (v: T)
      requires Valid() && |options| > 0
      ensures v == options[cursor].value
    {
      v := options[cursor].value;
    }
  }
}
