/**
 * The older review screen of src/app.rs, over the string selection list of src/multi_select.rs.
 * The list's `active` flag mirrors which pane has focus. Enter and Ctrl+C work from both panes,
 * and scrolling down wraps around instead of saturating. The fixed placeholder notes text is
 * not modelled.
 */
module LegacyApp {
  import opened Results
  import opened Strings
  import opened LegacySelection
  import Keys

  const U16_MODULUS: nat := 0x1_0000
  type U16 = n: nat | n < U16_MODULUS

  const SCROLL_STEP_SIZE: U16 := 5

  datatype Pane = Releases | ReleaseNotes

  /** Everything `handle_key` reads or writes; `shouldExit` is `Some(true)` to print the selection. */
  datatype AppState = AppState(
    scroll: U16,
    focusedPane: Pane,
    options: seq<LegacyOption>,
    cursor: nat,
    active: bool,
    shouldExit: Option<bool>)

  /** `scroll_up`: five up, saturating at 0. */
  function ScrolledUp(scroll: U16): U16 {
    if scroll >= SCROLL_STEP_SIZE then scroll - SCROLL_STEP_SIZE else 0
  }

  /** `scroll_down`: `wrapping_add`, five down modulo 2^16. */
  function ScrolledDown(scroll: U16): U16 {
    (scroll + SCROLL_STEP_SIZE) % U16_MODULUS
  }

  /** The list is highlighted exactly when the release pane has focus. */
  predicate ActiveMatchesFocus(s: AppState) {
    s.active == (s.focusedPane == Releases)
  }

  predicate CursorInRange(s: AppState) {
    |s.options| < USIZE_MODULUS && (s.cursor == 0 || s.cursor < |s.options|)
  }

  predicate IsCtrlC(key: Keys.KeyEvent) {
    key.code == Keys.Char('c') && Keys.HasControl(key)
  }

  /**
   * The keys that index the list: `j` (through `len - 1`) and space (through `options[cursor]`)
   * in the release pane. They panic on an empty list.
   */
  predicate NeedsOptions(s: AppState, key: Keys.KeyEvent) {
    key.kind == Keys.Press && s.focusedPane == Releases &&
    (key.code == Keys.Char('j') || key.code == Keys.Char(' '))
  }

  /** `handle_key` on the screen's state. */
  function Step(s: AppState, key: Keys.KeyEvent): AppState
    requires CursorInRange(s)
    requires NeedsOptions(s, key) ==> |s.options| > 0
  {
    if key.kind != Keys.Press then s
    else
      match s.focusedPane
      case Releases =>
        if key.code == Keys.Char('l') then s.(focusedPane := ReleaseNotes, active := false)
        else if key.code == Keys.Char('k') then s.(cursor := if s.cursor == 0 then 0 else s.cursor - 1)
        else if key.code == Keys.Char('j') then s.(cursor := WrappingNextCursor(s.cursor, |s.options|))
        else if key.code == Keys.Char(' ') then
          s.(options := s.options[s.cursor := LegacyOption(s.options[s.cursor].value, !s.options[s.cursor].selected)])
        else if key.code == Keys.Enter then s.(shouldExit := Some(true))
        else if IsCtrlC(key) then s.(shouldExit := Some(false))
        else s
      case ReleaseNotes =>
        if key.code == Keys.Char('h') then s.(focusedPane := Releases, active := true)
        else if key.code == Keys.Char('k') then s.(scroll := ScrolledUp(s.scroll))
        else if key.code == Keys.Char('j') then s.(scroll := ScrolledDown(s.scroll))
        else if key.code == Keys.Enter then s.(shouldExit := Some(true))
        else if IsCtrlC(key) then s.(shouldExit := Some(false))
        else s
  }

  /** Every key keeps the list highlighted exactly when it has focus, and the cursor in range. */
  lemma StepKeepsInvariant(s: AppState, key: Keys.KeyEvent)
    requires CursorInRange(s) && ActiveMatchesFocus(s)
    requires NeedsOptions(s, key) ==> |s.options| > 0
    ensures CursorInRange(Step(s, key)) && ActiveMatchesFocus(Step(s, key))
    ensures |Step(s, key).options| == |s.options|
  {
  }

  /** Releases and repeats change nothing. */
  lemma NonPressIgnored(s: AppState, key: Keys.KeyEvent)
    requires CursorInRange(s) && key.kind != Keys.Press
    ensures Step(s, key) == s
  {
  }

  /** Enter asks to print and Ctrl+C to abort, from either pane, changing nothing else. */
  lemma ExitFromEitherPane(s: AppState, key: Keys.KeyEvent)
    requires CursorInRange(s) && key.kind == Keys.Press
    ensures key.code == Keys.Enter ==> Step(s, key) == s.(shouldExit := Some(true))
    ensures IsCtrlC(key) ==> Step(s, key) == s.(shouldExit := Some(false))
  {
  }

  /** `j`/`k` move the cursor in the release pane and scroll in the notes pane, never both. */
  lemma CursorOrScrollNeverBoth(s: AppState, key: Keys.KeyEvent)
    requires CursorInRange(s) && (NeedsOptions(s, key) ==> |s.options| > 0)
    requires key.kind == Keys.Press && (key.code == Keys.Char('j') || key.code == Keys.Char('k'))
    ensures s.focusedPane == Releases ==> Step(s, key).scroll == s.scroll
    ensures s.focusedPane == ReleaseNotes ==> Step(s, key).cursor == s.cursor && Step(s, key).options == s.options
    ensures Step(s, key).scroll == s.scroll || Step(s, key).cursor == s.cursor
  {
  }

  /** Unlike the newer screen, scrolling down past the end wraps back to the top. */
  lemma ScrollDownWraps(s: AppState)
    requires CursorInRange(s) && s.focusedPane == ReleaseNotes && s.scroll == U16_MODULUS - 3
    ensures Step(s, Keys.KeyEvent(Keys.Char('j'), {}, Keys.Press)).scroll == 2
  {
  }

  /** `get_selected_releases`: the selected labels, in list order, separated by single spaces. */
  function SelectedReleases(options: seq<LegacyOption>): string {
    Join(SelectedLabels(options), ' ')
  }

  /**
   * When no label contains a space and at least one is selected, splitting the output on
   * spaces gives back the selected labels.
   */
  lemma SelectedReleasesSplit(options: seq<LegacyOption>)
    requires forall i :: 0 <= i < |options| ==> ' ' !in options[i].value
    requires exists i :: 0 <= i < |options| && options[i].selected
    ensures Split(SelectedReleases(options), ' ') == SelectedLabels(options)
  {
    var labels := SelectedLabels(options);
    forall p | p in labels ensures ' ' !in p {
      SelectedLabelsMembership(options, p);
    }
    var i :| 0 <= i < |options| && options[i].selected;
    SelectedLabelsMembership(options, options[i].value);
    SplitJoin(labels, ' ');
  }

  /** `App`: its fields and the selection list it owns. */
  class App {
    var scroll: U16
    var focusedPane: Pane
    const multiselect: MultiSelect
    var shouldExit: Option<bool>

    function State(): AppState
      reads this, multiselect
    {
      AppState(scroll, focusedPane, multiselect.options, multiselect.cursor, multiselect.active, shouldExit)
    }

    ghost predicate Valid()
      reads this, multiselect
    {
      multiselect.Valid() && ActiveMatchesFocus(State())
    }

    /** `App::new`: release pane focused and highlighted, unscrolled, not exiting. */
    constructor (releases: seq<string>)
      requires |releases| < USIZE_MODULUS
      ensures Valid() && fresh(multiselect)
      ensures State() == AppState(0, Releases, Unselected(releases), 0, true, None)
    {
      scroll := 0;
      focusedPane := Releases;
      shouldExit := None;
      multiselect := new MultiSelect(releases, true);
    }

    method ScrollUp()
      modifies this
      ensures State() == old(State()).(scroll := ScrolledUp(old(scroll)))
    {
      scroll := if scroll >= SCROLL_STEP_SIZE then scroll - SCROLL_STEP_SIZE else 0;
    }

    method ScrollDown()
      modifies this
      ensures State() == old(State()).(scroll := ScrolledDown(old(scroll)))
    {
      scroll := (scroll + SCROLL_STEP_SIZE) % U16_MODULUS;
    }

    method FocusReleases()
      modifies this, multiselect
      ensures State() == old(State()).(focusedPane := Releases, active := true)
    {
      focusedPane := Releases;
      multiselect.active := true;
    }

    method FocusReleaseNotes()
      modifies this, multiselect
      ensures State() == old(State()).(focusedPane := ReleaseNotes, active := false)
    {
      focusedPane := ReleaseNotes;
      multiselect.active := false;
    }

    /** `handle_key`: the screen moves as `Step` says and keeps its invariant. */
    method HandleKey(key: Keys.KeyEvent)
      requires Valid()
      requires NeedsOptions(State(), key) ==> |multiselect.options| > 0
      modifies this, multiselect
      ensures Valid()
      ensures State() == Step(old(State()), key)
    {
      StepKeepsInvariant(State(), key);
      if key.kind == Keys.Press {
        match focusedPane {
          case Releases =>
            if key.code == Keys.Char('l') {
              FocusReleaseNotes();
            } else if key.code == Keys.Char('k') {
              multiselect.Previous();
            } else if key.code == Keys.Char('j') {
              multiselect.Next();
            } else if key.code == Keys.Char(' ') {
              multiselect.Toggle();
            } else if key.code == Keys.Enter {
              shouldExit := Some(true);
            } else if IsCtrlC(key) {
              shouldExit := Some(false);
            }
          case ReleaseNotes =>
            if key.code == Keys.Char('h') {
              FocusReleases();
            } else if key.code == Keys.Char('k') {
              ScrollUp();
            } else if key.code == Keys.Char('j') {
              ScrollDown();
            } else if key.code == Keys.Enter {
              shouldExit := Some(true);
            } else if IsCtrlC(key) {
              shouldExit := Some(false);
            }
        }
      }
    }

    method GetSelectedReleases() returns (s: string)
      ensures s == SelectedReleases(multiselect.options)
    {
      s := Join(multiselect.Selected(), ' ');
    }
  }
}
