/**
 * The review screen of crates/outdatui/src/app.rs: a list of releases to pick from and a pane
 * with the focused release's notes. Loading the notes is an asynchronous task whose code is not
 * part of this model; each time the screen asks for notes is recorded in a ghost log.
 */
module ReviewApp {
  import opened Results
  import opened ReleaseIdentity
  import opened Selection
  import Keys

  const U16_MAX: nat := 0xFFFF
  type U16 = n: nat | n <= U16_MAX

  const SCROLL_STEP_SIZE: U16 := 5
  const INITIAL_LEFT_COLUMN_WIDTH: U16 := 40

  /** `u16::saturating_add`. */
  function SaturatingAdd(a: U16, b: U16): U16 {
    if a + b <= U16_MAX then a + b else U16_MAX
  }

  /** `u16::saturating_sub`. */
  function SaturatingSub(a: U16, b: U16): U16 {
    if a >= b then a - b else 0
  }

  datatype Pane = Releases | ReleaseNotes

  datatype ExitAction = Abort | PrintSelected

  /** Everything `handle_key` reads or writes, with the notes requests made so far. */
  datatype AppState = AppState(
    scroll: U16,
    focusedPane: Pane,
    options: seq<SelectOption<Release>>,
    cursor: nat,
    shouldExit: Option<ExitAction>,
    leftColumnWidth: U16,
    notesRequests: seq<Release>)

  /**
   * What the screen keeps true: the cursor is on a release, and the most recent notes request
   * is for the focused release, so the notes pane never lags behind the cursor.
   */
  predicate Consistent(s: AppState) {
    s.cursor < |s.options| && |s.notesRequests| > 0 &&
    s.notesRequests[|s.notesRequests| - 1] == s.options[s.cursor].value
  }

  /** The options `new` builds: one unselected option per release, labelled `package@semver`. */
  function Options(releases: seq<Release>): seq<SelectOption<Release>> {
    seq(|releases|, i requires 0 <= i < |releases| => NewOption(ToString(releases[i]), releases[i]))
  }

  /** `App::new`, including its request for the notes of the first release. */
  function Initial(releases: seq<Release>): AppState
    requires |releases| > 0
  {
    AppState(0, Releases, Options(releases), 0, None, INITIAL_LEFT_COLUMN_WIDTH, [releases[0]])
  }

  /** Cursor moved to `c`, then `show_release_notes_of_focused_release`. */
  function MoveTo(s: AppState, c: nat): AppState
    requires c < |s.options|
  {
    s.(cursor := c, notesRequests := s.notesRequests + [s.options[c].value])
  }

  predicate IsCtrlC(key: Keys.KeyEvent) {
    Keys.HasControl(key) && key.code == Keys.Char('c')
  }

  /** `handle_key` on the screen's state. */
  function Step(s: AppState, key: Keys.KeyEvent): AppState
    requires s.cursor < |s.options|
  {
    if key.kind != Keys.Press then s
    else if IsCtrlC(key) then s.(shouldExit := Some(Abort))
    else
      match s.focusedPane
      case Releases =>
        if key.code == Keys.Char('l') then s.(focusedPane := ReleaseNotes)
        else if key.code == Keys.Char('k') then MoveTo(s, PreviousCursor(s.cursor))
        else if key.code == Keys.Char('j') then MoveTo(s, NextCursor(s.cursor, |s.options|))
        else if key.code == Keys.Char('-') then s.(leftColumnWidth := SaturatingSub(s.leftColumnWidth, 1))
        else if key.code == Keys.Char('+') then s.(leftColumnWidth := SaturatingAdd(s.leftColumnWidth, 1))
        else if key.code == Keys.Char(' ') then s.(options := ToggleAt(s.options, s.cursor))
        else if key.code == Keys.Enter then s.(shouldExit := Some(PrintSelected))
        else s
      case ReleaseNotes =>
        if key.code == Keys.Char('h') then s.(focusedPane := Releases)
        else if key.code == Keys.Char('k') then s.(scroll := SaturatingSub(s.scroll, SCROLL_STEP_SIZE))
        else if key.code == Keys.Char('j') then s.(scroll := SaturatingAdd(s.scroll, SCROLL_STEP_SIZE))
        else s
  }

  /**
   * A new screen focuses the release list, unscrolled, 40 columns wide, not exiting, nothing
   * selected, each option labelled with its release's display form, and one notes request,
   * for the first release.
   */
  lemma InitialState(releases: seq<Release>)
    requires |releases| > 0
    ensures var s := Initial(releases);
            Consistent(s) && s.focusedPane == Releases && s.scroll == 0 && s.leftColumnWidth == 40 &&
            s.shouldExit == None && s.notesRequests == [releases[0]] &&
            SelectedValues(s.options) == [] &&
            forall i :: 0 <= i < |releases| ==>
              s.options[i].text == releases[i].package + "@" + releases[i].semver && s.options[i].value == releases[i]
  {
    NoneSelected(Options(releases));
  }

  /** Every key keeps the screen consistent and the list's labels and values as they were. */
  lemma StepKeepsConsistent(s: AppState, key: Keys.KeyEvent)
    requires Consistent(s)
    ensures Consistent(Step(s, key))
    ensures SameEntries(s.options, Step(s, key).options)
  {
    if key.kind == Keys.Press && !IsCtrlC(key) && s.focusedPane == Releases {
      if key.code == Keys.Char('k') || key.code == Keys.Char('j') {
        CursorStaysInRange(s.cursor, |s.options|);
      } else if key.code == Keys.Char(' ') {
        ToggleOnlyAt(s.options, s.cursor);
      }
    }
  }

  /** Releases and repeats change nothing. */
  lemma NonPressIgnored(s: AppState, key: Keys.KeyEvent)
    requires s.cursor < |s.options| && key.kind != Keys.Press
    ensures Step(s, key) == s
  {
  }

  /** Ctrl+C aborts from either pane, whatever else is held, and changes nothing else. */
  lemma CtrlCAborts(s: AppState, key: Keys.KeyEvent)
    requires s.cursor < |s.options|
    requires key.kind == Keys.Press && Keys.Control in key.modifiers && key.code == Keys.Char('c')
    ensures Step(s, key) == s.(shouldExit := Some(Abort))
  {
  }

  /** The check is for a lower-case `c`: Ctrl+Shift+C is not an abort and, here, a no-op. */
  lemma CtrlUpperCIsNotAbort(s: AppState)
    requires s.cursor < |s.options|
    ensures Step(s, Keys.KeyEvent(Keys.Char('C'), {Keys.Control, Keys.Shift}, Keys.Press)) == s
  {
  }

  /**
   * `j` and `k` in the release list move the cursor and ask for the notes of the focused
   * release, even when the cursor is already at the end and does not move.
   */
  lemma CursorKeysRequestNotes(s: AppState, key: Keys.KeyEvent)
    requires Consistent(s) && s.focusedPane == Releases && key.kind == Keys.Press
    requires key.code == Keys.Char('j') || key.code == Keys.Char('k')
    ensures var t := Step(s, key);
            t.cursor == (if key.code == Keys.Char('j') then NextCursor(s.cursor, |s.options|) else PreviousCursor(s.cursor)) &&
            t.notesRequests == s.notesRequests + [s.options[t.cursor].value] &&
            t.options == s.options && t.scroll == s.scroll
  {
  }

  /** Enter confirms only from the release list; in the notes pane it does nothing. */
  lemma EnterOnlyInReleases(s: AppState, key: Keys.KeyEvent)
    requires s.cursor < |s.options| && key.kind == Keys.Press && key.code == Keys.Enter
    ensures s.focusedPane == Releases ==> Step(s, key) == s.(shouldExit := Some(PrintSelected))
    ensures s.focusedPane == ReleaseNotes ==> Step(s, key) == s
  {
  }

  /** The notes scroll moves only on `j`/`k` in the notes pane, by 5, saturating both ways. */
  lemma ScrollOnlyInNotesPane(s: AppState, key: Keys.KeyEvent)
    requires s.cursor < |s.options|
    ensures Step(s, key).scroll != s.scroll ==>
              s.focusedPane == ReleaseNotes && key.kind == Keys.Press &&
              (key.code == Keys.Char('j') || key.code == Keys.Char('k'))
    ensures s.focusedPane == ReleaseNotes && key.kind == Keys.Press && !IsCtrlC(key) && key.code == Keys.Char('j') ==>
              Step(s, key) == s.(scroll := if s.scroll + 5 <= U16_MAX then s.scroll + 5 else U16_MAX)
    ensures s.focusedPane == ReleaseNotes && key.kind == Keys.Press && !IsCtrlC(key) && key.code == Keys.Char('k') ==>
              Step(s, key) == s.(scroll := if s.scroll >= 5 then s.scroll - 5 else 0)
  {
  }

  /** The column width moves only on `+`/`-` in the release list, by 1, saturating both ways. */
  lemma WidthOnlyInReleases(s: AppState, key: Keys.KeyEvent)
    requires s.cursor < |s.options|
    ensures Step(s, key).leftColumnWidth != s.leftColumnWidth ==>
              s.focusedPane == Releases && key.kind == Keys.Press &&
              (key.code == Keys.Char('+') || key.code == Keys.Char('-'))
    ensures s.focusedPane == Releases && key.kind == Keys.Press && key.code == Keys.Char('+') ==>
              Step(s, key).leftColumnWidth == if s.leftColumnWidth < U16_MAX then s.leftColumnWidth + 1 else U16_MAX
    ensures s.focusedPane == Releases && key.kind == Keys.Press && key.code == Keys.Char('-') ==>
              Step(s, key).leftColumnWidth == if s.leftColumnWidth > 0 then s.leftColumnWidth - 1 else 0
  {
  }

  /** `l` and `h` switch the pane and nothing else. */
  lemma PaneSwitchOnly(s: AppState, key: Keys.KeyEvent)
    requires s.cursor < |s.options| && key.kind == Keys.Press
    ensures s.focusedPane == Releases && key.code == Keys.Char('l') ==> Step(s, key) == s.(focusedPane := ReleaseNotes)
    ensures s.focusedPane == ReleaseNotes && key.code == Keys.Char('h') ==> Step(s, key) == s.(focusedPane := Releases)
  {
  }

  /** Only the space bar in the release list changes which releases are selected. */
  lemma SelectionOnlyBySpace(s: AppState, key: Keys.KeyEvent)
    requires s.cursor < |s.options|
    ensures Step(s, key).options != s.options ==>
              s.focusedPane == Releases && key.kind == Keys.Press && key.code == Keys.Char(' ')
  {
  }

  /** `App`: its fields, the selection list it owns, and the log of notes requests. */
  class App {
    var scroll: U16
    var focusedPane: Pane
    const multiselect: MultiSelect<Release>
    var shouldExit: Option<ExitAction>
    var leftColumnWidth: U16
    /** The releases whose notes were requested, oldest first. */
    ghost var notesRequests: seq<Release>

    ghost function State(): AppState
      reads this, multiselect
    {
      AppState(scroll, focusedPane, multiselect.options, multiselect.cursor, shouldExit, leftColumnWidth, notesRequests)
    }

    ghost predicate Valid()
      reads this, multiselect
    {
      multiselect.Valid() && Consistent(State())
    }

    /** `App::new`: indexing the focused release needs at least one release. */
    constructor (releases: seq<Release>)
      requires |releases| > 0
      ensures Valid() && fresh(multiselect)
      ensures State() == Initial(releases)
    {
      scroll := 0;
      focusedPane := Releases;
      shouldExit := None;
      leftColumnWidth := INITIAL_LEFT_COLUMN_WIDTH;
      multiselect := new MultiSelect(Options(releases));
      notesRequests := [];
      new;
      ShowReleaseNotesOfFocusedRelease();
    }

    /** Starts loading the notes of the focused release, superseding any earlier request. */
    method ShowReleaseNotesOfFocusedRelease()
      requires multiselect.Valid() && |multiselect.options| > 0
      modifies this
      ensures State() == old(State()).(notesRequests := old(notesRequests) + [multiselect.options[multiselect.cursor].value])
    {
      var release := multiselect.FocusedValue();
      notesRequests := notesRequests + [release];
    }

    method ScrollUp()
      modifies this
      ensures State() == old(State()).(scroll := SaturatingSub(old(scroll), SCROLL_STEP_SIZE))
    {
      scroll := SaturatingSub(scroll, SCROLL_STEP_SIZE);
    }

    method ScrollDown()
      modifies this
      ensures State() == old(State()).(scroll := SaturatingAdd(old(scroll), SCROLL_STEP_SIZE))
    {
      scroll := SaturatingAdd(scroll, SCROLL_STEP_SIZE);
    }

    method FocusPane(pane: Pane)
      modifies this
      ensures State() == old(State()).(focusedPane := pane)
    {
      focusedPane := pane;
    }

    method ShrinkLeftColumn()
      modifies this
      ensures State() == old(State()).(leftColumnWidth := SaturatingSub(old(leftColumnWidth), 1))
    {
      leftColumnWidth := SaturatingSub(leftColumnWidth, 1);
    }

    method ExpandLeftColumn()
      modifies this
      ensures State() == old(State()).(leftColumnWidth := SaturatingAdd(old(leftColumnWidth), 1))
    {
      leftColumnWidth := SaturatingAdd(leftColumnWidth, 1);
    }

    /** `handle_key`: the screen moves as `Step` says and stays consistent. */
    method HandleKey(key: Keys.KeyEvent)
      requires Valid()
      modifies this, multiselect
      ensures Valid()
      ensures State() == Step(old(State()), key)
    {
      StepKeepsConsistent(State(), key);
      if key.kind != Keys.Press {
        return;
      }
      if IsCtrlC(key) {
        shouldExit := Some(Abort);
        return;
      }
      match focusedPane {
        case Releases =>
          if key.code == Keys.Char('l') {
            FocusPane(ReleaseNotes);
          } else if key.code == Keys.Char('k') {
            multiselect.Previous();
            ShowReleaseNotesOfFocusedRelease();
          } else if key.code == Keys.Char('j') {
            multiselect.Next();
            ShowReleaseNotesOfFocusedRelease();
          } else if key.code == Keys.Char('-') {
            ShrinkLeftColumn();
          } else if key.code == Keys.Char('+') {
            ExpandLeftColumn();
          } else if key.code == Keys.Char(' ') {
            multiselect.Toggle();
          } else if key.code == Keys.Enter {
            shouldExit := Some(PrintSelected);
          }
        case ReleaseNotes =>
          if key.code == Keys.Char('h') {
            FocusPane(Releases);
          } else if key.code == Keys.Char('k') {
            ScrollUp();
          } else if key.code == Keys.Char('j') {
            ScrollDown();
          }
      }
    }

    /** `get_selected_releases`: the selected releases in list order. */
    method GetSelectedReleases() returns (releases: seq<Release>)
      ensures releases == SelectedValues(multiselect.options)
    {
      releases := multiselect.Selected();
    }
  }
}
