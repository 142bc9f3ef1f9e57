/**
 * The template counter application of src/main.rs: a `u8` counter moved with the arrow keys
 * and a `running` flag cleared by the quit keys. The terminal loop that filters key presses and
 * draws the screen is not modelled; `HandleKeyEvent` receives the key codes and modifiers only.
 */
module CounterApp {
  import Keys

  const U8_MAX: nat := 255
  type U8 = n: nat | n <= U8_MAX

  /** Esc or `q` with any modifiers; `c` or `C` only when the modifiers are exactly Control. */
  predicate IsQuit(modifiers: set<Keys.Modifier>, code: Keys.KeyCode) {
    code == Keys.Esc || code == Keys.Char('q') ||
    (modifiers == {Keys.Control} && (code == Keys.Char('c') || code == Keys.Char('C')))
  }

  class App {
    var running: bool
    var counter: U8

    /** `App::new` (`Default`): not running, counter 0. */
    constructor ()
      ensures !running && counter == 0
    {
      running := false;
      counter := 0;
    }

    method Quit()
      modifies this
      ensures !running && counter == old(counter)
    {
      running := false;
    }

    /** One down, saturating at 0. */
    method DecrementCounter()
      modifies this
      ensures running == old(running)
      ensures counter == if old(counter) == 0 then 0 else old(counter) - 1
    {
      if counter > 0 {
        counter := counter - 1;
      }
    }

    /** One up, saturating at 255. */
    method IncrementCounter()
      modifies this
      ensures running == old(running)
      ensures counter == if old(counter) == U8_MAX then U8_MAX else old(counter) + 1
    {
      if counter < U8_MAX {
        counter := counter + 1;
      }
    }

    /** `handle_key_event`: quit keys first, then Left and Right; every other key is ignored. */
    method HandleKeyEvent(modifiers: set<Keys.Modifier>, code: Keys.KeyCode)
      modifies this
      ensures IsQuit(modifiers, code) ==> !running && counter == old(counter)
      ensures !IsQuit(modifiers, code) && code == Keys.Left ==>
                running == old(running) && counter == if old(counter) == 0 then 0 else old(counter) - 1
      ensures !IsQuit(modifiers, code) && code == Keys.Right ==>
                running == old(running) && counter == if old(counter) == U8_MAX then U8_MAX else old(counter) + 1
      ensures !IsQuit(modifiers, code) && code != Keys.Left && code != Keys.Right ==>
                running == old(running) && counter == old(counter)
    {
      if IsQuit(modifiers, code) {
        Quit();
      } else if code == Keys.Left {
        DecrementCounter();
      } else if code == Keys.Right {
        IncrementCounter();
      }
    }
  }

  /** Ctrl+Shift+C is not a quit key: the modifiers must equal Control, not merely contain it. */
  lemma ControlShiftCDoesNotQuit()
    ensures !IsQuit({Keys.Control, Keys.Shift}, Keys.Char('c'))
    ensures !IsQuit({}, Keys.Char('c'))
    ensures IsQuit({Keys.Control}, Keys.Char('C'))
    ensures IsQuit({Keys.Alt, Keys.Shift}, Keys.Char('q'))
  {
    assert Keys.Shift in {Keys.Control, Keys.Shift};
  }

  /** The key sequence of the template's own checks: Right, Left, then `q`. */
  method RightLeftQuit() returns (counterAfterRight: U8, counterAfterLeft: U8, running: bool)
    ensures counterAfterRight == 1 && counterAfterLeft == 0 && !running
  {
    var app := new App();
    app.running := true;
    app.HandleKeyEvent({}, Keys.Right);
    counterAfterRight := app.counter;
    app.HandleKeyEvent({}, Keys.Left);
    counterAfterLeft := app.counter;
    app.HandleKeyEvent({}, Keys.Char('q'));
    running := app.running;
  }

  /** Left at 0 stays at 0; Right at 255 stays at 255. */
  method CounterSaturates() returns (atBottom: U8, atTop: U8)
    ensures atBottom == 0 && atTop == U8_MAX
  {
    var app := new App();
    app.HandleKeyEvent({}, Keys.Left);
    atBottom := app.counter;
    app.counter := U8_MAX;
    app.HandleKeyEvent({}, Keys.Right);
    atTop := app.counter;
  }
}
