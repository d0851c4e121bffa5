/** A context-menu group: a list of buttons that the menu shows only while
    the group is enabled. */
module ContextMenus {

  /** A button, by identity. */
  type ButtonId = nat

  class ContextMenuContext {
    var buttons: seq<ButtonId>
    var enabled: bool

    /** A new group is disabled and holds no button. */
    constructor()
      ensures buttons == [] && !enabled && Render() == []
    {
      buttons := [];
      enabled := false;
    }

    /** `addButton`: appended after the earlier buttons; the enabled flag
        is kept. */
    method AddButton(button: ButtonId)
      modifies this`buttons
      ensures buttons == old(buttons) + [button] && enabled == old(enabled)
      ensures Render() == if enabled then old(Render()) + [button] else []
    {
      buttons := buttons + [button];
    }

    /** `enable`: the buttons are kept, and every one of them is shown. */
    method Enable()
      modifies this`enabled
      ensures enabled && buttons == old(buttons)
      ensures Render() == buttons
    {
      enabled := true;
    }

    /** `disable`: the buttons are kept, and none is shown. */
    method Disable()
      modifies this`enabled
      ensures !enabled && buttons == old(buttons)
      ensures Render() == []
    {
      enabled := false;
    }

    /** `render`: the buttons in insertion order when enabled, none
        otherwise. */
    function Render(): (r: seq<ButtonId>)
      reads this
      ensures enabled ==> r == buttons
      ensures !enabled ==> |r| == 0
    {
      if enabled then buttons else []
    }
  }

  /** A button is shown iff the group is enabled and holds it. */
  lemma RenderIff(c: ContextMenuContext, b: ButtonId)
    ensures b in c.Render() <==> c.enabled && b in c.buttons
  {
  }
}
