/**
 * The older lockable panels (`Sodalite/src/Api/LockablePanel.cs`): the same lazy
 * panel, made from the wrist menu's options panel prefab, which throws while the
 * wrist menu does not exist yet.
 */
module LockablePanelLegacy {
  import opened Wrappers
  import opened LockablePanel

  /** The exception of `GetCleanLockablePanel`. */
  datatype PanelError = InvalidOperation(message: string)

  const TooEarly: string := "You're trying to create a lockable panel too early! Please wait until the runtime phase."

  /** `FVRWristMenu`, alive until destroyed. */
  class WristMenu {
    var alive: bool

    constructor ()
      ensures alive
    {
      alive := true;
    }
  }

  /**
   * `LockablePanelAPI.GetCleanLockablePanel` with the wrist menu `H3Api.WristMenu.Instance`:
   * throws when there is none or it is destroyed, and otherwise gives a fresh emptied copy
   * of its options panel.
   */
  method GetCleanLockablePanelFrom(wristMenu: WristMenu?) returns (r: Result<PanelObject, PanelError>)
    ensures r.Err? <==> wristMenu == null || !wristMenu.alive
    ensures r.Err? ==> r.error == InvalidOperation(TooEarly)
    ensures r.Ok? ==> fresh(r.value) && r.value.alive && r.value.tabletTexture == None
  {
    if wristMenu == null || !wristMenu.alive {
      return Err(InvalidOperation(TooEarly));
    }
    var panel := GetCleanLockablePanel();
    return Ok(panel);
  }

  class LegacyLockablePanel {
    /** `_currentPanel` and `TextureOverride`. */
    var currentPanel: PanelObject?
    var textureOverride: Texture2D?
    /** Whether `Configure` has any handler. */
    var subscribed: bool
    /** Each invocation of `Configure`: the panel handed over and the texture its tablet had then. */
    var configured: seq<(PanelObject, Option<Texture2D>)>

    constructor ()
      ensures currentPanel == null && textureOverride == null && !subscribed && configured == []
    {
      currentPanel := null;
      textureOverride := null;
      subscribed := false;
      configured := [];
    }

    /** `Configure += handler`. */
    method Subscribe()
      modifies this
      ensures subscribed && currentPanel == old(currentPanel) && textureOverride == old(textureOverride)
      ensures configured == old(configured)
    {
      subscribed := true;
    }

    /** Assigning `TextureOverride`. */
    method SetTextureOverride(texture: Texture2D?)
      modifies this
      ensures textureOverride == texture && currentPanel == old(currentPanel)
      ensures subscribed == old(subscribed) && configured == old(configured)
    {
      textureOverride := texture;
    }

    /**
     * `GetOrCreatePanel`: a live current panel is returned as it is and nothing fires.
     * Otherwise the exception of a missing wrist menu leaves everything as it was; with the
     * wrist menu there, a fresh panel becomes the current one, gets the texture override
     * when that is live, and then `Configure` fires once with it when it has handlers.
     */
    method GetOrCreatePanel(wristMenu: WristMenu?) returns (r: Result<PanelObject, PanelError>)
      modifies this
      ensures textureOverride == old(textureOverride) && subscribed == old(subscribed)
      ensures old(currentPanel) != null && old(currentPanel.alive) ==>
        r.Ok? && r.value == old(currentPanel) && currentPanel == old(currentPanel) && configured == old(configured)
        && unchanged(currentPanel)
      ensures (old(currentPanel) == null || !old(currentPanel.alive)) && (wristMenu == null || !wristMenu.alive) ==>
        r == Err(InvalidOperation(TooEarly)) && currentPanel == old(currentPanel) && configured == old(configured)
      ensures (old(currentPanel) == null || !old(currentPanel.alive)) && wristMenu != null && wristMenu.alive ==>
        r.Ok? && currentPanel == r.value && fresh(r.value) && r.value.alive
        && r.value.tabletTexture == AppliedTexture(textureOverride)
        && configured == old(configured) + (if subscribed then [(r.value, r.value.tabletTexture)] else [])
    {
      if currentPanel == null || !currentPanel.alive {
        var clean := GetCleanLockablePanelFrom(wristMenu);
        if clean.Err? {
          return Err(clean.error);
        }
        var created := clean.value;
        currentPanel := created;
        if textureOverride != null && textureOverride.alive {
          created.tabletTexture := Some(textureOverride);
        }
        if subscribed {
          configured := configured + [(created, created.tabletTexture)];
        }
      }
      r := Ok(currentPanel as PanelObject);
    }
  }
}
