/**
 * Lockable panels (`LockablePanel.cs`): a panel object is made from the game's
 * options panel on first use, and made again whenever the scene has destroyed
 * it. Each new panel gets the texture override, when there is a live one, and
 * is then handed to the `Configure` handlers.
 */
module LockablePanel {
  import opened Wrappers

  /** A texture, alive until Unity destroys it. */
  class Texture2D {
    var alive: bool

    constructor ()
      ensures alive
    {
      alive := true;
    }
  }

  /** A panel game object: alive until destroyed, with the texture of its tablet (none keeps the default blue one). */
  class PanelObject {
    var alive: bool
    var tabletTexture: Option<Texture2D>

    constructor ()
      ensures alive && tabletTexture == None
    {
      alive := true;
      tabletTexture := None;
    }

    /** `Object.Destroy`, as a scene change does it. */
    method Destroy()
      modifies this
      ensures !alive && tabletTexture == old(tabletTexture)
    {
      alive := false;
    }
  }

  /** `GetCleanLockablePanel`: a fresh copy of the options panel, emptied, with the default texture. */
  method GetCleanLockablePanel() returns (panel: PanelObject)
    ensures fresh(panel) && panel.alive && panel.tabletTexture == None
  {
    panel := new PanelObject();
  }

  /** `x is not null && x`: a reference to an object Unity has not destroyed. */
  predicate Live(texture: Texture2D?)
    reads texture
  {
    texture != null && texture.alive
  }

  /** The texture a new panel's tablet gets: the override when it is live, otherwise the default. */
  function AppliedTexture(textureOverride: Texture2D?): (r: Option<Texture2D>)
    reads textureOverride
    ensures r.Some? <==> Live(textureOverride)
    ensures r.Some? ==> r.value == textureOverride
  {
    if textureOverride != null && textureOverride.alive then Some(textureOverride as Texture2D) else None
  }

  class LockablePanel {
    /** `_currentPanel` and `TextureOverride`. */
    var currentPanel: PanelObject?
    var textureOverride: Texture2D?
    /** Whether `Configure` has any handler. */
    var subscribed: bool
    /** Each invocation of `Configure`: the panel handed over and the texture its tablet had then. */
    var configured: seq<(PanelObject, Option<Texture2D>)>

    constructor ()
      ensures currentPanel == null && textureOverride == null && !subscribed && configured == []
    {
      currentPanel := null;
      textureOverride := null;
      subscribed := false;
      configured := [];
    }

    /** `Configure += handler`. */
    method Subscribe()
      modifies this
      ensures subscribed && currentPanel == old(currentPanel) && textureOverride == old(textureOverride)
      ensures configured == old(configured)
    {
      subscribed := true;
    }

    /** Assigning `TextureOverride`: it applies to the panels made from now on. */
    method SetTextureOverride(texture: Texture2D?)
      modifies this
      ensures textureOverride == texture && currentPanel == old(currentPanel)
      ensures subscribed == old(subscribed) && configured == old(configured)
    {
      textureOverride := texture;
    }

    /**
     * `GetOrCreatePanel`: a live current panel is returned as it is and nothing fires.
     * Otherwise a fresh panel becomes the current one, gets the texture override when that
     * is live, and then, when there are handlers, `Configure` fires once with it.
     */
    method GetOrCreatePanel() returns (panel: PanelObject)
      modifies this
      ensures currentPanel == panel && textureOverride == old(textureOverride) && subscribed == old(subscribed)
      ensures old(currentPanel) != null && old(currentPanel.alive) ==>
        panel == old(currentPanel) && configured == old(configured) && unchanged(panel)
      ensures old(currentPanel) == null || !old(currentPanel.alive) ==>
        fresh(panel) && panel.alive && panel.tabletTexture == AppliedTexture(textureOverride)
        && configured == old(configured) + (if subscribed then [(panel, panel.tabletTexture)] else [])
    {
      if currentPanel == null || !currentPanel.alive {
        var created := GetCleanLockablePanel();
        currentPanel := created;
        if textureOverride != null && textureOverride.alive {
          created.tabletTexture := Some(textureOverride);
        }
        if subscribed {
          configured := configured + [(created, created.tabletTexture)];
        }
      }
      panel := currentPanel;
    }
  }
}
