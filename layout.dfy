/**
 * The d3 treemap layout object the treemap keeps in its state. Only its
 * settings are modelled; applying it to a hierarchy (the tiling) is not.
 */
module Layout {
  import opened Js

  /** `layoutOptions`: `tile` is the tiling function, known only by identity. */
  datatype LayoutOptions = LayoutOptions(padding: real, round: bool, tile: Value)

  /** A d3 `treemap()` layout with its settings. */
  class TreemapLayout {
    var tile: Value
    var round: bool
    var width: real
    var height: real
    var padding: real

    /** `treemap().tile(tile).round(round).size([width, height]).padding(padding)`. */
    constructor(options: LayoutOptions, width: real, height: real)
      ensures tile == options.tile && round == options.round && padding == options.padding
      ensures this.width == width && this.height == height
    {
      tile := options.tile;
      round := options.round;
      padding := options.padding;
      this.width := width;
      this.height := height;
    }

    /** `layout.size([width, height])`: resizes this layout in place and returns it. */
    method Size(width: real, height: real)
      modifies this
      ensures this.width == width && this.height == height
      ensures tile == old(tile) && round == old(round) && padding == old(padding)
    {
      this.width := width;
      this.height := height;
    }
  }

  /**
   * `getLayout`: an existing layout is reused with only its size changed (the
   * options are not read again); otherwise a new layout is built from the options.
   */
  method GetLayout(width: real, height: real, options: LayoutOptions, layout: TreemapLayout?)
    returns (r: TreemapLayout)
    modifies layout
    ensures layout != null ==>
      (r == layout && r.tile == old(layout.tile) && r.round == old(layout.round) && r.padding == old(layout.padding))
    ensures layout == null ==>
      (fresh(r) && r.tile == options.tile && r.round == options.round && r.padding == options.padding)
    ensures r.width == width && r.height == height
  {
    if layout != null {
      layout.Size(width, height);
      return layout;
    }
    r := new TreemapLayout(options, width, height);
  }
}
