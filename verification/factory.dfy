/** The abstract factory: a style name selects one of the three visualizers,
    each carrying the icon family it draws with. */
module Factory {
  import opened Nodes
  import opened Layout
  import opened Errors
  import TreeStyle
  import RectStyle
  import NewStyle

  datatype Visualizer =
    | TreeVisualizer(icons: Icons)
    | RectangleVisualizer(icons: Icons)
    | NewVisualizer(icons: Icons)

  /** The style name each visualizer answers to. */
  function StyleName(v: Visualizer): string
  {
    match v
    case TreeVisualizer(_) => "tree"
    case RectangleVisualizer(_) => "rectangle"
    case NewVisualizer(_) => "new"
  }

  predicate KnownStyle(style: string)
  {
    style == "tree" || style == "rectangle" || style == "new"
  }

  /** `get_visualizer(style, icons)`: the visualizer of that style holding the
      given icons, or `ValueError("Unknown style: <style>")`. */
  function GetVisualizer(style: string, icons: Icons): (r: Result<Visualizer>)
    ensures r.Ok? <==> KnownStyle(style)
    ensures r.Ok? ==> StyleName(r.value) == style && r.value.icons == icons
    ensures r.Err? ==> r.error == ValueError("Unknown style: " + style)
  {
    if style == "tree" then Ok(TreeVisualizer(icons))
    else if style == "rectangle" then Ok(RectangleVisualizer(icons))
    else if style == "new" then Ok(NewVisualizer(icons))
    else Err(ValueError("Unknown style: " + style))
  }

  /** Asking for a visualizer's own style name with its own icons gives it back. */
  lemma GetVisualizerStyleName(v: Visualizer)
    ensures GetVisualizer(StyleName(v), v.icons) == Ok(v)
  {
  }

  /** No two styles share a name, and every visualizer's name is one the factory
      knows. */
  lemma StyleNamesDistinct(v: Visualizer, w: Visualizer)
    ensures StyleName(v) == StyleName(w) && v.icons == w.icons ==> v == w
    ensures KnownStyle(StyleName(v))
  {
  }

  /** `visualizer.visualize(node)` on whatever the factory returned: the tree and
      rectangle styles draw from level 0 and beautify (which can raise
      `IndexError`), the new style renders from level 0 and cannot fail. */
  method Visualize(v: Visualizer, node: Node) returns (r: Result<string>)
    ensures v.TreeVisualizer? ==> r == TreeStyle.Beautified(TreeStyle.Draw(v.icons, node, 0, false))
    ensures v.RectangleVisualizer? ==> r == RectStyle.Framed(RectStyle.Draw(v.icons, node, 0, false))
    ensures v.NewVisualizer? ==> r == Ok(NewStyle.Visualize(v.icons, node, 0))
    ensures SingleLine(v.icons, node) && !v.RectangleVisualizer? ==> r.Ok?
    ensures v.RectangleVisualizer? ==> (r.Ok? <==> Visible(Entries(node, 0, false)) != [])
  {
    match v
    case TreeVisualizer(icons) =>
      r := TreeStyle.Visualize(icons, node);
    case RectangleVisualizer(icons) =>
      r := RectStyle.Visualize(icons, node);
      RectStyle.VisualizeFailsIffNothingShown(icons, node);
    case NewVisualizer(icons) =>
      r := Ok(NewStyle.Visualize(icons, node, 0));
  }
}
