/** The single-file variant of the program. It draws with one global icon
    family, its factory takes no icons, and its rectangle `beautify` closes the
    frame differently. The drawing code is the same as in the modular version:
    the global icon family is passed here as an argument, so the tree and new
    styles and both `draw`s reuse the modules above. */
module WholeFje {
  import opened Nodes
  import opened Text
  import opened Layout
  import opened Errors
  import TreeStyle
  import RectStyle
  import NewStyle
  import Factory

  datatype Visualizer = TreeVisualizer | RectangleVisualizer | NewVisualizer

  function StyleName(v: Visualizer): string
  {
    match v
    case TreeVisualizer => "tree"
    case RectangleVisualizer => "rectangle"
    case NewVisualizer => "new"
  }

  /** `get_visualizer(style)`: the visualizer of that style, or
      `ValueError("Unknown style: <style>")`. */
  function GetVisualizer(style: string): (r: Result<Visualizer>)
    ensures r.Ok? <==> Factory.KnownStyle(style)
    ensures r.Ok? ==> StyleName(r.value) == style
    ensures r.Err? ==> r.error == ValueError("Unknown style: " + style)
  {
    if style == "tree" then Ok(TreeVisualizer)
    else if style == "rectangle" then Ok(RectangleVisualizer)
    else if style == "new" then Ok(NewVisualizer)
    else Err(ValueError("Unknown style: " + style))
  }

  /** Both factories accept and refuse the same names with the same error, and
      pick the same style. */
  lemma GetVisualizerAgrees(style: string, icons: Icons)
    ensures GetVisualizer(style).Ok? <==> Factory.GetVisualizer(style, icons).Ok?
    ensures GetVisualizer(style).Ok? ==>
              StyleName(GetVisualizer(style).value) == Factory.StyleName(Factory.GetVisualizer(style, icons).value)
    ensures GetVisualizer(style).Err? ==> GetVisualizer(style).error == Factory.GetVisualizer(style, icons).error
  {
  }

  // ---------------------------------------------------------------------------
  // The variant rectangle beautify

  /** The bottom line: its first and last columns replaced by `└` and `┘`, then
      only the first `├` turned into `─`. */
  function VariantBottom(line: string): (r: string)
    requires |line| >= 2
    ensures |r| == |line|
  {
    ReplaceFirst("└" + line[1..|line| - 1] + "┘", '├', '─', 1)
  }

  function VariantFramedLines(lines: seq<string>): (out: seq<string>)
    requires |lines| >= 2
    ensures |out| == |lines|
  {
    var n := |lines|;
    var topped := RectStyle.Topped(lines);
    topped[n - 2 := VariantBottom(topped[n - 2])][n - 1 := ""]
  }

  /** What this `beautify(result)` returns: the lines joined, or the
      `IndexError` of `lines[-2]` when the drawing has no line feed. */
  function VariantFramed(text: string): Result<string>
  {
    var lines := Split(text, '\n');
    if |lines| < 2 then Err(IndexError) else Ok(Join(VariantFramedLines(lines), '\n'))
  }

  method Beautify(text: string) returns (r: Result<string>)
    ensures r == VariantFramed(text)
  {
    var parts := Split(text, '\n');
    var lines := new string[|parts|](i requires 0 <= i < |parts| => parts[i]);
    var n := lines.Length;
    assert lines[..] == parts;
    RectStyle.TopLines(lines);
    if n < 2 {
      return Err(IndexError);
    }
    var bottom := lines[n - 2];
    bottom := "└" + bottom[1..|bottom| - 1] + "┘";
    bottom := ReplaceFirst(bottom, '├', '─', 1);
    lines[n - 2] := bottom;
    lines[n - 1] := "";
    assert lines[..] == VariantFramedLines(parts);
    r := Ok(Join(lines[..], '\n'));
  }

  /** `visualizer.visualize(json_tree)` with the global icon family `icons`. */
  method Visualize(v: Visualizer, icons: Icons, node: Node) returns (r: Result<string>)
    ensures v.TreeVisualizer? ==> r == TreeStyle.Beautified(TreeStyle.Draw(icons, node, 0, false))
    ensures v.RectangleVisualizer? ==> r == VariantFramed(RectStyle.Draw(icons, node, 0, false))
    ensures v.NewVisualizer? ==> r == Ok(NewStyle.Visualize(icons, node, 0))
  {
    match v
    case TreeVisualizer =>
      r := TreeStyle.Visualize(icons, node);
    case RectangleVisualizer =>
      var drawn := RectStyle.Draw(icons, node, 0, false);
      r := Beautify(drawn);
    case NewVisualizer =>
      r := Ok(NewStyle.Visualize(icons, node, 0));
  }

  // ---------------------------------------------------------------------------
  // Properties of the variant

  /** The variant differs from the modular `beautify` in the bottom line only. */
  lemma VariantSameAbove(lines: seq<string>)
    requires |lines| >= 2
    ensures var n := |lines|;
      && VariantFramedLines(lines)[..n - 2] == RectStyle.FramedLines(lines)[..n - 2]
      && VariantFramedLines(lines)[n - 1] == RectStyle.FramedLines(lines)[n - 1] == ""
  {
  }

  /** The variant's bottom line: `└` and `┘` at its ends, whatever the number of
      lines, the first `├` inside turned into `─`, and everything else of the
      framed line kept, `│` included. */
  lemma VariantBottomShape(lines: seq<string>, k: nat)
    requires |lines| >= 2
    requires k < RectStyle.Width(lines)
    ensures var t := RectStyle.Topped(lines)[|lines| - 2];
      var b := VariantFramedLines(lines)[|lines| - 2];
      var w := RectStyle.Width(lines);
      && |b| == w
      && b[0] == '└' && b[w - 1] == '┘'
      && (0 < k < w - 1 && t[k] != '├' ==> b[k] == t[k])
      && (0 < k < w - 1 && t[k] == '├' ==> (b[k] == '─' <==> '├' !in t[1..k]))
  {
    var n := |lines|;
    var t := RectStyle.Topped(lines)[n - 2];
    assert |t| == RectStyle.Width(lines);
    assert VariantFramedLines(lines)[n - 2] == VariantBottom(t);
    VariantBottomAt(t, k);
  }

  /** Column `k` of the variant's bottom line, against the framed line `t`. */
  lemma VariantBottomAt(t: string, k: nat)
    requires 2 <= |t| && k < |t|
    ensures var b := VariantBottom(t);
      && b[0] == '└' && b[|t| - 1] == '┘'
      && (0 < k < |t| - 1 && t[k] != '├' ==> b[k] == t[k])
      && (0 < k < |t| - 1 && t[k] == '├' ==> (b[k] == '─' <==> '├' !in t[1..k]))
  {
    var w := |t|;
    var c := "└" + t[1..w - 1] + "┘";
    assert c[0] == '└' && c[w - 1] == '┘';
    if 0 < k < w - 1 {
      assert c[k] == t[k];
      if t[k] == '├' {
        ReplaceFirstAt(c, '├', '─', 1, k);
        assert Count(c[..k], '├') == Count(t[1..k], '├') by {
          forall j | 0 <= j < k
            ensures c[..k][j] == (['└'] + t[1..k])[j]
          {
            if j > 0 {
              assert c[j] == t[j];
            }
          }
          assert c[..k] == ['└'] + t[1..k];
        }
        CountZero(c[..k], '├');
        CountZero(t[1..k], '├');
      }
    }
  }

  /** When the last drawn line is nested (it starts with the `│ ` indent), the two
      programs close the frame differently: the modular one joins the corner to
      the frame with `─` in column 1, this one leaves the blank there. */
  lemma BottomsDiffer(lines: seq<string>)
    requires |lines| >= 3
    requires var last := lines[|lines| - 2]; |last| >= 2 && last[0] == '│' && last[1] == ' '
    ensures RectStyle.FramedLines(lines)[|lines| - 2][1] == '─'
    ensures VariantFramedLines(lines)[|lines| - 2][1] == ' '
  {
    var n := |lines|;
    var t := RectStyle.Topped(lines)[n - 2];
    RectStyle.ToppedRow(lines, n - 2);
    VariantBottomShape(lines, 1);
    var closed := t[..|t| - 1] + "┘";
    var cornered := ReplaceAll(closed, '│', '└');
    assert cornered[0] == '└' && cornered[1] == ' ';
    assert Count(cornered, '└') > 0 by {
      CountZero(cornered, '└');
    }
    ReplaceFirstAt(cornered, ' ', '─', Count(cornered, '└'), 1);
    assert cornered[..1] == ['└'];
    assert RectStyle.FramedLines(lines)[n - 2] == RectStyle.BottomBorder(t);
  }

  lemma VariantBottomNoFeed(line: string)
    requires |line| >= 2 && '\n' !in line
    ensures '\n' !in VariantBottom(line)
  {
    var c := "└" + line[1..|line| - 1] + "┘";
    var r := VariantBottom(line);
    forall k | 0 <= k < |r|
      ensures r[k] != '\n'
    {
      assert c[k] != '\n';
    }
  }

  lemma VariantLinesNoFeed(lines: seq<string>)
    requires |lines| >= 2
    requires forall i :: 0 <= i < |lines| ==> '\n' !in lines[i]
    ensures forall i :: 0 <= i < |lines| ==> '\n' !in VariantFramedLines(lines)[i]
  {
    var n := |lines|;
    var topped := RectStyle.Topped(lines);
    var out := VariantFramedLines(lines);
    RectStyle.ToppedNoFeed(lines);
    forall i | 0 <= i < n
      ensures '\n' !in out[i]
    {
      if i == n - 2 {
        VariantBottomNoFeed(topped[n - 2]);
      } else if i < n - 2 {
        assert out[i] == topped[i];
      }
    }
  }

  /** The variant's output splits into exactly its lines, ends with a line feed,
      and fails exactly when the drawing has no line feed. */
  lemma VariantFramedSplits(text: string)
    ensures VariantFramed(text).Err? <==> '\n' !in text
    ensures VariantFramed(text).Err? ==> VariantFramed(text).error == IndexError
    ensures VariantFramed(text).Ok? ==>
              && Split(VariantFramed(text).value, '\n') == VariantFramedLines(Split(text, '\n'))
              && VariantFramed(text).value[|VariantFramed(text).value| - 1] == '\n'
  {
    VariantFailsIffNoFeed(text);
    if VariantFramed(text).Ok? {
      VariantOkSplits(text);
    }
  }

  /** The variant fails, with `IndexError`, exactly when the text has no line feed. */
  lemma VariantFailsIffNoFeed(text: string)
    ensures VariantFramed(text).Err? <==> '\n' !in text
    ensures VariantFramed(text).Err? ==> VariantFramed(text).error == IndexError
  {
    CountZero(text, '\n');
  }

  /** A text the variant accepts comes out as its rewritten lines, each ended by a line feed. */
  lemma VariantOkSplits(text: string)
    requires VariantFramed(text).Ok?
    ensures Split(VariantFramed(text).value, '\n') == VariantFramedLines(Split(text, '\n'))
    ensures VariantFramed(text).value[|VariantFramed(text).value| - 1] == '\n'
  {
    var lines := Split(text, '\n');
    VariantLinesNoFeed(lines);
    JoinTerminated(VariantFramedLines(lines), '\n');
  }

  /** An empty root draws nothing, and this `beautify` also raises `IndexError`. */
  lemma EmptyRootFails(icons: Icons)
    ensures VariantFramed(RectStyle.Draw(icons, Composite(RootName, []), 0, false)) == Err(IndexError)
  {
    RectStyle.EmptyRootFails(icons);
  }
}
