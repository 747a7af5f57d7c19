# Funny JSON Explorer, modelled in Dafny

Funny JSON Explorer reads a JSON document and prints it as a tree of names,
values and icons, in one of three styles. The program has two parts. A
builder turns the document into a tree of nodes: an object becomes a
composite, and every other value becomes a leaf. An abstract factory then
picks a visualizer by style name:

- "tree" draws `├─`/`└─` connectors and patches column 0 afterwards;
- "rectangle" draws `├─` connectors under a `│ ` indent, then pads every line
  and closes a frame around the drawing;
- "new" prints every node behind a fixed banner.

The repository has two copies of this program:

- a modular one, in `src/node.py`, `src/builder.py`, `src/visualizer.py` and
  `src/factory.py`;
- a single-file one, `src/whole_fje.py`. Its drawing code is the same as the
  modular one's, but it reads the icon family from a global. Its factory takes
  no icons, and its rectangle `beautify` closes the frame in a different way.

This project models both copies, as follows.

- **Errors, JsonData, Text** (`errors.dfy`, `json_data.dfy`, `text.dfy`)
  - The two Python exceptions the core can raise: `IndexError` and
    `ValueError`.
  - The parsed JSON values, and the text Python's `str()` gives a leaf value.
  - The string methods the core relies on: `split`, `join`, `lstrip`,
    `ljust`, `replace` (all, or the first *n*), `count` and `max` of lengths.
    Each one is specified by what it promises, in its own contract or in a
    lemma beside it (`count` is proved to be the number of occurrences).
    `split` and `join` are proved to be inverse to each other.
- **Nodes** (`nodes.dfy`)
  - The finished tree is a `Node` datatype.
  - `CompositeNode` and `LeafNode` are classes, because the builder fills a
    composite in place, one `add` per key.
- **Builder** (`builder.dfy`)
  - `Tree` is the specification of `build`.
  - The `CompositeNodeBuilder.Build` method creates the node objects and
    appends the children in a loop, and is proved equal to `Tree`.
  - `Tree` is proved lossless: `Unbuild` recovers the JSON value, both ways
    round.
- **Layout** (`layout.dfy`)
  - The pre-order walk that all three renderers follow: each node with its
    depth and a flag for "last among its siblings". Each renderer is proved
    to print exactly this walk, one line per visit.
  - The composite named `root` prints no line in the tree and rectangle
    styles.
- **TreeStyle, RectStyle, NewStyle** (`tree_style.dfy`, `rect_style.dfy`,
  `new_style.dfy`)
  - The `draw`/`visualize` recursions, written as in the source.
  - Lemmas tying each of them to the walk.
  - The `beautify` passes, as methods over an array of lines. Each is proved
    against a function that states the result.
  - Lemmas about the output: which lines change, their widths, the frame and
    the borders, and when an `IndexError` is raised.
- **Factory** (`factory.dfy`)
  - `get_visualizer(style, icons)`, with the `ValueError` for an unknown
    style.
  - The dispatch `visualizer.visualize(tree)`.
- **WholeFje** (`whole_fje.dfy`)
  - The single-file variant: its icon-less factory, proved to agree with the
    modular one, and its own rectangle `beautify`.
  - A proof that the variant's frame matches the modular one except on the
    bottom line, and an input where that bottom line differs.

Icons are a record of two strings, `leaf` and `composite`. In the single-file
program they are a global; here they are an argument.

Where the code's behaviour is unexpected, the model keeps it. The lemmas state
it:

- The tree style's `beautify` patches only column 0. Up to the last line
  that starts with `└` (line 0 when no line does), a line that starts with
  whitespace gets `│` there and every other line is kept. After that line,
  every line but the final empty piece gets a blank there. So when no line
  starts with `└`, as in `{"a": 1, "root": {"b": 2}}`, the nested lines keep
  their blank. Deeper continuation bars are never drawn. For example, in `{"a": {"b": {"x": 1}, "c": 2}}` the line for `x` has
  no bar under `b`.
- The rectangle style raises `IndexError` when the drawing has no line feed.
  This happens exactly when no node is shown, for example for `{}`. It does
  not print an empty frame.
- With a single drawn line, the modular rectangle style builds its bottom
  border on top of the top border. The result starts with `┌` and ends with
  `┘`. The single-file variant starts that line with `└`.
- The new style prints the banner before every line, and prints the root's
  own line. A null leaf prints `: None`.
- The new style's output always ends with a line feed, before the one `print`
  adds. The tree style's output ends with one whenever a node is shown, and is
  empty otherwise, as for `{}` and `{"root": {}}`. The rectangle style's output
  ends with one whenever it succeeds.

## Model

| member | source | states |
|---|---|---|
| Text.LStrip | src/visualizer.py:42 | `lstrip()` removes the whole leading run of Python whitespace: the result is a suffix, every removed character is whitespace, the result does not start with whitespace, and it is shorter exactly when the line starts with whitespace |
| Text.Split | src/visualizer.py:39 | `split('\n')` gives one more piece than there are separators, and no piece holds a separator |
| Text.Join | src/visualizer.py:49 | `'\n'.join(pieces)` is empty for no pieces, starts with the first piece, and puts the separator right after it when more pieces follow; `JoinSplit` and `SplitJoin` make it the inverse of `split` |
| Text.JoinSplit | src/visualizer.py:49 | joining the pieces of a split gives back the original text |
| Text.SplitJoin | src/visualizer.py:91 | splitting a join gives back the pieces when none of them holds the separator |
| Text.SplitUnlines | src/visualizer.py:20-36 | text made of line-feed-terminated lines splits into those lines plus one empty piece |
| Text.UnlinesAppend | src/visualizer.py:33-35 | drawing two runs of lines one after the other is the drawing of both runs together |
| Text.UnlinesEnding | src/visualizer.py:20-36 | a run of line-feed-terminated lines is empty exactly when there are no lines, and otherwise ends with a line feed |
| Text.JoinEndsWithSeparator | src/visualizer.py:90-91 | joining lines whose last one is empty ends with the separator |
| Text.Count | src/visualizer.py:87 | `count(c)` never exceeds the length of the text |
| Text.CountIsMultiplicity | src/visualizer.py:87 | `count(c)` is the number of occurrences of `c`: its multiplicity in the text |
| Text.CountZero | src/visualizer.py:87 | `count(c)` is zero exactly when `c` does not occur |
| Text.Repeat | src/visualizer.py:23 | `s * n` has length `n * len(s)`, and every character comes from `s` |
| Text.RepeatAt | src/visualizer.py:62 | copy `j` of `s` in `s * n` starts at offset `j * len(s)` |
| Text.ReplaceAll | src/visualizer.py:86 | `replace(a, b)` turns every `a` into `b` and keeps every other character |
| Text.ReplaceFirst | src/visualizer.py:87 | `replace(a, b, n)` keeps every character other than `a`, and turns each `a` into `a` or `b` |
| Text.ReplaceFirstAt | src/visualizer.py:87 | an `a` is replaced exactly when fewer than `n` occurrences of `a` come before it |
| Text.LJust | src/visualizer.py:81 | `ljust(width, fill)` keeps the line as a prefix, reaches at least `width`, and adds only `fill` |
| Text.MaxLen | src/visualizer.py:79 | `max(len(line) ...)` bounds every line's length and is the length of some line |
| JsonData.Digits | src/visualizer.py:28 | the decimal text of a natural number is a non-empty run of digits that reads back as the number, with no leading zero unless the number is 0 |
| JsonData.IntText | src/visualizer.py:28 | `str(i)` starts with `-` exactly when `i` is negative, the rest is digits with no leading zero unless `i` is 0, and it reads back as `i` |
| JsonData.ValueText | src/visualizer.py:28 | the `{node.value}` text: an integer's text reads back as the integer, a string prints as itself, a list is bracketed and a dict braced |
| Nodes.CompositeNode.constructor | src/node.py:15-17 | a new composite has the given name and no children |
| Nodes.CompositeNode.Add | src/node.py:20-21 | `add` appends the node after the existing children, and changes nothing else |
| Nodes.CompositeNode.Value | src/node.py:14-24 | the object stands for a composite node with its name and children |
| Nodes.CompositeNode.IsLeaf | src/node.py:23-24 | a composite is not a leaf |
| Nodes.LeafNode.constructor | src/node.py:29-31 | a new leaf holds the given name and value |
| Nodes.LeafNode.Value | src/node.py:28-34 | the object stands for a leaf node with its name and value |
| Nodes.LeafNode.IsLeaf | src/node.py:33-34 | a leaf is a leaf |
| Builder.Tree | src/builder.py:13-21 | the node carries the given name. It is a leaf exactly when the data is not an object, and a leaf holds the data itself. An object gets one child per key, in key order, each named by its key. No leaf ever holds an object |
| Builder.UnbuildTree | src/builder.py:13-21 | building loses nothing: the JSON value can be read back from the tree |
| Builder.TreeUnbuild | src/builder.py:13-21 | every tree in which no leaf holds an object is what `build` makes of some JSON value |
| Builder.CompositeNodeBuilder.Build | src/builder.py:13-21 | building in place, one `add` per key, yields exactly `Tree(data, name)` |
| Builder.TreeDirector.constructor | src/builder.py:26-27 | the director keeps the builder it is given |
| Builder.TreeDirector.BuildTree | src/builder.py:29-30 | `build_tree` delegates to the builder: the result is `Tree(data, name)`, and it carries the name (`root` by default) |
| Layout.Entries | src/visualizer.py:20-36 | the walk visits every node once (its length is the tree's size), starting with the node itself |
| Layout.LabelParts | src/visualizer.py:24-31 | `Label`, what follows the connector: the leaf or composite icon and the name, then `: ` and the value's text for a leaf that is not null, and nothing more otherwise |
| Layout.ChildEntry | src/visualizer.py:32-35 | child `i` is visited right after the subtrees of the children before it, one level deeper, and flagged last exactly when it is the final child |
| Layout.VisibleFrom | src/visualizer.py:30-31 | every visit kept is shown (it is not a composite named `root`) and is a visit of the walk |
| Layout.VisibleAppend | src/visualizer.py:33-35 | filtering two runs of visits separately or together gives the same result |
| TreeStyle.Indent | src/visualizer.py:23 | `"  " * (level - 1)`: two blanks per level below the first, none at level 0 |
| TreeStyle.DrawIsWalk | src/visualizer.py:20-36 | `Draw` (the `draw` recursion) prints the shown visits of the walk, one line each, in pre-order, with `└─` for the last sibling and `├─` otherwise |
| TreeStyle.WalkLines | src/visualizer.py:20-36 | the text of a run of visits is the lines of its shown visits, each ended by a line feed |
| TreeStyle.DrawEarlierIsWalk | src/visualizer.py:33-34 | `DrawEarlier`, the loop over `children[:-1]`, prints the walk of those children, none of them flagged last |
| TreeStyle.DrawEnding | src/visualizer.py:20-36 | `draw` prints nothing exactly when no node of the subtree is shown, and otherwise text that ends with a line feed |
| TreeStyle.DrawnLines | src/visualizer.py:20-36 | with no line feed inside a name, value or icon, the drawing splits into the walk's lines plus an empty piece, and every line has at least two characters |
| TreeStyle.ChildLine | src/visualizer.py:22-35 | the shown line of child `i` is its indent one level deeper, `└─` exactly for the last child, and its label |
| TreeStyle.ChildConnector | src/visualizer.py:22-35 | among a composite's children, only the last one is drawn with `└─` |
| TreeStyle.BarPatched | src/visualizer.py:42-44 | a line that starts with whitespace gets `│` in column 0; the rest of the line is kept |
| TreeStyle.PatchLine | src/visualizer.py:42-44 | one iteration of the first loop puts `│` in column 0 of a line that starts with whitespace, and changes no other line |
| TreeStyle.LastCorner | src/visualizer.py:45-46 | `last_root_index` is the last line before the final piece that starts with `└`, or 0 when none does |
| TreeStyle.MarkBars | src/visualizer.py:40-46 | the first loop patches column 0 of every line before the last, and finds `last_root_index`. It fails exactly when one of those lines is empty (`lines[i][0]` raises `IndexError`) |
| TreeStyle.BlankAfter | src/visualizer.py:47-48 | the second loop blanks column 0 of the lines after `last_root_index`, up to the final piece |
| TreeStyle.Beautify | src/visualizer.py:38-50 | `beautify` returns the joined finished lines, or `IndexError` when a line before the last is empty |
| TreeStyle.Visualize | src/visualizer.py:16-18 | `visualize` is `beautify(draw(node))`, and it succeeds whenever no name, value or icon holds a line feed |
| TreeStyle.FinishedShape | src/visualizer.py:41-48 | both passes change column 0 only, and leave the final piece alone |
| TreeStyle.LastCornerPatched | src/visualizer.py:43-46 | patching column 0 with `│` does not change which lines start with `└` |
| TreeStyle.LastCornerSame | src/visualizer.py:45-46 | `last_root_index` depends only on which lines start with `└` |
| TreeStyle.FinishedNoFeed | src/visualizer.py:41-48 | neither pass puts a line feed into a line |
| TreeStyle.BeautifiedSplits | src/visualizer.py:49-50 | `Beautified`, what `beautify` returns, splits into exactly the finished lines |
| TreeStyle.BeautifyKeepsLines | src/visualizer.py:38-50 | the output has the same number of lines as the drawing, each of the same length, and identical from column 1 on |
| TreeStyle.BeautifyColumnZero | src/visualizer.py:41-48 | column 0 after `beautify` is a blank below the last `└` line; up to it, it is `│` exactly when the drawn line starts with whitespace, and otherwise unchanged |
| TreeStyle.BeautifiedEnding | src/visualizer.py:38-50 | line-feed-terminated lines, none empty, beautify without error to the empty text when there are none, and otherwise to text ending with a line feed |
| TreeStyle.VisualizedEnding | src/visualizer.py:16-50 | with no line feed inside any text, the tree style succeeds; its output is empty exactly when no node is shown, and otherwise ends with a line feed |
| TreeStyle.BeautifyEmpty | src/visualizer.py:38-50 | an empty drawing (the tree of `{}`) beautifies to the empty text |
| RectStyle.Indent | src/visualizer.py:62 | `"│ " * (level - 1)`: two characters per level below the first, each a `│` or a blank |
| RectStyle.IndentAt | src/visualizer.py:62 | unit `j` of `"│ " * (level - 1)` is a `│` followed by a blank, at offset `2 * j` |
| RectStyle.DrawIsWalk | src/visualizer.py:59-75 | `Draw` (the `draw` recursion) prints the shown visits of the walk, one line each, in pre-order, always with `├─` |
| RectStyle.WalkLines | src/visualizer.py:59-75 | the text of a run of visits is the lines of its shown visits, each ended by a line feed |
| RectStyle.DrawEarlierIsWalk | src/visualizer.py:72-73 | `DrawEarlier`, the loop over `children[:-1]`, prints the walk of those children |
| RectStyle.DrawEnding | src/visualizer.py:59-75 | `draw` prints nothing exactly when no node of the subtree is shown, and otherwise text that ends with a line feed |
| RectStyle.WalkFeeds | src/visualizer.py:59-75 | the drawing holds a line feed exactly when some visit is shown |
| RectStyle.DrawnLines | src/visualizer.py:59-75 | with no line feed inside a name, value or icon, the drawing splits into the walk's lines plus an empty piece |
| RectStyle.Topped | src/visualizer.py:79-84 | after padding, framing and the top border, every line has the width of the longest drawn line plus 7 |
| RectStyle.MaxLength | src/visualizer.py:79 | the loop finds the length of the longest line |
| RectStyle.PadLines | src/visualizer.py:80-81 | every line is left-justified with `─` to the common width, in place |
| RectStyle.FrameLines | src/visualizer.py:82-83 | every line gets `│` in its first column and `┤` in its last, in place |
| RectStyle.TopLines | src/visualizer.py:79-84 | the first four steps of `beautify` build exactly `Topped` |
| RectStyle.Beautify | src/visualizer.py:77-91 | `beautify` returns the joined framed lines, or `IndexError` when there are fewer than two lines |
| RectStyle.Visualize | src/visualizer.py:55-57 | `visualize` is `beautify(draw(node))` |
| RectStyle.FrameOfPadded | src/visualizer.py:81-83 | a padded, framed line is `│`, then the drawn text from column 1 on, then `─` up to `┤` |
| RectStyle.BottomBorder | src/visualizer.py:85-88 | the rewritten `lines[-2]` keeps the width of the framed line; `BottomBorderShape` gives its ends and `BottomBorderAt` every column inside |
| RectStyle.BottomBorderShape | src/visualizer.py:85-88 | the bottom line ends in `┘` and holds no `│` and no `├`. A `│` in column 0 becomes `└`, and a `┌` there stays |
| RectStyle.BottomBorderAt | src/visualizer.py:85-88 | inside the frame, column by column: `│` becomes `└`, `├` becomes `─`, a blank becomes `─` exactly when fewer blanks than there are `└` (after the first replacement) come before it, and every other character is kept |
| RectStyle.ToppedRow | src/visualizer.py:80-84 | the first row is `┌`...`┐` and every other row is `│`...`┤`, around the drawn text padded with `─` |
| RectStyle.FramedLinesRow | src/visualizer.py:80-84 | each row above the bottom border is the framed drawn line |
| RectStyle.FramedLinesBottom | src/visualizer.py:84-88 | the bottom border ends in `┘`, has no `│` or `├`, and starts with `└` (or with `┌` when there is one drawn line) |
| RectStyle.FramedLinesBottomText | src/visualizer.py:80-88 | the drawn text survives in the bottom line: each `│` as `└`, each `├` as `─`, each blank as a blank or `─`, every other character as itself, and the padding as `─` |
| RectStyle.FramedLinesShape | src/visualizer.py:77-91 | the whole frame: equal widths, the top and side borders, the bottom border, and a last piece emptied |
| RectStyle.FramedSplits | src/visualizer.py:91 | the output splits into exactly the framed lines |
| RectStyle.FramedShape | src/visualizer.py:77-91 | every output line before the last has the width of the longest drawn line plus 7. The borders are as drawn above, the padding is `─`, the text keeps its columns above the bottom line, and in the bottom line it is rewritten as `FramedLinesBottomText` says |
| RectStyle.FramedFails | src/visualizer.py:85 | `Framed`, what `beautify` returns, is the `IndexError` of `lines[-2]` exactly when the drawing holds no line feed |
| RectStyle.FramedEndsWithLineFeed | src/visualizer.py:90-91 | a successful output ends with a line feed |
| RectStyle.EmptyRootFails | src/visualizer.py:69-85 | the tree of `{}` draws nothing, and framing it raises `IndexError` |
| RectStyle.VisualizeFailsIffNothingShown | src/visualizer.py:55-91 | the rectangle style fails exactly when no node is shown, as for `{}` and `{"root": {}}` |
| NewStyle.Indent | src/visualizer.py:98 | `" " * level * 2`: two blanks per level, the root's level included |
| NewStyle.VisualizeIsWalk | src/visualizer.py:96-105 | `Visualize` (the `visualize` recursion) prints every visit of the walk, the root included, each behind the banner |
| NewStyle.VisualizeEnding | src/visualizer.py:96-105 | the output starts with the banner and ends with a line feed |
| NewStyle.WalkEnding | src/visualizer.py:96-105 | a non-empty run of visits prints text that starts with the banner and ends with a line feed |
| NewStyle.WalkLines | src/visualizer.py:96-105 | the text of a run of visits is the lines of all its visits, each ended by a line feed |
| NewStyle.ChildrenAreWalk | src/visualizer.py:103-104 | the loop over the children prints their walks in order |
| NewStyle.NewLabelIsLabel | src/visualizer.py:99-102 | a node's text is the one the other styles print, except that a null leaf adds `: None` |
| NewStyle.VisualizedLines | src/visualizer.py:96-105 | with no line feed inside any text, there is one line per node (the tree's size), each line starts with the banner, and the first one shows the root |
| NewStyle.NullLeafShowsNone | src/visualizer.py:100 | a null leaf prints `: None` |
| Factory.GetVisualizer | src/factory.py:13-21 | the factory succeeds exactly for `tree`, `rectangle` and `new`, and returns that style holding the given icons. Any other name gives `ValueError("Unknown style: <name>")` |
| Factory.GetVisualizerStyleName | src/factory.py:13-19 | asking for a visualizer's own style name, with its own icons, gives that visualizer back |
| Factory.StyleNamesDistinct | src/factory.py:13-21 | no two styles share a name, and every style's name is one the factory accepts |
| Factory.Visualize | src/fje.py:39-42 | `visualize` on the factory's product dispatches to the chosen style. Tree and new succeed when no text holds a line feed; rectangle fails exactly when nothing is shown |
| WholeFje.GetVisualizer | src/whole_fje.py:133-142 | the icon-less factory accepts exactly the three style names, and raises the same `ValueError` otherwise |
| WholeFje.GetVisualizerAgrees | src/whole_fje.py:133-142 | both factories accept and refuse the same names, with the same error, and pick the same style |
| WholeFje.Beautify | src/whole_fje.py:98-109 | the variant `beautify` returns the joined lines, or `IndexError` when there are fewer than two |
| WholeFje.Visualize | src/whole_fje.py:37-122 | each visualizer draws with the global icon family exactly as the modular one does, and the rectangle uses the variant `beautify` |
| WholeFje.VariantSameAbove | src/whole_fje.py:98-109 | the variant's frame matches the modular one in every line except the bottom border |
| WholeFje.VariantBottom | src/whole_fje.py:106-107 | the variant's bottom line keeps the width of the framed line; `VariantBottomShape` and `VariantBottomAt` give its characters |
| WholeFje.VariantBottomShape | src/whole_fje.py:106-107 | the variant's bottom line runs from `└` to `┘` whatever the number of lines. Only its first `├` becomes `─`, and every other character, `│` included, is kept |
| WholeFje.VariantBottomAt | src/whole_fje.py:106-107 | column by column, the variant's bottom line is the framed line with `└` and `┘` at its ends and only the first `├` turned into `─` |
| WholeFje.BottomsDiffer | src/whole_fje.py:106-107 | when the last drawn line is nested, column 1 of the bottom line is `─` in the modular output and a blank in the variant |
| WholeFje.VariantLinesNoFeed | src/whole_fje.py:98-108 | no framed line of the variant holds a line feed |
| WholeFje.VariantFramedSplits | src/whole_fje.py:98-109 | `VariantFramed`, what the variant `beautify` returns, fails exactly when there is no line feed. Otherwise its output splits into its lines and ends with a line feed |
| WholeFje.VariantFailsIffNoFeed | src/whole_fje.py:98-106 | the variant fails, with `IndexError`, exactly when the text holds no line feed (then `lines[-2]` has fewer than two lines to index) |
| WholeFje.VariantOkSplits | src/whole_fje.py:98-109 | when the variant succeeds, its output splits back into the rewritten lines and ends with a line feed |
| WholeFje.EmptyRootFails | src/whole_fje.py:80-109 | the tree of `{}` also raises `IndexError` in the variant |

## Left out

- FramedShape: for a blank of the last drawn line it states only that it ends up a blank or `─` in the output. Which blanks turn into `─` (as many as there are `└`, from the left) is stated on the bottom line itself by `BottomBorderAt`, not carried through to the split output.
- Reading the JSON and icon files, command-line parsing, and printing: I/O, and no part of the core's logic.
- The icon file's lookup by family name, and a missing `leaf` or `composite` key (`KeyError`): icons are given as a record of two strings.
- Floating-point JSON numbers: floats, and Python's text for them, are not modelled. `Json` has null, booleans, integers, strings, arrays and objects.
- JsonData.ValueText: the text of a list or a nested dict inside a list uses single quotes with no escaping. Python's `repr` escapes quotes and control characters.
- Duplicate keys in a JSON object: an object is its list of key/value pairs in document order. The model does not require the keys to be distinct. A Python dict has distinct keys, and for a repeated key it keeps the last value.
- The abstract base classes (`Node`, `NodeBuilder`, `Visualizer`, `VisualizerFactory`): they hold no behaviour. The closed set of products is a datatype.
- Object identity and aliasing of the node objects: after construction a node is read as its `Node` value. The builder never shares a node between two parents.
- The drawing code copied into `src/whole_fje.py` (lines 42-58, 80-96 and 112-122): it matches the modular one except for where the icons come from, so the model reuses the modular functions with the icons as an argument.
