# Box-drawn tables of nested JSON records, in Dafny

This project models the table engine of `server.js`. The engine takes a list of decoded
JSON records, which may be nested and may differ from one another. It turns them into a
text table drawn with box characters:

- A column is a dotted path discovered in the records (`extractAllColumns`).
- The header has one line per nesting level. A parent label spans the leaf columns
  beneath it (`buildHeaderTree`, `countLeaves`, `getMaxDepth`, `buildHeaderRows`).
- Every column is between 10 and 30 characters wide, taken from the wrapped text of
  its values (the `columnWidths` map).
- A record that holds arrays is spread over several sub-rows (`expandDataRows`).
- Each cell is word-wrapped to its column's width (`wrapText`).
- Records are separated by `├┼┤` lines.
- The column called `user_id` is printed only on the first line of each record.
- `generateMarkdownDocument` wraps the table in a Markdown page under a title and a
  time stamp.

Modules, one per file:

| file | module | what it holds |
|---|---|---|
| `json.dfy` | `JsonValues` | the `Json` value with `undefined`, truthiness, `String(v)`, `v?.[key]` lookup |
| `text.dfy` | `Text` | split/join on one character, `trim`, `repeat`, concatenation of lines |
| `ordered_set.dfy` | `OrderedSets` | a JavaScript `Set` as a duplicate-free sequence in insertion order |
| `columns.dfy` | `Columns` | `isPrimitiveArray` use and `extractAllColumns` |
| `header_tree.dfy` | `HeaderTree` | `buildHeaderTree`, `countLeaves`, `getMaxDepth`, the leaves of the tree |
| `header_rows.dfy` | `HeaderRows` | `buildHeaderRows` over an array of per-level rows |
| `wrap.dfy` | `WordWrap` | `wrapText` |
| `widths.dfy` | `Widths` | the `columnWidths` map |
| `expand.dfy` | `Expand` | `expandDataRows` |
| `render.dfy` | `Render` | `pad`, `drawLine`, one header line, one data line, the `user_id` rule |
| `table.dfy` | `Table` | `generateAsciiTableWrapped`, its output as a list of lines, and the layout theorems |
| `markdown.dfy` | `Markdown` | `generateMarkdownDocument` |

Code that changes state step by step is written as methods with loops, each proved equal
to a specification function:

- the closure recursion adding to a `Set`;
- the pointer walk inserting into the header tree;
- the pushes into the per-level header rows, which are kept in an `array`;
- the `wrapText` loop;
- the `forEach` that fills the width map;
- the row-expansion loops;
- the `+=` building of the table text.

The properties are proved about those functions.

Two places in the code break the box the table is drawn in (see Findings). The functions
that draw the table therefore take two modes:

- `Flush`: whether the pending line is pushed `Untrimmed` or `Trimmed` before a long word
  is cut;
- `SpanWidth`: whether a spanning header cell is as wide as its columns only
  (`ColumnsOnly`) or with the separators between them (`WithSeparators`).

The methods compute the code as written, `Untrimmed` and `ColumnsOnly`. The lemmas state
what the code as written does. They also state that the corrected program, `Trimmed` and
`WithSeparators`, draws every line of the table with the same length.

Five behaviours of the code are easy to miss; the model follows the code in each:

- **Widths.** The width calculation looks a path up with plain key lookup. It does not
  map the remaining keys over arrays the way row expansion does.
- **Empty records.** A record can expand to zero sub-rows.
- **`user_id`.** Suppression restarts with every record, not only after the first record.
- **Arrays of primitives.** A record such as `{"tags": ["x", "y"]}` prints one sub-row
  per element (Expand.PrimitiveTagsExample), not one cell reading `x, y`: the rows are
  expanded before a cell's array would be joined.
- **Span sums.** The spans of a header row sum to the number of columns only when no
  column's path is a proper prefix of another's. Otherwise they sum to the number of
  tree leaves.

## Model

| member | source | states |
|---|---|---|
| JsonValues.Display | server.js:118 | `String(text \|\| "")`: every falsy value (undefined, null, false, 0, "") shows as the empty string, and a string shows as itself |
| JsonValues.Get | server.js:144 | `v?.[key]` is undefined for a missing field, for a non-numeric key on an array, and on anything that is not an object or array |
| JsonValues.GetPathUndefined | server.js:144 | once the optional chain reaches undefined it stays undefined |
| JsonValues.GetPathAppend | server.js:144 | looking up a path is looking up its two halves one after the other |
| Text.JoinSplit | server.js:54 | joining the pieces of `col.split(".")` with "." gives the column back |
| Text.SplitJoin | server.js:54 | splitting the dot-join of dot-free pieces gives the pieces back |
| Text.SplitInjective | server.js:54 | two columns with the same split path are the same column |
| Text.TrimFacts | server.js:128-135 | `trim` never lengthens, keeps every non-space character, and is empty exactly for blank text |
| OrderedSets.DedupFacts | server.js:28-48 | `Array.from(new Set(...))`: duplicate-free, the same members as what was added, in first-insertion order |
| Columns.Recurse | server.js:30-45 | the closure recursion adds the paths discovered below `obj` to the set |
| Columns.ExtractAllColumns | server.js:27-49 | the columns are the discovered paths, distinct, exactly the discovered ones, in first-discovery order across the records |
| Columns.DiscoveredShapes | server.js:31-44 | an array whose elements are all primitive arrays (the empty array too) registers its prefix; any other array hands the same prefix to each element; a key-less object adds nothing; a top-level key has no leading dot; a scalar or null registers its prefix |
| Columns.PrimitiveArrayOneColumn | server.js:31-36 | a non-empty flat array of primitives is recursed into element by element, yet yields its prefix as a single column |
| Columns.DiscoveredAreKeyPaths | server.js:30-45 | every discovered column is reached from the record by object keys alone, so array indices never appear in a path |
| Columns.ExampleColumns | server.js:27-49 | the record `{"a":1,"b":{"c":2}}` has the columns `a` and `b.c`, in that order |
| HeaderTree.BuildHeaderTree | server.js:51-62 | the tree has distinct sibling keys and holds exactly the split paths of the columns and their prefixes |
| HeaderTree.TreeOfPaths | server.js:53-60 | a path is in the tree exactly when it is a prefix of some column's split path |
| HeaderTree.TreeOfKeysAt | server.js:53-60 | the children of every node are the next segments of the columns below it, once each, in first-insertion order |
| HeaderTree.InsertPaths | server.js:54-59 | inserting a path adds exactly its prefixes |
| HeaderTree.InsertKeysAt | server.js:56-57 | an insertion appends one new child key, and only at nodes on the inserted path |
| HeaderTree.InsertValid | server.js:56-57 | insertion keeps sibling keys distinct |
| HeaderTree.InsertPresent | server.js:56-59 | inserting leaves the tree unchanged exactly when the path is already there |
| HeaderTree.InsertFresh | server.js:56-58 | a first key that no child has gets a new `{}` child after the existing ones, and the rest of the path goes below it |
| HeaderTree.InsertExisting | server.js:56-58 | a first key that a child already has descends into that child, which keeps its position |
| HeaderTree.TreeOfIdempotent | server.js:53-60 | re-inserting a column already inserted changes nothing |
| HeaderTree.CountLeaves | server.js:64-68 | `countLeaves` is at least 1 |
| HeaderTree.MaxDepth | server.js:70-74 | `getMaxDepth` is 0 exactly for a node without children, and exceeds the depth of every child |
| HeaderTree.MaxDepthAttained | server.js:73 | the depth of a non-empty node comes from one of its children |
| HeaderTree.LeafPathsCount | server.js:64-68 | `countLeaves` is the number of root-to-leaf paths of the tree |
| HeaderTree.LeafPathsMembership | server.js:64-68 | the leaf paths are exactly the paths that end at a node without children |
| HeaderTree.LeafPathsDistinct | server.js:64-68 | no leaf path is counted twice |
| HeaderTree.LeavesAreMaximalColumns | server.js:51-68 | a leaf is exactly the split path of a column that no other column extends |
| HeaderTree.ColumnLeaf | server.js:51-68 | a column is a leaf exactly when no other column's path extends it |
| HeaderTree.LeafCount | server.js:51-68 | for distinct non-empty columns, `countLeaves(tree)` is at most the column count, with equality exactly when no column's path is a proper prefix of another's |
| HeaderTree.LeafSets | server.js:51-68 | for distinct columns the leaf paths are as many as the counted leaves, the split paths as many as the columns, and every leaf path is a column's split path |
| HeaderTree.AllColumnsLeaves | server.js:51-68 | when no column path is a proper prefix of another, every column's split path is a leaf path |
| HeaderTree.SplitPathOf | server.js:54 | a dot-join of dot-free segments splits back into them |
| HeaderTree.ExampleTree | server.js:51-62 | the columns `a.x, b, a.y` give the tree `a{x, y}, b` |
| HeaderTree.LeafOrderExample | server.js:51-68 | for the columns `a.x, b, a.y` the header leaves run `a.x, a.y, b`, an order that differs from the columns |
| HeaderRows.Traverse | server.js:80-93 | `traverse(node, level)` appends to every row exactly the cells the node contributes at that row |
| HeaderRows.PushBranch | server.js:82-91 | one child contributes its label with its leaf count, then its subtree or the padding below it |
| HeaderRows.PushCell | server.js:84 | `rows[level].push(...)` appends the cell to that row and leaves every other row as it was |
| HeaderRows.PadBelow | server.js:88-90 | a leaf above the deepest level adds one `{label: "", span: 1}` to every lower row and nothing else |
| HeaderRows.BuildHeaderRows | server.js:76-97 | `getMaxDepth(tree)` rows; the spans of every row sum to `countLeaves(tree)`; the first row is the root's children with their leaf counts |
| HeaderRows.HeaderRowsSpans | server.js:76-97 | the spans of every header row sum to `countLeaves(tree)` |
| HeaderRows.SpanSum | server.js:80-93 | the cells a list of children contributes to any row at or below their level span their total leaf count |
| HeaderRows.NoCellsAbove | server.js:80-93 | a node adds nothing to the rows above its own level |
| HeaderRows.HeaderSpansPositive | server.js:83-89 | every header cell spans at least one column |
| HeaderRows.TopRow | server.js:81-84 | at a node's own level its children appear as their labels with their leaf counts |
| HeaderRows.HeaderExample | server.js:76-97 | the columns `a, b.c` give the rows `a/1, b/1` and `""/1, c/1` |
| Table.HeaderOfRecord | server.js:27-97 | the records `[{"a":1,"b":{"c":2}}]` have the columns `a, b.c` and the header rows `a/1, b/1` and `""/1, c/1` |
| WordWrap.ChunksConcat | server.js:125-127 | the chunks of a long word concatenate back to the word |
| WordWrap.ChunksCount | server.js:125-127 | a word is cut into ceil(length/width) chunks |
| WordWrap.ChunksLengths | server.js:125-127 | every chunk is 1 to width long, and all but the last exactly width |
| WordWrap.WrapText | server.js:117-137 | the loop computes the wrap as written of `String(text \|\| "")`: at least one line, every line at most the width once trimmed, each line the corrected wrap's line or a line that trims to it, and `[""]` exactly for blank text |
| WordWrap.WrapWidth | server.js:117-137 | corrected (pending line trimmed before a long word): no line is longer than the width |
| WordWrap.FoldFitsTrimmed | server.js:122-134 | as written, only the trimmed length of each pushed line is bounded by the width |
| WordWrap.FoldModes | server.js:122-134 | the two flushes take the same branches: the same pending line, as many pushed lines, and each line as written is the corrected line or trims to it |
| WordWrap.WrapModes | server.js:117-137 | the wrap as written has as many lines as the corrected one, and each of its lines is the corrected line or trims to it |
| WordWrap.WrapFitsTrimmed | server.js:117-137 | as written, every line is at most the width once trimmed |
| WordWrap.WrapOverrun | server.js:123-124 | as written, a line longer than the width is a line the corrected wrap trims, and it overruns by at most the spaces trimmed off it |
| WordWrap.FoldKeepsText | server.js:122-134 | the lines and the pending line together hold every non-space character of the words, in order |
| WordWrap.StepKeepsText | server.js:122-134 | one turn of the loop adds the non-space characters of the word and no others |
| WordWrap.WrapKeepsText | server.js:117-137 | removing the spaces from the concatenated lines gives the input with its spaces removed, as written and corrected |
| WordWrap.WrapBlank | server.js:135-136 | the result is `[""]` exactly when the input is blank, as written and corrected |
| WordWrap.LongWord | server.js:123-127 | a single word longer than the width wraps to its chunks |
| WordWrap.FortyAtThirty | server.js:123-127 | a 40-character word at width 30 gives lines of 30 and 10 |
| WordWrap.OverlongLine | server.js:124 | as written, `"abc defgh"` at width 3 gives `" abc"`, a 4-character line, where the corrected wrap gives `"abc"` |
| WordWrap.OverrunUnbounded | server.js:122-133 | as written, at width 3 the words `a`, n empty words and `bcde` give a first line of n + 2 characters, where the corrected wrap gives `a` |
| WordWrap.OverrunFolds | server.js:122-134 | as written, the words `a`, three empty words and `bcde` at width 3 leave the lines `" a   "`, `"bcd"`, `"e"`; corrected, `"a"`, `"bcd"`, `"e"` |
| WordWrap.OverrunExample | server.js:117-137 | as written, `"a    bcde"` at width 3 gives `" a   "`, `"bcd"`, `"e"`; corrected, `"a"`, `"bcd"`, `"e"` |
| Widths.WidthCellText | server.js:145-151 | an array is joined into a string and an object stringified; any other value is wrapped as it is |
| Widths.MaxLen | server.js:154-157 | the maximum is at least the segment length and every line length, and is one of them |
| Widths.ColumnWidth | server.js:154-158 | every column width lies in [10, 30] |
| Widths.ComputeColumnWidths | server.js:139-159 | the map has exactly the columns as keys, each mapped to its width, in [10, 30] |
| Widths.FillWidths | server.js:140-159 | the `forEach` gives a map with exactly the columns as keys, each mapped to the width computed for it |
| Widths.ColumnLinesFit | server.js:141-153 | every line a column's values wrap to at width 30, as written, is at most 30 long once trimmed |
| Widths.WidthBounds | server.js:139-159 | a width is in [10, 30], at least the last path segment when that is at most 30, at least every wrapped line of the column that is at most 30 long, and at least every wrapped line once trimmed |
| Widths.ThroughArray | server.js:144 | a path that meets an array on a non-numeric key looks up undefined |
| Widths.EmptyLines | server.js:141-153 | a column no record has a value for wraps to empty lines only |
| Widths.NoValuesWidth | server.js:139-159 | a column no record has a value for is as wide as its last segment, clamped |
| Widths.TagsNameExample | server.js:144 | `tags.name` over a record whose `tags` is an array of objects is 10 wide, because the width step does not descend into arrays |
| Expand.Descend | server.js:206-209 | an array is mapped element by element and keeps its length |
| Expand.ResolveColumn | server.js:203-211 | the key loop computes the column's resolved values |
| Expand.ResolveColumns | server.js:203-211 | the map over the columns gives every column's resolved values, in column order |
| Expand.BuildSubRows | server.js:213-221 | the loop over `i < maxRows` pushes exactly the sub-rows |
| Expand.MaxRows | server.js:213 | the sub-row count bounds every column's length and is attained, and it is 0 without columns |
| Expand.ExpandDataRows | server.js:202-222 | the loops compute the record's sub-rows |
| Expand.ExpandedCount | server.js:213-220 | there are max-over-columns rows, each as wide as the columns; cell (i, c) is `col[i]` if defined, else `col[0]` on row 0, else "" |
| Expand.ExpandedShape | server.js:202-222 | every column fits in the sub-rows, the longest fills them, and there are none exactly when every column resolves to `[]` |
| Expand.FirstSubRow | server.js:216-218 | on row 0 each cell is the column's first value, so the fallback changes nothing |
| Expand.LaterSubRow | server.js:216-218 | on a later row a cell is the column's value there when defined, and "" otherwise |
| Expand.ResolveInsideArray | server.js:206-209 | once an array is met, the remaining keys are looked up inside each element |
| Expand.ResolveWithoutArrays | server.js:206-209 | a path that crosses no array resolves to the plain lookup |
| Expand.ScalarRecord | server.js:202-222 | a record whose columns all resolve to non-arrays gives one sub-row of those values |
| Expand.TagsExample | server.js:202-222 | `{"id":1,"tags":[{"name":"x"},{"name":"y"}]}` gives the sub-rows `1, x` and `"", y` |
| Expand.PrimitiveTagsExample | server.js:210-220 | `{"tags":["x","y"]}` gives two sub-rows, one per element |
| Render.Pad | server.js:161-170 | a string at least as long as the width is returned unchanged; otherwise the result is exactly the width, with the string at the left, the right or the centre (the floor half of the spaces in front) and blanks elsewhere |
| Render.BorderLength | server.js:172-179 | the top, separator and bottom borders all have the line length of the widths |
| Render.FrameLength | server.js:172-179 | one-character ends and separators around pieces of width + 2 make a line of the line length |
| Render.HeaderLineOf | server.js:183-198 | the `colIndex` loop computes the header line as written: a spanning cell is padded to the widths of its columns plus their margins, without the separators between them |
| Render.HeaderPiecesLength | server.js:187-195 | the first k header pieces are as long as the columns their spans cover, plus the covered separators in the corrected mode |
| Render.PieceWidth | server.js:189-192 | one header piece is as wide as the columns its span covers, plus the inner separators in the corrected mode |
| Render.HeaderLineLength | server.js:183-198 | the length of a header line whose cells partition the columns, in either mode |
| Render.HeaderLineShort | server.js:187-191 | as written, a header line plus (columns − entries) characters is the border length |
| Render.HeaderLineFull | server.js:183-198 | with the inner separators counted, a header line is as long as a border |
| Render.SpansAtLeastCells | server.js:188-193 | with every span positive, a row's spans sum to at least its entry count |
| Render.CellValue | server.js:228-229 | an array cell is joined with ", " and an object stringified; any other cell is kept |
| Render.RowHeight | server.js:233 | the line count of a sub-row bounds every wrapped cell and is attained |
| Render.DataLineFull | server.js:227-248 | corrected (trimmed flush): every data line has the border length, because each cell is wrapped to its column's width |
| Render.DataLineLength | server.js:234-248 | a data line has the border length whenever every wrapped piece fits its column's width |
| Render.DataLineAtLeast | server.js:234-248 | a data line is never shorter than the borders, since `pad` never cuts |
| Render.OneColumnLine | server.js:234-248 | in a one-column table the first data line overruns the borders by as much as its wrapped line overruns the width |
| Render.DataLineOverrun | server.js:124 | as written, the cell `"a    bcde"` in a column of width 3 gives a first data line 2 characters longer than the borders; corrected, it has the border length |
| Render.UserIdOnce | server.js:239-245 | the `user_id` piece is blank on every line but the first line of a record's first sub-row |
| Render.SubRowCount | server.js:227-249 | under either flush, a sub-row prints as many lines as its tallest wrapped cell, and each cell is wrapped at its column's width |
| Render.SubRowHeight | server.js:233-249 | under either flush, a sub-row prints no line exactly when there are no columns, and enough lines for every wrapped cell |
| Render.WrapAtLeastOne | server.js:136 | the wrap of any text has at least one line |
| Table.ColumnWidthsInOrder | server.js:139-159 | the map's widths read in column order are the column widths |
| Table.DrawTable | server.js:181-258 | the drawing appends the top border, the header lines as written, the separator, the records wrapped as written and the bottom border, in that order |
| Table.WrapCells | server.js:227-231 | the map computes every cell's lines as `wrapText` as written computes them |
| Table.SubRowText | server.js:233-249 | the line loop appends exactly the lines of the sub-row wrapped as written |
| Table.RecordText | server.js:225-250 | the sub-row loop appends exactly the lines of the record wrapped as written |
| Table.HeaderText | server.js:183-198 | the header loop appends exactly the header lines as written, spanning cells without the inner separators |
| Table.BodyText | server.js:224-256 | the record loop appends each record's lines, wrapped as written, with a separator after every record but the last |
| Table.TableConcat | server.js:181-259 | in either version the text is the top border, header lines, separator, body and bottom border |
| Table.GenerateAsciiTableWrapped | server.js:109-260 | the method builds the table text as the code draws it (pending line untrimmed before a long word, spanning cells without inner separators); `"No data to display"` for no records |
| Table.TableFrame | server.js:181-258 | in either version the table's lines are the top border, `getMaxDepth` header lines, the `├┼┤` separator, the body and the bottom border |
| Table.InterleaveSeparators | server.js:252-255 | records that never contain the separator get one separator each, except the last |
| Table.BodySeparators | server.js:252-255 | under either flush, a body of n records holds exactly n − 1 separator lines |
| Table.RecordHeight | server.js:226-249 | under either flush and with columns present, a record prints at least one line per sub-row |
| Table.SubRowAligned | server.js:233-249 | corrected (trimmed flush): every line of a sub-row has the border length |
| Table.RecordAligned | server.js:226-250 | corrected (trimmed flush): every line of a record's sub-rows has the border length |
| Table.RecordOfAligned | server.js:224-250 | corrected (trimmed flush): every line of one record has the border length |
| Table.InterleaveAligned | server.js:252-255 | records and separators of one length interleave into lines of that length |
| Table.BodyAligned | server.js:224-256 | corrected (trimmed flush): every body line has the border length |
| Table.HeaderRowsPartition | server.js:112-114 | when no column path is a proper prefix of another, every header row's spans partition the columns |
| Table.HeaderBlockAligned | server.js:183-198 | corrected (separators counted): header rows that partition the columns, with labels that fit, print as lines of the border length |
| Table.HeaderBlockShort | server.js:183-198 | as written, header line h is `columns − entries of row h` characters shorter than the borders |
| Table.TableHeadersShort | server.js:181-198 | as written, the three borders have the line length and every header line falls short of it by one character for every column a spanning cell covers beyond its first |
| Table.TableAligned | server.js:109-260 | corrected (both findings fixed): when no column path is a proper prefix of another and every label fits its cell, every line of the table has the same length |
| Markdown.GenerateMarkdownDocument | server.js:99-107 | the page is the heading, the time stamp, and the table as the code draws it in a code fence |
| Markdown.TableInDocument | server.js:101-105 | the table can be read back between the heading and the closing fence, and the page opens with `# ` and the title |
| Markdown.OnlyTheStampDiffers | server.js:102 | two pages of the same table made at different times differ only in the time stamp |

## Left out

- The HTTP service, request validation, the filesystem writes and process start-up are
  not modelled: they are I/O around the engine.
- The clock is a parameter. `GenerateMarkdownDocument` takes the time stamp as text
  instead of reading `new Date().toISOString()`.
- `JSON.stringify` is a function parameter `stringify`, so its output format is not
  modelled. `Array.prototype.join`'s conversion of elements is modelled:
  - null and undefined become "";
  - nested arrays join with ",";
  - objects become `[object Object]`.
- Numbers are integers. Floating-point values and their decimal formatting are not
  modelled.
- JavaScript's property model is reduced to ordered fields plus numeric indexing of
  arrays. Left out:
  - integer-like keys being listed first;
  - inherited and `__proto__` properties;
  - the `length` of strings and arrays;
  - lookups on strings, numbers and booleans, which yield undefined here.
- JsonValues.Json has no cyclic values. `undefined` can appear inside arrays because
  lookups produce it.
- Text.Trim strips only the space character. Other whitespace is not modelled.
- WordWrap.WrapText, Widths.ColumnWidth and Render.Pad count a string's length in Unicode
  scalar values, where the code's `.length` and `.slice` count UTF-16 code units. Text
  outside the Basic Multilingual Plane is therefore measured shorter than the code
  measures it, and the model never cuts a word inside a surrogate pair as the code can.
- WordWrap.WrapText requires a width of at least 1. At width 0 the source loops forever,
  and the engine only calls it with 30 or with column widths of at least 10.
- `data` is a sequence of records. A non-array `data` is not modelled.
- Markdown.TitleOf takes a missing title as the empty string. Other falsy titles are not
  modelled.
- HeaderTree.BuildHeaderTree models the inner pointer walk (lines 55-59) as a recursive
  insertion on values. The tree is a value, so aliasing between nodes is not modelled.
- Table.TableAligned is stated only when no column path is a proper prefix of another and
  every header label fits its cell. A label longer than its cell is printed unpadded. A
  column that is a prefix of another is not a header leaf, so the header and the data
  disagree in how many columns there are.
- Table.TableAligned says nothing about whether header leaves line up with data columns
  in order. For the columns `a.x, b, a.y` they do not (HeaderTree.LeafOrderExample).
- Table.TableAligned, Table.BodyAligned, Table.RecordOfAligned, Table.RecordAligned,
  Table.SubRowAligned, Table.HeaderBlockAligned and Render.DataLineFull are stated about
  the corrected table only. The code as written does not keep them (see Findings). For
  the code as written the model states Table.TableHeadersShort, Table.HeaderBlockShort,
  Render.DataLineLength, Render.DataLineAtLeast and WordWrap.WrapOverrun instead.
- Render.DataLineAtLeast bounds an as-written data line only from below. Its exact
  length, the borders plus the overrun of every piece, is stated only for one column
  (Render.OneColumnLine).

## Findings

| source | as written | input that shows it | evidently intended | confidence | as-written member | corrected member |
|---|---|---|---|---|---|---|
| server.js:124 | Before a word longer than the width is cut, the pending line is pushed untrimmed. It keeps the space in front of its first word and every space that empty words from consecutive spaces appended at line 132, so it can be longer than the width by any amount. | `wrapText("abc defgh", 3)` gives `" abc"`, 4 characters. `wrapText("a    bcde", 3)` gives `" a   "`, 5 characters; with n empty words between `a` and `bcde` the line is n + 2 long. A data line holding such a line is longer than the borders, and the row's `│` no longer lines up. | Push the pending line trimmed, as lines 129 and 135 do, so no line is longer than the width. | not executed | WordWrap.OverrunUnbounded | WordWrap.WrapWidth |
| server.js:189-191 | A header cell spanning several columns is as wide as the sum of their `width + 2`. The `│` separators between the merged columns are left out. | Records `[{"a":{"x":1,"y":2}}]`: the cell `a` spans 2 columns of width 10, so its header line is 27 characters long, newline included, where the borders are 28. | Add span − 1 to the width of a spanning cell, so that every header line is as long as the borders. | not executed | Render.HeaderLineShort | Render.HeaderLineFull |
