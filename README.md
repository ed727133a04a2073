# Sketch document analyzer — a verified model

This project models the analysis core of a server that answers questions about Sketch design documents. A loaded document is a tree of pages and layers (parsed JSON where any field may be missing). The analyzer indexes every node by identifier, then answers queries from that index:

- list pages and nodes, filtered by type and name and paged by offset and limit;
- find nodes by name and walk their ancestors;
- extract style, text, shape, image and symbol records;
- turn Sketch curve points into SVG path data;
- render a node as an SVG document with a base64 data URI;
- build depth-limited page and document structures;
- summarize the nodes of a page or document, grouped by type, style, position or size.

Two implementations of this core live side by side in the repository, and both are modelled:

- **The modular analyzer.** The facade `SketchConfigAnalyzer` in `index.ts` sits over five parts: `NodeIndexer`, `StyleExtractor`, `PathProcessor`, `NodeInfoExtractor` and `SvgRenderer`. The nodes summary tool is built on top of it.
- **The legacy analyzer.** `sketchConfigAnalyzer.legacy.ts` is one self-contained class. It has its own index, filters, colour conversion, overrides and SVG templates.

Module by module:

| module | file | models |
|---|---|---|
| `Wrappers`, `Js` | wrappers.dfy, js.dfy | `Option`; the JavaScript semantics relied on: `\|\|` and `??` defaults, `Math.round`, integer `toString`, `parseFloat` on coordinate tokens, ASCII case folding, `includes` |
| `Sketch` | sketch.dfy | the raw document: nodes with optional fields, their layers, pre-order walks |
| `StyleExtractor` | style.dfy | colours and hex text, fills, borders, shadows, blur, text runs, shape, image and symbol records |
| `PathProcessor` | path.dfy | curve points to path commands and their text, coordinate parsing, closing, validity, bounds, optimisation |
| `NodeInfoExtractor` | info.dfy | node, page and symbol records, layer counts, child identifiers |
| `Indexer` | indexer.dfy | the node index (class `NodeIndexer`): insertion-ordered tables, listing windows, names, ancestor chains |
| `Encoding` | encoding.dfy | UTF-8 and base64 for the data URI of a rendering |
| `SvgRenderer` | svg.dfy | the SVG templates, XML escaping, groups with a child renderer, the rendering record |
| `JsObjects`, `Tallies` | objects.dfy, tally.dfy | plain objects with ordered keys (field filters); insertion-ordered count tables and their sort by count |
| `DocumentStructure` | structure.dfy | page and document structures, truncation, page and document summaries |
| `Analyzer` | analyzer.dfy | the facade (class `SketchConfigAnalyzer`): listing by page, symbols, rendering, structure and summary entry points |
| `NodesSummary` | summary.dfy | the nodes summary tool (class `NodesSummaryTool`) |
| `LegacyStyle`, `LegacyPath`, `LegacyRender`, `Legacy` | legacy_style.dfy, legacy_render.dfy, legacy.dfy | the legacy analyzer (class `LegacyAnalyzer`) |

Each loop of the source is a method with loop invariants, proved equal to a specification function. The properties are then proved about those functions. Three kinds of mutable object are classes whose methods keep the index well formed: the two indexes and the facade.

Number formatting is a parameter `Js.Numerics`, because the templates write non-integral numbers with `Number#toString` and `toFixed(2)`. Every SVG property holds for any formatting.

## Model

| member | source | states |
|---|---|---|
| Js.Round | src/core/analyzer/styleExtractor.ts:107-109 | Math.round gives the integer within half a unit of its argument, half-way values going up |
| Js.Clamp | src/core/analyzer/styleExtractor.ts:123 | Math.max(0, Math.min(255, n)) stays within the bounds and leaves an in-range value alone |
| Js.NatText | src/core/analyzer/styleExtractor.ts:123 | toString(16) of a non-negative integer is never empty |
| Js.ToLower | src/core/analyzer/sketchConfigAnalyzer.legacy.ts:69-75 | toLowerCase keeps the length and lowers each character on its own |
| Sketch.IdOf | src/core/analyzer/nodeIndexer.ts:49-53 | a node is indexed under its `id`, or its `do_objectID` when `id` is falsy, and only when that is a non-empty string |
| Sketch.Size | src/core/analyzer/nodeIndexer.ts:83-94 | a subtree counts at least its root |
| StyleExtractor.ExtractColor | src/core/analyzer/styleExtractor.ts:99-116 | a missing colour is black at full alpha; otherwise each channel is Math.round(channel * 255), an absent or zero channel reading 0, and alpha defaults to 1 only when absent; the hex text has 9 characters exactly when alpha is below 1 and reads back as the clamped channels |
| StyleExtractor.ByteHexDigits | src/core/analyzer/styleExtractor.ts:122-125 | toHex writes the clamped, rounded byte as two hexadecimal digits, high digit first |
| StyleExtractor.ByteHexValue | src/core/analyzer/styleExtractor.ts:122-125 | the two digits of toHex read back as the clamped, rounded byte |
| StyleExtractor.AlphaHexValue | src/core/analyzer/styleExtractor.ts:128-130 | an alpha below 1 adds two digits that read back as the clamped alpha byte; a colour at full alpha adds none |
| StyleExtractor.HexRoundTrip | src/core/analyzer/styleExtractor.ts:121-132 | the text rgbaToHex writes reads back as the clamped channels, with the alpha byte exactly when alpha is below 1 |
| StyleExtractor.ColorExamples | src/core/analyzer/styleExtractor.ts:99-132 | red at full alpha is "#ff0000" and half-transparent blue "#0000ff80" |
| StyleExtractor.Enabled | src/core/analyzer/styleExtractor.ts:37-47 | the kept entries are exactly the entries whose isEnabled is truthy |
| StyleExtractor.FillOf | src/core/analyzer/styleExtractor.ts:40-44 | a fill's opacity is never 0: a falsy opacity reads as 1 |
| StyleExtractor.BorderOf | src/core/analyzer/styleExtractor.ts:53-58 | a border's thickness and opacity are never 0: falsy values read as 1 |
| StyleExtractor.Fills | src/core/analyzer/styleExtractor.ts:37-47 | the fills pass converts exactly the enabled fills, in order |
| StyleExtractor.Borders | src/core/analyzer/styleExtractor.ts:50-61 | the borders pass converts exactly the enabled borders, in order |
| StyleExtractor.Shadows | src/core/analyzer/styleExtractor.ts:64-91 | the shadow and inner-shadow passes convert exactly the enabled shadows, in order |
| StyleExtractor.KeepMapIsFilterThenMap | src/core/analyzer/styleExtractor.ts:37-91 | each pass equals filtering the enabled entries and then converting each one |
| StyleExtractor.KeepMapAppend | src/core/analyzer/styleExtractor.ts:37-47 | a pass over two lists joined is the two passes joined |
| StyleExtractor.ExtractStyleInfo | src/core/analyzer/styleExtractor.ts:9-94 | the loops build the style record the filtering definition describes |
| StyleExtractor.EnabledAppend | src/core/analyzer/styleExtractor.ts:37-47 | each entry is judged on its own: filtering distributes over concatenation |
| StyleExtractor.EnabledIdempotent | src/core/analyzer/styleExtractor.ts:37-47 | filtering an already filtered list changes nothing |
| StyleExtractor.AllEnabledKept | src/core/analyzer/styleExtractor.ts:37-47 | a list of enabled entries is kept whole and in order |
| StyleExtractor.DisabledDropped | src/core/analyzer/styleExtractor.ts:37-47 | removing a disabled entry does not change the result |
| StyleExtractor.EmptyStyleIsDefault | src/core/analyzer/styleExtractor.ts:10-34 | a missing style and a style without lists or blur give the same record |
| StyleExtractor.ExtractTextInfo | src/core/analyzer/styleExtractor.ts:137-171 | the loop over the runs builds the record of the "last run wins" definition |
| StyleExtractor.LastRunWins | src/core/analyzer/styleExtractor.ts:154-168 | the carried font size and colour are those of the last run that sets them, else 12 and black |
| StyleExtractor.ExtractShapeInfo | src/core/analyzer/styleExtractor.ts:176-194 | a rectangle's fixedRadius becomes its corner radius and no other node gets a non-zero one; a path part exists exactly for a shape path with a path, closed exactly when isClosed is truthy, keeping a non-zero pointRadiusBehaviour and giving 1 for an absent or zero one |
| StyleExtractor.ExtractImageInfo | src/core/analyzer/styleExtractor.ts:199-217 | the type is always "unknown"; the reference exists exactly when the image has a non-empty ref, and is that ref; the original size is the frame's width and height (0 when falsy), 0 by 0 without a frame |
| StyleExtractor.OverridesOf | src/core/analyzer/styleExtractor.ts:231-238 | one override record per entry, keeping each value |
| StyleExtractor.ExtractSymbolInfo | src/core/analyzer/styleExtractor.ts:222-246 | masters alone carry the master part, each include-background flag true exactly when truthy; masters and instances carry their non-empty symbolID or ""; an instance lists one override per overrideValues entry, in order; any other type gets the empty record |
| PathProcessor.Tokens | src/core/analyzer/pathProcessor.ts:110 | the matches of /[\d.-]+/g are non-empty runs of digits, dots and minus signs |
| PathProcessor.ParseCoordinateString | src/core/analyzer/pathProcessor.ts:108-119 | anything but text, or text with fewer than two numbers, reads as the origin |
| PathProcessor.RelativePoint | src/core/analyzer/pathProcessor.ts:47-69 | a text `point` is parsed; without a point and without both x and y the position is the origin |
| PathProcessor.ControlPoints | src/core/analyzer/pathProcessor.ts:81-103 | the first control point hangs off the previous point by its curveTo offset, the second off the current point by its curveFrom offset; a missing offset leaves that one at the origin |
| PathProcessor.PathShape | src/core/analyzer/pathProcessor.ts:19-39 | one command per point (a move, then a curve exactly when a curve flag is set, else a line) and a closing command exactly when the path returns to its start |
| PathProcessor.CommandsUpTo | src/core/analyzer/pathProcessor.ts:19-34 | the i-th command is the one drawn for the i-th point |
| PathProcessor.PointsToPathData | src/core/analyzer/pathProcessor.ts:9-42 | the loop writes the text of the path the command definition describes |
| PathProcessor.ExtractPathFromNode | src/core/analyzer/pathProcessor.ts:145-159 | no node gives nothing; a non-empty path.pathData is returned as it is; otherwise points give the path data pointsToPathData writes for them in the node's frame, and without points there is nothing; a result is never empty |
| PathProcessor.PointTextTokens | src/core/analyzer/pathProcessor.ts:108-119 | the text "{a, b}" Sketch writes reads back as the two numbers a and b |
| PathProcessor.PointTextPosition | src/core/analyzer/pathProcessor.ts:52-59 | a point written "{a, b}" sits at (a, b) relative to the frame |
| PathProcessor.UnitSquare | src/core/analyzer/pathProcessor.ts:9-42 | the unit square in a 100 by 50 frame is drawn as four straight edges back to its start and a closing command |
| PathProcessor.SquareCloses | src/core/analyzer/pathProcessor.ts:124-140 | a path whose last point is its first is closed |
| PathProcessor.SeqMin | src/core/analyzer/pathProcessor.ts:210-212 | Math.min over a list is an element no larger than any other |
| PathProcessor.SeqMax | src/core/analyzer/pathProcessor.ts:210-213 | Math.max over a list is an element no smaller than any other |
| PathProcessor.Evens | src/core/analyzer/pathProcessor.ts:205 | the x coordinates are the numbers at even positions |
| PathProcessor.Odds | src/core/analyzer/pathProcessor.ts:206 | the y coordinates are the numbers at odd positions |
| PathProcessor.Numbers | src/core/analyzer/pathProcessor.ts:201-204 | one number per match of the pattern |
| PathProcessor.GetPathBounds | src/core/analyzer/pathProcessor.ts:197-221 | a box exists exactly for valid path data holding at least two numbers, and it is the box of those numbers |
| PathProcessor.BoxContainsEveryCoordinate | src/core/analyzer/pathProcessor.ts:208-220 | the box has no negative side, holds every x and y coordinate and touches the smallest of each |
| PathProcessor.Collapse | src/core/analyzer/pathProcessor.ts:168 | replacing whitespace runs by one space never lengthens the text, empties only the empty text, and keeps whether it starts with whitespace |
| PathProcessor.TrimMeaning | src/core/analyzer/pathProcessor.ts:168 | trim removes exactly the leading and the trailing whitespace: the result is the text between them, and when not empty it starts and ends with a non-space |
| PathProcessor.TrimEnd | src/core/analyzer/pathProcessor.ts:168 | trimming the end leaves a prefix that does not end in whitespace |
| PathProcessor.MoveLineGaps | src/core/analyzer/pathProcessor.ts:171 | the gap rewrite between M and L letters never lengthens the text |
| PathProcessor.DropZeroDecimals | src/core/analyzer/pathProcessor.ts:174 | dropping ".00" after digits never lengthens the text |
| PathProcessor.OptimizePathDataMeaning | src/core/analyzer/pathProcessor.ts:164-177 | empty data stays empty; otherwise whitespace runs collapse to one space, the ends are trimmed and ".00" decimals dropped, leaving single-spaced text that neither starts nor ends with a space |
| PathProcessor.CollapseSingleSpaced | src/core/analyzer/pathProcessor.ts:168 | after collapsing, whitespace occurs only as single plain spaces |
| PathProcessor.CollapseKeepsSingleSpaced | src/core/analyzer/pathProcessor.ts:168 | collapsing is idempotent: single-spaced text is left as it is |
| PathProcessor.MoveLineGapsKeepsSingleSpaced | src/core/analyzer/pathProcessor.ts:171 | in single-spaced text the gap rewrite changes nothing |
| PathProcessor.TrimEndIsPrefix | src/core/analyzer/pathProcessor.ts:168 | the end-trimmed text is a prefix of its input |
| PathProcessor.MoveLineRewriteIsNoOp | src/core/analyzer/pathProcessor.ts:168-171 | the second rewrite of optimizePathData never changes anything after the first |
| PathProcessor.DropZeroDecimalsOfNumber | src/core/analyzer/pathProcessor.ts:174 | a whole number written with ".00" loses the decimals and the rest is rewritten on its own |
| PathProcessor.WriteCommand | src/core/analyzer/pathProcessor.ts:20-34 | the text one point adds is that of the move, curve or line command the point describes |
| NodeInfoExtractor.Position | src/core/analyzer/nodeInfoExtractor.ts:92-100 | the frame's x and y, each 0 when falsy, and the origin without a frame |
| NodeInfoExtractor.Dimensions | src/core/analyzer/nodeInfoExtractor.ts:105-113 | the frame's width and height, each 0 when falsy, and 0 by 0 without a frame |
| NodeInfoExtractor.Opacity | src/core/analyzer/nodeInfoExtractor.ts:118-125 | the context opacity whenever it is defined, 0 included, and 1 otherwise |
| NodeInfoExtractor.ChildIdsMeaning | src/core/analyzer/nodeInfoExtractor.ts:130-143 | the listed identifiers are exactly the non-empty identifiers of the children, never more than the children |
| NodeInfoExtractor.ChildIdsAppend | src/core/analyzer/nodeInfoExtractor.ts:133-140 | the identifiers keep the children's order |
| NodeInfoExtractor.ExtractChildrenIds | src/core/analyzer/nodeInfoExtractor.ts:130-143 | the loop lists the identifiers the definition describes |
| NodeInfoExtractor.NodeInfoOf | src/core/analyzer/nodeInfoExtractor.ts:16-64 | a record exists exactly for a present node: its raw identifier and type, visible unless isVisible is false, locked only when isLocked is true, its style record, its name or "", the frame's position and size, rotation (0 when falsy), the opacity, and the kind-specific part for its type |
| NodeInfoExtractor.KindInfoByType | src/core/analyzer/nodeInfoExtractor.ts:41-61 | the kind-specific part matches the type exactly (text, shape, image, symbol, children, or nothing for any other type) and carries that extractor's record for the node: the text of its attributed string, extractShapeInfo, extractImageInfo, extractSymbolInfo, or the child identifiers |
| NodeInfoExtractor.UnstyledNode | src/core/analyzer/nodeInfoExtractor.ts:33-38 | a node without style gets the default style record and full opacity |
| NodeInfoExtractor.CountLayersRecursive | src/core/analyzer/nodeInfoExtractor.ts:170-182 | the loop counts every layer of the list and everything below it |
| NodeInfoExtractor.CountCovers | src/core/analyzer/nodeInfoExtractor.ts:170-182 | each layer's whole subtree is part of its list's count |
| NodeInfoExtractor.BackgroundOf | src/core/analyzer/nodeInfoExtractor.ts:187-193 | white without a background colour, else the colour's hex text |
| NodeInfoExtractor.PageInfoOf | src/core/analyzer/nodeInfoExtractor.ts:148-165 | a record exists exactly for a present page: its identifier, its name or "", its frame (all zeros without one), its background colour, and a layer count of every node below the page |
| NodeInfoExtractor.SymbolMasterInfoOf | src/core/analyzer/nodeInfoExtractor.ts:198-210 | a record exists exactly for symbol masters: the node record, the children's identifiers, the symbolID or "", and each include-background flag true exactly when it is true on the node |
| NodeInfoExtractor.SymbolInstanceInfoOf | src/core/analyzer/nodeInfoExtractor.ts:215-235 | a record exists exactly for symbol instances: the node record, the symbolID or "", and one override per overrideValues entry, in order |
| NodeInfoExtractor.ExtractSymbolInstanceInfo | src/core/analyzer/nodeInfoExtractor.ts:215-235 | the loop over the overrides builds the record the definition describes |
| NodeInfoExtractor.InstanceOverrides | src/core/analyzer/nodeInfoExtractor.ts:221-228 | every override is reported in order with its value, the name defaulting to "" |
| NodeInfoExtractor.ExtractMultipleNodeInfo | src/core/analyzer/nodeInfoExtractor.ts:240-251 | the loop builds the batch the definition describes |
| NodeInfoExtractor.BatchKeepsOrder | src/core/analyzer/nodeInfoExtractor.ts:240-251 | a batch without nulls is the record of each node in turn |
| NodeInfoExtractor.BatchDropsNull | src/core/analyzer/nodeInfoExtractor.ts:244-247 | a null in the batch contributes nothing |
| Indexer.Lookup | src/core/analyzer/nodeIndexer.ts:96-98 | a node is found exactly when its identifier is indexed, and it is the indexed node |
| Indexer.SummariesMeaning | src/core/analyzer/nodeIndexer.ts:176-180 | one summary per listed identifier, in order |
| Indexer.MatchingMeaning | src/core/analyzer/nodeIndexer.ts:158-165 | the matches are exactly the identifiers whose nodes pass the type and name filters |
| Indexer.WindowShape | src/core/analyzer/nodeIndexer.ts:167-174 | a page holds the entries after the skipped ones, in order, as many as the limit allows and the list still has |
| Indexer.IdSetAppend | src/core/analyzer/nodeIndexer.ts:31-41 | the identifiers of two forests joined are the union of their identifiers |
| Indexer.IdSetSize | src/core/analyzer/nodeIndexer.ts:31-41 | a forest carries no more identifiers than nodes |
| Indexer.AddNameKeeps | src/core/analyzer/nodeIndexer.ts:71-77 | adding an identifier under a name keeps every earlier entry, keeps each list free of repeats and adds only that identifier |
| Indexer.RecordWellFormed | src/core/analyzer/nodeIndexer.ts:67-78 | indexNode keeps the index invariant: insertion order without repeats, the same keys in every table, every named node listed under its name |
| Indexer.WalkWellFormed | src/core/analyzer/nodeIndexer.ts:49-62 | walkAndIndex keeps the index invariant |
| Indexer.WalkAllWellFormed | src/core/analyzer/nodeIndexer.ts:56-60 | walking a list of siblings keeps the index invariant |
| Indexer.PagesWellFormed | src/core/analyzer/nodeIndexer.ts:31-41 | indexing a list of pages keeps the index invariant |
| Indexer.IndexWellFormed | src/core/analyzer/nodeIndexer.ts:21-44 | the index of any configuration satisfies the invariant |
| Indexer.WalkKeys | src/core/analyzer/nodeIndexer.ts:49-62 | walking a subtree adds exactly the identifiers it carries |
| Indexer.WalkAllKeys | src/core/analyzer/nodeIndexer.ts:56-60 | walking siblings adds exactly the identifiers they carry |
| Indexer.WalkFrame | src/core/analyzer/nodeIndexer.ts:49-62 | walking a subtree leaves every identifier it does not carry as it was |
| Indexer.WalkAllFrame | src/core/analyzer/nodeIndexer.ts:56-60 | walking siblings leaves every identifier they do not carry as it was |
| Indexer.WalkRoot | src/core/analyzer/nodeIndexer.ts:50-53 | a node whose identifier no descendant reuses is indexed as itself under the parent it was walked with |
| Indexer.WalkAllAppend | src/core/analyzer/nodeIndexer.ts:56-60 | walking two runs of siblings is walking the first, then the second |
| Indexer.ChildParent | src/core/analyzer/nodeIndexer.ts:56-58 | a child whose identifier no later node reuses is filed under its parent's identifier, or under none when the parent has none |
| Indexer.PagesKeys | src/core/analyzer/nodeIndexer.ts:31-41 | indexing pages indexes exactly the identifiers they carry |
| Indexer.LayerTotal | src/core/analyzer/nodeIndexer.ts:36-43 | the pages and the layers counted below them are all the nodes of the pages |
| Indexer.IndexedIds | src/core/analyzer/nodeIndexer.ts:21-44 | indexConfig indexes exactly the identifiers in the document, at most one per page or layer counted |
| Indexer.ChainFuel | src/core/analyzer/nodeIndexer.ts:133-148 | a parent chain that ends is the same whatever number of steps it was allowed |
| Indexer.ChainsAgree | src/core/analyzer/nodeIndexer.ts:133-148 | two ending chains of the same identifier are equal |
| Indexer.ChainSuffix | src/core/analyzer/nodeIndexer.ts:137-145 | the part of a chain after its i-th entry is the chain of that entry |
| Indexer.AncestorsDistinct | src/core/analyzer/nodeIndexer.ts:133-148 | a chain that ends never repeats an identifier and never contains its start |
| Indexer.WindowsTile | src/core/analyzer/nodeIndexer.ts:153-185 | consecutive pages tile a listing: the next page continues where the first stopped |
| Indexer.ListingSound | src/core/analyzer/nodeIndexer.ts:153-185 | every listed node is indexed and passes the filters, and no more than `limit` are listed |
| Indexer.ListingComplete | src/core/analyzer/nodeIndexer.ts:153-185 | with no offset and a large enough limit every matching node is listed |
| Indexer.AncestorsNeverRepeat | src/core/analyzer/nodeIndexer.ts:133-148 | the guarded walk never repeats an identifier and never lists the node it started from |
| Indexer.WalkupFindsChain | src/core/analyzer/nodeIndexer.ts:137-145 | when the chain above a node ends, the guarded walk finds exactly it |
| Indexer.AncestorsAgree | src/core/analyzer/nodeIndexer.ts:133-148 | the guarded walk agrees with getAncestors as written whenever the latter ends |
| Indexer.ReusedIdParents | src/core/analyzer/nodeIndexer.ts:49-62 | a document reusing the identifier "x" below "y" below "x" records "x" under "y" and "y" under "x" |
| Indexer.ReusedIdChainNeverEnds | src/core/analyzer/nodeIndexer.ts:137-145 | on those parents getAncestors as written never ends, whatever number of steps it is given |
| Indexer.ReusedIdAncestors | src/core/analyzer/nodeIndexer.ts:133-148 | on those parents the guarded walk lists "y" once and stops |
| Indexer.ByNameMeaning | src/core/analyzer/nodeIndexer.ts:114-125 | the lookup reports exactly the indexed identifiers among those listed under the name |
| Indexer.FindsEveryNamed | src/core/analyzer/nodeIndexer.ts:110-128 | in a well-formed index a name finds every indexed node carrying it, and only indexed nodes |
| Indexer.NodeIndexer.constructor | src/core/analyzer/nodeIndexer.ts:5-7 | a new indexer is empty and well formed |
| Indexer.NodeIndexer.Clear | src/core/analyzer/nodeIndexer.ts:12-16 | clear empties every table |
| Indexer.NodeIndexer.IndexConfig | src/core/analyzer/nodeIndexer.ts:21-44 | rebuilds the index from scratch, reporting the pages and every layer walked, and leaves it well formed |
| Indexer.NodeIndexer.WalkAndIndex | src/core/analyzer/nodeIndexer.ts:49-62 | indexes a subtree as the walk definition describes and returns the number of its nodes |
| Indexer.NodeIndexer.IndexNode | src/core/analyzer/nodeIndexer.ts:67-78 | sets the node and its parent and adds the identifier under a non-empty name |
| Indexer.NodeIndexer.CountLayers | src/core/analyzer/nodeIndexer.ts:83-91 | the number of nodes in the subtree |
| Indexer.NodeIndexer.GetNode | src/core/analyzer/nodeIndexer.ts:96-98 | the indexed node, and nothing for an unknown identifier |
| Indexer.NodeIndexer.GetParentId | src/core/analyzer/nodeIndexer.ts:103-105 | an absent, missing or empty parent all read as none |
| Indexer.NodeIndexer.FindNodesByName | src/core/analyzer/nodeIndexer.ts:110-128 | the summaries of the indexed nodes listed under the name, in order |
| Indexer.NodeIndexer.GetAncestors | src/core/analyzer/nodeIndexer.ts:133-148 | as intended: the ancestors farthest first, stopping at the first identifier already met |
| Indexer.NodeIndexer.ListNodes | src/core/analyzer/nodeIndexer.ts:153-185 | the loop lists the window of the filtered identifiers in insertion order |
| Indexer.NodeIndexer.GetStats | src/core/analyzer/nodeIndexer.ts:211-216 | the number of indexed nodes and of names; in a well-formed index the node total counts each identifier of the insertion order once, and is 0 exactly when nothing is indexed |
| Indexer.WindowSkipping | src/core/analyzer/nodeIndexer.ts:167-170 | while entries are still being skipped, the page stays empty |
| Indexer.WindowFull | src/core/analyzer/nodeIndexer.ts:172-174 | a full page does not change when more entries follow |
| Indexer.WindowGrows | src/core/analyzer/nodeIndexer.ts:176-181 | one more entry past the skipped ones joins a page that is not full |
| Indexer.NodeIndexer.WalkLayers | src/core/analyzer/nodeIndexer.ts:56-59 | walking a list of layers indexes each subtree in turn and counts all of their nodes |
| Encoding.Utf8Char | src/core/analyzer/svgRenderer.ts:44 | one character becomes one to four bytes |
| Encoding.Utf8CharRoundTrip | src/core/analyzer/svgRenderer.ts:44 | a character's bytes announce their own length in the lead byte and decode back to the character |
| Encoding.Utf8RoundTrip | src/core/analyzer/svgRenderer.ts:44 | decoding the UTF-8 bytes of any markup gives the markup back |
| Encoding.AsciiIsBytes | src/core/analyzer/svgRenderer.ts:44 | ASCII markup is encoded one byte per character, each byte the character's code |
| Encoding.Base64 | src/core/analyzer/svgRenderer.ts:44 | base64 text always comes in whole groups of four characters |
| Encoding.Base64RoundTrip | src/core/analyzer/svgRenderer.ts:44 | decoding the base64 text of any bytes gives the bytes back |
| Encoding.Base64Alphabet | src/core/analyzer/svgRenderer.ts:44 | the text uses only the alphabet and padding, four characters for every three bytes or part of them |
| SvgRenderer.Width | src/core/analyzer/svgRenderer.ts:11 | the drawn width is the node's when it is not zero, 100 otherwise, and never zero |
| SvgRenderer.Height | src/core/analyzer/svgRenderer.ts:12 | the drawn height is the node's when it is not zero, 100 otherwise, and never zero |
| SvgRenderer.PaintOfMeaning | src/core/analyzer/svgRenderer.ts:65-79 | fill: the first fill's hex, grey #cccccc without a fill or a hex; stroke: the first border's hex, black without a hex, none without a border; stroke width: 0 exactly without a border, else the border's thickness, 1 when it is 0 |
| SvgRenderer.CornerRadius | src/core/analyzer/svgRenderer.ts:81-83 | a rectangle's corner radius is the shape's, 0 for a record without a shape part |
| SvgRenderer.EllipseOf | src/core/analyzer/svgRenderer.ts:95-98 | the ellipse is centred in the box and touches all four sides |
| SvgRenderer.RectangleDrawn | src/core/analyzer/svgRenderer.ts:60-86 | a rectangle is an empty rect at the origin with the node's drawn size, the shape's corner radius and the style's fill, stroke and stroke width |
| SvgRenderer.OvalDrawn | src/core/analyzer/svgRenderer.ts:91-116 | an oval is an empty ellipse centred in the box with radii half the drawn size, and the style's paint |
| SvgRenderer.TextDrawn | src/core/analyzer/svgRenderer.ts:121-135 | a text element at x 10 and y font size + 5, with the font family, size and colour, ending with the escaped content |
| SvgRenderer.PlaceholderDrawn | src/core/analyzer/svgRenderer.ts:140-147 | a placeholder is a rect of the drawn size with the given fill and stroke, dashed on request, followed by a centred caption |
| SvgRenderer.PlaceholdersDrawn | src/core/analyzer/svgRenderer.ts:140-147 | a symbol instance is a grey dashed box captioned Symbol; likewise (lines 176-177 and 239-246) a group without child markup is a light dashed box captioned Group and any other node a plain box of its drawn size captioned with its type |
| SvgRenderer.ArtboardDrawn | src/core/analyzer/svgRenderer.ts:183-199 | an artboard is a box of its drawn size in its background colour with a 2-wide light border, followed by its name, Artboard when empty |
| SvgRenderer.ShapePathDrawn | src/core/analyzer/svgRenderer.ts:204-234 | with non-empty path data a shape path is an empty path element carrying that data and the style's paint |
| SvgRenderer.TextOfInfoMeaning | src/core/analyzer/svgRenderer.ts:126-129 | content, font size, font family and colour are the text record's when set and "Text", 12, Arial and black otherwise, so none is empty |
| SvgRenderer.ArtboardBackground | src/core/analyzer/svgRenderer.ts:188-195 | the background is the first fill's colour when it has a hex, white without fills, and never empty |
| SvgRenderer.EscapeChar | src/core/analyzer/svgRenderer.ts:251-258 | a character is turned into an entity exactly when it is one of the five markup characters |
| SvgRenderer.ChainIsEscape | src/core/analyzer/svgRenderer.ts:251-258 | the five replacements in a row escape every character exactly once: no entity written by one is touched by a later one |
| SvgRenderer.EscapeRoundTrip | src/core/analyzer/svgRenderer.ts:251-258 | escaping loses nothing: reading the entities back gives the text |
| SvgRenderer.EscapedIsSafe | src/core/analyzer/svgRenderer.ts:251-258 | escaped text holds no raw < > " ' and every & in it starts an entity |
| SvgRenderer.ShapePathSvg | src/core/analyzer/svgRenderer.ts:204-234 | missing or empty path data draws the default placeholder; otherwise a path element with that data |
| SvgRenderer.ChildrenMarkupEmpty | src/core/analyzer/svgRenderer.ts:160-167 | the children's markup is empty exactly when every child rendered to nothing |
| SvgRenderer.GroupShowsChildren | src/core/analyzer/svgRenderer.ts:152-178 | a group shows its placeholder exactly when no renderer is given or no child renders; otherwise its children after a background |
| SvgRenderer.GenerateGroupSvg | src/core/analyzer/svgRenderer.ts:152-178 | the loop over the children builds the group markup the definition describes |
| SvgRenderer.ResultOf | src/core/analyzer/svgRenderer.ts:46-54 | the result carries the node's identity and drawn size, and a data URI whose payload decodes to the UTF-8 bytes of the markup |
| SvgRenderer.BodyByType | src/core/analyzer/svgRenderer.ts:16-41 | the type switch: rectangle and shape draw a rect, oval an ellipse, text a text element, symbolInstance the Symbol placeholder, group the Group placeholder, artboard the artboard box, and any other type, shapePath included, the default placeholder |
| SvgRenderer.RenderNodeAsSvg | src/core/analyzer/svgRenderer.ts:9-55 | the result carries the node's identifier and name, format svg, the drawn width and height (never 0) and the document around the body of its type |
| SvgRenderer.ImageDataDecodes | src/core/analyzer/svgRenderer.ts:9-55 | for every node the image data decodes, as base64 and then UTF-8, to exactly svgContent |
| SvgRenderer.DocumentShape | src/core/analyzer/svgRenderer.ts:43 | the document opens an svg element with the node's drawn width and height and the SVG namespace, and ends with the body and the closing tag |
| SvgRenderer.TextIsEscaped | src/core/analyzer/svgRenderer.ts:121-135 | a text node's content ends its text element escaped, with no raw < > " ' in it |
| JsObjects.GetIn | src/core/analyzer/index.ts:607-608 | an object owns a property exactly when its key is among the object's keys |
| JsObjects.SetIn | src/core/analyzer/index.ts:609 | assignment gives the key its new value and keeps every other property |
| JsObjects.SetInKeys | src/core/analyzer/index.ts:609 | an existing key keeps its place and a new key goes last |
| JsObjects.DeleteIn | src/core/analyzer/index.ts:619-621 | deleting removes the key and keeps every other property |
| JsObjects.PickMeaning | src/core/analyzer/index.ts:605-611 | selecting fields keeps exactly the listed fields the object owns, with their values |
| JsObjects.DropMeaning | src/core/analyzer/index.ts:617-622 | excluding fields removes exactly the listed ones and keeps the rest as they were |
| JsObjects.SelectMeaning | src/core/analyzer/index.ts:603-622 | a field survives exactly when the `fields` list (if any) names it and `excludeFields` does not, with its value unchanged |
| JsObjects.FilterItemsAre | src/core/analyzer/index.ts:625-627 | each child object is filtered the same way, in the same order |
| JsObjects.FilterMeaning | src/core/analyzer/index.ts:597-631 | applyFieldFilters keeps exactly the allowed fields with their values, except that a surviving children array holds its objects filtered the same way |
| JsObjects.FilteredKeys | src/core/analyzer/index.ts:597-631 | every field of a filtered object is one the options allow and the original had |
| Tallies.Add | src/core/analyzer/index.ts:565 | adding to a key's count raises that key by the amount and leaves every other key alone |
| Tallies.AddTotal | src/core/analyzer/index.ts:527 | adding to a tally keeps it well formed, keys listed once, and adds the amount to its total |
| Tallies.TallyOfMeaning | src/core/analyzer/index.ts:562-566 | a tally of keys counts each key as often as it occurs, lists exactly the keys that occur, and totals the number of keys |
| Tallies.SortByCount | src/tools/nodesSummaryTool.ts:240-241 | sorting the entries by count is a permutation and leaves them largest first |
| Tallies.InsertSorted | src/tools/nodesSummaryTool.ts:241 | inserting into a list sorted by count keeps it sorted |
| Tallies.SortedEntries | src/tools/nodesSummaryTool.ts:262-263 | the sorted entries are the tally's entries, one per key |
| Tallies.TopGroupsMeaning | src/tools/nodesSummaryTool.ts:261-269 | the top groups are min(limit, groups) entries of the tally, by non-increasing count |
| Tallies.TopGroupsAreLargest | src/tools/nodesSummaryTool.ts:261-269 | no group left out of the top groups outweighs one kept |
| DocumentStructure.BuildNode | src/core/analyzer/index.ts:402-433 | the loop over a node's layers builds the entry the recursive definition describes |
| DocumentStructure.StructureShape | src/core/analyzer/index.ts:402-433 | an entry exists exactly within the depth limit, carries the node's id, name and type, details exactly when asked for and the node is indexed, and children exactly when the node has layers |
| DocumentStructure.HeadFields | src/core/analyzer/index.ts:406-419 | the fields before children hold the id, name and type, and the position exactly when details are asked for and the node is indexed |
| DocumentStructure.BuildAllShape | src/core/analyzer/index.ts:423-429 | one child entry per layer, in order, while the next level is within the limit, none past it |
| DocumentStructure.StructureCount | src/core/analyzer/index.ts:397-436 | a structure holds exactly the nodes at most maxDepth - depth levels below its root |
| DocumentStructure.WithinSize | src/core/analyzer/index.ts:403 | the depth limit only ever leaves nodes out |
| DocumentStructure.DepthLimit | src/core/analyzer/index.ts:474 | an absent or zero depth limit reads as 3, so the limit is never 0 |
| DocumentStructure.SliceEnd | src/core/analyzer/index.ts:484 | slice(0, end) keeps end elements, all of them when end is too large, and counts a negative end back from the last |
| DocumentStructure.TruncatedChildren | src/core/analyzer/index.ts:483-487 | a cut entry keeps a prefix of its children, maxNodesPerPage of them, or all but the last -max when it is negative |
| DocumentStructure.TruncateMarks | src/core/analyzer/index.ts:483-487 | a cut entry is marked truncated and totalChildren holds the number of children kept; an entry within the limit is unchanged |
| DocumentStructure.TruncateKeepsOthers | src/core/analyzer/index.ts:483-487 | cutting the children changes no other property |
| DocumentStructure.PageStructures | src/core/analyzer/index.ts:470-490 | at most one entry per page of the document |
| DocumentStructure.PageStructurePresent | src/core/analyzer/index.ts:471-478 | a page has an entry exactly when it is indexed under its identifier and the depth limit is not negative |
| DocumentStructure.EveryIndexedPageListed | src/core/analyzer/index.ts:470-490 | with a positive depth limit every page indexed under its own identifier has its entry, in page order |
| DocumentStructure.SummaryMeaning | src/core/analyzer/index.ts:561-577 | collectNodes counts the nodes, tallies their types in order of first appearance and keeps the first maxSamples as samples |
| DocumentStructure.PageSummaryMeaning | src/core/analyzer/index.ts:552-591 | a page summary exists exactly for an indexed page; it counts every node below it, its type tally totals that count and counts each type as often as it occurs, and its samples are the first nodes in depth-first order |
| DocumentStructure.SummarizePages | src/core/analyzer/index.ts:511-549 | the summary reports every page of the document and at most one summary per page |
| DocumentStructure.MergeCounts | src/core/analyzer/index.ts:526-528 | the merge loop computes the key-by-key merge |
| DocumentStructure.MergeKeysCounts | src/core/analyzer/index.ts:526-528 | merging adds each merged key's count to that key and leaves the others alone |
| DocumentStructure.MergeMeaning | src/core/analyzer/index.ts:526-528 | merging a well-formed tally into another keeps it well formed and adds counts key by key and totals |
| DocumentStructure.DocumentSummaryMeaning | src/core/analyzer/index.ts:511-549 | the document's type tally is well formed, totals the node count, which is the sum of the pages' counts, and counts each type as the sum over the pages |
| Analyzer.Reached | src/core/analyzer/index.ts:95-99 | processLayers only ever reaches indexed identifiers |
| Analyzer.FeedFrozen | src/core/analyzer/index.ts:94 | once the limit is reached nothing more is listed or skipped |
| Analyzer.FeedIsWindow | src/core/analyzer/index.ts:84-141 | scanning the reached identifiers from the start lists exactly the offset/limit window of those that pass the filters |
| Analyzer.ProcessLayers | src/core/analyzer/index.ts:92-136 | processLayers visits each reached layer before its children, in order, until the limit |
| Analyzer.ProcessLayer | src/core/analyzer/index.ts:93-135 | one layer: passed over with its children when it has no identifier or record; otherwise filters, offset and limit decide, and its children follow |
| Analyzer.StripSvgTags | src/core/analyzer/index.ts:339 | removing svg tags never lengthens the markup |
| Analyzer.StripKeepsPlainText | src/core/analyzer/index.ts:339 | text without a tag is left as it is |
| Analyzer.FacadeRenderAsWritten | src/core/analyzer/index.ts:313-362 | as written, the facade renders every node as SvgRenderer.renderNodeAsSVG does from the record alone |
| Analyzer.FacadeRender | src/core/analyzer/index.ts:313-362 | as intended: the result keeps the node's identity, format svg and drawn size; any type but shapePath and group, and a shape path without valid path data, render as SvgRenderer.renderNodeAsSVG does |
| Analyzer.PathDataDropped | src/core/analyzer/index.ts:316-324 | as written, a shape path is always drawn as the default placeholder, whatever path data was found |
| Analyzer.GroupChildrenDropped | src/core/analyzer/index.ts:328-349 | as written, a group is always drawn as the group placeholder, whatever its children render |
| Analyzer.PathDataDroppedExample | src/core/analyzer/index.ts:316-324 | a concrete shape path with valid path data "M0 0" whose markup as written differs from the intended one |
| Analyzer.PathDataDroppedWhenValid | src/core/analyzer/index.ts:316-324 | whenever a shape path has valid path data, the markup as written is not the intended one |
| Analyzer.PathDataShown | src/core/analyzer/index.ts:316-324 | as intended, a shape path with valid path data is drawn as a path element carrying that data |
| Analyzer.GroupChildrenShown | src/core/analyzer/index.ts:328-349 | as intended, a group whose children produce markup draws each of them wrapped, behind an invisible background; otherwise the placeholder |
| Analyzer.ChildPathShown | src/core/analyzer/index.ts:333-340 | a child shape path with valid path data appears in its group as the bare path element |
| Analyzer.MastersMeaning | src/core/analyzer/index.ts:170-189 | the masters reported are exactly the symbol masters below the pages, no more entries than nodes |
| Analyzer.InstancesMeaning | src/core/analyzer/index.ts:217-236 | the instances reported are exactly the symbol instances below the pages, no more entries than nodes |
| Analyzer.FirstWithSymbol | src/core/analyzer/index.ts:193-196 | nothing exactly when no master carries the symbol ID; otherwise the first one that does |
| Analyzer.CollectLayers | src/core/analyzer/index.ts:170-189 | the recursive walk meets the nodes in depth-first pre-order |
| Analyzer.CollectNode | src/core/analyzer/index.ts:561-584 | collectNodes meets a node, then its children's subtrees |
| Analyzer.PageEntries | src/core/analyzer/index.ts:45-66 | one entry per page, in order, whose layer count covers every layer below the page |
| Analyzer.SketchConfigAnalyzer.constructor | src/core/analyzer/index.ts:19-25 | a new analyzer holds no document and an empty index, which is the index of no document, so the facade invariant (a well-formed index built from the held document) holds |
| Analyzer.SketchConfigAnalyzer.AnalyzeConfig | src/core/analyzer/index.ts:30-33 | keeps the document and rebuilds the index from it, reporting what indexConfig reports; afterwards the index is again the one built from the held document |
| Analyzer.SketchConfigAnalyzer.HasConfig | src/core/analyzer/index.ts:38-40 | true exactly when a document is loaded; without one there are no pages and the index built from it is empty |
| Analyzer.SketchConfigAnalyzer.ListPages | src/core/analyzer/index.ts:45-66 | one entry per page of the loaded document, none without one |
| Analyzer.SketchConfigAnalyzer.ListNodes | src/core/analyzer/index.ts:69-71 | the indexer's listing of the current index |
| Analyzer.SketchConfigAnalyzer.GetPageInfo | src/core/analyzer/index.ts:76-79 | a record exactly for an indexed node: the page record of that node, counting every layer below it |
| Analyzer.SketchConfigAnalyzer.GetNodeInfo | src/core/analyzer/index.ts:146-149 | a record exactly for an indexed node: the node record of that node, carrying its type |
| Analyzer.SketchConfigAnalyzer.ListNodesByPage | src/core/analyzer/index.ts:84-141 | the window of the filtered nodes reached below the page, nothing for an unknown page |
| Analyzer.SketchConfigAnalyzer.GetSymbolMasters | src/core/analyzer/index.ts:154-168 | the symbol masters of the loaded document's pages, in walk order |
| Analyzer.SketchConfigAnalyzer.GetSymbolMasterBySymbolId | src/core/analyzer/index.ts:193-196 | the first master carrying the symbol ID, nothing when none does |
| Analyzer.SketchConfigAnalyzer.GetSymbolInstances | src/core/analyzer/index.ts:201-215 | the symbol instances of the loaded document's pages, in walk order |
| Analyzer.SketchConfigAnalyzer.GetSymbolInstanceStyles | src/core/analyzer/index.ts:498-506 | a style record exactly for an indexed symbol instance, that instance's style |
| Analyzer.SketchConfigAnalyzer.RenderNodeAsBase64 | src/core/analyzer/index.ts:243-308 | as intended: no document, unknown node and unsupported format each give their error (the unknown node with the first ten listed nodes); otherwise the node record rendered by the corrected facade renderer |
| Analyzer.SketchConfigAnalyzer.GetNodePosition | src/core/analyzer/index.ts:368-371 | a position exactly for an indexed node, that node's |
| Analyzer.SketchConfigAnalyzer.FindNodesByName | src/core/analyzer/index.ts:376-378 | the indexer's lookup by name |
| Analyzer.SketchConfigAnalyzer.GetAncestors | src/core/analyzer/index.ts:383-385 | as intended: the guarded chain of ancestors, farthest first |
| Analyzer.SketchConfigAnalyzer.GetRawNode | src/core/analyzer/index.ts:390-392 | the indexed node exactly when the identifier is indexed |
| Analyzer.SketchConfigAnalyzer.GetPageStructure | src/core/analyzer/index.ts:397-436 | nothing for an unknown page, otherwise the depth-limited structure below it |
| Analyzer.SketchConfigAnalyzer.GetDocumentStructure | src/core/analyzer/index.ts:439-495 | an error without a document, the summary in summary mode, otherwise the filtered, cut page structures |
| Analyzer.SketchConfigAnalyzer.GenerateDocumentSummary | src/core/analyzer/index.ts:511-549 | an error without pages, otherwise the per-page summaries and their merged type counts |
| Analyzer.SketchConfigAnalyzer.GeneratePageSummary | src/core/analyzer/index.ts:552-591 | nothing for an unknown page, otherwise its node count, type tally and samples |
| NodesSummary.StyleSignature | src/tools/nodesSummaryTool.ts:199-207 | "no-style" exactly for a node without a style |
| NodesSummary.Bucket | src/tools/nodesSummaryTool.ts:215-216 | the multiple of 100 at or below the coordinate |
| NodesSummary.PositionGroup | src/tools/nodesSummaryTool.ts:212-219 | "no-position" exactly for a node without a frame |
| NodesSummary.SizeGroup | src/tools/nodesSummaryTool.ts:224-234 | "no-size" exactly for a node without a frame |
| NodesSummary.SizeClassMeaning | src/tools/nodesSummaryTool.ts:230-233 | each size class holds exactly the sizes its thresholds describe, and growing a node never moves it to a smaller class |
| NodesSummary.GroupKey | src/tools/nodesSummaryTool.ts:181-194 | grouping by type, or by anything unknown, uses the node's type |
| NodesSummary.GroupsMeaning | src/tools/nodesSummaryTool.ts:55-90 | grouping counts every node, tallies their keys and keeps as each group's samples its first maxSamples nodes |
| NodesSummary.GroupCounts | src/tools/nodesSummaryTool.ts:55-90 | the group counts form a well-formed tally whose total is the node count, each count is how many nodes carry the key, and no group keeps more than maxSamples samples |
| NodesSummary.StatisticsMeaning | src/tools/nodesSummaryTool.ts:239-256 | a largest group exists exactly when a group does and none is larger; the distribution is the five largest groups, largest first |
| NodesSummary.PageNodesMeaning | src/tools/nodesSummaryTool.ts:41-104 | an error exactly for an unknown page; otherwise every node below it is counted, the counts add up, samples stay within the cap and statistics appear exactly when asked for |
| NodesSummary.AddSamplesMeaning | src/tools/nodesSummaryTool.ts:150-159 | samples keep the earlier ones in front, never repeat an identifier, never exceed maxSamples, and leave one out only when it is already there or the group is full |
| NodesSummary.MergeGroupsCounts | src/tools/nodesSummaryTool.ts:137-148 | merging a page's groups adds its counts to the document's key by key |
| NodesSummary.MergeGroupsSamples | src/tools/nodesSummaryTool.ts:137-160 | merging keeps every group's samples distinct and within the cap |
| NodesSummary.DocumentPassMeaning | src/tools/nodesSummaryTool.ts:109-176 | the document's group counts are a well-formed tally totalling the node count, which is the sum of the pages' counts, and every group's samples are distinct and within the cap |
| NodesSummary.AddSamplesLoop | src/tools/nodesSummaryTool.ts:151-159 | the sample loop with its set of identifiers computes the defined merge of samples |
| NodesSummary.MergePageGroups | src/tools/nodesSummaryTool.ts:137-160 | the merge loop over a page's groups computes the defined merge |
| NodesSummary.NodesSummaryTool.constructor | src/tools/nodesSummaryTool.ts:16-18 | the tool keeps the analyzer it is given |
| NodesSummary.NodesSummaryTool.GetNodesSummary | src/tools/nodesSummaryTool.ts:23-36 | defaults filled in, a page summary when a page is named, the document summary otherwise |
| NodesSummary.NodesSummaryTool.GetPageNodesSummary | src/tools/nodesSummaryTool.ts:41-104 | the page summary the definition describes, an error for an unknown page |
| NodesSummary.NodesSummaryTool.GetDocumentNodesSummary | src/tools/nodesSummaryTool.ts:109-176 | the document summary over every listed page |
| LegacyStyle.ExtractColor | src/core/analyzer/sketchConfigAnalyzer.legacy.ts:341-351 | a record exactly for a present colour; red, green and blue default to 0 and alpha to 1 only when absent; the hex is rgbaToHex of those four values and starts with '#' |
| LegacyStyle.ToHexValue | src/core/analyzer/sketchConfigAnalyzer.legacy.ts:357-360 | each channel's text reads back as the channel times 255, rounded, whatever the channel |
| LegacyStyle.ToHexInRange | src/core/analyzer/sketchConfigAnalyzer.legacy.ts:356-364 | inside [0, 1] a channel is written as the same two digits the modular extractor writes |
| LegacyStyle.HexAgreesInRange | src/core/analyzer/sketchConfigAnalyzer.legacy.ts:356-364 | for channels inside [0, 1] both analyzers write the same colour text, 9 characters with alpha below 1 and 7 otherwise |
| LegacyStyle.ToHexUnclamped | src/core/analyzer/sketchConfigAnalyzer.legacy.ts:357-360 | outside [0, 1] nothing is clamped: a red of 2 gives three digits and a slightly negative one a minus sign |
| LegacyStyle.MapPaints | src/core/analyzer/sketchConfigAnalyzer.legacy.ts:284-289 | one record per entry, in order |
| LegacyStyle.DisabledEntriesKept | src/core/analyzer/sketchConfigAnalyzer.legacy.ts:279-336 | every fill and border has its record, in order, disabled ones included, disabled exactly when the entry says so, with the entry's colour |
| LegacyStyle.LegacyListsAtLeastAsMany | src/core/analyzer/sketchConfigAnalyzer.legacy.ts:283-290 | the legacy fill list is never shorter than the modular one, which keeps only enabled fills |
| LegacyStyle.MapRuns | src/core/analyzer/sketchConfigAnalyzer.legacy.ts:375-387 | one attribute record per text run, in order |
| LegacyStyle.SymbolRecordOf | src/core/analyzer/sketchConfigAnalyzer.legacy.ts:443-484 | the class and symbolID as they are; for a master exactly: both background flags (`?? false`), allowsOverrides (`?? true`) and, when it has a layer array, one entry per layer with a non-empty `do_objectID`, else `id`, the name, class and allowsOverrides (`?? true`); the overrides exactly for an instance |
| LegacyStyle.NodeRecordOf | src/core/analyzer/sketchConfigAnalyzer.legacy.ts:230-274 | the record carries the identifier, type and name, visibility and lock as read, the frame's position and size (each 0 only when absent), rotation, the context opacity (1 when absent), the style record of a styled node, and the text, shape, image and symbol parts exactly for their node types, each equal to its extractor's record (the symbol part is LegacyStyle.SymbolRecordOf) |
| LegacyStyle.SetFirst | src/core/analyzer/sketchConfigAnalyzer.legacy.ts:609-614 | assigning the first entry replaces it, or starts the list, and keeps the others |
| LegacyStyle.OverrideMeaning | src/core/analyzer/sketchConfigAnalyzer.legacy.ts:586-618 | a stringValue override sets the text content, an image override the image, a colour object the first fill; nothing else changes |
| LegacyStyle.OverridesKeepTheRest | src/core/analyzer/sketchConfigAnalyzer.legacy.ts:570-578 | overrides touch only the text, image and style parts |
| LegacyStyle.StyleWithoutColorOverrides | src/core/analyzer/sketchConfigAnalyzer.legacy.ts:570-578 | when no override names a colour the style is the master's own |
| LegacyStyle.InstanceStylesOf | src/core/analyzer/sketchConfigAnalyzer.legacy.ts:556-578 | as intended, masterStyles is the master's style before any override and the record is the master's with the overrides applied |
| LegacyStyle.InstanceStylesAsWritten | src/core/analyzer/sketchConfigAnalyzer.legacy.ts:556-578 | as written: the record is the master's with the overrides applied, and masterStyles is that overridden style object itself, or the empty style when the master has none |
| LegacyStyle.AsWrittenAgreesWithoutColor | src/core/analyzer/sketchConfigAnalyzer.legacy.ts:556-578 | as written and as intended agree unless an override names a colour |
| LegacyStyle.MasterStylesAliased | src/core/analyzer/sketchConfigAnalyzer.legacy.ts:566-614 | a master with a style but no fills and one colour override: as written the reported master style gains the override's fill, as intended it has none |
| LegacyPath.LegacyControl | src/core/analyzer/sketchConfigAnalyzer.legacy.ts:1113-1129 | a control point falls back to the point itself unless the curve field is a text holding two numbers |
| LegacyPath.LegacyCommands | src/core/analyzer/sketchConfigAnalyzer.legacy.ts:1082-1136 | one command per point, each the command of that point |
| LegacyPath.LegacyPointsToPathData | src/core/analyzer/sketchConfigAnalyzer.legacy.ts:1073-1144 | the loop over the points builds the path data the definition describes |
| LegacyPath.LegacyPathShape | src/core/analyzer/sketchConfigAnalyzer.legacy.ts:1073-1144 | no points give no path; otherwise one move, then a curve exactly where a curve flag is set or a line, and a closing command exactly when there are more than two points |
| LegacyPath.PrefixSerialized | src/core/analyzer/sketchConfigAnalyzer.legacy.ts:1082-1136 | the text of a prefix of the commands is no longer than the text of all of them |
| LegacyPath.LegacyClosesWhenModularDoes | src/core/analyzer/sketchConfigAnalyzer.legacy.ts:1138-1141 | wherever the modular path closes, the legacy one closes too, after as many commands |
| LegacyRender.LegacyChainIsEscape | src/core/analyzer/sketchConfigAnalyzer.legacy.ts:1161-1168 | the five replacements in a row escape each character exactly once |
| LegacyRender.LegacyEscapeAgrees | src/core/analyzer/sketchConfigAnalyzer.legacy.ts:1161-1168 | the legacy and modular escapes agree on text without an apostrophe; the legacy one writes &apos; where the modular one writes &#39; |
| LegacyRender.LegacyEscapedIsSafe | src/core/analyzer/sketchConfigAnalyzer.legacy.ts:1161-1168 | escaped text holds no raw < > " ' |
| LegacyRender.PaintOf | src/core/analyzer/sketchConfigAnalyzer.legacy.ts:797-813 | the first fill's colour when it is enabled and has a colour, grey otherwise; a stroke only when the first border is enabled, black without a colour and width 1 when the thickness is 0 |
| LegacyRender.RectDrawn | src/core/analyzer/sketchConfigAnalyzer.legacy.ts:787-823 | a rectangle is an empty rect at the origin with the record's size, its corner radius and the record's paint |
| LegacyRender.OvalDrawn | src/core/analyzer/sketchConfigAnalyzer.legacy.ts:827-859 | an oval is an empty ellipse centred in the box with radii half the size, and the record's paint |
| LegacyRender.PlaceholdersDrawn | src/core/analyzer/sketchConfigAnalyzer.legacy.ts:1149-1157 | the default box is grey #f0f0f0 of the node's size captioned with its type; likewise (lines 990-993) the group placeholder is a dashed #f8f8f8 box captioned with the number of its layers |
| LegacyRender.TextLayoutOf | src/core/analyzer/sketchConfigAnalyzer.legacy.ts:863-893 | size 14, Arial and black unless the first run says otherwise; alignment 1 centres, 2 right-aligns, anything else starts at 0; the baseline is a third of the font size below the middle |
| LegacyRender.ContentOf | src/core/analyzer/sketchConfigAnalyzer.legacy.ts:868 | the content is never empty, and the text cannot be drawn exactly when its content is a colour object |
| LegacyRender.TextDrawn | src/core/analyzer/sketchConfigAnalyzer.legacy.ts:863-896 | a text with content is a text element at the layout's position with its font family, size, fill and anchor, ending with the escaped content |
| LegacyRender.TextIsEscaped | src/core/analyzer/sketchConfigAnalyzer.legacy.ts:863-896 | the text element ends with the escaped content, free of markup characters, then the closing tag |
| LegacyRender.ShapePathPaint | src/core/analyzer/sketchConfigAnalyzer.legacy.ts:1040-1058 | as intended, a shape path is painted with its first enabled fill's colour and first enabled border's colour, written as hex |
| LegacyRender.ShapePathColourLost | src/core/analyzer/sketchConfigAnalyzer.legacy.ts:1043-1048 | an enabled red fill: as written the shape path is drawn grey, because a raw colour has no hex; as intended it is drawn red |
| LegacyRender.ShapePathPaintAsWritten | src/core/analyzer/sketchConfigAnalyzer.legacy.ts:1040-1058 | as written: the fill is always #cccccc; an enabled first border strokes black with its thickness (1 when falsy), otherwise there is no stroke |
| LegacyRender.ShapePathDrawn | src/core/analyzer/sketchConfigAnalyzer.legacy.ts:1020-1068 | with non-empty path data a shape path is an empty path element carrying that data and the corrected paint |
| LegacyRender.ShapePathSvg | src/core/analyzer/sketchConfigAnalyzer.legacy.ts:1020-1068 | as intended: an unknown node, or path data that is missing or empty, draws the default placeholder; otherwise a path element carrying the path data and the corrected paint |
| LegacyRender.Offset | src/core/analyzer/sketchConfigAnalyzer.legacy.ts:937-946 | a child's offset is kept when inside the group, otherwise clamped so it is never negative and a child that fits ends at the group's edge |
| LegacyRender.SomesMeaning | src/core/analyzer/sketchConfigAnalyzer.legacy.ts:927-981 | one part at most per child, none exactly when no child renders, each part what some child rendered |
| LegacyRender.ChildPart | src/core/analyzer/sketchConfigAnalyzer.legacy.ts:928-980 | a child without an indexed identifier draws nothing; a drawn child is placed with a translate |
| LegacyRender.ChildSvgByType | src/core/analyzer/sketchConfigAnalyzer.legacy.ts:948-970 | a child rectangle or shape draws a rect with its corner radius, an oval an ellipse, a text a text element exactly when it has content, and a group something exactly when depth is left |
| LegacyRender.ChildSvgFallback | src/core/analyzer/sketchConfigAnalyzer.legacy.ts:948-970 | a child shape path always draws something, a path element when it has path data; any other child type draws the default box captioned with its type |
| LegacyRender.Shown | src/core/analyzer/sketchConfigAnalyzer.legacy.ts:920-928 | only the first five layers of the group's indexed node are drawn |
| LegacyRender.GroupSvg | src/core/analyzer/sketchConfigAnalyzer.legacy.ts:914-994 | the group markup exists exactly while the call stack has room |
| LegacyRender.GroupParts | src/core/analyzer/sketchConfigAnalyzer.legacy.ts:923-981 | a group draws at most five placed children, each the drawing of one of its first five layers |
| LegacyRender.GroupPlaceholderWhenEmpty | src/core/analyzer/sketchConfigAnalyzer.legacy.ts:984-993 | a group draws its placeholder with its layer count exactly when none of its first five layers renders |
| Legacy.LegacyWalkWellFormed | src/core/analyzer/sketchConfigAnalyzer.legacy.ts:204-218 | walkAndIndex keeps the index invariant |
| Legacy.LegacyIndexWellFormed | src/core/analyzer/sketchConfigAnalyzer.legacy.ts:9-34 | the legacy index of any configuration satisfies the invariant |
| Legacy.LegacyWalkKeys | src/core/analyzer/sketchConfigAnalyzer.legacy.ts:204-218 | walking a subtree indexes exactly the identifiers it carries |
| Legacy.LegacyPagesKeys | src/core/analyzer/sketchConfigAnalyzer.legacy.ts:21-31 | indexing the pages indexes exactly the identifiers they carry |
| Legacy.IdCountBounds | src/core/analyzer/sketchConfigAnalyzer.legacy.ts:55-63 | countLayers counts at least the distinct identifiers and at most the nodes, all of them when every node has an identifier |
| Legacy.LegacyIndexedIds | src/core/analyzer/sketchConfigAnalyzer.legacy.ts:9-34 | analyzeConfig indexes the same identifiers as the modular index, no more than the pages and layers it counts, and counts no more layers than the modular one |
| Legacy.LegacyWalkFrame | src/core/analyzer/sketchConfigAnalyzer.legacy.ts:204-218 | walking a subtree leaves every identifier it does not carry as it was |
| Legacy.LegacyWalkRoot | src/core/analyzer/sketchConfigAnalyzer.legacy.ts:204-212 | a node whose identifier no descendant reuses is indexed under the parent it was walked with |
| Legacy.LegacyChildParent | src/core/analyzer/sketchConfigAnalyzer.legacy.ts:210-216 | a child is filed under the nearest identifier above it, its parent's or, when the parent has none, the parent's own parent |
| Legacy.LegacyReusedIdParents | src/core/analyzer/sketchConfigAnalyzer.legacy.ts:204-228 | a document reusing "x" below "y" below "x" records "x" under "y" and "y" under "x", so getAncestors as written never ends |
| Legacy.FiltersIgnoreCase | src/core/analyzer/sketchConfigAnalyzer.legacy.ts:69-77 | the type and name filters ignore case |
| Legacy.LegacyMatchingMeaning | src/core/analyzer/sketchConfigAnalyzer.legacy.ts:68-77 | the matches are exactly the identifiers whose nodes pass the filters |
| Legacy.ListedSound | src/core/analyzer/sketchConfigAnalyzer.legacy.ts:65-89 | as intended, no more than limit records, each of an indexed node passing the filters |
| Legacy.ScanAsWritten | src/core/analyzer/sketchConfigAnalyzer.legacy.ts:68-87 | as written, the loop accepts only matching identifiers, at most limit of them or one when limit is below 1, and keeps going only while below the limit or before its first acceptance |
| Legacy.ListedAsWritten | src/core/analyzer/sketchConfigAnalyzer.legacy.ts:65-89 | as written: every listed record is that of an indexed node passing the filters, and at most limit are listed, one when limit is below 1 |
| Legacy.ScanIsWindow | src/core/analyzer/sketchConfigAnalyzer.legacy.ts:65-89 | with a positive limit the loop as written lists the offset/limit window of the matches |
| Legacy.AsWrittenAgrees | src/core/analyzer/sketchConfigAnalyzer.legacy.ts:65-89 | with a positive limit listNodes as written lists what was intended |
| Legacy.LimitZeroListsOne | src/core/analyzer/sketchConfigAnalyzer.legacy.ts:80-86 | with limit 0 listNodes as written still lists one node where the intended listing is empty |
| Legacy.CandidatesMeaning | src/core/analyzer/sketchConfigAnalyzer.legacy.ts:144-156 | countMatches counts exactly the identifier-bearing nodes of the subtree that pass the filters |
| Legacy.UnfilteredCount | src/core/analyzer/sketchConfigAnalyzer.legacy.ts:144-156 | without filters every identifier-bearing node is counted, as getPageInfo counts them |
| Legacy.IndexedWithin | src/core/analyzer/sketchConfigAnalyzer.legacy.ts:163-164 | the indexed candidates are candidates, no more of them |
| Legacy.ByPageMeaning | src/core/analyzer/sketchConfigAnalyzer.legacy.ts:125-202 | an unknown page lists nothing; the returned number is the number of records, at most limit and the total; each record is of a matching node below the page |
| Legacy.FeedFrozen | src/core/analyzer/sketchConfigAnalyzer.legacy.ts:172-178 | once limit records are listed the walk changes nothing |
| Legacy.FeedIsWindow | src/core/analyzer/sketchConfigAnalyzer.legacy.ts:159-180 | the walk from the start lists exactly the window of the indexed candidates it meets |
| Legacy.WalkIsListing | src/core/analyzer/sketchConfigAnalyzer.legacy.ts:183-195 | the listing is what the walk over the page's layers gathers |
| Legacy.CountMatches | src/core/analyzer/sketchConfigAnalyzer.legacy.ts:144-156 | the count is the number of candidates in the subtree |
| Legacy.WalkLayers | src/core/analyzer/sketchConfigAnalyzer.legacy.ts:174-178 | each layer is walked in turn until limit records are listed |
| Legacy.WalkPage | src/core/analyzer/sketchConfigAnalyzer.legacy.ts:159-180 | the node is looked at, then, unless the limit is now reached, its children |
| Legacy.FirstMaster | src/core/analyzer/sketchConfigAnalyzer.legacy.ts:509-519 | nothing exactly when no indexed node is a master with that symbol ID; otherwise the first in insertion order |
| Legacy.InstanceStylesFor | src/core/analyzer/sketchConfigAnalyzer.legacy.ts:545-581 | as intended: a result exactly for an indexed symbol instance whose symbol has a master; it carries the instance, its symbolID and overrides, the first master's record with the overrides applied, and that master's style as it was before them |
| Legacy.LegacyPageEntries | src/core/analyzer/sketchConfigAnalyzer.legacy.ts:40-53 | one entry per page, its layer count covering the identifier-bearing layers below it |
| Legacy.PageCountsAddUp | src/core/analyzer/sketchConfigAnalyzer.legacy.ts:19-53 | the layer counts listPages reports add up to the count analyzeConfig reports |
| Legacy.PageInfoMatchesListing | src/core/analyzer/sketchConfigAnalyzer.legacy.ts:91-202 | getPageInfo's count is the total listNodesByPage reports for the same page without filters, and both know the same pages |
| Legacy.LegacyAnalyzer.constructor | src/core/analyzer/sketchConfigAnalyzer.legacy.ts:2-7 | a new analyzer holds no configuration and an empty, well-formed index |
| Legacy.LegacyAnalyzer.AnalyzeConfig | src/core/analyzer/sketchConfigAnalyzer.legacy.ts:9-34 | keeps the configuration, rebuilds the index and reports the pages and identifier-bearing layers, leaving it well formed |
| Legacy.LegacyAnalyzer.WalkAndIndex | src/core/analyzer/sketchConfigAnalyzer.legacy.ts:204-218 | indexes the subtree as the walk definition describes and returns its identifier-bearing nodes |
| Legacy.LegacyAnalyzer.IndexNode | src/core/analyzer/sketchConfigAnalyzer.legacy.ts:220-228 | records the node, its parent and its name |
| Legacy.LegacyAnalyzer.CountLayers | src/core/analyzer/sketchConfigAnalyzer.legacy.ts:55-63 | the identifier-bearing nodes of the subtree |
| Legacy.LegacyAnalyzer.CountAll | src/core/analyzer/sketchConfigAnalyzer.legacy.ts:58-61 | the identifier-bearing nodes below a list of layers |
| Legacy.LegacyAnalyzer.ListPages | src/core/analyzer/sketchConfigAnalyzer.legacy.ts:40-53 | nothing without a page list, otherwise one entry per page |
| Legacy.LegacyAnalyzer.GetPageInfo | src/core/analyzer/sketchConfigAnalyzer.legacy.ts:91-123 | nothing for an unknown page, otherwise its identifier-bearing node count |
| Legacy.LegacyAnalyzer.GetNodeInfo | src/core/analyzer/sketchConfigAnalyzer.legacy.ts:230-232 | a record exactly for an indexed node, the node's record |
| Legacy.LegacyAnalyzer.ListNodes | src/core/analyzer/sketchConfigAnalyzer.legacy.ts:65-89 | as intended: with the limit checked before a match is taken, the filtered records in insertion order after offset matches, at most limit |
| Legacy.LegacyAnalyzer.ListNodesByPage | src/core/analyzer/sketchConfigAnalyzer.legacy.ts:125-202 | the counting pass then the walk give the defined page listing |
| Legacy.LegacyAnalyzer.GetAncestors | src/core/analyzer/sketchConfigAnalyzer.legacy.ts:1188-1197 | as intended: the ancestors nearest first, stopped at the first identifier already met |
| Legacy.LegacyAnalyzer.GetSymbolMasterBySymbolId | src/core/analyzer/sketchConfigAnalyzer.legacy.ts:509-519 | the identifier of the first indexed master with that symbol ID |
| Legacy.LegacyAnalyzer.GetSymbolInstanceStyles | src/core/analyzer/sketchConfigAnalyzer.legacy.ts:545-581 | as intended: the instance styles the definition describes for the current index |
| LegacyPath.LegacyWriteCommand | src/core/analyzer/sketchConfigAnalyzer.legacy.ts:1083-1135 | the text one point adds is that of the command the legacy reading of the point describes |

## Left out

- Number formatting: `Number#toString` of non-integral numbers and `toFixed(2)` are the parameter `Js.Numerics`, not defined. The percentages of the summary statistics (`toFixed(1)`) are left out.
- `parseFloat`: a token with no digit (NaN in JavaScript) reads as 0.
- Case folding: `toLowerCase` is modelled on ASCII letters only.
- Loading: reading the Sketch file, unzipping it and parsing its JSON. The model starts from the parsed document.
- Raw node fields:
  - `node.type`, `node.class` and `node.children` are not read. The model takes the type from `_class` and the children from `layers` only.
  - The `pathData` field directly on a raw node is not modelled, only `path.pathData`.
- Null and non-object entries: every entry of `pages` or of `layers` is a node in the model, so an entry that is `null` or not an object cannot be written. The source handles such an entry in three ways, none of them modelled. The modular indexConfig and walkAndIndex throw when they read its `layers` (src/core/analyzer/nodeIndexer.ts:36 and 56). The legacy analyzeConfig throws on a null page (src/core/analyzer/sketchConfigAnalyzer.legacy.ts:26). The legacy walkAndIndex, countLayers and listing walks skip it and count it as 0 (src/core/analyzer/sketchConfigAnalyzer.legacy.ts:56, 98, 145, 160 and 205).
- Parent identifiers: a parent of `""` and one of `null` are both stored as none. Every read of the parent table treats them alike.
- Object key order: JavaScript lists integer-like keys first. Tables keep plain insertion order.
- Debug payloads: the `debugSteps` and `debugInfo` of `renderNodeAsBase64` are left out.
- The `try`/`catch` around the facade's renderNodeAsSVG: the modelled templates cannot throw, so the error branch is never taken.
- Recursion depth: the facade's group rendering and the legacy group rendering take a `fuel` argument for the depth of nested groups the call stack allows. With no fuel left, the facade draws nothing for that child. The legacy call throws and its caller swallows the error.
- Document summary: `commonStyles` is always an empty array and is not modelled. `groupSimilar` is read nowhere and is not modelled either.
- Legacy text runs: `lineHeight` and `letterSpacing` are not modelled.
- Legacy records: the shape part's `booleanOperation` and the image part's `fillReplacesImage` and `clippingMask` are not modelled.
- Legacy symbol records: the instance padding fields `masterInfluenceEdge*` are not modelled. A master's own `allowsOverrides` and its layer list are modelled by LegacyStyle.SymbolRecordOf.
- Legacy rendering:
  - renderNodeAsBase64 and the type switch of renderNodeAsSVG are not modelled. They repeat the error handling and dispatch of the modular facade, which Analyzer.SketchConfigAnalyzer.RenderNodeAsBase64 and SvgRenderer.BodyByType cover.
  - The artboard and symbol-instance templates are not modelled. They are fixed placeholders of the same form as the default and group templates, which are modelled.
  - The modelled parts are the rectangle, oval, text, group, shape-path and default templates, the escape and pointsToPathData.
- Legacy queries not modelled: getSymbolMasters, getSymbolInstances, getNodePosition, findNodesByName, getRawNode, hasConfig, getPageStructure and getDocumentStructure. The model covers their counterparts in the modular facade.
- Legacy.LegacyAnalyzer.GetSymbolMasterBySymbolId: returns only the master's identifier, not the `{id, node, info}` object. The node and record follow from the identifier through the index and `NodeRecordOf`.
- Legacy.LegacyAnalyzer.ListNodes: assumes `getNodeInfo` is truthy for every indexed identifier, as it is for every indexed node.
- StyleExtractor.ExtractTextInfo: a run whose `MSAttributedStringFontAttribute` is present but has no inner `attributes` cannot be written, because `RunAttributes.font` holds the inner record directly. On such a run the source's extractTextInfo throws a TypeError when it reads `font.size` (src/core/analyzer/styleExtractor.ts:157-160), and so does every caller that builds the record of that text node. The legacy extractor reads the same run with `?.` and finds no name and no size (src/core/analyzer/sketchConfigAnalyzer.legacy.ts:380-381).
- Analyzer.Reached: states only that every identifier reached is indexed. What the walk lists is stated by Analyzer.FeedIsWindow.
- Analyzer.StripSvgTags: states only that the result is no longer than the input. That is all the child renderer needs.
- Analyzer.SketchConfigAnalyzer.RenderNodeAsBase64: renders through the corrected renderer Analyzer.FacadeRender, not the one as written. The renderer as written is Analyzer.FacadeRenderAsWritten, which ignores the path data and the children markup (see Findings).
- Analyzer.FacadeRender: states the renderer as intended. Analyzer.FacadeRenderAsWritten states the one as written.
- Legacy.InstanceStylesFor: reports `masterStyles` as the master's style before the overrides, as intended. As written it is the overridden style object, stated by LegacyStyle.InstanceStylesAsWritten (see Findings).
- Legacy.LegacyAnalyzer.GetSymbolInstanceStyles: returns Legacy.InstanceStylesFor, so it has the same correction.
- LegacyRender.ShapePathSvg: paints with the corrected LegacyRender.ShapePathPaint. As written the fill is always #cccccc and the stroke black, stated by LegacyRender.ShapePathPaintAsWritten (see Findings).
- LegacyRender.ShapePathDrawn: states the path element with the corrected paint, as LegacyRender.ShapePathSvg does.
- Legacy.LegacyAnalyzer.ListNodes: checks the limit before taking a match, as intended. The loop as written is Legacy.ScanAsWritten and Legacy.ListedAsWritten (see Findings).
- Indexer.NodeIndexer.GetAncestors: stops at the first identifier already met, as intended. The walk as written is stated by Indexer.AncestorsAgree and Indexer.ReusedIdChainNeverEnds (see Findings). Analyzer.SketchConfigAnalyzer.GetAncestors and Legacy.LegacyAnalyzer.GetAncestors have the same guard.
- Analyzer.SketchConfigAnalyzer.GetAncestors: has the guard of Indexer.NodeIndexer.GetAncestors.
- Legacy.LegacyAnalyzer.GetAncestors: has the guard of Indexer.NodeIndexer.GetAncestors.
- Tallies.SortByCount: does not state the order of entries with equal counts. `Array.prototype.sort` is stable, so the source keeps their order of first appearance. The contract states only a permutation, largest first.

## Findings

| source | as written | input that shows it | evidently intended | confidence | as-written member | corrected member |
|---|---|---|---|---|---|---|
| src/core/analyzer/nodeIndexer.ts:133-148 | getAncestors follows parent links until one is missing, with no guard against a cycle. The legacy getAncestors (sketchConfigAnalyzer.legacy.ts:1188-1197) does the same. | A group "x" holding a group "y" that holds another layer "x". Indexing records "x" under "y" and "y" under "x", so the loop never ends. | Stop at the first identifier already met. | not executed | Indexer.ReusedIdChainNeverEnds | Indexer.NodeIndexer.GetAncestors |
| src/core/analyzer/index.ts:313-362 | renderNodeAsSVG finds a shape path's path data and a group's children markup. It passes them as `pathData` and `customSVG` to SvgRenderer.renderNodeAsSVG, which reads neither. | A shape path whose points give the valid path data "M0 0". As written it is drawn as the grey placeholder. | Draw the path with generateShapePathSVG. Draw the group's children with generateGroupSVG and the child renderer. | not executed | Analyzer.PathDataDroppedWhenValid | Analyzer.PathDataShown |
| src/core/analyzer/sketchConfigAnalyzer.legacy.ts:556-614 | `masterStyles` is the master record's own `style` object, which the colour overrides then modify in place. | A master with a style but no fills, and an instance with one colour override. The reported `masterStyles.fills` holds the override's fill. | Report the master's style as it was before any override. | not executed | LegacyStyle.MasterStylesAliased | LegacyStyle.InstanceStylesOf |
| src/core/analyzer/sketchConfigAnalyzer.legacy.ts:1041-1057 | generateShapePathSVG reads `fill.color.hex` from the raw node. A raw Sketch colour has channels but no `hex`, so a shape path is always grey. | An enabled fill of red (1, 0, 0, 1). As written it is drawn #cccccc. | Convert the raw colour with extractColor. | not executed | LegacyRender.ShapePathColourLost | LegacyRender.ShapePathPaint |
| src/core/analyzer/sketchConfigAnalyzer.legacy.ts:65-89 | listNodes compares the list length with `limit` only after taking a node. | One indexed rectangle, limit 0, no filters, no offset. As written one node is listed. | List at most `limit` nodes. | not executed | Legacy.LimitZeroListsOne | Legacy.LegacyAnalyzer.ListNodes |
