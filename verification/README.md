# reMarkable notebook export — page rendering, PDF decisions, notebook model

This project models the export core of a reMarkable tablet client in Dafny:

- **SvgDocument** renders one page of a notebook (layers of pen strokes, each a
  list of sampled segments) as an SVG drawing. The drawing is modelled as a
  sequence of element tokens (`SvgOpen`, `GroupOpen`, `PolyStart`, `Point`,
  `PolyEnd`, `Rect`, `GroupClose`, `SvgClose`) instead of formatted text.
- **Svg2Pdf** turns a page's SVG into a PDF and merges the page PDFs of a
  notebook. Only its decisions are modelled: the page size handed to the
  transcoder, the merged file's path, and which page files are fed to the merger
  in which order.
- **Content** is a notebook (or collection) with its pages, template names,
  folders, page lookup, thumbnail choice, equality and hash code.
- **Type** is the two kinds of store entries and their type strings.
- **PropertiesCache** is the settings map, modelled in memory only.

Modules: `Wrappers` (option type), `JavaInt` (Java `int` arithmetic: wrap-around,
truncating division by two, `Math.abs`), `PageModel` (pages, layers, strokes,
segments), `SvgDocument` (the renderer and its two entry points), `SvgOrdering`
(which strokes are drawn, in which order and colour), `SvgPolylines` (how one
stroke is chunked into polylines), `SvgStructure` (the frame and nesting of the
output), `ContentType`, `ContentModel`, `Svg2Pdf`, `PropertiesCache`.

Each renderer entry point is a method with loops proved equal to one reference
definition, `SvgDocument.Document`: canvas, group, every stroke of
`EmissionOrder` (highlighter strokes first, then the rest, each in
layer-then-stroke order), then the rectangle and the two closing tags. The
properties are proved about that reference.

Points worth knowing about the code, which a reader might expect to behave
otherwise:

- **Chunking.** A segment whose number is a multiple of 8 writes its point, ends
  the polyline, opens a new one and writes the point again. The first segment is
  not treated specially. With segments numbered from 0, the first polyline
  therefore holds the single point of segment 0, and later polylines hold up to
  nine points (the repeated join point plus eight new ones). Seventeen segments
  give four polylines of 1, 9, 9 and 1 points; a reader expecting at most eight
  points per polyline, and so three polylines, would be wrong.
- **Merge order.** The page PDFs are merged in the order of the notebook's page
  list; nothing sorts them by page number.
- **Merge outcome.** A merge with missing pages reports what any merge reports;
  there is no separate status for a partial merge, and the skipped pages show
  only as missing sources.
- **Page size.** For a 1404 by 1872 portrait page the PDF hints are
  1404 / 0.264583 ≈ 5306.46 and 1872 / 0.264583 ≈ 7075.28 units.
- **Null orientation.** A page without a notebook, or a notebook without an
  orientation, makes `convert` dereference null. That exception is not caught,
  so it escapes `convert` (`Svg2Pdf.NullOrientation`); only the file and
  transcoder failures are caught.

## Model

| member | source | states |
|---|---|---|
| SvgDocument.WriteStroke | src/main/java/org/rogatio/remarkable/api/io/file/SvgDocument.java:191-204 | One stroke in one pass contributes its own drawing exactly when it belongs to that pass, and nothing otherwise. |
| SvgDocument.WriteLayer | src/main/java/org/rogatio/remarkable/api/io/file/SvgDocument.java:191-204 | One layer's strokes in one pass produce exactly the drawings of the strokes of that pass's kind, in order; the highlighter pass hands every stroke to `addStroke` but only highlighter strokes draw anything. |
| SvgDocument.WritePass | src/main/java/org/rogatio/remarkable/api/io/file/SvgDocument.java:191-195 | A pass over all layers draws the strokes of its kind from every layer, layer by layer, each once. |
| SvgDocument.WriteStrokes | src/main/java/org/rogatio/remarkable/api/io/file/SvgDocument.java:190-204 | The two passes together draw the strokes in emission order: every highlighter stroke, then every other stroke. |
| SvgDocument.CreatePortrait | src/main/java/org/rogatio/remarkable/api/io/file/SvgDocument.java:233-269 | The portrait writer emits the reference document: viewBox of the page's own size, untransformed group, strokes in emission order, rectangle, closing tags. |
| SvgDocument.CreateLandscape | src/main/java/org/rogatio/remarkable/api/io/file/SvgDocument.java:175-214 | The landscape writer emits the reference document with swapped viewBox and the rotate/translate group. |
| SvgOrdering.SelectMembers | src/main/java/org/rogatio/remarkable/api/io/file/SvgDocument.java:119 | A pass draws a stroke if and only if the stroke is of that pass's kind (highlighter or not). |
| SvgOrdering.SelectPartition | src/main/java/org/rogatio/remarkable/api/io/file/SvgDocument.java:245-258 | The two passes together are a permutation of the page's strokes. |
| SvgOrdering.SelectKeepsOrder | src/main/java/org/rogatio/remarkable/api/io/file/SvgDocument.java:245-258 | Within a pass the page's layer-then-stroke order is kept: any prefix of the strokes yields a prefix of the pass. |
| SvgOrdering.EveryStrokeOnce | src/main/java/org/rogatio/remarkable/api/io/file/SvgDocument.java:191-204 | Every stroke of every layer is drawn exactly once across both passes (multiset equality). |
| SvgOrdering.HighlightersFirst | src/main/java/org/rogatio/remarkable/api/io/file/SvgDocument.java:190-204 | No highlighter stroke is drawn after a non-highlighter stroke, and each pass keeps the page order. |
| SvgOrdering.OnlyInOwnPass | src/main/java/org/rogatio/remarkable/api/io/file/SvgDocument.java:119-141 | `addStroke` writes something exactly when the pass type equals the stroke's own pencil type. |
| SvgOrdering.PassColors | src/main/java/org/rogatio/remarkable/api/io/file/SvgDocument.java:114-117 | In the highlighter pass every polyline is in the highlight colour whatever the stored colour; in any other pass every polyline is in the stroke's colour. |
| SvgOrdering.StrokeColors | src/main/java/org/rogatio/remarkable/api/io/file/SvgDocument.java:112-141 | A highlighter stroke is always drawn in the highlight colour, any other stroke in its own colour. |
| SvgPolylines.StrokeIsPolylines | src/main/java/org/rogatio/remarkable/api/io/file/SvgDocument.java:112-141 | A stroke's tokens are exactly a list of complete polylines drawn one after the other, each closed before the next opens. |
| SvgPolylines.StrokePolylineCount | src/main/java/org/rogatio/remarkable/api/io/file/SvgDocument.java:121-140 | A drawn stroke opens and closes exactly one polyline plus one per segment whose number is a multiple of 8, the first segment included. |
| SvgPolylines.StrokeJoins | src/main/java/org/rogatio/remarkable/api/io/file/SvgDocument.java:131-134 | Consecutive polylines share a boundary segment: the next starts with the point the previous ended with and takes its width and opacity from that sample. |
| SvgPolylines.FirstSegmentBoundary | src/main/java/org/rogatio/remarkable/api/io/file/SvgDocument.java:121-134 | When the first segment is a boundary, the first polyline holds only that point and the second starts again at it. |
| SvgPolylines.StrokeSegmentsInOrder | src/main/java/org/rogatio/remarkable/api/io/file/SvgDocument.java:124-138 | Counting each join once, the polylines list exactly the stroke's segments in order. |
| SvgPolylines.PolylineLength | src/main/java/org/rogatio/remarkable/api/io/file/SvgDocument.java:131-134 | With segments numbered 0, 1, 2, ... no polyline lists more than nine points. |
| SvgPolylines.SeventeenSegments | src/main/java/org/rogatio/remarkable/api/io/file/SvgDocument.java:121-140 | Seventeen segments numbered 0 to 16 are drawn as four polylines holding segment 0 alone, segments 0 to 8, segments 8 to 16, and segment 16 alone. |
| SvgStructure.DocumentWellNested | src/main/java/org/rogatio/remarkable/api/io/file/SvgDocument.java:233-269 | The document is well nested: canvas holds the group, the group holds polylines and the rectangle, points lie inside a polyline, everything is closed at the end. |
| SvgStructure.DocumentFrame | src/main/java/org/rogatio/remarkable/api/io/file/SvgDocument.java:175-214 | Portrait viewBox is (horizontal, vertical), landscape is swapped; only landscape has a transform; the rectangle is unswapped and comes after every stroke; in between there are only polyline tokens. |
| SvgStructure.EmptyPage | src/main/java/org/rogatio/remarkable/api/io/file/SvgDocument.java:238-263 | A page without strokes renders to canvas, group, rectangle and the two closing tags only. |
| SvgStructure.LandscapeDelta | src/main/java/org/rogatio/remarkable/api/io/file/SvgDocument.java:183-188 | The rotation centre is the page's halves and the translation is never positive, at least -2^30, and equals `-abs((v - h) / 2)` with truncating division whenever `v - h` fits in an `int`. |
| SvgStructure.StandardLandscapePage | src/main/java/org/rogatio/remarkable/api/io/file/SvgDocument.java:179-188 | A 1404 by 1872 page in landscape has viewBox 1872 by 1404, rotation about (702, 936) and translation -234. |
| JavaInt.Half | src/main/java/org/rogatio/remarkable/api/io/file/SvgDocument.java:187 | Java's `/ 2` on `int`: the quotient rounds toward zero, for negative values too. |
| JavaInt.Abs | src/main/java/org/rogatio/remarkable/api/io/file/SvgDocument.java:183 | `Math.abs` on `int`: the absolute value, except that the smallest `int` stays negative. |
| JavaInt.Wrap | src/main/java/org/rogatio/remarkable/api/io/file/SvgDocument.java:183 | Java `int` wrap-around: the result is the unique 32-bit value congruent to the input modulo 2^32. |
| ContentType.TypeString | src/main/java/org/rogatio/remarkable/api/model/content/Type.java:39-41 | Every type string ends in "Type". |
| ContentType.Find | src/main/java/org/rogatio/remarkable/api/model/content/Type.java:50-57 | The lookup loop returns a listed kind whose type string matches, and null only when no listed kind matches. |
| ContentType.Get | src/main/java/org/rogatio/remarkable/api/model/content/Type.java:49-58 | A found kind has the searched type string; null means the string is neither "DocumentType" nor "CollectionType". |
| ContentType.TypeStrings | src/main/java/org/rogatio/remarkable/api/model/content/Type.java:26-41 | The type strings are "DocumentType" and "CollectionType". |
| ContentType.TypeStringInjective | src/main/java/org/rogatio/remarkable/api/model/content/Type.java:26-29 | Different kinds have different type strings. |
| ContentType.RoundTrip | src/main/java/org/rogatio/remarkable/api/model/content/Type.java:49-58 | Looking up a kind's own type string gives back that kind. |
| ContentType.GetExactly | src/main/java/org/rogatio/remarkable/api/model/content/Type.java:49-58 | `get` finds a kind if and only if the string is one of the two type strings. |
| ContentModel.FindPage | src/main/java/org/rogatio/remarkable/api/model/content/Content.java:227-234 | Page lookup returns null exactly when no page has the number; otherwise a page of the list with that number and no earlier page with it. |
| ContentModel.AddThenGet | src/main/java/org/rogatio/remarkable/api/model/content/Content.java:227-244 | After adding a page whose number was free, lookup finds it; lookups that succeeded before, and of every other number, are unchanged. |
| ContentModel.Add | src/main/java/org/rogatio/remarkable/api/model/content/Content.java:241-244 | Adding appends one page pointing back to the notebook, otherwise unchanged; earlier pages and all other fields stay as they were. |
| ContentModel.AddKeepsAttached | src/main/java/org/rogatio/remarkable/api/model/content/Content.java:241-244 | If every page points back to the notebook, it still does after adding. |
| ContentModel.SetPages | src/main/java/org/rogatio/remarkable/api/model/content/Content.java:251-257 | The page list becomes the given pages, each pointing back to the notebook and otherwise unchanged; other fields stay. |
| ContentModel.DefaultTemplate | src/main/java/org/rogatio/remarkable/api/model/content/Content.java:185-190 | The default template is null exactly when there are no template names, and otherwise one of them. |
| ContentModel.DefaultIsLastTemplate | src/main/java/org/rogatio/remarkable/api/model/content/Content.java:185-201 | The default template is the template of a page numbered with the last index. |
| ContentModel.AppendedTemplateIsDefault | src/main/java/org/rogatio/remarkable/api/model/content/Content.java:185-190 | The most recently appended template name is the default. |
| ContentModel.TemplateName | src/main/java/org/rogatio/remarkable/api/model/content/Content.java:198-201 | A page's template is one of the notebook's template names; the page number must index the list. |
| ContentModel.Thumbnail | src/main/java/org/rogatio/remarkable/api/model/content/Content.java:282-297 | The thumbnail is the current page's if that page exists, else page 0's if that exists; any thumbnail returned belongs to a page numbered as the current page or 0. |
| ContentModel.ThumbnailFallback | src/main/java/org/rogatio/remarkable/api/model/content/Content.java:282-297 | With neither the current page nor page 0 present, there is no thumbnail. |
| ContentModel.Kind | src/main/java/org/rogatio/remarkable/api/model/content/Content.java:304-306 | A notebook's kind, when found, has the notebook's type string. |
| ContentModel.EqualsMeaning | src/main/java/org/rogatio/remarkable/api/model/content/Content.java:337-357 | Two notebooks are equal exactly when their ids (null-aware) and page lists are equal. |
| ContentModel.EqualsEquivalence | src/main/java/org/rogatio/remarkable/api/model/content/Content.java:337-357 | Equality is reflexive, symmetric and transitive. |
| ContentModel.EqualsHashCode | src/main/java/org/rogatio/remarkable/api/model/content/Content.java:322-357 | Equal notebooks have equal hash codes. |
| Svg2Pdf.TranscodingHints | src/main/java/org/rogatio/remarkable/api/io/file/Svg2Pdf.java:102-112 | For "portrait" the width and height hints, times the ratio, are the horizontal and vertical sizes; for any other string they are swapped. |
| Svg2Pdf.HintsSwap | src/main/java/org/rogatio/remarkable/api/io/file/Svg2Pdf.java:104-112 | Any non-portrait orientation gives the portrait hints with width and height exchanged; both use the same ratio. |
| Svg2Pdf.HintsMatchCanvas | src/main/java/org/rogatio/remarkable/api/io/file/Svg2Pdf.java:104-112 | Scaled back by the ratio, the hints are the viewBox of the matching SVG rendering. |
| Svg2Pdf.StandardPortraitHints | src/main/java/org/rogatio/remarkable/api/io/file/Svg2Pdf.java:102-108 | A 1404 by 1872 portrait page gives hints between 5306.46 and 5306.47 wide and between 7075.28 and 7075.29 high. |
| Svg2Pdf.Convert | src/main/java/org/rogatio/remarkable/api/io/file/Svg2Pdf.java:90-120 | Conversion succeeds exactly when input and output open, the orientation is there and the transcoder succeeds, with the orientation's hints; each file or transcoder failure is reported; a missing orientation escapes. |
| Svg2Pdf.FolderPath | src/main/java/org/rogatio/remarkable/api/io/file/Svg2Pdf.java:56-60 | The folder part is empty without folders and otherwise ends in a separator. |
| Svg2Pdf.FolderPathSnoc | src/main/java/org/rogatio/remarkable/api/io/file/Svg2Pdf.java:58-60 | Each folder adds its name followed by one separator, in order. |
| Svg2Pdf.MergeDirectory | src/main/java/org/rogatio/remarkable/api/io/file/Svg2Pdf.java:57-63 | A directory is created exactly when the notebook has folders, and it is the merged file's path without the file name. |
| Svg2Pdf.TopLevelDestination | src/main/java/org/rogatio/remarkable/api/io/file/Svg2Pdf.java:56-65 | Without folders the merged file is the export folder, a separator, the name and "_HD.pdf", and no directory is created. |
| Svg2Pdf.PageFiles | src/main/java/org/rogatio/remarkable/api/io/file/Svg2Pdf.java:69-70 | One candidate file per page, in page-list order. |
| Svg2Pdf.Merge | src/main/java/org/rogatio/remarkable/api/io/file/Svg2Pdf.java:54-83 | The merge creates the directory exactly for a notebook in folders, writes to the joined destination as `java.io.File` normalizes it, takes the existing page files in page-list order as sources, and reports a failing merge instead of raising it. |
| Svg2Pdf.NormalizedPath | src/main/java/org/rogatio/remarkable/api/io/file/Svg2Pdf.java:66-68 | A normalized path has no doubled separator, ends in a separator only when it is the separator alone, and keeps every other character of the joined path in order. |
| Svg2Pdf.NormalizeIdempotent | src/main/java/org/rogatio/remarkable/api/io/file/Svg2Pdf.java:66-68 | Normalizing a normalized path changes nothing. |
| Svg2Pdf.CollapseClean | src/main/java/org/rogatio/remarkable/api/io/file/Svg2Pdf.java:66-68 | A path without doubled separators is not changed by collapsing. |
| Svg2Pdf.CollapseJoin | src/main/java/org/rogatio/remarkable/api/io/file/Svg2Pdf.java:65-68 | Joining a path ending in a separator to one starting with a separator keeps one separator. |
| Svg2Pdf.TrailingExportSeparator | src/main/java/org/rogatio/remarkable/api/io/file/Svg2Pdf.java:65-68 | With export folder "exports/" and no folders, the joined string is "exports//x_HD.pdf" and the merger is given "exports/x_HD.pdf". |
| Svg2Pdf.PresentMembers | src/main/java/org/rogatio/remarkable/api/io/file/Svg2Pdf.java:69-76 | A file is a merge source if and only if it is a page's file and it exists. |
| Svg2Pdf.PresentKeepsOrder | src/main/java/org/rogatio/remarkable/api/io/file/Svg2Pdf.java:69-76 | Skipping missing files keeps the page-list order: the sources of a prefix of the pages are a prefix of the sources. |
| Svg2Pdf.AllPresent | src/main/java/org/rogatio/remarkable/api/io/file/Svg2Pdf.java:69-76 | When every page file exists, every page is merged, in order. |
| Svg2Pdf.MiddlePageMissing | src/main/java/org/rogatio/remarkable/api/io/file/Svg2Pdf.java:72-75 | With the middle of three page files missing, the first and the last are merged, in that order. |
| PropertiesCache.SetProperty | src/main/java/org/rogatio/remarkable/api/io/PropertiesCache.java:233-242 | A null value leaves the map unchanged; any other value becomes the key's value; every other key is unchanged. |
| PropertiesCache.SetIdempotent | src/main/java/org/rogatio/remarkable/api/io/PropertiesCache.java:233-242 | Setting the same value twice is the same as setting it once. |
| PropertiesCache.BoolRoundTrip | src/main/java/org/rogatio/remarkable/api/io/PropertiesCache.java:223-225 | A boolean stored with `setProperty(key, boolean)` reads back as the same boolean through `getBoolean`, and no other key's boolean changes. |
| PropertiesCache.GetBoolean | src/main/java/org/rogatio/remarkable/api/io/PropertiesCache.java:291-293 | `getBoolean` is true only for a stored key. |
| PropertiesCache.ParseBooleanCases | src/main/java/org/rogatio/remarkable/api/io/PropertiesCache.java:291-293 | "true" in any letter case parses as true; "false", "yes", " true" and a missing value parse as false. |
| PropertiesCache.SetBoolProperty | src/main/java/org/rogatio/remarkable/api/io/PropertiesCache.java:223-225 | Setting a boolean stores "true" or "false" accordingly and leaves every other key unchanged. |
| PropertiesCache.TrimLeading | src/main/java/org/rogatio/remarkable/api/io/PropertiesCache.java:267 | Trimming at the front drops only characters up to the space, and keeps a suffix that starts with a non-blank character. |
| PropertiesCache.TrimTrailing | src/main/java/org/rogatio/remarkable/api/io/PropertiesCache.java:267 | Trimming at the back drops only characters up to the space, and keeps a prefix that ends with a non-blank character. |
| PropertiesCache.TrimEmpty | src/main/java/org/rogatio/remarkable/api/io/PropertiesCache.java:267 | A value trims to "" exactly when it has no non-blank character. |
| PropertiesCache.PropertyExistsMeaning | src/main/java/org/rogatio/remarkable/api/io/PropertiesCache.java:263-273 | A property exists exactly when its key is stored with at least one non-blank character. |
| PropertiesCache.ExistsContains | src/main/java/org/rogatio/remarkable/api/io/PropertiesCache.java:263-273 | An existing property is a contained key. |
| PropertiesCache.BlankValueContainedNotExisting | src/main/java/org/rogatio/remarkable/api/io/PropertiesCache.java:263-273 | A key holding only blanks is contained but does not exist, so the converse fails. |
| PropertiesCache.SetThenExists | src/main/java/org/rogatio/remarkable/api/io/PropertiesCache.java:233-273 | After setting a value with a non-blank character, the property exists. |
| PropertiesCache.SetAll | src/main/java/org/rogatio/remarkable/api/io/PropertiesCache.java:142-155 | Setting pairs one after the other gives each (distinct) key its value and leaves other keys alone. |
| PropertiesCache.Create | src/main/java/org/rogatio/remarkable/api/io/PropertiesCache.java:137-161 | After `create` every default key has its default value and every other key is unchanged. |
| PropertiesCache.CreateStoresVersion | src/main/java/org/rogatio/remarkable/api/io/PropertiesCache.java:44-45 | `create` stores the build's implementation version, or "v1.0" when the build has none. |
| PropertiesCache.CreateDefaults | src/main/java/org/rogatio/remarkable/api/io/PropertiesCache.java:142-155 | On an empty map `create` installs the version, exports/notebooks/templates, black, #b93059, #76b72a, white, gray, 1.8, 8090 and "true" for the three PDF flags, and nothing for the token or SSH keys. |

## Left out

- File output of the renderer: the `Writer`, `BufferedWriter`, `FileWriter`, `close` and the swallowed `IOException`; the output is an append-only token sequence.
- Floating-point values on the tokens: coordinates, widths `0.9 * (w + 0.6 * speed)`, opacities `round(opacity * pressure * 100) / 100` and the `%.2f` / `Locale.US` formatting are not computed; a polyline start records where its style comes from (`PolyStyle`).
- The random group identifier (`UUID.randomUUID()`) is a parameter of the renderer.
- The file-name entry points `createPortrait(Page, String)` and `createLandscape(Page, String)` only open a file around the writer entry points.
- `Stroke.getFirstSegment()` is not part of this model; the first polyline's width is a field of the stroke (`firstWidth`), so a stroke without segments is drawn as an empty polyline rather than failing.
- Segment numbering, pencil types, colours and their names and opacities are not part of this model; segment numbers are input, `PencilType` and `StrokeColor` keep only the highlighter / highlight distinction.
- `Util.getFilename` is not part of this model; the page-to-file mapping is a parameter of `Svg2Pdf.Merge`.
- The PDF transcoder, the PDF merger and the file system: whether files open, exist, transcode or merge is given as parameters; what the merger does with an empty source list is left to that parameter.
- Svg2Pdf.TranscodingHints: uses real division by 0.264583 instead of 32-bit float division by the nearest float, so the hints are exact rather than rounded.
- `EXPORTFOLDER` is read from the settings once at class load; here it is a parameter.
- ContentModel.Kind: requires a type string, because a null one makes `Type.get` throw.
- ContentType.Get: the argument is a string, never null; a null argument throws in the source.
- `Content.setPages(null)` throws in the source and is not modelled; `pages == null` branches of `equals` and `hashCode` cannot arise since the model's page list is never null.
- ContentModel.HashCode: `Page.hashCode` is not part of this model, so it is a parameter; `EqualsHashCode` holds for every such parameter.
- ContentModel.StringHash: hashes Unicode scalar values, whereas Java hashes UTF-16 code units, so ids with characters outside the Basic Multilingual Plane hash differently.
- ContentModel.Equals: compares two notebooks only; the `null` argument and the class comparison of `equals(Object)` have no counterpart in the typed model.
- ContentModel.Add: pages are values. Java sets the back-reference on the caller's own `Page` object, so every other list holding that object sees the change; here the notebook gets an updated copy and other holders are unaffected.
- ContentModel.SetPages: Java keeps the caller's list object and rewrites the back-reference of each page in it. After `a.setPages(ps); b.setPages(a.getPages())` every page of `a` points to `b` in Java, while here `a` keeps its own attached copies.
- ContentModel.Equals: `Page.equals` is not part of this model and is taken as structural equality of the modelled page, back-reference included, so two notebooks whose non-empty page lists point back to different notebooks are never equal here; with aliased pages Java can find them equal.
- Svg2Pdf.Merge: path normalization follows the Unix rules of `java.io.File` (runs of separators collapsed, a trailing one dropped); the Windows rules (drive letters, UNC prefixes, '/' turned into '\\') are not modelled.
- Content getters and setters that only read or write a field are not modelled separately.
- The remaining `PropertiesCache` work: loading and storing the settings file (`flush`, `load`), the lazy singleton, the implementation version read from the build (a parameter of `VersionNumber`), the number parsers behind `getDouble` and `getInt`, and `getAllPropertyNames`.
- PropertiesCache.ParseBoolean: folds ASCII letters only; `equalsIgnoreCase` also folds other letters, none of which folds to a letter of "true".
- The console entry point, authentication and template download.
