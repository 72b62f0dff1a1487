# TimesTableGraphic in Dafny

TimesTableGraphic draws the "times table" circle. N points, called mod numbers 0..N-1, sit evenly on a circle. Each mod number k is joined by a line to the point of `multiplier * k`. The repository has two versions:

- **timestablegraphic.js** is the browser version. It keeps three globals: `vertexCount`, `multiplier` and a vertex table. `reevaluate` rebuilds the table with each target reduced by JavaScript's `%`. `vertexForModNumber` looks up the vertex a target lands on. `redraw` clears the SVG view and draws one circle and one line per vertex.
- **TimesTableGraphic.java** is the desktop version. An AWT panel repaints through an off-screen buffer that it reuses while its size still matches. Each repaint clears the buffer and writes the truncated multiplier in a corner. Then, for each of the 100 mod numbers, it draws a large dot, a small dot at `multiplier * modNumber` and a line between them. The target is never reduced.

The model has four modules:

- `Common` (common.dfy) holds `Option`, `Result` and absolute values.
- `SvgGraphic` (svg_graphic.dfy) models the browser version. The globals are the fields of a class. `Reevaluate` is proved against the table function `Table`. The lookup is a loop with an early return. `Redraw` returns the shapes it would append, with positions given as angles.
- `AwtGraphic` (awt_graphic.dfy) models the desktop version:
  - Java `int` wrap-around and division rounded toward zero.
  - `truncate`.
  - The buffer cache in `Paint`.
  - The draw loop, proved against the function `Picture`.
- `Variants` (variants.dfy) compares where the two versions' connections land.

The main result: for a positive vertex count and a non-negative whole multiplier, every target that `reevaluate` stores is the mod number of a vertex, and the lookup returns exactly that vertex. So the `console.assert` in `redraw` (timestablegraphic.js:81) never fails. `Redraw` states this, and its loop proves it by calling the lookup.

## Model

| member | source | states |
|---|---|---|
| `SvgGraphic.JsRem` | timestablegraphic.js:61 | JavaScript `%`: the remainder has the dividend's sign and magnitude (the magnitude of `a` modulo that of `n`), is smaller than the divisor, and equals the Euclidean remainder for a non-negative dividend and a positive divisor |
| `SvgGraphic.TableShape` | timestablegraphic.js:46-57 | the rebuilt table has `vertexCount` records (none when the count is 0 or less); record i has mod number i, so mod numbers are distinct and ascending |
| `SvgGraphic.AnglesWithinOneTurn` | timestablegraphic.js:48-53 | `angle = modNumber * (TAU / vertexCount)` grows strictly with the mod number and lies in [0, TAU) |
| `SvgGraphic.AngleInOneTurn` | timestablegraphic.js:48-53 | the angle of every mod number k in [0, vertexCount) lies in [0, TAU), including for a single vertex |
| `SvgGraphic.NextModNumberInRange` | timestablegraphic.js:60-62 | after the second loop, record k has `nextModNumber == (multiplier * k) % vertexCount`; for a positive count and a non-negative multiplier this lies in [0, vertexCount) |
| `SvgGraphic.NextModNumberResolvesExactly` | timestablegraphic.js:60-62 | for a positive count and a non-negative multiplier, each record's target is the mod number of a record, and that record is the first exact match |
| `SvgGraphic.NegativeTargetsFallToVertexZero` | timestablegraphic.js:61 | with a negative multiplier the target lies in (-N, 0]. It either matches vertex 0 or lies below every mod number, and then vertex 0 is its first nearest vertex |
| `SvgGraphic.FirstNearestUnique` | timestablegraphic.js:110-113 | the nearest-vertex scan keeps only strict improvements, so its result (the earliest of the nearest vertices) is unique |
| `SvgGraphic.ConnectedIndex` | timestablegraphic.js:79 | the vertex `redraw` connects mod number k to is in range, and for a non-negative multiplier it is `(multiplier * k) % N` |
| `SvgGraphic.TimesTableGraphic.constructor` | timestablegraphic.js:30-33 | start-up with the view present sets 100 vertices and multiplier 2, then builds the table |
| `SvgGraphic.TimesTableGraphic.Reevaluate` | timestablegraphic.js:45-64 | discards the old table; the new one is `Table(vertexCount, multiplier)`, built by pushing records and then filling each `nextModNumber` |
| `SvgGraphic.TimesTableGraphic.VertexForModNumber` | timestablegraphic.js:96-116 | the lookup as written. It returns null exactly when the table is empty, and any result is a table element. An exact match returns the first matching vertex. With no match, a target above `vertices[0].modNumber` returns `vertices[0]`. A target below it returns the first nearest vertex |
| `SvgGraphic.TimesTableGraphic.NearestVertexForModNumber` | timestablegraphic.js:96-120 | the lookup the author meant, with `Math.abs` on the starting distance. It returns null exactly when the table is empty, returns the first exact match when there is one, and otherwise returns the first nearest vertex |
| `SvgGraphic.TimesTableGraphic.Redraw` | timestablegraphic.js:66-94 | the view is replaced by two shapes per vertex: a titled circle at the vertex's angle and a line to the vertex `ConnectedIndex` names. The centre is (w/2, h/2) and the radius is 3h/8. The lookup never returns null |
| `SvgGraphic.TimesTableGraphic.ResolvedTarget` | timestablegraphic.js:79-81 | on a rebuilt table, any result satisfying the lookup's contract for vertex k's target is the vertex `ConnectedIndex` names |
| `SvgGraphic.FallbackIgnoresNearerVertex` | timestablegraphic.js:101-116 | on the page's own table and target 3.5, the lookup as written returns vertex 0. The intended lookup returns vertex 3, the earlier of the two nearest |
| `AwtGraphic.Wrap32` | TimesTableGraphic.java:139 | Java `int` arithmetic: the result is a 32-bit value, congruent to the exact result modulo 2^32, and equal to it when it fits |
| `AwtGraphic.JavaDiv` | TimesTableGraphic.java:139-141 | Java `int` division by a positive constant rounds toward zero for both signs of the dividend |
| `AwtGraphic.Truncate` | TimesTableGraphic.java:110-113 | returns the string unchanged when its length is at most `len`, otherwise its first `len` characters. The result is always a prefix whose length is the smaller of the string length and `len`. A negative `len` throws |
| `AwtGraphic.TruncateIdempotent` | TimesTableGraphic.java:110-113 | truncating a truncated string to the same length returns it unchanged |
| `AwtGraphic.LayoutFor` | TimesTableGraphic.java:139-141 | with `int` arithmetic, for heights in [0, 715827882] the radius is non-negative and the circle fits between the top and bottom edges; the x centre lies within the width |
| `AwtGraphic.LayoutOverflowsAboveBound` | TimesTableGraphic.java:139 | at height 715827883, `3 * height` wraps and the radius becomes -268435455, so the height bound above is tight |
| `AwtGraphic.SpokesLength` | TimesTableGraphic.java:142-168 | the first n iterations of the draw loop make 3n calls |
| `AwtGraphic.SpokesAt` | TimesTableGraphic.java:142-168 | iteration k makes exactly three calls: a large dot at k, a small dot at `multiplier * k` and a line between them |
| `AwtGraphic.SpokesVisitEachModNumberOnce` | TimesTableGraphic.java:142-168 | the loop puts a large dot on each mod number below n once, in ascending order, and never clears the buffer |
| `AwtGraphic.PictureClearsOnceThenVisitsEachModNumber` | TimesTableGraphic.java:126-168 | a repaint makes 302 calls. The first clears the panel rectangle, and no other call clears. The large dots visit mod numbers 0..99 once each, in order. The calls for mod number k are its large dot, the small dot at `multiplier * k` and the line between them |
| `AwtGraphic.TimesTableGraphic.constructor` | TimesTableGraphic.java:77-82 | the multiplier starts at 2 and there is no buffer yet |
| `AwtGraphic.TimesTableGraphic.Paint` | TimesTableGraphic.java:90-108 | the buffer is kept only if it exists and the size it reports equals the panel's width and height. An image whose size is not known yet reports -1 by -1. Otherwise a new image, different from every earlier one, replaces it with the panel's size. Afterwards the buffer has the panel's size, except when the panel itself reports -1 by -1 and the kept image does not know its size. The buffer then receives the picture `paintDirectly` draws |
| `AwtGraphic.TimesTableGraphic.PaintDirectly` | TimesTableGraphic.java:115-169 | the calls made equal `Picture`: one clear, then the label truncated to 6 characters at (9w/10, 9h/10), then the three calls of iteration k for k = 0..99 in order. The layout is `LayoutFor(width, height)` |
| `Variants.TargetsDifferByWholeTurns` | TimesTableGraphic.java:147 | for a whole, non-negative multiplier, the desktop line for mod number k ends whole turns beyond the browser target `(m * k) % 100`; the two numbers are equal exactly when `m * k < 100` |
| `Variants.LastModNumberUnderMultiplierTwo` | TimesTableGraphic.java:147 | with multiplier 2, mod number 99 goes to 98 in the browser version and to position 198 in the desktop version |

## Findings

| source | as written | input that shows it | evidently intended | confidence | as-written member | corrected member |
|---|---|---|---|---|---|---|
| timestablegraphic.js:103 | the starting distance is `vertices[0].modNumber - modNumber`, without `Math.abs`; for any target above the first mod number it is negative, so no vertex improves on it | the page's table (100 vertices, multiplier 2), target 3.5: the lookup returns vertex 0 | start from `Math.abs(vertices[0].modNumber - modNumber)`, so the scan returns the first nearest vertex, vertex 3 | not executed | `SvgGraphic.TimesTableGraphic.VertexForModNumber` (discrepancy shown by `SvgGraphic.FallbackIgnoresNearerVertex`) | `SvgGraphic.TimesTableGraphic.NearestVertexForModNumber` |

`Redraw` keeps the lookup as written, because that is what the script calls. With whole multipliers every target either matches a vertex exactly or lies below vertex 0. The two lookups agree on all such targets, and `ResolvedTarget` gives the result for both kinds. The bug shows only for targets that are not whole numbers or that lie above the last mod number.

The browser code reduces each target with JavaScript's `%`, which gives a negative target for a negative multiplier. The desktop code does not reduce at all.

## Left out

- Page start-up without a view element, `document.getElementById`, `console.log` and the resize listener (timestablegraphic.js:20-40): host I/O. The constructor models only the branch where the view exists, and stops after building the table: the first `redraw` (timestablegraphic.js:35) is `Redraw` called separately.
- SVG element creation (timestablegraphic.js:132-161): `Redraw` returns the shapes instead of appending DOM nodes. A title's text is modelled as its two numbers, not as the formatted string.
- Cosine and sine (timestablegraphic.js:76-77 and 82-83, TimesTableGraphic.java:143-150): shapes carry angles, or positions in mod-number units, not pixel coordinates. The `(int)` casts of those coordinates are left out too.
- `Math.PI`: `Tau` is the double value of `2 * Math.PI` read as an exact real. Floating-point rounding of angles and of `multiplier * modNumber` is not modelled.
- SvgGraphic.TimesTableGraphic: the multiplier is a whole number. The script fixes it at 2 and never changes it. Fractional targets are still accepted by the lookup, whose argument is a real.
- The `Timer` thread, `multiplier += 0.05`, `Thread.sleep`, `Toolkit.sync` and `interrupt` (TimesTableGraphic.java:52-62, 182): concurrency and floating-point accumulation.
- `"" + multiplier` (TimesTableGraphic.java:132): Java's double-to-string conversion is a library routine, so its text is a parameter of `Paint` and `PaintDirectly`.
- `update`, which only forwards to `paint` (TimesTableGraphic.java:87-88), the rendering hints, the `Graphics2D` assertion, `Ellipse2D`, `Frame`, `WindowAdapter` and `main` (TimesTableGraphic.java:116-124, 152-163, 174-193): UI setup.
- AwtGraphic.TimesTableGraphic.Paint: `createImage` is assumed to return an image of the requested size. In AWT it returns null for a panel that is not displayable, and the next line would then throw; that path is not modelled. `getWidth()`, `getHeight()` and whether the image already knows its size are parameters. The final `drawImage` of the buffer onto the screen is not modelled.
- AwtGraphic.Truncate: a Java string is a sequence of UTF-16 code units, and the model uses Dafny characters. They differ only for characters outside the Basic Multilingual Plane, and the multiplier's text has none.
