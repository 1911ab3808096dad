# Collision, vectors, Tiled maps and animations of a small Go game engine

This project is a Dafny model of the logic at the heart of a small 2D game
engine written in Go on top of ebiten. It covers:

- **Convex-polygon colliders.** A convexity check, constructors that compute
  a bounding box, an axis-aligned box test, and a separating-axis test along
  the edge normals of both polygons. The engine carries three copies:
  `collider.go`, `mechanism/collider.go` and `mech/collider.go`. They share
  one algorithm, modelled once in module `Collision`. Two things vary
  between the copies and are parameters: the error message, and which
  perpendicular of an edge is used as the axis. The modules `Engine`,
  `Mechanism` and `Mech` are the three files' entry points.
- **Vector algebra.** The three vector types (`vector2.go`, `r2/r2.go`, and
  golang/geo points with `r2extra/r2extra.go`) and the ebiten `GeoM` matrix
  helpers.
- **Tiled maps.** Decoding of global tile ids with their flip flags, tileset
  sub-images, `strconv.Atoi`/`ParseUint` and CSV layer parsing, the checks
  of the JSON and TMX constructors, and where each tile is drawn.
- **Image providers.** The frame animation and the still sprite.

Floating-point numbers are modelled as reals. `math.Sqrt` is a relation:
`IsSqrt(x, r)` holds for the non-negative `r` with `r * r == x`. The
functions that use a square root take it as a parameter.

A zero separating axis arises when two consecutive vertices coincide. The
source then divides 0 by 0, and every comparison with the resulting NaN is
false, so such an axis never separates the colliders. The model keeps this
behaviour: `Collision.AxisSeparates` is false for a zero axis. Zero axes are
not excluded by a precondition.

Go's integer `/` and `%` truncate toward zero and are modelled by `GoInt`.
Dafny's own operators are Euclidean. Tile ids are `bv32` words. The clock is
a parameter counted in nanoseconds. `log.Fatal` and run-time panics become
error values.

## Model

| member | source | states |
|---|---|---|
| Convexity.IsConvexIff | collider.go:18-38 | `isConvex` accepts exactly the polygons with at most three vertices and those whose cyclic turns are all strictly positive or all non-positive. |
| Convexity.TurnsMatchFromIff | collider.go:29-37 | The scan loop from index `i` succeeds iff every later turn has the baseline's strictly-positive verdict. |
| Engine.SquareIsConvex | collider_test.go:14-18 | The unit square of the test is convex. |
| Engine.ChevronIsNotConvex | collider_test.go:20-24 | The chevron of the test is not convex. |
| Engine.CounterClockwiseCollinearRejected | collider.go:27-35 | A counter-clockwise rectangle with a collinear vertex on an edge is rejected, because a zero turn is not strictly positive. |
| Engine.ClockwiseCollinearAccepted | collider.go:27-35 | The same rectangle, traversed clockwise, is accepted. |
| Collision.ScanBounds | collider.go:58-69 | The bounds loop keeps a well-formed box that contains the seed and every scanned vertex; each bound is either the seed's or attained by a scanned vertex. |
| Collision.BoundingBox | collider.go:56-69 | The computed box is well formed, contains every vertex, and each of its four bounds is attained by a vertex. |
| Collision.BoundingBoxIsSmallest | collider.go:56-69 | Any box containing all vertices contains the computed box. |
| Collision.NewCollider | collider.go:49-74 | The constructor fails exactly when the vertices are not convex, with the message and the vertices. Otherwise it keeps the vertices, has tight bounds and a centre halfway between them, and starts at the origin at rest. |
| Engine.NewCollider | collider.go:49-74 | It fails exactly when the vertices are not convex, with the message "Collider vertices were not convex." and the vertices. Otherwise it keeps the vertices, has ordered bounds, and starts at the origin at rest. |
| Engine.SegmentColliderAccepted | collider_test.go:41-44 | The two-vertex collider of the test is accepted with bounds (10,10)-(50,50) and centre (30,30). |
| Collision.GetVertexPos | collider.go:76-79 | Vertex `i` within range is that vertex moved by the position. |
| Collision.GetVertexPosWraps | collider.go:76-79 | Index `n` wraps to vertex 0, which closes the last edge. |
| Collision.BBoxCollidesSymmetric | collider.go:85-95 | The box test does not depend on the order of the colliders. |
| Collision.BBoxCollidesIffCommonPoint | collider.go:85-95 | For well-formed boxes the test passes iff the two world boxes share a point, touching boxes included. |
| Collision.BBoxRejectionSeparatesVertices | collider.go:85-95 | When the box test rejects two constructed colliders, one collider's world vertices lie strictly beyond the other's on the x or the y axis. |
| Collision.EdgeNormal | collider.go:102 | An edge's axis is zero exactly when the edge is. |
| Collision.ShadowFrom | collider.go:106-113 | The shadow loop widens the span to cover every later projection; each new bound is attained. |
| Collision.Shadow | collider.go:103-125 | A collider's shadow is the least and greatest projection of its world vertices, both attained. |
| Collision.ShadeOrder | collider.go:104-107 | Projections onto a non-zero axis are ordered as the dot products are. |
| Collision.ShadowsApartIffBelow | collider.go:127-130 | Shadows are apart in one order iff every vertex of one collider lies strictly before every vertex of the other along the axis. |
| Collision.AxisSeparatesIff | collider.go:127-130 | The overlap test on one axis holds iff the axis is non-zero and strictly separates the vertex sets, in one order or the other. |
| Collision.SatFrom | collider.go:101-131 | The edge loop from edge `i` succeeds iff no later edge's axis separates. |
| Collision.SatCollides | collider.go:97-133 | `satCollides` holds iff no edge of the first collider splits the two. |
| Collision.Collides | collider.go:135-144 | `Collides` implies the box test, and holds iff the box test passes and no edge of either collider splits them. |
| Collision.CollidesSymmetric | collider.go:135-144 | The verdict does not depend on the order of the colliders. |
| Collision.BelowNeg | collider.go:127-130 | Reversing an axis reverses which collider lies before the other. |
| Collision.AxisRulesOpposite | mech/collider.go:141 | The counter-clockwise axis of every edge is the clockwise one negated. |
| Collision.CollidesRuleIndependent | mech/collider.go:135-193 | The clockwise and counter-clockwise perpendiculars give the same verdict. |
| Collision.Translate | collider.go:76-79 | Moving a collider moves every world vertex by the same offset. |
| Collision.BelowTranslate | collider.go:104-125 | A common offset does not change which collider lies before the other. |
| Collision.AxisTranslate | collider.go:102 | A collider's edge axes do not depend on its position. |
| Collision.EdgeSplitsTranslate | collider.go:101-131 | A common offset does not change whether an edge splits the colliders. |
| Collision.CollidesTranslationInvariant | collider.go:135-144 | Moving both colliders by the same offset leaves the verdict unchanged. |
| Collision.EdgeSplitsSamePlacement | collider.go:97-133 | Whether an edge splits depends only on vertices and position. |
| Collision.CollidesSamePlacement | collider.go:135-144 | The verdict depends only on the vertices, bounds and positions, not on centre or velocity. |
| Collision.SharedVertexCollides | collider.go:135-144 | Two constructed colliders with a common world vertex always collide. |
| Mechanism.NewCollider | mechanism/collider.go:62-88 | This copy's constructor fails iff the vertices are not convex, with the same message. Otherwise it yields a constructed collider with ordered bounds, at the origin and at rest. |
| Mechanism.Blur | mechanism/collider.go:106-108 | `Blur` returns the zero collider whatever its input; it has no vertices and is not a constructed collider. |
| Mechanism.Collides | mechanism/collider.go:130-178 | Colliders whose boxes are apart never collide. Two colliders with vertices collide iff the boxes meet and no edge of either splits them, using the clockwise axis. Two without vertices collide iff the boxes meet. When exactly one has vertices and the boxes meet, `GetVertexPos(0)` on the other panics. |
| Mechanism.BlurredCollides | mechanism/collider.go:106-108 | A blurred collider misses every collider whose world box leaves out the origin. It meets an empty one that covers the origin, and panics against any other. |
| Mechanism.WillCollide | mechanism/collider.go:182-186 | The velocity sums are discarded, so the outcome, panic included, is that of the same colliders at rest. Colliders whose boxes are apart never collide. |
| Mechanism.WillCollideIgnoresMotion | mechanism/collider.go:182-186 | The verdict is the same for any velocities and any number of time steps. |
| Mechanism.CollidesSymmetric | mechanism/collider.go:130-178 | The outcome, panic included, does not depend on the order of the colliders. |
| Mech.NewPolyCollider | mech/collider.go:77-103 | This copy's constructor fails iff the vertices are not convex, with the message "PolyCollider vertices were not convex.". Otherwise it keeps the vertices and starts at the origin at rest. |
| Mech.Collides | mech/collider.go:175-193 | A polygon value gets the collision verdict computed with the counter-clockwise axis. Any other dynamic type is fatal with "fixme". |
| Mech.WillCollide | mech/collider.go:197-211 | It ignores motion and agrees with `Collides`, including the fatal case. |
| Mech.ConstructedPointerIsFatal | mech/collider.go:189-191 | The constructor returns a pointer, and a pointer passed as the other collider is fatal. |
| Mech.CollidesAgreesWithClockwise | mech/collider.go:141 | Using `Ortho` instead of `Orthogonal` does not change any verdict. |
| Mech.CollidesSymmetric | mech/collider.go:175-193 | The verdict for two polygon values does not depend on their order. |
| R2.Add | r2/r2.go:75-77 | Subtracting the second operand from the sum gives back the first. |
| R2.Sub | r2/r2.go:79-81 | Adding back the subtrahend gives the minuend. |
| R2.Scale | r2/r2.go:83-85 | Scaling by 1 is the identity and by 0 gives the zero vector. |
| R2.Orthogonal | r2/r2.go:95-97 | The quarter turn is zero exactly for the zero vector. |
| R2.OrthogonalPerpendicular | r2/r2.go:95-97 | The quarter turn is perpendicular to its input and keeps its squared length. |
| R2.OrthogonalTwiceNegates | r2/r2.go:91-97 | Two quarter turns negate a vector, and the dot product with a quarter turn is the cross product. |
| R2.CrossAntisymmetric | r2/r2.go:91-93 | The cross product is antisymmetric and zero for a vector with itself. |
| R2.AddSubRoundTrip | r2/r2.go:75-81 | Adding and subtracting the same vector undo each other. |
| R2.SqrtUnique | r2/r2.go:50-52 | The square root `Magnitude` takes is unique. |
| R2.MagnitudeZeroIff | r2/r2.go:50-52 | The magnitude is zero exactly for the zero vector. |
| R2.ZeroMagnitude | r2/r2.go:67-71 | The square root of zero is zero. |
| R2.Normalize | r2/r2.go:67-73 | `Normalize` maps zero to zero, and any other vector to a positive multiple of it with unit length. |
| R2.ProjectOntoMagnitude | r2/r2.go:99-102 | The projection magnitude times `Dot(a, a)` is `Dot(v, a)`. |
| R2.PositiveSquare | r2/r2.go:99-102 | A non-zero axis has a positive squared length, so the division is defined. |
| R2.ProjectOnto | r2/r2.go:104-107 | The projection is a multiple of the axis, and what is left of `v` is orthogonal to the axis. |
| R2.ProjectOntoMagnitudeAdditive | r2/r2.go:99-102 | Projection magnitude is additive in the projected vector. |
| R2.ProjectOntoMagnitudeOrder | r2/r2.go:99-102 | Projection magnitudes are ordered as the dot products are. |
| R2.ProjectOntoMagnitudeNeg | r2/r2.go:99-102 | Projecting onto the reversed axis negates the magnitude. |
| R2.RotatedQuarter | r2/r2.go:12-40 | The unfinished rotation negates the four linear entries and copies the translation. |
| R2.RotatedQuarterIsHalfTurnOfInput | r2/r2.go:12-40 | The result maps each point to where the input maps its reflection through the origin: a half turn, not a quarter turn. |
| R2.RotatedQuarterInvolution | r2/r2.go:12-40 | Applying it twice gives back the matrix. |
| Vector2.SquaredLength | vector2.go:15-17 | The sum of the squared components is the dot product of the vector with itself, which is never negative. |
| Vector2.MagnitudeProperties | vector2.go:15-17 | The magnitude is non-negative and zero exactly for the zero vector. |
| Vector2.AddCommutative | vector2.go:40-42 | Addition is componentwise and commutative. |
| Vector2.ScaleIdentities | vector2.go:44-46 | Scaling is componentwise, with 1 the identity and 0 giving zero. |
| Vector2.Normalize | vector2.go:32-38 | `Normalize` divides by the square root of the magnitude. It maps zero to zero, and any other vector to a positive multiple whose squared length is the original magnitude, which is 1 only for a vector that was already a unit vector. |
| Vector2.ScaledDot | vector2.go:32-38 | Dividing by that root leaves a squared length equal to the magnitude. |
| R2Extra.Ortho | mech/collider.go:141 | golang/geo's quarter turn is zero exactly for the zero vector. |
| R2Extra.OrthoPerpendicular | mech/collider.go:141 | `Ortho` is `Orthogonal` negated, perpendicular to its input, and turns counter-clockwise. |
| R2Extra.RotatedQuarter | r2extra/r2extra.go:15-24 | Row 0 of the result is row 1 of the input negated, and row 1 is row 0. |
| R2Extra.RotatedQuarterRotatesImage | r2extra/r2extra.go:14-24 | The result maps every point to the counter-clockwise quarter turn of where the input maps it. |
| R2Extra.RotatedQuarterTwiceNegates | r2extra/r2extra.go:14-24 | Two applications negate every entry. |
| R2Extra.RotatedQuarterFourTimes | r2extra/r2extra.go:14-24 | Four applications give back the matrix. |
| R2Extra.ProjectOntoMagnitude | r2extra/r2extra.go:33-36 | The magnitude times `Dot(op, op)` is `Dot(p, op)`. |
| R2Extra.ProjectOntoMagnitudeOfMultiple | r2extra/r2extra.go:33-36 | A multiple `k` of the axis has projection magnitude `k`. |
| R2Extra.ProjectOnto | r2extra/r2extra.go:38-41 | The projection is parallel to the axis, and the remainder is orthogonal to it. |
| R2Extra.ProjectOntoIdempotent | r2extra/r2extra.go:38-41 | Projecting a projection changes nothing. |
| GoInt.Quo | tiled/tileset.go:151 | Go's `/` agrees with Euclidean division on non-negative operands; its magnitude is the quotient of magnitudes; a non-zero quotient is positive iff the operands have the same sign. |
| GoInt.Rem | tiled/tileset.go:150 | Go's `%` completes `a == b * (a / b) + a % b`, agrees with the Euclidean remainder on non-negative operands, is smaller than `b` in magnitude, and has the sign of `a`. |
| Tilesets.Rect | tiled/tileset.go:152 | `image.Rect` orders its corners and keeps the same coordinates. |
| Tilesets.SubRect | tiled/tileset.go:149-153 | The sub-image starts at the tile's grid origin and is `tileWidth` wide and also `tileWidth` high. |
| Tilesets.SubRectHeightIsTileWidth | tiled/tileset.go:152 | The sub-image has the tile's height only when tiles are square. |
| Tilesets.SubRectWithinColumns | tiled/tileset.go:149-153 | The sub-image of a non-negative id lies within the tileset's columns. |
| Tilesets.TileOriginRecoversId | tiled/tileset.go:150-151 | The tile id can be recovered from the pixel origin of its sub-image. |
| TileGid.DecodeGid | tiled/map.go:36-39 | Bits 31, 30 and 29 are the flip flags. The local id plus one is the low 29 bits, wrapping to `0xFFFFFFFF` for an empty cell. |
| TileGid.EncodeGid | tiled/map.go:36-39 | Encoding puts the local id plus one in the low 29 bits. |
| TileGid.EncodeDecode | tiled/map.go:36-39 | Encoding a decoded id gives back the id. |
| TileGid.DecodeEncode | tiled/map.go:36-39 | Decoding an encoded tile gives back the tile. |
| TileGid.FlagsDoNotMoveLocalId | tiled/map.go:36 | Setting or clearing flag bits never changes the local id. |
| TileGid.EmptyCellWraps | tiled/map.go:36-39 | Gid 0, an empty cell, decodes to local id `0xFFFFFFFF` with no flags. |
| Decimal.ScanFrom | tiled/map.go:161 | The digit loop never exceeds the maximum and never goes below the value so far. |
| Decimal.ScanFromValue | tiled/map.go:161 | The digit loop succeeds iff the rest is all digits and the value fits; it then yields the decimal value. |
| Decimal.ValuePrefixMonotone | tiled/map.go:161 | A prefix of a digit string never has a larger value than the whole string. |
| Decimal.ParseUint | tiled/map.go:161 | `ParseUint` succeeds iff the input is non-empty, all digits and within the maximum, and it then yields the decimal value. An all-digit input that is too large is a range error. |
| Decimal.ScanFromRangeOnly | tiled/map.go:161 | On an all-digit input the only possible error is a range error. |
| Decimal.NonDigitIsSyntaxError | tiled/map.go:161 | A non-digit reached before any overflow is a syntax error. |
| Decimal.ScanToNonDigit | tiled/map.go:161 | The digit loop stops at such a non-digit with a syntax error. |
| Decimal.Format | tiled/map.go:161 | The shortest decimal form: non-empty, all digits, no leading zero. |
| Decimal.ValueOfFormat | tiled/map.go:161 | Parsing the decimal form of `n` gives back `n`. |
| Decimal.Atoi | tiled/map.go:175-182 | `Atoi` succeeds iff after an optional sign the input is non-empty digits within the 64-bit `int` range (one more when negative). It yields the signed value. |
| TiledMap.Split | tiled/map.go:156 | `strings.Split` on commas yields one more field than there are commas. No field contains a comma, and joining the fields with commas gives back the input. |
| TiledMap.SplitJoin | tiled/map.go:156 | Splitting comma-free fields joined with commas gives back the fields. |
| TiledMap.RemoveNewlines | tiled/map.go:192 | The result has no line feed and keeps every other character. It is the identity on text without line feeds. |
| TiledMap.RemoveNewlinesConcat | tiled/map.go:192 | Removing line feeds distributes over concatenation. |
| TiledMap.FieldValue | tiled/map.go:161-165 | An accepted field is all digits, and its stored word is its decimal value. |
| TiledMap.ParseFields | tiled/map.go:157-167 | The loop succeeds iff every field parses, giving one word per field in order, each the field's decimal value. Otherwise the result is the error of the first failing field, all earlier fields having parsed. |
| TiledMap.ParseIntCsv | tiled/map.go:155-168 | A successful parse has one value per comma-separated field. |
| TiledMap.ParseFormatCsv | tiled/map.go:155-168 | Every list of 32-bit values written as decimal CSV parses back to itself. |
| TiledMap.StrayCharacterIsFatal | tiled/map.go:155-168 | Any character other than a digit, comma or line feed in the layer data is fatal. |
| TiledMap.EmptyDataIsFatal | tiled/map.go:155-168 | Empty layer data is one empty field, a syntax error. |
| TiledMap.NewMapFromJson | tiled/map.go:90-106 | A map with no tilesets is fatal with "no tilesets". Otherwise one with no layers is fatal with "no layers (data)". Otherwise it keeps the first tileset, the first layer and the size. |
| TiledMap.NewMapFromTmx | tiled/map.go:170-192 | It succeeds iff both sizes pass `Atoi`, a tileset and a layer exist, and the first layer's data without line feeds parses as CSV. A width error comes first, then a missing tileset. The result keeps the parsed sizes and data. |
| TiledMap.TilePixelInsideImage | tiled/map.go:52 | Each of the `width * height` cells is drawn entirely inside the map image of `width * tileWidth` by `height * tileHeight` pixels. |
| TiledMap.PlaceTile | tiled/map.go:31-53 | One tile's decoded reference encodes back to its global ID. Its image is the tileset rectangle of its local id, and its pixel is that of its grid cell. |
| TiledMap.Placements | tiled/map.go:31-55 | There is one placement per tile of the layer, in order. Each decoded tile encodes back to the layer's global ID. Its image is the tileset rectangle of its local id, and it sits at the pixel of its grid cell. |
| TiledMap.TilePixelInjective | tiled/map.go:52 | With positive tile sizes, two indices drawn at the same pixel are the same index. |
| TiledMap.PlacementsInsideImage | tiled/map.go:31-55 | When the layer has at most `width * height` tiles, every tile is drawn entirely inside the map image. |
| TiledMap.PlacementsDistinct | tiled/map.go:31-55 | With positive tile sizes, no two tiles of the layer are drawn at the same pixel. |
| ImageProvider.GetImage | image_provider.go:25-32 | A valid animation never panics, and the shown image is the current frame. Before the frame duration has passed nothing changes. After it the frame advances by one, cyclically, and the time is recorded. An animation without images panics. |
| ImageProvider.NewAnimationFromSheet | image_provider.go:37-39 | The sheet constructor yields an animation with no images. |
| ImageProvider.SheetAnimationPanics | image_provider.go:25-39 | Asking it for an image always panics. |
| ImageProvider.NewAnimationFromFolder | image_provider.go:41-60 | The folder animation starts at frame 0 at the creation time, and is usable iff the folder held an image. |
| ImageProvider.FolderAnimationStart | image_provider.go:25-60 | It shows its first image until the frame duration has passed, then the second. |
| ImageProvider.Run | image_provider.go:25-32 | Repeated calls keep a valid animation valid and show one image per call. |
| ImageProvider.SpacedRunCycles | image_provider.go:27-31 | Calls spaced more than a frame duration apart step through the frames cyclically: after `k` calls the frame is `k` further on, modulo the frame count. |
| ImageProvider.FullCycleReturns | image_provider.go:27-31 | As many spaced calls as there are frames return to the starting frame. |
| ImageProvider.IdleRunHolds | image_provider.go:27-31 | Calls within the frame duration change nothing and keep showing the current frame. |
| ImageProvider.ProviderImage | image_provider.go:12-71 | Through the interface, a sprite always yields its image unchanged, and an animation behaves as its own `GetImage`. |

## Left out

- I/O is not modelled: reading `.json`, `.tmx`, `.tsx` files and image folders. The decoded contents (`MapJson`, `MapTmx`, the folder's images in directory order) are parameters.
- `NewTilesetFromJSON`/`NewTilesetFromTSX` are not modelled; tileset loading is I/O plus `Atoi` on each field (`Decimal.Atoi` covers that). The map keeps the first tileset's source path instead.
- Rendering is not modelled: `ebiten.NewImage`, `DrawImage`, and the `GeoM` translate/rotate/scale chain that applies the flip flags in `getTileImageAndOpts`. Only each tile's grid position and sub-image rectangle are modelled.
- Floating-point rounding, NaN and infinities are not modelled; reals stand for `float64`. The NaN of a zero separating axis is modelled by its effect, which is that the axis never separates.
- `Angle`, `String`, `ApproxEqual` and `ErrNotConvex.Error` are formatting or floating-point tolerance and are left out.
- input.go, entity.go, level.go and situation.go are not part of this model. Neither are the interactive collider test and `AABBCollider`.
- golang/geo's source is not modelled; `Point.Ortho` is taken to be the counter-clockwise quarter turn (-y, x) that the library documents.
- The wall clock (`time.Now`, `time.Since`) is a parameter. One `now` stands for both reads in `GetImage`, so the time between the `time.Since` check and the `time.Now` store is not modelled. `time.Duration` overflow is not modelled.
- Go's `strconv.Quote` escaping in number-error messages is not modelled (`Decimal.ErrorText` shows the input between plain quotes).
- The type-assertion failure in mech/collider.go cannot happen once the type switch has matched, and is left out.
- Collision.NewCollider: requires at least one vertex. With none, `isConvex` passes and the source panics indexing `vertices[0]`.
- Engine.NewCollider: requires at least one vertex, for the same reason as Collision.NewCollider (collider.go:56 dereferences `vertices[0]`).
- Mechanism.NewCollider: requires at least one vertex. With none, mechanism/collider.go:70 panics dereferencing `vertices[0]`.
- Mech.NewPolyCollider: requires at least one vertex. With none, mech/collider.go:85 panics dereferencing `vertices[0]`.
- R2.ProjectOntoMagnitude: requires a non-zero axis. With a zero axis the float division yields NaN, which reals cannot represent.
- R2Extra.ProjectOntoMagnitude: requires a non-zero axis, for the same reason.
- R2.ProjectOnto: requires a non-zero axis. With a zero axis the magnitude is NaN and so is the scaled result, which reals cannot represent.
- R2Extra.ProjectOnto: requires a non-zero axis, for the same reason.
- Tilesets.SubRect: requires a non-zero column count. With zero, `localTileID % ts.numCols` panics (tiled/tileset.go:150), which is not modelled as an outcome here.
- TiledMap.Placements: requires a non-zero map width and column count. With zero the source's `%` panics, which is not modelled as an outcome here.
- Go's 64-bit `int` wrap-around in the tile arithmetic (`tileNum % width * tileWidth`, `width * height`, the sub-image corners) is not modelled. Sizes are assumed not to overflow, and `int(localID)` assumes a 64-bit `int`.
- The constructors copy the vertices. The source keeps the caller's slice and its `*r2.Vector` pointers, so a later change through them would also move the collider. Nil vertex pointers are not modelled either.
- Collision.Collides: requires vertices on both colliders. The empty cases are modelled in `Mechanism.Collides`.
- Collision.GetVertexPos: takes a non-negative index and requires at least one vertex. For a negative `i` that is not a multiple of the length, the source's index `Vertices[i%len]` is negative and panics (a multiple gives vertex 0); every caller passes a non-negative index. On an empty collider the source's `i % 0` panics, and `Mechanism.Collides` models that panic as an outcome.
- Mech.Collides: requires a `PolyCollider` with vertices on both sides. `NewPolyCollider` never returns one without vertices, but a caller can build or empty one, since `Vertices` is exported. The empty cases, panic included, would follow `Mechanism.Collides` and are not repeated here.
- Mech.WillCollide: requires vertices on both sides, for the same reason.
