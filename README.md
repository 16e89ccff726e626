# Rawbots: OBJ model loader and terrain grid in Dafny

This project models two parts of the Rawbots robot game.

**The Wavefront OBJ loader (`OBJModel`).**
- `Load` reads a mesh file character by character. It dispatches on the first character of each line:
  - `g` starts a face group;
  - `v`, `vt` and `vn` add to the position, texture-coordinate and normal pools;
  - `f` adds a face to the current group;
  - `mtllib` loads a material library;
  - `usemtl` binds a material to the current group.
- Every face index goes through the `Assertion` check. Positions are checked against the position pool, and texture-coordinate and normal indices against their own pools. The exception is the fourth index of a `v/t` or `v//n` quad, which is checked against the position pool.
- Loaded models are kept in a process-wide cache by file name.
- `Render` walks the groups and makes OpenGL calls.

**The terrain (`Terrain`).** A width × height grid of tiles plus a collision map of the same size, with one byte per cell saying whether the cell's tile is collideable.

## Modules

The modules follow the structure of the original:

- **`ObjText`:** the text primitives the loader relies on:
  - `StreamReader.ReadLine`, which ends a line at `\n`, `\r` or `\r\n`;
  - `String.Split` with `RemoveEmptyEntries`;
  - `uint.TryParse`, including the white space and the trailing `'\0'` characters it accepts around a number;
  - the loop that rebuilds the directory of the model's absolute path.
- **`ObjFace`:** the `Face` record and the unsigned `- 1` its constructor applies. Also the reading of one `f` line in each of the four grammars (`v`, `v/t`, `v//n`, `v/t/n`) and the `Assertion` index check, taken in the order the loader makes the checks.
- **`ObjParser`:** the loader's loop as functions on values. `StepLine` is one iteration and `ParseFrom` runs to the end of the text. The module also holds lemmas about what each kind of line does, and the model invariant every load preserves.
- **`ObjRender`:** what `Render` draws, as a trace of calls (`Trace`) that ends early when a call throws. Lemmas cover:
  - balance of `Begin`/`End` and `Enable`/`Disable`;
  - no texture calls while texturing is off;
  - exactly when rendering throws.
- **`ObjModel`:** the imperative objects.
  - `FaceGroup` is a class.
  - `OBJModel` is a class whose fields are the lists the loader fills in place.
  - `ModelCache` stands for the static `models` dictionary.
  - Every method is proved against the functions of `ObjParser` and `ObjRender`, through the abstraction `Abs()` of the object graph.
- **`Terrain`:** `Terrain` and `ByteMap` as classes over two-dimensional arrays, updated in place by nested loops.
- **`Wrappers`:** `Option` and `Result`.

## How the model treats the original

- **Errors.** An exception the loader would throw becomes a `LoadError`. The cases are:
  - an index out of bounds;
  - a line with fewer tokens than are read;
  - `ReadLine` returning null at the end of the stream;
  - `Remove(0, 1)` on an empty `g` line;
  - a face or `usemtl` binding while there is no current group;
  - a missing file or material library.

  A load stops at its first failure, as the original does.
- **Render faults.** A render call that would throw also ends the trace with `faulted`. This happens for `listFace[0]` of an empty group, a null index array, or an index outside a pool.
- **Unsigned indices.** Indices are 32-bit unsigned: `0 - 1` is `UIntMax`. When `Render` casts an index to `int`, anything above `IntMax` turns negative and faults the lookup.
- **Terrain faults.** `SetTile` at coordinates outside the grid returns `faulted` and changes nothing, where the original throws `IndexOutOfRangeException` on the array write.

### Where the code departs from the intended design

The model follows the code, which does the following:

- **Quads.** A face is a quad exactly when its token count divided by 3 is 4, that is when the line has 12 to 14 tokens (`TokensFace`). This is the same division in all four grammars, whatever their number of tokens per corner.
  - `f 1 2 3 4` without texture coordinates or normals reads the triangle 1, 2, 3 (`BareFourIndexLineIsTriangle`).
  - With exactly four complete corners, only a `v/t/n` line is a quad (`FourCornersQuadOnlyWithAllThree`). A `v/t`, `v//n` or bare line is a quad only when it has 12 to 14 tokens.
  - A line with fewer tokens than its corners need (tokens per corner × corner count) fails with `MissingToken` (`RawFromTokens`). Tokens beyond that are ignored.
- **Index bounds.** An index equal to the pool size passes the check, because `Assertion` fails only on `row > col` (`IndexAtPoolSizeAccepted`). `Render` then faults on that index (`BoundaryIndexLoadsButFaults`).
- **`usemtl`.** `usemtl` binds the last material with the name, not the first: the loop does not stop at a match.
- **The fourth corner.** In the `v/t` and `v//n` grammars, the fourth texture-coordinate or normal index is checked against the position pool (lines 316 and 358).
- **Faces before any group.** A face line before any `g` line throws (`NoCurrentGroup`). It does not create a default group.

## Model

| member | source | states |
|---|---|---|
| ObjText.ReadLine | Rawbots/Utility/OBJModel.cs:171-176 | the line read from a position is the text up to the next `\n`, `\r` or end of text, with no break inside it; reading resumes after `\n`, `\r` or `\r\n`; there is no line (null) exactly at the end of the text |
| ObjText.SplitTokens | Rawbots/Utility/OBJModel.cs:177 | every token `Split` returns is non-empty and holds no separator, and the tokens concatenated are the line with its separators removed |
| ObjText.SplitJoin | Rawbots/Utility/OBJModel.cs:177 | non-empty, separator-free tokens joined by a single separator split back into exactly those tokens |
| ObjText.JoinSplitAll | Rawbots/Utility/OBJModel.cs:139 | the pieces of `Split(sep)` hold no separator and joined with the separator give back the absolute path |
| ObjText.TerminatedJoin | Rawbots/Utility/OBJModel.cs:141-142 | appending every piece but the last, each followed by the separator, and then the last piece, is the whole join |
| ObjText.DirectoryPrefix | Rawbots/Utility/OBJModel.cs:137-142 | the `+=` loop yields the longest prefix of the absolute path that is empty or ends in the separator, i.e. its directory |
| ObjText.ParseUInt | Rawbots/Utility/OBJModel.cs:234 | `uint.TryParse` yields a value in the 32-bit unsigned range |
| ObjText.TrailingNulsIgnored | Rawbots/Utility/OBJModel.cs:234 | `'\0'` characters after a number are ignored: the number is read as if they were not there |
| ObjText.ForeignCharParsesToZero | Rawbots/Utility/OBJModel.cs:234 | a token holding a character that is not a digit, white space or `+` (a `-` sign, a letter, a decimal point, or a `'\0'` in a token that does not end in `'\0'`) reads as 0 |
| ObjText.OverflowParsesToZero | Rawbots/Utility/OBJModel.cs:234 | a number above UIntMax reads as 0 |
| ObjText.ParseDecimal | Rawbots/Utility/OBJModel.cs:234 | the decimal spelling of any unsigned 32-bit value parses back to that value |
| ObjFace.Dec | Rawbots/Utility/OBJModel.cs:47-52 | the decremented index plus one is the source index modulo 2^32, and 0 wraps to UIntMax |
| ObjFace.DecAll | Rawbots/Utility/OBJModel.cs:57-73 | every element of an index array is decremented in unsigned arithmetic |
| ObjFace.NewFace | Rawbots/Utility/OBJModel.cs:42-75 | `isQuad` iff four positions; each stored index array has the source array's length and each element is its source index minus 1 mod 2^32; an array is present iff its source array is non-null |
| ObjFace.RawFromTokens | Rawbots/Utility/OBJModel.cs:225-375 | a face line's array is filled iff it has at least stride × corners tokens; it carries texture-coordinate (normal) indices iff the grammar reads them; corner j's position is the parsed token stride × j |
| ObjFace.RawFromTokensColumns | Rawbots/Utility/OBJModel.cs:225-375 | corner j's texture coordinate is the parsed token stride × j + 1, and its normal the token stride × j + 2 in `v/t/n` and stride × j + 1 in `v//n` |
| ObjFace.Assertion | Rawbots/Utility/OBJModel.cs:434-438 | the check throws exactly when `row > col`, with the path, both numbers and the line number |
| ObjFace.FirstFailure | Rawbots/Utility/OBJModel.cs:257-276 | the checks of a line pass iff none fails; otherwise the error is that of the first failing check |
| ObjFace.AgainstPass | Rawbots/Utility/OBJModel.cs:257-262 | the checks of one column against one pool pass iff every index is at most the pool size |
| ObjFace.ColumnPass | Rawbots/Utility/OBJModel.cs:311-316 | a texture-coordinate or normal column passes iff its first three indices are within its pool and the fourth within the pool it is compared with |
| ObjFace.ChecksMeanChecked | Rawbots/Utility/OBJModel.cs:257-276 | all checks of a face line pass iff the face built from it satisfies `Checked` for the current pool sizes |
| ObjFace.FaceLine | Rawbots/Utility/OBJModel.cs:217-386 | one `f` line, read in the grammar its variant selects: the face it adds or the first failure; its meaning is stated by `FaceLineAccepts`, `FaceLineErrors`, `FaceLineShape` and `FaceLineMeaning` |
| ObjFace.FaceLineAccepts | Rawbots/Utility/OBJModel.cs:217-385 | a face line is accepted iff it has enough tokens and every decremented index is at most the size of the pool it is checked against; the accepted face is the constructor applied to the parsed indices |
| ObjFace.FaceLineErrors | Rawbots/Utility/OBJModel.cs:217-385 | a rejected face line fails only by a missing token or by an out-of-bounds index whose row exceeds its column |
| ObjFace.TokensFace | Rawbots/Utility/OBJModel.cs:225-255 | the face built from a line with enough tokens has the arrays its grammar reads, all of one length; it is a quad iff the line has 12 to 14 tokens; each position is its parsed token minus one, mod 2^32 |
| ObjFace.FaceLineShape | Rawbots/Utility/OBJModel.cs:225-231 | an accepted face has the arrays its grammar reads, all of one length, and is a quad iff the line has 12 to 14 tokens |
| ObjFace.FaceLineMeaning | Rawbots/Utility/OBJModel.cs:217-385 | the acceptance, error and shape facts of a face line together |
| ObjFace.FourCornersQuadOnlyWithAllThree | Rawbots/Utility/OBJModel.cs:285-286 | with four complete corners the face is a quad iff the grammar is `v/t/n` |
| ObjFace.ZeroIndexRejected | Rawbots/Utility/OBJModel.cs:257 | a position index that reads as 0 (the token `0`, or one that does not parse: `ForeignCharParsesToZero`, `OverflowParsesToZero`) wraps to UIntMax and always fails the load |
| ObjFace.BareFourIndexLineIsTriangle | Rawbots/Utility/OBJModel.cs:366-379 | `f 1 2 3 4` with four positions and neither flag set is the triangle [0, 1, 2] |
| ObjFace.IndexAtPoolSizeAccepted | Rawbots/Utility/OBJModel.cs:377-379 | with four positions, `f 1 2 5` is accepted as [0, 1, 4] |
| ObjFace.IndexPastPoolSizeRejected | Rawbots/Utility/OBJModel.cs:377-379 | with four positions, `f 1 2 6` fails with IndexOutOfBounds 5 > 4 at that line |
| ObjParser.GroupLine | Rawbots/Utility/OBJModel.cs:153-167 | the `g` handler: `Remove(0, 1)` on the rest of the line, `default` ignored, any other name a new current group; stated by `GroupLineEffect` |
| ObjParser.AttrLine | Rawbots/Utility/OBJModel.cs:173-210 | the rest of a `v`, `vt` or `vn` line split into tokens, of which the first k are kept, or MissingToken; stated by `PositionLine`, `TexCoordLine` and `NormalLine` |
| ObjParser.VertexLine | Rawbots/Utility/OBJModel.cs:168-216 | the `v` handler, dispatching on the next character to a position, texture coordinate or normal, or discarding the line; stated by `PositionLine`, `TexCoordLine`, `NormalLine` and `VertexLineKeeps` |
| ObjParser.FaceLineAt | Rawbots/Utility/OBJModel.cs:217-386 | the `f` handler: the face `FaceLine` reads, added to the current group; stated by `FaceLineEffect` and `FaceLineKeeps` |
| ObjParser.MtllibLine | Rawbots/Utility/OBJModel.cs:387-392 | the `m` handler: the library at relativePath + the second token becomes the material list; stated by `MtllibLineEffect` |
| ObjParser.UseMaterial | Rawbots/Utility/OBJModel.cs:406-415 | the material loop of `usemtl`: every exact match bound in turn to the current group; stated by `LastMatch` and `UsemtlEffect` |
| ObjParser.UsemtlLine | Rawbots/Utility/OBJModel.cs:393-416 | the `u` handler: six characters skipped, the rest of the line split, the material loop run; stated by `UsemtlEffect` and `UsemtlLineKeeps` |
| ObjParser.ParseFrom | Rawbots/Utility/OBJModel.cs:149-424 | the read loop from a position to the end of the stream, stopping at the first failure; stated by `ParseKeepsInvariant`, `WithoutVtNoTexCoords` and `WithoutVnNoNormals` |
| ObjParser.Parse | Rawbots/Utility/OBJModel.cs:144-149 | the read loop from its start state: line number 1 and no material list; stated by `ParseKeepsInvariant` and `WithoutVtVnBareFaces` |
| ObjParser.LastMatch | Rawbots/Utility/OBJModel.cs:408-414 | the material the `usemtl` loop leaves bound is the last one with exactly that name; there is none iff no name matches |
| ObjParser.StepLine | Rawbots/Utility/OBJModel.cs:149-424 | every iteration that does not throw moves forward in the text and counts one line |
| ObjParser.PositionLine | Rawbots/Utility/OBJModel.cs:173-183 | a `v` line followed by a space or tab appends exactly one three-token position and changes nothing else |
| ObjParser.TexCoordLine | Rawbots/Utility/OBJModel.cs:185-196 | a `vt` line appends exactly one two-token texture coordinate, sets HasTexCoords and changes nothing else |
| ObjParser.NormalLine | Rawbots/Utility/OBJModel.cs:198-210 | a `vn` line appends exactly one three-token normal, sets HasNormals and changes nothing else |
| ObjParser.GroupLineEffect | Rawbots/Utility/OBJModel.cs:153-166 | `g default` changes nothing; any other `g` line appends one empty group with the rest of the line as its name, makes it current and leaves the pools and flags alone |
| ObjParser.FaceLineEffect | Rawbots/Utility/OBJModel.cs:217-385 | an `f` line needs a current group and appends one face, shaped for the grammar of the current flags and checked against the current pools, to that group only; nothing else changes |
| ObjParser.MtllibLineEffect | Rawbots/Utility/OBJModel.cs:387-392 | an `mtllib` line makes the library at relativePath + its second token the current material list and leaves the model alone; it fails with EndOfStream at the end of the text, MissingToken with fewer than two tokens, and LibraryNotFound for a path with no library |
| ObjParser.UsemtlEffect | Rawbots/Utility/OBJModel.cs:393-416 | `usemtl` is a no-op without a loaded list or a matching name; otherwise only the current group's material changes, to the last match |
| ObjParser.VertexLineKeeps | Rawbots/Utility/OBJModel.cs:168-216 | `v`/`vt`/`vn` lines keep the model invariant and only grow the model |
| ObjParser.FaceLineKeeps | Rawbots/Utility/OBJModel.cs:217-385 | `f` lines keep the model invariant and only grow the model |
| ObjParser.UsemtlLineKeeps | Rawbots/Utility/OBJModel.cs:393-416 | `usemtl` lines keep the model invariant and only grow the model |
| ObjParser.GroupLineKeeps | Rawbots/Utility/OBJModel.cs:153-166 | `g` lines keep the model invariant and only grow the model |
| ObjParser.PoolsGrowKeepInvariant | Rawbots/Utility/OBJModel.cs:183-208 | adding pool entries keeps every stored face within bounds |
| ObjParser.StepKeepsInvariant | Rawbots/Utility/OBJModel.cs:149-424 | every iteration keeps the invariant (the current group is a group; every face is well shaped and passes its checks against the pools) and only grows the model |
| ObjParser.ParseKeepsInvariant | Rawbots/Utility/OBJModel.cs:149-424 | a whole load keeps the invariant; pools are only appended to, flags never return to false, and groups are never removed, renamed or shortened |
| ObjParser.StepWithoutVt | Rawbots/Utility/OBJModel.cs:185-196 | in a text without the pair `vt`, an iteration never sets HasTexCoords nor stores texture-coordinate indices |
| ObjParser.WithoutVtNoTexCoords | Rawbots/Utility/OBJModel.cs:225-385 | a whole load of a text without `vt` yields no texture coordinates flag and no face with texture-coordinate indices |
| ObjParser.StepWithoutVn | Rawbots/Utility/OBJModel.cs:198-210 | in a text without the pair `vn`, an iteration never sets HasNormals nor stores normal indices |
| ObjParser.WithoutVnNoNormals | Rawbots/Utility/OBJModel.cs:225-385 | a whole load of a text without `vn` yields no normals flag and no face with normal indices |
| ObjParser.WithoutVtVnBareFaces | Rawbots/Utility/OBJModel.cs:225-385 | a file with neither `vt` nor `vn` lines loads with both flags off and every face carrying position indices only |
| ObjRender.Lookup | Rawbots/Utility/OBJModel.cs:476-553 | `pool[(int)arr[k]]`: absent for a null array, a short array, an index that is negative as an int, or one past the pool; stated by `FaceFaults` and `DrawableFaces` |
| ObjRender.CornerTrace | Rawbots/Utility/OBJModel.cs:476-492 | one corner: texture coordinate when the model has any, normal when it has any, then position, each faulting when its lookup fails; stated by `FaceFaults` and `FacesAreVertexCalls` |
| ObjRender.CornersTrace | Rawbots/Utility/OBJModel.cs:474-494 | the first n corners of a face in order, stopping at the first fault; stated by `FacesAreVertexCalls` and `DrawableFaces` |
| ObjRender.FaceTrace | Rawbots/Utility/OBJModel.cs:474-494 | a face draws three corners, or four for a quad; stated by `DrawableFaces` |
| ObjRender.FacesTrace | Rawbots/Utility/OBJModel.cs:470-555 | the faces of a group in order, stopping at the first fault; stated by `FacesFaultSticks`, `FacesAreVertexCalls` and `DrawableFaces` |
| ObjRender.GroupTrace | Rawbots/Utility/OBJModel.cs:457-560 | one group: texturing and material, Begin in the first face's mode (an empty group throws), the faces, End and Disable; stated by `GroupTraceUnfold`, `GroupFaultIff`, `GroupBalanced` and `NoTexturingWhenOff` |
| ObjRender.GroupsTrace | Rawbots/Utility/OBJModel.cs:455-561 | the first n groups in order, stopping at the first fault; stated by `GroupsFaultSticks` and `RenderBalanced` |
| ObjRender.RenderTrace | Rawbots/Utility/OBJModel.cs:450-562 | everything `Render` draws; stated by `RenderableIffNoFault` and `RenderBalanced` |
| ObjRender.GroupsFaultSticks | Rawbots/Utility/OBJModel.cs:455-561 | once a group throws, rendering further groups adds nothing |
| ObjRender.FacesFaultSticks | Rawbots/Utility/OBJModel.cs:470-554 | once a face throws, rendering further faces adds nothing |
| ObjRender.GroupTraceUnfold | Rawbots/Utility/OBJModel.cs:457-560 | a non-empty group draws its prologue, Begin in its first face's mode, its faces, then End and the epilogue unless a face threw |
| ObjRender.NoTexturingWhenOff | Rawbots/Utility/OBJModel.cs:457-463 | without texture coordinates or with textures hidden, rendering makes no Enable, Disable or material call |
| ObjRender.FacesAreVertexCalls | Rawbots/Utility/OBJModel.cs:470-554 | the calls made for faces are only TexCoord2, Normal3 and Vertex3 |
| ObjRender.GroupBalanced | Rawbots/Utility/OBJModel.cs:455-561 | a group that renders makes one Begin and one End, and as many Enable as Disable calls (one each iff texturing) |
| ObjRender.RenderBalanced | Rawbots/Utility/OBJModel.cs:455-561 | rendering n groups without a fault makes n Begin and n End calls, and n Enable and n Disable calls iff texturing, else none |
| ObjRender.DrawableFaces | Rawbots/Utility/OBJModel.cs:470-554 | faces whose corners all resolve in the pools render without a fault |
| ObjRender.GroupFaultIff | Rawbots/Utility/OBJModel.cs:455-561 | a group renders without a fault iff it has a face and every face's indices resolve in the pools |
| ObjRender.RenderableIffNoFault | Rawbots/Utility/OBJModel.cs:455-561 | rendering does not throw iff every group is non-empty and every index of every face resolves |
| ObjRender.FaceFaults | Rawbots/Utility/OBJModel.cs:472-553 | a face with an index that does not resolve makes the render throw |
| ObjRender.BoundaryIndexLoadsButFaults | Rawbots/Utility/OBJModel.cs:434-438 | a face whose index equals the position pool's size passes the load's check and keeps the invariant, yet rendering it throws after two vertices |
| ObjRender.TexCoordsAfterFacesFault | Rawbots/Utility/OBJModel.cs:468-476 | a face stored before the first `vt` line has no texture-coordinate array, so once the model has texture coordinates rendering throws |
| ObjModel.FaceGroup.constructor | Rawbots/Utility/OBJModel.cs:18-21 | a new group has the given name, no material and no faces |
| ObjModel.FaceGroup.SetMaterial | Rawbots/Utility/OBJModel.cs:23-26 | sets the material and leaves the faces alone |
| ObjModel.FaceGroup.AddFace | Rawbots/Utility/OBJModel.cs:28-31 | appends the face at the end and leaves the material alone |
| ObjModel.OBJModel.constructor | Rawbots/Utility/OBJModel.cs:80-100 | a new model has empty pools and groups, no current group, both flags false, textures enabled and an empty relative path |
| ObjModel.OBJModel.Open | Rawbots/Utility/OBJModel.cs:98-102 | `new OBJModel(filename)` on a cached name shares the cached model's groups; otherwise the result is the parse of the file from the empty model, and on success the instance is registered under the name |
| ObjModel.OBJModel.LoadFromExistingModel | Rawbots/Utility/OBJModel.cs:104-117 | after the copy this instance has the same groups, current group, pools, flags, path and texture switch as the cached one |
| ObjModel.OBJModel.Load | Rawbots/Utility/OBJModel.cs:119-432 | a cached name reads nothing and takes over the cached fields; a missing file fails with nothing changed; otherwise relativePath gains the file's directory, the model becomes the parse of the text, and on success exactly the one key is registered |
| ObjModel.OBJModel.ReadAll | Rawbots/Utility/OBJModel.cs:144-424 | the loop leaves the object in the state `Parse` computes, or fails with its error |
| ObjModel.OBJModel.Advance | Rawbots/Utility/OBJModel.cs:149-424 | one iteration moves forward and leaves the rest of the parse unchanged |
| ObjModel.OBJModel.Step | Rawbots/Utility/OBJModel.cs:151-423 | one iteration changes the object exactly as `StepLine` does |
| ObjModel.OBJModel.ReadGroup | Rawbots/Utility/OBJModel.cs:153-166 | a `g` line changes the object as `GroupLine` does |
| ObjModel.OBJModel.AddGroup | Rawbots/Utility/OBJModel.cs:163-165 | a new empty group is appended and made current; nothing else changes |
| ObjModel.OBJModel.ReadVertex | Rawbots/Utility/OBJModel.cs:168-216 | a `v` line changes the pools and flags as `VertexLine` does and leaves the groups alone |
| ObjModel.OBJModel.ReadFace | Rawbots/Utility/OBJModel.cs:217-385 | an `f` line changes the object as `FaceLineAt` does |
| ObjModel.OBJModel.AppendFace | Rawbots/Utility/OBJModel.cs:278 | the face goes to the end of the current group only |
| ObjModel.OBJModel.ReadMtllib | Rawbots/Utility/OBJModel.cs:387-392 | proved equal to `MtllibLine`: the library named by the second token, prefixed with relativePath, becomes the material list, with the three failures `MtllibLineEffect` names |
| ObjModel.OBJModel.ReadUsemtl | Rawbots/Utility/OBJModel.cs:393-416 | a `usemtl` line changes the object as `UsemtlLine` does |
| ObjModel.OBJModel.BindMaterial | Rawbots/Utility/OBJModel.cs:404-415 | the material loop changes the object as `UseMaterial` does |
| ObjModel.OBJModel.BindEach | Rawbots/Utility/OBJModel.cs:408-414 | the loop leaves the current group's material at the last match (or unchanged without a match) and its faces alone; it throws iff a name matches and there is no current group |
| ObjModel.OBJModel.ShowTextures | Rawbots/Utility/OBJModel.cs:440-443 | texturing is turned on; every other field, the abstract model and `Valid()` keep their values, so the model can still be rendered |
| ObjModel.OBJModel.HideTextures | Rawbots/Utility/OBJModel.cs:445-448 | texturing is turned off; every other field, the abstract model and `Valid()` keep their values, so the model can still be rendered |
| ObjModel.OBJModel.Render | Rawbots/Utility/OBJModel.cs:450-562 | the calls made are exactly `RenderTrace` of the model and its texture switch |
| ObjModel.OBJModel.RenderGroups | Rawbots/Utility/OBJModel.cs:455-561 | the `foreach` over the groups makes the calls of `GroupsTrace`, stopping at the first throw |
| ObjModel.OBJModel.RenderGroup | Rawbots/Utility/OBJModel.cs:457-560 | one group's calls are those of `GroupTrace` |
| ObjModel.OBJModel.RenderFaces | Rawbots/Utility/OBJModel.cs:470-494 | the `foreach` over a group's faces makes the calls of `FacesTrace` |
| ObjModel.OBJModel.RenderFace | Rawbots/Utility/OBJModel.cs:472-493 | one face draws three corners, or four when it is a quad |
| ObjModel.OBJModel.RenderCorner | Rawbots/Utility/OBJModel.cs:476-478 | one corner draws its texture coordinate if the model has any, then its normal if any, then its position |
| ObjModel.ModelCache.constructor | Rawbots/Utility/OBJModel.cs:96 | the cache starts empty |
| Terrain.CollisionByte | Rawbots/Terrain/Terrain.cs:88-95 | a tile's byte is TRUE iff it is collideable and FALSE iff it is not |
| Terrain.ByteMap.constructor | Rawbots/Terrain/Terrain.cs:33 | the byte map has the terrain's dimensions |
| Terrain.Terrain.constructor | Rawbots/Terrain/Terrain.cs:26-78 | a new terrain has the given dimensions, a floor tile in every cell, and a collision map that agrees with the grid |
| Terrain.Terrain.GenerateCollisionMap | Rawbots/Terrain/Terrain.cs:80-98 | afterwards every cell's byte is TRUE iff its tile is collideable, FALSE otherwise; the tiles are not touched |
| Terrain.Terrain.SetTile | Rawbots/Terrain/Terrain.cs:138-142 | coordinates inside the grid put the tile at (x, y), leave every other cell alone and restore the collision map invariant; coordinates outside fault and change nothing |
| Terrain.Terrain.GetWidth | Rawbots/Terrain/Terrain.cs:144-147 | the first dimension of the grid is the width fixed at construction |
| Terrain.Terrain.GetHeight | Rawbots/Terrain/Terrain.cs:149-152 | the second dimension of the grid is the height fixed at construction |

## Left out

- File and stream I/O. The only inputs taken from the file system are:
  - the file's text, as a string;
  - `fs.Name`, as the absolute path of the entry;
  - the platform path separator.

  These are given as parameters (`Env`).
- Coordinate values. `float.TryParse` of coordinates is not modelled: a pool entry keeps its tokens (`Attr`), and their number is what the model checks.
- `Material.ParseMaterials` is foreign code. A library is a map from full path to its list of materials, and a path that is not in the map stands for a library that cannot be read. `Material.apply` is the trace event `ApplyMaterial`.
- OpenGL. Every `GL.*` call is an event; nothing is drawn.
- Concurrency. The static dictionary is modelled as an object passed to `Load`, and is used from one thread.
- `CompareTo` in `g default` and `usemtl` is culture-sensitive in the original; the model compares strings exactly.
- `ObjModel.OBJModel.Load`: on a failing load the contract states the error and that nothing is registered, but not the partly filled lists the original leaves behind.
- `ObjModel.OBJModel.LoadFromExistingModel`: shares the group objects with the cached model. The pool and face lists are sequence values, so a later change through one instance is not seen by the other, as it would be in the original.
- `lineNumber` is a `uint` in the original and wraps after 2^32 lines. The model counts with an unbounded natural number.
- The `Face` constructor fills its arrays once and they are never changed, so it is modelled as a function on values (`ObjFace.NewFace`), not as an object with arrays.
- The terrain's `test` branch (Terrain.cs lines 35-65) is dead code: `test` is the constant false.
- `Terrain.GetPlane` is float arithmetic.
- `Terrain.Render`, `SetRenderMode`, `ShowTextures` and `HideTextures` only delegate drawing to the tiles.
- The tile classes are not part of this model. The tile type is a parameter, and so are `IsCollideable` (a function of the tile, fixed for the terrain's lifetime) and the floor tile.
- The `ByteMap` class is not part of this model. Its byte-values for `TRUE` and `FALSE` are taken as 1 and 0; only their being distinct matters.
- `Terrain.Terrain.constructor`: the original throws on negative dimensions; the model takes natural numbers.
