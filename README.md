# rust-raytracer asset importers in Dafny

This project models the asset importers of the rust-raytracer repository:

- **`ObjImport`** is the current Wavefront OBJ importer, `from_obj` in `src/util/import.rs`.
  - It splits each line into whitespace-separated tokens and dispatches on the first one.
  - A `v` line grows the vertex table, a `vt` line the texture-coordinate table and a `vn` line the normal table. Normals are negated when `flip_normals` is set.
  - An `f` line decodes its face tokens. Each token is split on `/`, and each field `k` becomes the 0-based index `k - 1`. A field that is not a number becomes the sentinel `!0`, "not supplied".
  - The three corners are then resolved against the tables into a triangle. Texture values default to 0 when the first corner supplies none.
- **`LegacyObjImport`** is the older OBJ importer, `from_obj` in `util/import.rs`.
  - Lines with fewer than four tokens are skipped.
  - Vertex and texture coordinates are multiplied by `scale`. Normals are multiplied by `scale * scale`, negated when flipped.
  - Face fields are looked up 1-based straight from their text (`get_string_index`, `get_tex_coord`).
- **`PpmImport`** is the plain-text PPM importer `from_ppm`.
  - It reads the header (type, width, height, maximum value).
  - It writes the RGB triples that follow, in row-major order, into a black `Surface` held in an `array2`. It stops at the first triple whose row reaches the height.
  - Each channel is cut to 8 bits.
- **`Geometry`** holds the `Vec3` type both OBJ importers build their tables from, and scaling by a number.
- **`Text`** holds the string operations the importers share:
  - `words`/`split_whitespace`, as `Words`;
  - `split('/')`, as `Split`;
  - unsigned decimal parsing (`from_str::<uint>`, `parse::<usize>`), as `ParseUsize`.

Each OBJ importer's line loop is a method (`FromObj`) proved equal to a specification function (`ImportObj`). That function folds a one-line step `Step` over the lines. The lemmas state what one line of each kind does to the tables, and what the whole loop guarantees. A panic of the source (a failed `unwrap`, an out-of-range index, a non-numeric token) is a failure. An OBJ failure is `Failed(i)`, where `i` is the first line that panics. A PPM failure is `None`.

## Model

| member | source | states |
|---|---|---|
| Text.Words | src/util/import.rs:35 | every token is a non-empty run of non-whitespace characters |
| Text.WordsEmptyIffBlank | src/util/import.rs:35-36 | a line has no tokens exactly when it is all whitespace |
| Text.WordsUnwords | util/import.rs:35 | tokenising words joined by spaces gives back exactly those words |
| Text.WordsOfWord | src/util/import.rs:35 | a single word is its own only token |
| Text.WordsAppend | src/util/import.rs:35 | a line cut just after a whitespace character tokenises as its two parts |
| Text.WordsCut | src/util/import.rs:35 | any whitespace character, a tab, `\r` or `\n` included, separates the tokens before it from those after it; with WordsOfWord and WordsEmptyIffBlank this gives the tokens of every line as its non-whitespace runs, in order |
| Text.TabbedLine | util/import.rs:35 | the tab-separated line `v<TAB>1<TAB>2<TAB>3<CR>` has the tokens `v`, `1`, `2`, `3` |
| Text.Split | src/util/import.rs:63 | splitting yields at least one part, and no part contains the separator |
| Text.SplitJoin | src/util/import.rs:63 | joining the parts with the separator gives back the token, so nothing is lost |
| Text.ParseUsize | src/util/import.rs:65 | a parsed value fits in 64 bits |
| Text.ParseDigitsSpec | src/util/import.rs:65 | reading digits left to right succeeds exactly on a non-empty all-digit string, with the value of the digit string |
| Text.ParseUsizeSpec | src/util/import.rs:65 | a number is accepted exactly when the text after an optional `+` is a non-empty digit run whose value fits in 64 bits; the result is that value, and only digits and a leading `+` occur |
| Text.DecimalRoundTrip | util/import.rs:181-185 | parsing the decimal spelling of any 64-bit value gives that value back |
| ObjImport.DecodeField | src/util/import.rs:64-68 | a field that is not a number, and only such a field, gives the sentinel `!0`; a supplied index is below `!0` |
| ObjImport.FieldRoundTrip | src/util/import.rs:64-68 | decoding the 1-based spelling of index k gives k back; an empty field gives the sentinel |
| ObjImport.ZeroFieldFails | src/util/import.rs:66 | the field `0` panics, because `0 - 1` underflows |
| ObjImport.DecodeFieldsSpec | src/util/import.rs:63-69 | `DecodeToken` decodes the `/`-separated fields of a token with `DecodeFields`: a token decodes exactly when each of its fields does, and field j gives index j |
| ObjImport.DecodeFaceSpec | src/util/import.rs:62-70 | for `DecodeFace`, an `f` line's tokens decode exactly when each one does, and token k gives index list k |
| ObjImport.DecodeToken123 | src/util/import.rs:61 | the token `1/2/3` decodes to `[0, 1, 2]` |
| ObjImport.DecodeToken222 | src/util/import.rs:61 | the token `2/2/2` decodes to `[1, 1, 1]` |
| ObjImport.DecodeToken12Empty4 | src/util/import.rs:61 | the token `12//4` decodes to `[11, !0, 3]` |
| ObjImport.ResolveFaceSpec | src/util/import.rs:72-95 | for `ResolveFace` and `FaceTexture`, a face resolves exactly when every index it uses is in range. Corner k then gets `vertices[pairs[k][0]]`, `normals[pairs[k][2]]` and the texture entry `pairs[k][1]`, or 0 when the first corner's texture field is `!0`. The triangle carries the material |
| ObjImport.FromObj | src/util/import.rs:33-112 | the line loop returns exactly the specification `ImportObj`, the fold of `Step` over the lines: the mesh of the triangles, or a failure at the first line that panics |
| ObjImport.RunStep | src/util/import.rs:33-98 | importing one more line applies one step to the tables built so far |
| ObjImport.RunFailure | src/util/import.rs:33-98 | once line i panics, the import fails at line i whatever follows |
| ObjImport.FailedAtFirstBadLine | src/util/import.rs:33-98 | a failure names a line whose predecessors all import and which itself panics |
| ObjImport.BlankLineSkipped | src/util/import.rs:35-36 | a blank line changes no table |
| ObjImport.OtherKeywordSkipped | src/util/import.rs:97 | a line with any other keyword changes no table |
| ObjImport.VertexLine | src/util/import.rs:39-45 | a `v` line succeeds exactly when three coordinates parse. It then appends them to the vertices and changes nothing else |
| ObjImport.TexCoordLine | src/util/import.rs:46-51 | a `vt` line succeeds exactly when two numbers parse. It then appends them to the texture coordinates and changes nothing else |
| ObjImport.NormalLine | src/util/import.rs:52-59 | a `vn` line succeeds exactly when three numbers parse. It then appends the normal, negated when normals are flipped |
| ObjImport.FaceLine | src/util/import.rs:60-96 | an `f` line succeeds exactly when its tokens decode and resolve. It then appends that one triangle |
| ObjImport.StepGrowth | src/util/import.rs:38-98 | for `Step`, a line keeps every table's contents, and it adds exactly one entry to the table its keyword names |
| ObjImport.RunCounts | src/util/import.rs:33-105 | over a file, each table holds one entry per line with its keyword, and the tables only grow |
| ObjImport.RunPrefix | src/util/import.rs:33-105 | the tables after a prefix of the file are prefixes of the final tables |
| ObjImport.MeshTriangles | src/util/import.rs:110-112 | the mesh has one triangle per `f` line |
| LegacyObjImport.LookupOneBased | util/import.rs:129-141 | the spelling of k+1 selects entry k, and its `x` component for a texture |
| LegacyObjImport.LookupFailure | util/import.rs:129-141 | for `GetStringIndex` and `GetTexCoord`, a lookup succeeds exactly when the token is a number between 1 and the table length; the texture lookup is the `x` of the vector lookup |
| LegacyObjImport.ZeroIndexFails | util/import.rs:131-138 | index `0` panics in both lookups |
| LegacyObjImport.ParseVec3Spec | util/import.rs:122-127 | `ParseVec3` reads three coordinates with `parse_coord_str` (`ParseCoord`): they parse exactly when each number does, and each is that number times the factor; a number that does not parse panics |
| LegacyObjImport.ParseTexCoordSpec | util/import.rs:47-51 | `ParseTexCoord` succeeds exactly when the first two numbers parse; the texture coordinate is those numbers times the scale, with z = 0 |
| LegacyObjImport.NormalFactorSpec | util/import.rs:54-58 | normals are multiplied by `scale * scale`, negated when flipped |
| LegacyObjImport.FromObj | util/import.rs:29-119 | the line loop returns exactly the specification `ImportObj`, the fold of `Step` over the lines: the mesh with the given position and scale, or a failure at the first line that panics |
| LegacyObjImport.RunStep | util/import.rs:29-103 | importing one more line applies one step to the tables built so far |
| LegacyObjImport.RunFailure | util/import.rs:29-103 | once line i panics, the import fails at line i whatever follows |
| LegacyObjImport.ShortLineSkipped | util/import.rs:35-36 | any line of fewer than four tokens changes nothing, whatever its keyword |
| LegacyObjImport.TwoCoordinateTexCoordSkipped | util/import.rs:35-36 | a two-coordinate `vt` line is dropped |
| LegacyObjImport.VertexLine | util/import.rs:39-45 | a `v` line succeeds exactly when its coordinates parse. It then appends them times the scale |
| LegacyObjImport.TexCoordLine | util/import.rs:46-52 | a `vt` line succeeds exactly when its first two numbers parse. It then appends them times the scale, with z = 0 |
| LegacyObjImport.NormalLine | util/import.rs:53-60 | a `vn` line succeeds exactly when its numbers parse. It then appends them times the normal factor |
| LegacyObjImport.FaceTextureSpec | util/import.rs:70-86 | `FaceTexture` finds the texture values exactly when the first corner's second field is empty, or every corner has three fields and all six texture lookups succeed |
| LegacyObjImport.FaceSpec | util/import.rs:61-101 | `Face` builds a triangle exactly when the three corners have three fields each, all six position and normal lookups succeed, and the texture values are found when the first corner's second field is non-empty |
| LegacyObjImport.FaceLineSucceeds | util/import.rs:61-101 | an `f` line is imported exactly when its corners have three fields each and every lookup it makes succeeds |
| LegacyObjImport.FaceLine | util/import.rs:61-101 | an imported `f` line appends one triangle. Positions and normals are the 1-based lookups of the first and third fields. `u` comes from the second fields and `v` from the third, or both are zero when the first token's second field is empty. The triangle carries the material |
| LegacyObjImport.StepGrowth | util/import.rs:35-102 | for `Step`, a line keeps every table's contents, and it adds exactly one entry to the table its keyword names, or none when it has fewer than four tokens |
| LegacyObjImport.RunCounts | util/import.rs:29-103 | over a file, each table holds one entry per line of at least four tokens with its keyword, and the tables only grow |
| LegacyObjImport.RunPrefix | util/import.rs:29-103 | the tables after a prefix of the file are prefixes of the final tables, so a triangle keeps its place |
| LegacyObjImport.MeshTriangles | util/import.rs:115-119 | the mesh has the given position and scale, and one triangle per `f` line of at least four tokens |
| PpmImport.Surface.constructor | util/import.rs:160 | a new surface of the given size has every pixel equal to the background |
| PpmImport.Surface.Set | util/import.rs:171-175 | writing a pixel changes that pixel and no other |
| PpmImport.AsU8Wraps | util/import.rs:172-174 | for `AsU8` (`as u8`), values below 256 are kept, and adding 256 does not change the channel |
| PpmImport.UintFromStringSpec | util/import.rs:181-186 | `UintFromString` accepts exactly an optional `+` followed by a non-empty digit run whose value fits in 64 bits, and gives that value |
| PpmImport.UintFromStringRoundTrip | util/import.rs:181-186 | the decimal spelling of a 64-bit value reads back as itself |
| PpmImport.ChunkColorAt | util/import.rs:164 | for `ChunkColor`, walking the tokens three at a time, chunk i is tokens 3i to 3i+2, and there is none past the end |
| PpmImport.ChunkIsTriple | util/import.rs:164-175 | every chunk, short or not, decodes as its own tokens |
| PpmImport.ChunkColorSpec | util/import.rs:164-175 | through `TripleColor`, a chunk decodes exactly when it has three numeric tokens, and it is their low bytes |
| PpmImport.HeaderSpec | util/import.rs:150-155 | `ParseHeader` succeeds exactly when there are at least three tokens and the width and height tokens are numbers; it then yields them and the tokens after the fourth, whatever the type and maximum are |
| PpmImport.HeaderRoundTrip | util/import.rs:150-155 | a header spelled type, width, height, maximum, data yields that width, height and data |
| PpmImport.HeaderExamples | util/import.rs:150-155 | a non-numeric width fails; `+4` and `007` read as 4 and 7; three tokens give an empty body |
| PpmImport.RowMajor | util/import.rs:165-166 | chunk i lands on column x, row y exactly when i = y·width + x |
| PpmImport.PlacedMono | util/import.rs:166-169 | a chunk before a placed one is placed, so the loop's break is final |
| PpmImport.PlacedBelowArea | util/import.rs:166-169 | a chunk is placed exactly when its index is below width × height |
| PpmImport.ChunkPlacement | util/import.rs:164-176 | on acceptable data, every pixel whose triple exists holds that triple's colour, and the triple decodes |
| PpmImport.UnwrittenStayBlack | util/import.rs:160 | pixels past the last triple stay black |
| PpmImport.TrailingTokensIgnored | util/import.rs:164-169 | tokens after width × height triples neither fail the import nor change a pixel |
| PpmImport.DoneChunks | util/import.rs:164-169 | when the loop stops, no later chunk is placed and every pixel's chunk was visited |
| PpmImport.PartialPixelStep | util/import.rs:165-175 | writing chunk i changes the picture at chunk i's column and row only |
| PpmImport.WriteChunk | util/import.rs:165-175 | one iteration's write extends the picture of chunks 0 to i-1 to chunks 0 to i |
| PpmImport.FailsAt | util/import.rs:169-174 | a placed triple that does not decode makes the import fail |
| PpmImport.FillPixels | util/import.rs:160-176 | the pixel loop succeeds exactly when every placed triple decodes and width 0 has no triples. Every pixel then holds its triple's colour, or black |
| PpmImport.FromPpm | util/import.rs:145-179 | the importer succeeds exactly when the header parses and the pixel data is acceptable. The surface then has the header's size, and every pixel holds its triple's colour, or black |

## Left out

- Opening and reading files, line iteration errors, `stat`/`metadata`: the importers take the file's lines or text as a value.
- Progress output (`print_progress`, `print!`, `println!`): output only, no effect on the result.
- `str::parse::<f64>` / `from_str::<f64>`: a parameter `parse` of each configuration, a partial map from token to number. Coordinates are reals, so IEEE rounding of the scale products is not modelled.
- `from_image` and its test `test_from_png24`: the image decoding library is not part of this model.
- The Cook-Torrance material (`cooktorrancematerial.rs`): the material is a type parameter `M`, and `material.clone()` is copying a value.
- `Triangle`, `Mesh`, `Surface` and `ColorRGBA` internals: only their fields used here are modelled. The alpha channel of `new_rgb` is not modelled.
- Panic messages: every panic is the same failure. OBJ failures carry the index of the failing line, and PPM failures are `None`.
- ObjImport.DecodeField: models the field `0` as a panic, which is what `usize_tok - 1` does with overflow checks on. Without them it wraps to `!0` and reads as "not supplied".
- Text.ParseUsize: the old `from_str::<uint>` is taken to accept the same text as `parse::<usize>` (digits, optional leading `+`) and to be 64 bits wide.
- Vector lengths are assumed below 2^64, so `!0` never indexes a real entry.
