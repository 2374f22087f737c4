/** The current OBJ mesh importer (`from_obj` in src/util/import.rs): lines are
    tokenised on whitespace and dispatched on their first token; `v`, `vt` and
    `vn` lines grow the vertex, texture-coordinate and normal tables, and each
    `f` line resolves three corners against those tables into a triangle. */
module ObjImport {
  import opened Results
  import opened Text
  import opened Geometry

  /** A texture coordinate: the two-element `Vec<f64>` a `vt` line pushes. */
  datatype TexCoord = TexCoord(u: real, v: real)

  datatype TriangleVertex = TriangleVertex(pos: Vec3, n: Vec3, u: real, v: real)

  /** Every triangle carries its own copy of the mesh's material `M`. */
  datatype Triangle<M> = Triangle(v0: TriangleVertex, v1: TriangleVertex, v2: TriangleVertex, material: M)

  datatype Mesh<M> = Mesh(triangles: seq<Triangle<M>>)

  /** The four vectors the importer pushes into. */
  datatype Tables<M> = Tables(vertices: seq<Vec3>, normals: seq<Vec3>, texCoords: seq<TexCoord>,
                              triangles: seq<Triangle<M>>)

  /** The importer's parameters. `parse` stands for `str::parse::<f64>()`:
      a partial map from token to number that is not modelled further. */
  datatype Config<M> = Config(material: M, flipNormals: bool, parse: string -> Option<real>)

  /** `!0`: the index stored for a face field that is empty or not a number. */
  const NOT_SUPPLIED: nat := USIZE_MAX

  // ---------------------------------------------------------------------------
  // Face tokens

  /** One `/`-separated field of a face token: a number k becomes the 0-based
      index k-1; anything that is not a `usize` becomes `NOT_SUPPLIED`; the
      number 0 makes `k - 1` underflow, which panics (None). */
  function DecodeField(field: string): (r: Option<nat>)
    ensures r.Some? && r.value != NOT_SUPPLIED ==> r.value < USIZE_MAX
    ensures r == Some(NOT_SUPPLIED) <==> ParseUsize(field).None?
  {
    match ParseUsize(field)
    case Some(k) => if k == 0 then None else Some(k - 1)
    case None => Some(NOT_SUPPLIED)
  }

  /** The spelling a well-formed file uses for a field: the 1-based index, or
      nothing at all when the field is not supplied. */
  function EncodeField(index: Option<nat>): string {
    match index
    case Some(k) => ToDecimal(k + 1)
    case None => ""
  }

  /** Decoding undoes encoding: a supplied index comes back 0-based, an empty
      field comes back as the sentinel. */
  lemma FieldRoundTrip(index: Option<nat>)
    requires index.Some? ==> index.value < USIZE_MAX
    ensures DecodeField(EncodeField(index)) == Some(if index.Some? then index.value else NOT_SUPPLIED)
  {
    if index.Some? {
      DecimalRoundTrip(index.value + 1);
    }
  }

  /** The field "0" is rejected: its index would underflow. */
  lemma ZeroFieldFails()
    ensures DecodeField("0") == None
  {
    assert "0"[..0] == [];
  }

  /** All fields of a face token, in order; None when one of them panics. */
  function DecodeFields(fields: seq<string>): Option<seq<nat>> {
    if fields == [] then Some([])
    else match DecodeField(fields[0])
      case None => None
      case Some(i) =>
        match DecodeFields(fields[1..])
        case None => None
        case Some(rest) => Some([i] + rest)
  }

  /** A face token such as `1/2/3` or `12//4`, split on `/` and decoded. */
  function DecodeToken(token: string): Option<seq<nat>> {
    DecodeFields(Split(token, '/'))
  }

  /** The face tokens of an `f` line decoded into index lists ("pairs"). */
  function DecodeFace(tokens: seq<string>): Option<seq<seq<nat>>> {
    if tokens == [] then Some([])
    else match DecodeToken(tokens[0])
      case None => None
      case Some(p) =>
        match DecodeFace(tokens[1..])
        case None => None
        case Some(rest) => Some([p] + rest)
  }

  /** A face token decodes field by field: it fails exactly when one of its
      fields does, and otherwise field j of the token is index j of the result. */
  lemma {:induction false} DecodeFieldsSpec(fields: seq<string>)
    ensures DecodeFields(fields).Some? <==> forall j :: 0 <= j < |fields| ==> DecodeField(fields[j]).Some?
    ensures DecodeFields(fields).Some? ==>
      |DecodeFields(fields).value| == |fields| &&
      forall j :: 0 <= j < |fields| ==> DecodeField(fields[j]) == Some(DecodeFields(fields).value[j])
    decreases |fields|
  {
    if fields != [] {
      DecodeFieldsSpec(fields[1..]);
      assert forall j :: 1 <= j < |fields| ==> fields[1..][j - 1] == fields[j];
    }
  }

  /** An `f` line's tokens decode one by one: decoding fails exactly when one
      token does, and otherwise token k gives index list k. */
  lemma {:induction false} DecodeFaceSpec(tokens: seq<string>)
    ensures DecodeFace(tokens).Some? <==> forall k :: 0 <= k < |tokens| ==> DecodeToken(tokens[k]).Some?
    ensures DecodeFace(tokens).Some? ==>
      |DecodeFace(tokens).value| == |tokens| &&
      forall k :: 0 <= k < |tokens| ==> DecodeToken(tokens[k]) == Some(DecodeFace(tokens).value[k])
    decreases |tokens|
  {
    if tokens != [] {
      DecodeFaceSpec(tokens[1..]);
      assert forall k :: 1 <= k < |tokens| ==> tokens[1..][k - 1] == tokens[k];
    }
  }

  /** Decoding the fields of a token, one field at a time. */
  lemma DecodeFieldsCons(f: string, rest: seq<string>, i: nat, ix: seq<nat>)
    requires DecodeField(f) == Some(i) && DecodeFields(rest) == Some(ix)
    ensures DecodeFields([f] + rest) == Some([i] + ix)
  {
    assert ([f] + rest)[1..] == rest;
  }

  lemma SmallFields()
    ensures DecodeField("1") == Some(0) && DecodeField("2") == Some(1)
    ensures DecodeField("3") == Some(2) && DecodeField("4") == Some(3)
    ensures DecodeField("12") == Some(11) && DecodeField("") == Some(NOT_SUPPLIED)
  {
    assert "1"[..0] == [] && "2"[..0] == [] && "3"[..0] == [] && "4"[..0] == [];
    assert "12"[..1] == "1";
  }

  lemma {:induction false} DecodeThreeFields(f0: string, f1: string, f2: string, i0: nat, i1: nat, i2: nat)
    requires DecodeField(f0) == Some(i0) && DecodeField(f1) == Some(i1) && DecodeField(f2) == Some(i2)
    ensures DecodeFields([f0, f1, f2]) == Some([i0, i1, i2])
  {
    assert [f2] + [] == [f2] && [i2] + [] == [i2];
    DecodeFieldsCons(f2, [], i2, []);
    assert [f1] + [f2] == [f1, f2] && [i1] + [i2] == [i1, i2];
    DecodeFieldsCons(f1, [f2], i1, [i2]);
    assert [f0] + [f1, f2] == [f0, f1, f2] && [i0] + [i1, i2] == [i0, i1, i2];
    DecodeFieldsCons(f0, [f1, f2], i0, [i1, i2]);
  }

  lemma {:induction false} SplitThree(a: char, b: char, c: char)
    requires a != '/' && b != '/' && c != '/'
    ensures Split([a, '/', b, '/', c], '/') == [[a], [b], [c]]
  {
    var s := [a, '/', b, '/', c];
    assert s[1..] == ['/', b, '/', c] && s[1..][1..] == [b, '/', c];
    assert s[1..][1..][1..] == ['/', c] && s[1..][1..][1..][1..] == [c] && [c][1..] == [];
    assert [] + [c] == [c] && [] + [b] == [b] && [] + [a] == [a];
    assert SplitFrom([c], '/', []) == [[c]];
    assert SplitFrom(['/', c], '/', [b]) == [[b], [c]];
    assert SplitFrom([b, '/', c], '/', []) == [[b], [c]];
    assert SplitFrom(['/', b, '/', c], '/', [a]) == [[a], [b], [c]];
  }

  /** The tokens of the example in the source's comment: `1/2/3`, `2/2/2`
      and `12//4` decode to `[0, 1, 2]`, `[1, 1, 1]` and `[11, !0, 3]`. */
  lemma {:induction false} DecodeToken123()
    ensures DecodeToken("1/2/3") == Some([0, 1, 2])
  {
    SplitThree('1', '2', '3');
    SmallFields();
    DecodeThreeFields("1", "2", "3", 0, 1, 2);
  }

  lemma {:induction false} DecodeToken222()
    ensures DecodeToken("2/2/2") == Some([1, 1, 1])
  {
    SplitThree('2', '2', '2');
    SmallFields();
    DecodeThreeFields("2", "2", "2", 1, 1, 1);
  }

  lemma {:induction false} DecodeToken12Empty4()
    ensures DecodeToken("12//4") == Some([11, NOT_SUPPLIED, 3])
  {
    var s := "12//4";
    assert s[1..] == "2//4" && s[1..][1..] == "//4" && s[1..][1..][1..] == "/4";
    assert s[1..][1..][1..][1..] == "4" && "4"[1..] == "" && "" + ['4'] == "4";
    assert "" + ['1'] == "1" && "1" + ['2'] == "12";
    assert SplitFrom("4", '/', "") == ["4"];
    assert SplitFrom("/4", '/', "") == ["", "4"];
    assert SplitFrom("//4", '/', "12") == ["12", "", "4"];
    assert SplitFrom("2//4", '/', "1") == ["12", "", "4"];
    assert Split(s, '/') == ["12", "", "4"];
    SmallFields();
    DecodeThreeFields("12", "", "4", 11, NOT_SUPPLIED, 3);
  }

  // ---------------------------------------------------------------------------
  // Corner resolution

  /** The texture coordinates of the three corners, `(u, v)`. When the first
      corner's texture field is the sentinel every corner gets 0; otherwise
      corner k reads entry `pairs[k][1]`, and a missing field or an index past
      the table panics. */
  function FaceTexture(pairs: seq<seq<nat>>, texCoords: seq<TexCoord>): Option<(seq<real>, seq<real>)>
    requires |pairs| >= 1 && |pairs[0]| >= 2
  {
    if pairs[0][1] != NOT_SUPPLIED then
      if |pairs| >= 3 && forall k :: 0 <= k < 3 ==> |pairs[k]| >= 2 && pairs[k][1] < |texCoords| then
        Some(([texCoords[pairs[0][1]].u, texCoords[pairs[1][1]].u, texCoords[pairs[2][1]].u],
              [texCoords[pairs[0][1]].v, texCoords[pairs[1][1]].v, texCoords[pairs[2][1]].v]))
      else None
    else
      Some(([0.0, 0.0, 0.0], [0.0, 0.0, 0.0]))
  }

  /** Corner k of the triangle: position `vertices[pairs[k][0]]` and normal
      `normals[pairs[k][2]]`. */
  function Corner(pairs: seq<seq<nat>>, k: nat, vertices: seq<Vec3>, normals: seq<Vec3>, u: real, v: real): TriangleVertex
    requires k < |pairs| && |pairs[k]| >= 3 && pairs[k][0] < |vertices| && pairs[k][2] < |normals|
  {
    TriangleVertex(vertices[pairs[k][0]], normals[pairs[k][2]], u, v)
  }

  /** Every index a corner uses for its position and normal is present and in range. */
  predicate CornersResolve(pairs: seq<seq<nat>>, vertices: seq<Vec3>, normals: seq<Vec3>) {
    |pairs| >= 3 && forall k :: 0 <= k < 3 ==> |pairs[k]| >= 3 && pairs[k][0] < |vertices| && pairs[k][2] < |normals|
  }

  /** The triangle an `f` line produces from its decoded corners; None when an
      access panics (fewer than three corners, a short token, an index out of range). */
  function ResolveFace<M>(pairs: seq<seq<nat>>, t: Tables<M>, material: M): Option<Triangle<M>> {
    if |pairs| < 1 || |pairs[0]| < 2 then None
    else match FaceTexture(pairs, t.texCoords)
      case None => None
      case Some((u, v)) =>
        if CornersResolve(pairs, t.vertices, t.normals) then
          Some(Triangle(Corner(pairs, 0, t.vertices, t.normals, u[0], v[0]),
                        Corner(pairs, 1, t.vertices, t.normals, u[1], v[1]),
                        Corner(pairs, 2, t.vertices, t.normals, u[2], v[2]),
                        material))
        else None
  }

  function CornerOf<M>(tri: Triangle<M>, k: nat): TriangleVertex
    requires k < 3
  {
    if k == 0 then tri.v0 else if k == 1 then tri.v1 else tri.v2
  }

  /** What a resolved triangle holds, and when resolution fails. */
  lemma ResolveFaceSpec<M>(pairs: seq<seq<nat>>, t: Tables<M>, material: M)
    ensures ResolveFace(pairs, t, material).Some? <==>
      CornersResolve(pairs, t.vertices, t.normals) &&
      (pairs[0][1] != NOT_SUPPLIED ==> forall k :: 0 <= k < 3 ==> pairs[k][1] < |t.texCoords|)
    ensures ResolveFace(pairs, t, material).Some? ==>
      var tri := ResolveFace(pairs, t, material).value;
      tri.material == material &&
      forall k :: 0 <= k < 3 ==>
        CornerOf(tri, k).pos == t.vertices[pairs[k][0]] &&
        CornerOf(tri, k).n == t.normals[pairs[k][2]] &&
        (pairs[0][1] == NOT_SUPPLIED ==> CornerOf(tri, k).u == 0.0 && CornerOf(tri, k).v == 0.0) &&
        (pairs[0][1] != NOT_SUPPLIED ==>
           CornerOf(tri, k).u == t.texCoords[pairs[k][1]].u && CornerOf(tri, k).v == t.texCoords[pairs[k][1]].v)
  {
  }

  // ---------------------------------------------------------------------------
  // One line

  /** The three numbers after the keyword; a missing or unparsable one panics. */
  function ParseVec3<M>(tokens: seq<string>, c: Config<M>): Option<Vec3> {
    if |tokens| < 4 then None
    else match (c.parse(tokens[1]), c.parse(tokens[2]), c.parse(tokens[3]))
      case (Some(x), Some(y), Some(z)) => Some(Vec3(x, y, z))
      case _ => None
  }

  function ParseTexCoord<M>(tokens: seq<string>, c: Config<M>): Option<TexCoord> {
    if |tokens| < 3 then None
    else match (c.parse(tokens[1]), c.parse(tokens[2]))
      case (Some(u), Some(v)) => Some(TexCoord(u, v))
      case _ => None
  }

  /** `-1.0` when normals are flipped, `1.0` otherwise. */
  function NormalScale(flip: bool): real {
    if flip then -1.0 else 1.0
  }

  /** The first token of a line, or "" for a blank line. */
  function Keyword(line: string): string {
    var tokens := Words(line);
    if tokens == [] then "" else tokens[0]
  }

  /** The tables after one line of the file, or None if the line panics. */
  function Step<M>(t: Tables<M>, line: string, c: Config<M>): Option<Tables<M>> {
    var tokens := Words(line);
    if |tokens| == 0 then Some(t)
    else if tokens[0] == "v" then
      match ParseVec3(tokens, c)
      case Some(p) => Some(t.(vertices := t.vertices + [p]))
      case None => None
    else if tokens[0] == "vt" then
      match ParseTexCoord(tokens, c)
      case Some(uv) => Some(t.(texCoords := t.texCoords + [uv]))
      case None => None
    else if tokens[0] == "vn" then
      match ParseVec3(tokens, c)
      case Some(p) => Some(t.(normals := t.normals + [Scaled(p, NormalScale(c.flipNormals))]))
      case None => None
    else if tokens[0] == "f" then
      match DecodeFace(tokens[1..])
      case None => None
      case Some(pairs) =>
        match ResolveFace(pairs, t, c.material)
        case Some(tri) => Some(t.(triangles := t.triangles + [tri]))
        case None => None
    else Some(t)
  }

  /** The tables after the given lines, starting from `t0`; `Failed(i)` names
      the first line that panics. */
  function Run<M>(t0: Tables<M>, lines: seq<string>, c: Config<M>): Result<Tables<M>>
    decreases |lines|
  {
    if lines == [] then Ok(t0)
    else match Run(t0, lines[..|lines| - 1], c)
      case Failed(i) => Failed(i)
      case Ok(t) =>
        match Step(t, lines[|lines| - 1], c)
        case Some(t') => Ok(t')
        case None => Failed(|lines| - 1)
  }

  /** The tables before the first line. */
  function Empty<M>(): Tables<M> {
    Tables([], [], [], [])
  }

  /** The mesh `from_obj` returns for a file with the given lines. */
  function ImportObj<M>(lines: seq<string>, c: Config<M>): Result<Mesh<M>> {
    match Run(Empty(), lines, c)
    case Ok(t) => Ok(Mesh(t.triangles))
    case Failed(i) => Failed(i)
  }

  // ---------------------------------------------------------------------------
  // The importer

  /** The line loop of `from_obj`: each line pushes onto at most one table. */
  method FromObj<M>(lines: seq<string>, c: Config<M>) returns (r: Result<Mesh<M>>)
    ensures r == ImportObj(lines, c)
  {
    var vertices: seq<Vec3> := [];
    var normals: seq<Vec3> := [];
    var triangles: seq<Triangle<M>> := [];
    var texCoords: seq<TexCoord> := [];
    var i := 0;
    while i < |lines|
      invariant i <= |lines|
      invariant Run(Empty(), lines[..i], c) == Ok(Tables(vertices, normals, texCoords, triangles))
    {
      RunStep(Empty(), lines, i, c);
      var tokens := Words(lines[i]);
      if |tokens| == 0 {
        i := i + 1;
        continue;
      }
      if tokens[0] == "v" {
        var p := ParseVec3(tokens, c);
        if p.None? {
          assert lines[..|lines|] == lines;
          RunFailure(Empty(), lines, i, c);
          return Failed(i);
        }
        vertices := vertices + [p.value];
      } else if tokens[0] == "vt" {
        var uv := ParseTexCoord(tokens, c);
        if uv.None? {
          RunFailure(Empty(), lines, i, c);
          return Failed(i);
        }
        texCoords := texCoords + [uv.value];
      } else if tokens[0] == "vn" {
        var p := ParseVec3(tokens, c);
        if p.None? {
          RunFailure(Empty(), lines, i, c);
          return Failed(i);
        }
        normals := normals + [Scaled(p.value, NormalScale(c.flipNormals))];
      } else if tokens[0] == "f" {
        var pairs := DecodeFace(tokens[1..]);
        if pairs.None? {
          RunFailure(Empty(), lines, i, c);
          return Failed(i);
        }
        var tri := ResolveFace(pairs.value, Tables(vertices, normals, texCoords, triangles), c.material);
        if tri.None? {
          RunFailure(Empty(), lines, i, c);
          return Failed(i);
        }
        triangles := triangles + [tri.value];
      }
      i := i + 1;
    }
    assert lines[..i] == lines;
    r := Ok(Mesh(triangles));
  }

  // ---------------------------------------------------------------------------
  // Properties of the line loop

  /** Importing one more line applies one step to the tables so far. */
  lemma RunStep<M>(t0: Tables<M>, lines: seq<string>, i: nat, c: Config<M>)
    requires i < |lines| && Run(t0, lines[..i], c).Ok?
    ensures Step(Run(t0, lines[..i], c).value, lines[i], c).Some? ==>
      Run(t0, lines[..i + 1], c) == Ok(Step(Run(t0, lines[..i], c).value, lines[i], c).value)
  {
    assert lines[..i + 1][..i] == lines[..i];
  }

  /** Once line i panics, the import fails at line i, whatever follows. */
  lemma {:induction false} RunFailure<M>(t0: Tables<M>, lines: seq<string>, i: nat, c: Config<M>)
    requires i < |lines| && Run(t0, lines[..i], c).Ok?
    requires Step(Run(t0, lines[..i], c).value, lines[i], c).None?
    ensures Run(t0, lines, c) == Failed(i)
    decreases |lines|
  {
    if |lines| == i + 1 {
      assert lines[..|lines| - 1] == lines[..i];
    } else {
      var front := lines[..|lines| - 1];
      assert front[..i] == lines[..i];
      RunFailure(t0, front, i, c);
    }
  }

  /** A failure names the first line that panics: every line before it was
      imported and that line itself cannot be. */
  lemma {:induction false} FailedAtFirstBadLine<M>(t0: Tables<M>, lines: seq<string>, c: Config<M>)
    requires Run(t0, lines, c).Failed?
    ensures var i := Run(t0, lines, c).line;
      i < |lines| && Run(t0, lines[..i], c).Ok? && Step(Run(t0, lines[..i], c).value, lines[i], c).None?
    decreases |lines|
  {
    var front := lines[..|lines| - 1];
    if Run(t0, front, c).Failed? {
      FailedAtFirstBadLine(t0, front, c);
      var i := Run(t0, front, c).line;
      assert front[..i] == lines[..i];
    } else {
      assert lines[..|lines| - 1] == front;
    }
  }

  /** A blank line leaves every table unchanged. */
  lemma BlankLineSkipped<M>(t: Tables<M>, line: string, c: Config<M>)
    requires AllWhitespace(line)
    ensures Step(t, line, c) == Some(t)
  {
    WordsEmptyIffBlank(line);
  }

  /** A line whose keyword is none of `v`, `vt`, `vn`, `f` changes nothing. */
  lemma OtherKeywordSkipped<M>(t: Tables<M>, line: string, c: Config<M>)
    requires Keyword(line) !in {"v", "vt", "vn", "f"}
    ensures Step(t, line, c) == Some(t)
  {
  }

  /** A `v` line appends its three numbers to the vertices and nothing else;
      it fails exactly when a coordinate is missing or does not parse. */
  lemma VertexLine<M>(t: Tables<M>, line: string, c: Config<M>)
    requires Keyword(line) == "v"
    ensures Step(t, line, c).Some? <==> var w := Words(line);
      |w| >= 4 && c.parse(w[1]).Some? && c.parse(w[2]).Some? && c.parse(w[3]).Some?
    ensures Step(t, line, c).Some? ==> var w := Words(line);
      Step(t, line, c).value == t.(vertices := t.vertices + [Vec3(c.parse(w[1]).value, c.parse(w[2]).value, c.parse(w[3]).value)])
  {
  }

  /** A `vt` line appends its two numbers to the texture coordinates. */
  lemma TexCoordLine<M>(t: Tables<M>, line: string, c: Config<M>)
    requires Keyword(line) == "vt"
    ensures Step(t, line, c).Some? <==> var w := Words(line);
      |w| >= 3 && c.parse(w[1]).Some? && c.parse(w[2]).Some?
    ensures Step(t, line, c).Some? ==> var w := Words(line);
      Step(t, line, c).value == t.(texCoords := t.texCoords + [TexCoord(c.parse(w[1]).value, c.parse(w[2]).value)])
  {
  }

  /** A `vn` line appends its normal, negated when normals are flipped. */
  lemma NormalLine<M>(t: Tables<M>, line: string, c: Config<M>)
    requires Keyword(line) == "vn"
    ensures Step(t, line, c).Some? <==> var w := Words(line);
      |w| >= 4 && c.parse(w[1]).Some? && c.parse(w[2]).Some? && c.parse(w[3]).Some?
    ensures Step(t, line, c).Some? ==>
      var w := Words(line);
      var x, y, z := c.parse(w[1]).value, c.parse(w[2]).value, c.parse(w[3]).value;
      Step(t, line, c).value ==
        t.(normals := t.normals + [if c.flipNormals then Vec3(-x, -y, -z) else Vec3(x, y, z)])
  {
  }

  /** An `f` line appends one triangle, resolved from its decoded tokens, and
      nothing else. */
  lemma FaceLine<M>(t: Tables<M>, line: string, c: Config<M>)
    requires Keyword(line) == "f"
    ensures Step(t, line, c).Some? <==>
      DecodeFace(Words(line)[1..]).Some? && ResolveFace(DecodeFace(Words(line)[1..]).value, t, c.material).Some?
    ensures Step(t, line, c).Some? ==>
      Step(t, line, c).value ==
        t.(triangles := t.triangles + [ResolveFace(DecodeFace(Words(line)[1..]).value, t, c.material).value])
  {
  }

  /** How many of the lines have the given keyword. */
  function CountKeyword(lines: seq<string>, kw: string): nat
    decreases |lines|
  {
    if lines == [] then 0
    else CountKeyword(lines[..|lines| - 1], kw) + (if Keyword(lines[|lines| - 1]) == kw then 1 else 0)
  }

  ghost predicate Extends<M>(t: Tables<M>, t': Tables<M>) {
    t.vertices <= t'.vertices && t.normals <= t'.normals &&
    t.texCoords <= t'.texCoords && t.triangles <= t'.triangles
  }

  /** Each line adds exactly one entry, to the table its keyword names, and
      keeps what was there. */
  lemma StepGrowth<M>(t: Tables<M>, line: string, c: Config<M>)
    requires Step(t, line, c).Some?
    ensures var t' := Step(t, line, c).value;
      Extends(t, t') &&
      |t'.vertices| == |t.vertices| + (if Keyword(line) == "v" then 1 else 0) &&
      |t'.texCoords| == |t.texCoords| + (if Keyword(line) == "vt" then 1 else 0) &&
      |t'.normals| == |t.normals| + (if Keyword(line) == "vn" then 1 else 0) &&
      |t'.triangles| == |t.triangles| + (if Keyword(line) == "f" then 1 else 0)
  {
  }

  /** Over a whole file: the tables only grow, and each holds one entry per
      line with its keyword; in particular the mesh has one triangle per `f`
      line, in file order. */
  lemma {:induction false} RunCounts<M>(t0: Tables<M>, lines: seq<string>, c: Config<M>)
    requires Run(t0, lines, c).Ok?
    ensures var t := Run(t0, lines, c).value;
      Extends(t0, t) &&
      |t.vertices| == |t0.vertices| + CountKeyword(lines, "v") &&
      |t.texCoords| == |t0.texCoords| + CountKeyword(lines, "vt") &&
      |t.normals| == |t0.normals| + CountKeyword(lines, "vn") &&
      |t.triangles| == |t0.triangles| + CountKeyword(lines, "f")
    decreases |lines|
  {
    if lines != [] {
      var front := lines[..|lines| - 1];
      RunCounts(t0, front, c);
      StepGrowth(Run(t0, front, c).value, lines[|lines| - 1], c);
    }
  }

  /** The tables after a prefix of the file are a prefix of the final ones:
      a triangle, once appended, keeps its place. */
  lemma {:induction false} RunPrefix<M>(t0: Tables<M>, lines: seq<string>, n: nat, c: Config<M>)
    requires n <= |lines| && Run(t0, lines, c).Ok?
    ensures Run(t0, lines[..n], c).Ok?
    ensures Extends(Run(t0, lines[..n], c).value, Run(t0, lines, c).value)
    decreases |lines|
  {
    if n == |lines| {
      assert lines[..n] == lines;
    } else {
      var front := lines[..|lines| - 1];
      assert front[..n] == lines[..n];
      RunPrefix(t0, front, n, c);
      StepGrowth(Run(t0, front, c).value, lines[|lines| - 1], c);
    }
  }

  /** The mesh holds the triangles of the `f` lines and nothing else. */
  lemma MeshTriangles<M>(lines: seq<string>, c: Config<M>)
    requires ImportObj(lines, c).Ok?
    ensures |ImportObj(lines, c).value.triangles| == CountKeyword(lines, "f")
  {
    RunCounts(Empty(), lines, c);
  }
}
