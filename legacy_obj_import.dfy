/** The older OBJ mesh importer (`from_obj` in util/import.rs). Same line loop
    as the current one, but: lines with fewer than four tokens are skipped,
    coordinates are multiplied by a scale, face fields are looked up 1-based
    straight from their text, and the `v` texture values come from the third
    field of each corner. */
module LegacyObjImport {
  import opened Results
  import opened Text
  import opened Geometry

  function Zero(): Vec3 {
    Vec3(0.0, 0.0, 0.0)
  }

  /** A triangle as this version stores it: three positions, three normals,
      and the texture values `u` and `v` of the three corners as vectors. */
  datatype Triangle<M> = Triangle(v0: Vec3, v1: Vec3, v2: Vec3, n0: Vec3, n1: Vec3, n2: Vec3,
                                  u: Vec3, v: Vec3, material: M)

  datatype Mesh<M> = Mesh(position: Vec3, scale: real, triangles: seq<Triangle<M>>)

  datatype Tables<M> = Tables(vertices: seq<Vec3>, texCoords: seq<Vec3>, normals: seq<Vec3>,
                              triangles: seq<Triangle<M>>)

  /** The importer's parameters. `parse` stands for `from_str::<f64>`: a
      partial map from token to number that is not modelled further. */
  datatype Config<M> = Config(position: Vec3, scale: real, material: M, flipNormals: bool,
                              parse: string -> Option<real>)

  // ---------------------------------------------------------------------------
  // Token helpers

  /** `parse_coord_str`: the parsed number times `scale`; a token that does
      not parse panics. */
  function ParseCoord(parse: string -> Option<real>, coord: string, scale: real): Option<real> {
    match parse(coord)
    case Some(f) => Some(f * scale)
    case None => None
  }

  /** `get_string_index`: the token is a 1-based index into `table`; a token
      that is not a number, is 0 (its `x - 1` wraps and misses) or is past the
      end panics. */
  function GetStringIndex(i: string, table: seq<Vec3>): Option<Vec3> {
    match ParseUsize(i)
    case Some(x) => if 1 <= x <= |table| then Some(table[x - 1]) else None
    case None => None
  }

  /** `get_tex_coord`: like `get_string_index`, keeping the `x` component. */
  function GetTexCoord(i: string, texCoords: seq<Vec3>): Option<real> {
    match ParseUsize(i)
    case Some(x) => if 1 <= x <= |texCoords| then Some(texCoords[x - 1].x) else None
    case None => None
  }

  /** The lookups are 1-based: the decimal spelling of k+1 selects entry k,
      and they succeed on no other number. */
  lemma LookupOneBased(k: nat, table: seq<Vec3>)
    requires k < |table| && k < USIZE_MAX
    ensures GetStringIndex(ToDecimal(k + 1), table) == Some(table[k])
    ensures GetTexCoord(ToDecimal(k + 1), table) == Some(table[k].x)
  {
    DecimalRoundTrip(k + 1);
  }

  /** A lookup succeeds exactly when the token is a number between 1 and the
      table's length. */
  lemma LookupFailure(i: string, table: seq<Vec3>)
    ensures GetStringIndex(i, table).Some? <==> ParseUsize(i).Some? && 1 <= ParseUsize(i).value <= |table|
    ensures GetTexCoord(i, table).Some? <==> GetStringIndex(i, table).Some?
    ensures GetTexCoord(i, table).Some? ==> GetTexCoord(i, table).value == GetStringIndex(i, table).value.x
  {
  }

  /** Index 0 is never valid: OBJ indices start at 1. */
  lemma ZeroIndexFails(table: seq<Vec3>)
    ensures GetStringIndex("0", table) == None && GetTexCoord("0", table) == None
  {
    assert "0"[..0] == [];
  }

  // ---------------------------------------------------------------------------
  // One line

  function ParseVec3<M>(tokens: seq<string>, c: Config<M>, scale: real): Option<Vec3>
    requires |tokens| >= 4
  {
    var x, y, z := ParseCoord(c.parse, tokens[1], scale), ParseCoord(c.parse, tokens[2], scale),
                   ParseCoord(c.parse, tokens[3], scale);
    if x.Some? && y.Some? && z.Some? then Some(Vec3(x.value, y.value, z.value)) else None
  }

  /** The three coordinates parse exactly when each token does, and each is
      the parsed number times the factor. */
  lemma ParseVec3Spec<M>(tokens: seq<string>, c: Config<M>, scale: real)
    requires |tokens| >= 4
    ensures ParseVec3(tokens, c, scale).Some? <==>
      c.parse(tokens[1]).Some? && c.parse(tokens[2]).Some? && c.parse(tokens[3]).Some?
    ensures ParseVec3(tokens, c, scale).Some? ==>
      ParseVec3(tokens, c, scale).value ==
        Scaled(Vec3(c.parse(tokens[1]).value, c.parse(tokens[2]).value, c.parse(tokens[3]).value), scale)
  {
  }

  /** A texture coordinate: the first two numbers times `scale`, and z = 0. */
  function ParseTexCoord<M>(tokens: seq<string>, c: Config<M>): Option<Vec3>
    requires |tokens| >= 4
  {
    var x, y := ParseCoord(c.parse, tokens[1], c.scale), ParseCoord(c.parse, tokens[2], c.scale);
    if x.Some? && y.Some? then Some(Vec3(x.value, y.value, 0.0)) else None
  }

  lemma ParseTexCoordSpec<M>(tokens: seq<string>, c: Config<M>)
    requires |tokens| >= 4
    ensures ParseTexCoord(tokens, c).Some? <==> c.parse(tokens[1]).Some? && c.parse(tokens[2]).Some?
    ensures ParseTexCoord(tokens, c).Some? ==>
      ParseTexCoord(tokens, c).value == Vec3(c.parse(tokens[1]).value * c.scale, c.parse(tokens[2]).value * c.scale, 0.0)
  {
  }

  /** The factor a normal's components are multiplied by: `scale` times
      `normals_flip_scale`, which is itself `±1 * scale`. */
  function NormalFactor(flip: bool, scale: real): real {
    var normalsFlipScale := (if flip then -1.0 else 1.0) * scale;
    scale * normalsFlipScale
  }

  /** The scale is applied twice to normals: the factor is `scale * scale`,
      negated when normals are flipped. */
  lemma NormalFactorSpec(flip: bool, scale: real)
    ensures NormalFactor(flip, scale) == if flip then -(scale * scale) else scale * scale
  {
  }

  /** The texture values `(u, v)` of a face whose corners have the fields
      `f0`, `f1`, `f2`. Only when the first corner's second field is non-empty
      are they looked up: `u` from each corner's second field and `v` from its
      third, both taking the `x` component. */
  function FaceTexture(f0: seq<string>, f1: seq<string>, f2: seq<string>, texCoords: seq<Vec3>): Option<(Vec3, Vec3)>
    requires |f0| >= 2
  {
    if |f0[1]| > 0 then
      if |f0| >= 3 && |f1| >= 3 && |f2| >= 3 then
        match (GetTexCoord(f0[1], texCoords), GetTexCoord(f1[1], texCoords), GetTexCoord(f2[1], texCoords),
               GetTexCoord(f0[2], texCoords), GetTexCoord(f1[2], texCoords), GetTexCoord(f2[2], texCoords))
        case (Some(u0), Some(u1), Some(u2), Some(w0), Some(w1), Some(w2)) =>
          Some((Vec3(u0, u1, u2), Vec3(w0, w1, w2)))
        case _ => None
      else None
    else
      Some((Zero(), Zero()))
  }

  /** The triangle an `f` line produces from its first three face tokens
      (later ones are ignored); None when a lookup or a field access panics. */
  function Face<M>(tokens: seq<string>, t: Tables<M>, material: M): Option<Triangle<M>>
    requires |tokens| >= 4
  {
    var f0, f1, f2 := Split(tokens[1], '/'), Split(tokens[2], '/'), Split(tokens[3], '/');
    if |f0| < 2 then None
    else match FaceTexture(f0, f1, f2, t.texCoords)
      case None => None
      case Some((u, v)) =>
        if |f0| >= 3 && |f1| >= 3 && |f2| >= 3 then
          match (GetStringIndex(f0[0], t.vertices), GetStringIndex(f1[0], t.vertices),
                 GetStringIndex(f2[0], t.vertices), GetStringIndex(f0[2], t.normals),
                 GetStringIndex(f1[2], t.normals), GetStringIndex(f2[2], t.normals))
          case (Some(p0), Some(p1), Some(p2), Some(n0), Some(n1), Some(n2)) =>
            Some(Triangle(p0, p1, p2, n0, n1, n2, u, v, material))
          case _ => None
        else None
  }

  /** The tables after one line of the file, or None if the line panics. */
  function Step<M>(t: Tables<M>, line: string, c: Config<M>): Option<Tables<M>> {
    var tokens := Words(line);
    if |tokens| < 4 then Some(t)
    else if tokens[0] == "v" then
      match ParseVec3(tokens, c, c.scale)
      case Some(p) => Some(t.(vertices := t.vertices + [p]))
      case None => None
    else if tokens[0] == "vt" then
      match ParseTexCoord(tokens, c)
      case Some(uv) => Some(t.(texCoords := t.texCoords + [uv]))
      case None => None
    else if tokens[0] == "vn" then
      match ParseVec3(tokens, c, NormalFactor(c.flipNormals, c.scale))
      case Some(n) => Some(t.(normals := t.normals + [n]))
      case None => None
    else if tokens[0] == "f" then
      match Face(tokens, t, c.material)
      case Some(tri) => Some(t.(triangles := t.triangles + [tri]))
      case None => None
    else Some(t)
  }

  /** The tables after the given lines, starting from `t0`; `Failed(i)` names
      the first line that panics. */
  function Run<M>(t0: Tables<M>, lines: seq<string>, c: Config<M>): Result<Tables<M>>
    decreases |lines|
  {
    if lines == [] then Ok(t0)
    else match Run(t0, lines[..|lines| - 1], c)
      case Failed(i) => Failed(i)
      case Ok(t) =>
        match Step(t, lines[|lines| - 1], c)
        case Some(t') => Ok(t')
        case None => Failed(|lines| - 1)
  }

  /** The tables before the first line. */
  function Empty<M>(): Tables<M> {
    Tables([], [], [], [])
  }

  /** The mesh `from_obj` returns: its triangles, with the given position and scale. */
  function ImportObj<M>(lines: seq<string>, c: Config<M>): Result<Mesh<M>> {
    match Run(Empty(), lines, c)
    case Ok(t) => Ok(Mesh(c.position, c.scale, t.triangles))
    case Failed(i) => Failed(i)
  }

  // ---------------------------------------------------------------------------
  // The importer

  /** The line loop of `from_obj`. */
  method FromObj<M>(lines: seq<string>, c: Config<M>) returns (r: Result<Mesh<M>>)
    ensures r == ImportObj(lines, c)
  {
    var vertices: seq<Vec3> := [];
    var texCoords: seq<Vec3> := [];
    var normals: seq<Vec3> := [];
    var triangles: seq<Triangle<M>> := [];
    var i := 0;
    while i < |lines|
      invariant i <= |lines|
      invariant Run(Empty(), lines[..i], c) == Ok(Tables(vertices, texCoords, normals, triangles))
    {
      RunStep(Empty(), lines, i, c);
      var tokens := Words(lines[i]);
      if |tokens| < 4 {
        i := i + 1;
        continue;
      }
      if tokens[0] == "v" {
        var p := ParseVec3(tokens, c, c.scale);
        if p.None? {
          RunFailure(Empty(), lines, i, c);
          return Failed(i);
        }
        vertices := vertices + [p.value];
      } else if tokens[0] == "vt" {
        var x := ParseCoord(c.parse, tokens[1], c.scale);
        var y := ParseCoord(c.parse, tokens[2], c.scale);
        if x.None? || y.None? {
          RunFailure(Empty(), lines, i, c);
          return Failed(i);
        }
        texCoords := texCoords + [Vec3(x.value, y.value, 0.0)];
      } else if tokens[0] == "vn" {
        var normalsFlipScale := (if c.flipNormals then -1.0 else 1.0) * c.scale;
        assert c.scale * normalsFlipScale == NormalFactor(c.flipNormals, c.scale);
        var n := ParseVec3(tokens, c, c.scale * normalsFlipScale);
        if n.None? {
          RunFailure(Empty(), lines, i, c);
          return Failed(i);
        }
        normals := normals + [n.value];
      } else if tokens[0] == "f" {
        var tri := Face(tokens, Tables(vertices, texCoords, normals, triangles), c.material);
        if tri.None? {
          RunFailure(Empty(), lines, i, c);
          return Failed(i);
        }
        triangles := triangles + [tri.value];
      }
      i := i + 1;
    }
    assert lines[..i] == lines;
    r := Ok(Mesh(c.position, c.scale, triangles));
  }

  // ---------------------------------------------------------------------------
  // Properties of the line loop

  /** Importing one more line applies one step to the tables so far. */
  lemma RunStep<M>(t0: Tables<M>, lines: seq<string>, i: nat, c: Config<M>)
    requires i < |lines| && Run(t0, lines[..i], c).Ok?
    ensures Step(Run(t0, lines[..i], c).value, lines[i], c).Some? ==>
      Run(t0, lines[..i + 1], c) == Ok(Step(Run(t0, lines[..i], c).value, lines[i], c).value)
  {
    assert lines[..i + 1][..i] == lines[..i];
  }

  /** Once line i panics, the import fails at line i, whatever follows. */
  lemma {:induction false} RunFailure<M>(t0: Tables<M>, lines: seq<string>, i: nat, c: Config<M>)
    requires i < |lines| && Run(t0, lines[..i], c).Ok?
    requires Step(Run(t0, lines[..i], c).value, lines[i], c).None?
    ensures Run(t0, lines, c) == Failed(i)
    decreases |lines|
  {
    if |lines| == i + 1 {
      assert lines[..|lines| - 1] == lines[..i];
    } else {
      var front := lines[..|lines| - 1];
      assert front[..i] == lines[..i];
      RunFailure(t0, front, i, c);
    }
  }

  /** Any line with fewer than four tokens is skipped, whatever its keyword. */
  lemma ShortLineSkipped<M>(t: Tables<M>, line: string, c: Config<M>)
    requires |Words(line)| < 4
    ensures Step(t, line, c) == Some(t)
  {
  }

  /** In particular a two-coordinate texture line such as `vt 0.5 0.25` is
      dropped: the texture table does not grow. */
  lemma TwoCoordinateTexCoordSkipped<M>(t: Tables<M>, a: string, b: string, c: Config<M>)
    requires IsWord(a) && IsWord(b)
    ensures Step(t, Unwords(["vt", a, b]), c) == Some(t)
  {
    assert IsWord("vt");
    WordsUnwords(["vt", a, b]);
  }

  /** A `v` line appends its three coordinates times `scale`. */
  lemma VertexLine<M>(t: Tables<M>, line: string, c: Config<M>)
    requires |Words(line)| >= 4 && Words(line)[0] == "v"
    ensures Step(t, line, c).Some? <==> var w := Words(line);
      c.parse(w[1]).Some? && c.parse(w[2]).Some? && c.parse(w[3]).Some?
    ensures Step(t, line, c).Some? ==> var w := Words(line);
      Step(t, line, c).value == t.(vertices := t.vertices +
        [Scaled(Vec3(c.parse(w[1]).value, c.parse(w[2]).value, c.parse(w[3]).value), c.scale)])
  {
    ParseVec3Spec(Words(line), c, c.scale);
  }

  /** A `vt` line appends its first two coordinates times `scale`, with z = 0. */
  lemma TexCoordLine<M>(t: Tables<M>, line: string, c: Config<M>)
    requires |Words(line)| >= 4 && Words(line)[0] == "vt"
    ensures Step(t, line, c).Some? <==> var w := Words(line);
      c.parse(w[1]).Some? && c.parse(w[2]).Some?
    ensures Step(t, line, c).Some? ==> var w := Words(line);
      Step(t, line, c).value == t.(texCoords := t.texCoords +
        [Vec3(c.parse(w[1]).value * c.scale, c.parse(w[2]).value * c.scale, 0.0)])
  {
    ParseTexCoordSpec(Words(line), c);
  }

  /** A `vn` line appends its components times the normal factor, which is
      `scale * scale`, negated when normals are flipped (see NormalFactorSpec). */
  lemma NormalLine<M>(t: Tables<M>, line: string, c: Config<M>)
    requires |Words(line)| >= 4 && Words(line)[0] == "vn"
    ensures Step(t, line, c).Some? <==> var w := Words(line);
      c.parse(w[1]).Some? && c.parse(w[2]).Some? && c.parse(w[3]).Some?
    ensures Step(t, line, c).Some? ==> var w := Words(line);
      Step(t, line, c).value == t.(normals := t.normals +
        [Scaled(Vec3(c.parse(w[1]).value, c.parse(w[2]).value, c.parse(w[3]).value), NormalFactor(c.flipNormals, c.scale))])
  {
    ParseVec3Spec(Words(line), c, NormalFactor(c.flipNormals, c.scale));
  }

  /** Every position and normal lookup of a face whose corners have the
      fields `f0`, `f1`, `f2` succeeds. */
  predicate CornersFound<M>(f0: seq<string>, f1: seq<string>, f2: seq<string>, t: Tables<M>)
    requires |f0| >= 3 && |f1| >= 3 && |f2| >= 3
  {
    GetStringIndex(f0[0], t.vertices).Some? && GetStringIndex(f1[0], t.vertices).Some? &&
    GetStringIndex(f2[0], t.vertices).Some? && GetStringIndex(f0[2], t.normals).Some? &&
    GetStringIndex(f1[2], t.normals).Some? && GetStringIndex(f2[2], t.normals).Some?
  }

  /** Every texture lookup of such a face succeeds. */
  predicate TexturesFound(f0: seq<string>, f1: seq<string>, f2: seq<string>, texCoords: seq<Vec3>)
    requires |f0| >= 3 && |f1| >= 3 && |f2| >= 3
  {
    GetTexCoord(f0[1], texCoords).Some? && GetTexCoord(f1[1], texCoords).Some? &&
    GetTexCoord(f2[1], texCoords).Some? && GetTexCoord(f0[2], texCoords).Some? &&
    GetTexCoord(f1[2], texCoords).Some? && GetTexCoord(f2[2], texCoords).Some?
  }

  /** The texture values are found exactly when the first corner has no
      second field, or every corner has three fields and every texture lookup
      succeeds. */
  lemma FaceTextureSpec(f0: seq<string>, f1: seq<string>, f2: seq<string>, texCoords: seq<Vec3>)
    requires |f0| >= 2
    ensures FaceTexture(f0, f1, f2, texCoords).Some? <==>
      |f0[1]| == 0 || (|f0| >= 3 && |f1| >= 3 && |f2| >= 3 && TexturesFound(f0, f1, f2, texCoords))
  {
  }

  /** A face is built exactly when its corners have three fields each, every
      position and normal lookup succeeds, and its texture values are found. */
  lemma FaceSpec<M>(tokens: seq<string>, t: Tables<M>, material: M)
    requires |tokens| >= 4
    ensures var f0, f1, f2 := Split(tokens[1], '/'), Split(tokens[2], '/'), Split(tokens[3], '/');
      Face(tokens, t, material).Some? <==>
        |f0| >= 3 && |f1| >= 3 && |f2| >= 3 && CornersFound(f0, f1, f2, t) &&
        (|f0[1]| > 0 ==> TexturesFound(f0, f1, f2, t.texCoords))
  {
    var f0, f1, f2 := Split(tokens[1], '/'), Split(tokens[2], '/'), Split(tokens[3], '/');
    if |f0| >= 2 {
      FaceTextureSpec(f0, f1, f2, t.texCoords);
    }
  }

  /** An `f` line is imported exactly when its first three face tokens have
      at least three fields each, every position and normal lookup succeeds,
      and, when the first token's second field is non-empty, every texture
      lookup succeeds too. */
  lemma FaceLineSucceeds<M>(t: Tables<M>, line: string, c: Config<M>)
    requires |Words(line)| >= 4 && Words(line)[0] == "f"
    ensures var w := Words(line);
      var f0, f1, f2 := Split(w[1], '/'), Split(w[2], '/'), Split(w[3], '/');
      Step(t, line, c).Some? <==>
        |f0| >= 3 && |f1| >= 3 && |f2| >= 3 && CornersFound(f0, f1, f2, t) &&
        (|f0[1]| > 0 ==> TexturesFound(f0, f1, f2, t.texCoords))
  {
    FaceSpec(Words(line), t, c.material);
  }

  /** An imported `f` line appends one triangle. Its corners' positions and
      normals are the 1-based lookups of the first and third fields of the
      first three face tokens; `u` comes from the second fields and `v` from
      the third, both as `x` components, or both are zero when the first
      token's second field is empty. */
  lemma FaceLine<M>(t: Tables<M>, line: string, c: Config<M>)
    requires |Words(line)| >= 4 && Words(line)[0] == "f"
    ensures Step(t, line, c).Some? ==> var w := Words(line);
      var f0, f1, f2 := Split(w[1], '/'), Split(w[2], '/'), Split(w[3], '/');
      var tri := Step(t, line, c).value.triangles[|t.triangles|];
      Step(t, line, c).value == t.(triangles := t.triangles + [tri]) &&
      |f0| >= 3 && |f1| >= 3 && |f2| >= 3 &&
      Some(tri.v0) == GetStringIndex(f0[0], t.vertices) &&
      Some(tri.v1) == GetStringIndex(f1[0], t.vertices) &&
      Some(tri.v2) == GetStringIndex(f2[0], t.vertices) &&
      Some(tri.n0) == GetStringIndex(f0[2], t.normals) &&
      Some(tri.n1) == GetStringIndex(f1[2], t.normals) &&
      Some(tri.n2) == GetStringIndex(f2[2], t.normals) &&
      (|f0[1]| == 0 ==> tri.u == Zero() && tri.v == Zero()) &&
      (|f0[1]| > 0 ==>
         Some(tri.u.x) == GetTexCoord(f0[1], t.texCoords) &&
         Some(tri.u.y) == GetTexCoord(f1[1], t.texCoords) &&
         Some(tri.u.z) == GetTexCoord(f2[1], t.texCoords) &&
         Some(tri.v.x) == GetTexCoord(f0[2], t.texCoords) &&
         Some(tri.v.y) == GetTexCoord(f1[2], t.texCoords) &&
         Some(tri.v.z) == GetTexCoord(f2[2], t.texCoords)) &&
      tri.material == c.material
  {
  }

  /** The keyword a line is dispatched on: its first token when it has at
      least four, and "" for a line that is skipped. */
  function Keyword(line: string): string {
    var w := Words(line);
    if |w| >= 4 then w[0] else ""
  }

  /** How many of the lines are dispatched on the given keyword. */
  function CountKeyword(lines: seq<string>, kw: string): nat
    decreases |lines|
  {
    if lines == [] then 0
    else CountKeyword(lines[..|lines| - 1], kw) + (if Keyword(lines[|lines| - 1]) == kw then 1 else 0)
  }

  ghost predicate Extends<M>(t: Tables<M>, t': Tables<M>) {
    t.vertices <= t'.vertices && t.texCoords <= t'.texCoords &&
    t.normals <= t'.normals && t.triangles <= t'.triangles
  }

  /** Each imported line keeps what was there and adds exactly one entry, to
      the table its keyword names, or none for a skipped line or any other
      keyword. */
  lemma StepGrowth<M>(t: Tables<M>, line: string, c: Config<M>)
    requires Step(t, line, c).Some?
    ensures var t' := Step(t, line, c).value;
      Extends(t, t') &&
      |t'.vertices| == |t.vertices| + (if Keyword(line) == "v" then 1 else 0) &&
      |t'.texCoords| == |t.texCoords| + (if Keyword(line) == "vt" then 1 else 0) &&
      |t'.normals| == |t.normals| + (if Keyword(line) == "vn" then 1 else 0) &&
      |t'.triangles| == |t.triangles| + (if Keyword(line) == "f" then 1 else 0)
  {
  }

  /** Over a whole file: the tables only grow, and each holds one entry per
      line dispatched on its keyword. */
  lemma {:induction false} RunCounts<M>(t0: Tables<M>, lines: seq<string>, c: Config<M>)
    requires Run(t0, lines, c).Ok?
    ensures var t := Run(t0, lines, c).value;
      Extends(t0, t) &&
      |t.vertices| == |t0.vertices| + CountKeyword(lines, "v") &&
      |t.texCoords| == |t0.texCoords| + CountKeyword(lines, "vt") &&
      |t.normals| == |t0.normals| + CountKeyword(lines, "vn") &&
      |t.triangles| == |t0.triangles| + CountKeyword(lines, "f")
    decreases |lines|
  {
    if lines != [] {
      var front := lines[..|lines| - 1];
      RunCounts(t0, front, c);
      StepGrowth(Run(t0, front, c).value, lines[|lines| - 1], c);
    }
  }

  /** The tables after a prefix of the file are a prefix of the final ones:
      a triangle, once appended, keeps its place. */
  lemma {:induction false} RunPrefix<M>(t0: Tables<M>, lines: seq<string>, n: nat, c: Config<M>)
    requires n <= |lines| && Run(t0, lines, c).Ok?
    ensures Run(t0, lines[..n], c).Ok?
    ensures Extends(Run(t0, lines[..n], c).value, Run(t0, lines, c).value)
    decreases |lines|
  {
    if n == |lines| {
      assert lines[..n] == lines;
    } else {
      var front := lines[..|lines| - 1];
      assert front[..n] == lines[..n];
      RunPrefix(t0, front, n, c);
      StepGrowth(Run(t0, front, c).value, lines[|lines| - 1], c);
    }
  }

  /** The mesh carries the given position and scale, and one triangle per
      `f` line of at least four tokens. */
  lemma MeshTriangles<M>(lines: seq<string>, c: Config<M>)
    requires ImportObj(lines, c).Ok?
    ensures ImportObj(lines, c).value.position == c.position && ImportObj(lines, c).value.scale == c.scale
    ensures |ImportObj(lines, c).value.triangles| == CountKeyword(lines, "f")
  {
    RunCounts(Empty(), lines, c);
  }
}
