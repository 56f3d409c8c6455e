/** Loading a triangle mesh into a vertex array object: every index tuple of
    every shape becomes a vertex, equal vertices are stored once, and the
    index buffer refers to the stored copies. */
module Mesh {
  import opened Common

  /** `Vertex`: position, texture coordinate and normal. */
  datatype Vertex = Vertex(position: Vec3, texcoord: Vec2, normal: Vec3)

  /** `Vertex()`: every attribute zero. */
  const DefaultVertex: Vertex := Vertex(Zero3, Vec2(0.0, 0.0), Zero3)

  /** `Vertex::operator==`: unequal as soon as the positions, the texture
      coordinates or the normals differ. */
  function Equal(a: Vertex, b: Vertex): (r: bool)
    ensures r <==> a == b
  {
    if a.position != b.position then false
    else if a.texcoord != b.texcoord then false
    else if a.normal != b.normal then false
    else true
  }

  /** The attribute arrays of an OBJ file: three floats per position and per
      normal, two per texture coordinate. */
  datatype Attrib = Attrib(vertices: seq<real>, texcoords: seq<real>, normals: seq<real>)

  /** One corner of a face: indices into the attribute arrays, negative when
      the attribute is absent. */
  datatype IndexTuple = IndexTuple(vertexIndex: int, texcoordIndex: int, normalIndex: int)

  /** Every present attribute of t lies inside its array, as the OBJ loader
      guarantees. */
  predicate InBounds(attrib: Attrib, t: IndexTuple)
  {
    t.vertexIndex * 3 + 2 < |attrib.vertices| &&
    t.texcoordIndex * 2 + 1 < |attrib.texcoords| &&
    t.normalIndex * 3 + 2 < |attrib.normals|
  }

  /** The vertex built for one index tuple: each present attribute read from
      its array, each absent one left at its zero default. */
  function Assemble(attrib: Attrib, t: IndexTuple): (v: Vertex)
    requires InBounds(attrib, t)
    ensures t.vertexIndex < 0 ==> v.position == DefaultVertex.position
    ensures t.texcoordIndex < 0 ==> v.texcoord == DefaultVertex.texcoord
    ensures t.normalIndex < 0 ==> v.normal == DefaultVertex.normal
    ensures t.vertexIndex >= 0 ==> var i := 3 * t.vertexIndex;
      v.position == Vec3(attrib.vertices[i], attrib.vertices[i + 1], attrib.vertices[i + 2])
    ensures t.texcoordIndex >= 0 ==> var j := 2 * t.texcoordIndex;
      v.texcoord == Vec2(attrib.texcoords[j], attrib.texcoords[j + 1])
    ensures t.normalIndex >= 0 ==> var k := 3 * t.normalIndex;
      v.normal == Vec3(attrib.normals[k], attrib.normals[k + 1], attrib.normals[k + 2])
  {
    var i, j, k := t.vertexIndex, t.texcoordIndex, t.normalIndex;
    var position := if i >= 0 then
      Vec3(attrib.vertices[i * 3 + 0], attrib.vertices[i * 3 + 1], attrib.vertices[i * 3 + 2])
      else DefaultVertex.position;
    var texcoord := if j >= 0 then
      Vec2(attrib.texcoords[j * 2 + 0], attrib.texcoords[j * 2 + 1])
      else DefaultVertex.texcoord;
    var normal := if k >= 0 then
      Vec3(attrib.normals[k * 3 + 0], attrib.normals[k * 3 + 1], attrib.normals[k * 3 + 2])
      else DefaultVertex.normal;
    Vertex(position, texcoord, normal)
  }

  /** The index tuples of all shapes, shape after shape. */
  function Flatten(shapes: seq<seq<IndexTuple>>): seq<IndexTuple>
  {
    if |shapes| == 0 then [] else Flatten(shapes[..|shapes| - 1]) + shapes[|shapes| - 1]
  }

  /** The tuples of the first n shapes come first. */
  lemma {:induction false} FlattenPrefix(shapes: seq<seq<IndexTuple>>, n: nat)
    requires n <= |shapes|
    ensures Flatten(shapes[..n]) <= Flatten(shapes)
  {
    var m := |shapes|;
    assert shapes[..m] == shapes;
    if n < m {
      FlattenPrefix(shapes[..m - 1], n);
      assert shapes[..m - 1][..n] == shapes[..n];
    }
  }

  lemma FlattenStep(shapes: seq<seq<IndexTuple>>, n: nat)
    requires n < |shapes|
    ensures Flatten(shapes[..n + 1]) == Flatten(shapes[..n]) + shapes[n]
  {
    assert shapes[..n + 1][..n] == shapes[..n];
  }

  predicate AllInBounds(attrib: Attrib, ts: seq<IndexTuple>)
  {
    forall i | 0 <= i < |ts| :: InBounds(attrib, ts[i])
  }

  /** The vertex of every index tuple, in order. */
  function Assembly(attrib: Attrib, ts: seq<IndexTuple>): (vs: seq<Vertex>)
    requires AllInBounds(attrib, ts)
    ensures |vs| == |ts| && forall i | 0 <= i < |ts| :: vs[i] == Assemble(attrib, ts[i])
  {
    seq(|ts|, i requires 0 <= i < |ts| => Assemble(attrib, ts[i]))
  }

  /** Assembling a sequence of tuples assembles its two halves. */
  lemma AssemblyAppend(attrib: Attrib, a: seq<IndexTuple>, b: seq<IndexTuple>)
    requires AllInBounds(attrib, a + b)
    ensures AllInBounds(attrib, a) && AllInBounds(attrib, b)
    ensures Assembly(attrib, a + b) == Assembly(attrib, a) + Assembly(attrib, b)
  {
    assert forall i | 0 <= i < |a| :: (a + b)[i] == a[i];
    assert forall i | 0 <= i < |b| :: (a + b)[|a| + i] == b[i];
  }

  lemma InBoundsPrefix(attrib: Attrib, a: seq<IndexTuple>, b: seq<IndexTuple>)
    requires a <= b && AllInBounds(attrib, b)
    ensures AllInBounds(attrib, a)
  {
    assert forall i | 0 <= i < |a| :: a[i] == b[i];
  }

  /** The distinct vertices of vs in order of first occurrence. */
  function Unique(vs: seq<Vertex>): seq<Vertex>
  {
    if |vs| == 0 then []
    else
      var u := Unique(vs[..|vs| - 1]);
      if vs[|vs| - 1] in u then u else u + [vs[|vs| - 1]]
  }

  /** The distinct vertices are exactly the vertices, each stored once, and
      there are no more of them than vertices. */
  lemma {:induction false} UniqueSpec(vs: seq<Vertex>)
    ensures forall v :: v in Unique(vs) <==> v in vs
    ensures forall i, j | 0 <= i < j < |Unique(vs)| :: Unique(vs)[i] != Unique(vs)[j]
    ensures |Unique(vs)| <= |vs|
  {
    if |vs| > 0 {
      var init := vs[..|vs| - 1];
      UniqueSpec(init);
      assert vs == init + [vs[|vs| - 1]];
    }
  }

  /** The bookkeeping of the loop after the vertices `seen`: the vertex list
      is their distinct vertices, the map sends each of those to its place in
      the list and knows no other vertex, and index i names vertex i. */
  ghost predicate Deduplicated(seen: seq<Vertex>, uniqueVertices: map<Vertex, int>,
                               vertices: seq<Vertex>, indices: seq<int>)
  {
    vertices == Unique(seen) &&
    (forall v :: v in uniqueVertices <==> v in vertices) &&
    (forall v | v in uniqueVertices ::
      0 <= uniqueVertices[v] < |vertices| && vertices[uniqueVertices[v]] == v) &&
    |indices| == |seen| &&
    forall i | 0 <= i < |seen| :: 0 <= indices[i] < |vertices| && vertices[indices[i]] == seen[i]
  }

  /** The body of the inner loop for one vertex: a vertex the map does not
      know is appended to the list under the next number, then the vertex's
      number is appended to the indices. */
  method Visit(vertex: Vertex, uniqueVertices: map<Vertex, int>, vertices: seq<Vertex>,
               indices: seq<int>, ghost seen: seq<Vertex>)
      returns (uniqueVertices': map<Vertex, int>, vertices': seq<Vertex>, indices': seq<int>)
    requires Deduplicated(seen, uniqueVertices, vertices, indices)
    ensures Deduplicated(seen + [vertex], uniqueVertices', vertices', indices')
    ensures indices' == indices + [indices'[|indices|]]
  {
    uniqueVertices', vertices' := uniqueVertices, vertices;
    assert (seen + [vertex])[..|seen|] == seen;
    if vertex !in uniqueVertices {
      uniqueVertices' := uniqueVertices[vertex := |vertices|];
      vertices' := vertices + [vertex];
    }
    indices' := indices + [uniqueVertices'[vertex]];
  }

  /** The inner loop of `addMeshFromFile`, over the index tuples of one
      shape. */
  method VisitShape(attrib: Attrib, shape: seq<IndexTuple>, uniqueVertices: map<Vertex, int>,
                    vertices: seq<Vertex>, indices: seq<int>, ghost seen: seq<Vertex>)
      returns (uniqueVertices': map<Vertex, int>, vertices': seq<Vertex>, indices': seq<int>)
    requires AllInBounds(attrib, shape)
    requires Deduplicated(seen, uniqueVertices, vertices, indices)
    ensures Deduplicated(seen + Assembly(attrib, shape), uniqueVertices', vertices', indices')
  {
    uniqueVertices', vertices', indices' := uniqueVertices, vertices, indices;
    ghost var assembled := Assembly(attrib, shape);
    ghost var done := seen;
    var k := 0;
    while k < |shape|
      invariant 0 <= k <= |shape|
      invariant done == seen + assembled[..k]
      invariant Deduplicated(done, uniqueVertices', vertices', indices')
    {
      var vertex := Assemble(attrib, shape[k]);
      uniqueVertices', vertices', indices' := Visit(vertex, uniqueVertices', vertices', indices', done);
      PrefixStep(assembled, k);
      done := done + [vertex];
      k := k + 1;
    }
    assert assembled[..|shape|] == assembled;
  }

  /** A prefix one longer is the prefix followed by the next element. */
  lemma PrefixStep<T>(s: seq<T>, k: nat)
    requires k < |s|
    ensures s[..k + 1] == s[..k] + [s[k]]
  {
  }

  /** The loops of `addMeshFromFile` over the shapes and their index tuples:
      the vertex list holds each distinct assembled vertex once, in order of
      first occurrence, and the index list has one entry per tuple naming
      that tuple's vertex in the list. */
  method Deduplicate(attrib: Attrib, shapes: seq<seq<IndexTuple>>)
      returns (vertices: seq<Vertex>, indices: seq<int>)
    requires AllInBounds(attrib, Flatten(shapes))
    ensures vertices == Unique(Assembly(attrib, Flatten(shapes)))
    ensures |indices| == |Flatten(shapes)|
    ensures forall i | 0 <= i < |indices| ::
      0 <= indices[i] < |vertices| && vertices[indices[i]] == Assemble(attrib, Flatten(shapes)[i])
  {
    var uniqueVertices: map<Vertex, int> := map[];
    vertices, indices := [], [];
    var s := 0;
    while s < |shapes|
      invariant 0 <= s <= |shapes|
      invariant AllInBounds(attrib, Flatten(shapes[..s]))
      invariant Deduplicated(Assembly(attrib, Flatten(shapes[..s])), uniqueVertices, vertices, indices)
    {
      FlattenStep(shapes, s);
      FlattenPrefix(shapes, s + 1);
      InBoundsPrefix(attrib, Flatten(shapes[..s + 1]), Flatten(shapes));
      AssemblyAppend(attrib, Flatten(shapes[..s]), shapes[s]);
      uniqueVertices, vertices, indices := VisitShape(attrib, shapes[s], uniqueVertices, vertices,
                                                      indices, Assembly(attrib, Flatten(shapes[..s])));
      s := s + 1;
    }
    assert shapes[..|shapes|] == shapes;
  }

  /** A mesh as read from an OBJ file. */
  datatype ObjFile = ObjFile(attrib: Attrib, shapes: seq<seq<IndexTuple>>)

  /** `VertexArrayObject`: the contents of its vertex and index buffers and
      the number of indices it draws. */
  class VertexArrayObject {
    var vertexData: seq<Vertex>
    var indexData: seq<int>
    var bufferSize: int

    /** `addMeshFromFile(filename)`, with the file given by its parsed
        contents (None when it does not load, which ends the program). The
        buffers receive the distinct vertices and the index list, and the
        draw count becomes the number of indices. */
    method AddMeshFromFile(file: Option<ObjFile>) returns (r: Outcome<()>)
      requires file.Some? ==> AllInBounds(file.value.attrib, Flatten(file.value.shapes))
      modifies this
      ensures file.None? ==> r == Abort(OpenFailed) && unchanged(this)
      ensures file.Some? ==>
        r == Ok(()) &&
        var ts := Flatten(file.value.shapes);
        vertexData == Unique(Assembly(file.value.attrib, ts)) &&
        |indexData| == |ts| && bufferSize == |ts| &&
        forall i | 0 <= i < |ts| :: 0 <= indexData[i] < |vertexData| &&
          vertexData[indexData[i]] == Assemble(file.value.attrib, ts[i])
    {
      if file.None? {
        return Abort(OpenFailed);
      }
      var vertices, indices := Deduplicate(file.value.attrib, file.value.shapes);
      vertexData, indexData := vertices, indices;
      bufferSize := |indices|;
      return Ok(());
    }
  }
}
