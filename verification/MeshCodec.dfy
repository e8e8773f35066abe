/** The binary part-mesh artifact: little-endian words, and a codec that is a bijection onto what it accepts. */
module MeshCodec {

  import opened Octets

  /** Doubles appear only as 64-bit patterns. */
  datatype MeshPoint = MeshPoint(x: Word64, y: Word64, z: Word64)

  datatype MeshTriangle = MeshTriangle(a: MeshPoint, b: MeshPoint, c: MeshPoint)

  datatype PartMesh = PartMesh(id: seq<byte>, triangles: seq<MeshTriangle>)

  datatype DecodeError = BadSchema | Truncated | BadId | BadCount | TrailingBytes

  datatype Decoded = Mesh(mesh: PartMesh) | Failure(error: DecodeError)

  /** "ECKYPM01" */
  const MAGIC: seq<byte> := [69, 67, 75, 89, 80, 77, 48, 49]

  /** Sizes fit the words that store them. */
  predicate Storable(m: PartMesh) {
    |m.id| < U64 && |m.triangles| < U64
  }

  // ---------------------------------------------------------------- little-endian words

  function Power(n: nat): (r: nat)
    ensures r > 0
  {
    if n == 0 then 1 else 256 * Power(n - 1)
  }

  /** The n low bytes of v, lowest first. */
  function Bytes(v: nat, n: nat): (r: seq<byte>)
    ensures |r| == n
  {
    if n == 0 then [] else [(v % 256) as byte] + Bytes(v / 256, n - 1)
  }

  function Number(bytes: seq<byte>): nat {
    if bytes == [] then 0 else bytes[0] as nat + 256 * Number(bytes[1..])
  }

  lemma {:induction false} NumberOfBytes(v: nat, n: nat)
    requires v < Power(n)
    ensures Number(Bytes(v, n)) == v
  {
    if n == 0 {
    } else {
      assert Bytes(v, n)[1..] == Bytes(v / 256, n - 1);
      NumberOfBytes(v / 256, n - 1);
    }
  }

  lemma {:induction false} BytesOfNumber(bytes: seq<byte>)
    ensures Number(bytes) < Power(|bytes|) && Bytes(Number(bytes), |bytes|) == bytes
  {
    if bytes == [] {
    } else {
      BytesOfNumber(bytes[1..]);
      var rest := Number(bytes[1..]);
      assert (bytes[0] as nat + 256 * rest) % 256 == bytes[0] as nat && (bytes[0] as nat + 256 * rest) / 256 == rest;
    }
  }

  lemma WordPower()
    ensures Power(8) == U64
  {
    assert Power(4) == 0x1_0000_0000;
    assert Power(6) == 256 * 256 * Power(4);
  }

  /** One more byte: the one shifted down by n bytes. */
  lemma {:induction false} BytesNext(v: nat, n: nat)
    ensures Bytes(v, n + 1) == Bytes(v, n) + [(v / Power(n) % 256) as byte]
  {
    if n == 0 {
      assert Bytes(v / 256, 0) == [];
    } else {
      BytesNext(v / 256, n - 1);
      DivideTwice(v, Power(n - 1));
    }
  }

  /** A later byte adds its value at its place. */
  lemma {:induction false} NumberNext(bytes: seq<byte>, b: byte)
    ensures Number(bytes + [b]) == Number(bytes) + b as nat * Power(|bytes|)
  {
    if bytes == [] {
      assert bytes + [b] == [b];
    } else {
      assert (bytes + [b])[1..] == bytes[1..] + [b];
      NumberNext(bytes[1..], b);
      assert 256 * (b as nat * Power(|bytes| - 1)) == b as nat * Power(|bytes|);
    }
  }

  method AppendU64(bytes: seq<byte>, value: Word64) returns (r: seq<byte>)
    ensures r == bytes + Bytes(value, 8)
  {
    r := bytes;
    for k := 0 to 8
      invariant r == bytes + Bytes(value, k)
    {
      BytesNext(value, k);
      r := r + [(value / Power(k) % 256) as byte];
    }
  }

  /** The word at an offset; refused unless eight bytes are left. */
  method TakeU64(bytes: seq<byte>, offset: nat) returns (ok: bool, value: Word64, next: nat)
    requires offset <= |bytes|
    ensures ok <==> |bytes| - offset >= 8
    ensures ok ==> next == offset + 8 && value == Number(bytes[offset..next]) && Bytes(value, 8) == bytes[offset..next]
  {
    if |bytes| - offset < 8 {
      return false, 0, offset;
    }
    var v := 0;
    next := offset;
    for k := 0 to 8
      invariant next == offset + k && v == Number(bytes[offset..next])
    {
      assert bytes[offset..next + 1] == bytes[offset..next] + [bytes[next]];
      NumberNext(bytes[offset..next], bytes[next]);
      v := v + bytes[next] as nat * Power(k);
      next := next + 1;
    }
    WordPower();
    BytesOfNumber(bytes[offset..next]);
    return true, v, next;
  }

  // ---------------------------------------------------------------- the format

  function PointBytes(p: MeshPoint): (r: seq<byte>)
    ensures |r| == 24
  {
    Bytes(p.x, 8) + Bytes(p.y, 8) + Bytes(p.z, 8)
  }

  function TriangleBytes(t: MeshTriangle): (r: seq<byte>)
    ensures |r| == 72
  {
    PointBytes(t.a) + PointBytes(t.b) + PointBytes(t.c)
  }

  function TrianglesBytes(ts: seq<MeshTriangle>): (r: seq<byte>)
    ensures |r| == 72 * |ts|
  {
    if ts == [] then [] else TrianglesBytes(ts[..|ts| - 1]) + TriangleBytes(ts[|ts| - 1])
  }

  /** Magic, id with its length, triangle count, nine words a triangle. */
  function Format(m: PartMesh): seq<byte> {
    MAGIC + Bytes(|m.id|, 8) + m.id + Bytes(|m.triangles|, 8) + TrianglesBytes(m.triangles)
  }

  lemma WordInjective(v: Word64, w: Word64)
    requires Bytes(v, 8) == Bytes(w, 8)
    ensures v == w
  {
    WordPower();
    NumberOfBytes(v, 8);
    NumberOfBytes(w, 8);
  }

  lemma PointInjective(p: MeshPoint, q: MeshPoint)
    requires PointBytes(p) == PointBytes(q)
    ensures p == q
  {
    SplitEqual(Bytes(p.x, 8) + Bytes(p.y, 8), Bytes(p.z, 8), Bytes(q.x, 8) + Bytes(q.y, 8), Bytes(q.z, 8));
    SplitEqual(Bytes(p.x, 8), Bytes(p.y, 8), Bytes(q.x, 8), Bytes(q.y, 8));
    WordInjective(p.x, q.x); WordInjective(p.y, q.y); WordInjective(p.z, q.z);
  }

  lemma TriangleInjective(t: MeshTriangle, u: MeshTriangle)
    requires TriangleBytes(t) == TriangleBytes(u)
    ensures t == u
  {
    SplitEqual(PointBytes(t.a) + PointBytes(t.b), PointBytes(t.c), PointBytes(u.a) + PointBytes(u.b), PointBytes(u.c));
    SplitEqual(PointBytes(t.a), PointBytes(t.b), PointBytes(u.a), PointBytes(u.b));
    PointInjective(t.a, u.a); PointInjective(t.b, u.b); PointInjective(t.c, u.c);
  }

  lemma {:induction false} TrianglesInjective(ts: seq<MeshTriangle>, us: seq<MeshTriangle>)
    requires |ts| == |us| && TrianglesBytes(ts) == TrianglesBytes(us)
    ensures ts == us
  {
    if ts == [] {
    } else {
      var n := |ts| - 1;
      SplitEqual(TrianglesBytes(ts[..n]), TriangleBytes(ts[n]), TrianglesBytes(us[..n]), TriangleBytes(us[n]));
      TriangleInjective(ts[n], us[n]);
      TrianglesInjective(ts[..n], us[..n]);
      assert ts == ts[..n] + [ts[n]] && us == us[..n] + [us[n]];
    }
  }

  /** Where each field of a formatted mesh lies. */
  lemma Layout(m: PartMesh)
    requires Storable(m)
    ensures var b, n, k := Format(m), |m.id|, |m.triangles|;
            && |b| == 24 + n + 72 * k
            && b[..8] == MAGIC && Number(b[8..16]) == n && b[16..16 + n] == m.id
            && Number(b[16 + n..24 + n]) == k && b[24 + n..] == TrianglesBytes(m.triangles)
  {
    hide Bytes; hide Number; hide TrianglesBytes;
    var b, n := Format(m), |m.id|;
    WordPower();
    NumberOfBytes(n, 8);
    NumberOfBytes(|m.triangles|, 8);
    assert b[8..16] == Bytes(n, 8);
    assert b[16 + n..24 + n] == Bytes(|m.triangles|, 8);
  }

  /** The first byte counts ones, each later one 256 times what the one before it counts. */
  lemma NumberOfEight(b: seq<byte>)
    requires |b| == 8
    ensures Number(b)
         == b[0] as nat + 0x100 * b[1] as nat + 0x1_0000 * b[2] as nat + 0x100_0000 * b[3] as nat
            + 0x1_0000_0000 * b[4] as nat + 0x100_0000_0000 * b[5] as nat + 0x1_0000_0000_0000 * b[6] as nat
            + 0x100_0000_0000_0000 * b[7] as nat
  {
    NumberOfFour(b[4..]);
    NumberOfFour(b);
    assert b[4..][4..] == [] && Number([]) == 0;
  }

  lemma NumberOfFour(b: seq<byte>)
    requires |b| >= 4
    ensures Number(b)
         == b[0] as nat + 0x100 * b[1] as nat + 0x1_0000 * b[2] as nat + 0x100_0000 * b[3] as nat
            + 0x1_0000_0000 * Number(b[4..])
  {
    assert b[1..][1..] == b[2..] && b[2..][1..] == b[3..] && b[3..][1..] == b[4..];
    assert Number(b) == b[0] as nat + 256 * Number(b[1..]) && Number(b[1..]) == b[1] as nat + 256 * Number(b[2..]);
    assert Number(b[2..]) == b[2] as nat + 256 * Number(b[3..]) && Number(b[3..]) == b[3] as nat + 256 * Number(b[4..]);
  }

  function Corner(t: MeshTriangle, j: nat): MeshPoint
    requires j < 3
  {
    if j == 0 then t.a else if j == 1 then t.b else t.c
  }

  function Coordinate(p: MeshPoint, i: nat): Word64
    requires i < 3
  {
    if i == 0 then p.x else if i == 1 then p.y else p.z
  }

  lemma CoordinateAt(p: MeshPoint, i: nat)
    requires i < 3
    ensures PointBytes(p)[8 * i..8 * i + 8] == Bytes(Coordinate(p, i), 8)
  {
    hide Bytes;
  }

  lemma CornerAt(t: MeshTriangle, j: nat)
    requires j < 3
    ensures TriangleBytes(t)[24 * j..24 * j + 24] == PointBytes(Corner(t, j))
  {
    hide PointBytes;
  }

  lemma {:induction false} TriangleAt(ts: seq<MeshTriangle>, k: nat)
    requires k < |ts|
    ensures TrianglesBytes(ts)[72 * k..72 * k + 72] == TriangleBytes(ts[k])
  {
    hide TriangleBytes;
    var n := |ts| - 1;
    if k == n {
    } else {
      TriangleAt(ts[..n], k);
      assert TrianglesBytes(ts)[72 * k..72 * k + 72] == TrianglesBytes(ts[..n])[72 * k..72 * k + 72];
    }
  }

  lemma SliceOfSlice<T>(s: seq<T>, a: nat, b: nat, c: nat, d: nat)
    requires a <= b <= |s| && c <= d <= b - a
    ensures s[a..b][c..d] == s[a + c..a + d]
  {
    var u, v := s[a..b][c..d], s[a + c..a + d];
    assert |u| == |v|;
    forall i | 0 <= i < |u|
      ensures u[i] == v[i]
    {
      assert u[i] == s[a..b][c + i];
    }
  }

  /** Coordinate i of corner j of triangle k, all from 0, is word 9k + 3j + i behind the triangle count. */
  lemma WordAt(m: PartMesh, k: nat, j: nat, i: nat)
    requires Storable(m) && k < |m.triangles| && j < 3 && i < 3
    ensures var at := 24 + |m.id| + 72 * k + 24 * j + 8 * i;
            at + 8 <= |Format(m)| && Number(Format(m)[at..at + 8]) == Coordinate(Corner(m.triangles[k], j), i)
  {
    hide Format; hide TrianglesBytes; hide TriangleBytes; hide PointBytes; hide Bytes; hide Number;
    var t, f, h := m.triangles[k], Format(m), 24 + |m.id|;
    var c := Corner(t, j);
    Layout(m);
    TriangleAt(m.triangles, k);
    CornerAt(t, j);
    CoordinateAt(c, i);
    var all := f[h..];
    SliceOfSlice(all, 72 * k, 72 * k + 72, 24 * j, 24 * j + 24);
    SliceOfSlice(all, 72 * k + 24 * j, 72 * k + 24 * j + 24, 8 * i, 8 * i + 8);
    SliceOfSlice(f, h, |f|, 72 * k + 24 * j + 8 * i, 72 * k + 24 * j + 8 * i + 8);
    assert f[h..|f|] == all;
    WordPower();
    NumberOfBytes(Coordinate(c, i), 8);
  }

  /** Two meshes with one artifact are one mesh. */
  lemma FormatInjective(m: PartMesh, n: PartMesh)
    requires Storable(m) && Storable(n) && Format(m) == Format(n)
    ensures m == n
  {
    Layout(m);
    Layout(n);
    TrianglesInjective(m.triangles, n.triangles);
  }

  // ---------------------------------------------------------------- the codec

  method AppendPoint(bytes: seq<byte>, p: MeshPoint) returns (r: seq<byte>)
    ensures r == bytes + PointBytes(p)
  {
    hide Bytes;
    r := AppendU64(bytes, p.x);
    r := AppendU64(r, p.y);
    r := AppendU64(r, p.z);
  }

  method Encode(m: PartMesh) returns (bytes: seq<byte>)
    requires Storable(m)
    ensures bytes == Format(m)
  {
    hide Bytes; hide PointBytes;
    bytes := MAGIC;
    bytes := AppendU64(bytes, |m.id|);
    bytes := bytes + m.id;
    bytes := AppendU64(bytes, |m.triangles|);
    ghost var head := bytes;
    for k := 0 to |m.triangles|
      invariant bytes == head + TrianglesBytes(m.triangles[..k])
    {
      assert m.triangles[..k + 1][..k] == m.triangles[..k];
      bytes := AppendPoint(bytes, m.triangles[k].a);
      bytes := AppendPoint(bytes, m.triangles[k].b);
      bytes := AppendPoint(bytes, m.triangles[k].c);
    }
    assert m.triangles[..|m.triangles|] == m.triangles;
  }

  method TakePoint(bytes: seq<byte>, offset: nat) returns (p: MeshPoint)
    requires offset + 24 <= |bytes|
    ensures PointBytes(p) == bytes[offset..offset + 24]
  {
    hide Bytes; hide Number;
    var _, x, next := TakeU64(bytes, offset);
    var _, y, after := TakeU64(bytes, next);
    var _, z, last := TakeU64(bytes, after);
    p := MeshPoint(x, y, z);
    assert bytes[offset..offset + 24] == bytes[offset..next] + bytes[next..after] + bytes[after..last];
  }

  /** No artifact goes on where another one ends. */
  lemma PrefixFree(m: PartMesh, n: PartMesh)
    requires Storable(m) && Storable(n) && Format(m) <= Format(n)
    ensures m == n
  {
    hide Format; hide TrianglesBytes;
    Layout(m);
    Layout(n);
    Inside(m, Format(n));
    FormatInjective(m, n);
  }

  ghost predicate StartsWithArtifact(bytes: seq<byte>) {
    exists m :: Storable(m) && Format(m) < bytes
  }

  /** What an artifact at the start of the bytes makes of their fields. */
  lemma Inside(m: PartMesh, bytes: seq<byte>)
    requires Storable(m) && Format(m) <= bytes
    ensures |Format(m)| == 24 + |m.id| + 72 * |m.triangles| <= |bytes|
    ensures bytes[..8] == MAGIC && Number(bytes[8..16]) == |m.id|
    ensures Number(bytes[16 + |m.id|..24 + |m.id|]) == |m.triangles|
  {
    hide Format; hide TrianglesBytes; hide Number;
    Layout(m);
    var f, n := Format(m), |m.id|;
    assert bytes[..8] == f[..8] && bytes[8..16] == f[8..16] && bytes[16 + n..24 + n] == f[16 + n..24 + n];
  }

  /** The id is said to reach beyond the end. */
  predicate IdTooLong(bytes: seq<byte>) {
    |bytes| >= 16 && Number(bytes[8..16]) > |bytes| - 16
  }

  /** The end comes before one of the two lengths. */
  predicate CutOff(bytes: seq<byte>) {
    |bytes| < 16 || (!IdTooLong(bytes) && |bytes| < 24 + Number(bytes[8..16]))
  }

  /** More triangles are announced than bytes are left for. */
  predicate CountTooLarge(bytes: seq<byte>) {
    !CutOff(bytes) && !IdTooLong(bytes) &&
    var start := 24 + Number(bytes[8..16]);
    Number(bytes[start - 8..start]) > (|bytes| - start) / 72
  }

  /**
   * Decoding accepts exactly the artifacts of storable meshes, and returns the mesh whose artifact
   * it was given. It speaks of the schema when the magic is missing, and of trailing bytes exactly when
   * an artifact is followed by something; the other three errors say which length does not fit.
   */
  method Decode(bytes: seq<byte>) returns (r: Decoded)
    ensures r.Mesh? ==> Storable(r.mesh) && Format(r.mesh) == bytes
    ensures r.Failure? ==> forall m :: Storable(m) ==> Format(m) != bytes
    ensures r == Failure(BadSchema) <==> !(MAGIC <= bytes)
    ensures r == Failure(TrailingBytes) <==> StartsWithArtifact(bytes)
    ensures r == Failure(Truncated) <==> MAGIC <= bytes && CutOff(bytes)
    ensures r == Failure(BadId) <==> MAGIC <= bytes && IdTooLong(bytes)
    ensures r == Failure(BadCount) <==> MAGIC <= bytes && CountTooLarge(bytes)
  {
    hide Bytes; hide Number; hide Format; hide PointBytes;
    forall m | Storable(m) && Format(m) <= bytes
      ensures |Format(m)| == 24 + |m.id| + 72 * |m.triangles| <= |bytes| && bytes[..8] == MAGIC
      ensures Number(bytes[8..16]) == |m.id|
      ensures Number(bytes[16 + |m.id|..24 + |m.id|]) == |m.triangles|
    {
      Inside(m, bytes);
    }
    if |bytes| < 8 || bytes[..8] != MAGIC {
      return Failure(BadSchema);
    }
    var ok, idSize, offset := TakeU64(bytes, 8);
    if !ok {
      return Failure(Truncated);
    }
    if idSize > |bytes| - offset {
      return Failure(BadId);
    }
    var id := bytes[offset..offset + idSize];
    offset := offset + idSize;
    var count, start;
    ok, count, start := TakeU64(bytes, offset);
    if !ok {
      return Failure(Truncated);
    }
    if count > (|bytes| - start) / 72 {
      return Failure(BadCount);
    }
    var triangles := TakeTriangles(bytes, start, count);
    offset := start + 72 * count;
    var mesh := PartMesh(id, triangles);
    Assembled(bytes, mesh, start, offset);
    if offset != |bytes| {
      return Failure(TrailingBytes);
    }
    assert bytes[..offset] == bytes;
    forall m | Storable(m) && Format(m) <= bytes
      ensures m == mesh
    {
      PrefixFree(m, mesh);
    }
    r := Mesh(mesh);
  }

  method TakeTriangles(bytes: seq<byte>, start: nat, count: nat) returns (triangles: seq<MeshTriangle>)
    requires start + 72 * count <= |bytes|
    ensures |triangles| == count && TrianglesBytes(triangles) == bytes[start..start + 72 * count]
  {
    hide Bytes; hide Number; hide PointBytes;
    triangles := [];
    var offset := start;
    for k := 0 to count
      invariant |triangles| == k && offset == start + 72 * k
      invariant TrianglesBytes(triangles) == bytes[start..offset]
    {
      var a := TakePoint(bytes, offset);
      var b := TakePoint(bytes, offset + 24);
      var c := TakePoint(bytes, offset + 48);
      var t := MeshTriangle(a, b, c);
      assert bytes[offset..offset + 72] == bytes[offset..offset + 24] + bytes[offset + 24..offset + 48]
        + bytes[offset + 48..offset + 72];
      assert bytes[start..offset + 72] == bytes[start..offset] + bytes[offset..offset + 72];
      assert (triangles + [t])[..k] == triangles;
      triangles := triangles + [t];
      offset := offset + 72;
    }
  }

  lemma Assembled(bytes: seq<byte>, m: PartMesh, start: nat, end: nat)
    requires start == 24 + |m.id| && start <= end <= |bytes| && Storable(m) && bytes[..8] == MAGIC
    requires Bytes(|m.id|, 8) == bytes[8..16] && m.id == bytes[16..16 + |m.id|]
    requires Bytes(|m.triangles|, 8) == bytes[16 + |m.id|..start] && TrianglesBytes(m.triangles) == bytes[start..end]
    ensures Format(m) == bytes[..end]
  {
    hide Bytes; hide TrianglesBytes;
    var n := |m.id|;
    assert bytes[..end] == bytes[..8] + bytes[8..16] + bytes[16..16 + n] + bytes[16 + n..start] + bytes[start..end];
  }

  /** decode(encode(m)) is m, for every mesh. */
  method RoundTrip(m: PartMesh) returns (r: Decoded)
    requires Storable(m)
    ensures r == Mesh(m)
  {
    var bytes := Encode(m);
    r := Decode(bytes);
    if r.Mesh? {
      FormatInjective(m, r.mesh);
    }
  }
}
