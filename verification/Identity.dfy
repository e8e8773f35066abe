/**
 * Execution identities: fields framed by their length, unordered fields sorted first, and the stream of
 * all of them hashed. The stream can be read back in one way only.
 */
module Identity {

  import opened Octets
  import opened Decimals
  import opened Sha256
  import opened Sorting

  /** The resolved inputs of a command; the seven scalars are named in the order they are hashed. */
  datatype Input = Input(cacheSchema: Text, runnerAbi: Text, runnerBinaryDigest: Text, occtRuntime: Text,
                         tolerancePolicy: Text, tessellationPolicy: Text, op: Text, args: seq<Text>,
                         keywords: seq<Text>, selectors: seq<Text>, dependencies: seq<Text>, imports: seq<Text>)

  function Ascii(s: string): Text {
    seq(|s|, i requires 0 <= i < |s| => (s[i] as int % 256) as byte)
  }

  const SEMICOLON: byte := 59
  const LABEL: Text := Ascii("ecky-direct-occt-execution-identity-v1")
  const SHA_PREFIX: Text := Ascii("sha256:")

  // ---------------------------------------------------------------- framing

  function Field(value: Text): Text {
    Decimal(|value|) + [COLON] + value + [SEMICOLON]
  }

  function FieldsInOrder(values: seq<Text>): Text {
    if values == [] then [] else Field(values[0]) + FieldsInOrder(values[1..])
  }

  /** A list: its length as a field of its own, then its elements. */
  function Fields(values: seq<Text>): Text {
    Field(Decimal(|values|)) + FieldsInOrder(values)
  }

  lemma FieldCancel(v: Text, w: Text, s: Text, t: Text)
    requires Field(v) + s == Field(w) + t
    ensures v == w && s == t
  {
    hide Decimal;
    var a, b := Decimal(|v|), Decimal(|w|);
    DecimalNoColon(|v|);
    DecimalNoColon(|w|);
    assert Field(v) + s == a + [COLON] + (v + [SEMICOLON] + s) && Field(w) + t == b + [COLON] + (w + [SEMICOLON] + t);
    ColonCancel(a, b, v + [SEMICOLON] + s, w + [SEMICOLON] + t);
    DecimalInjective(|v|, |w|);
    SplitEqual(v + [SEMICOLON], s, w + [SEMICOLON], t);
    SplitEqual(v, [SEMICOLON], w, [SEMICOLON]);
  }

  lemma {:induction false} FieldsInOrderCancel(v: seq<Text>, w: seq<Text>, s: Text, t: Text)
    requires |v| == |w| && FieldsInOrder(v) + s == FieldsInOrder(w) + t
    ensures v == w && s == t
  {
    hide Field;
    if v == [] {
      assert FieldsInOrder(v) + s == s && FieldsInOrder(w) + t == t;
    } else {
      assert FieldsInOrder(v) + s == Field(v[0]) + (FieldsInOrder(v[1..]) + s);
      assert FieldsInOrder(w) + t == Field(w[0]) + (FieldsInOrder(w[1..]) + t);
      FieldCancel(v[0], w[0], FieldsInOrder(v[1..]) + s, FieldsInOrder(w[1..]) + t);
      FieldsInOrderCancel(v[1..], w[1..], s, t);
      assert v == [v[0]] + v[1..] && w == [w[0]] + w[1..];
    }
  }

  lemma FieldsCancel(v: seq<Text>, w: seq<Text>, s: Text, t: Text)
    requires Fields(v) + s == Fields(w) + t
    ensures v == w && s == t
  {
    hide Field; hide FieldsInOrder;
    var a, b := Decimal(|v|), Decimal(|w|);
    assert Fields(v) + s == Field(a) + (FieldsInOrder(v) + s) && Fields(w) + t == Field(b) + (FieldsInOrder(w) + t);
    FieldCancel(a, b, FieldsInOrder(v) + s, FieldsInOrder(w) + t);
    DecimalInjective(|v|, |w|);
    FieldsInOrderCancel(v, w, s, t);
  }

  lemma {:induction false} FieldsInOrderAppend(v: seq<Text>, last: Text)
    ensures FieldsInOrder(v + [last]) == FieldsInOrder(v) + Field(last)
  {
    hide Field;
    if v == [] {
      assert v + [last] == [last] && [last][1..] == [];
      assert FieldsInOrder([last]) == Field(last) + FieldsInOrder([]);
    } else {
      assert (v + [last])[1..] == v[1..] + [last];
      FieldsInOrderAppend(v[1..], last);
    }
  }

  // ---------------------------------------------------------------- unordered fields

  predicate ByteLess(x: byte, y: byte) {
    x < y
  }

  /** The byte-wise lexicographic order. */
  predicate TextAtMost(a: Text, b: Text) {
    AtMost(ByteLess, a, b)
  }

  lemma TextsOrdered()
    ensures TotalOrder(TextAtMost)
  {
    hide AtMost;
    LexicographicTotal(ByteLess);
    forall a: Text, b: Text, c: Text
      ensures TextAtMost(a, b) || TextAtMost(b, a)
      ensures TextAtMost(a, b) && TextAtMost(b, c) ==> TextAtMost(a, c)
      ensures TextAtMost(a, b) && TextAtMost(b, a) ==> a == b
    {
      var le := (a: Text, b: Text) => AtMost(ByteLess, a, b);
      assert le(a, b) || le(b, a);
      assert le(a, b) && le(b, c) ==> le(a, c);
      assert le(a, b) && le(b, a) ==> a == b;
    }
  }

  /** The fields in their normal order. */
  function Normalized(values: seq<Text>): (r: seq<Text>)
    ensures multiset(r) == multiset(values)
  {
    Sort(TextAtMost, values)
  }

  lemma NormalizedSame(v: seq<Text>, w: seq<Text>)
    ensures Normalized(v) == Normalized(w) <==> multiset(v) == multiset(w)
  {
    TextsOrdered();
    SortSame(TextAtMost, v, w);
  }

  // ---------------------------------------------------------------- printed digests

  function Nibble(w: Word, shift: bv6): Word
    requires shift < 32
  {
    (w >> shift) & 15
  }

  function HexDigit(n: Word): byte {
    if n == 0 then 48 else if n == 1 then 49 else if n == 2 then 50 else if n == 3 then 51
    else if n == 4 then 52 else if n == 5 then 53 else if n == 6 then 54 else if n == 7 then 55
    else if n == 8 then 56 else if n == 9 then 57 else if n == 10 then 97 else if n == 11 then 98
    else if n == 12 then 99 else if n == 13 then 100 else if n == 14 then 101 else 102
  }

  function HexWord(w: Word): (r: Text)
    ensures |r| == 8
  {
    [HexDigit(Nibble(w, 28)), HexDigit(Nibble(w, 24)), HexDigit(Nibble(w, 20)), HexDigit(Nibble(w, 16)),
     HexDigit(Nibble(w, 12)), HexDigit(Nibble(w, 8)), HexDigit(Nibble(w, 4)), HexDigit(Nibble(w, 0))]
  }

  function Hex(r: Registers): Text {
    HexWord(r.a) + HexWord(r.b) + HexWord(r.c) + HexWord(r.d) + HexWord(r.e) + HexWord(r.f) + HexWord(r.g)
      + HexWord(r.h)
  }

  lemma HexDigitInjective(m: Word, n: Word)
    requires m <= 15 && n <= 15 && HexDigit(m) == HexDigit(n)
    ensures m == n
  {
  }

  lemma NibbleSmall(w: Word, shift: bv6)
    requires shift < 32
    ensures Nibble(w, shift) <= 15
  {
  }

  lemma NibblesDetermine(v: Word, w: Word)
    requires Nibble(v, 0) == Nibble(w, 0) && Nibble(v, 4) == Nibble(w, 4) && Nibble(v, 8) == Nibble(w, 8)
    requires Nibble(v, 12) == Nibble(w, 12)
    requires Nibble(v, 16) == Nibble(w, 16) && Nibble(v, 20) == Nibble(w, 20)
    requires Nibble(v, 24) == Nibble(w, 24) && Nibble(v, 28) == Nibble(w, 28)
    ensures v == w
  {
  }

  lemma SameNibble(v: Word, w: Word, shift: bv6)
    requires shift < 32 && HexDigit(Nibble(v, shift)) == HexDigit(Nibble(w, shift))
    ensures Nibble(v, shift) == Nibble(w, shift)
  {
    hide Nibble; hide HexDigit;
    NibbleSmall(v, shift);
    NibbleSmall(w, shift);
    HexDigitInjective(Nibble(v, shift), Nibble(w, shift));
  }

  lemma HexWordInjective(v: Word, w: Word)
    requires HexWord(v) == HexWord(w)
    ensures v == w
  {
    hide Nibble; hide HexDigit;
    var a, b := HexWord(v), HexWord(w);
    assert a[0] == b[0] && a[1] == b[1] && a[2] == b[2] && a[3] == b[3] && a[4] == b[4] && a[5] == b[5];
    assert a[6] == b[6] && a[7] == b[7];
    SameNibble(v, w, 28); SameNibble(v, w, 24); SameNibble(v, w, 20); SameNibble(v, w, 16);
    SameNibble(v, w, 12); SameNibble(v, w, 8); SameNibble(v, w, 4); SameNibble(v, w, 0);
    NibblesDetermine(v, w);
  }

  /** The printed digest determines the registers. */
  lemma HexInjective(v: Registers, w: Registers)
    requires Hex(v) == Hex(w)
    ensures v == w
  {
    hide HexWord;
    var v1, w1 := HexWord(v.a), HexWord(w.a);
    var v2, w2 := v1 + HexWord(v.b), w1 + HexWord(w.b);
    var v3, w3 := v2 + HexWord(v.c), w2 + HexWord(w.c);
    var v4, w4 := v3 + HexWord(v.d), w3 + HexWord(w.d);
    var v5, w5 := v4 + HexWord(v.e), w4 + HexWord(w.e);
    var v6, w6 := v5 + HexWord(v.f), w5 + HexWord(w.f);
    var v7, w7 := v6 + HexWord(v.g), w6 + HexWord(w.g);
    SplitEqual(v7, HexWord(v.h), w7, HexWord(w.h));
    SplitEqual(v6, HexWord(v.g), w6, HexWord(w.g));
    SplitEqual(v5, HexWord(v.f), w5, HexWord(w.f));
    SplitEqual(v4, HexWord(v.e), w4, HexWord(w.e));
    SplitEqual(v3, HexWord(v.d), w3, HexWord(w.d));
    SplitEqual(v2, HexWord(v.c), w2, HexWord(w.c));
    SplitEqual(v1, HexWord(v.b), w1, HexWord(w.b));
    HexWordInjective(v.a, w.a); HexWordInjective(v.b, w.b); HexWordInjective(v.c, w.c); HexWordInjective(v.d, w.d);
    HexWordInjective(v.e, w.e); HexWordInjective(v.f, w.f); HexWordInjective(v.g, w.g); HexWordInjective(v.h, w.h);
  }

  /** "sha256:" and the digest. */
  function Printed(message: Text): Text {
    SHA_PREFIX + Hex(Digest(message))
  }

  lemma PrintedSame(m: Text, n: Text)
    ensures Printed(m) == Printed(n) <==> Digest(m) == Digest(n)
  {
    hide Hex; hide Digest;
    if Printed(m) == Printed(n) {
      SplitEqual(SHA_PREFIX, Hex(Digest(m)), SHA_PREFIX, Hex(Digest(n)));
      HexInjective(Digest(m), Digest(n));
    }
  }

  // ---------------------------------------------------------------- the hashed stream

  function Scalars(x: Input): (r: seq<Text>)
    ensures |r| == 8
  {
    [LABEL, x.cacheSchema, x.runnerAbi, x.runnerBinaryDigest, x.occtRuntime, x.tolerancePolicy, x.tessellationPolicy,
     x.op]
  }

  function ImportDigests(payloads: seq<Text>): (r: seq<Text>)
    ensures |r| == |payloads|
  {
    if payloads == [] then [] else ImportDigests(payloads[..|payloads| - 1]) + [Printed(payloads[|payloads| - 1])]
  }

  /** The lists after the scalars. */
  function Lists(x: Input): Text {
    Fields(x.args) + (Fields(Normalized(x.keywords)) + (Fields(Normalized(x.selectors)) +
    (Fields(x.dependencies) + Fields(ImportDigests(x.imports)))))
  }

  function Hashed(x: Input): Text {
    FieldsInOrder(Scalars(x)) + Lists(x)
  }

  function IdentityOf(x: Input): Text {
    Printed(Hashed(x))
  }

  /** What an identity is to depend on: order counts except among keywords and among selectors. */
  ghost predicate SameScalars(x: Input, y: Input) {
    && x.cacheSchema == y.cacheSchema && x.runnerAbi == y.runnerAbi && x.runnerBinaryDigest == y.runnerBinaryDigest
    && x.occtRuntime == y.occtRuntime && x.tolerancePolicy == y.tolerancePolicy
    && x.tessellationPolicy == y.tessellationPolicy && x.op == y.op
  }

  ghost predicate SameInputs(x: Input, y: Input) {
    && SameScalars(x, y) && x.args == y.args && x.dependencies == y.dependencies
    && multiset(x.keywords) == multiset(y.keywords) && multiset(x.selectors) == multiset(y.selectors)
  }

  lemma ListsSame(x: Input, y: Input)
    requires Lists(x) == Lists(y)
    ensures x.args == y.args && x.dependencies == y.dependencies
    ensures multiset(x.keywords) == multiset(y.keywords) && multiset(x.selectors) == multiset(y.selectors)
    ensures ImportDigests(x.imports) == ImportDigests(y.imports)
  {
    hide Fields; hide Normalized; hide ImportDigests;
    var xi, yi := Fields(ImportDigests(x.imports)), Fields(ImportDigests(y.imports));
    var xd, yd := Fields(x.dependencies) + xi, Fields(y.dependencies) + yi;
    var xs, ys := Fields(Normalized(x.selectors)) + xd, Fields(Normalized(y.selectors)) + yd;
    var xk, yk := Fields(Normalized(x.keywords)) + xs, Fields(Normalized(y.keywords)) + ys;
    FieldsCancel(x.args, y.args, xk, yk);
    FieldsCancel(Normalized(x.keywords), Normalized(y.keywords), xs, ys);
    FieldsCancel(Normalized(x.selectors), Normalized(y.selectors), xd, yd);
    FieldsCancel(x.dependencies, y.dependencies, xi, yi);
    assert xi + [] == yi + [];
    FieldsCancel(ImportDigests(x.imports), ImportDigests(y.imports), [], []);
    NormalizedSame(x.keywords, y.keywords);
    NormalizedSame(x.selectors, y.selectors);
  }

  /** The hashed stream is uniquely decodable. */
  lemma HashedUnique(x: Input, y: Input)
    ensures Hashed(x) == Hashed(y) <==> SameInputs(x, y) && ImportDigests(x.imports) == ImportDigests(y.imports)
  {
    hide FieldsInOrder; hide Lists; hide ImportDigests;
    if Hashed(x) == Hashed(y) {
      var s, t := Scalars(x), Scalars(y);
      FieldsInOrderCancel(s, t, Lists(x), Lists(y));
      assert s[1] == t[1] && s[2] == t[2] && s[3] == t[3] && s[4] == t[4] && s[5] == t[5] && s[6] == t[6];
      assert s[7] == t[7];
      ListsSame(x, y);
    } else if SameInputs(x, y) && ImportDigests(x.imports) == ImportDigests(y.imports) {
      SameHashed(x, y);
    }
  }

  lemma SameHashed(x: Input, y: Input)
    requires SameInputs(x, y) && ImportDigests(x.imports) == ImportDigests(y.imports)
    ensures Hashed(x) == Hashed(y)
  {
    hide Normalized; hide ImportDigests; hide Fields; hide FieldsInOrder;
    NormalizedSame(x.keywords, y.keywords);
    NormalizedSame(x.selectors, y.selectors);
    assert Scalars(x) == Scalars(y);
  }

  ghost predicate Collision(m: Text, n: Text) {
    m != n && Digest(m) == Digest(n)
  }

  lemma {:induction false} ImportDigestsSame(v: seq<Text>, w: seq<Text>) returns (m: Text, n: Text)
    requires ImportDigests(v) == ImportDigests(w)
    ensures v == w || Collision(m, n)
  {
    hide Printed; hide Digest;
    m, n := [], [];
    if v == [] {
    } else {
      var k := |v| - 1;
      assert |w| == |v|;
      SplitEqual(ImportDigests(v[..k]), [Printed(v[k])], ImportDigests(w[..k]), [Printed(w[k])]);
      assert [Printed(v[k])][0] == [Printed(w[k])][0];
      PrintedSame(v[k], w[k]);
      if v[k] != w[k] {
        m, n := v[k], w[k];
      } else {
        m, n := ImportDigestsSame(v[..k], w[..k]);
        assert v == v[..k] + [v[k]] && w == w[..k] + [w[k]];
      }
    }
  }

  /**
   * Inputs with one identity are the same inputs with the same imports, or two different messages with one
   * SHA-256 digest are at hand.
   */
  lemma IdentityFaithful(x: Input, y: Input) returns (m: Text, n: Text)
    requires IdentityOf(x) == IdentityOf(y)
    ensures (SameInputs(x, y) && x.imports == y.imports) || Collision(m, n)
  {
    hide Printed; hide Digest; hide Hashed; hide ImportDigests; hide SameInputs;
    PrintedSame(Hashed(x), Hashed(y));
    if Hashed(x) != Hashed(y) {
      m, n := Hashed(x), Hashed(y);
    } else {
      HashedUnique(x, y);
      m, n := ImportDigestsSame(x.imports, y.imports);
    }
  }

  /** Inputs that differ in the order of keywords or of selectors only have one identity. */
  lemma IdentityStable(x: Input, y: Input)
    requires SameInputs(x, y) && x.imports == y.imports
    ensures IdentityOf(x) == IdentityOf(y)
  {
    hide Printed;
    SameHashed(x, y);
  }

  // ---------------------------------------------------------------- hashing step by step

  method AppendField(hash: Stream, value: Text)
    requires hash.Valid()
    modifies hash, hash.buffer
    ensures hash.Valid() && hash.buffer == old(hash.buffer)
    ensures hash.Message() == old(hash.Message()) + Field(value)
  {
    hide Decimal; hide Stream.Valid; hide Stream.Message; hide Stream.Absorbed;
    hash.Update(Decimal(|value|));
    hash.Update([COLON]);
    hash.Update(value);
    hash.Update([SEMICOLON]);
  }

  method AppendInOrder(hash: Stream, values: seq<Text>)
    requires hash.Valid()
    modifies hash, hash.buffer
    ensures hash.Valid() && hash.buffer == old(hash.buffer)
    ensures hash.Message() == old(hash.Message()) + FieldsInOrder(values)
  {
    hide Field; hide Stream.Message; hide Stream.Absorbed;
    ghost var head := hash.Message();
    for k := 0 to |values|
      invariant hash.Valid() && hash.buffer == old(hash.buffer)
      invariant hash.Message() == head + FieldsInOrder(values[..k])
    {
      AppendField(hash, values[k]);
      assert values[..k + 1] == values[..k] + [values[k]];
      FieldsInOrderAppend(values[..k], values[k]);
    }
    assert values[..|values|] == values;
  }

  method AppendFields(hash: Stream, values: seq<Text>)
    requires hash.Valid()
    modifies hash, hash.buffer
    ensures hash.Valid() && hash.buffer == old(hash.buffer)
    ensures hash.Message() == old(hash.Message()) + Fields(values)
  {
    hide Field; hide FieldsInOrder; hide Stream.Valid; hide Stream.Message; hide Stream.Absorbed; hide Decimal;
    AppendField(hash, Decimal(|values|));
    AppendInOrder(hash, values);
  }

  /** The printed digest of a payload. */
  method PrintedDigest(payload: Text) returns (r: Text)
    ensures r == Printed(payload)
  {
    hide Digest; hide Hex;
    var hash := new Stream();
    hash.Update(payload);
    assert hash.Message() == payload;
    var registers := hash.Finish();
    r := SHA_PREFIX + Hex(registers);
  }

  method PrintedDigests(payloads: seq<Text>) returns (digests: seq<Text>)
    ensures digests == ImportDigests(payloads)
  {
    hide Printed;
    digests := [];
    for k := 0 to |payloads|
      invariant digests == ImportDigests(payloads[..k])
    {
      var digest := PrintedDigest(payloads[k]);
      digests := digests + [digest];
      assert payloads[..k + 1][..k] == payloads[..k];
    }
    assert payloads[..|payloads|] == payloads;
  }

  method AppendScalars(hash: Stream, x: Input)
    requires hash.Valid()
    modifies hash, hash.buffer
    ensures hash.Valid() && hash.buffer == old(hash.buffer)
    ensures hash.Message() == old(hash.Message()) + FieldsInOrder(Scalars(x))
  {
    hide Field; hide FieldsInOrder; hide Stream.Valid; hide Stream.Message; hide Stream.Absorbed;
    ghost var scalars := Scalars(x);
    AppendField(hash, LABEL);
    AppendField(hash, x.cacheSchema);
    AppendField(hash, x.runnerAbi);
    AppendField(hash, x.runnerBinaryDigest);
    AppendField(hash, x.occtRuntime);
    AppendField(hash, x.tolerancePolicy);
    AppendField(hash, x.tessellationPolicy);
    AppendField(hash, x.op);
    EightFields(scalars);
  }

  method AppendLists(hash: Stream, x: Input)
    requires hash.Valid()
    modifies hash, hash.buffer
    ensures hash.Valid() && hash.buffer == old(hash.buffer)
    ensures hash.Message() == old(hash.Message()) + Lists(x)
  {
    hide Fields; hide Stream.Valid; hide Stream.Message; hide Stream.Absorbed; hide ImportDigests; hide Normalized;
    AppendFields(hash, x.args);
    AppendFields(hash, Normalized(x.keywords));
    AppendFields(hash, Normalized(x.selectors));
    AppendFields(hash, x.dependencies);
    var digests := PrintedDigests(x.imports);
    AppendFields(hash, digests);
  }

  method ExecutionIdentity(x: Input) returns (identity: Text)
    ensures identity == IdentityOf(x)
  {
    hide FieldsInOrder; hide Lists; hide Digest; hide Hex; hide Stream.Message; hide Stream.Absorbed;
    var hash := new Stream();
    AppendScalars(hash, x);
    AppendLists(hash, x);
    assert hash.Message() == Hashed(x);
    var registers := hash.Finish();
    identity := SHA_PREFIX + Hex(registers);
  }

  lemma EightFields(v: seq<Text>)
    requires |v| == 8
    ensures FieldsInOrder(v) == Field(v[0]) + Field(v[1]) + Field(v[2]) + Field(v[3]) + Field(v[4]) + Field(v[5])
      + Field(v[6]) + Field(v[7])
  {
    hide Field; hide FieldsInOrder;
    NoFields();
    FirstField(v[7..]); FirstField(v[6..]); FirstField(v[5..]); FirstField(v[4..]);
    FirstField(v[3..]); FirstField(v[2..]); FirstField(v[1..]); FirstField(v);
    assert v[7..][1..] == [] && v[6..][1..] == v[7..] && v[5..][1..] == v[6..] && v[4..][1..] == v[5..];
    assert v[3..][1..] == v[4..] && v[2..][1..] == v[3..] && v[1..][1..] == v[2..];
  }

  lemma NoFields()
    ensures FieldsInOrder([]) == []
  {
  }

  lemma FirstField(v: seq<Text>)
    requires v != []
    ensures FieldsInOrder(v) == Field(v[0]) + FieldsInOrder(v[1..])
  {
  }
}
