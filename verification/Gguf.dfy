// gguf.py: the GGUF v2/v3 header reader.
//
// `GgufFormat` says what a header is and how it is laid out in bytes ("File
// Structure" of the GGUF specification), independently of any reader.
// `GgufParser` is the grammar the reader follows, and `GgufReader` is the
// reader itself, which moves a cursor and skips what it does not need.

module LittleEndian {
  import opened Basics

  function Pow(w: nat): (p: nat)
    ensures p >= 1
  {
    if w == 0 then 1 else 256 * Pow(w - 1)
  }

  function Encode(v: nat, w: nat): (b: Bytes)
    ensures |b| == w
  {
    if w == 0 then [] else [(v % 256) as byte] + Encode(v / 256, w - 1)
  }

  function Decode(b: Bytes): nat {
    if b == [] then 0 else b[0] as nat + 256 * Decode(b[1..])
  }

  lemma {:induction false} DecodeEncode(v: nat, w: nat)
    requires v < Pow(w)
    ensures Decode(Encode(v, w)) == v
  {
    if w > 0 {
      DecodeEncode(v / 256, w - 1);
      assert Encode(v, w)[1..] == Encode(v / 256, w - 1);
    }
  }

  lemma {:induction false} EncodeDecode(b: Bytes)
    ensures Decode(b) < Pow(|b|) && Encode(Decode(b), |b|) == b
  {
    if b != [] {
      EncodeDecode(b[1..]);
      FirstDigit(b[0] as nat, Decode(b[1..]), Pow(|b| - 1));
      assert b == [b[0]] + b[1..];
    }
  }

  lemma FirstDigit(x: nat, rest: nat, p: nat)
    requires x < 256 && rest < p
    ensures (x + 256 * rest) % 256 == x && (x + 256 * rest) / 256 == rest && x + 256 * rest < 256 * p
  {
  }

  // Two's complement in w bytes.
  function EncodeInt(i: int, w: nat): Bytes {
    Encode(i % Pow(w), w)
  }

  function Signed(u: nat, w: nat, signed: bool): int {
    if signed && 2 * u >= Pow(w) then u - Pow(w) else u
  }

  predicate Fits(i: int, w: nat, signed: bool) {
    if signed then 0 <= 2 * i + Pow(w) < 2 * Pow(w) else 0 <= i < Pow(w)
  }

  lemma Wraps(i: int, p: nat)
    requires p > 0 && 0 <= i + p && i < p
    ensures i % p == if i < 0 then i + p else i
  {
    if i < 0 {
      assert (i + p) % p == i % p by { assert i + p == p * 1 + i; }
    }
  }

  lemma SignedOfEncoded(i: int, w: nat, signed: bool)
    requires Fits(i, w, signed)
    ensures Signed(i % Pow(w), w, signed) == i
  {
    Wraps(i, Pow(w));
  }

  lemma EncodedOfSigned(u: nat, w: nat, signed: bool)
    requires u < Pow(w)
    ensures Fits(Signed(u, w, signed), w, signed) && Signed(u, w, signed) % Pow(w) == u
  {
    Wraps(Signed(u, w, signed), Pow(w));
  }
}

module GgufFormat {
  import opened Basics
  import opened LittleEndian

  const MAX_KV := 4096
  const MAX_STRING := 0x10_0000
  const MAX_ARRAY := 0x100_0000

  const TYPE_STRING := 8
  const TYPE_ARRAY := 9

  // Width and signedness of the integer types, bool among them.
  function IntType(code: nat): Option<(nat, bool)> {
    match code
    case 0 => Some((1, false))
    case 1 => Some((1, true))
    case 2 => Some((2, false))
    case 3 => Some((2, true))
    case 4 => Some((4, false))
    case 5 => Some((4, true))
    case 7 => Some((1, false))
    case 10 => Some((8, false))
    case 11 => Some((8, true))
    case _ => None
  }

  function FloatWidth(code: nat): Option<nat> {
    if code == 6 then Some(4) else if code == 12 then Some(8) else None
  }

  // The width of one element of a numeric array.
  function Width(code: nat): Option<nat> {
    if IntType(code).Some? then Some(IntType(code).value.0) else FloatWidth(code)
  }

  datatype Value =
    | Text(text: Bytes)
    | Integer(code: nat, i: int)
    | Float(code: nat, raw: Bytes)
    | Texts(texts: seq<Bytes>)
    | Numbers(code: nat, count: nat, raw: Bytes)

  datatype Pair = Pair(key: Bytes, value: Value)

  datatype Header = Header(version: nat, tensorCount: nat, pairs: seq<Pair>)

  // ---- Layout ----

  function TextBytes(t: Bytes): Bytes {
    Encode(|t|, 8) + t
  }

  // Items one after the other.
  function Many<T>(xs: seq<T>, layout: T -> Bytes): Bytes {
    if xs == [] then [] else layout(xs[0]) + Many(xs[1..], layout)
  }

  function TypeCode(v: Value): nat {
    match v
    case Text(_) => TYPE_STRING
    case Integer(code, _) => code
    case Float(code, _) => code
    case Texts(_) => TYPE_ARRAY
    case Numbers(_, _, _) => TYPE_ARRAY
  }

  function ValueBytes(v: Value): Bytes {
    match v
    case Text(t) => TextBytes(t)
    case Integer(code, i) => EncodeInt(i, if IntType(code).Some? then IntType(code).value.0 else 0)
    case Float(_, raw) => raw
    case Texts(ts) => Encode(TYPE_STRING, 4) + Encode(|ts|, 8) + Many(ts, TextBytes)
    case Numbers(code, count, raw) => Encode(code, 4) + Encode(count, 8) + raw
  }

  function PairBytes(p: Pair): Bytes {
    TextBytes(p.key) + Encode(TypeCode(p.value), 4) + ValueBytes(p.value)
  }

  const MAGIC: Bytes := [71, 71, 85, 70]   // "GGUF"

  function CountsBytes(h: Header): Bytes {
    Encode(h.tensorCount, 8) + Encode(|h.pairs|, 8) + Many(h.pairs, PairBytes)
  }

  function HeaderBytes(h: Header): Bytes {
    MAGIC + Encode(h.version, 4) + CountsBytes(h)
  }

  // ---- Limits ----

  predicate ValueOk(v: Value) {
    match v
    case Text(t) => |t| <= MAX_STRING
    case Integer(code, i) =>
      IntType(code).Some? && Fits(i, IntType(code).value.0, IntType(code).value.1)
    case Float(code, raw) => FloatWidth(code) == Some(|raw|)
    case Texts(ts) => |ts| <= MAX_ARRAY && forall t | t in ts :: |t| < Pow(8)
    case Numbers(code, count, raw) =>
      Width(code).Some? && count <= MAX_ARRAY && |raw| == Width(code).value * count
  }

  predicate PairOk(p: Pair) {
    |p.key| <= MAX_STRING && ValueOk(p.value)
  }

  predicate HeaderOk(h: Header) {
    && (h.version == 2 || h.version == 3) && h.tensorCount < Pow(8)
    && |h.pairs| <= MAX_KV && forall p | p in h.pairs :: PairOk(p)
  }
}

// The layout, byte for byte where it can be said without the definitions.
module GgufAnchors {
  import opened Basics
  import opened LittleEndian
  import opened GgufFormat

  lemma NumbersAreLittleEndian(a: byte, b: byte, c: byte, d: byte)
    ensures Encode(a as nat + 0x100 * b as nat + 0x1_0000 * c as nat + 0x100_0000 * d as nat, 4) == [a, b, c, d]
  {
    var bs := [a, b, c, d];
    assert bs[1..] == [b, c, d] && [b, c, d][1..] == [c, d] && [c, d][1..] == [d] && [d][1..] == [];
    assert Decode([d]) == d as nat;
    assert Decode([c, d]) == c as nat + 0x100 * d as nat;
    assert Decode([b, c, d]) == b as nat + 0x100 * (c as nat + 0x100 * d as nat);
    EncodeDecode(bs);
  }

  // The value types of the GGUF specification: eight integers and bool with
  // their widths, two floats, strings and arrays.
  lemma TypesAreAsSpecified(code: nat)
    ensures IntType(code) == (if code == 0 || code == 7 then Some((1, false)) else if code == 1 then Some((1, true))
                              else if code == 2 then Some((2, false)) else if code == 3 then Some((2, true))
                              else if code == 4 then Some((4, false)) else if code == 5 then Some((4, true))
                              else if code == 10 then Some((8, false)) else if code == 11 then Some((8, true)) else None)
    ensures FloatWidth(code) == (if code == 6 then Some(4) else if code == 12 then Some(8) else None)
    ensures TypeCode(Text([])) == 8 && TypeCode(Texts([])) == 9 && TypeCode(Numbers(code, 0, [])) == 9
  {
  }

  // "GGUF", then the version in four bytes, the counts in eight bytes each, and
  // every pair as its key, its type in four bytes and its value.
  lemma HeaderStartsAsSpecified(h: Header)
    ensures HeaderBytes(h) == [0x47, 0x47, 0x55, 0x46] + Encode(h.version, 4)
                              + (Encode(h.tensorCount, 8) + Encode(|h.pairs|, 8) + Many(h.pairs, PairBytes))
    ensures forall key, t :: PairBytes(Pair(key, Text(t)))
                             == Encode(|key|, 8) + key + Encode(8, 4) + (Encode(|t|, 8) + t)
  {
  }

  // An array is the type of its elements in four bytes, their number in eight,
  // and the elements one after the other.
  lemma ArraysAreAsSpecified(ts: seq<Bytes>, code: nat, count: nat, raw: Bytes)
    ensures ValueBytes(Texts(ts)) == Encode(8, 4) + Encode(|ts|, 8) + Many(ts, TextBytes)
    ensures ValueBytes(Numbers(code, count, raw)) == Encode(code, 4) + Encode(count, 8) + raw
  {
  }

  // The limits of one pair and of a header, in numbers.
  lemma PairLimits(p: Pair)
    ensures PairOk(p)
       <==> |p.key| <= 1048576 && match p.value
                                  case Text(t) => |t| <= 1048576
                                  case Integer(code, i) => IntType(code).Some? && Fits(i, IntType(code).value.0, IntType(code).value.1)
                                  case Float(code, raw) => FloatWidth(code) == Some(|raw|)
                                  case Texts(ts) => |ts| <= 16777216 && forall t | t in ts :: |t| < Pow(8)
                                  case Numbers(code, count, raw) =>
                                    Width(code).Some? && count <= 16777216 && |raw| == Width(code).value * count
  {
  }

  lemma HeaderLimits(h: Header)
    ensures HeaderOk(h)
       <==> (h.version == 2 || h.version == 3) && h.tensorCount < Pow(8) && |h.pairs| <= 4096
            && forall p | p in h.pairs :: PairOk(p)
  {
  }
}

module GgufParser {
  import opened Basics
  import opened LittleEndian
  import opened GgufFormat

  datatype Parsed<+T> = Fail | Got(value: T, rest: Bytes)

  function Take(b: Bytes, n: nat): Parsed<Bytes> {
    if n <= |b| then Got(b[..n], b[n..]) else Fail
  }

  function Uint(b: Bytes, w: nat): Parsed<nat> {
    match Take(b, w)
    case Fail => Fail
    case Got(raw, rest) => Got(Decode(raw), rest)
  }

  // A length and that many bytes.
  function Sized(b: Bytes): Parsed<Bytes> {
    match Uint(b, 8)
    case Fail => Fail
    case Got(n, rest) => Take(rest, n)
  }

  function ParseText(b: Bytes): Parsed<Bytes> {
    match Uint(b, 8)
    case Fail => Fail
    case Got(n, rest) => if n > MAX_STRING then Fail else Take(rest, n)
  }

  function ParseMany<T>(b: Bytes, count: nat, one: Bytes -> Parsed<T>): Parsed<seq<T>>
    decreases count
  {
    if count == 0 then Got([], b)
    else
      match one(b)
      case Fail => Fail
      case Got(x, rest) =>
        match ParseMany(rest, count - 1, one)
        case Fail => Fail
        case Got(xs, rest') => Got([x] + xs, rest')
  }

  function ParseArray(b: Bytes): Parsed<Value> {
    match Uint(b, 4)
    case Fail => Fail
    case Got(code, rest) =>
      match Uint(rest, 8)
      case Fail => Fail
      case Got(count, rest') =>
        if count > MAX_ARRAY then Fail else ParseElements(rest', code, count)
  }

  function ParseElements(b: Bytes, code: nat, count: nat): Parsed<Value> {
    if code == TYPE_STRING then
      // Array elements are skipped without the string limit.
      match ParseMany(b, count, Sized)
      case Fail => Fail
      case Got(ts, rest) => Got(Texts(ts), rest)
    else if Width(code).Some? then
      match Take(b, Width(code).value * count)
      case Fail => Fail
      case Got(raw, rest) => Got(Numbers(code, count, raw), rest)
    else Fail
  }

  function ParseValue(b: Bytes, code: nat): Parsed<Value> {
    if code == TYPE_STRING then
      match ParseText(b)
      case Fail => Fail
      case Got(t, rest) => Got(Text(t), rest)
    else if code == TYPE_ARRAY then ParseArray(b)
    else if IntType(code).Some? then
      var (w, signed) := IntType(code).value;
      match Uint(b, w)
      case Fail => Fail
      case Got(u, rest) => Got(Integer(code, Signed(u, w, signed)), rest)
    else if FloatWidth(code).Some? then
      match Take(b, FloatWidth(code).value)
      case Fail => Fail
      case Got(raw, rest) => Got(Float(code, raw), rest)
    else Fail
  }

  function ParsePair(b: Bytes): Parsed<Pair> {
    match ParseText(b)
    case Fail => Fail
    case Got(key, rest) =>
      match Uint(rest, 4)
      case Fail => Fail
      case Got(code, rest') =>
        match ParseValue(rest', code)
        case Fail => Fail
        case Got(v, rest'') => Got(Pair(key, v), rest'')
  }

  function ParseCounts(b: Bytes, version: nat): Parsed<Header> {
    match Uint(b, 8)
    case Fail => Fail
    case Got(tensors, rest) =>
      match Uint(rest, 8)
      case Fail => Fail
      case Got(count, rest') =>
        if count > MAX_KV then Fail
        else
          match ParseMany(rest', count, ParsePair)
          case Fail => Fail
          case Got(ps, rest'') => Got(Header(version, tensors, ps), rest'')
  }

  function ParseHeader(b: Bytes): Parsed<Header> {
    match Take(b, 4)
    case Fail => Fail
    case Got(magic, rest) =>
      if magic != MAGIC then Fail
      else
        match Uint(rest, 4)
        case Fail => Fail
        case Got(version, rest') =>
          if version != 2 && version != 3 then Fail else ParseCounts(rest', version)
  }

  lemma Regroup(a: Bytes, b: Bytes, c: Bytes, rest: Bytes)
    ensures a + b + c + rest == a + (b + (c + rest))
  {
  }

  // ---- Every well-formed header is read back ----

  lemma TakeBack(a: Bytes, rest: Bytes)
    ensures Take(a + rest, |a|) == Got(a, rest)
  {
  }

  lemma UintBack(v: nat, w: nat, rest: Bytes)
    requires v < Pow(w)
    ensures Uint(Encode(v, w) + rest, w) == Got(v, rest)
  {
    DecodeEncode(v, w);
    TakeBack(Encode(v, w), rest);
  }

  lemma PowerEight()
    ensures Pow(1) == 0x100 && Pow(2) == 0x1_0000 && Pow(4) == 0x1_0000_0000 && Pow(8) == 0x1_0000_0000_0000_0000
  {
    assert Pow(3) == 0x100_0000 && Pow(4) == 256 * Pow(3);
    assert Pow(5) == 256 * Pow(4) && Pow(6) == 256 * Pow(5);
    assert Pow(7) == 256 * Pow(6) && Pow(8) == 256 * Pow(7);
  }

  lemma TextBack(t: Bytes, rest: Bytes)
    requires |t| < Pow(8)
    ensures Sized(TextBytes(t) + rest) == Got(t, rest)
    ensures |t| <= MAX_STRING ==> ParseText(TextBytes(t) + rest) == Got(t, rest)
  {
    assert TextBytes(t) + rest == Encode(|t|, 8) + (t + rest);
    UintBack(|t|, 8, t + rest);
    TakeBack(t, rest);
  }

  lemma {:induction false} ManyBack<T(!new)>(xs: seq<T>, layout: T -> Bytes, one: Bytes -> Parsed<T>, rest: Bytes)
    requires forall x, r | x in xs :: one(layout(x) + r) == Got(x, r)
    ensures ParseMany(Many(xs, layout) + rest, |xs|, one) == Got(xs, rest)
  {
    if xs == [] {
      assert Many(xs, layout) + rest == rest;
    } else {
      Regroup([], layout(xs[0]), Many(xs[1..], layout), rest);
      assert Many(xs, layout) + rest == layout(xs[0]) + (Many(xs[1..], layout) + rest);
      ManyBack(xs[1..], layout, one, rest);
      assert [xs[0]] + xs[1..] == xs;
    }
  }

  // The two numbers in front of an array's elements.
  lemma ArrayHeadBack(code: nat, count: nat, body: Bytes, rest: Bytes)
    requires code < Pow(4) && count < Pow(8)
    ensures var b := Encode(code, 4) + Encode(count, 8) + body + rest;
      Uint(b, 4) == Got(code, Uint(b, 4).rest) && Uint(Uint(b, 4).rest, 8) == Got(count, body + rest)
  {
    var b := Encode(code, 4) + Encode(count, 8) + body + rest;
    assert b == Encode(code, 4) + (Encode(count, 8) + (body + rest));
    UintBack(code, 4, Encode(count, 8) + (body + rest));
    UintBack(count, 8, body + rest);
  }

  lemma TextsBack(ts: seq<Bytes>, rest: Bytes)
    requires forall t | t in ts :: |t| < Pow(8)
    ensures ParseMany(Many(ts, TextBytes) + rest, |ts|, Sized) == Got(ts, rest)
  {
    forall t, r | t in ts
      ensures Sized(TextBytes(t) + r) == Got(t, r)
    {
      TextBack(t, r);
    }
    ManyBack(ts, TextBytes, Sized, rest);
  }

  lemma ArrayBack(v: Value, rest: Bytes)
    requires ValueOk(v) && (v.Texts? || v.Numbers?)
    ensures ParseArray(ValueBytes(v) + rest) == Got(v, rest)
  {
    PowerEight();
    match v
    case Texts(ts) =>
      ArrayHeadBack(TYPE_STRING, |ts|, Many(ts, TextBytes), rest);
      TextsBack(ts, rest);
    case Numbers(code, count, raw) =>
      ArrayHeadBack(code, count, raw, rest);
      TakeBack(raw, rest);
    case _ =>
  }

  lemma ValueBack(v: Value, rest: Bytes)
    requires ValueOk(v)
    ensures ParseValue(ValueBytes(v) + rest, TypeCode(v)) == Got(v, rest)
  {
    PowerEight();
    match v
    case Text(t) => TextBack(t, rest);
    case Integer(code, i) =>
      var (w, signed) := IntType(code).value;
      SignedOfEncoded(i, w, signed);
      UintBack(i % Pow(w), w, rest);
    case Float(_, raw) => TakeBack(raw, rest);
    case _ => ArrayBack(v, rest);
  }

  lemma PairBack(p: Pair, rest: Bytes)
    requires PairOk(p)
    ensures ParsePair(PairBytes(p) + rest) == Got(p, rest)
  {
    PowerEight();
    var tail := ValueBytes(p.value) + rest;
    Regroup(TextBytes(p.key), Encode(TypeCode(p.value), 4), ValueBytes(p.value), rest);
    TextBack(p.key, Encode(TypeCode(p.value), 4) + tail);
    UintBack(TypeCode(p.value), 4, tail);
    ValueBack(p.value, rest);
  }

  lemma CountsBack(h: Header, rest: Bytes)
    requires HeaderOk(h)
    ensures ParseCounts(CountsBytes(h) + rest, h.version) == Got(h, rest)
  {
    PowerEight();
    var body := Many(h.pairs, PairBytes) + rest;
    Regroup(Encode(h.tensorCount, 8), Encode(|h.pairs|, 8), Many(h.pairs, PairBytes), rest);
    UintBack(h.tensorCount, 8, Encode(|h.pairs|, 8) + body);
    UintBack(|h.pairs|, 8, body);
    forall p, r | p in h.pairs
      ensures ParsePair(PairBytes(p) + r) == Got(p, r)
    {
      PairBack(p, r);
    }
    ManyBack(h.pairs, PairBytes, ParsePair, rest);
  }

  // A well-formed header within the limits, whatever follows it, is read back
  // whole and the reader stops right after it.
  lemma HeaderBack(h: Header, rest: Bytes)
    requires HeaderOk(h)
    ensures ParseHeader(HeaderBytes(h) + rest) == Got(h, rest)
  {
    PowerEight();
    var tail := CountsBytes(h) + rest;
    Regroup(MAGIC, Encode(h.version, 4), CountsBytes(h), rest);
    TakeBack(MAGIC, Encode(h.version, 4) + tail);
    UintBack(h.version, 4, tail);
    CountsBack(h, rest);
  }

  // ---- Nothing else is accepted ----

  lemma UintFrom(b: Bytes, w: nat)
    requires Uint(b, w).Got?
    ensures var u := Uint(b, w);
      u.value < Pow(w) && b == Encode(u.value, w) + u.rest
  {
    EncodeDecode(b[..w]);
    assert b == b[..w] + b[w..];
  }

  lemma TextFrom(b: Bytes)
    requires Sized(b).Got?
    ensures |Sized(b).value| < Pow(8) && b == TextBytes(Sized(b).value) + Sized(b).rest
  {
    UintFrom(b, 8);
    var u := Uint(b, 8);
    Resplit(Encode(u.value, 8), u.rest, u.value);
  }

  lemma Resplit(a: Bytes, b: Bytes, n: nat)
    requires n <= |b|
    ensures a + b == a + b[..n] + b[n..]
  {
  }

  // The two numbers in front of an array's elements.
  lemma ArrayHeadFrom(b: Bytes, body: Bytes, rest: Bytes)
    requires Uint(b, 4).Got? && Uint(Uint(b, 4).rest, 8).Got? && Uint(Uint(b, 4).rest, 8).rest == body + rest
    ensures b == Encode(Uint(b, 4).value, 4) + Encode(Uint(Uint(b, 4).rest, 8).value, 8) + body + rest
  {
    UintFrom(b, 4);
    var u := Uint(b, 4);
    UintFrom(u.rest, 8);
    Regroup(Encode(u.value, 4), Encode(Uint(u.rest, 8).value, 8), body, rest);
  }

  lemma {:induction false} ManyFrom<T(!new)>(b: Bytes, count: nat, layout: T -> Bytes, ok: T -> bool, one: Bytes -> Parsed<T>)
    requires forall c :: one(c).Got? ==> ok(one(c).value) && c == layout(one(c).value) + one(c).rest
    requires ParseMany(b, count, one).Got?
    ensures var g := ParseMany(b, count, one);
      |g.value| == count && (forall x | x in g.value :: ok(x)) && b == Many(g.value, layout) + g.rest
    decreases count
  {
    if count > 0 {
      var x, rest := one(b).value, one(b).rest;
      ManyFrom(rest, count - 1, layout, ok, one);
      var g := ParseMany(rest, count - 1, one);
      assert ([x] + g.value)[1..] == g.value;
      Regroup([], layout(x), Many(g.value, layout), g.rest);
    } else {
      assert b == Many([], layout) + b;
    }
  }

  predicate TextOk(t: Bytes) {
    |t| < Pow(8)
  }

  lemma TextsFrom(b: Bytes, count: nat)
    requires ParseMany(b, count, Sized).Got?
    ensures var g := ParseMany(b, count, Sized);
      && |g.value| == count && (forall t | t in g.value :: TextOk(t))
      && b == Many(g.value, TextBytes) + g.rest
  {
    forall c
      ensures Sized(c).Got? ==> TextOk(Sized(c).value) && c == TextBytes(Sized(c).value) + Sized(c).rest
    {
      if Sized(c).Got? {
        TextFrom(c);
      }
    }
    ManyFrom(b, count, TextBytes, TextOk, Sized);
  }

  lemma ArrayFrom(b: Bytes)
    requires ParseArray(b).Got?
    ensures var g := ParseArray(b);
      (g.value.Texts? || g.value.Numbers?) && ValueOk(g.value) && b == ValueBytes(g.value) + g.rest
  {
    var rest := Uint(b, 4).rest;
    var code, count, body := Uint(b, 4).value, Uint(rest, 8).value, Uint(rest, 8).rest;
    if code == TYPE_STRING {
      TextsFrom(body, count);
      var g := ParseMany(body, count, Sized);
      ArrayHeadFrom(b, Many(g.value, TextBytes), g.rest);
    } else {
      var n := Width(code).value * count;
      assert body == body[..n] + body[n..];
      ArrayHeadFrom(b, body[..n], body[n..]);
    }
  }

  lemma ValueFrom(b: Bytes, code: nat)
    requires ParseValue(b, code).Got?
    ensures var g := ParseValue(b, code);
      ValueOk(g.value) && TypeCode(g.value) == code && b == ValueBytes(g.value) + g.rest
  {
    if code == TYPE_STRING {
      TextFrom(b);
    } else if code == TYPE_ARRAY {
      ArrayFrom(b);
    } else if IntType(code).Some? {
      var (w, signed) := IntType(code).value;
      UintFrom(b, w);
      EncodedOfSigned(Uint(b, w).value, w, signed);
    } else {
      var n := FloatWidth(code).value;
      assert b == b[..n] + b[n..];
    }
  }

  lemma PairFrom(b: Bytes)
    requires ParsePair(b).Got?
    ensures var g := ParsePair(b);
      PairOk(g.value) && b == PairBytes(g.value) + g.rest
  {
    TextFrom(b);
    var key, rest := ParseText(b).value, ParseText(b).rest;
    UintFrom(rest, 4);
    var code, rest' := Uint(rest, 4).value, Uint(rest, 4).rest;
    ValueFrom(rest', code);
    var v := ParseValue(rest', code);
    Regroup(TextBytes(key), Encode(code, 4), ValueBytes(v.value), v.rest);
  }

  lemma CountsFrom(b: Bytes, version: nat)
    requires ParseCounts(b, version).Got? && (version == 2 || version == 3)
    ensures var g := ParseCounts(b, version);
      HeaderOk(g.value) && g.value.version == version && b == CountsBytes(g.value) + g.rest
  {
    UintFrom(b, 8);
    var rest := Uint(b, 8).rest;
    UintFrom(rest, 8);
    forall c
      ensures ParsePair(c).Got? ==> PairOk(ParsePair(c).value) && c == PairBytes(ParsePair(c).value) + ParsePair(c).rest
    {
      if ParsePair(c).Got? {
        PairFrom(c);
      }
    }
    ManyFrom(Uint(rest, 8).rest, Uint(rest, 8).value, PairBytes, PairOk, ParsePair);
    var g := ParseCounts(b, version);
    Regroup(Encode(g.value.tensorCount, 8), Encode(|g.value.pairs|, 8), Many(g.value.pairs, PairBytes), g.rest);
  }

  // What is accepted begins with the layout of a well-formed header.
  lemma HeaderFrom(b: Bytes)
    requires ParseHeader(b).Got?
    ensures var g := ParseHeader(b);
      HeaderOk(g.value) && b == HeaderBytes(g.value) + g.rest
  {
    var rest := Take(b, 4).rest;
    assert b == b[..4] + rest;
    UintFrom(rest, 4);
    CountsFrom(Uint(rest, 4).rest, Uint(rest, 4).value);
    var g := ParseHeader(b);
    Regroup(MAGIC, Encode(g.value.version, 4), CountsBytes(g.value), g.rest);
  }

  // Exactly the inputs that start with a well-formed header are accepted.
  lemma AcceptsExactlyHeaders(b: Bytes)
    ensures ParseHeader(b).Got? <==> exists h, rest :: HeaderOk(h) && b == HeaderBytes(h) + rest
  {
    if ParseHeader(b).Got? {
      HeaderFrom(b);
    }
    if h, rest :| HeaderOk(h) && b == HeaderBytes(h) + rest {
      HeaderBack(h, rest);
    }
  }
}

module GgufReader {
  import opened Basics
  import opened LittleEndian
  import opened GgufFormat
  import opened GgufParser

  // A value the reader keeps, or none.
  datatype Found = Absent | FoundText(text: Bytes) | FoundInt(i: int)

  datatype GgufHeader = GgufHeader(
    version: nat, tensorCount: nat, architecture: Option<Bytes>, name: Option<Bytes>, fileType: Option<int>)

  const ARCHITECTURE: Bytes := Ascii("general.architecture")
  const NAME: Bytes := Ascii("general.name")
  const FILE_TYPE: Bytes := Ascii("general.file_type")

  function Ascii(s: string): Bytes {
    seq(|s|, i requires 0 <= i < |s| => (s[i] as int % 256) as byte)
  }

  lemma AsciiMeans(s: string, i: nat)
    requires i < |s| && s[i] as int < 128
    ensures |Ascii(s)| == |s| && Ascii(s)[i] as int == s[i] as int
  {
  }

  function Keep(v: Value): Found {
    match v
    case Text(t) => FoundText(t)
    case Integer(_, i) => FoundInt(i)
    case _ => Absent
  }

  // The last string or integer recorded under `key`.
  ghost function Latest(pairs: seq<Pair>, key: Bytes): Found {
    if pairs == [] then Absent
    else
      var p := pairs[|pairs| - 1];
      if p.key == key && Keep(p.value) != Absent then Keep(p.value) else Latest(pairs[..|pairs| - 1], key)
  }

  function AsText(f: Found): Option<Bytes> {
    if f.FoundText? then Some(f.text) else None
  }

  function AsInt(f: Found): Option<int> {
    if f.FoundInt? then Some(f.i) else None
  }

  // What the caller learns of a header.
  ghost function Summary(h: Header): GgufHeader {
    GgufHeader(h.version, h.tensorCount,
               AsText(Latest(h.pairs, ARCHITECTURE)), AsText(Latest(h.pairs, NAME)), AsInt(Latest(h.pairs, FILE_TYPE)))
  }

  // Pair i is the last string or integer recorded under `key`.
  ghost predicate IsLatest(pairs: seq<Pair>, key: Bytes, i: nat) {
    && i < |pairs| && pairs[i].key == key && (pairs[i].value.Text? || pairs[i].value.Integer?)
    && forall j :: i < j < |pairs| && pairs[j].key == key ==> !pairs[j].value.Text? && !pairs[j].value.Integer?
  }

  lemma {:induction false} LatestMeans(pairs: seq<Pair>, key: Bytes, i: nat)
    requires IsLatest(pairs, key, i)
    ensures Latest(pairs, key) == if pairs[i].value.Text? then FoundText(pairs[i].value.text) else FoundInt(pairs[i].value.i)
  {
    if i < |pairs| - 1 {
      var before := pairs[..|pairs| - 1];
      assert IsLatest(before, key, i);
      LatestMeans(before, key, i);
    }
  }

  lemma {:induction false} LatestIsAbsent(pairs: seq<Pair>, key: Bytes)
    requires forall i :: 0 <= i < |pairs| && pairs[i].key == key ==> !pairs[i].value.Text? && !pairs[i].value.Integer?
    ensures Latest(pairs, key) == Absent
  {
    if pairs != [] {
      LatestIsAbsent(pairs[..|pairs| - 1], key);
    }
  }

  // What a summary says, key by key: the last string or integer under the key,
  // if it has the right type.
  lemma SummaryMeans(h: Header, i: nat)
    ensures Summary(h).version == h.version && Summary(h).tensorCount == h.tensorCount
    ensures IsLatest(h.pairs, Ascii("general.architecture"), i) ==>
      Summary(h).architecture == if h.pairs[i].value.Text? then Some(h.pairs[i].value.text) else None
    ensures IsLatest(h.pairs, Ascii("general.name"), i) ==>
      Summary(h).name == if h.pairs[i].value.Text? then Some(h.pairs[i].value.text) else None
    ensures IsLatest(h.pairs, Ascii("general.file_type"), i) ==>
      Summary(h).fileType == if h.pairs[i].value.Integer? then Some(h.pairs[i].value.i) else None
  {
    if IsLatest(h.pairs, Ascii("general.architecture"), i) {
      LatestMeans(h.pairs, ARCHITECTURE, i);
    }
    if IsLatest(h.pairs, Ascii("general.name"), i) {
      LatestMeans(h.pairs, NAME, i);
    }
    if IsLatest(h.pairs, Ascii("general.file_type"), i) {
      LatestMeans(h.pairs, FILE_TYPE, i);
    }
  }

  // None stands for GgufError throughout.
  class Reader {
    const file: Bytes
    var pos: nat

    ghost predicate Valid()
      reads this
    {
      pos <= |file|
    }

    // What is left of the file.
    ghost function Rest(): Bytes
      requires Valid()
      reads this
    {
      file[pos..]
    }

    constructor (file: Bytes)
      ensures Valid() && this.file == file && pos == 0
    {
      this.file := file;
      pos := 0;
    }

    // A short read leaves the cursor at the end of the file.
    method Read(count: nat) returns (r: Option<Bytes>)
      requires Valid()
      modifies this
      ensures Valid()
      ensures r.Some? <==> Take(old(Rest()), count).Got?
      ensures r.Some? ==> Take(old(Rest()), count) == Got(r.value, Rest())
    {
      if pos + count > |file| {
        pos := |file|;
        return None;
      }
      r := Some(file[pos..pos + count]);
      assert file[pos..][..count] == r.value && file[pos..][count..] == file[pos + count..];
      pos := pos + count;
    }

    method ReadUint(width: nat) returns (r: Option<nat>)
      requires Valid()
      modifies this
      ensures Valid()
      ensures r.Some? <==> Uint(old(Rest()), width).Got?
      ensures r.Some? ==> Uint(old(Rest()), width) == Got(r.value, Rest())
    {
      var raw := Read(width);
      if raw.None? {
        return None;
      }
      return Some(Decode(raw.value));
    }

    // A seek past the end would succeed silently, so it is checked first.
    method Skip(count: nat) returns (ok: bool)
      requires Valid()
      modifies this
      ensures Valid()
      ensures ok <==> Take(old(Rest()), count).Got?
      ensures ok ==> Take(old(Rest()), count).rest == Rest()
      ensures !ok ==> pos == old(pos)
    {
      var target := pos + count;
      if target > |file| {
        return false;
      }
      pos := target;
      return true;
    }

    method ReadText() returns (r: Option<Bytes>)
      requires Valid()
      modifies this
      ensures Valid()
      ensures r.Some? <==> ParseText(old(Rest())).Got?
      ensures r.Some? ==> ParseText(old(Rest())) == Got(r.value, Rest())
    {
      var length := ReadUint(8);
      if length.None? || length.value > MAX_STRING {
        return None;
      }
      r := Read(length.value);
    }

    method SkipTexts(count: nat) returns (ok: bool)
      requires Valid()
      modifies this
      ensures Valid()
      ensures ok <==> ParseMany(old(Rest()), count, Sized).Got?
      ensures ok ==> ParseMany(old(Rest()), count, Sized).rest == Rest()
    {
      ghost var all := ParseMany(Rest(), count, Sized);
      for i := 0 to count
        invariant Valid()
        invariant all.Got? <==> ParseMany(Rest(), count - i, Sized).Got?
        invariant all.Got? ==> all.rest == ParseMany(Rest(), count - i, Sized).rest
      {
        var length := ReadUint(8);
        if length.None? {
          return false;
        }
        var skipped := Skip(length.value);
        if !skipped {
          return false;
        }
      }
      return true;
    }

    method SkipArray() returns (ok: bool)
      requires Valid()
      modifies this
      ensures Valid()
      ensures ok <==> ParseArray(old(Rest())).Got?
      ensures ok ==> ParseArray(old(Rest())).rest == Rest()
    {
      var code := ReadUint(4);
      if code.None? {
        return false;
      }
      var count := ReadUint(8);
      if count.None? || count.value > MAX_ARRAY {
        return false;
      }
      ok := SkipElements(code.value, count.value);
    }

    method SkipElements(code: nat, count: nat) returns (ok: bool)
      requires Valid()
      modifies this
      ensures Valid()
      ensures ok <==> ParseElements(old(Rest()), code, count).Got?
      ensures ok ==> ParseElements(old(Rest()), code, count).rest == Rest()
    {
      if code == TYPE_STRING {
        ok := SkipTexts(count);
      } else if IntType(code).Some? {
        ok := Skip(IntType(code).value.0 * count);
      } else if FloatWidth(code).Some? {
        ok := Skip(FloatWidth(code).value * count);
      } else {
        ok := false;
      }
    }

    method ReadValue(code: nat) returns (r: Option<Found>)
      requires Valid()
      modifies this
      ensures Valid()
      ensures r.Some? <==> ParseValue(old(Rest()), code).Got?
      ensures r.Some? ==> r.value == Keep(ParseValue(old(Rest()), code).value) && ParseValue(old(Rest()), code).rest == Rest()
    {
      if code == TYPE_STRING {
        var t := ReadText();
        return if t.Some? then Some(FoundText(t.value)) else None;
      }
      if code == TYPE_ARRAY {
        ArrayKeepsNothing(Rest());
        var ok := SkipArray();
        return if ok then Some(Absent) else None;
      }
      if IntType(code).Some? {
        var (width, signed) := IntType(code).value;
        var u := ReadUint(width);
        return if u.Some? then Some(FoundInt(Signed(u.value, width, signed))) else None;
      }
      if FloatWidth(code).Some? {
        var ok := Skip(FloatWidth(code).value);
        return if ok then Some(Absent) else None;
      }
      return None;
    }

    method ReadPair() returns (r: Option<(Bytes, Found)>)
      requires Valid()
      modifies this
      ensures Valid()
      ensures r.Some? <==> ParsePair(old(Rest())).Got?
      ensures r.Some? ==>
        var g := ParsePair(old(Rest())); r.value == (g.value.key, Keep(g.value.value)) && g.rest == Rest()
    {
      var key := ReadText();
      if key.None? {
        return None;
      }
      var code := ReadUint(4);
      if code.None? {
        return None;
      }
      var value := ReadValue(code.value);
      return if value.Some? then Some((key.value, value.value)) else None;
    }

    // The metadata loop: the last kept value under each wanted key.
    method ReadPairs(count: nat) returns (ok: bool, found: map<Bytes, Found>)
      requires Valid()
      modifies this
      ensures Valid()
      ensures ok <==> ParseMany(old(Rest()), count, ParsePair).Got?
      ensures ok ==>
        var g := ParseMany(old(Rest()), count, ParsePair); g.rest == Rest() && Records(found, g.value)
    {
      ghost var all, done := ParseMany(Rest(), count, ParsePair), [];
      found := map[];
      for i := 0 to count
        invariant Valid() && Records(found, done)
        invariant PairsRemain(all, done, Rest(), count - i)
      {
        PairsRemainStep(all, done, Rest(), count - i);
        ghost var p := ParsePair(Rest());
        var pair := ReadPair();
        if pair.None? {
          return false, found;
        }
        RecordsOneMore(found, done, p.value);
        if Wanted(pair.value.0) && pair.value.1 != Absent {
          found := found[pair.value.0 := pair.value.1];
        }
        done := done + [p.value];
      }
      PairsRemainNone(all, done, Rest());
      return true, found;
    }

    // The two counts and the pairs.
    method ReadCounts(version: nat) returns (r: Option<GgufHeader>)
      requires Valid()
      modifies this
      ensures Valid()
      ensures r.Some? <==> ParseCounts(old(Rest()), version).Got?
      ensures r.Some? ==>
        var g := ParseCounts(old(Rest()), version); r.value == Summary(g.value) && g.rest == Rest()
    {
      var tensors := ReadUint(8);
      if tensors.None? {
        return None;
      }
      var count := ReadUint(8);
      if count.None? || count.value > MAX_KV {
        return None;
      }
      var ok, found := ReadPairs(count.value);
      if !ok {
        return None;
      }
      return Some(GgufHeader(version, tensors.value,
                             AsText(Get(found, ARCHITECTURE)), AsText(Get(found, NAME)), AsInt(Get(found, FILE_TYPE))));
    }

    // The whole header.
    method ReadHeader() returns (r: Option<GgufHeader>)
      requires Valid()
      modifies this
      ensures Valid()
      ensures r.Some? <==> ParseHeader(old(Rest())).Got?
      ensures r.Some? ==>
        var g := ParseHeader(old(Rest())); r.value == Summary(g.value) && g.rest == Rest()
    {
      var magic := Read(4);
      if magic.None? || magic.value != MAGIC {
        return None;
      }
      var version := ReadUint(4);
      if version.None? || (version.value != 2 && version.value != 3) {
        return None;
      }
      r := ReadCounts(version.value);
    }
  }

  function Get(found: map<Bytes, Found>, key: Bytes): Found {
    if key in found then found[key] else Absent
  }

  predicate Wanted(key: Bytes) {
    key == ARCHITECTURE || key == NAME || key == FILE_TYPE
  }

  ghost predicate Records(found: map<Bytes, Found>, pairs: seq<Pair>) {
    forall key | Wanted(key) :: Get(found, key) == Latest(pairs, key)
  }

  lemma RecordsOneMore(found: map<Bytes, Found>, pairs: seq<Pair>, p: Pair)
    requires Records(found, pairs)
    ensures Records(if Wanted(p.key) && Keep(p.value) != Absent then found[p.key := Keep(p.value)] else found, pairs + [p])
  {
    assert (pairs + [p])[..|pairs|] == pairs;
  }

  // The whole parse is what is done followed by what remains.
  ghost predicate Remaining<T>(all: Parsed<seq<T>>, done: seq<T>, b: Bytes, count: nat, one: Bytes -> Parsed<T>) {
    var left := ParseMany(b, count, one);
    && (all.Got? <==> left.Got?)
    && (all.Got? ==> all.value == done + left.value && all.rest == left.rest)
  }

  lemma RemainingStep<T>(all: Parsed<seq<T>>, done: seq<T>, b: Bytes, count: nat, one: Bytes -> Parsed<T>)
    requires count > 0 && Remaining(all, done, b, count, one)
    ensures one(b).Fail? ==> all.Fail?
    ensures one(b).Got? ==> Remaining(all, done + [one(b).value], one(b).rest, count - 1, one)
  {
    if all.Got? {
      var xs := ParseMany(one(b).rest, count - 1, one).value;
      assert done + ([one(b).value] + xs) == done + [one(b).value] + xs;
    }
  }

  ghost predicate PairsRemain(all: Parsed<seq<Pair>>, done: seq<Pair>, b: Bytes, count: nat) {
    Remaining(all, done, b, count, ParsePair)
  }

  lemma PairsRemainStep(all: Parsed<seq<Pair>>, done: seq<Pair>, b: Bytes, count: nat)
    requires count > 0 && PairsRemain(all, done, b, count)
    ensures ParsePair(b).Fail? ==> all.Fail?
    ensures ParsePair(b).Got? ==> PairsRemain(all, done + [ParsePair(b).value], ParsePair(b).rest, count - 1)
  {
    RemainingStep(all, done, b, count, ParsePair);
  }

  lemma PairsRemainNone(all: Parsed<seq<Pair>>, done: seq<Pair>, b: Bytes)
    requires PairsRemain(all, done, b, 0)
    ensures all == Got(done, b)
  {
    assert done + [] == done;
  }

  lemma ArrayKeepsNothing(b: Bytes)
    ensures ParseArray(b).Got? ==> Keep(ParseArray(b).value) == Absent
  {
  }

  // For a file that starts with a well-formed header: the reader succeeds, its
  // cursor stops right behind the header, and the summary is the header's own.
  // For every other file it fails.
  method ReadFile(file: Bytes) returns (r: Option<GgufHeader>, end: nat)
    ensures end <= |file|
    ensures r.None? <==> !exists h, rest :: HeaderOk(h) && file == HeaderBytes(h) + rest
    ensures forall h, rest | HeaderOk(h) && file == HeaderBytes(h) + rest :: r == Some(Summary(h)) && file[end..] == rest
  {
    var reader := new Reader(file);
    assert file[0..] == file;
    AcceptsExactlyHeaders(file);
    r := reader.ReadHeader();
    end := reader.pos;
    forall h, rest | HeaderOk(h) && file == HeaderBytes(h) + rest
      ensures r == Some(Summary(h)) && file[end..] == rest
    {
      HeaderBack(h, rest);
    }
  }
}
