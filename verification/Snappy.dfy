/**
 The Snappy block decoder (extensions/anthropic/claude-desktop-groups.ts, decodeSnappy)
 against the element lists of the Snappy compressed format description: section 1
 (preamble), section 2.1 (literals) and section 2.2 (copies).
 */
module Snappy {
  import opened Prelude
  import opened Binary

  const MAX_BLOCK_BYTES: nat := 16 * 1024 * 1024

  datatype Error = BadVarint(e: VarintError) | TooLarge | BadLiteralLength | BadLiteral | BadCopy | Incomplete

  /** Stream elements; a literal's length is written in its tag or in `extra` further bytes. */
  datatype Element =
    | Literal(bytes: Bytes, extra: nat)
    | Copy1(length: nat, distance: nat)
    | Copy2(length: nat, distance: nat)
    | Copy4(length: nat, distance: nat)

  /** The ranges the format gives each kind of element. */
  predicate WellFormed(e: Element) {
    match e
    case Literal(bytes, extra) =>
      |bytes| > 0 && extra <= 4 && (if extra == 0 then |bytes| <= 60 else |bytes| - 1 < Pow256(extra))
    case Copy1(length, distance) => 4 <= length <= 11 && distance < 2048
    case Copy2(length, distance) => 1 <= length <= 64 && distance < 0x1_0000
    case Copy4(length, distance) => 1 <= length <= 64 && distance < 0x1_0000_0000
  }

  lemma {:induction false} Powers()
    ensures Pow256(1) == 0x100 && Pow256(2) == 0x1_0000 && Pow256(4) == 0x1_0000_0000
  {
    assert Pow256(3) == 256 * Pow256(2);
  }

  /** The tag byte: the kind in the low two bits, and as much of the fields as fits. */
  function Tag(e: Element): Byte
    requires WellFormed(e)
  {
    match e
    case Literal(bytes, extra) => 4 * (if extra == 0 then |bytes| - 1 else 59 + extra)
    case Copy1(length, distance) => 1 + 4 * (length - 4) + 32 * (distance / 256)
    case Copy2(length, distance) => 2 + 4 * (length - 1)
    case Copy4(length, distance) => 3 + 4 * (length - 1)
  }

  /** How many bytes follow the tag ... */
  function Width(e: Element): nat {
    match e
    case Literal(bytes, extra) => extra
    case Copy1(_, _) => 1
    case Copy2(_, _) => 2
    case Copy4(_, _) => 4
  }

  /** ... and the little-endian number they hold. */
  function Operand(e: Element): (n: nat)
    requires WellFormed(e)
    ensures n < Pow256(Width(e))
  {
    Powers();
    match e
    case Literal(bytes, extra) => if extra == 0 then 0 else |bytes| - 1
    case Copy1(length, distance) => distance % 256
    case Copy2(length, distance) => distance
    case Copy4(length, distance) => distance
  }

  function Header(e: Element): (s: Bytes)
    requires WellFormed(e)
    ensures |s| == 1 + Width(e)
  {
    [Tag(e)] + LE(Operand(e), Width(e))
  }

  function Contents(e: Element): Bytes {
    if e.Literal? then e.bytes else []
  }

  function Encode(e: Element): Bytes
    requires WellFormed(e)
  {
    Header(e) + Contents(e)
  }

  // ---------------------------------------------------------------- meaning

  function Length(e: Element): nat {
    if e.Literal? then |e.bytes| else e.length
  }

  /** An element can follow `out` when a copy reaches back into it. */
  predicate Applies(out: Bytes, e: Element) {
    !e.Literal? ==> 0 < e.distance <= |out|
  }

  /** A copy repeats the last `distance` bytes; a literal is appended. */
  function Expand(out: Bytes, e: Element): (r: Bytes)
    requires Applies(out, e)
    ensures |r| == |out| + Length(e)
  {
    if e.Literal? then out + e.bytes
    else out + Repeated(out, e.distance, e.length)
  }

  function Repeated(out: Bytes, distance: nat, length: nat): (r: Bytes)
    requires 0 < distance <= |out|
    ensures |r| == length
    ensures forall i :: 0 <= i < length ==> r[i] == out[|out| - distance + i % distance]
  {
    seq(length, i requires 0 <= i < length => out[|out| - distance + i % distance])
  }

  ghost predicate Valid(out: Bytes, es: seq<Element>)
    decreases |es|
  {
    es == [] || (WellFormed(es[0]) && Applies(out, es[0]) && Valid(Expand(out, es[0]), es[1..]))
  }

  /** What a list of elements stands for, after `out`. */
  ghost function Meaning(out: Bytes, es: seq<Element>): (r: Bytes)
    requires Valid(out, es)
    ensures |out| <= |r|
    decreases |es|
  {
    if es == [] then out else Meaning(Expand(out, es[0]), es[1..])
  }

  function EncodeAll(es: seq<Element>): Bytes
    requires forall i :: 0 <= i < |es| ==> WellFormed(es[i])
  {
    if es == [] then [] else Encode(es[0]) + EncodeAll(es[1..])
  }

  // ---------------------------------------------------------------- reading elements

  /** `e` stands at `off`; bytes missing after the tag of a copy read as 0. */
  ghost predicate Stands(c: Bytes, off: nat, e: Element) {
    && WellFormed(e) && off < |c| && c[off] == Tag(e)
    && ReadLE(c, off + 1, Width(e)) == Operand(e)
    && (e.Literal? ==> Has(c, off + 1 + Width(e), e.bytes))
  }

  /** Standing somewhere means, byte by byte, having the encoding there. */
  lemma {:induction false} StandsMeansBytes(c: Bytes, off: nat, e: Element)
    requires WellFormed(e) && off < |c|
    ensures Stands(c, off, e) <==>
            && (forall k :: 0 <= k <= Width(e) ==> ByteAt(c, off + k) == Header(e)[k])
            && (e.Literal? ==> Has(c, off + 1 + Width(e), e.bytes))
  {
    if Stands(c, off, e) {
      BytesOfStanding(c, off, e);
    }
    if forall k :: 0 <= k <= Width(e) ==> ByteAt(c, off + k) == Header(e)[k] {
      StandingOfBytes(c, off, e);
    }
  }

  lemma {:induction false} BytesOfStanding(c: Bytes, off: nat, e: Element)
    requires Stands(c, off, e)
    ensures forall k :: 0 <= k <= Width(e) ==> ByteAt(c, off + k) == Header(e)[k]
  {
    var n, w, h := Operand(e), Width(e), Header(e);
    LEInverts(c, off + 1, w);
    forall k | 0 <= k <= w ensures ByteAt(c, off + k) == h[k] {
      if k > 0 {
        assert ByteAt(c, off + 1 + (k - 1)) == LE(n, w)[k - 1];
      }
    }
  }

  lemma {:induction false} StandingOfBytes(c: Bytes, off: nat, e: Element)
    requires WellFormed(e) && off < |c|
    requires forall k :: 0 <= k <= Width(e) ==> ByteAt(c, off + k) == Header(e)[k]
    ensures c[off] == Tag(e) && ReadLE(c, off + 1, Width(e)) == Operand(e)
  {
    var n, w, h := Operand(e), Width(e), Header(e);
    assert h[0] == Tag(e) && forall i :: 0 <= i < w ==> h[1 + i] == LE(n, w)[i];
    forall i | 0 <= i < w ensures ByteAt(c, off + 1 + i) == LE(n, w)[i] {
      assert ByteAt(c, off + (1 + i)) == h[1 + i];
    }
    ReadLEInverts(c, off + 1, n, w);
    assert ByteAt(c, off + 0) == h[0];
  }

  /** `es` stand one after the other from `off` to the end of the stream. */
  ghost predicate StandsAll(c: Bytes, off: nat, es: seq<Element>)
    decreases |es|
  {
    if es == [] then off >= |c|
    else Stands(c, off, es[0]) && StandsAll(c, off + |Encode(es[0])|, es[1..])
  }

  /** Read the element whose tag is at `off`, and the offset after it. */
  function Parse(c: Bytes, off: nat): (r: Result<(Element, nat), Error>)
    requires off < |c|
    ensures r.Ok? ==> off < r.value.1
  {
    var tag := c[off];
    if tag % 4 == 0 then
      var short := tag / 4;
      if short < 60 then ParseLiteral(c, off + 1, short + 1, 0)
      else if off + 1 + (short - 59) > |c| then Err(BadLiteralLength)
      else ParseLiteral(c, off + 1 + (short - 59), 1 + ReadLE(c, off + 1, short - 59), short - 59)
    else if tag % 4 == 1 then Ok((Copy1((tag / 4) % 8 + 4, (tag / 32) * 256 + ReadLE(c, off + 1, 1)), off + 2))
    else if tag % 4 == 2 then Ok((Copy2(tag / 4 + 1, ReadLE(c, off + 1, 2)), off + 3))
    else Ok((Copy4(tag / 4 + 1, ReadLE(c, off + 1, 4)), off + 5))
  }

  function ParseLiteral(c: Bytes, start: nat, length: nat, extra: nat): Result<(Element, nat), Error>
    requires start <= |c|
  {
    if start + length > |c| then Err(BadLiteral)
    else Ok((Literal(c[start..start + length], extra), start + length))
  }

  /** The 32-bit signed value the source's shifts produce. */
  function Signed32(n: nat): int {
    if n < 0x8000_0000 then n else n - 0x1_0000_0000
  }

  /** Apply a parsed element to the output so far, of declared total length `expected`. */
  function Apply(out: Bytes, e: Element, expected: nat): Result<Bytes, Error> {
    if e.Literal? then
      if |out| + |e.bytes| > expected then Err(BadLiteral) else Ok(out + e.bytes)
    else
      var d := if e.Copy4? then Signed32(e.distance) else e.distance;
      if d <= 0 || d > |out| || |out| + e.length > expected then Err(BadCopy)
      else Ok(out + Repeated(out, d, e.length))
  }

  /** The parser of one stream. */
  function Parser(c: Bytes): (parse: nat -> Result<(Element, nat), Error>)
    ensures Advancing(parse)
    ensures forall off: nat :: off < |c| ==> parse(off) == Parse(c, off)
  {
    (off: nat) => if off < |c| then Parse(c, off) else Err(Incomplete)
  }

  ghost predicate Advancing(parse: nat -> Result<(Element, nat), Error>) {
    forall off: nat :: parse(off).Ok? ==> off < parse(off).value.1
  }

  /** Parse and apply element after element until the end of the stream. */
  function Run(
      parse: nat -> Result<(Element, nat), Error>, end: nat, off: nat, out: Bytes, expected: nat): Result<Bytes, Error>
    requires Advancing(parse)
    decreases end - off
  {
    if off >= end then (if |out| == expected then Ok(out) else Err(Incomplete))
    else match parse(off)
      case Err(e) => Err(e)
      case Ok((e, next)) =>
        match Apply(out, e, expected)
        case Err(error) => Err(error)
        case Ok(out') => Run(parse, end, next, out', expected)
  }

  function DecodeFrom(c: Bytes, off: nat, out: Bytes, expected: nat): Result<Bytes, Error> {
    Run(Parser(c), |c|, off, out, expected)
  }

  function Decode(c: Bytes): Result<Bytes, Error> {
    match Varint(c, 0)
    case Err(e) => Err(BadVarint(e))
    case Ok((expected, after)) =>
      if expected > MAX_BLOCK_BYTES then Err(TooLarge) else DecodeFrom(c, after, [], expected)
  }

  // ---------------------------------------------------------------- parsing is exact

  /** Whatever is parsed stands there. */
  lemma {:induction false} ParsedStands(c: Bytes, off: nat)
    requires off < |c| && Parse(c, off).Ok?
    ensures Stands(c, off, Parse(c, off).value.0)
    ensures Parse(c, off).value.1 == off + |Encode(Parse(c, off).value.0)|
  {
    Powers();
    var e := Parse(c, off).value.0;
    match e
    case Literal(bytes, extra) => HasSlice(c, off + 1 + extra, bytes);
    case Copy1(length, distance) => Copy1Fields(c[off], ReadLE(c, off + 1, 1));
    case Copy2(length, distance) =>
    case Copy4(length, distance) =>
  }

  lemma {:induction false} Copy1Fields(tag: Byte, low: nat)
    requires tag % 4 == 1 && low < 256
    ensures var distance := (tag / 32) * 256 + low;
            distance < 2048 && distance / 256 == tag / 32 && distance % 256 == low
    ensures tag == 1 + 4 * ((tag / 4) % 8) + 32 * (tag / 32)
  {
  }

  lemma {:induction false} TagFields(kind: nat, field: nat)
    requires kind < 4
    ensures (kind + 4 * field) % 4 == kind && (kind + 4 * field) / 4 == field
  {
  }

  lemma {:induction false} Copy1Tag(length: nat, distance: nat, tag: nat)
    requires 4 <= length <= 11 && distance < 2048 && tag == 1 + 4 * (length - 4) + 32 * (distance / 256)
    ensures tag % 4 == 1 && (tag / 4) % 8 + 4 == length && tag / 32 == distance / 256
  {
  }

  lemma {:induction false} LiteralParses(c: Bytes, start: nat, bytes: Bytes, extra: nat)
    requires Has(c, start, bytes)
    ensures ParseLiteral(c, start, |bytes|, extra) == Ok((Literal(bytes, extra), start + |bytes|))
  {
    HasSlice(c, start, bytes);
  }

  lemma {:induction false} StandingLiteralParses(c: Bytes, off: nat, e: Element)
    requires Stands(c, off, e) && e.Literal?
    ensures Parse(c, off) == Ok((e, off + 1 + e.extra + |e.bytes|))
  {
    var short := if e.extra == 0 then |e.bytes| - 1 else 59 + e.extra;
    TagFields(0, short);
    assert c[off] / 4 == short && (short < 60 <==> e.extra == 0);
    LiteralParses(c, off + 1 + e.extra, e.bytes, e.extra);
  }

  lemma {:induction false} StandingCopyParses(c: Bytes, off: nat, e: Element)
    requires Stands(c, off, e) && !e.Literal?
    ensures Parse(c, off) == Ok((e, off + 1 + Width(e)))
  {
    if e.Copy1? {
      Copy1Tag(e.length, e.distance, c[off]);
    } else {
      TagFields(if e.Copy2? then 2 else 3, e.length - 1);
    }
  }

  /** Whatever stands there is parsed. */
  lemma {:induction false} StandingParses(c: Bytes, off: nat, e: Element)
    requires Stands(c, off, e)
    ensures Parse(c, off) == Ok((e, off + |Encode(e)|))
  {
    if e.Literal? {
      StandingLiteralParses(c, off, e);
    } else {
      StandingCopyParses(c, off, e);
    }
  }

  // ---------------------------------------------------------------- decoding is exact

  /** Applying an element succeeds exactly when it can follow and fits, and gives its meaning. */
  lemma {:induction false} ApplyExact(out: Bytes, e: Element, expected: nat)
    requires WellFormed(e) && expected <= MAX_BLOCK_BYTES
    ensures Apply(out, e, expected).Ok? <==> Applies(out, e) && |out| + Length(e) <= expected
    ensures Apply(out, e, expected).Ok? ==> Apply(out, e, expected).value == Expand(out, e)
  {
  }

  /** Parsing from `off` on finds exactly `es`, up to the end. */
  ghost predicate ParsesAll(parse: nat -> Result<(Element, nat), Error>, end: nat, off: nat, es: seq<Element>)
    decreases |es|
  {
    if es == [] then off >= end
    else
      && off < end && parse(off).Ok? && parse(off).value.0 == es[0]
      && ParsesAll(parse, end, parse(off).value.1, es[1..])
  }

  lemma {:induction false} StandingParsesAll(c: Bytes, off: nat, es: seq<Element>)
    requires StandsAll(c, off, es)
    ensures ParsesAll(Parser(c), |c|, off, es)
    decreases |es|
  {
    if es != [] {
      StandingParses(c, off, es[0]);
      StandingParsesAll(c, off + |Encode(es[0])|, es[1..]);
      assert Parser(c)(off) == Parse(c, off);
    }
  }

  lemma {:induction false} ParsedAllStand(c: Bytes, off: nat, es: seq<Element>)
    requires ParsesAll(Parser(c), |c|, off, es)
    ensures StandsAll(c, off, es)
    decreases |es|
  {
    if es != [] {
      assert Parser(c)(off) == Parse(c, off);
      ParsedStands(c, off);
      ParsedAllStand(c, off + |Encode(es[0])|, es[1..]);
    }
  }

  lemma {:induction false} RunOfParsed(
      parse: nat -> Result<(Element, nat), Error>, end: nat, off: nat, es: seq<Element>, out: Bytes,
      expected: nat)
    requires Advancing(parse) && ParsesAll(parse, end, off, es) && Valid(out, es)
    requires |Meaning(out, es)| == expected <= MAX_BLOCK_BYTES
    ensures Run(parse, end, off, out, expected) == Ok(Meaning(out, es))
    decreases |es|
  {
    if es != [] {
      ApplyExact(out, es[0], expected);
      RunOfParsed(parse, end, parse(off).value.1, es[1..], Expand(out, es[0]), expected);
    }
  }

  lemma {:induction false} ParsedOfRun(
      parse: nat -> Result<(Element, nat), Error>, end: nat, off: nat, out: Bytes, expected: nat)
    returns (es: seq<Element>)
    requires Advancing(parse) && expected <= MAX_BLOCK_BYTES && Run(parse, end, off, out, expected).Ok?
    requires forall o: nat :: parse(o).Ok? ==> WellFormed(parse(o).value.0)
    ensures ParsesAll(parse, end, off, es) && Valid(out, es)
    ensures Meaning(out, es) == Run(parse, end, off, out, expected).value && |Meaning(out, es)| == expected
    decreases end - off
  {
    if off >= end {
      es := [];
    } else {
      var (e, next) := parse(off).value;
      ApplyExact(out, e, expected);
      var rest := ParsedOfRun(parse, end, next, Expand(out, e), expected);
      es := [e] + rest;
      assert es[0] == e && es[1..] == rest;
    }
  }

  /** A list of elements standing to the end of the stream decodes to its meaning. */
  lemma {:induction false} StandingDecodes(c: Bytes, off: nat, es: seq<Element>, out: Bytes, expected: nat)
    requires StandsAll(c, off, es) && Valid(out, es)
    requires |Meaning(out, es)| == expected <= MAX_BLOCK_BYTES
    ensures DecodeFrom(c, off, out, expected) == Ok(Meaning(out, es))
  {
    StandingParsesAll(c, off, es);
    RunOfParsed(Parser(c), |c|, off, es, out, expected);
  }

  /** Whatever decodes is a list of elements standing to the end of the stream. */
  lemma {:induction false} DecodedStands(c: Bytes, off: nat, out: Bytes, expected: nat) returns (es: seq<Element>)
    requires expected <= MAX_BLOCK_BYTES && DecodeFrom(c, off, out, expected).Ok?
    ensures StandsAll(c, off, es) && Valid(out, es)
    ensures Meaning(out, es) == DecodeFrom(c, off, out, expected).value && |Meaning(out, es)| == expected
  {
    forall o: nat | Parser(c)(o).Ok? ensures WellFormed(Parser(c)(o).value.0) {
      ParsedStands(c, o);
    }
    es := ParsedOfRun(Parser(c), |c|, off, out, expected);
    ParsedAllStand(c, off, es);
  }

  /** `c` is a preamble announcing `r`'s length, then elements up to the end that mean `r`. */
  ghost predicate Denotes(c: Bytes, r: Bytes, es: seq<Element>) {
    match Varint(c, 0)
    case Err(_) => false
    case Ok((expected, after)) =>
      expected == |r| <= 16 * 1024 * 1024 && StandsAll(c, after, es) && Valid([], es) && Meaning([], es) == r
  }

  /** The decoder accepts exactly the streams that denote something, and returns what they denote. */
  lemma {:induction false} DecodeExact(c: Bytes, r: Bytes)
    ensures Decode(c) == Ok(r) <==> exists es :: Denotes(c, r, es)
  {
    if Decode(c) == Ok(r) {
      var (expected, after) := Varint(c, 0).value;
      var es := DecodedStands(c, after, [], expected);
      assert Denotes(c, r, es);
    }
    if es :| Denotes(c, r, es) {
      StandingDecodes(c, Varint(c, 0).value.1, es, [], |r|);
    }
  }

  // ---------------------------------------------------------------- encoded streams

  lemma {:induction false} EncodedStands(c: Bytes, off: nat, e: Element)
    requires WellFormed(e) && Has(c, off, Encode(e))
    ensures Stands(c, off, e)
  {
    HasParts(c, off, Header(e), Contents(e));
    assert c[off + 0] == Header(e)[0];
    StandsMeansBytes(c, off, e);
  }

  lemma {:induction false} EncodedAllStand(c: Bytes, off: nat, es: seq<Element>)
    requires (forall i :: 0 <= i < |es| ==> WellFormed(es[i])) && Has(c, off, EncodeAll(es))
    requires off + |EncodeAll(es)| == |c|
    ensures StandsAll(c, off, es)
    decreases |es|
  {
    if es != [] {
      HasParts(c, off, Encode(es[0]), EncodeAll(es[1..]));
      EncodedStands(c, off, es[0]);
      EncodedAllStand(c, off + |Encode(es[0])|, es[1..]);
    }
  }

  lemma {:induction false} ValidIsWellFormed(out: Bytes, es: seq<Element>)
    requires Valid(out, es)
    ensures forall i :: 0 <= i < |es| ==> WellFormed(es[i])
    decreases |es|
  {
    if es != [] {
      ValidIsWellFormed(Expand(out, es[0]), es[1..]);
    }
  }

  /** Compress a list of elements: the preamble, then each element. */
  ghost function Compress(es: seq<Element>): Bytes
    requires Valid([], es)
  {
    ValidIsWellFormed([], es);
    EncodeVarint(|Meaning([], es)|) + EncodeAll(es)
  }

  /** Decoding undoes compression, for every list of elements within the block size. */
  lemma {:induction false} DecodeInvertsCompress(es: seq<Element>)
    requires Valid([], es) && |Meaning([], es)| <= 16 * 1024 * 1024
    ensures Decode(Compress(es)) == Ok(Meaning([], es))
  {
    var c, n := Compress(es), |Meaning([], es)|;
    var preamble := EncodeVarint(n);
    ValidIsWellFormed([], es);
    assert Pow2(7 * 4) == 0x1000_0000 by { Pow2Add7(0); Pow2Add7(7); Pow2Add7(14); Pow2Add7(21); }
    VarintLength(n, 4);
    VarintInverts(c, 0, 0, n);
    EncodedAllStand(c, |preamble|, es);
    assert Denotes(c, Meaning([], es), es);
    DecodeExact(c, Meaning([], es));
  }

  /** More lenient than the format: the last copy here lacks its high offset byte, which reads as 0. */
  lemma {:induction false} MissingOffsetByteIsAccepted()
    ensures Decode([5, 0, 7, 14, 1]) == Ok([7, 7, 7, 7, 7])
  {
    var c: Bytes := [5, 0, 7, 14, 1];
    var parse := Parser(c);
    assert parse(1) == Parse(c, 1) == Ok((Literal([7], 0), 3)) by {
      assert c[2..3] == [7];
    }
    assert parse(3) == Parse(c, 3) == Ok((Copy2(4, 1), 6)) by {
      assert ReadLE(c, 4, 1) == 1 && ReadLE(c, 4, 2) == 1;
    }
    assert Run(parse, 5, 6, [7, 7, 7, 7, 7], 5) == Ok([7, 7, 7, 7, 7]);
    assert Apply([7], Copy2(4, 1), 5) == Ok([7, 7, 7, 7, 7]) by {
      assert [7] + Repeated([7], 1, 4) == [7, 7, 7, 7, 7];
    }
    assert Run(parse, 5, 3, [7], 5) == Ok([7, 7, 7, 7, 7]);
    assert Apply([], Literal([7], 0), 5) == Ok([7]) by {
      assert [] + [7] == [7];
    }
  }

  // ---------------------------------------------------------------- the decoder, in place

  /** The length of a literal: in the tag, or in the one to four bytes after it. */
  method LiteralLength(c: Bytes, offset: nat, short: nat) returns (r: Result<(nat, nat), Error>)
    requires short < 64 && offset <= |c|
    ensures r == if short < 60 then Ok((short + 1, offset))
                 else if offset + (short - 59) > |c| then Err(BadLiteralLength)
                 else Ok((1 + ReadLE(c, offset, short - 59), offset + (short - 59)))
  {
    if short < 60 {
      return Ok((short + 1, offset));
    }
    var count := short - 59;
    if offset + count > |c| {
      return Err(BadLiteralLength);
    }
    var length: nat := 1;
    for index := 0 to count
      invariant length == 1 + ReadLE(c, offset, index)
    {
      length := length + c[offset + index] * Pow256(index);
    }
    r := Ok((length, offset + count));
  }

  /** Append a literal to the output. */
  method SetLiteral(output: array<Byte>, written: nat, bytes: Bytes)
    requires written + |bytes| <= output.Length
    modifies output
    ensures output[..written + |bytes|] == old(output[..written]) + bytes
  {
    ghost var before := output[..written];
    forall k | 0 <= k < |bytes| {
      output[written + k] := bytes[k];
    }
    assert output[..written] == before;
    assert output[written..written + |bytes|] == bytes;
    assert output[..written + |bytes|] == output[..written] + output[written..written + |bytes|];
  }

  /** Copy byte by byte, so that a copy may overlap its own result. */
  method CopyBack(output: array<Byte>, written0: nat, distance: nat, length: nat)
    requires 0 < distance <= written0 && written0 + length <= output.Length
    modifies output
    ensures output[..written0 + length] == old(output[..written0]) + Repeated(old(output[..written0]), distance, length)
  {
    ghost var before := output[..written0];
    ghost var copy := Repeated(before, distance, length);
    var written := written0;
    for index := 0 to length
      invariant written == written0 + index
      invariant output[..written] == before + copy[..index]
    {
      assert output[written - distance] == output[..written][written - distance];
      RepeatedStep(before, distance, length, index);
      output[written] := output[written - distance];
      written := written + 1;
      assert output[..written] == output[..written - 1] + [output[written - 1]];
      assert copy[..index + 1] == copy[..index] + [copy[index]];
    }
  }

  /** The byte `distance` before position `index` of the copy is the byte to write there. */
  lemma {:induction false} RepeatedStep(out: Bytes, distance: nat, length: nat, index: nat)
    requires 0 < distance <= |out| && index < length
    ensures (out + Repeated(out, distance, length)[..index])[|out| + index - distance]
        == Repeated(out, distance, length)[index]
  {
    if index >= distance {
      DivModUnique(index, distance, (index - distance) / distance + 1, (index - distance) % distance);
    } else {
      DivModUnique(index, distance, 0, index);
    }
  }

  /** Decode a literal: its length, then its contents, appended to the output. */
  method DecodeLiteral(c: Bytes, offset: nat, output: array<Byte>, written: nat) returns (r: Result<(nat, nat), Error>)
    requires offset < |c| && c[offset] % 4 == 0 && written <= output.Length
    modifies output
    ensures Agrees(StepOf(c, offset, old(output[..written]), output.Length), r, output[..])
  {
    var header := LiteralLength(c, offset + 1, c[offset] / 4);
    if header.Err? {
      return Err(header.error);
    }
    var (length, start) := header.value;
    if start + length > |c| || written + length > output.Length {
      return Err(BadLiteral);
    }
    SetLiteral(output, written, c[start..start + length]);
    assert output[..][..written + length] == output[..written + length];
    r := Ok((start + length, written + length));
  }

  /** The in-place result `r` with its buffer shows the outcome of a step. */
  ghost predicate Agrees(step: Result<(nat, Bytes), Error>, r: Result<(nat, nat), Error>, output: Bytes) {
    match step
    case Err(e) => r == Err(e)
    case Ok((next, out)) => |out| <= |output| && r == Ok((next, |out|)) && output[..|out|] == out
  }

  /** Decode the element at `offset` into the output; the new offset and number of bytes written. */
  method DecodeElement(c: Bytes, offset: nat, output: array<Byte>, written: nat) returns (r: Result<(nat, nat), Error>)
    requires offset < |c| && written <= output.Length
    modifies output
    ensures Agrees(StepOf(c, offset, old(output[..written]), output.Length), r, output[..])
  {
    if c[offset] % 4 == 0 {
      r := DecodeLiteral(c, offset, output, written);
      return;
    }
    var (length, copyOffset, next) := CopyFields(c, offset);
    if copyOffset <= 0 || copyOffset > written || written + length > output.Length {
      return Err(BadCopy);
    }
    CopyBack(output, written, copyOffset, length);
    assert output[..][..written + length] == output[..written + length];
    r := Ok((next, written + length));
  }

  /** Length, signed distance and end of a copy element. */
  function CopyFields(c: Bytes, offset: nat): (nat, int, nat)
    requires offset < |c| && c[offset] % 4 != 0
  {
    var tag := c[offset];
    if tag % 4 == 1 then ((tag / 4) % 8 + 4, (tag / 32) * 256 + ReadLE(c, offset + 1, 1), offset + 2)
    else if tag % 4 == 2 then (tag / 4 + 1, ReadLE(c, offset + 1, 2), offset + 3)
    else (tag / 4 + 1, Signed32(ReadLE(c, offset + 1, 4)), offset + 5)
  }

  /** Parse one element and apply it. */
  function StepOf(c: Bytes, off: nat, out: Bytes, expected: nat): Result<(nat, Bytes), Error>
    requires off < |c|
  {
    match Parse(c, off)
    case Err(e) => Err(e)
    case Ok((e, next)) =>
      match Apply(out, e, expected)
      case Err(error) => Err(error)
      case Ok(out') => Ok((next, out'))
  }

  /** Decode a block: the announced length is allocated once and filled in place. */
  method DecodeSnappy(c: Bytes) returns (r: Result<Bytes, Error>)
    ensures r == Decode(c)
    ensures r.Ok? ==> Varint(c, 0).Ok? && |r.value| == Varint(c, 0).value.0 <= MAX_BLOCK_BYTES
  {
    var preamble := ReadVarint(c, 0);
    if preamble.Err? {
      return Err(BadVarint(preamble.error));
    }
    var (expectedLength, offset) := preamble.value;
    if expectedLength > MAX_BLOCK_BYTES {
      return Err(TooLarge);
    }
    var output := new Byte[expectedLength](_ => 0);
    var written: nat := 0;
    while offset < |c|
      invariant written <= output.Length == expectedLength
      invariant Decode(c) == DecodeFrom(c, offset, output[..written], expectedLength)
      decreases |c| - offset
    {
      assert Parser(c)(offset) == Parse(c, offset);
      var step := DecodeElement(c, offset, output, written);
      if step.Err? {
        return Err(step.error);
      }
      assert output[..][..step.value.1] == output[..step.value.1];
      offset, written := step.value.0, step.value.1;
    }
    if written != output.Length {
      return Err(Incomplete);
    }
    assert output[..written] == output[..];
    r := Ok(output[..]);
  }
}
