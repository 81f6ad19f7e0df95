/**
 Little-endian integers and varints, as the LevelDB table format and the Snappy format
 description use them, with their encoders (extensions/anthropic/claude-desktop-groups.ts).
 */
module Binary {
  import opened Prelude

  /** The byte at `k`, or 0 past the end. */
  function ByteAt(b: Bytes, k: nat): Byte {
    if k < |b| then b[k] else 0
  }

  /** `s` stands in `b` at offset `off`. */
  ghost predicate Has(b: Bytes, off: nat, s: Bytes) {
    off + |s| <= |b| && forall k {:trigger s[k]} :: 0 <= k < |s| ==> b[off + k] == s[k]
  }

  lemma {:induction false} HasSlice(b: Bytes, off: nat, s: Bytes)
    ensures Has(b, off, s) <==> off + |s| <= |b| && b[off..off + |s|] == s
  {
    if off + |s| <= |b| {
      var t := b[off..off + |s|];
      assert forall k :: 0 <= k < |s| ==> t[k] == b[off + k];
    }
  }

  lemma {:induction false} HasParts(b: Bytes, off: nat, s: Bytes, t: Bytes)
    requires Has(b, off, s + t)
    ensures Has(b, off, s) && Has(b, off + |s|, t)
  {
    assert forall k :: 0 <= k < |s| ==> (s + t)[k] == s[k];
    assert forall k :: 0 <= k < |t| ==> (s + t)[|s| + k] == t[k];
  }

  // ---------------------------------------------------------------- fixed width

  function Pow256(k: nat): (r: nat)
    ensures r > 0
  {
    if k == 0 then 1 else 256 * Pow256(k - 1)
  }

  /** The `k`-byte little-endian integer at `off`; bytes past the end read as 0. */
  function ReadLE(b: Bytes, off: nat, k: nat): (n: nat)
    ensures n < Pow256(k)
  {
    if k == 0 then 0
    else
      PlaceValue(ReadLE(b, off, k - 1), ByteAt(b, off + k - 1), Pow256(k - 1));
      ReadLE(b, off, k - 1) + ByteAt(b, off + k - 1) * Pow256(k - 1)
  }

  /** A digit on top of a smaller number: in range, and recovered by division. */
  lemma {:induction false} PlaceValue(low: nat, digit: nat, base: nat)
    requires low < base
    ensures digit < 256 ==> low + digit * base < 256 * base
    ensures (low + digit * base) / base == digit && (low + digit * base) % base == low
  {
    assert digit < 256 ==> digit * base <= 255 * base;
    DivModUnique(low + digit * base, base, digit, low);
  }

  lemma {:induction false} MulGrows(d: int, base: nat)
    ensures d >= 1 ==> d * base >= base
    ensures d <= -1 ==> d * base <= -1 * base
  {
  }

  lemma {:induction false} SmallMultiple(d: int, base: int)
    requires base > 0 && -1 * base < d * base < base
    ensures d == 0
  {
    MulGrows(d, base);
  }

  lemma {:induction false} Distribute(a: int, b: int, c: int)
    ensures (a - b) * c == a * c - b * c
  {
  }

  lemma {:induction false} DivModUnique(n: int, base: nat, q: int, r: int)
    requires 0 <= r < base && n == q * base + r
    ensures n / base == q && n % base == r
  {
    var q', r' := n / base, n % base;
    assert n == q' * base + r' && 0 <= r' < base;
    Distribute(q, q', base);
    SmallMultiple(q - q', base);
  }

  /** The `k`-byte little-endian encoding of `n`. */
  function LE(n: nat, k: nat): (s: Bytes)
    requires n < Pow256(k)
    ensures |s| == k
  {
    if k == 0 then []
    else
      var (low, digit) := SplitTop(n, Pow256(k - 1));
      LE(low, k - 1) + [digit]
  }

  /** The digit above `base`, and what is below it. */
  function SplitTop(n: nat, base: nat): (p: (nat, Byte))
    requires base > 0 && n < 256 * base
    ensures p.0 < base && n == p.0 + p.1 * base
  {
    TopDigit(n, base);
    (n % base, n / base)
  }

  lemma {:induction false} SplitTopUnique(low: nat, digit: Byte, base: nat)
    requires low < base
    ensures low + digit * base < 256 * base && SplitTop(low + digit * base, base) == (low, digit)
  {
    PlaceValue(low, digit, base);
  }

  lemma {:induction false} TopDigit(n: nat, base: nat)
    requires base > 0 && n < 256 * base
    ensures n / base < 256 && n == n % base + (n / base) * base && n % base < base
  {
    var q := n / base;
    assert n == q * base + n % base;
    QuotientBelow(q, 256, base);
  }

  lemma {:induction false} QuotientBelow(q: int, limit: int, base: nat)
    requires base > 0 && q * base < limit * base
    ensures q < limit
  {
    MulGrows(q - limit, base);
    Distribute(q, limit, base);
  }

  /** Reading undoes writing, wherever the bytes stand. */
  lemma {:induction false} ReadLEInverts(b: Bytes, off: nat, n: nat, k: nat)
    requires n < Pow256(k) && forall i :: 0 <= i < k ==> ByteAt(b, off + i) == LE(n, k)[i]
    ensures ReadLE(b, off, k) == n
  {
    if k > 0 {
      var (rest, digit) := SplitTop(n, Pow256(k - 1));
      var low, all := LE(rest, k - 1), LE(n, k);
      assert all == low + [digit] && all[k - 1] == digit;
      assert forall i :: 0 <= i < k - 1 ==> all[i] == low[i];
      ReadLEInverts(b, off, rest, k - 1);
    }
  }

  /** Writing what was read gives the bytes back. */
  lemma {:induction false} LEInverts(b: Bytes, off: nat, k: nat)
    ensures forall i :: 0 <= i < k ==> LE(ReadLE(b, off, k), k)[i] == ByteAt(b, off + i)
  {
    if k > 0 {
      LEInverts(b, off, k - 1);
      SplitTopUnique(ReadLE(b, off, k - 1), ByteAt(b, off + k - 1), Pow256(k - 1));
    }
  }

  // ---------------------------------------------------------------- varints

  datatype VarintError = UnexpectedEnd | TooLong

  function Pow2(k: nat): (r: nat)
    ensures r > 0
  {
    if k == 0 then 1 else 2 * Pow2(k - 1)
  }

  lemma {:induction false} Pow2Add7(k: nat)
    ensures Pow2(k + 7) == 128 * Pow2(k)
  {
    assert Pow2(k + 7) == 2 * Pow2(k + 6) == 4 * Pow2(k + 5) == 8 * Pow2(k + 4);
    assert Pow2(k + 4) == 2 * Pow2(k + 3) == 4 * Pow2(k + 2) == 8 * Pow2(k + 1);
  }

  /** The varint at `off`, whose `index`-th byte this is: its value and the offset after it. */
  function VarintFrom(b: Bytes, off: nat, index: nat): Result<(nat, nat), VarintError>
    requires index <= 10
    decreases 10 - index, |b|
  {
    if index == 10 then Err(TooLong)
    else if off >= |b| then Err(UnexpectedEnd)
    else if b[off] < 128 then Ok((b[off], off + 1))
    else match VarintFrom(b, off + 1, index + 1)
      case Err(e) => Err(e)
      case Ok((rest, next)) => Ok((b[off] - 128 + 128 * rest, next))
  }

  function Varint(b: Bytes, off: nat): Result<(nat, nat), VarintError> {
    VarintFrom(b, off, 0)
  }

  /** Add `value` to, and scale, a result that is still being read. */
  function Accumulate(value: nat, scale: nat, rest: Result<(nat, nat), VarintError>): Result<(nat, nat), VarintError> {
    match rest
    case Err(e) => Err(e)
    case Ok((v, next)) => Ok((value + scale * v, next))
  }

  /** One more byte: either the varint ends here, or its seven bits join the value so far. */
  lemma {:induction false} VarintStep(b: Bytes, cursor: nat, index: nat, value: nat, scale: nat, low: nat)
    requires cursor < |b| && index < 10 && low == b[cursor] % 128
    ensures Accumulate(value, scale, VarintFrom(b, cursor, index)) ==
            if b[cursor] < 128 then Ok((value + low * scale, cursor + 1))
            else Accumulate(value + low * scale, 128 * scale, VarintFrom(b, cursor + 1, index + 1))
  {
    var rest := VarintFrom(b, cursor + 1, index + 1);
    if b[cursor] >= 128 && rest.Ok? {
      var v := rest.value.0;
      assert scale * (low + 128 * v) == low * scale + (128 * scale) * v;
    }
  }

  /** At most ten bytes, seven bits each, least significant first. */
  method ReadVarint(b: Bytes, offset: nat) returns (r: Result<(nat, nat), VarintError>)
    ensures r == Varint(b, offset)
  {
    var value: nat, shift: nat, cursor: nat := 0, 0, offset;
    for index := 0 to 10
      invariant Varint(b, offset) == Accumulate(value, Pow2(shift), VarintFrom(b, cursor, index))
    {
      if cursor >= |b| {
        return Err(UnexpectedEnd);
      }
      var byte := b[cursor];
      VarintStep(b, cursor, index, value, Pow2(shift), byte % 128);
      Pow2Add7(shift);
      cursor := cursor + 1;
      value := value + (byte % 128) * Pow2(shift);
      if byte < 128 {
        return Ok((value, cursor));
      }
      shift := shift + 7;
    }
    return Err(TooLong);
  }

  function EncodeVarint(n: nat): (s: Bytes)
    ensures |s| > 0
  {
    if n < 128 then [n] else [n % 128 + 128] + EncodeVarint(n / 128)
  }

  /** A varint of at most ten bytes is read back, wherever it stands. */
  lemma {:induction false} VarintInverts(b: Bytes, off: nat, index: nat, n: nat)
    requires Has(b, off, EncodeVarint(n)) && index + |EncodeVarint(n)| <= 10
    ensures VarintFrom(b, off, index) == Ok((n, off + |EncodeVarint(n)|))
    decreases n
  {
    assert b[off] == EncodeVarint(n)[0];
    if n >= 128 {
      HasParts(b, off, [n % 128 + 128], EncodeVarint(n / 128));
      VarintInverts(b, off + 1, index + 1, n / 128);
    }
  }

  lemma {:induction false} VarintLength(n: nat, k: nat)
    requires k > 0 && n < Pow2(7 * k)
    ensures |EncodeVarint(n)| <= k
    decreases k
  {
    Pow2Add7(7 * (k - 1));
    if k == 1 {
      assert Pow2(0) == 1;
    } else if n >= 128 {
      VarintLength(n / 128, k - 1);
    }
  }

  // ---------------------------------------------------------------- runs of varints

  /** `n` varints in a row, and the offset after them. */
  function Numbers(b: Bytes, off: nat, n: nat): (r: Option<(seq<nat>, nat)>)
    ensures r.Some? ==> |r.value.0| == n
    ensures r.Some? && n > 0 ==> off < r.value.1 <= |b|
    decreases n, |b|
  {
    if n == 0 then Some(([], off))
    else
      VarintAdvances(b, off, 0);
      match Varint(b, off)
      case Err(_) => None
      case Ok((first, next)) =>
        match Numbers(b, next, n - 1)
        case None => None
        case Some((rest, end)) => Some(([first] + rest, end))
  }

  lemma {:induction false} VarintAdvances(b: Bytes, off: nat, index: nat)
    requires index <= 10
    ensures VarintFrom(b, off, index).Ok? ==> off < VarintFrom(b, off, index).value.1 <= |b|
    decreases 10 - index
  {
    if index < 10 && off < |b| && b[off] >= 128 {
      VarintAdvances(b, off + 1, index + 1);
    }
  }

  function EncodeNumbers(ns: seq<nat>): Bytes {
    if ns == [] then [] else EncodeVarint(ns[0]) + EncodeNumbers(ns[1..])
  }

  /** The format's 32-bit varints. */
  predicate Encodable(n: nat) {
    n < 0x1_0000_0000
  }

  lemma {:induction false} EncodableIsShort(n: nat)
    requires Encodable(n)
    ensures |EncodeVarint(n)| <= 5
  {
    Pow2Add7(0); Pow2Add7(7); Pow2Add7(14); Pow2Add7(21); Pow2Add7(28);
    assert Pow2(7 * 5) == 0x8_0000_0000;
    VarintLength(n, 5);
  }

  lemma {:induction false} VarintThen(b: Bytes, off: nat, n: nat, tail: Bytes)
    requires Encodable(n) && Has(b, off, EncodeVarint(n) + tail)
    ensures Varint(b, off) == Ok((n, off + |EncodeVarint(n)|))
    ensures Has(b, off + |EncodeVarint(n)|, tail)
  {
    EncodableIsShort(n);
    HasParts(b, off, EncodeVarint(n), tail);
    VarintInverts(b, off, 0, n);
  }

  /** A run of encoded numbers is read back, wherever it stands. */
  lemma {:induction false} NumbersInvert(b: Bytes, off: nat, ns: seq<nat>)
    requires (forall i :: 0 <= i < |ns| ==> Encodable(ns[i])) && Has(b, off, EncodeNumbers(ns))
    ensures Numbers(b, off, |ns|) == Some((ns, off + |EncodeNumbers(ns)|))
    decreases |ns|
  {
    if ns != [] {
      VarintThen(b, off, ns[0], EncodeNumbers(ns[1..]));
      NumbersInvert(b, off + |EncodeVarint(ns[0])|, ns[1..]);
      assert [ns[0]] + ns[1..] == ns;
    }
  }

  method ReadNumbers(b: Bytes, offset: nat, n: nat) returns (r: Option<(seq<nat>, nat)>)
    ensures r == Numbers(b, offset, n)
    decreases n
  {
    if n == 0 {
      return Some(([], offset));
    }
    var first := ReadVarint(b, offset);
    if first.Err? {
      return None;
    }
    var rest := ReadNumbers(b, first.value.1, n - 1);
    if rest.None? {
      return None;
    }
    r := Some(([first.value.0] + rest.value.0, rest.value.1));
  }

  /** Reading stops by `end`: bytes from there on did not matter. */
  lemma {:induction false} SameVarint(a: Bytes, b: Bytes, off: nat, end: nat, index: nat)
    requires end <= |a| && end <= |b| && index <= 10 && forall k :: 0 <= k < end ==> a[k] == b[k]
    ensures VarintFrom(a, off, index).Ok? && VarintFrom(a, off, index).value.1 <= end ==>
              VarintFrom(b, off, index) == VarintFrom(a, off, index)
    decreases 10 - index
  {
    VarintAdvances(a, off, index);
    if index < 10 && off < end && a[off] >= 128 {
      SameVarint(a, b, off + 1, end, index + 1);
    }
  }

  lemma {:induction false} SameNumbers(a: Bytes, b: Bytes, off: nat, end: nat, n: nat)
    requires end <= |a| && end <= |b| && forall k :: 0 <= k < end ==> a[k] == b[k]
    ensures Numbers(a, off, n).Some? && Numbers(a, off, n).value.1 <= end ==> Numbers(b, off, n) == Numbers(a, off, n)
    decreases n
  {
    if n > 0 && Numbers(a, off, n).Some? {
      SameVarint(a, b, off, end, 0);
      SameNumbers(a, b, Varint(a, off).value.1, end, n - 1);
    }
  }
}
