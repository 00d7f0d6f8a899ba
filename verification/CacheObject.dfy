/** The byte form of a cached response, and its weight in the memory cache. */
module CacheObject {
  import opened Toml

  newtype byte = x: int | 0 <= x < 256

  type Bytes = seq<byte>

  datatype Object = Object(meta0: Bytes, meta1: Bytes, body: Bytes)

  const U32: nat := 0x1_0000_0000
  const HEADER: nat := 8

  /** A length cast to 32 bits, most significant byte first. */
  function PutU32(n: nat): (r: Bytes)
    ensures |r| == 4
  {
    var n0 := n % U32;
    var n1 := n0 / 256;
    var n2 := n1 / 256;
    [(n2 / 256) as byte, (n2 % 256) as byte, (n1 % 256) as byte, (n0 % 256) as byte]
  }

  function GetU32(b: Bytes): (n: nat)
    requires |b| >= 4
    ensures n < U32
  {
    ((b[0] as int * 256 + b[1] as int) * 256 + b[2] as int) * 256 + b[3] as int
  }

  function Encode(o: Object): Bytes {
    PutU32(|o.meta0|) + PutU32(|o.meta1|) + o.meta0 + o.meta1 + o.body
  }

  /** Refuses bytes that are shorter than their header claims. */
  function Decode(b: Bytes): Result<Object> {
    if |b| < HEADER then Err
    else
      var size0, size1, data := GetU32(b), GetU32(b[4..]), b[HEADER..];
      if size0 + size1 > |data| then Err
      else Ok(Object(data[..size0], data[size0..][..size1], data[size0..][size1..]))
  }

  // ---- lengths --------------------------------------------------------------------------

  lemma GetPut(n: nat)
    ensures GetU32(PutU32(n)) == n % U32
  {}

  lemma Horner(x: nat, y: nat)
    requires y < 256
    ensures (x * 256 + y) / 256 == x && (x * 256 + y) % 256 == y
  {}

  lemma PutGet(b: Bytes)
    requires |b| == 4
    ensures PutU32(GetU32(b)) == b
  {
    var n2 := b[0] as int * 256 + b[1] as int;
    var n1 := n2 * 256 + b[2] as int;
    Horner(b[0] as int, b[1] as int);
    Horner(n2, b[2] as int);
    Horner(n1, b[3] as int);
    assert GetU32(b) % U32 == GetU32(b);
  }

  lemma EncodeParts(o: Object)
    ensures var b := Encode(o);
            && |b| == HEADER + |o.meta0| + |o.meta1| + |o.body|
            && b[..4] == PutU32(|o.meta0|) && b[4..8] == PutU32(|o.meta1|)
            && b[8..] == o.meta0 + o.meta1 + o.body
            && GetU32(b) == |o.meta0| % U32 && GetU32(b[4..]) == |o.meta1| % U32
  {
    var b := Encode(o);
    GetPut(|o.meta0|);
    GetPut(|o.meta1|);
    assert b[4..][..4] == b[4..8];
    assert GetU32(b) == GetU32(b[..4]) && GetU32(b[4..]) == GetU32(b[4..8]);
  }

  // ---- main results ---------------------------------------------------------------------

  lemma Slices(a: Bytes, b: Bytes, c: Bytes)
    ensures (a + b + c)[..|a|] == a && (a + b + c)[|a|..][..|b|] == b && (a + b + c)[|a|..][|b|..] == c
  {
    assert (a + b + c)[|a|..] == b + c;
  }

  /** The fields cut out by two sizes. */
  function Cut(data: Bytes, size0: nat, size1: nat): Object
    requires size0 + size1 <= |data|
  {
    Object(data[..size0], data[size0..][..size1], data[size0..][size1..])
  }

  lemma CutIff(o: Object, size0: nat, size1: nat)
    requires size0 <= |o.meta0| && size1 <= |o.meta1|
    ensures Cut(o.meta0 + o.meta1 + o.body, size0, size1) == o <==> size0 == |o.meta0| && size1 == |o.meta1|
  {
    Slices(o.meta0, o.meta1, o.body);
    var c := Cut(o.meta0 + o.meta1 + o.body, size0, size1);
    assert |c.meta0| == size0 && |c.meta1| == size1;
  }

  lemma FitsIff(n: nat)
    ensures n % U32 <= n && (n % U32 == n <==> n < U32)
  {}

  /** Storing and loading gives the object again exactly when both metadata lengths fit in 32 bits. */
  lemma RoundTripIff(o: Object)
    ensures Decode(Encode(o)) == Ok(o) <==> |o.meta0| < U32 && |o.meta1| < U32
  {
    EncodeParts(o);
    Decoded(Encode(o), |o.meta0| % U32, |o.meta1| % U32, o.meta0 + o.meta1 + o.body);
    FitsIff(|o.meta0|);
    FitsIff(|o.meta1|);
    CutIff(o, |o.meta0| % U32, |o.meta1| % U32);
  }

  lemma Decoded(b: Bytes, size0: nat, size1: nat, data: Bytes)
    requires |b| >= HEADER && GetU32(b) == size0 && GetU32(b[4..]) == size1 && b[HEADER..] == data
    ensures Decode(b) == if size0 + size1 <= |data| then Ok(Cut(data, size0, size1)) else Err
  {}

  lemma CutJoins(data: Bytes, size0: nat, size1: nat)
    requires size0 + size1 <= |data|
    ensures var o := Cut(data, size0, size1);
            o.meta0 + o.meta1 + o.body == data && |o.meta0| == size0 && |o.meta1| == size1
  {
    assert data[size0..][..size1] + data[size0..][size1..] == data[size0..];
  }

  lemma HeaderOf(b: Bytes)
    requires |b| >= HEADER
    ensures PutU32(GetU32(b)) + PutU32(GetU32(b[4..])) + b[HEADER..] == b
  {
    PutGet(b[..4]);
    PutGet(b[4..8]);
    assert GetU32(b) == GetU32(b[..4]) && GetU32(b[4..]) == GetU32(b[4..8]);
  }

  lemma EncodeAssoc(o: Object)
    ensures Encode(o) == PutU32(|o.meta0|) + PutU32(|o.meta1|) + (o.meta0 + o.meta1 + o.body)
  {}

  /** Bytes that are accepted are the encoding of what they decode to. */
  lemma AcceptedIsEncoded(b: Bytes)
    requires Decode(b).Ok?
    ensures Encode(Decode(b).value) == b
  {
    var size0, size1 := GetU32(b), GetU32(b[4..]);
    Decoded(b, size0, size1, b[HEADER..]);
    CutJoins(b[HEADER..], size0, size1);
    HeaderOf(b);
    EncodeAssoc(Decode(b).value);
  }

  lemma EncodePrefix(o: Object, n: nat)
    requires HEADER + |o.meta0| + |o.meta1| <= n <= |Encode(o)|
    ensures Encode(o)[..n] == Encode(o.(body := o.body[..n - (HEADER + |o.meta0| + |o.meta1|)]))
  {}

  lemma CutShort(b: Bytes, n: nat)
    requires HEADER <= n <= |b| && n < HEADER + GetU32(b) + GetU32(b[4..])
    ensures Decode(b[..n]).Err?
  {
    assert b[..n][4..] == b[4..n];
    assert GetU32(b[..n]) == GetU32(b) && GetU32(b[4..n]) == GetU32(b[4..]);
  }

  /**
   * A file that was cut short: refused if the cut falls into the header or the metadata,
   * otherwise only the body is shorter.
   */
  lemma Truncated(o: Object, n: nat)
    requires |o.meta0| < U32 && |o.meta1| < U32 && n <= |Encode(o)|
    ensures var kept := HEADER + |o.meta0| + |o.meta1|;
            Decode(Encode(o)[..n]) == if n < kept then Err else Ok(o.(body := o.body[..n - kept]))
  {
    var kept := HEADER + |o.meta0| + |o.meta1|;
    EncodeParts(o);
    if n >= kept {
      EncodePrefix(o, n);
      RoundTripIff(o.(body := o.body[..n - kept]));
    } else if n >= HEADER {
      CutShort(Encode(o), n);
    }
  }

  // ---- weights --------------------------------------------------------------------------

  const PAGE_SIZE: nat := 4096
  const MAX_SIZE: nat := 10 * 1024 * PAGE_SIZE
  const U16_MAX: nat := 65535

  function Size(o: Object): nat {
    |o.body| + |o.meta0| + |o.meta1|
  }

  /** The weight of a size; the page count is cast to 16 bits. */
  function WeightOf(size: nat): (w: nat)
    ensures 1 <= w <= U16_MAX
    ensures PAGE_SIZE < size < MAX_SIZE ==> w * PAGE_SIZE <= size < (w + 1) * PAGE_SIZE
  {
    if size <= PAGE_SIZE then 1 else if size >= MAX_SIZE then U16_MAX else size / PAGE_SIZE % 0x1_0000
  }

  function Weight(o: Object): nat {
    WeightOf(Size(o))
  }

  /** A bigger object never weighs less. */
  lemma WeightMonotone(a: Object, b: Object)
    requires Size(a) <= Size(b)
    ensures Weight(a) <= Weight(b)
  {}
}
