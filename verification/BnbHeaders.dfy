/**
  BNB headers and their RLP form. The first 15 fields are always written; the last five are optional, and those
  after the last one present are left out. A missing field before the last present one is written as the empty
  string.
 */
module BnbHeaders {
  import opened Prelude
  import opened Rlp

  type Hash32 = s: Bytes | |s| == 32 witness seq(32, _ => 0)
  type Address = s: Bytes | |s| == 20 witness seq(20, _ => 0)
  type Bloom = s: Bytes | |s| == 256 witness seq(256, _ => 0)
  type BlockNonce = s: Bytes | |s| == 8 witness seq(8, _ => 0)

  /** None stands for a nil pointer; `int` for a signed big integer. */
  datatype Header = Header(
    parentHash: Hash32, uncleHash: Hash32, coinbase: Address, root: Hash32, txHash: Hash32, receiptHash: Hash32,
    bloom: Bloom, difficulty: Option<int>, number: Option<int>, gasLimit: Uint64, gasUsed: Uint64, time: Uint64,
    extra: Bytes, mixDigest: Hash32, nonce: BlockNonce,
    baseFee: Option<int>, withdrawalsHash: Option<Hash32>, blobGasUsed: Option<Uint64>,
    excessBlobGas: Option<Uint64>, parentBeaconRoot: Option<Hash32>)

  datatype EncodeError = NegativeBigInt

  const REQUIRED: nat := 15

  // ---------- what is written ----------

  predicate NotNegative(n: Option<int>) {
    n.Some? ==> n.value >= 0
  }

  predicate Encodable(h: Header) {
    NotNegative(h.difficulty) && NotNegative(h.number) && NotNegative(h.baseFee)
  }

  function OrZero(n: Option<int>): (r: nat)
    ensures n.Some? && NotNegative(n) ==> r == n.value
  {
    if n.Some? && n.value > 0 then n.value else 0
  }

  function RequiredFields(h: Header): (fields: seq<Bytes>)
    ensures |fields| == REQUIRED
  {
    [h.parentHash, h.uncleHash, h.coinbase, h.root, h.txHash, h.receiptHash, h.bloom,
     ToBytes(OrZero(h.difficulty)), ToBytes(OrZero(h.number)),
     ToBytes(h.gasLimit), ToBytes(h.gasUsed), ToBytes(h.time), h.extra, h.mixDigest, h.nonce]
  }

  function OptionalFields(h: Header): (fields: seq<Bytes>)
    ensures |fields| == 5
  {
    [ToBytes(OrZero(h.baseFee)), OrEmpty(h.withdrawalsHash), ToBytes(OrZero(h.blobGasUsed)),
     ToBytes(OrZero(h.excessBlobGas)), OrEmpty(h.parentBeaconRoot)]
  }

  function OrEmpty(s: Option<Hash32>): Bytes {
    if s.None? then [] else s.value
  }

  /** How many optional fields are written: up to the last one present. */
  function OptionalCount(h: Header): (n: nat)
    ensures n <= 5
  {
    if h.parentBeaconRoot.Some? then 5
    else if h.excessBlobGas.Some? then 4
    else if h.blobGasUsed.Some? then 3
    else if h.withdrawalsHash.Some? then 2
    else if h.baseFee.Some? then 1
    else 0
  }

  function Fields(h: Header): (fields: seq<Bytes>)
    ensures |fields| == REQUIRED + OptionalCount(h)
  {
    RequiredFields(h) + OptionalFields(h)[..OptionalCount(h)]
  }

  /** Appendix B defines no encoding of 2^64 bytes or more; no header that fits in memory is that long. */
  ghost predicate Fits(h: Header) {
    AllShort(Fields(h)) && |Payload(Fields(h))| < TWO_TO_THE_64
  }

  function Encode(h: Header): Result<Bytes, EncodeError>
    requires Fits(h)
  {
    if Encodable(h) then Ok(EncodeList(Payload(Fields(h)))) else Err(NegativeBigInt)
  }

  // ---------- what is read ----------

  predicate IsUint64(s: Bytes) {
    Minimal(s) && |s| <= 8
  }

  /** The sizes and canonical integers that the fields' types demand; a field that is present is never nil. */
  predicate WellFormed(f: seq<Bytes>) {
    && REQUIRED <= |f| <= REQUIRED + 5
    && |f[0]| == 32 && |f[1]| == 32 && |f[2]| == 20 && |f[3]| == 32 && |f[4]| == 32 && |f[5]| == 32
    && |f[6]| == 256 && Minimal(f[7]) && Minimal(f[8])
    && IsUint64(f[9]) && IsUint64(f[10]) && IsUint64(f[11])
    && |f[13]| == 32 && |f[14]| == 8
    && (|f| > 15 ==> Minimal(f[15]))
    && (|f| > 16 ==> |f[16]| == 32)
    && (|f| > 17 ==> IsUint64(f[17]))
    && (|f| > 18 ==> IsUint64(f[18]))
    && (|f| > 19 ==> |f[19]| == 32)
  }

  function ToUint(s: Bytes): Uint64
    requires IsUint64(s)
  {
    ToBytesFromBytes(s);
    EightBytesAreUint64(FromBytes(s));
    FromBytes(s)
  }

  function FromFields(f: seq<Bytes>): Header
    requires WellFormed(f)
  {
    Header(f[0], f[1], f[2], f[3], f[4], f[5], f[6], Some(FromBytes(f[7])), Some(FromBytes(f[8])),
           ToUint(f[9]), ToUint(f[10]), ToUint(f[11]), f[12], f[13], f[14],
           if |f| > 15 then Some(FromBytes(f[15])) else None,
           if |f| > 16 then Some(f[16]) else None,
           if |f| > 17 then Some(ToUint(f[17])) else None,
           if |f| > 18 then Some(ToUint(f[18])) else None,
           if |f| > 19 then Some(f[19]) else None)
  }

  /** The header at the front of `raw`; bytes after it are not looked at. */
  function Decode(raw: Bytes): Option<Header> {
    match DecodeList(raw)
    case None => None
    case Some((payload, _)) =>
      match Items(payload)
      case None => None
      case Some(fields) => if WellFormed(fields) then Some(FromFields(fields)) else None
  }

  // ---------- normal forms ----------

  /** What the encoding keeps of a header: absent numbers that are written become 0. */
  function Normalize(h: Header): Header
    requires Encodable(h)
  {
    var n := OptionalCount(h);
    h.(difficulty := Some(OrZero(h.difficulty)), number := Some(OrZero(h.number)),
       baseFee := if n > 0 then Some(OrZero(h.baseFee)) else None,
       blobGasUsed := if n > 2 then Some(OrZero(h.blobGasUsed)) else None,
       excessBlobGas := if n > 3 then Some(OrZero(h.excessBlobGas)) else None)
  }

  /** An absent withdrawals hash before a later field is written as a string that is no hash. */
  predicate HasGap(h: Header) {
    h.withdrawalsHash.None? && OptionalCount(h) > 2
  }

  /** Both numbers are present, nothing is negative, and the present optional fields come before the absent ones. */
  predicate Canonical(h: Header) {
    && Encodable(h) && h.difficulty.Some? && h.number.Some?
    && (h.withdrawalsHash.Some? ==> h.baseFee.Some?)
    && (h.blobGasUsed.Some? ==> h.withdrawalsHash.Some?)
    && (h.excessBlobGas.Some? ==> h.blobGasUsed.Some?)
    && (h.parentBeaconRoot.Some? ==> h.excessBlobGas.Some?)
  }

  lemma CanonicalIsNormal(h: Header)
    requires Encodable(h)
    ensures Canonical(h) <==> Normalize(h) == h && !HasGap(h)
  {
  }

  // ---------- fields and headers ----------

  lemma {:induction false} Uint64Field(n: Uint64)
    ensures IsUint64(ToBytes(n)) && ToUint(ToBytes(n)) == n
  {
    FromBytesToBytes(n);
    EightBytesAreUint64(n);
  }

  lemma WrittenFields(h: Header)
    ensures var f := Fields(h);
            && (forall i | 0 <= i < REQUIRED :: f[i] == RequiredFields(h)[i])
            && (forall i | REQUIRED <= i < |f| :: f[i] == OptionalFields(h)[i - REQUIRED])
  {
  }

  lemma RequiredAreRead(h: Header)
    requires Encodable(h)
    ensures var f := Fields(h);
            && f[0] == h.parentHash && f[1] == h.uncleHash && f[2] == h.coinbase && f[3] == h.root && f[4] == h.txHash
            && f[5] == h.receiptHash && f[6] == h.bloom && f[12] == h.extra && f[13] == h.mixDigest && f[14] == h.nonce
            && Minimal(f[7]) && FromBytes(f[7]) == OrZero(h.difficulty)
            && Minimal(f[8]) && FromBytes(f[8]) == OrZero(h.number)
            && IsUint64(f[9]) && ToUint(f[9]) == h.gasLimit
            && IsUint64(f[10]) && ToUint(f[10]) == h.gasUsed
            && IsUint64(f[11]) && ToUint(f[11]) == h.time
  {
    hide ToBytes, FromBytes, Fields, OptionalFields, OptionalCount;
    WrittenFields(h);
    FromBytesToBytes(OrZero(h.difficulty));
    FromBytesToBytes(OrZero(h.number));
    Uint64Field(h.gasLimit);
    Uint64Field(h.gasUsed);
    Uint64Field(h.time);
  }

  lemma OptionalAreRead(h: Header)
    requires Encodable(h)
    ensures var f := Fields(h);
            && (|f| > 15 ==> Minimal(f[15]) && FromBytes(f[15]) == OrZero(h.baseFee))
            && (|f| > 16 ==> f[16] == OrEmpty(h.withdrawalsHash))
            && (|f| > 17 ==> IsUint64(f[17]) && ToUint(f[17]) == OrZero(h.blobGasUsed))
            && (|f| > 18 ==> IsUint64(f[18]) && ToUint(f[18]) == OrZero(h.excessBlobGas))
            && (|f| > 19 ==> f[19] == OrEmpty(h.parentBeaconRoot))
  {
    hide ToBytes, FromBytes, Fields, RequiredFields;
    WrittenFields(h);
    FromBytesToBytes(OrZero(h.baseFee));
    Uint64Field(OrZero(h.blobGasUsed));
    Uint64Field(OrZero(h.excessBlobGas));
  }

  /** Reading the written fields gives the normalised header, unless the withdrawals hash is missing in between. */
  lemma FieldsRoundTrip(h: Header)
    requires Encodable(h)
    ensures WellFormed(Fields(h)) <==> !HasGap(h)
    ensures !HasGap(h) ==> FromFields(Fields(h)) == Normalize(h)
  {
    hide ToBytes, FromBytes, Fields, RequiredFields, OptionalFields, IsUint64, ToUint, Minimal;
    RequiredAreRead(h);
    OptionalAreRead(h);
  }

  lemma FromFieldsIsCanonical(f: seq<Bytes>)
    requires WellFormed(f)
    ensures Canonical(FromFields(f)) && OptionalCount(FromFields(f)) == |f| - REQUIRED
  {
    hide FromBytes;
  }

  /** Writing a header that was read gives the fields back. */
  lemma ReadFieldsAreWritten(f: seq<Bytes>)
    requires WellFormed(f)
    ensures Canonical(FromFields(f)) && Fields(FromFields(f)) == f
  {
    hide ToBytes, FromBytes, Fields;
    var h := FromFields(f);
    FromFieldsIsCanonical(f);
    WrittenFields(h);
    forall i | 0 <= i < |f| && (i in {7, 8, 9, 10, 11, 15, 17, 18}) ensures ToBytes(FromBytes(f[i])) == f[i] {
      ToBytesFromBytes(f[i]);
    }
  }

  // ---------- main results ----------

  /** Decoding an encoded header, whatever bytes follow, gives the header up to normalisation or fails for a gap. */
  lemma DecodeAfterEncode(h: Header, trailing: Bytes)
    requires Fits(h) && Encodable(h)
    ensures Decode(Encode(h).value + trailing) == if HasGap(h) then None else Some(Normalize(h))
  {
    hide DecodeList, EncodeList, Items, Payload, WellFormed, FromFields, Fields;
    var payload := Payload(Fields(h));
    ListRoundTrip(payload, trailing);
    ItemsRoundTrip(Fields(h));
    FieldsRoundTrip(h);
  }

  /** The round trip is exact precisely on the canonical headers. */
  lemma RoundTripExactlyWhenCanonical(h: Header)
    requires Fits(h) && Encodable(h)
    ensures Decode(Encode(h).value) == Some(h) <==> Canonical(h)
  {
    hide Decode, EncodeList, Payload, Fields, Normalize;
    DecodeAfterEncode(h, []);
    assert Encode(h).value + [] == Encode(h).value;
    CanonicalIsNormal(h);
  }

  /** Whatever decodes is canonical, and encoding it again gives exactly the bytes that were read. */
  lemma EncodeAfterDecode(raw: Bytes)
    requires Decode(raw).Some?
    ensures var h := Decode(raw).value;
            Canonical(h) && Fits(h) && Encode(h).value <= raw
  {
    hide DecodeList, EncodeList, Items, Payload, WellFormed, FromFields, Fields;
    var (payload, rest) := DecodeList(raw).value;
    ListsAreCanonical(raw);
    ItemsAreCanonical(payload);
    ReadFieldsAreWritten(Items(payload).value);
  }

  /** Headers have the same encoding exactly when they have the same normal form. */
  lemma SameEncodingIffSameNormalForm(a: Header, b: Header)
    requires Fits(a) && Fits(b) && Encodable(a) && Encodable(b)
    ensures Encode(a) == Encode(b) <==> Normalize(a) == Normalize(b)
  {
    hide EncodeList, Payload, Fields, Normalize;
    if Encode(a) == Encode(b) {
      ListRoundTrip(Payload(Fields(a)), []);
      ListRoundTrip(Payload(Fields(b)), []);
      PayloadIsInjective(Fields(a), Fields(b));
      SameFields(a, b);
    } else if Normalize(a) == Normalize(b) {
      FieldsOfNormalForm(a);
      FieldsOfNormalForm(b);
      assert false;
    }
  }

  lemma SameFields(a: Header, b: Header)
    requires Encodable(a) && Encodable(b) && Fields(a) == Fields(b)
    ensures Normalize(a) == Normalize(b)
  {
    hide Fields, RequiredFields, OptionalFields;
    assert OptionalCount(a) == OptionalCount(b);
    WrittenFields(a);
    WrittenFields(b);
    SameRequiredFields(a, b, Fields(a));
    SameOptionalFields(a, b, Fields(a));
  }

  lemma SameRequiredFields(a: Header, b: Header, f: seq<Bytes>)
    requires |f| >= REQUIRED
    requires forall i | 0 <= i < REQUIRED :: f[i] == RequiredFields(a)[i] == RequiredFields(b)[i]
    ensures a.parentHash == b.parentHash && a.uncleHash == b.uncleHash && a.coinbase == b.coinbase
    ensures a.root == b.root && a.txHash == b.txHash && a.receiptHash == b.receiptHash && a.bloom == b.bloom
    ensures OrZero(a.difficulty) == OrZero(b.difficulty) && OrZero(a.number) == OrZero(b.number)
    ensures a.gasLimit == b.gasLimit && a.gasUsed == b.gasUsed && a.time == b.time
    ensures a.extra == b.extra && a.mixDigest == b.mixDigest && a.nonce == b.nonce
  {
    hide ToBytes, FromBytes;
    assert a.parentHash == f[0] && a.uncleHash == f[1] && a.coinbase == f[2] && a.root == f[3] && a.txHash == f[4];
    assert a.receiptHash == f[5] && a.bloom == f[6] && a.extra == f[12] && a.mixDigest == f[13] && a.nonce == f[14];
    SameNumber(OrZero(a.difficulty), OrZero(b.difficulty), f[7]);
    SameNumber(OrZero(a.number), OrZero(b.number), f[8]);
    SameNumber(a.gasLimit, b.gasLimit, f[9]);
    SameNumber(a.gasUsed, b.gasUsed, f[10]);
    SameNumber(a.time, b.time, f[11]);
  }

  lemma SameOptionalFields(a: Header, b: Header, f: seq<Bytes>)
    requires OptionalCount(a) == OptionalCount(b) == |f| - REQUIRED
    requires forall i | REQUIRED <= i < |f| ::
               f[i] == OptionalFields(a)[i - REQUIRED] == OptionalFields(b)[i - REQUIRED]
    ensures OptionalCount(a) > 0 ==> OrZero(a.baseFee) == OrZero(b.baseFee)
    ensures a.withdrawalsHash == b.withdrawalsHash
    ensures OptionalCount(a) > 2 ==> OrZero(a.blobGasUsed) == OrZero(b.blobGasUsed)
    ensures OptionalCount(a) > 3 ==> OrZero(a.excessBlobGas) == OrZero(b.excessBlobGas)
    ensures a.parentBeaconRoot == b.parentBeaconRoot
  {
    hide ToBytes, FromBytes;
    var n := OptionalCount(a);
    if n > 0 {
      SameNumber(OrZero(a.baseFee), OrZero(b.baseFee), f[15]);
    }
    if n > 1 {
      assert OrEmpty(a.withdrawalsHash) == f[16] == OrEmpty(b.withdrawalsHash);
    }
    if n > 2 {
      SameNumber(OrZero(a.blobGasUsed), OrZero(b.blobGasUsed), f[17]);
    }
    if n > 3 {
      SameNumber(OrZero(a.excessBlobGas), OrZero(b.excessBlobGas), f[18]);
    }
    if n > 4 {
      assert OrEmpty(a.parentBeaconRoot) == f[19] == OrEmpty(b.parentBeaconRoot);
    }
  }

  lemma {:induction false} SameNumber(m: nat, n: nat, field: Bytes)
    requires ToBytes(m) == field == ToBytes(n)
    ensures m == n
  {
    FromBytesToBytes(m);
    FromBytesToBytes(n);
  }

  lemma FieldsOfNormalForm(h: Header)
    requires Encodable(h)
    ensures Encodable(Normalize(h)) && Fields(Normalize(h)) == Fields(h)
  {
    hide ToBytes;
  }
}

/** The generated encoder, and the conversions between BNB's and Lorenzo's headers. */
module BnbHeaderCodec {
  import opened Prelude
  import opened Rlp
  import opened BnbHeaders
  import BnbTypes

  /** An output buffer; `items` are the strings written to it so far. */
  class EncoderBuffer {
    var buf: Bytes
    ghost var items: seq<Bytes>

    ghost predicate Valid()
      reads this
    {
      AllShort(items) && buf == Payload(items)
    }

    constructor ()
      ensures Valid() && buf == [] && items == []
    {
      buf := [];
      items := [];
    }

    /** Appends bytes that already are an encoding. */
    method Write(raw: Bytes, ghost item: Bytes)
      requires Valid() && |item| < TWO_TO_THE_64 && raw == EncodeString(item)
      modifies this
      ensures Valid() && items == old(items) + [item]
    {
      PayloadConcat(items, [item]);
      assert Payload([item]) == EncodeString(item) + [];
      buf := buf + raw;
      items := items + [item];
    }

    method WriteBytes(s: Bytes)
      requires Valid() && |s| < TWO_TO_THE_64
      modifies this
      ensures Valid() && items == old(items) + [s]
    {
      Write(EncodeString(s), s);
    }

    method WriteBigInt(n: nat)
      requires Valid() && |ToBytes(n)| < TWO_TO_THE_64
      modifies this
      ensures Valid() && items == old(items) + [ToBytes(n)]
    {
      WriteBytes(ToBytes(n));
    }

    method WriteUint64(n: Uint64)
      requires Valid()
      modifies this
      ensures Valid() && items == old(items) + [ToBytes(n)]
    {
      EightBytesAreUint64(n);
      WriteBytes(ToBytes(n));
    }

    /** Opens a list; returns where it begins. */
    method List() returns (start: nat)
      ensures start == |buf|
    {
      start := |buf|;
    }

    /** Puts the list head in front of everything written since `start`. */
    method ListEnd(start: nat)
      requires start <= |buf| && |buf| - start < TWO_TO_THE_64
      modifies this
      ensures buf == old(buf[..start] + EncodeList(buf[start..]))
    {
      buf := buf[..start] + EncodeList(buf[start..]);
    }
  }

  const EMPTY_STRING: Bytes := [0x80]

  /** The 15 fields that are always written; false when a big integer is negative. */
  method WriteRequired(w: EncoderBuffer, h: Header) returns (ok: bool)
    requires w.Valid() && Fits(h)
    modifies w
    ensures ok <==> NotNegative(h.difficulty) && NotNegative(h.number)
    ensures ok ==> w.Valid() && w.items == old(w.items) + RequiredFields(h)
  {
    hide ToBytes, FromBytes, Payload, EncodeList, AllShort, EncodeString, Head, EncoderBuffer.Valid, Fits;
    ShortFields(h);
    OneByOne(w.items, RequiredFields(h));
    w.WriteBytes(h.parentHash);
    w.WriteBytes(h.uncleHash);
    w.WriteBytes(h.coinbase);
    w.WriteBytes(h.root);
    w.WriteBytes(h.txHash);
    w.WriteBytes(h.receiptHash);
    w.WriteBytes(h.bloom);
    if h.difficulty.None? {
      w.Write(EMPTY_STRING, ToBytes(0));
    } else {
      if h.difficulty.value < 0 {
        return false;
      }
      w.WriteBigInt(h.difficulty.value);
    }
    if h.number.None? {
      w.Write(EMPTY_STRING, ToBytes(0));
    } else {
      if h.number.value < 0 {
        return false;
      }
      w.WriteBigInt(h.number.value);
    }
    w.WriteUint64(h.gasLimit);
    w.WriteUint64(h.gasUsed);
    w.WriteUint64(h.time);
    w.WriteBytes(h.extra);
    w.WriteBytes(h.mixDigest);
    w.WriteBytes(h.nonce);
    return true;
  }

  /** The optional fields up to the last one present; false when the base fee is negative. */
  method WriteOptional(w: EncoderBuffer, h: Header) returns (ok: bool)
    requires w.Valid() && Fits(h)
    modifies w
    ensures ok <==> NotNegative(h.baseFee)
    ensures ok ==> w.Valid() && w.items == old(w.items) + OptionalFields(h)[..OptionalCount(h)]
  {
    hide ToBytes, FromBytes, Payload, EncodeList, AllShort, EncodeString, Head, EncoderBuffer.Valid, Fits;
    ShortFields(h);
    OneByOne(w.items, OptionalFields(h));
    var tmp1 := h.baseFee.Some?;
    var tmp2 := h.withdrawalsHash.Some?;
    var tmp3 := h.blobGasUsed.Some?;
    var tmp4 := h.excessBlobGas.Some?;
    var tmp5 := h.parentBeaconRoot.Some?;
    if tmp1 || tmp2 || tmp3 || tmp4 || tmp5 {
      if h.baseFee.None? {
        w.Write(EMPTY_STRING, ToBytes(0));
      } else {
        if h.baseFee.value < 0 {
          return false;
        }
        w.WriteBigInt(h.baseFee.value);
      }
    }
    if tmp2 || tmp3 || tmp4 || tmp5 {
      if h.withdrawalsHash.None? {
        w.Write([0x80], []);
      } else {
        w.WriteBytes(h.withdrawalsHash.value);
      }
    }
    if tmp3 || tmp4 || tmp5 {
      if h.blobGasUsed.None? {
        w.Write([0x80], ToBytes(0));
      } else {
        w.WriteUint64(h.blobGasUsed.value);
      }
    }
    if tmp4 || tmp5 {
      if h.excessBlobGas.None? {
        w.Write([0x80], ToBytes(0));
      } else {
        w.WriteUint64(h.excessBlobGas.value);
      }
    }
    if tmp5 {
      if h.parentBeaconRoot.None? {
        assert false;
      } else {
        w.WriteBytes(h.parentBeaconRoot.value);
      }
    }
    return true;
  }

  method EncodeRLP(h: Header) returns (r: Result<Bytes, EncodeError>)
    requires Fits(h)
    ensures r == Encode(h)
  {
    hide RequiredFields, OptionalFields, OptionalCount, Payload, EncodeList;
    var w := new EncoderBuffer();
    var list := w.List();
    var ok := WriteRequired(w, h);
    if !ok {
      return Err(NegativeBigInt);
    }
    ok := WriteOptional(w, h);
    if !ok {
      return Err(NegativeBigInt);
    }
    assert w.items == Fields(h);
    assert w.buf[..0] == [] && w.buf[0..] == w.buf;
    w.ListEnd(list);
    assert w.buf == [] + EncodeList(Payload(Fields(h))) == EncodeList(Payload(Fields(h)));
    return Ok(w.buf);
  }

  /** Appending the elements of `f` one at a time appends `f`. */
  lemma OneByOne(start: seq<Bytes>, f: seq<Bytes>)
    ensures start + f[..0] == start && f[..|f|] == f
    ensures forall k {:trigger f[..k]} | 0 <= k < |f| :: start + f[..k] + [f[k]] == start + f[..k + 1]
  {
  }

  lemma ShortFields(h: Header)
    requires Fits(h)
    ensures |h.extra| < TWO_TO_THE_64 && ToBytes(0) == [] && EncodeString([]) == EMPTY_STRING
    ensures |ToBytes(OrZero(h.difficulty))| < TWO_TO_THE_64 && |ToBytes(OrZero(h.number))| < TWO_TO_THE_64
    ensures h.baseFee.Some? ==> |ToBytes(OrZero(h.baseFee))| < TWO_TO_THE_64
  {
    hide Payload;
    WrittenFields(h);
    assert |Fields(h)[12]| < TWO_TO_THE_64 && |Fields(h)[7]| < TWO_TO_THE_64 && |Fields(h)[8]| < TWO_TO_THE_64;
    if h.baseFee.Some? {
      assert |Fields(h)[15]| < TWO_TO_THE_64;
    }
  }

  // ---------- Lorenzo's form of a header ----------

  datatype LorenzoHeader = LorenzoHeader(rawHeader: Bytes, number: Uint64, hash: Hash32, parentHash: Hash32,
                                         receiptRoot: Hash32)

  /** The hash of the encoding; `keccak` is any function. */
  function HashOf(keccak: Bytes -> Hash32, h: Header): Hash32
    requires Fits(h) && Encodable(h)
  {
    keccak(Encode(h).value)
  }

  function ToLorenzo(keccak: Bytes -> Hash32, h: Header): LorenzoHeader
    requires Fits(h) && Encodable(h) && h.number.Some?
  {
    LorenzoHeader(Encode(h).value, h.number.value % TWO_TO_THE_64, HashOf(keccak, h), h.parentHash, h.receiptHash)
  }

  /** A nil number would be dereferenced. */
  method ConvertBNBHeaderToLorenzoBNBHeaders(keccak: Bytes -> Hash32, headers: seq<Header>)
    returns (r: Result<seq<LorenzoHeader>, EncodeError>)
    requires forall i | 0 <= i < |headers| :: Fits(headers[i]) && headers[i].number.Some?
    ensures r.Ok? <==> forall i | 0 <= i < |headers| :: Encodable(headers[i])
    ensures r.Ok? ==> |r.value| == |headers|
                      && forall i | 0 <= i < |headers| :: r.value[i] == ToLorenzo(keccak, headers[i])
  {
    hide Fits, Encode, Encodable;
    var lorenzoHeaders: seq<LorenzoHeader> := [];
    for i := 0 to |headers|
      invariant |lorenzoHeaders| == i
      invariant forall k | 0 <= k < i :: Encodable(headers[k]) && lorenzoHeaders[k] == ToLorenzo(keccak, headers[k])
    {
      var h := headers[i];
      var raw := EncodeRLP(h);
      EncodeOk(h);
      if raw.Err? {
        return Err(raw.error);
      }
      lorenzoHeaders := lorenzoHeaders
        + [LorenzoHeader(raw.value, h.number.value % TWO_TO_THE_64, HashOf(keccak, h), h.parentHash, h.receiptHash)];
    }
    return Ok(lorenzoHeaders);
  }

  lemma EncodeOk(h: Header)
    requires Fits(h)
    ensures Encode(h).Ok? <==> Encodable(h)
  {
  }

  function ConvertLorenzoBNBResponseToHeader(header: LorenzoHeader): Option<Header> {
    Decode(header.rawHeader)
  }

  /**
    A header that went to Lorenzo and came back has the same hash and the same number, so the parent-link check of
    the next header has the same outcome; re-reading fails exactly for a header with a gap in its optional fields.
   */
  lemma RereadKeepsTheLink(keccak: Bytes -> Hash32, tip: Header, next: Header)
    requires Fits(tip) && Encodable(tip) && tip.number.Some?
    ensures var reread := ConvertLorenzoBNBResponseToHeader(ToLorenzo(keccak, tip));
            && (reread.Some? <==> !HasGap(tip))
            && (reread.Some? ==>
                  && Fits(reread.value) && Canonical(reread.value)
                  && HashOf(keccak, reread.value) == HashOf(keccak, tip) == ToLorenzo(keccak, tip).hash
                  && reread.value.number == tip.number
                  && (next.parentHash == HashOf(keccak, reread.value) <==> next.parentHash == HashOf(keccak, tip)))
  {
    hide Decode, EncodeList, Payload, Fields;
    DecodeAfterEncode(tip, []);
    assert Encode(tip).value + [] == Encode(tip).value;
    FieldsOfNormalForm(tip);
    if !HasGap(tip) {
      EncodeAfterDecode(Encode(tip).value);
    }
  }

  /**
    The fields Lorenzo gets agree with the bytes it gets: the hash is that of the raw header, and whoever decodes the
    raw header finds the parent hash, the receipt root and the number that were sent beside it. For a header whose
    bytes do not decode they are those of the header itself.
   */
  lemma ConvertedFieldsAgree(keccak: Bytes -> Hash32, h: Header)
    requires Fits(h) && Encodable(h) && h.number.Some?
    ensures var l := ToLorenzo(keccak, h);
            var read := Decode(l.rawHeader);
            && l.hash == keccak(l.rawHeader)
            && (read.None? <==> HasGap(h))
            && var source := if read.Some? then read.value else h;
            && source.number.Some? && source.number.value >= 0
            && l.parentHash == source.parentHash && l.receiptRoot == source.receiptHash
            && l.number == source.number.value % TWO_TO_THE_64
  {
    hide Decode, EncodeList, Payload, Fields;
    DecodeAfterEncode(h, []);
    assert Encode(h).value + [] == Encode(h).value;
  }

  /** As long as the hash function has no collision between the two, equal hashes mean equal normal forms. */
  lemma HashIdentifiesTheHeader(keccak: Bytes -> Hash32, a: Header, b: Header)
    requires Fits(a) && Fits(b) && Encodable(a) && Encodable(b)
    requires keccak(Encode(a).value) == keccak(Encode(b).value) ==> Encode(a).value == Encode(b).value
    ensures HashOf(keccak, a) == HashOf(keccak, b) <==> Normalize(a) == Normalize(b)
  {
    hide EncodeList, Payload, Fields, Normalize;
    SameEncodingIffSameNormalForm(a, b);
  }

  /** What the relayer's control flow uses of a header. */
  function View(keccak: Bytes -> Hash32, h: Header): BnbTypes.BnbHeader
    requires Fits(h) && Encodable(h) && h.number.Some?
  {
    BnbTypes.BnbHeader(h.number.value % TWO_TO_THE_64, FromBytes(HashOf(keccak, h)), FromBytes(h.parentHash))
  }

  /** The control flow's checks on views are the checks on headers, and a re-read header has the same view. */
  lemma ViewsAreFaithful(keccak: Bytes -> Hash32, tip: Header, next: Header)
    requires Fits(tip) && Encodable(tip) && tip.number.Some? && !HasGap(tip)
    requires Fits(next) && Encodable(next) && next.number.Some?
    ensures View(keccak, next).parentHash == View(keccak, tip).hash <==> next.parentHash == HashOf(keccak, tip)
    ensures var reread := ConvertLorenzoBNBResponseToHeader(ToLorenzo(keccak, tip));
            reread.Some? && Fits(reread.value) && Encodable(reread.value) && reread.value.number.Some?
            && View(keccak, reread.value) == View(keccak, tip)
  {
    hide Decode, Encode, FromBytes, HashOf;
    RereadKeepsTheLink(keccak, tip, next);
    if View(keccak, next).parentHash == View(keccak, tip).hash {
      FixedWidthIsInjective(next.parentHash, HashOf(keccak, tip));
    }
    ParentHashSurvives(keccak, tip);
  }

  lemma ParentHashSurvives(keccak: Bytes -> Hash32, tip: Header)
    requires Fits(tip) && Encodable(tip) && tip.number.Some? && !HasGap(tip)
    ensures var reread := ConvertLorenzoBNBResponseToHeader(ToLorenzo(keccak, tip));
            reread.Some? && reread.value.parentHash == tip.parentHash
  {
    hide Decode, EncodeList, Payload, Fields;
    DecodeAfterEncode(tip, []);
    assert Encode(tip).value + [] == Encode(tip).value;
  }

  /** Each header names the one before it by hash, and is numbered one higher. */
  ghost predicate LorenzoLinked(s: seq<LorenzoHeader>) {
    forall i, j {:trigger s[i], s[j]} | 0 <= i < j < |s| && j == i + 1 ::
      s[j].parentHash == s[i].hash && s[j].number == s[i].number + 1
  }

  /** A batch that the relayer sees as linked is linked by the fields Lorenzo gets, and no other is. */
  lemma {:induction false} ConvertedBatchIsLinked(keccak: Bytes -> Hash32, headers: seq<Header>,
      views: seq<BnbTypes.BnbHeader>, converted: seq<LorenzoHeader>)
    requires |headers| == |views| == |converted| > 0
    requires forall i | 0 <= i < |headers| ::
               && Fits(headers[i]) && Encodable(headers[i]) && headers[i].number.Some?
               && views[i] == View(keccak, headers[i]) && converted[i] == ToLorenzo(keccak, headers[i])
    ensures BnbTypes.LinkedOn(views[0], views[1..]) <==> LorenzoLinked(converted)
    decreases |headers|
  {
    hide Fits, Encodable, View, ToLorenzo;
    if |headers| > 1 {
      LinkIsPreserved(keccak, headers[0], headers[1]);
      ConvertedBatchIsLinked(keccak, headers[1..], views[1..], converted[1..]);
      assert views[1..][0] == views[1];
      var rest := converted[1..];
      assert forall i | 0 <= i < |rest| :: rest[i] == converted[i + 1];
      assert forall i | 0 < i < |converted| :: converted[i] == rest[i - 1];
    }
  }

  lemma LinkIsPreserved(keccak: Bytes -> Hash32, tip: Header, next: Header)
    requires Fits(tip) && Encodable(tip) && tip.number.Some?
    requires Fits(next) && Encodable(next) && next.number.Some?
    ensures BnbTypes.Follows(View(keccak, tip), View(keccak, next)) <==>
              && ToLorenzo(keccak, next).parentHash == ToLorenzo(keccak, tip).hash
              && ToLorenzo(keccak, next).number == ToLorenzo(keccak, tip).number + 1
  {
    hide Fits, Encodable, Encode, FromBytes;
    if View(keccak, next).parentHash == View(keccak, tip).hash {
      FixedWidthIsInjective(next.parentHash, HashOf(keccak, tip));
    }
  }
}
