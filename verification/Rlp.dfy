/**
  Recursive length prefix, Appendix B of the Ethereum Yellow Paper: byte strings, and lists of byte strings.
  The decoder is strict: it accepts only the one encoding that the encoder produces.
 */
module Rlp {
  import opened Prelude

  type Byte = b: int | 0 <= b < 256
  type Bytes = seq<Byte>

  const STRING_BASE: int := 0x80
  const LIST_BASE: int := 0xC0

  // ---------- big-endian integers ----------

  /** The shortest big-endian form; no bytes for 0. */
  function ToBytes(n: nat): Bytes {
    if n == 0 then [] else ToBytes(n / 256) + [n % 256]
  }

  function FromBytes(s: Bytes): nat {
    if |s| == 0 then 0 else FromBytes(s[..|s| - 1]) * 256 + s[|s| - 1]
  }

  predicate Minimal(s: Bytes) {
    |s| == 0 || s[0] != 0
  }

  lemma {:induction false} FromBytesToBytes(n: nat)
    ensures FromBytes(ToBytes(n)) == n && Minimal(ToBytes(n))
    ensures n > 0 ==> |ToBytes(n)| > 0
  {
    if n > 0 {
      FromBytesToBytes(n / 256);
      assert ToBytes(n)[..|ToBytes(n)| - 1] == ToBytes(n / 256);
    }
  }

  lemma {:induction false} MinimalIsPositive(s: Bytes)
    requires |s| > 0 && s[0] != 0
    ensures FromBytes(s) > 0
  {
    if |s| > 1 {
      MinimalIsPositive(s[..|s| - 1]);
    }
  }

  lemma {:induction false} ToBytesFromBytes(s: Bytes)
    requires Minimal(s)
    ensures ToBytes(FromBytes(s)) == s
  {
    if |s| > 0 {
      var front := s[..|s| - 1];
      MinimalIsPositive(s);
      ToBytesFromBytes(front);
      assert FromBytes(s) / 256 == FromBytes(front) && FromBytes(s) % 256 == s[|s| - 1];
      assert s == front + [s[|s| - 1]];
    }
  }

  /** Byte strings of one length are determined by their value. */
  lemma {:induction false} FixedWidthIsInjective(a: Bytes, b: Bytes)
    requires |a| == |b| && FromBytes(a) == FromBytes(b)
    ensures a == b
  {
    if |a| > 0 {
      var n := |a| - 1;
      assert FromBytes(a) % 256 == a[n] && FromBytes(b) % 256 == b[n];
      FixedWidthIsInjective(a[..n], b[..n]);
      assert a == a[..n] + [a[n]] && b == b[..n] + [b[n]];
    }
  }

  function Pow256(k: nat): (p: nat)
    ensures p > 0
  {
    if k == 0 then 1 else 256 * Pow256(k - 1)
  }

  lemma {:induction false} SizeIsAtMost(n: nat, k: nat)
    ensures |ToBytes(n)| <= k <==> n < Pow256(k)
    decreases k
  {
    if n > 0 && k > 0 {
      SizeIsAtMost(n / 256, k - 1);
      var p := Pow256(k - 1);
      assert n / 256 < p <==> n < 256 * p;
    }
  }

  /** Eight bytes hold exactly the uint64 values. */
  lemma {:induction false} EightBytesAreUint64(n: nat)
    ensures |ToBytes(n)| <= 8 <==> n < TWO_TO_THE_64
  {
    SizeIsAtMost(n, 8);
    assert Pow256(4) == 0x1_0000_0000;
    assert Pow256(8) == 256 * (256 * (256 * (256 * Pow256(4))));
  }

  // ---------- encoding ----------

  function Head(base: int, n: nat): Bytes
    requires base in {STRING_BASE, LIST_BASE} && n < TWO_TO_THE_64
  {
    EightBytesAreUint64(n);
    if n < 56 then [base + n] else [base + 55 + |ToBytes(n)|] + ToBytes(n)
  }

  function EncodeString(s: Bytes): Bytes
    requires |s| < TWO_TO_THE_64
  {
    if |s| == 1 && s[0] < 128 then s else Head(STRING_BASE, |s|) + s
  }

  function EncodeList(payload: Bytes): Bytes
    requires |payload| < TWO_TO_THE_64
  {
    Head(LIST_BASE, |payload|) + payload
  }

  predicate AllShort(items: seq<Bytes>) {
    forall i | 0 <= i < |items| :: |items[i]| < TWO_TO_THE_64
  }

  /** The concatenated encodings of the items of a list. */
  function Payload(items: seq<Bytes>): Bytes
    requires AllShort(items)
    decreases |items|
  {
    if |items| == 0 then [] else EncodeString(items[0]) + Payload(items[1..])
  }

  lemma {:induction false} AllShortParts(a: seq<Bytes>, b: seq<Bytes>)
    requires AllShort(a) && AllShort(b)
    ensures AllShort(a + b)
    ensures |a| > 0 ==> |a[0]| < TWO_TO_THE_64 && AllShort(a[1..])
  {
  }

  lemma {:induction false} PayloadConcat(a: seq<Bytes>, b: seq<Bytes>)
    requires AllShort(a) && AllShort(b)
    ensures AllShort(a + b) && Payload(a + b) == Payload(a) + Payload(b)
    decreases |a|
  {
    hide EncodeString, AllShort;
    AllShortParts(a, b);
    if |a| == 0 {
      assert a + b == b;
      assert [] + Payload(b) == Payload(b);
    } else {
      PayloadConcat(a[1..], b);
      PayloadOfMore(a, b);
    }
  }

  lemma {:induction false} PayloadOfMore(a: seq<Bytes>, b: seq<Bytes>)
    requires |a| > 0 && AllShort(a) && AllShort(b) && AllShort(a + b) && AllShort(a[1..]) && AllShort(a[1..] + b)
    requires Payload(a[1..] + b) == Payload(a[1..]) + Payload(b)
    ensures Payload(a + b) == Payload(a) + Payload(b)
  {
    hide EncodeString, AllShort;
    assert (a + b)[1..] == a[1..] + b && (a + b)[0] == a[0];
    assert |a[0]| < TWO_TO_THE_64 by {
      AllShortParts(a, b);
    }
    var first := EncodeString(a[0]);
    assert Payload(a + b) == first + (Payload(a[1..]) + Payload(b));
    assert Payload(a) == first + Payload(a[1..]);
    assert first + (Payload(a[1..]) + Payload(b)) == (first + Payload(a[1..])) + Payload(b);
  }

  // ---------- strict decoding ----------

  function SplitAt(s: Bytes, n: nat): Option<(Bytes, Bytes)> {
    if |s| < n then None else Some((s[..n], s[n..]))
  }

  /** The content after a head, and what follows it; a length that could be shorter is an error. */
  function AfterHead(s: Bytes, base: int): Option<(Bytes, Bytes)>
    requires |s| > 0 && base <= s[0] < base + 64
  {
    var tag := s[0] - base;
    if tag < 56 then SplitAt(s[1..], tag)
    else if |s| < tag - 54 || s[1] == 0 then None
    else
      var n := FromBytes(s[1..tag - 54]);
      if n < 56 then None else SplitAt(s[tag - 54..], n)
  }

  /** One string and what follows it; a list, or a single small byte with a head, is an error. */
  function DecodeString(s: Bytes): Option<(Bytes, Bytes)> {
    if |s| == 0 || s[0] >= LIST_BASE then None
    else if s[0] < STRING_BASE then Some((s[..1], s[1..]))
    else
      match AfterHead(s, STRING_BASE)
      case None => None
      case Some((content, rest)) => if |content| == 1 && content[0] < 128 then None else Some((content, rest))
  }

  /** The payload of one list and what follows it. */
  function DecodeList(s: Bytes): Option<(Bytes, Bytes)> {
    if |s| == 0 || s[0] < LIST_BASE then None else AfterHead(s, LIST_BASE)
  }

  lemma DecodeStringConsumes(s: Bytes)
    ensures DecodeString(s).Some? ==> |DecodeString(s).value.1| < |s|
  {
  }

  /** A payload as a sequence of strings. */
  function Items(payload: Bytes): Option<seq<Bytes>>
    decreases |payload|
  {
    if |payload| == 0 then Some([])
    else
      DecodeStringConsumes(payload);
      match DecodeString(payload)
      case None => None
      case Some((item, rest)) =>
        match Items(rest)
        case None => None
        case Some(items) => Some([item] + items)
  }

  // ---------- the two are inverse ----------

  lemma SplitConcat(a: Bytes, b: Bytes)
    ensures SplitAt(a + b, |a|) == Some((a, b))
  {
    assert (a + b)[..|a|] == a && (a + b)[|a|..] == b;
  }

  lemma AfterHeadReadsHead(base: int, content: Bytes, rest: Bytes)
    requires base in {STRING_BASE, LIST_BASE} && |content| < TWO_TO_THE_64
    ensures var s := Head(base, |content|) + content + rest;
            base <= s[0] < base + 64 && AfterHead(s, base) == Some((content, rest))
  {
    hide ToBytes, FromBytes;
    var n := |content|;
    var s := Head(base, n) + content + rest;
    var size := ToBytes(n);
    SplitConcat(content, rest);
    EightBytesAreUint64(n);
    FromBytesToBytes(n);
    if n < 56 {
      assert s[1..] == content + rest;
    } else {
      assert s == [base + 55 + |size|] + size + (content + rest);
      assert s[1..1 + |size|] == size;
      assert s[1 + |size|..] == content + rest;
    }
  }

  lemma HeadsAreCanonical(s: Bytes, base: int)
    requires base in {STRING_BASE, LIST_BASE} && |s| > 0 && base <= s[0] < base + 64 && AfterHead(s, base).Some?
    ensures var (content, rest) := AfterHead(s, base).value;
            |content| < TWO_TO_THE_64 && s == Head(base, |content|) + content + rest
  {
    hide ToBytes, FromBytes, Head, AfterHead;
    var tag := s[0] - base;
    if tag < 56 {
      ShortHeadIsCanonical(s, base);
    } else {
      LongHeadIsCanonical(s, base);
    }
  }

  lemma ShortHeadIsCanonical(s: Bytes, base: int)
    requires base in {STRING_BASE, LIST_BASE} && |s| > 0 && base <= s[0] < base + 56 && AfterHead(s, base).Some?
    ensures var (content, rest) := AfterHead(s, base).value;
            |content| < TWO_TO_THE_64 && s == Head(base, |content|) + content + rest
  {
    hide ToBytes, FromBytes;
    var tag := s[0] - base;
    assert s == [s[0]] + (s[1..][..tag] + s[1..][tag..]);
  }

  lemma LongHeadIsCanonical(s: Bytes, base: int)
    requires base in {STRING_BASE, LIST_BASE} && |s| > 0 && base + 56 <= s[0] < base + 64 && AfterHead(s, base).Some?
    ensures var (content, rest) := AfterHead(s, base).value;
            |content| < TWO_TO_THE_64 && s == Head(base, |content|) + content + rest
  {
    hide ToBytes, FromBytes;
    var (content, rest) := AfterHead(s, base).value;
    var tag := s[0] - base;
    var size := s[1..tag - 54];
    assert |size| == tag - 55 && size[0] == s[1];
    ToBytesFromBytes(size);
    EightBytesAreUint64(|content|);
    CutAt(s, tag - 54, |content|);
  }

  lemma CutAt(s: Bytes, i: nat, n: nat)
    requires 0 < i && i + n <= |s|
    ensures s == [s[0]] + s[1..i] + s[i..][..n] + s[i..][n..]
  {
  }

  /** Decoding undoes encoding, whatever follows. */
  lemma StringRoundTrip(content: Bytes, rest: Bytes)
    requires |content| < TWO_TO_THE_64
    ensures DecodeString(EncodeString(content) + rest) == Some((content, rest))
  {
    hide ToBytes, FromBytes, AfterHead;
    if |content| == 1 && content[0] < 128 {
      var s := content + rest;
      assert s[..1] == content && s[1..] == rest;
    } else {
      AfterHeadReadsHead(STRING_BASE, content, rest);
    }
  }

  /** The decoder accepts nothing but encodings. */
  lemma StringsAreCanonical(s: Bytes)
    requires DecodeString(s).Some?
    ensures var (content, rest) := DecodeString(s).value;
            |content| < TWO_TO_THE_64 && s == EncodeString(content) + rest
  {
    hide ToBytes, FromBytes, AfterHead, Head;
    if s[0] < STRING_BASE {
      assert s == s[..1] + s[1..];
    } else {
      HeadsAreCanonical(s, STRING_BASE);
    }
  }

  lemma ListRoundTrip(payload: Bytes, rest: Bytes)
    requires |payload| < TWO_TO_THE_64
    ensures DecodeList(EncodeList(payload) + rest) == Some((payload, rest))
  {
    AfterHeadReadsHead(LIST_BASE, payload, rest);
  }

  lemma ListsAreCanonical(s: Bytes)
    requires DecodeList(s).Some?
    ensures var (payload, rest) := DecodeList(s).value;
            |payload| < TWO_TO_THE_64 && s == EncodeList(payload) + rest
  {
    HeadsAreCanonical(s, LIST_BASE);
  }

  lemma {:induction false} ItemsRoundTrip(items: seq<Bytes>)
    requires AllShort(items)
    ensures Items(Payload(items)) == Some(items)
    decreases |items|
  {
    hide EncodeString, DecodeString;
    if |items| > 0 {
      StringRoundTrip(items[0], Payload(items[1..]));
      ItemsRoundTrip(items[1..]);
      EncodingIsNotEmpty(items[0]);
      assert [items[0]] + items[1..] == items;
    }
  }

  lemma EncodingIsNotEmpty(s: Bytes)
    requires |s| < TWO_TO_THE_64
    ensures |EncodeString(s)| > 0
  {
  }

  lemma {:induction false} ItemsAreCanonical(payload: Bytes)
    requires Items(payload).Some?
    ensures AllShort(Items(payload).value) && Payload(Items(payload).value) == payload
    decreases |payload|
  {
    hide EncodeString, DecodeString;
    if |payload| > 0 {
      DecodeStringConsumes(payload);
      StringsAreCanonical(payload);
      var (item, rest) := DecodeString(payload).value;
      ItemsAreCanonical(rest);
      assert ([item] + Items(rest).value)[1..] == Items(rest).value;
    }
  }

  /** Two lists of strings with the same payload are the same list. */
  lemma {:induction false} PayloadIsInjective(a: seq<Bytes>, b: seq<Bytes>)
    requires AllShort(a) && AllShort(b) && Payload(a) == Payload(b)
    ensures a == b
  {
    hide Payload, Items;
    ItemsRoundTrip(a);
    ItemsRoundTrip(b);
  }
}
