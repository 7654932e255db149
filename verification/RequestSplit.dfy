/** Splitting a serialized inference request into relay-safe parts. */
module RequestSplit {
  import opened Results
  import opened Decimal
  import opened Base64
  import opened Utf8

  datatype Part = Part(version: int, requestId: string, index: int, count: int, data: string)

  datatype SplitError = LimitNotPositive | LimitTooSmall

  // ----- the size of a part on the wire -----

  /** The bytes TextEncoder writes for one character. */
  function CharBytes(c: char): nat {
    if c < 128 as char then 1 else if c < 2048 as char then 2 else if c < 65536 as char then 3 else 4
  }

  function ByteLength(s: string): nat {
    if s == [] then 0 else CharBytes(s[0]) + ByteLength(s[1..])
  }

  function Hex(d: nat): char
    requires d < 16
  {
    "0123456789abcdef"[d]
  }

  /** One character of a JSON string literal. */
  function JsonChar(c: char): string {
    if c == '\"' then "\\\""
    else if c == '\\' then "\\\\"
    else if c == '\n' then "\\n"
    else if c == '\r' then "\\r"
    else if c == '\t' then "\\t"
    else if c == 8 as char then "\\b"
    else if c == 12 as char then "\\f"
    else if c < ' ' then "\\u00" + [Hex(c as int / 16), Hex(c as int % 16)]
    else [c]
  }

  function JsonBody(s: string): string {
    if s == [] then [] else JsonChar(s[0]) + JsonBody(s[1..])
  }

  /** JSON.stringify of a string. */
  function JsonString(s: string): string {
    "\"" + JsonBody(s) + "\""
  }

  // ----- reading a string literal back, as section 7 of RFC 8259 has it -----

  function HexValue(c: char): Option<nat> {
    if '0' <= c <= '9' then Some(c as int - 48) else if 'a' <= c <= 'f' then Some(c as int - 87) else None
  }

  function ShortEscape(c: char): Option<char> {
    if c == '\"' || c == '\\' || c == '/' then Some(c)
    else if c == 'b' then Some(8 as char)
    else if c == 't' then Some(9 as char)
    else if c == 'n' then Some(10 as char)
    else if c == 'f' then Some(12 as char)
    else if c == 'r' then Some(13 as char)
    else None
  }

  /** One character and the rest; escapes by number only below 256. */
  function ReadJsonChar(t: string): Option<(char, string)>
    requires t != []
  {
    if t[0] == '\"' || t[0] < ' ' then None
    else if t[0] != '\\' then Some((t[0], t[1..]))
    else if |t| >= 2 && ShortEscape(t[1]).Some? then Some((ShortEscape(t[1]).value, t[2..]))
    else if |t| >= 6 && t[1..4] == "u00" && HexValue(t[4]).Some? && HexValue(t[5]).Some?
    then Some(((16 * HexValue(t[4]).value + HexValue(t[5]).value) as char, t[6..]))
    else None
  }

  function ReadJsonBody(t: string): Option<string>
    decreases |t|
  {
    if t == [] then Some("")
    else
      match ReadJsonChar(t)
      case None => None
      case Some((c, rest)) =>
        match ReadJsonBody(rest)
        case None => None
        case Some(text) => Some([c] + text)
  }

  lemma HexRead(d: nat)
    requires d < 16
    ensures HexValue(Hex(d)) == Some(d)
  {
  }

  lemma ShortRead(c: char, e: char, rest: string)
    requires ShortEscape(e) == Some(c)
    ensures ReadJsonChar(['\\', e] + rest) == Some((c, rest))
  {
  }

  lemma NumberRead(c: char, rest: string)
    requires c < ' '
    ensures ReadJsonChar("\\u00" + [Hex(c as int / 16), Hex(c as int % 16)] + rest) == Some((c, rest))
  {
    var t := "\\u00" + [Hex(c as int / 16), Hex(c as int % 16)] + rest;
    HexRead(c as int / 16);
    HexRead(c as int % 16);
    assert t[1..4] == "u00" && t[6..] == rest;
  }

  lemma JsonCharRead(c: char, rest: string)
    ensures JsonChar(c) != [] && ReadJsonChar(JsonChar(c) + rest) == Some((c, rest))
  {
    if JsonChar(c) == [c] {
      assert ([c] + rest)[1..] == rest;
    } else if |JsonChar(c)| == 2 {
      ShortRead(c, JsonChar(c)[1], rest);
    } else {
      NumberRead(c, rest);
    }
  }

  /** A string literal written is read back as the string. */
  lemma {:induction false} JsonRoundTrip(s: string)
    ensures ReadJsonBody(JsonBody(s)) == Some(s)
  {
    if s != [] {
      JsonRoundTrip(s[1..]);
      JsonCharRead(s[0], JsonBody(s[1..]));
      assert s == [s[0]] + s[1..];
    }
  }

  function JsonInt(n: int): string {
    if n < 0 then "-" + Dec(-n) else Dec(n)
  }

  function Concat(texts: seq<string>): string {
    if texts == [] then "" else texts[0] + Concat(texts[1..])
  }

  /** The constant text of the JSON object around its five values. */
  datatype Frame = Frame(version: string, requestId: string, index: string, count: string, data: string, close: string)

  const JSON_FRAME := Frame("{\"version\":", ",\"request_id\":", ",\"index\":", ",\"count\":", ",\"data\":", "}")

  function Pieces(frame: Frame, p: Part): seq<string> {
    [frame.version, JsonInt(p.version), frame.requestId, JsonString(p.requestId), frame.index, JsonInt(p.index),
     frame.count, JsonInt(p.count), frame.data, JsonString(p.data), frame.close]
  }

  /** JSON.stringify of a part, its keys being those of the frame. */
  function Serialize(frame: Frame, p: Part): string {
    Concat(Pieces(frame, p))
  }

  function SerializedBytes(frame: Frame, p: Part): nat {
    ByteLength(Serialize(frame, p))
  }

  function MakePart(requestId: string, index: nat, count: nat, bytes: seq<Byte>): Part {
    Part(1, requestId, index, count, Encode(bytes))
  }

  function CodePoints(s: string): seq<CodePoint> {
    seq(|s|, i requires 0 <= i < |s| => s[i] as int)
  }

  /** The measured length is that of the text as TextEncoder writes it. */
  lemma {:induction false} ByteLengthExact(s: string)
    ensures ByteLength(s) == |EncodeText(CodePoints(s))|
  {
    if s != [] {
      ByteLengthExact(s[1..]);
      assert CodePoints(s)[1..] == CodePoints(s[1..]);
    }
  }

  lemma {:induction false} ByteLengthConcat(s: string, t: string)
    ensures ByteLength(s + t) == ByteLength(s) + ByteLength(t)
  {
    if s == [] {
      assert s + t == t;
    } else {
      assert (s + t)[1..] == s[1..] + t;
      ByteLengthConcat(s[1..], t);
    }
  }

  lemma {:induction false} AsciiByteLength(s: string)
    requires forall i :: 0 <= i < |s| ==> s[i] < 128 as char
    ensures ByteLength(s) == |s|
  {
    if s != [] {
      AsciiByteLength(s[1..]);
    }
  }

  lemma {:induction false} PlainJsonBody(s: string)
    requires forall c :: c in s ==> IsSymbol(c) || c == '='
    ensures JsonBody(s) == s
  {
    if s != [] {
      PlainJsonBody(s[1..]);
      assert s[0] in s && s[0] >= '+';
    }
  }

  lemma PlainJsonString(s: string)
    requires forall c :: c in s ==> IsSymbol(c) || c == '='
    ensures ByteLength(JsonString(s)) == 2 + |s|
  {
    PlainJsonBody(s);
    assert forall i :: 0 <= i < |s| ==> s[i] in s;
    AsciiByteLength("\"" + s + "\"");
  }

  lemma {:induction false} Base64Json(bytes: seq<Byte>)
    ensures ByteLength(JsonString(Encode(bytes))) == 2 + (|bytes| + 2) / 3 * 4
  {
    EncodeIsAscii(bytes);
    EncodeLength(bytes);
    PlainJsonString(Encode(bytes));
  }

  lemma DecBytes(n: nat)
    ensures ByteLength(JsonInt(n)) == |Dec(n)|
  {
    DecIsDigits(n);
    assert forall i :: 0 <= i < |Dec(n)| ==> Dec(n)[i] in Dec(n);
    AsciiByteLength(Dec(n));
  }

  /** The bytes of an envelope apart from its two numbers and its data. */
  function FixedBytes(frame: Frame, requestId: string): nat {
    ByteLength(frame.version) + ByteLength(JsonInt(1)) + ByteLength(frame.requestId) + ByteLength(JsonString(requestId))
    + ByteLength(frame.index) + ByteLength(frame.count) + ByteLength(frame.data) + 2 + ByteLength(frame.close)
  }

  /** The size of a part with `fixed` bytes of its own and `k` bytes of payload. */
  function PartBytes(fixed: nat, index: nat, count: nat, k: nat): nat {
    fixed + |Dec(index)| + |Dec(count)| + (k + 2) / 3 * 4
  }

  function TotalBytes(texts: seq<string>): nat {
    if texts == [] then 0 else ByteLength(texts[0]) + TotalBytes(texts[1..])
  }

  lemma {:induction false} ConcatBytes(texts: seq<string>)
    ensures ByteLength(Concat(texts)) == TotalBytes(texts)
  {
    if texts != [] {
      ConcatBytes(texts[1..]);
      ByteLengthConcat(texts[0], Concat(texts[1..]));
    }
  }

  lemma TotalOfEleven(t: seq<string>)
    requires |t| == 11
    ensures TotalBytes(t) == ByteLength(t[0]) + ByteLength(t[1]) + ByteLength(t[2]) + ByteLength(t[3]) + ByteLength(t[4])
      + ByteLength(t[5]) + ByteLength(t[6]) + ByteLength(t[7]) + ByteLength(t[8]) + ByteLength(t[9]) + ByteLength(t[10])
  {
    var k := 11;
    ghost var sum := 0;
    while k > 0
      invariant 0 <= k <= 11
      invariant TotalBytes(t[k..]) == sum
      invariant sum == (if k <= 0 then ByteLength(t[0]) else 0) + (if k <= 1 then ByteLength(t[1]) else 0)
        + (if k <= 2 then ByteLength(t[2]) else 0) + (if k <= 3 then ByteLength(t[3]) else 0)
        + (if k <= 4 then ByteLength(t[4]) else 0) + (if k <= 5 then ByteLength(t[5]) else 0)
        + (if k <= 6 then ByteLength(t[6]) else 0) + (if k <= 7 then ByteLength(t[7]) else 0)
        + (if k <= 8 then ByteLength(t[8]) else 0) + (if k <= 9 then ByteLength(t[9]) else 0)
        + (if k <= 10 then ByteLength(t[10]) else 0)
    {
      k := k - 1;
      sum := sum + ByteLength(t[k]);
      assert t[k..][1..] == t[k + 1..];
    }
    assert t[0..] == t;
  }

  lemma {:induction false} PartSize(frame: Frame, requestId: string, index: nat, count: nat, bytes: seq<Byte>)
    ensures SerializedBytes(frame, MakePart(requestId, index, count, bytes))
         == PartBytes(FixedBytes(frame, requestId), index, count, |bytes|)
  {
    var t := Pieces(frame, MakePart(requestId, index, count, bytes));
    ConcatBytes(t);
    TotalOfEleven(t);
    Base64Json(bytes);
    DecBytes(index);
    DecBytes(count);
  }

  // ----- splitting -----

  function UpperCount(n: nat): nat {
    if n < 1 then 1 else n
  }

  /** The raw bytes a part can carry beside the largest envelope this payload could need. */
  function RawCapacity(emptyEnvelope: nat, maxPayloadBytes: int): int {
    (maxPayloadBytes - emptyEnvelope) / 4 * 3
  }

  function PartCount(n: nat, capacity: nat): nat
    requires capacity > 0
  {
    UpperCount((n + capacity - 1) / capacity)
  }

  function Min(x: nat, y: nat): nat {
    if x <= y then x else y
  }

  /** `payload.slice(index * capacity, index * capacity + capacity)`. */
  function Slice(payload: seq<Byte>, index: nat, capacity: nat): seq<Byte> {
    payload[Min(index * capacity, |payload|)..Min(index * capacity + capacity, |payload|)]
  }

  /** The parts of a payload cut into `count` slices. */
  function PartsOf(payload: seq<Byte>, requestId: string, capacity: nat, count: nat): seq<Part> {
    seq(count, i requires 0 <= i < count => MakePart(requestId, i, count, Slice(payload, i, capacity)))
  }

  /** The empty part that the capacity is computed from. */
  function EmptyEnvelope(frame: Frame, n: nat, requestId: string): nat {
    SerializedBytes(frame, MakePart(requestId, UpperCount(n) - 1, UpperCount(n), []))
  }

  /** A part of at most `capacity` bytes fits the limit: its data fills at most the base64
      room beside an envelope whose numbers have no more digits than the ones assumed. */
  lemma {:induction false} SizeFits(fixed: nat, n: nat, maxPayloadBytes: int, index: nat, k: nat)
    requires var capacity := RawCapacity(PartBytes(fixed, UpperCount(n) - 1, UpperCount(n), 0), maxPayloadBytes);
      capacity >= 1 && index < PartCount(n, capacity) && k <= capacity
    ensures var capacity := RawCapacity(PartBytes(fixed, UpperCount(n) - 1, UpperCount(n), 0), maxPayloadBytes);
      PartBytes(fixed, index, PartCount(n, capacity), k) <= maxPayloadBytes
  {
    var upper := UpperCount(n);
    var empty := PartBytes(fixed, upper - 1, upper, 0);
    var capacity := RawCapacity(empty, maxPayloadBytes);
    var count := PartCount(n, capacity);
    CountAtMostUpper(n, capacity);
    DecLengthMonotone(index, upper - 1);
    DecLengthMonotone(count, upper);
    Base64Room(k, (maxPayloadBytes - empty) / 4);
  }

  lemma {:induction false} PartFits(frame: Frame, payload: seq<Byte>, requestId: string, maxPayloadBytes: int, capacity: nat, index: nat)
    requires 1 <= capacity == RawCapacity(EmptyEnvelope(frame, |payload|, requestId), maxPayloadBytes)
    requires index < PartCount(|payload|, capacity)
    ensures SerializedBytes(frame, MakePart(requestId, index, PartCount(|payload|, capacity), Slice(payload, index, capacity)))
         <= maxPayloadBytes
  {
    var n, count := |payload|, PartCount(|payload|, capacity);
    PartSize(frame, requestId, UpperCount(n) - 1, UpperCount(n), []);
    PartSize(frame, requestId, index, count, Slice(payload, index, capacity));
    SizeFits(FixedBytes(frame, requestId), n, maxPayloadBytes, index, |Slice(payload, index, capacity)|);
  }

  lemma Base64Room(k: nat, groups: nat)
    requires k <= groups * 3
    ensures (k + 2) / 3 * 4 <= groups * 4
  {
  }

  /** The part count never exceeds the count the envelope was sized for. */
  lemma {:induction false} CountAtMostUpper(n: nat, capacity: nat)
    requires capacity >= 1
    ensures PartCount(n, capacity) <= UpperCount(n)
    ensures n <= PartCount(n, capacity) * capacity
  {
    var q, r := (n + capacity - 1) / capacity, (n + capacity - 1) % capacity;
    assert n + capacity - 1 == q * capacity + r;
    if q > n {
      MulMonotone(n + 1, q, capacity);
      MulMonotone(1, capacity, n);
    }
  }

  lemma MulMonotone(x: nat, y: nat, z: nat)
    requires x <= y
    ensures x * z <= y * z
  {
  }

  function Flatten(slices: seq<seq<Byte>>): seq<Byte> {
    if slices == [] then [] else slices[0] + Flatten(slices[1..])
  }

  function Slices(payload: seq<Byte>, capacity: nat, count: nat): seq<seq<Byte>> {
    seq(count, i requires 0 <= i < count => Slice(payload, i, capacity))
  }

  lemma {:induction false} FlattenSnoc(slices: seq<seq<Byte>>, last: seq<Byte>)
    ensures Flatten(slices + [last]) == Flatten(slices) + last
  {
    if slices == [] {
      assert slices + [last] == [last];
    } else {
      FlattenSnoc(slices[1..], last);
      assert (slices + [last])[1..] == slices[1..] + [last];
    }
  }

  lemma {:induction false} LeadingSlices(payload: seq<Byte>, capacity: nat, k: nat)
    ensures Flatten(Slices(payload, capacity, k)) == payload[..Min(k * capacity, |payload|)]
  {
    if k > 0 {
      LeadingSlices(payload, capacity, k - 1);
      assert Slices(payload, capacity, k) == Slices(payload, capacity, k - 1) + [Slice(payload, k - 1, capacity)];
      FlattenSnoc(Slices(payload, capacity, k - 1), Slice(payload, k - 1, capacity));
      assert (k - 1) * capacity + capacity == k * capacity;
    }
  }

  /** The slices partition the payload, in order. */
  lemma SlicesPartition(payload: seq<Byte>, capacity: nat)
    requires capacity >= 1
    ensures Flatten(Slices(payload, capacity, PartCount(|payload|, capacity))) == payload
  {
    var count := PartCount(|payload|, capacity);
    LeadingSlices(payload, capacity, count);
    CountAtMostUpper(|payload|, capacity);
    assert payload[..|payload|] == payload;
  }

  lemma DataPartitions(payload: seq<Byte>, requestId: string, capacity: nat)
    requires capacity >= 1
    ensures var parts := PartsOf(payload, requestId, capacity, PartCount(|payload|, capacity)); Flatten(Payloads(parts)) == payload
  {
    var count := PartCount(|payload|, capacity);
    var parts := PartsOf(payload, requestId, capacity, count);
    forall i | 0 <= i < count
      ensures Decode(parts[i].data) == Slice(payload, i, capacity)
    {
      DecodeEncode(Slice(payload, i, capacity));
    }
    SlicesPartition(payload, capacity);
    assert Payloads(parts) == Slices(payload, capacity, count);
  }

  /** The bytes each part carries. */
  function Payloads(parts: seq<Part>): seq<seq<Byte>> {
    seq(|parts|, i requires 0 <= i < |parts| => Decode(parts[i].data))
  }

  // ----- what the cut is, without the capacity -----

  function Zeros(k: nat): (bytes: seq<Byte>)
    ensures |bytes| == k
  {
    seq(k, _ => 0)
  }

  /** The size of a part with `k` bytes of payload whose numbers are the largest that a payload
      of `n` bytes could need. */
  function FullestBytes(frame: Frame, n: nat, requestId: string, k: nat): nat {
    var upper := if n == 0 then 1 else n;
    SerializedBytes(frame, MakePart(requestId, upper - 1, upper, Zeros(k)))
  }

  predicate Fits(frame: Frame, n: nat, requestId: string, limit: int, k: nat) {
    FullestBytes(frame, n, requestId, k) <= limit
  }

  /** The slices make up the payload. All but the last are equally long and as long as fits, the last is
      not empty, and one slice is all there is exactly when the whole payload fits into it. */
  ghost predicate FullSlices(payload: seq<Byte>, fits: nat -> bool, slices: seq<seq<Byte>>) {
    && slices != []
    && Flatten(slices) == payload
    && (forall i :: 0 <= i < |slices| - 1 ==>
          |slices[i]| == |slices[0]| && fits(|slices[i]|) && !fits(|slices[i]| + 1))
    && (payload != [] ==> slices[|slices| - 1] != [])
    && (|slices| == 1 <==> fits(|payload|))
  }

  /** The parts number themselves and carry full slices. */
  ghost predicate WellCut(payload: seq<Byte>, requestId: string, fits: nat -> bool, parts: seq<Part>) {
    && FullSlices(payload, fits, Payloads(parts))
    && forall i :: 0 <= i < |parts| ==> parts[i] == Part(1, requestId, i, |parts|, Encode(Payloads(parts)[i]))
  }

  function FitsBeside(frame: Frame, n: nat, requestId: string, limit: int): nat -> bool {
    (k: nat) => Fits(frame, n, requestId, limit, k)
  }

  lemma EnvelopeSize(frame: Frame, n: nat, requestId: string, bytes: seq<Byte>)
    ensures var upper := if n == 0 then 1 else n;
      SerializedBytes(frame, MakePart(requestId, upper - 1, upper, bytes))
      == PartBytes(FixedBytes(frame, requestId), upper - 1, upper, |bytes|)
  {
    PartSize(frame, requestId, UpperCount(n) - 1, UpperCount(n), bytes);
  }

  lemma EmptySize(frame: Frame, n: nat, requestId: string, none: seq<Byte>)
    requires none == []
    ensures EmptyEnvelope(frame, n, requestId) == PartBytes(FixedBytes(frame, requestId), UpperCount(n) - 1, UpperCount(n), |none|)
  {
    assert EmptyEnvelope(frame, n, requestId) == SerializedBytes(frame, MakePart(requestId, UpperCount(n) - 1, UpperCount(n), none));
    EnvelopeSize(frame, n, requestId, none);
  }

  lemma QuotedBytes(s: string)
    ensures ByteLength(JsonString(s)) == 2 + ByteLength(JsonBody(s))
  {
    ByteLengthConcat("\"" + JsonBody(s), "\"");
    ByteLengthConcat("\"", JsonBody(s));
    AsciiByteLength("\"");
  }

  predicate Ascii(s: string) {
    forall i :: 0 <= i < |s| ==> s[i] < 128 as char
  }

  predicate AsciiFrame(f: Frame, bytes: nat) {
    && Ascii(f.version) && Ascii(f.requestId) && Ascii(f.index) && Ascii(f.count) && Ascii(f.data) && Ascii(f.close)
    && |f.version| + |f.requestId| + |f.index| + |f.count| + |f.data| + |f.close| == bytes
  }

  lemma JsonFrameBytes()
    ensures AsciiFrame(JSON_FRAME, 52)
  {
  }

  /** The empty envelope takes five bytes more than the frame, beside the request id and the
      digits of its numbers: 57 in all for the frame in use. */
  lemma EnvelopeBytes(frame: Frame, bytes: nat, n: nat, requestId: string, none: seq<Byte>)
    requires AsciiFrame(frame, bytes) && none == []
    ensures EmptyEnvelope(frame, n, requestId)
         == bytes + 5 + ByteLength(JsonBody(requestId)) + |Dec(UpperCount(n) - 1)| + |Dec(UpperCount(n))|
  {
    EmptySize(frame, n, requestId, none);
    FixedSum(frame, requestId);
    AsciiByteLength(frame.version);
    AsciiByteLength(frame.requestId);
    AsciiByteLength(frame.index);
    AsciiByteLength(frame.count);
    AsciiByteLength(frame.data);
    AsciiByteLength(frame.close);
  }

  lemma FixedSum(frame: Frame, requestId: string)
    ensures FixedBytes(frame, requestId)
         == ByteLength(frame.version) + ByteLength(frame.requestId) + ByteLength(frame.index) + ByteLength(frame.count)
            + ByteLength(frame.data) + ByteLength(frame.close) + ByteLength(JsonBody(requestId)) + 5
  {
    QuotedBytes(requestId);
    DecBytes(1);
    assert |Dec(1)| == 1;
  }

  lemma SizeOver(frame: Frame, n: nat, requestId: string, bytes: seq<Byte>)
    ensures var upper := if n == 0 then 1 else n;
      SerializedBytes(frame, MakePart(requestId, upper - 1, upper, bytes))
      == EmptyEnvelope(frame, n, requestId) + (|bytes| + 2) / 3 * 4
  {
    EnvelopeSize(frame, n, requestId, bytes);
    EmptySize(frame, n, requestId, []);
  }

  /** Up to the capacity, and no further, payload fits. */
  lemma FitsIff(frame: Frame, n: nat, requestId: string, limit: int, k: nat)
    ensures Fits(frame, n, requestId, limit, k)
      <==> if k == 0 then EmptyEnvelope(frame, n, requestId) <= limit
           else k <= RawCapacity(EmptyEnvelope(frame, n, requestId), limit)
  {
    SizeOver(frame, n, requestId, Zeros(k));
    RoomIff(EmptyEnvelope(frame, n, requestId), limit, k);
  }

  /** Not even one byte of payload fits. */
  ghost predicate NothingFits(frame: Frame, n: nat, requestId: string, limit: int) {
    forall k: nat :: k > 0 ==> !Fits(frame, n, requestId, limit, k)
  }

  lemma NothingFitsIff(frame: Frame, n: nat, requestId: string, limit: int)
    ensures NothingFits(frame, n, requestId, limit) <==> RawCapacity(EmptyEnvelope(frame, n, requestId), limit) < 1
  {
    var capacity := RawCapacity(EmptyEnvelope(frame, n, requestId), limit);
    if capacity >= 1 {
      FitsIff(frame, n, requestId, limit, capacity);
    } else {
      forall k: nat | k > 0
        ensures !Fits(frame, n, requestId, limit, k)
      {
        FitsIff(frame, n, requestId, limit, k);
      }
    }
  }

  /** A limit is too small exactly when any three bytes overflow it in the largest envelope. */
  lemma TooSmallIff(frame: Frame, n: nat, requestId: string, limit: int, three: seq<Byte>)
    requires |three| == 3
    ensures var upper := if n == 0 then 1 else n;
      NothingFits(frame, n, requestId, limit) <==> SerializedBytes(frame, MakePart(requestId, upper - 1, upper, three)) > limit
  {
    NothingFitsIff(frame, n, requestId, limit);
    SizeOver(frame, n, requestId, three);
    GroupOverflows(EmptyEnvelope(frame, n, requestId), limit, |three|);
  }

  lemma GroupOverflows(empty: nat, limit: int, k: nat)
    requires k == 3
    ensures RawCapacity(empty, limit) < 1 <==> empty + (k + 2) / 3 * 4 > limit
  {
  }

  lemma RoomIff(empty: nat, limit: int, k: nat)
    ensures k > 0 ==> (empty + (k + 2) / 3 * 4 <= limit <==> k <= RawCapacity(empty, limit))
  {
  }

  lemma SliceSizes(payload: seq<Byte>, capacity: nat, i: nat)
    requires 1 <= capacity && i < PartCount(|payload|, capacity)
    ensures i < PartCount(|payload|, capacity) - 1 ==> |Slice(payload, i, capacity)| == capacity
    ensures payload != [] ==> Slice(payload, i, capacity) != []
    ensures PartCount(|payload|, capacity) == 1 <==> |payload| <= capacity
  {
    var n := |payload|;
    var q, r := (n + capacity - 1) / capacity, (n + capacity - 1) % capacity;
    assert n + capacity - 1 == q * capacity + r;
    if n > 0 {
      MulMonotone(i + 1, q, capacity);
      assert (i + 1) * capacity == i * capacity + capacity;
      if i + 1 < q {
        MulMonotone(i + 2, q, capacity);
        assert (i + 2) * capacity == i * capacity + 2 * capacity;
      }
      if q >= 2 {
        MulMonotone(2, q, capacity);
      }
    }
  }

  lemma {:induction false} PayloadsAre(payload: seq<Byte>, requestId: string, capacity: nat, count: nat)
    ensures Payloads(PartsOf(payload, requestId, capacity, count)) == Slices(payload, capacity, count)
  {
    forall i | 0 <= i < count
      ensures Payloads(PartsOf(payload, requestId, capacity, count))[i] == Slice(payload, i, capacity)
    {
      DecodeEncode(Slice(payload, i, capacity));
    }
  }

  lemma SlicesAreFull(payload: seq<Byte>, fits: nat -> bool, capacity: nat)
    requires 1 <= capacity && fits(capacity) && !fits(capacity + 1) && (fits(|payload|) <==> |payload| <= capacity)
    ensures FullSlices(payload, fits, Slices(payload, capacity, PartCount(|payload|, capacity)))
  {
    var count := PartCount(|payload|, capacity);
    SlicesPartition(payload, capacity);
    forall i | 0 <= i < count
      ensures i < count - 1 ==> |Slice(payload, i, capacity)| == capacity
      ensures payload != [] ==> Slice(payload, i, capacity) != []
    {
      SliceSizes(payload, capacity, i);
    }
    SliceSizes(payload, capacity, 0);
  }

  lemma {:induction false} PartsAreWellCut(payload: seq<Byte>, requestId: string, fits: nat -> bool, capacity: nat)
    requires 1 <= capacity && fits(capacity) && !fits(capacity + 1) && (fits(|payload|) <==> |payload| <= capacity)
    ensures WellCut(payload, requestId, fits, PartsOf(payload, requestId, capacity, PartCount(|payload|, capacity)))
  {
    PayloadsAre(payload, requestId, capacity, PartCount(|payload|, capacity));
    SlicesAreFull(payload, fits, capacity);
  }

  lemma FitsUpTo(frame: Frame, n: nat, requestId: string, limit: int, capacity: nat)
    requires 1 <= capacity == RawCapacity(EmptyEnvelope(frame, n, requestId), limit)
    ensures forall k: nat :: FitsBeside(frame, n, requestId, limit)(k) <==> k <= capacity
  {
    forall k: nat
      ensures FitsBeside(frame, n, requestId, limit)(k) <==> k <= capacity
    {
      FitsIff(frame, n, requestId, limit, k);
    }
  }

  lemma FrameIsWellCut(frame: Frame, payload: seq<Byte>, requestId: string, limit: int, capacity: nat)
    requires 1 <= capacity == RawCapacity(EmptyEnvelope(frame, |payload|, requestId), limit)
    ensures WellCut(payload, requestId, FitsBeside(frame, |payload|, requestId, limit),
                    PartsOf(payload, requestId, capacity, PartCount(|payload|, capacity)))
  {
    FitsUpTo(frame, |payload|, requestId, limit, capacity);
    PartsAreWellCut(payload, requestId, FitsBeside(frame, |payload|, requestId, limit), capacity);
  }

  /** `splitInferenceRequest`. It refuses a limit into which no payload fits beside
      the largest envelope. Otherwise the split succeeds, no part is larger than the
      limit, and the payload is well cut. */
  method SplitInferenceRequest(payload: seq<CodePoint>, requestId: string, maxPayloadBytes: int)
    returns (r: Result<seq<Part>, SplitError>)
    ensures r == Err(LimitNotPositive) <==> maxPayloadBytes <= 0
    ensures r == Err(LimitTooSmall)
      <==> maxPayloadBytes > 0 && NothingFits(JSON_FRAME, |EncodeText(payload)|, requestId, maxPayloadBytes)
    ensures r.Ok? ==> RightParts(JSON_FRAME, EncodeText(payload), requestId, maxPayloadBytes, r.value)
    ensures var bytes := EncodeText(payload);
            var capacity := RawCapacity(EmptyEnvelope(JSON_FRAME, |bytes|, requestId), maxPayloadBytes);
      r.Ok? ==> capacity >= 1 && r == Ok(PartsOf(bytes, requestId, capacity, PartCount(|bytes|, capacity)))
  {
    r := SplitBytes(JSON_FRAME, EncodeText(payload), requestId, maxPayloadBytes);
  }

  /** All that is promised of the parts. */
  ghost predicate RightParts(frame: Frame, payload: seq<Byte>, requestId: string, limit: int, parts: seq<Part>) {
    && WellCut(payload, requestId, FitsBeside(frame, |payload|, requestId, limit), parts)
    && |parts| <= UpperCount(|payload|)
    && forall i :: 0 <= i < |parts| ==> SerializedBytes(frame, parts[i]) <= limit
  }

  method SplitBytes(frame: Frame, payloadBytes: seq<Byte>, requestId: string, maxPayloadBytes: int)
    returns (r: Result<seq<Part>, SplitError>)
    ensures r == Err(LimitNotPositive) <==> maxPayloadBytes <= 0
    ensures r == Err(LimitTooSmall) <==> maxPayloadBytes > 0 && NothingFits(frame, |payloadBytes|, requestId, maxPayloadBytes)
    ensures r.Ok? ==> RightParts(frame, payloadBytes, requestId, maxPayloadBytes, r.value)
    ensures var capacity := RawCapacity(EmptyEnvelope(frame, |payloadBytes|, requestId), maxPayloadBytes);
      r.Ok? ==> capacity >= 1 && r == Ok(PartsOf(payloadBytes, requestId, capacity, PartCount(|payloadBytes|, capacity)))
  {
    if maxPayloadBytes <= 0 { return Err(LimitNotPositive); }
    var emptyEnvelope := EmptyEnvelope(frame, |payloadBytes|, requestId);
    var rawCapacity := RawCapacity(emptyEnvelope, maxPayloadBytes);
    NothingFitsIff(frame, |payloadBytes|, requestId, maxPayloadBytes);
    if rawCapacity < 1 { return Err(LimitTooSmall); }
    var parts := CutParts(frame, payloadBytes, requestId, maxPayloadBytes, rawCapacity);
    r := Ok(parts);
  }

  method CutParts(frame: Frame, payloadBytes: seq<Byte>, requestId: string, maxPayloadBytes: int, rawCapacity: nat)
    returns (parts: seq<Part>)
    requires 1 <= rawCapacity == RawCapacity(EmptyEnvelope(frame, |payloadBytes|, requestId), maxPayloadBytes)
    ensures parts == PartsOf(payloadBytes, requestId, rawCapacity, PartCount(|payloadBytes|, rawCapacity))
    ensures RightParts(frame, payloadBytes, requestId, maxPayloadBytes, parts)
  {
    var count := PartCount(|payloadBytes|, rawCapacity);
    parts := [];
    ghost var all := PartsOf(payloadBytes, requestId, rawCapacity, count);
    for index := 0 to count
      invariant parts == all[..index]
    {
      var part := CutPart(frame, payloadBytes, requestId, maxPayloadBytes, rawCapacity, index);
      parts := parts + [part];
    }
    PartsAreRight(frame, payloadBytes, requestId, maxPayloadBytes, rawCapacity);
  }

  lemma PartsAreRight(frame: Frame, payload: seq<Byte>, requestId: string, limit: int, capacity: nat)
    requires 1 <= capacity == RawCapacity(EmptyEnvelope(frame, |payload|, requestId), limit)
    ensures RightParts(frame, payload, requestId, limit, PartsOf(payload, requestId, capacity, PartCount(|payload|, capacity)))
  {
    AllPartsFit(frame, payload, requestId, limit, capacity);
    CountAtMostUpper(|payload|, capacity);
    FrameIsWellCut(frame, payload, requestId, limit, capacity);
  }

  lemma {:induction false} AllPartsFit(frame: Frame, payload: seq<Byte>, requestId: string, maxPayloadBytes: int, capacity: nat)
    requires 1 <= capacity == RawCapacity(EmptyEnvelope(frame, |payload|, requestId), maxPayloadBytes)
    ensures var parts := PartsOf(payload, requestId, capacity, PartCount(|payload|, capacity));
      forall i :: 0 <= i < |parts| ==> SerializedBytes(frame, parts[i]) <= maxPayloadBytes
  {
    var parts := PartsOf(payload, requestId, capacity, PartCount(|payload|, capacity));
    forall i | 0 <= i < |parts|
      ensures SerializedBytes(frame, parts[i]) <= maxPayloadBytes
    {
      PartFits(frame, payload, requestId, maxPayloadBytes, capacity, i);
    }
  }

  method CutPart(frame: Frame, payloadBytes: seq<Byte>, requestId: string, maxPayloadBytes: int, rawCapacity: nat, index: nat)
    returns (part: Part)
    requires 1 <= rawCapacity == RawCapacity(EmptyEnvelope(frame, |payloadBytes|, requestId), maxPayloadBytes)
    requires index < PartCount(|payloadBytes|, rawCapacity)
    ensures part == PartsOf(payloadBytes, requestId, rawCapacity, PartCount(|payloadBytes|, rawCapacity))[index]
  {
    part := MakePart(requestId, index, PartCount(|payloadBytes|, rawCapacity), Slice(payloadBytes, index, rawCapacity));
    PartFits(frame, payloadBytes, requestId, maxPayloadBytes, rawCapacity, index);
    if SerializedBytes(frame, part) > maxPayloadBytes {
      assert false; // the error raised here is unreachable
    }
  }
}
