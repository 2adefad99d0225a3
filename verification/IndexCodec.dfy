/** The INDEX codec (pkg/mib/table.go): a row's instance sub-identifiers to and from
    one value per INDEX object, by section 7.7 of RFC 2578. Strings are bytes. */
module IndexCodec {
  import opened Basics
  import opened Text

  const MAX_UINT32 := 0xFFFF_FFFF
  const MAX_INT32 := 0x7FFF_FFFF

  /** An enumeration's label table, both ways; it belongs to the MIB library. */
  datatype Labels = Labels(valueOf: string -> Option<int>, nameOf: int -> string)

  /** What an INDEX object's type decides: its base type, for strings whether it is
      IpAddress and which SIZE ranges it declares, and for enumerations its labels. */
  datatype Kind =
    | Untyped
    | Enumeration(labels: Option<Labels>)
    | Integer
    | ObjectId
    | Octets(isIpAddress: bool, ranges: seq<(int, int)>)
    | Unindexable

  datatype Problem =
    | EmptyInstance | NotASubIdentifier | NoIndex | RanOut | NeedsMore | LengthTooLarge
    | LengthExceeds | NotAnOctet | CannotIndex | LeftOver(count: nat)
    | NoValue | NotANumber | NotAnAddress | WrongSize | TooLong | WrongCount

  datatype Result<+T> = Ok(value: T) | Err(problem: Problem)

  /** One decoded INDEX object: the sub-identifiers that are its value, and its text. */
  datatype Part = Part(payload: seq<nat>, display: string)

  datatype Decoded = Decoded(parts: seq<Part>, error: Option<Problem>)

  // --- sizes -------------------------------------------------------------------

  /** The single exact size a type allows, or -1. */
  function FixedSize(ranges: seq<(int, int)>): (n: int)
    ensures -1 <= n <= MAX_INT32
  {
    if |ranges| != 1 then -1
    else
      var r := ranges[0];
      if r.0 != r.1 || r.0 < 0 || r.0 > MAX_INT32 then -1 else r.0
  }

  function FixedOf(kind: Kind): int {
    match kind
    case Octets(ip, ranges) => if ip then 4 else FixedSize(ranges)
    case _ => -1
  }

  // --- decoding ----------------------------------------------------------------

  /** How many sub-identifiers a variable-length value takes, and where they start. */
  function LengthOf(subs: seq<nat>, implied: bool, fixed: int): (r: Result<(nat, nat)>)
    requires subs != []
    ensures r.Ok? ==> r.value.0 + r.value.1 <= |subs|
  {
    if fixed >= 0 then
      if |subs| < fixed then Err(NeedsMore) else Ok((fixed, 0))
    else if implied then Ok((|subs|, 0))
    else if subs[0] > MAX_INT32 then Err(LengthTooLarge)
    else if subs[0] > |subs| - 1 then Err(LengthExceeds)
    else Ok((subs[0], 1))
  }

  predicate AreOctets(subs: seq<nat>) { forall i | 0 <= i < |subs| :: subs[i] <= 255 }

  predicate Printable(b: seq<nat>) { b != [] && forall i | 0 <= i < |b| :: 0x20 <= b[i] <= 0x7e }

  function AsText(b: seq<nat>): string
    requires AreOctets(b)
  {
    seq(|b|, i requires 0 <= i < |b| => b[i] as char)
  }

  function HexDigit(d: nat): char
    requires d < 16
  {
    if d < 10 then DigitChar(d) else (d - 10 + 'a' as int) as char
  }

  function HexPair(b: nat): (s: string)
    requires b <= 255
    ensures |s| == 2
  {
    [HexDigit(b / 16), HexDigit(b % 16)]
  }

  function Pairs(b: seq<nat>): (parts: seq<string>)
    requires AreOctets(b)
    ensures |parts| == |b|
  {
    seq(|b|, i requires 0 <= i < |b| => HexPair(b[i]))
  }

  function Numbers(subs: seq<nat>): (parts: seq<string>)
    ensures |parts| == |subs|
  {
    seq(|subs|, i requires 0 <= i < |subs| => FormatUint(subs[i]))
  }

  function Dotted(subs: seq<nat>): string { Join(Numbers(subs), '.') }

  function RenderOctets(isIpAddress: bool, b: seq<nat>): string
    requires AreOctets(b)
  {
    if isIpAddress && |b| == 4 then Dotted(b)
    else if Printable(b) then AsText(b)
    else Join(Pairs(b), ':')
  }

  function Render(kind: Kind, payload: seq<nat>): string
    requires kind.Octets? ==> AreOctets(payload)
    requires !kind.Octets? && !kind.ObjectId? ==> payload != []
  {
    match kind
    case Octets(ip, _) => RenderOctets(ip, payload)
    case ObjectId => Dotted(payload)
    case Enumeration(Some(labels)) => labels.nameOf(payload[0]) + "(" + FormatUint(payload[0]) + ")"
    case _ => FormatUint(payload[0])
  }

  /** decodeOne: one INDEX object off the front, and how many sub-identifiers it took. */
  function DecodeOne(kind: Kind, subs: seq<nat>, implied: bool): (r: Result<(Part, nat)>)
    ensures r.Ok? ==> r.value.1 <= |subs|
  {
    if subs == [] then Err(RanOut)
    else match kind
      case Unindexable => Err(CannotIndex)
      case ObjectId =>
        (match LengthOf(subs, implied, -1)
         case Err(p) => Err(p)
         case Ok((n, start)) =>
           var payload := subs[start..start + n];
           Ok((Part(payload, Render(kind, payload)), start + n)))
      case Octets(ip, ranges) =>
        (match LengthOf(subs, implied, FixedOf(kind))
         case Err(p) => Err(p)
         case Ok((n, start)) =>
           var payload := subs[start..start + n];
           if AreOctets(payload) then Ok((Part(payload, Render(kind, payload)), start + n))
           else Err(NotAnOctet))
      case _ => Ok((Part(subs[..1], Render(kind, subs[..1])), 1))
  }

  /** The INDEX objects from `kinds` on, of a row whose last object may be IMPLIED. */
  function DecodeParts(kinds: seq<Kind>, tableImplied: bool, subs: seq<nat>): Decoded {
    if kinds == [] then Decoded([], if subs == [] then None else Some(LeftOver(|subs|)))
    else match DecodeOne(kinds[0], subs, tableImplied && |kinds| == 1)
      case Err(p) => Decoded([], Some(p))
      case Ok((part, used)) =>
        var rest := DecodeParts(kinds[1..], tableImplied, subs[used..]);
        Decoded([part] + rest.parts, rest.error)
  }

  function AllSubIds(fields: seq<string>): Option<seq<nat>> {
    if fields == [] then Some([])
    else match (ParseUint(fields[0], MAX_UINT32), AllSubIds(fields[1..]))
      case (Some(v), Some(rest)) => Some([v] + rest)
      case _ => None
  }

  function ParseSubIds(raw: string): Result<seq<nat>> {
    var trimmed := TrimPrefix(TrimSpace(raw), '.');
    if trimmed == "" then Err(EmptyInstance)
    else match AllSubIds(Split(trimmed, '.'))
      case None => Err(NotASubIdentifier)
      case Some(subs) => Ok(subs)
  }

  function DecodeInstance(kinds: seq<Kind>, tableImplied: bool, raw: string): Decoded {
    match ParseSubIds(raw)
    case Err(p) => Decoded([], Some(p))
    case Ok(subs) =>
      if kinds == [] then Decoded([], Some(NoIndex)) else DecodeParts(kinds, tableImplied, subs)
  }

  // --- encoding ----------------------------------------------------------------

  function HexValue(c: char): Option<nat> {
    if IsDigit(c) then Some(DigitValue(c))
    else if 'a' <= c <= 'f' then Some((c as int) - ('a' as int) + 10)
    else if 'A' <= c <= 'F' then Some((c as int) - ('A' as int) + 10)
    else None
  }

  /** One group of exactly two hex digits. */
  function ParsePair(p: string): (r: Option<nat>)
    ensures r.Some? ==> r.value <= 255
  {
    if |p| != 2 then None
    else match (HexValue(p[0]), HexValue(p[1]))
      case (Some(h), Some(l)) => Some(h * 16 + l)
      case _ => None
  }

  function AllPairs(parts: seq<string>): (r: Option<seq<nat>>)
    ensures r.Some? ==> |r.value| == |parts| && AreOctets(r.value)
  {
    if parts == [] then Some([])
    else match (ParsePair(parts[0]), AllPairs(parts[1..]))
      case (Some(v), Some(rest)) => Some([v] + rest)
      case _ => None
  }

  function ParseHexOctets(s: string): (r: Option<seq<nat>>)
    ensures r.Some? ==> |r.value| >= 2 && AreOctets(r.value)
  {
    if ':' !in s && '-' !in s then None
    else
      var parts := Split(s, if ':' in s then ':' else '-');
      if |parts| < 2 then None else AllPairs(parts)
  }

  function AllBytes(fields: seq<string>): (r: Option<seq<nat>>)
    ensures r.Some? ==> |r.value| == |fields| && AreOctets(r.value)
  {
    if fields == [] then Some([])
    else match (ParseUint(fields[0], 255), AllBytes(fields[1..]))
      case (Some(v), Some(rest)) => Some([v] + rest)
      case _ => None
  }

  function ParseDottedQuad(s: string): (r: Option<seq<nat>>)
    ensures r.Some? ==> |r.value| == 4 && AreOctets(r.value)
  {
    var fields := Split(s, '.');
    if |fields| != 4 then None else AllBytes(fields)
  }

  function CharCodes(s: string): (b: seq<nat>)
    ensures |b| == |s|
  {
    seq(|s|, i requires 0 <= i < |s| => s[i] as int)
  }

  /** A uint32 conversion keeps the low thirty-two bits. */
  function ToUint32(v: int): nat { v % (MAX_UINT32 + 1) }

  /** The sub-identifiers a text value stands for, before any length is written. */
  function PayloadOf(kind: Kind, value: string): Result<seq<nat>> {
    if value == "" then Err(NoValue)
    else match kind
      case Unindexable => Err(CannotIndex)
      case ObjectId => ParseSubIds(value)
      case Octets(ip, _) =>
        if ip then
          (match ParseDottedQuad(value) case None => Err(NotAnAddress) case Some(b) => Ok(b))
        else
          (match ParseHexOctets(value) case Some(b) => Ok(b) case None => Ok(CharCodes(value)))
      case Enumeration(Some(labels)) =>
        (match labels.valueOf(value)
         case Some(v) => Ok([ToUint32(v)])
         case None => NumberOf(value))
      case _ => NumberOf(value)
  }

  function NumberOf(value: string): Result<seq<nat>> {
    match ParseUint(value, MAX_UINT32)
    case Some(v) => Ok([v])
    case None => Err(NotANumber)
  }

  function WithLength(payload: seq<nat>, implied: bool, fixed: int): Result<seq<nat>> {
    if fixed >= 0 then (if |payload| != fixed then Err(WrongSize) else Ok(payload))
    else if implied then Ok(payload)
    else if |payload| > MAX_UINT32 then Err(TooLong)
    else Ok([|payload|] + payload)
  }

  predicate IsVariable(kind: Kind) { kind.ObjectId? || kind.Octets? }

  function Frame(kind: Kind, payload: seq<nat>, implied: bool): Result<seq<nat>> {
    if IsVariable(kind) then WithLength(payload, implied, FixedOf(kind)) else Ok(payload)
  }

  function EncodeOne(kind: Kind, value: string, implied: bool): Result<seq<nat>> {
    match PayloadOf(kind, value)
    case Err(p) => Err(p)
    case Ok(payload) => Frame(kind, payload, implied)
  }

  function EncodeParts(kinds: seq<Kind>, tableImplied: bool, values: seq<string>): Result<seq<nat>>
    requires |kinds| == |values|
  {
    if kinds == [] then Ok([])
    else match EncodeOne(kinds[0], TrimSpace(values[0]), tableImplied && |kinds| == 1)
      case Err(p) => Err(p)
      case Ok(front) =>
        match EncodeParts(kinds[1..], tableImplied, values[1..])
        case Err(p) => Err(p)
        case Ok(rest) => Ok(front + rest)
  }

  function EncodeIndex(kinds: seq<Kind>, tableImplied: bool, values: seq<string>): Result<string> {
    if kinds == [] then Err(NoIndex)
    else if |values| != |kinds| then Err(WrongCount)
    else match EncodeParts(kinds, tableImplied, values)
      case Err(p) => Err(p)
      case Ok(subs) => Ok(Dotted(subs))
  }
}
