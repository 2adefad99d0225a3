/** Typing back what a decoded INDEX shows (pkg/mib/table.go:393-415, 519-584, 664-698). */
module IndexText {
  import opened Basics
  import opened Text
  import opened IndexCodec
  import opened IndexRoundTrip

  /** The displayed text of a value is accepted back as that value. */
  predicate Rereads(kind: Kind, payload: seq<nat>)
    requires kind.Octets? ==> AreOctets(payload)
    requires !kind.Octets? && !kind.ObjectId? ==> payload != []
  {
    PayloadOf(kind, TrimSpace(Render(kind, payload))) == Ok(payload)
  }

  // --- hex ----------------------------------------------------------------------------

  lemma PairReadsBack(b: nat)
    requires b <= 255
    ensures ParsePair(HexPair(b)) == Some(b)
    ensures forall c | c in HexPair(b) :: c != ':' && c != '-' && !IsSpace(c)
  {
    assert b == (b / 16) * 16 + b % 16;
  }

  lemma {:induction false} PairsReadBack(b: seq<nat>)
    requires AreOctets(b)
    ensures AllPairs(Pairs(b)) == Some(b)
  {
    if b != [] {
      PairReadsBack(b[0]);
      PairsReadBack(b[1..]);
      assert Pairs(b)[1..] == Pairs(b[1..]);
      assert [b[0]] + b[1..] == b;
    }
  }

  lemma PairsAreClean(b: seq<nat>)
    requires AreOctets(b)
    ensures forall p | p in Pairs(b) :: p != "" && !IsSpace(p[0]) && !IsSpace(p[|p| - 1]) && ':' !in p && '-' !in p
  {
    forall p | p in Pairs(b)
      ensures p != "" && !IsSpace(p[0]) && !IsSpace(p[|p| - 1]) && ':' !in p && '-' !in p
    {
      var i :| 0 <= i < |b| && p == HexPair(b[i]);
      PairReadsBack(b[i]);
      assert p[0] in p && p[1] in p;
    }
  }

  /** parseHexOctets inverts renderOctets on every string of at least two octets that
      is not plain text: what a MAC address shows can be typed back. */
  lemma HexReadsBack(b: seq<nat>)
    requires AreOctets(b) && |b| >= 2 && !Printable(b)
    ensures ParseHexOctets(RenderOctets(false, b)) == Some(b)
    ensures TrimSpace(RenderOctets(false, b)) == RenderOctets(false, b) != ""
  {
    hide Split, AllPairs, Printable, TrimSpace;
    var parts := Pairs(b);
    var s := Join(parts, ':');
    PairsAreClean(b);
    assert parts[0] in parts;
    CleanEndsStay(parts);
    assert s == parts[0] + [':'] + Join(parts[1..], ':');
    assert s[|parts[0]|] == ':';
    SplitUndoesJoin(parts, ':');
    PairsReadBack(b);
  }

  lemma CleanEndsStay(parts: seq<string>)
    requires parts != [] && forall p | p in parts :: p != "" && !IsSpace(p[0]) && !IsSpace(p[|p| - 1])
    ensures Join(parts, ':') != "" && TrimSpace(Join(parts, ':')) == Join(parts, ':')
  {
    hide Join;
    DottedEndsInDigits(parts, ':');
    assert parts[0] in parts;
  }

  lemma {:induction false} PairedLength(parts: seq<string>, sep: char)
    requires parts != [] && AllPairs(parts).Some?
    ensures |Join(parts, sep)| == 3 * |parts| - 1
  {
    if |parts| > 1 {
      PairedLength(parts[1..], sep);
    }
  }

  /** Text that reads as hex pairs stands for fewer octets than it has characters. */
  lemma HexIsShorter(s: string)
    requires ParseHexOctets(s).Some?
    ensures |ParseHexOctets(s).value| < |s|
  {
    var sep := if ':' in s then ':' else '-';
    JoinUndoesSplit(s, sep);
    PairedLength(Split(s, sep), sep);
  }

  // --- exactly which octets reread -------------------------------------------------------

  lemma {:induction false} TrimRightLength(s: string)
    ensures |TrimRight(s, IsSpace)| <= |s|
    ensures s != "" && IsSpace(s[|s| - 1]) ==> |TrimRight(s, IsSpace)| < |s|
  {
    if s != "" && IsSpace(s[|s| - 1]) {
      TrimRightLength(s[..|s| - 1]);
    }
  }

  lemma {:induction false} TrimLeftLength(s: string)
    ensures |TrimLeft(s, IsSpace)| <= |s|
    ensures s != "" && IsSpace(s[0]) ==> |TrimLeft(s, IsSpace)| < |s|
  {
    if s != "" && IsSpace(s[0]) {
      TrimLeftLength(s[1..]);
    }
  }

  lemma TrimShortens(s: string)
    requires s != "" && (IsSpace(s[0]) || IsSpace(s[|s| - 1]))
    ensures |TrimSpace(s)| < |s|
  {
    TrimLeftLength(s);
    TrimRightLength(TrimLeft(s, IsSpace));
  }

  lemma ShortTextIsShort(value: string, ranges: seq<(int, int)>, n: nat)
    requires |value| < n
    ensures var p := PayloadOf(Octets(false, ranges), value); p.Ok? ==> |p.value| < n
  {
    if value != "" && ParseHexOctets(value).Some? {
      HexIsShorter(value);
    }
  }

  /** A text value has outer blanks, which trimming removes, or the shape of hex pairs,
      which is read as hex. */
  predicate Misreadable(b: seq<nat>)
    requires AreOctets(b)
  {
    b != [] && (b[0] == 0x20 || b[|b| - 1] == 0x20 || ParseHexOctets(AsText(b)).Some?)
  }

  /** The exact condition. Printable text rereads unless it has outer blanks or the
      shape of hex pairs; anything else rereads when it has at least two octets. */
  lemma OctetsRereadExactly(ranges: seq<(int, int)>, b: seq<nat>)
    requires AreOctets(b)
    ensures Rereads(Octets(false, ranges), b) <==> if Printable(b) then !Misreadable(b) else |b| >= 2
  {
    var s := RenderOctets(false, b);
    if Printable(b) {
      assert |s| == |b| && s[0] as int == b[0] && s[|s| - 1] as int == b[|b| - 1];
      if b[0] == 0x20 || b[|b| - 1] == 0x20 {
        TrimShortens(s);
        ShortTextIsShort(TrimSpace(s), ranges, |b|);
      } else {
        assert TrimSpace(s) == s;
        if ParseHexOctets(s).Some? {
          HexIsShorter(s);
        } else {
          assert CharCodes(s) == b;
        }
      }
    } else if |b| >= 2 {
      HexReadsBack(b);
    } else if |b| == 1 {
      PairReadsBack(b[0]);
      assert s == HexPair(b[0]);
      assert s[0] in s && s[1] in s;
      assert TrimSpace(s) == s;
    }
  }

  lemma QuadReadsBack(b: seq<nat>)
    requires AreOctets(b) && |b| == 4
    ensures ParseDottedQuad(Dotted(b)) == Some(b)
    ensures TrimSpace(Dotted(b)) == Dotted(b) != ""
  {
    var parts := Numbers(b);
    NumbersAreDigits(b);
    assert parts[0] in parts;
    DottedEndsInDigits(parts, '.');
    SplitUndoesJoin(parts, '.');
    BytesParse(b);
  }

  /** An address rereads, and so does every object identifier and every number. */
  lemma AddressRereads(ranges: seq<(int, int)>, b: seq<nat>)
    requires AreOctets(b) && |b| == 4
    ensures Rereads(Octets(true, ranges), b)
  {
    QuadReadsBack(b);
    hide ParseDottedQuad, Dotted, TrimSpace;
  }

  lemma {:induction false} BytesParse(b: seq<nat>)
    requires AreOctets(b)
    ensures AllBytes(Numbers(b)) == Some(b)
  {
    if b != [] {
      BytesParse(b[1..]);
      ParseUndoesFormat(b[0]);
      assert Numbers(b)[1..] == Numbers(b[1..]);
      assert [b[0]] + b[1..] == b;
    }
  }

  lemma IdentifierRereads(payload: seq<nat>)
    requires payload != [] && AreSubIds(payload)
    ensures Rereads(ObjectId, payload)
  {
    var s := Dotted(payload);
    DottedReadsBack(payload);
    NumbersAreDigits(payload);
    assert Numbers(payload)[0] in Numbers(payload);
    DottedEndsInDigits(Numbers(payload), '.');
    assert TrimSpace(s) == s;
  }

  lemma NumberRereads(kind: Kind, v: nat)
    requires v <= MAX_UINT32 && (kind == Integer || kind == Untyped || kind == Enumeration(None))
    ensures Rereads(kind, [v])
  {
    var s := FormatUint(v);
    ParseUndoesFormat(v);
    assert s[0] in s && s[|s| - 1] in s;
    assert TrimSpace(s) == s;
  }

  // --- the whole row ---------------------------------------------------------------------

  predicate Decodable(kind: Kind, payload: seq<nat>) {
    && (kind.Octets? ==> AreOctets(payload))
    && (!kind.Octets? && !kind.ObjectId? ==> payload != [])
  }

  lemma {:induction false} DecodedAreDecodable(kinds: seq<Kind>, tableImplied: bool, subs: seq<nat>)
    requires DecodeParts(kinds, tableImplied, subs).error.None?
    ensures var parts := DecodeParts(kinds, tableImplied, subs).parts;
            |parts| == |kinds|
            && forall i | 0 <= i < |kinds| ::
                 Decodable(kinds[i], parts[i].payload) && parts[i].display == Render(kinds[i], parts[i].payload)
  {
    if kinds != [] {
      var used := DecodeOne(kinds[0], subs, tableImplied && |kinds| == 1).value.1;
      DecodedAreDecodable(kinds[1..], tableImplied, subs[used..]);
    }
  }

  function Displays(parts: seq<Part>): seq<string> {
    seq(|parts|, i requires 0 <= i < |parts| => parts[i].display)
  }

  lemma {:induction false} EncodingPayloads(kinds: seq<Kind>, tableImplied: bool, values: seq<string>, parts: seq<Part>)
    requires |kinds| == |values| == |parts|
    requires forall i | 0 <= i < |kinds| :: PayloadOf(kinds[i], TrimSpace(values[i])) == Ok(parts[i].payload)
    ensures EncodeParts(kinds, tableImplied, values) == Reframe(kinds, tableImplied, parts)
  {
    if kinds != [] {
      EncodingPayloads(kinds[1..], tableImplied, values[1..], parts[1..]);
    }
  }

  lemma {:induction false} ParsedSubIdsOf(raw: string)
    requires ParseSubIds(raw).Ok?
    ensures ParseSubIds(raw).value != [] && AreSubIds(ParseSubIds(raw).value)
  {
    ParsedAreSubIds(Split(TrimPrefix(TrimSpace(raw), '.'), '.'));
  }

  /** Typing back the texts a row shows addresses that very row if and only if each of
      its values rereads. */
  lemma ShownRowReencodesExactly(kinds: seq<Kind>, tableImplied: bool, raw: string)
    requires DecodeInstance(kinds, tableImplied, raw).error.None?
    requires forall d | d in Displays(DecodeInstance(kinds, tableImplied, raw).parts) :: IsByteString(d)
    ensures var parts := DecodeInstance(kinds, tableImplied, raw).parts;
            && |parts| == |kinds|
            && (forall i | 0 <= i < |kinds| :: Decodable(kinds[i], parts[i].payload))
            && (EncodeIndex(kinds, tableImplied, Displays(parts)) == Ok(Dotted(ParseSubIds(raw).value)) <==>
                forall i | 0 <= i < |kinds| :: Rereads(kinds[i], parts[i].payload))
  {
    var subs := ParseSubIds(raw).value;
    var parts := DecodeInstance(kinds, tableImplied, raw).parts;
    var values := Displays(parts);
    DecodedAreDecodable(kinds, tableImplied, subs);
    ParsedSubIdsOf(raw);
    DottedReadsBack(subs);
    if EncodeIndex(kinds, tableImplied, values) == Ok(Dotted(subs)) {
      EncodedIndexReadsBack(kinds, tableImplied, values);
      var payloads := Payloads(kinds, values);
      forall i | 0 <= i < |kinds|
        ensures Rereads(kinds[i], parts[i].payload)
      {
        assert parts[i].payload == payloads[i] && payloads[i] != [];
      }
    }
    if forall i | 0 <= i < |kinds| :: Rereads(kinds[i], parts[i].payload) {
      EncodingPayloads(kinds, tableImplied, values, parts);
      DecodedInstanceReframes(kinds, tableImplied, raw);
    }
  }
}
