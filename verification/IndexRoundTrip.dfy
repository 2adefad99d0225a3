/** The two halves of the INDEX codec meet (pkg/mib/table.go:232-331, 485-607). */
module IndexRoundTrip {
  import opened Basics
  import opened Text
  import opened IndexCodec

  // --- dotted text ----------------------------------------------------------------

  predicate AreSubIds(subs: seq<nat>) { forall i | 0 <= i < |subs| :: subs[i] <= MAX_UINT32 }

  lemma {:induction false} DottedEndsInDigits(parts: seq<string>, sep: char)
    requires parts != [] && forall p | p in parts :: p != "" && !IsSpace(p[0]) && !IsSpace(p[|p| - 1])
    ensures var s := Join(parts, sep);
            s != "" && s[0] == parts[0][0] && !IsSpace(s[|s| - 1])
  {
    if |parts| > 1 {
      DottedEndsInDigits(parts[1..], sep);
    }
  }

  lemma NumbersAreDigits(subs: seq<nat>)
    ensures forall p | p in Numbers(subs) :: p != "" && AllDigits(p) && IsDigit(p[0]) && IsDigit(p[|p| - 1])
    ensures forall p | p in Numbers(subs) :: '.' !in p
  {
    forall p | p in Numbers(subs)
      ensures p != "" && AllDigits(p) && IsDigit(p[0]) && IsDigit(p[|p| - 1]) && '.' !in p
    {
      var i :| 0 <= i < |subs| && p == FormatUint(subs[i]);
      assert p[0] in p && p[|p| - 1] in p;
      assert forall c | c in p :: IsDigit(c);
    }
  }

  lemma {:induction false} NumbersParse(subs: seq<nat>)
    requires AreSubIds(subs)
    ensures AllSubIds(Numbers(subs)) == Some(subs)
  {
    if subs != [] {
      NumbersParse(subs[1..]);
      ParseUndoesFormat(subs[0]);
      assert Numbers(subs)[1..] == Numbers(subs[1..]);
      assert [subs[0]] + subs[1..] == subs;
    }
  }

  /** Reading the dotted text of sub-identifiers gives them back. */
  lemma DottedReadsBack(subs: seq<nat>)
    requires subs != [] && AreSubIds(subs)
    ensures ParseSubIds(Dotted(subs)) == Ok(subs)
  {
    var parts := Numbers(subs);
    NumbersAreDigits(subs);
    assert parts[0] in parts;
    DottedEndsInDigits(parts, '.');
    var s := Dotted(subs);
    assert TrimSpace(s) == s && TrimPrefix(s, '.') == s;
    SplitUndoesJoin(parts, '.');
    NumbersParse(subs);
  }

  lemma {:induction false} ParsedAreSubIds(fields: seq<string>)
    requires AllSubIds(fields).Some?
    ensures AreSubIds(AllSubIds(fields).value) && |AllSubIds(fields).value| == |fields|
  {
    if fields != [] {
      ParsedAreSubIds(fields[1..]);
    }
  }

  // --- one INDEX object --------------------------------------------------------------

  /** A payload encoding may hand to withLength: never empty, octets for a string,
      one number for everything that is not of variable length. */
  predicate WellFormed(kind: Kind, payload: seq<nat>) {
    && payload != [] && AreSubIds(payload) && !kind.Unindexable?
    && (kind.Octets? ==> AreOctets(payload))
    && (!IsVariable(kind) ==> |payload| == 1)
  }

  /** Whether a length is written for this object and does not fit what decoding
      accepts as a length. */
  predicate TooLongToRead(kind: Kind, implied: bool, payload: seq<nat>) {
    IsVariable(kind) && FixedOf(kind) < 0 && !implied && |payload| > MAX_INT32
  }

  predicate IsByteString(s: string) { forall i | 0 <= i < |s| :: s[i] as int <= 255 }

  lemma PayloadsAreWellFormed(kind: Kind, value: string)
    requires IsByteString(value) && PayloadOf(kind, value).Ok?
    ensures WellFormed(kind, PayloadOf(kind, value).value)
  {
    if kind.ObjectId? {
      var trimmed := TrimPrefix(TrimSpace(value), '.');
      ParsedAreSubIds(Split(trimmed, '.'));
    } else if kind.Octets? && !kind.isIpAddress && ParseHexOctets(value).None? {
      assert AreOctets(CharCodes(value));
    }
  }

  /** What is written for one object is read back as that object and nothing after it. */
  lemma FrameReadsBack(kind: Kind, payload: seq<nat>, implied: bool, rest: seq<nat>)
    requires WellFormed(kind, payload) && Frame(kind, payload, implied).Ok?
    requires implied ==> rest == []
    ensures var f := Frame(kind, payload, implied).value;
            DecodeOne(kind, f + rest, implied) ==
            if TooLongToRead(kind, implied, payload) then Err(LengthTooLarge)
            else Ok((Part(payload, Render(kind, payload)), |f|))
  {
    var f := Frame(kind, payload, implied).value;
    var subs := f + rest;
    if IsVariable(kind) {
      if FixedOf(kind) >= 0 || implied {
        assert subs[0..|payload|] == payload;
      } else {
        assert subs[1..1 + |payload|] == payload;
      }
    } else {
      assert subs[..1] == payload;
    }
  }

  // --- the whole INDEX -----------------------------------------------------------------

  function Payloads(kinds: seq<Kind>, values: seq<string>): seq<seq<nat>>
    requires |kinds| == |values|
  {
    seq(|kinds|, i requires 0 <= i < |kinds| =>
          match PayloadOf(kinds[i], TrimSpace(values[i])) case Ok(p) => p case Err(_) => [])
  }

  /** Every object whose value is read back, in order, as it was written. */
  ghost predicate ReadsBack(kinds: seq<Kind>, payloads: seq<seq<nat>>, decoded: Decoded) {
    && decoded.error.None?
    && |decoded.parts| == |kinds| == |payloads|
    && forall i | 0 <= i < |kinds| ::
         WellFormed(kinds[i], payloads[i]) && decoded.parts[i] == Part(payloads[i], Render(kinds[i], payloads[i]))
  }

  predicate AllReadable(kinds: seq<Kind>, tableImplied: bool, payloads: seq<seq<nat>>)
    requires |kinds| == |payloads|
  {
    forall i | 0 <= i < |kinds| :: !TooLongToRead(kinds[i], tableImplied && i == |kinds| - 1, payloads[i])
  }

  lemma TrimKeepsBytes(s: string)
    requires IsByteString(s)
    ensures IsByteString(TrimSpace(s))
  {
    LeftKeepsBytes(s);
    RightKeepsBytes(TrimLeft(s, IsSpace));
  }

  lemma {:induction false} LeftKeepsBytes(s: string)
    requires IsByteString(s)
    ensures IsByteString(TrimLeft(s, IsSpace))
  {
    if s != "" && IsSpace(s[0]) {
      LeftKeepsBytes(s[1..]);
    }
  }

  lemma {:induction false} RightKeepsBytes(s: string)
    requires IsByteString(s)
    ensures IsByteString(TrimRight(s, IsSpace))
  {
    if s != "" && IsSpace(s[|s| - 1]) {
      RightKeepsBytes(s[..|s| - 1]);
    }
  }

  lemma {:induction false} EncodedAreSubIds(kinds: seq<Kind>, tableImplied: bool, values: seq<string>)
    requires |kinds| == |values| && EncodeParts(kinds, tableImplied, values).Ok?
    requires forall v | v in values :: IsByteString(v)
    ensures var subs := EncodeParts(kinds, tableImplied, values).value;
            AreSubIds(subs) && (kinds != [] ==> subs != [])
  {
    if kinds != [] {
      assert values[0] in values;
      TrimKeepsBytes(values[0]);
      PayloadsAreWellFormed(kinds[0], TrimSpace(values[0]));
      EncodedAreSubIds(kinds[1..], tableImplied, values[1..]);
    }
  }

  /** Encoding takes its first object apart from the rest. */
  lemma EncodedOneMore(kinds: seq<Kind>, tableImplied: bool, values: seq<string>)
    requires |kinds| == |values| > 0 && EncodeParts(kinds, tableImplied, values).Ok?
    requires IsByteString(values[0])
    ensures var tail := EncodeParts(kinds[1..], tableImplied, values[1..]);
            var front := Frame(kinds[0], Payloads(kinds, values)[0], tableImplied && |kinds| == 1);
            && tail.Ok? && front.Ok? && EncodeParts(kinds, tableImplied, values).value == front.value + tail.value
            && (|kinds| == 1 ==> tail.value == [])
    ensures WellFormed(kinds[0], Payloads(kinds, values)[0])
  {
    hide PayloadOf, TrimSpace, Frame, IsByteString, WellFormed;
    TrimKeepsBytes(values[0]);
    PayloadsAreWellFormed(kinds[0], TrimSpace(values[0]));
  }

  lemma PayloadsSplit(kinds: seq<Kind>, values: seq<string>)
    requires |kinds| == |values| > 0
    ensures Payloads(kinds, values)[1..] == Payloads(kinds[1..], values[1..])
  {
    hide PayloadOf, TrimSpace;
  }

  lemma OneMoreReadsBack(kinds: seq<Kind>, payloads: seq<seq<nat>>, tail: Decoded)
    requires |kinds| == |payloads| > 0 && WellFormed(kinds[0], payloads[0])
    requires ReadsBack(kinds[1..], payloads[1..], tail)
    ensures ReadsBack(kinds, payloads, Decoded([Part(payloads[0], Render(kinds[0], payloads[0]))] + tail.parts, tail.error))
  {
    hide WellFormed, Render;
    forall i | 1 <= i < |kinds|
      ensures kinds[1..][i - 1] == kinds[i] && payloads[1..][i - 1] == payloads[i]
    {
    }
  }

  /** Decoding `subs` gives the payloads back exactly when every written length is readable. */
  ghost predicate Returns(kinds: seq<Kind>, tableImplied: bool, payloads: seq<seq<nat>>, subs: seq<nat>)
    requires |kinds| == |payloads|
  {
    var decoded := DecodeParts(kinds, tableImplied, subs);
    && (AllReadable(kinds, tableImplied, payloads) <==> decoded.error.None?)
    && (decoded.error.None? ==> ReadsBack(kinds, payloads, decoded))
  }

  lemma OneMoreReturns(kinds: seq<Kind>, tableImplied: bool, payloads: seq<seq<nat>>, rest: seq<nat>)
    requires |kinds| == |payloads| > 0 && WellFormed(kinds[0], payloads[0])
    requires Frame(kinds[0], payloads[0], tableImplied && |kinds| == 1).Ok?
    requires |kinds| == 1 ==> rest == []
    requires Returns(kinds[1..], tableImplied, payloads[1..], rest)
    ensures Returns(kinds, tableImplied, payloads,
                    Frame(kinds[0], payloads[0], tableImplied && |kinds| == 1).value + rest)
  {
    hide DecodeParts, Frame, TooLongToRead, WellFormed, Render, AllReadable, ReadsBack;
    AllReadableSplits(kinds, tableImplied, payloads);
    OneMorePart(kinds, tableImplied, payloads, rest);
    var tail := DecodeParts(kinds[1..], tableImplied, rest);
    if tail.error.None? {
      OneMoreReadsBack(kinds, payloads, tail);
    }
  }

  lemma {:induction false} PartsReadBack(kinds: seq<Kind>, tableImplied: bool, values: seq<string>)
    requires |kinds| == |values| && EncodeParts(kinds, tableImplied, values).Ok?
    requires forall v | v in values :: IsByteString(v)
    ensures Returns(kinds, tableImplied, Payloads(kinds, values), EncodeParts(kinds, tableImplied, values).value)
  {
    if kinds != [] {
      hide EncodeParts, Payloads, Frame, WellFormed, Returns, IsByteString;
      assert values[0] in values;
      EncodedOneMore(kinds, tableImplied, values);
      PayloadsSplit(kinds, values);
      PartsReadBack(kinds[1..], tableImplied, values[1..]);
      OneMoreReturns(kinds, tableImplied, Payloads(kinds, values),
                     EncodeParts(kinds[1..], tableImplied, values[1..]).value);
    }
  }

  lemma OneMorePart(kinds: seq<Kind>, tableImplied: bool, payloads: seq<seq<nat>>, rest: seq<nat>)
    requires |kinds| == |payloads| > 0 && WellFormed(kinds[0], payloads[0])
    requires Frame(kinds[0], payloads[0], tableImplied && |kinds| == 1).Ok?
    requires |kinds| == 1 ==> rest == []
    ensures var implied := tableImplied && |kinds| == 1;
            var decoded := DecodeParts(kinds, tableImplied, Frame(kinds[0], payloads[0], implied).value + rest);
            var tail := DecodeParts(kinds[1..], tableImplied, rest);
            if TooLongToRead(kinds[0], implied, payloads[0]) then decoded.error.Some?
            else decoded == Decoded([Part(payloads[0], Render(kinds[0], payloads[0]))] + tail.parts, tail.error)
  {
    var implied := tableImplied && |kinds| == 1;
    var f := Frame(kinds[0], payloads[0], implied).value;
    FrameReadsBack(kinds[0], payloads[0], implied, rest);
    assert (f + rest)[|f|..] == rest;
  }

  lemma AllReadableSplits(kinds: seq<Kind>, tableImplied: bool, payloads: seq<seq<nat>>)
    requires |kinds| == |payloads| > 0
    ensures AllReadable(kinds, tableImplied, payloads) <==>
            (!TooLongToRead(kinds[0], tableImplied && |kinds| == 1, payloads[0])
             && AllReadable(kinds[1..], tableImplied, payloads[1..]))
  {
    if AllReadable(kinds[1..], tableImplied, payloads[1..]) {
      forall i | 1 <= i < |kinds|
        ensures TooLongToRead(kinds[i], tableImplied && i == |kinds| - 1, payloads[i]) <==> false
      {
        assert kinds[1..][i - 1] == kinds[i] && payloads[1..][i - 1] == payloads[i];
      }
    }
    if AllReadable(kinds, tableImplied, payloads) {
      forall i | 0 <= i < |kinds| - 1
        ensures !TooLongToRead(kinds[1..][i], tableImplied && i == |kinds| - 2, payloads[1..][i])
      {
        assert kinds[1..][i] == kinds[i + 1] && payloads[1..][i] == payloads[i + 1];
      }
    }
  }

  /** Whatever encoding accepts, decoding the dotted result reads back exactly the same
      payload for each object with nothing left over, if and only if no length it had
      to write exceeds MaxInt32: encoding guards lengths at 2^32-1, decoding at 2^31-1. */
  lemma EncodedIndexReadsBack(kinds: seq<Kind>, tableImplied: bool, values: seq<string>)
    requires EncodeIndex(kinds, tableImplied, values).Ok?
    requires forall v | v in values :: IsByteString(v)
    ensures var decoded := DecodeInstance(kinds, tableImplied, EncodeIndex(kinds, tableImplied, values).value);
            && (decoded.error.None? <==> AllReadable(kinds, tableImplied, Payloads(kinds, values)))
            && (decoded.error.None? ==> ReadsBack(kinds, Payloads(kinds, values), decoded))
  {
    PartsReadBack(kinds, tableImplied, values);
    EncodedAreSubIds(kinds, tableImplied, values);
    DottedReadsBack(EncodeParts(kinds, tableImplied, values).value);
  }

  // --- a value too long to read back ---------------------------------------------------------

  function Letters(n: nat): string { seq(n, _ => 'a') }

  lemma LettersStay(n: nat)
    requires n > 0
    ensures TrimSpace(Letters(n)) == Letters(n) && IsByteString(Letters(n))
    ensures ParseHexOctets(Letters(n)) == None
    ensures |CharCodes(Letters(n))| == n
  {
    var s := Letters(n);
    assert s[0] == 'a' && s[n - 1] == 'a';
  }

  /** A text of n letters encodes while n is at most 2^32-1, and is not read back when n is
      above MaxInt32. */
  lemma LongTextIsNotReadBack(n: nat)
    requires MAX_INT32 < n <= MAX_UINT32
    ensures var kinds := [Octets(false, [])];
            var encoded := EncodeIndex(kinds, false, [Letters(n)]);
            encoded.Ok? && DecodeInstance(kinds, false, encoded.value).error.Some?
  {
    var kinds := [Octets(false, [])];
    var values := [Letters(n)];
    LettersStay(n);
    hide Letters, TrimSpace, ParseHexOctets, CharCodes, IsByteString, DecodeInstance, Dotted;
    LongTextEncodes(n);
    assert Payloads(kinds, values)[0] == CharCodes(Letters(n));
    assert TooLongToRead(kinds[0], false, Payloads(kinds, values)[0]);
    EncodedIndexReadsBack(kinds, false, values);
  }

  lemma LongTextEncodes(n: nat)
    requires 0 < n <= MAX_UINT32
    ensures EncodeIndex([Octets(false, [])], false, [Letters(n)]).Ok?
  {
    LettersStay(n);
    hide Letters, TrimSpace, ParseHexOctets, CharCodes, Dotted;
    assert EncodeOne(Octets(false, []), TrimSpace(Letters(n)), false).Ok?;
    assert [Letters(n)][1..] == [] && [Octets(false, [])][1..] == [];
    assert EncodeParts([], false, []) == Ok([]);
  }

  // --- and back: decoding is injective ------------------------------------------------

  /** Writing out again what was decoded. */
  function Reframe(kinds: seq<Kind>, tableImplied: bool, parts: seq<Part>): Result<seq<nat>>
    requires |kinds| == |parts|
  {
    if kinds == [] then Ok([])
    else match (Frame(kinds[0], parts[0].payload, tableImplied && |kinds| == 1),
                Reframe(kinds[1..], tableImplied, parts[1..]))
      case (Ok(front), Ok(rest)) => Ok(front + rest)
      case (Err(p), _) => Err(p)
      case (_, Err(p)) => Err(p)
  }

  lemma DecodedReframes(kind: Kind, subs: seq<nat>, implied: bool)
    requires DecodeOne(kind, subs, implied).Ok?
    ensures var (part, used) := DecodeOne(kind, subs, implied).value;
            Frame(kind, part.payload, implied) == Ok(subs[..used])
  {
    var (part, used) := DecodeOne(kind, subs, implied).value;
    if IsVariable(kind) && FixedOf(kind) < 0 && !implied {
      assert [subs[0]] + subs[1..used] == subs[..used];
    }
  }

  /** Decoding takes its first object apart from the rest. */
  lemma DecodedOneMore(kinds: seq<Kind>, tableImplied: bool, subs: seq<nat>)
    requires kinds != [] && DecodeParts(kinds, tableImplied, subs).error.None?
    ensures var first := DecodeOne(kinds[0], subs, tableImplied && |kinds| == 1);
            && first.Ok?
            && var tail := DecodeParts(kinds[1..], tableImplied, subs[first.value.1..]);
               DecodeParts(kinds, tableImplied, subs) == Decoded([first.value.0] + tail.parts, None) && tail.error.None?
  {
    hide DecodeOne;
  }

  ghost predicate Reframes(kinds: seq<Kind>, tableImplied: bool, subs: seq<nat>) {
    var decoded := DecodeParts(kinds, tableImplied, subs);
    |decoded.parts| == |kinds| && Reframe(kinds, tableImplied, decoded.parts) == Ok(subs)
  }

  lemma OneMoreReframes(kinds: seq<Kind>, tableImplied: bool, subs: seq<nat>, part: Part, used: nat)
    requires kinds != [] && DecodeParts(kinds, tableImplied, subs).error.None?
    requires DecodeOne(kinds[0], subs, tableImplied && |kinds| == 1) == Ok((part, used))
    requires used <= |subs| && Reframes(kinds[1..], tableImplied, subs[used..])
    ensures Reframes(kinds, tableImplied, subs)
  {
    hide DecodeParts, DecodeOne, Frame, Reframe;
    DecodedOneMore(kinds, tableImplied, subs);
    DecodedReframes(kinds[0], subs, tableImplied && |kinds| == 1);
    assert subs[..used] + subs[used..] == subs;
    ReframeOneMore(kinds, tableImplied, part, DecodeParts(kinds[1..], tableImplied, subs[used..]).parts,
                   subs[..used], subs[used..]);
  }

  lemma NothingReframes(tableImplied: bool, subs: seq<nat>)
    requires DecodeParts([], tableImplied, subs).error.None?
    ensures Reframes([], tableImplied, subs)
  {
  }

  lemma {:induction false} PartsReframe(kinds: seq<Kind>, tableImplied: bool, subs: seq<nat>)
    requires DecodeParts(kinds, tableImplied, subs).error.None?
    ensures Reframes(kinds, tableImplied, subs)
  {
    hide *;
    if kinds == [] {
      NothingReframes(tableImplied, subs);
    } else {
      DecodedOneMore(kinds, tableImplied, subs);
      var (part, used) := DecodeOne(kinds[0], subs, tableImplied && |kinds| == 1).value;
      PartsReframe(kinds[1..], tableImplied, subs[used..]);
      OneMoreReframes(kinds, tableImplied, subs, part, used);
    }
  }

  lemma ReframeOneMore(kinds: seq<Kind>, tableImplied: bool, part: Part, parts: seq<Part>,
                       front: seq<nat>, rest: seq<nat>)
    requires |kinds| == |parts| + 1
    requires Frame(kinds[0], part.payload, tableImplied && |kinds| == 1) == Ok(front)
    requires Reframe(kinds[1..], tableImplied, parts) == Ok(rest)
    ensures Reframe(kinds, tableImplied, [part] + parts) == Ok(front + rest)
  {
    hide Frame;
    assert ([part] + parts)[1..] == parts;
  }

  /** Every instance that decodes without an error re-frames to exactly the
      sub-identifiers it came from. */
  lemma DecodedInstanceReframes(kinds: seq<Kind>, tableImplied: bool, raw: string)
    requires DecodeInstance(kinds, tableImplied, raw).error.None?
    ensures var parts := DecodeInstance(kinds, tableImplied, raw).parts;
            |parts| == |kinds| && Reframe(kinds, tableImplied, parts) == ParseSubIds(raw)
  {
    PartsReframe(kinds, tableImplied, ParseSubIds(raw).value);
  }

  /** So no two rows of a table decode to the same values. */
  lemma DecodingIsInjective(kinds: seq<Kind>, tableImplied: bool, raw: string, other: string)
    requires DecodeInstance(kinds, tableImplied, raw).error.None?
    requires DecodeInstance(kinds, tableImplied, raw) == DecodeInstance(kinds, tableImplied, other)
    ensures ParseSubIds(raw) == ParseSubIds(other)
  {
    DecodedInstanceReframes(kinds, tableImplied, raw);
    DecodedInstanceReframes(kinds, tableImplied, other);
  }
}
