/** How an INDEX is laid out (section 7.7 of RFC 2578), object by object, as EncodeIndex writes
    it and decodeInstance accepts it (pkg/mib/table.go:232-356, 485-607). */
module IndexLayout {
  import opened Basics
  import opened Text
  import opened IndexCodec
  import opened IndexRoundTrip
  import opened IndexText

  /** The sub-identifiers of one object: a number alone; an address as its four octets; a string
      of one exact size as that many octets; the last object, when IMPLIED, as it is; any other
      string or identifier behind its length. */
  predicate LaidOut(kind: Kind, implied: bool, payload: seq<nat>, piece: seq<nat>) {
    match kind
    case Unindexable => false
    case Untyped => |payload| == 1 && piece == payload
    case Enumeration(_) => |payload| == 1 && piece == payload
    case Integer => |payload| == 1 && piece == payload
    case ObjectId => piece == if implied then payload else [|payload|] + payload
    case Octets(isIpAddress, ranges) =>
      if isIpAddress then |payload| == 4 && piece == payload
      else if OneExactSize(ranges) then |payload| == ranges[0].0 && piece == payload
      else piece == if implied then payload else [|payload|] + payload
  }

  /** SIZE(n): one range, from n to n, of a length that fits 31 bits. */
  predicate OneExactSize(ranges: seq<(int, int)>) {
    |ranges| == 1 && ranges[0].0 == ranges[0].1 && 0 <= ranges[0].0 <= 2147483647
  }

  /** Whether an object is written behind its length. */
  predicate HasLength(kind: Kind, implied: bool) {
    match kind
    case ObjectId => !implied
    case Octets(isIpAddress, ranges) => !isIpAddress && !OneExactSize(ranges) && !implied
    case _ => false
  }

  function Concat(pieces: seq<seq<nat>>): seq<nat> {
    if pieces == [] then [] else pieces[0] + Concat(pieces[1..])
  }

  /** Only the last object of a row can be IMPLIED. */
  ghost predicate RowLaidOut(kinds: seq<Kind>, tableImplied: bool, payloads: seq<seq<nat>>, pieces: seq<seq<nat>>) {
    && |kinds| == |payloads| == |pieces|
    && forall i | 0 <= i < |kinds| :: LaidOut(kinds[i], tableImplied && i == |kinds| - 1, payloads[i], pieces[i])
  }

  lemma RowSplits(kinds: seq<Kind>, tableImplied: bool, payloads: seq<seq<nat>>, pieces: seq<seq<nat>>)
    requires |kinds| == |payloads| == |pieces| > 0
    ensures RowLaidOut(kinds, tableImplied, payloads, pieces) <==>
            LaidOut(kinds[0], tableImplied && |kinds| == 1, payloads[0], pieces[0])
            && RowLaidOut(kinds[1..], tableImplied, payloads[1..], pieces[1..])
  {
    hide LaidOut;
    if RowLaidOut(kinds[1..], tableImplied, payloads[1..], pieces[1..]) {
      forall i | 1 <= i < |kinds|
        ensures kinds[1..][i - 1] == kinds[i] && payloads[1..][i - 1] == payloads[i] && pieces[1..][i - 1] == pieces[i]
        ensures LaidOut(kinds[i], tableImplied && i == |kinds| - 1, payloads[i], pieces[i])
      {
        assert LaidOut(kinds[1..][i - 1], tableImplied && i - 1 == |kinds[1..]| - 1, payloads[1..][i - 1], pieces[1..][i - 1]);
      }
    }
  }

  // --- what is written -----------------------------------------------------------------------

  /** Framing one object is laying it out, when its length fits what is written. */
  lemma FrameLaysOut(kind: Kind, implied: bool, payload: seq<nat>, piece: seq<nat>)
    requires !kind.Unindexable? && (kind.Untyped? || kind.Enumeration? || kind.Integer? ==> |payload| == 1)
    ensures Frame(kind, payload, implied) == Ok(piece) <==>
            LaidOut(kind, implied, payload, piece) && (HasLength(kind, implied) ==> |payload| <= 0xFFFF_FFFF)
  {
  }

  lemma PayloadKinds(kind: Kind, value: string)
    requires PayloadOf(kind, value).Ok?
    ensures !kind.Unindexable?
    ensures kind.Untyped? || kind.Enumeration? || kind.Integer? ==> |PayloadOf(kind, value).value| == 1
  {
    hide ParseSubIds, ParseHexOctets, ParseDottedQuad, CharCodes, ParseUint;
  }

  /** What each value of a row stands for, with its surrounding blanks dropped. */
  ghost predicate StandFor(kinds: seq<Kind>, values: seq<string>, payloads: seq<seq<nat>>) {
    && |kinds| == |values| == |payloads|
    && forall i | 0 <= i < |kinds| :: PayloadOf(kinds[i], TrimSpace(values[i])) == Ok(payloads[i])
  }

  ghost predicate LengthsFit(kinds: seq<Kind>, tableImplied: bool, payloads: seq<seq<nat>>, max: nat)
    requires |kinds| == |payloads|
  {
    forall i | 0 <= i < |kinds| :: HasLength(kinds[i], tableImplied && i == |kinds| - 1) ==> |payloads[i]| <= max
  }

  lemma LengthsSplit(kinds: seq<Kind>, tableImplied: bool, payloads: seq<seq<nat>>, max: nat)
    requires |kinds| == |payloads| > 0
    ensures LengthsFit(kinds, tableImplied, payloads, max) <==>
            (HasLength(kinds[0], tableImplied && |kinds| == 1) ==> |payloads[0]| <= max)
            && LengthsFit(kinds[1..], tableImplied, payloads[1..], max)
  {
    hide HasLength;
    forall i | 1 <= i < |kinds|
      ensures kinds[1..][i - 1] == kinds[i] && payloads[1..][i - 1] == payloads[i]
      ensures (tableImplied && i == |kinds| - 1) == (tableImplied && i - 1 == |kinds[1..]| - 1)
    {
    }
    if LengthsFit(kinds[1..], tableImplied, payloads[1..], max) {
      forall i | 1 <= i < |kinds| && HasLength(kinds[i], tableImplied && i == |kinds| - 1)
        ensures |payloads[i]| <= max
      {
        assert HasLength(kinds[1..][i - 1], tableImplied && i - 1 == |kinds[1..]| - 1);
      }
    }
  }

  ghost predicate Writes(kinds: seq<Kind>, tableImplied: bool, values: seq<string>, subs: seq<nat>,
                         payloads: seq<seq<nat>>, pieces: seq<seq<nat>>) {
    && StandFor(kinds, values, payloads) && RowLaidOut(kinds, tableImplied, payloads, pieces)
    && LengthsFit(kinds, tableImplied, payloads, 0xFFFF_FFFF) && subs == Concat(pieces)
  }

  lemma StandForSplits(kinds: seq<Kind>, values: seq<string>, payloads: seq<seq<nat>>)
    requires |kinds| == |values| == |payloads| > 0
    ensures StandFor(kinds, values, payloads) <==>
            PayloadOf(kinds[0], TrimSpace(values[0])) == Ok(payloads[0])
            && StandFor(kinds[1..], values[1..], payloads[1..])
  {
    hide PayloadOf, TrimSpace;
    if StandFor(kinds[1..], values[1..], payloads[1..]) {
      forall i | 1 <= i < |kinds|
        ensures PayloadOf(kinds[i], TrimSpace(values[i])) == Ok(payloads[i])
      {
        assert PayloadOf(kinds[1..][i - 1], TrimSpace(values[1..][i - 1])) == Ok(payloads[1..][i - 1]);
      }
    }
  }

  lemma WritesSplits(kinds: seq<Kind>, tableImplied: bool, values: seq<string>, payloads: seq<seq<nat>>,
                     pieces: seq<seq<nat>>)
    requires |kinds| == |values| == |payloads| == |pieces| > 0
    ensures Writes(kinds, tableImplied, values, Concat(pieces), payloads, pieces) <==>
            PayloadOf(kinds[0], TrimSpace(values[0])) == Ok(payloads[0])
            && Frame(kinds[0], payloads[0], tableImplied && |kinds| == 1) == Ok(pieces[0])
            && Writes(kinds[1..], tableImplied, values[1..], Concat(pieces[1..]), payloads[1..], pieces[1..])
  {
    hide PayloadOf, TrimSpace, Frame, LaidOut, HasLength, StandFor, RowLaidOut, LengthsFit;
    StandForSplits(kinds, values, payloads);
    RowSplits(kinds, tableImplied, payloads, pieces);
    LengthsSplit(kinds, tableImplied, payloads, 0xFFFF_FFFF);
    var first := PayloadOf(kinds[0], TrimSpace(values[0]));
    if first == Ok(payloads[0]) {
      PayloadKinds(kinds[0], TrimSpace(values[0]));
      FrameLaysOut(kinds[0], tableImplied && |kinds| == 1, payloads[0], pieces[0]);
    }
  }

  lemma {:induction false} EncodedIsLaidOut(kinds: seq<Kind>, tableImplied: bool, values: seq<string>)
    returns (payloads: seq<seq<nat>>, pieces: seq<seq<nat>>)
    requires |kinds| == |values| && EncodeParts(kinds, tableImplied, values).Ok?
    ensures Writes(kinds, tableImplied, values, EncodeParts(kinds, tableImplied, values).value, payloads, pieces)
  {
    hide PayloadOf, TrimSpace, Frame, Writes;
    if kinds == [] {
      payloads, pieces := [], [];
      NothingWrites(tableImplied);
    } else {
      var p, q := EncodedIsLaidOut(kinds[1..], tableImplied, values[1..]);
      payloads := [PayloadOf(kinds[0], TrimSpace(values[0])).value] + p;
      pieces := [Frame(kinds[0], payloads[0], tableImplied && |kinds| == 1).value] + q;
      WritesHolds(kinds[1..], tableImplied, values[1..], EncodeParts(kinds[1..], tableImplied, values[1..]).value, p, q);
      assert payloads[1..] == p && pieces[1..] == q;
      WritesSplits(kinds, tableImplied, values, payloads, pieces);
    }
  }

  lemma NothingWrites(tableImplied: bool)
    ensures Writes([], tableImplied, [], [], [], [])
  {
  }

  lemma WritesHolds(kinds: seq<Kind>, tableImplied: bool, values: seq<string>, subs: seq<nat>,
                    payloads: seq<seq<nat>>, pieces: seq<seq<nat>>)
    requires Writes(kinds, tableImplied, values, subs, payloads, pieces)
    ensures |kinds| == |values| == |payloads| == |pieces| && subs == Concat(pieces)
  {
  }

  lemma {:induction false} LaidOutIsEncoded(kinds: seq<Kind>, tableImplied: bool, values: seq<string>,
                                            payloads: seq<seq<nat>>, pieces: seq<seq<nat>>)
    requires |kinds| == |values| && Writes(kinds, tableImplied, values, Concat(pieces), payloads, pieces)
    ensures EncodeParts(kinds, tableImplied, values) == Ok(Concat(pieces))
  {
    hide PayloadOf, TrimSpace, Frame, Writes;
    WritesHolds(kinds, tableImplied, values, Concat(pieces), payloads, pieces);
    if kinds != [] {
      WritesSplits(kinds, tableImplied, values, payloads, pieces);
      LaidOutIsEncoded(kinds[1..], tableImplied, values[1..], payloads[1..], pieces[1..]);
    }
  }

  /** For every row, EncodeIndex answers a dotted text if and only if it is that of the layout of
      what the values stand for, no length passing 32 bits; nothing else is ever written. */
  lemma EncodeIndexLaysOut(kinds: seq<Kind>, tableImplied: bool, values: seq<string>, text: string)
    requires |kinds| == |values| > 0
    ensures EncodeIndex(kinds, tableImplied, values) == Ok(text) <==>
            exists payloads, pieces ::
              Writes(kinds, tableImplied, values, Concat(pieces), payloads, pieces) && text == Dotted(Concat(pieces))
  {
    hide EncodeParts, Writes, Dotted;
    if EncodeIndex(kinds, tableImplied, values) == Ok(text) {
      var payloads, pieces := EncodedIsLaidOut(kinds, tableImplied, values);
      WritesHolds(kinds, tableImplied, values, EncodeParts(kinds, tableImplied, values).value, payloads, pieces);
    }
    if payloads, pieces :|
      Writes(kinds, tableImplied, values, Concat(pieces), payloads, pieces) && text == Dotted(Concat(pieces))
    {
      LaidOutIsEncoded(kinds, tableImplied, values, payloads, pieces);
    }
  }

  // --- what is accepted ------------------------------------------------------------------------

  predicate HoldsOctets(kind: Kind, payload: seq<nat>) {
    kind.Octets? ==> forall i | 0 <= i < |payload| :: payload[i] <= 255
  }

  /** The sub-identifiers are the layout of these payloads; strings are octets, no length passes
      31 bits, and the last object is not empty. */
  ghost predicate Accepted(kinds: seq<Kind>, tableImplied: bool, subs: seq<nat>,
                           payloads: seq<seq<nat>>, pieces: seq<seq<nat>>) {
    && RowLaidOut(kinds, tableImplied, payloads, pieces) && subs == Concat(pieces)
    && LengthsFit(kinds, tableImplied, payloads, 0x7FFF_FFFF)
    && (forall i | 0 <= i < |kinds| :: HoldsOctets(kinds[i], payloads[i]))
    && (pieces != [] ==> pieces[|pieces| - 1] != [])
  }

  /** Whether an object takes all that is left. */
  predicate TakesTheRest(kind: Kind, implied: bool) {
    match kind
    case ObjectId => implied
    case Octets(isIpAddress, ranges) => !isIpAddress && !OneExactSize(ranges) && implied
    case _ => false
  }

  ghost predicate StandsInFront(kind: Kind, implied: bool, subs: seq<nat>, part: Part, used: nat)
    requires used <= |subs|
  {
    && subs != [] && LaidOut(kind, implied, part.payload, subs[..used]) && HoldsOctets(kind, part.payload)
    && (HasLength(kind, implied) ==> |part.payload| <= 0x7FFF_FFFF)
    && (TakesTheRest(kind, implied) ==> used == |subs|)
    && part.display == Render(kind, part.payload)
  }

  lemma NumberIsRead(kind: Kind, implied: bool, subs: seq<nat>, part: Part, used: nat)
    requires used <= |subs| && !kind.ObjectId? && !kind.Octets?
    ensures DecodeOne(kind, subs, implied) == Ok((part, used)) <==> StandsInFront(kind, implied, subs, part, used)
  {
    hide Render;
  }

  lemma IdentifierIsRead(implied: bool, subs: seq<nat>, part: Part, used: nat)
    requires used <= |subs|
    ensures DecodeOne(ObjectId, subs, implied) == Ok((part, used)) <==> StandsInFront(ObjectId, implied, subs, part, used)
  {
    hide Render;
    LengthedIs(subs, part.payload, used);
  }

  lemma SizeIs(kind: Kind)
    requires kind.Octets?
    ensures FixedOf(kind) == if kind.isIpAddress then 4 else if OneExactSize(kind.ranges) then kind.ranges[0].0 else -1
    ensures OneExactSize(kind.ranges) ==> kind.ranges[0].0 >= 0
  {
  }

  lemma OctetsAreRead(kind: Kind, implied: bool, subs: seq<nat>, part: Part, used: nat)
    requires used <= |subs| && kind.Octets?
    ensures DecodeOne(kind, subs, implied) == Ok((part, used)) <==> StandsInFront(kind, implied, subs, part, used)
  {
    hide Render, FixedOf, OneExactSize, AreOctets;
    SizeIs(kind);
    OctetsAlike(part.payload);
    if FixedOf(kind) >= 0 || implied {
      assert subs[0..used] == subs[..used];
    } else {
      LengthedIs(subs, part.payload, used);
    }
  }

  lemma OctetsAlike(payload: seq<nat>)
    ensures AreOctets(payload) <==> forall i | 0 <= i < |payload| :: payload[i] <= 255
  {
  }

  lemma LengthedIs(subs: seq<nat>, payload: seq<nat>, used: nat)
    requires used <= |subs|
    ensures subs[..used] == [|payload|] + payload <==>
            used == |payload| + 1 && subs[0] == |payload| && subs[1..used] == payload
  {
    if subs[..used] == [|payload|] + payload {
      assert subs[1..used] == subs[..used][1..] == payload;
      assert subs[0] == subs[..used][0];
    }
  }

  /** One object is read off the front exactly when its layout stands there. */
  lemma OneIsReadExactly(kind: Kind, implied: bool, subs: seq<nat>, part: Part, used: nat)
    requires used <= |subs|
    ensures DecodeOne(kind, subs, implied) == Ok((part, used)) <==> StandsInFront(kind, implied, subs, part, used)
  {
    hide DecodeOne, StandsInFront;
    match kind {
      case ObjectId => IdentifierIsRead(implied, subs, part, used);
      case Octets(_, _) => OctetsAreRead(kind, implied, subs, part, used);
      case _ => NumberIsRead(kind, implied, subs, part, used);
    }
  }

  lemma AcceptedSplits(kinds: seq<Kind>, tableImplied: bool, payloads: seq<seq<nat>>, pieces: seq<seq<nat>>)
    requires |kinds| == |payloads| == |pieces| > 0
    ensures Accepted(kinds, tableImplied, Concat(pieces), payloads, pieces) <==>
            && LaidOut(kinds[0], tableImplied && |kinds| == 1, payloads[0], pieces[0])
            && HoldsOctets(kinds[0], payloads[0])
            && (HasLength(kinds[0], tableImplied && |kinds| == 1) ==> |payloads[0]| <= 0x7FFF_FFFF)
            && (|kinds| == 1 ==> pieces[0] != [])
            && Accepted(kinds[1..], tableImplied, Concat(pieces[1..]), payloads[1..], pieces[1..])
  {
    hide LaidOut, HasLength, HoldsOctets, RowLaidOut, LengthsFit;
    RowSplits(kinds, tableImplied, payloads, pieces);
    LengthsSplit(kinds, tableImplied, payloads, 0x7FFF_FFFF);
    forall i | 1 <= i < |kinds|
      ensures HoldsOctets(kinds[i], payloads[i]) == HoldsOctets(kinds[1..][i - 1], payloads[1..][i - 1])
    {
    }
    assert |kinds| > 1 ==> pieces[1..][|pieces| - 2] == pieces[|pieces| - 1];
    assert (forall i | 0 <= i < |kinds| :: HoldsOctets(kinds[i], payloads[i])) <==>
           HoldsOctets(kinds[0], payloads[0]) && forall i | 0 <= i < |kinds[1..]| :: HoldsOctets(kinds[1..][i], payloads[1..][i]) by {
      if forall i | 0 <= i < |kinds[1..]| :: HoldsOctets(kinds[1..][i], payloads[1..][i]) {
        forall i | 1 <= i < |kinds|
          ensures HoldsOctets(kinds[i], payloads[i])
        {
          assert HoldsOctets(kinds[1..][i - 1], payloads[1..][i - 1]);
        }
      }
    }
  }

  lemma {:induction false} LastIsInConcat(pieces: seq<seq<nat>>)
    requires pieces != [] && pieces[|pieces| - 1] != []
    ensures Concat(pieces) != []
  {
    if |pieces| > 1 {
      assert pieces[1..][|pieces| - 2] == pieces[|pieces| - 1];
      LastIsInConcat(pieces[1..]);
    }
  }

  lemma AcceptedHolds(kinds: seq<Kind>, tableImplied: bool, subs: seq<nat>, payloads: seq<seq<nat>>, pieces: seq<seq<nat>>)
    requires Accepted(kinds, tableImplied, subs, payloads, pieces)
    ensures |kinds| == |payloads| == |pieces| && subs == Concat(pieces)
    ensures kinds != [] ==> pieces[|pieces| - 1] != []
  {
  }

  ghost predicate PartsAre(kinds: seq<Kind>, payloads: seq<seq<nat>>, decoded: Decoded) {
    && decoded.error.None? && |decoded.parts| == |kinds| == |payloads|
    && forall i | 0 <= i < |kinds| ::
         HoldsOctets(kinds[i], payloads[i])
         && (!kinds[i].Octets? && !kinds[i].ObjectId? ==> payloads[i] != [])
         && decoded.parts[i] == Part(payloads[i], Render(kinds[i], payloads[i]))
  }

  lemma OnePartMore(kinds: seq<Kind>, payloads: seq<seq<nat>>, tail: Decoded)
    requires |kinds| == |payloads| > 0 && PartsAre(kinds[1..], payloads[1..], tail)
    requires HoldsOctets(kinds[0], payloads[0]) && (!kinds[0].Octets? && !kinds[0].ObjectId? ==> payloads[0] != [])
    ensures PartsAre(kinds, payloads, Decoded([Part(payloads[0], Render(kinds[0], payloads[0]))] + tail.parts, None))
  {
    hide HoldsOctets, Render;
    forall i | 1 <= i < |kinds|
      ensures kinds[1..][i - 1] == kinds[i] && payloads[1..][i - 1] == payloads[i]
    {
    }
  }

  lemma {:induction false} AcceptedIsDecoded(kinds: seq<Kind>, tableImplied: bool, subs: seq<nat>,
                                             payloads: seq<seq<nat>>, pieces: seq<seq<nat>>)
    requires Accepted(kinds, tableImplied, subs, payloads, pieces)
    ensures PartsAre(kinds, payloads, DecodeParts(kinds, tableImplied, subs))
  {
    hide Accepted, DecodeOne, LaidOut, PartsAre;
    AcceptedHolds(kinds, tableImplied, subs, payloads, pieces);
    if kinds == [] {
      NoPart(tableImplied);
    } else {
      AcceptedSplits(kinds, tableImplied, payloads, pieces);
      LastIsInConcat(pieces);
      AcceptedHolds(kinds[1..], tableImplied, Concat(pieces[1..]), payloads[1..], pieces[1..]);
      AcceptedIsDecoded(kinds[1..], tableImplied, Concat(pieces[1..]), payloads[1..], pieces[1..]);
      var used := |pieces[0]|;
      assert |kinds| == 1 ==> Concat(pieces[1..]) == [];
      assert subs[..used] == pieces[0] && subs[used..] == Concat(pieces[1..]);
      PayloadIsThere(kinds[0], tableImplied && |kinds| == 1, payloads[0], pieces[0]);
      var part := Part(payloads[0], Render(kinds[0], payloads[0]));
      OneIsReadExactly(kinds[0], tableImplied && |kinds| == 1, subs, part, used);
      PartsHaveNoError(kinds[1..], payloads[1..], DecodeParts(kinds[1..], tableImplied, Concat(pieces[1..])));
      OnePartMore(kinds, payloads, DecodeParts(kinds[1..], tableImplied, Concat(pieces[1..])));
    }
  }

  lemma NoPart(tableImplied: bool)
    ensures PartsAre([], [], DecodeParts([], tableImplied, []))
  {
  }

  lemma PayloadIsThere(kind: Kind, implied: bool, payload: seq<nat>, piece: seq<nat>)
    requires LaidOut(kind, implied, payload, piece)
    ensures !kind.Octets? && !kind.ObjectId? ==> payload != []
    ensures TakesTheRest(kind, implied) ==> implied
  {
  }

  lemma {:induction false} DecodedIsAccepted(kinds: seq<Kind>, tableImplied: bool, subs: seq<nat>)
    returns (payloads: seq<seq<nat>>, pieces: seq<seq<nat>>)
    requires DecodeParts(kinds, tableImplied, subs).error.None?
    ensures Accepted(kinds, tableImplied, subs, payloads, pieces)
  {
    hide Accepted, DecodeOne, LaidOut;
    if kinds == [] {
      payloads, pieces := [], [];
      NothingAccepted(tableImplied);
    } else {
      DecodedOneMore(kinds, tableImplied, subs);
      var (part, used) := DecodeOne(kinds[0], subs, tableImplied && |kinds| == 1).value;
      var p, q := DecodedIsAccepted(kinds[1..], tableImplied, subs[used..]);
      AcceptedHolds(kinds[1..], tableImplied, subs[used..], p, q);
      OneIsReadExactly(kinds[0], tableImplied && |kinds| == 1, subs, part, used);
      payloads, pieces := [part.payload] + p, [subs[..used]] + q;
      assert payloads[1..] == p && pieces[1..] == q && subs[..used] + subs[used..] == subs;
      assert |kinds| == 1 ==> q == [] && Concat(q) == [] && subs[..used] == subs;
      AcceptedSplits(kinds, tableImplied, payloads, pieces);
    }
  }

  lemma NothingAccepted(tableImplied: bool)
    ensures Accepted([], tableImplied, [], [], [])
  {
  }

  /** For every row, decodeInstance answers without an error if and only if the instance is the
      layout of some payloads, and then its parts are these. */
  lemma DecodeInstanceAcceptsLayouts(kinds: seq<Kind>, tableImplied: bool, raw: string)
    requires kinds != []
    ensures var decoded := DecodeInstance(kinds, tableImplied, raw);
            var subs := ParseSubIds(raw);
            && (decoded.error.None? <==>
                  subs.Ok? && exists payloads, pieces :: Accepted(kinds, tableImplied, subs.value, payloads, pieces))
            && (forall payloads, pieces | subs.Ok? && Accepted(kinds, tableImplied, subs.value, payloads, pieces) ::
                  PartsAre(kinds, payloads, decoded))
  {
    hide ParseSubIds, DecodeParts, Accepted, PartsAre;
    var subs := ParseSubIds(raw);
    if subs.Ok? {
      forall payloads, pieces | Accepted(kinds, tableImplied, subs.value, payloads, pieces)
        ensures PartsAre(kinds, payloads, DecodeInstance(kinds, tableImplied, raw))
        ensures DecodeInstance(kinds, tableImplied, raw).error.None?
      {
        AcceptedIsDecoded(kinds, tableImplied, subs.value, payloads, pieces);
        PartsHaveNoError(kinds, payloads, DecodeParts(kinds, tableImplied, subs.value));
      }
      if DecodeInstance(kinds, tableImplied, raw).error.None? {
        var payloads, pieces := DecodedIsAccepted(kinds, tableImplied, subs.value);
      }
    }
  }

  lemma PartsHaveNoError(kinds: seq<Kind>, payloads: seq<seq<nat>>, decoded: Decoded)
    requires PartsAre(kinds, payloads, decoded)
    ensures decoded.error.None?
  {
  }

  // --- an address, typed and read ----------------------------------------------------------------

  lemma OneAlone(kind: Kind, tableImplied: bool, payload: seq<nat>)
    requires LaidOut(kind, tableImplied, payload, payload) && !HasLength(kind, tableImplied)
    ensures RowLaidOut([kind], tableImplied, [payload], [payload]) && Concat([payload]) == payload
    ensures LengthsFit([kind], tableImplied, [payload], 0xFFFF_FFFF) && LengthsFit([kind], tableImplied, [payload], 0x7FFF_FFFF)
  {
    assert [payload][1..] == [];
    assert payload + [] == payload;
  }

  /** An address takes its four octets and no length, typed or read. */
  lemma AddressesHaveNoLength(b: seq<nat>, ranges: seq<(int, int)>, tableImplied: bool)
    requires |b| == 4 && forall i | 0 <= i < 4 :: b[i] <= 255
    ensures EncodeIndex([Octets(true, ranges)], tableImplied, [Dotted(b)]) == Ok(Dotted(b))
    ensures DecodeInstance([Octets(true, ranges)], tableImplied, Dotted(b)) == Decoded([Part(b, Dotted(b))], None)
  {
    var kind := Octets(true, ranges);
    QuadReadsBack(b);
    DottedReadsBack(b);
    OneAlone(kind, tableImplied, b);
    assert PayloadOf(kind, TrimSpace(Dotted(b))) == Ok(b);
    assert Render(kind, b) == Dotted(b);
    hide PayloadOf, TrimSpace, Dotted, ParseSubIds, Render, LaidOut, RowLaidOut, LengthsFit, DecodeInstance, EncodeIndex;
    assert Writes([kind], tableImplied, [Dotted(b)], Concat([b]), [b], [b]);
    EncodeIndexLaysOut([kind], tableImplied, [Dotted(b)], Dotted(b));
    assert Accepted([kind], tableImplied, b, [b], [b]);
    DecodeInstanceAcceptsLayouts([kind], tableImplied, Dotted(b));
    var decoded := DecodeInstance([kind], tableImplied, Dotted(b));
    assert PartsAre([kind], [b], decoded);
    assert decoded.parts == [decoded.parts[0]];
  }

  // --- an enumeration, typed and read ------------------------------------------------------------

  /** A label is typed for its value, in thirty-two bits; text that is no label is a number or
      nothing; and a value is shown as its label with the number behind it. */
  lemma LabelsStandForTheirValues(labels: Labels, text: string, tableImplied: bool)
    requires StartsAndEndsSolid(text)
    ensures var typed := EncodeIndex([Enumeration(Some(labels))], tableImplied, [text]);
            match labels.valueOf(text)
            case Some(v) => typed == Ok(Dotted([v % 0x1_0000_0000]))
            case None => typed == if ParseUint(text, 0xFFFF_FFFF).Some?
                                  then Ok(Dotted([ParseUint(text, 0xFFFF_FFFF).value])) else Err(NotANumber)
  {
    OuterBlanksGo("", text, "");
    assert "" + text + "" == text;
    hide ParseUint, TrimSpace, Dotted;
    assert [text][1..] == [] && [Enumeration(Some(labels))][1..] == [];
    assert EncodeParts([], tableImplied, []) == Ok([]);
    var kind := Enumeration(Some(labels));
    var one := EncodeOne(kind, TrimSpace(text), tableImplied);
    assert one.Ok? ==> EncodeParts([kind], tableImplied, [text]) == Ok(one.value + []);
    assert one.Ok? ==> one.value + [] == one.value;
  }

  lemma ValuesAreShownWithTheirLabel(labels: Labels, v: nat, tableImplied: bool)
    requires v <= 0xFFFF_FFFF
    ensures DecodeInstance([Enumeration(Some(labels))], tableImplied, FormatUint(v))
         == Decoded([Part([v], labels.nameOf(v) + "(" + FormatUint(v) + ")")], None)
  {
    DottedReadsBack([v]);
    assert Numbers([v]) == [FormatUint(v)] && Dotted([v]) == FormatUint(v);
    hide ParseSubIds, FormatUint, Dotted;
    assert [v][1..] == [] && [Enumeration(Some(labels))][1..] == [];
    assert DecodeParts([], tableImplied, []) == Decoded([], None);
    assert [v][..1] == [v];
  }

  // --- what is shown of octets -------------------------------------------------------------------

  /** The two characters are the lower-case hex digits of b. */
  predicate AreHexDigits(high: char, low: char, b: nat) {
    b <= 255 && high == "0123456789abcdef"[b / 16] && low == "0123456789abcdef"[b % 16]
  }

  lemma HexPairIs(b: nat)
    requires b <= 255
    ensures AreHexDigits(HexPair(b)[0], HexPair(b)[1], b)
  {
  }

  lemma PairsStart(b: seq<nat>)
    requires AreOctets(b) && b != []
    ensures Join(Pairs(b), ':') == HexPair(b[0]) + if |b| == 1 then "" else [':'] + Join(Pairs(b[1..]), ':')
  {
    assert Pairs(b)[1..] == Pairs(b[1..]);
  }

  lemma {:induction false} PairsStandApart(b: seq<nat>, i: nat)
    requires AreOctets(b) && i < |b|
    ensures |Join(Pairs(b), ':')| == 3 * |b| - 1
    ensures AreHexDigits(Join(Pairs(b), ':')[3 * i], Join(Pairs(b), ':')[3 * i + 1], b[i])
    ensures i < |b| - 1 ==> Join(Pairs(b), ':')[3 * i + 2] == ':'
  {
    hide Join, Pairs, HexPair, AreHexDigits;
    PairsStart(b);
    HexPairIs(b[0]);
    if |b| > 1 {
      PairsStandApart(b[1..], if i == 0 then 0 else i - 1);
    }
  }

  /** Text is shown as text: at least one octet, each from the blank to the tilde. Other strings
      are shown as lower-case hex pairs between colons, and addresses as dotted numbers. */
  lemma OctetsShown(b: seq<nat>, i: nat)
    requires AreOctets(b) && i < |b|
    ensures var s := RenderOctets(false, b);
            if forall k | 0 <= k < |b| :: 32 <= b[k] <= 126 then |s| == |b| && s[i] as int == b[i]
            else && |s| == 3 * |b| - 1 && AreHexDigits(s[3 * i], s[3 * i + 1], b[i])
                 && (i < |b| - 1 ==> s[3 * i + 2] == ':')
    ensures |b| == 4 ==> RenderOctets(true, b) == Dotted(b)
  {
    PairsStandApart(b, i);
  }

  // --- hex as it may be typed ----------------------------------------------------------------------

  /** The character is the hex digit d, in either case. */
  predicate IsHexDigit(c: char, d: nat) { d < 16 && (c == "0123456789abcdef"[d] || c == "0123456789ABCDEF"[d]) }

  predicate IsTypedPair(p: string, b: nat) {
    |p| == 2 && b <= 255 && IsHexDigit(p[0], b / 16) && IsHexDigit(p[1], b % 16)
  }

  lemma HexValueIs(c: char, d: nat)
    requires d < 16
    ensures HexValue(c) == Some(d) <==> IsHexDigit(c, d)
  {
  }

  lemma PairParsesExactly(p: string, b: nat)
    requires b <= 255
    ensures ParsePair(p) == Some(b) <==> IsTypedPair(p, b)
  {
    hide IsHexDigit, HexValue;
    if |p| == 2 {
      HexValueIs(p[0], b / 16);
      HexValueIs(p[1], b % 16);
      if ParsePair(p) == Some(b) {
        HexValuesAreSmall(p[0]);
        HexValuesAreSmall(p[1]);
      }
    }
  }

  lemma HexValuesAreSmall(c: char)
    ensures HexValue(c).Some? ==> HexValue(c).value < 16
  {
  }

  lemma {:induction false} PairsParseExactly(parts: seq<string>, b: seq<nat>)
    requires AreOctets(b)
    ensures AllPairs(parts) == Some(b) <==> |parts| == |b| && forall i | 0 <= i < |b| :: IsTypedPair(parts[i], b[i])
  {
    hide IsTypedPair, ParsePair;
    if parts != [] && b != [] {
      PairParsesExactly(parts[0], b[0]);
      PairsParseExactly(parts[1..], b[1..]);
      assert [b[0]] + b[1..] == b;
      if |parts| == |b| && forall i | 0 <= i < |b| :: IsTypedPair(parts[i], b[i]) {
        assert forall i | 0 <= i < |b| - 1 :: parts[1..][i] == parts[i + 1] && b[1..][i] == b[i + 1];
      }
      if |parts| == |b| && IsTypedPair(parts[0], b[0]) && forall i | 0 <= i < |b| - 1 :: IsTypedPair(parts[1..][i], b[1..][i]) {
        forall i | 1 <= i < |b|
          ensures IsTypedPair(parts[i], b[i])
        {
          assert IsTypedPair(parts[1..][i - 1], b[1..][i - 1]);
        }
      }
    }
  }

  lemma HexDigitsAreNoSeparators(c: char, d: nat)
    requires IsHexDigit(c, d)
    ensures c != ':' && c != '-'
  {
  }

  lemma TypedPairHoldsNoSeparator(p: string, b: nat)
    requires IsTypedPair(p, b)
    ensures ':' !in p && '-' !in p
  {
    hide IsHexDigit;
    HexDigitsAreNoSeparators(p[0], b / 16);
    HexDigitsAreNoSeparators(p[1], b % 16);
    assert p == [p[0], p[1]];
  }

  lemma TypedPairsHoldNoSeparator(parts: seq<string>, b: seq<nat>)
    requires |parts| == |b| && forall i | 0 <= i < |b| :: IsTypedPair(parts[i], b[i])
    ensures forall p | p in parts :: ':' !in p && '-' !in p
    ensures AreOctets(b)
  {
    hide IsHexDigit;
    forall p | p in parts
      ensures ':' !in p && '-' !in p
    {
      var i :| 0 <= i < |parts| && parts[i] == p;
      TypedPairHoldsNoSeparator(p, b[i]);
    }
    forall i | 0 <= i < |b|
      ensures b[i] <= 255
    {
      assert IsTypedPair(parts[i], b[i]);
    }
  }

  /** Two or more pairs of hex digits in either case, all between colons or all between hyphens,
      are typed octets. */
  lemma TypedHexIsRead(parts: seq<string>, b: seq<nat>, sep: char)
    requires |parts| == |b| >= 2 && (sep == ':' || sep == '-')
    requires forall i | 0 <= i < |b| :: IsTypedPair(parts[i], b[i])
    ensures ParseHexOctets(Join(parts, sep)) == Some(b)
  {
    hide IsTypedPair, AllPairs, Join, Split;
    TypedPairsHoldNoSeparator(parts, b);
    PairsParseExactly(parts, b);
    SplitUndoesJoin(parts, sep);
    JoinHolds(parts, sep);
  }

  lemma {:induction false} JoinHolds(parts: seq<string>, sep: char)
    requires |parts| >= 2
    ensures sep in Join(parts, sep)
    ensures forall c: char | c != sep && (forall p | p in parts :: c !in p) :: c !in Join(parts, sep)
  {
    var s := parts[0] + [sep] + Join(parts[1..], sep);
    assert s[|parts[0]|] == sep;
    assert parts[0] in parts && forall p | p in parts[1..] :: p in parts;
    if |parts| > 2 {
      JoinHolds(parts[1..], sep);
    } else {
      assert Join(parts[1..], sep) == parts[1];
    }
  }

  // --- outer blanks and a leading dot -----------------------------------------------------------

  /** A blank, a tab, a line break, or one of the three codes between these. */
  predicate IsOuter(c: char) { c as int == 32 || 9 <= c as int <= 13 }

  predicate AllOuter(s: string) { forall i | 0 <= i < |s| :: IsOuter(s[i]) }

  predicate StartsAndEndsSolid(s: string) { s != "" && !IsOuter(s[0]) && !IsOuter(s[|s| - 1]) }

  lemma {:induction false} OuterLeftGoes(pre: string, s: string)
    requires AllOuter(pre) && s != "" && !IsOuter(s[0])
    ensures TrimLeft(pre + s, IsSpace) == s
  {
    if pre == "" {
      assert pre + s == s;
    } else {
      assert (pre + s)[1..] == pre[1..] + s;
      OuterLeftGoes(pre[1..], s);
    }
  }

  lemma {:induction false} OuterRightGoes(s: string, post: string)
    requires AllOuter(post) && s != "" && !IsOuter(s[|s| - 1])
    ensures TrimRight(s + post, IsSpace) == s
  {
    if post == "" {
      assert s + post == s;
    } else {
      assert (s + post)[..|s + post| - 1] == s + post[..|post| - 1];
      OuterRightGoes(s, post[..|post| - 1]);
    }
  }

  /** Blanks around a value do not count. */
  lemma OuterBlanksGo(pre: string, s: string, post: string)
    requires AllOuter(pre) && AllOuter(post) && StartsAndEndsSolid(s)
    ensures TrimSpace(pre + s + post) == s
  {
    assert pre + s + post == pre + (s + post);
    OuterLeftGoes(pre, s + post);
    OuterRightGoes(s, post);
  }

  /** An instance reads alike with blanks around it and a dot before it. */
  lemma InstanceMayStartWithADot(pre: string, subs: seq<nat>, post: string)
    requires AllOuter(pre) && AllOuter(post) && subs != [] && AreSubIds(subs)
    ensures ParseSubIds(pre + Dotted(subs) + post) == Ok(subs)
    ensures ParseSubIds(pre + ("." + Dotted(subs)) + post) == Ok(subs)
  {
    var s := Dotted(subs);
    DottedIsSolid(subs);
    OuterBlanksGo(pre, s, post);
    OuterBlanksGo(pre, "." + s, post);
    assert ("." + s)[1..] == s;
    DottedReadsBack(subs);
    OuterBlanksGo("", s, "");
    assert "" + s + "" == s;
    hide Dotted, AllSubIds, Split;
  }

  lemma DottedIsSolid(subs: seq<nat>)
    requires subs != [] && AreSubIds(subs)
    ensures StartsAndEndsSolid(Dotted(subs)) && Dotted(subs)[0] != '.'
  {
    NumbersAreDigits(subs);
    assert Numbers(subs)[0] in Numbers(subs);
    DottedEndsInDigits(Numbers(subs), '.');
  }
}
