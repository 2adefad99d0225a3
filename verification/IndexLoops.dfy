/** The codec's loops (pkg/mib/table.go), each proved to compute its function. */
module IndexLoops {
  import opened Basics
  import opened Text
  import opened IndexCodec

  /** What a loop will answer once it has collected `out` and the rest answers `r`. */
  function Onto(out: seq<nat>, r: Option<seq<nat>>): Option<seq<nat>> {
    if r.Some? then Some(out + r.value) else None
  }

  lemma OntoStarts(r: Option<seq<nat>>)
    ensures Onto([], r) == r
  {
    assert r.Some? ==> [] + r.value == r.value;
  }

  lemma OntoSteps(out: seq<nat>, v: nat, r: Option<seq<nat>>)
    ensures Onto(out, Onto([v], r)) == Onto(out + [v], r)
  {
    assert r.Some? ==> out + ([v] + r.value) == out + [v] + r.value;
  }

  function OntoResult(out: seq<nat>, r: Result<seq<nat>>): Result<seq<nat>> {
    if r.Ok? then Ok(out + r.value) else r
  }

  lemma OntoResultSteps(out: seq<nat>, front: seq<nat>, r: Result<seq<nat>>)
    ensures OntoResult([], r) == r
    ensures OntoResult(out, OntoResult(front, r)) == OntoResult(out + front, r)
  {
    assert r.Ok? ==> [] + r.value == r.value && out + (front + r.value) == out + front + r.value;
  }

  function OntoParts(parts: seq<Part>, rest: Decoded): Decoded {
    Decoded(parts + rest.parts, rest.error)
  }

  lemma OntoPartsSteps(parts: seq<Part>, part: Part, rest: Decoded)
    ensures OntoParts([], rest) == rest
    ensures OntoParts(parts, OntoParts([part], rest)) == OntoParts(parts + [part], rest)
  {
    assert [] + rest.parts == rest.parts;
    assert parts + ([part] + rest.parts) == parts + [part] + rest.parts;
  }

  method ReadSubIds(raw: string) returns (r: Result<seq<nat>>)
    ensures r == ParseSubIds(raw)
  {
    var trimmed := TrimPrefix(TrimSpace(raw), '.');
    if trimmed == "" {
      return Err(EmptyInstance);
    }
    var fields := Split(trimmed, '.');
    var out := [];
    var i := 0;
    OntoStarts(AllSubIds(fields));
    assert fields[0..] == fields;
    while i < |fields|
      invariant 0 <= i <= |fields|
      invariant AllSubIds(fields) == Onto(out, AllSubIds(fields[i..]))
    {
      var v := ParseUint(fields[i], MAX_UINT32);
      assert fields[i..][1..] == fields[i + 1..];
      if v.Some? {
        OntoSteps(out, v.value, AllSubIds(fields[i + 1..]));
      }
      if v.None? {
        return Err(NotASubIdentifier);
      }
      out := out + [v.value];
      i := i + 1;
    }
    assert fields[i..] == [] && out + [] == out;
    r := Ok(out);
  }

  method ReadHexOctets(s: string) returns (r: Option<seq<nat>>)
    ensures r == ParseHexOctets(s)
  {
    var sep;
    if ':' in s {
      sep := ':';
    } else if '-' in s {
      sep := '-';
    } else {
      return None;
    }
    var parts := Split(s, sep);
    if |parts| < 2 {
      return None;
    }
    var out := [];
    var i := 0;
    OntoStarts(AllPairs(parts));
    assert parts[0..] == parts;
    while i < |parts|
      invariant 0 <= i <= |parts|
      invariant AllPairs(parts) == Onto(out, AllPairs(parts[i..]))
    {
      var v := ParsePair(parts[i]);
      assert parts[i..][1..] == parts[i + 1..];
      if v.Some? {
        OntoSteps(out, v.value, AllPairs(parts[i + 1..]));
      }
      if v.None? {
        return None;
      }
      out := out + [v.value];
      i := i + 1;
    }
    assert parts[i..] == [] && out + [] == out;
    r := Some(out);
  }

  /** The octets loop of decodeOne: stops at the first sub-identifier above 255. */
  method ReadOctets(subs: seq<nat>, start: nat, n: nat) returns (r: Option<seq<nat>>)
    requires start + n <= |subs|
    ensures r == if AreOctets(subs[start..start + n]) then Some(subs[start..start + n]) else None
  {
    var octets := [];
    var i := 0;
    while i < n
      invariant 0 <= i <= n
      invariant octets == subs[start..start + i] && AreOctets(octets)
    {
      var sub := subs[start + i];
      if sub > 255 {
        assert subs[start..start + n][i] == sub;
        return None;
      }
      octets := octets + [sub];
      i := i + 1;
    }
    r := Some(octets);
  }

  /** decodeInstance reads object i at a position; the rest is decoded after it. */
  lemma DecodesNext(kinds: seq<Kind>, tableImplied: bool, subs: seq<nat>, i: nat, pos: nat, one: Result<(Part, nat)>)
    requires i < |kinds| && pos <= |subs|
    requires one == DecodeOne(kinds[i], subs[pos..], tableImplied && i == |kinds| - 1)
    ensures one.Err? ==> DecodeParts(kinds[i..], tableImplied, subs[pos..]) == Decoded([], Some(one.problem))
    ensures one.Ok? ==>
              pos + one.value.1 <= |subs| &&
              DecodeParts(kinds[i..], tableImplied, subs[pos..]) ==
              OntoParts([one.value.0], DecodeParts(kinds[i + 1..], tableImplied, subs[pos + one.value.1..]))
  {
    assert kinds[i..][1..] == kinds[i + 1..];
    if one.Ok? {
      assert subs[pos..][one.value.1..] == subs[pos + one.value.1..];
    }
  }

  /** The loop of decodeInstance: walks the INDEX with a position into the
      sub-identifiers. What it decoded before an error is kept, and so is everything
      when some are left over. */
  method DecodeSubIds(kinds: seq<Kind>, tableImplied: bool, subs: seq<nat>) returns (res: Decoded)
    ensures res == DecodeParts(kinds, tableImplied, subs)
  {
    hide DecodeOne;  // only what DecodesNext says of it is needed
    var parts := [];
    var pos := 0;
    var i := 0;
    ghost var whole := DecodeParts(kinds, tableImplied, subs);
    OntoPartsSteps([], Part([], ""), whole);
    assert kinds[0..] == kinds && subs[0..] == subs;
    while i < |kinds|
      invariant 0 <= i <= |kinds| && 0 <= pos <= |subs|
      invariant whole == OntoParts(parts, DecodeParts(kinds[i..], tableImplied, subs[pos..]))
    {
      var implied := tableImplied && i == |kinds| - 1;
      var one := DecodeOne(kinds[i], subs[pos..], implied);
      DecodesNext(kinds, tableImplied, subs, i, pos, one);
      if one.Err? {
        assert parts + [] == parts;
        return Decoded(parts, Some(one.problem));
      }
      var (part, used) := one.value;
      OntoPartsSteps(parts, part, DecodeParts(kinds[i + 1..], tableImplied, subs[pos + used..]));
      parts := parts + [part];
      pos := pos + used;
      i := i + 1;
    }
    assert kinds[i..] == [] && parts + [] == parts;
    res := Decoded(parts, if pos != |subs| then Some(LeftOver(|subs| - pos)) else None);
  }

  method Decode(kinds: seq<Kind>, tableImplied: bool, raw: string) returns (res: Decoded)
    ensures res == DecodeInstance(kinds, tableImplied, raw)
  {
    var parsed := ReadSubIds(raw);
    if parsed.Err? {
      return Decoded([], Some(parsed.problem));
    }
    if |kinds| == 0 {
      return Decoded([], Some(NoIndex));
    }
    res := DecodeSubIds(kinds, tableImplied, parsed.value);
  }

  /** EncodeIndex: one value per INDEX object, trimmed, framed and joined. */
  method Encode(kinds: seq<Kind>, tableImplied: bool, values: seq<string>) returns (r: Result<string>)
    ensures r == EncodeIndex(kinds, tableImplied, values)
  {
    if |kinds| == 0 {
      return Err(NoIndex);
    }
    if |values| != |kinds| {
      return Err(WrongCount);
    }
    var subs := [];
    var i := 0;
    OntoResultSteps([], [], EncodeParts(kinds, tableImplied, values));
    assert kinds[0..] == kinds && values[0..] == values;
    while i < |kinds|
      invariant 0 <= i <= |kinds|
      invariant EncodeParts(kinds, tableImplied, values)
             == OntoResult(subs, EncodeParts(kinds[i..], tableImplied, values[i..]))
    {
      var implied := tableImplied && i == |kinds| - 1;
      var one := EncodeOne(kinds[i], TrimSpace(values[i]), implied);
      assert kinds[i..][1..] == kinds[i + 1..] && values[i..][1..] == values[i + 1..];
      if one.Err? {
        return Err(one.problem);
      }
      OntoResultSteps(subs, one.value, EncodeParts(kinds[i + 1..], tableImplied, values[i + 1..]));
      subs := subs + one.value;
      i := i + 1;
    }
    assert kinds[i..] == [] && subs + [] == subs;
    r := Ok(Dotted(subs));
  }
}
