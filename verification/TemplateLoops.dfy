/** The loops of the template language (pkg/notify/template.go): the scanner, the
    in-place own-line pass, the renderer with its two registers, and the validator. */
module TemplateLoops {
  import opened Basics
  import opened Text
  import opened Template

  lemma ScanUnfolds(src: string, i: nat, lit: string)
    requires i < |src|
    ensures !Opens(src[i..]) ==> Scan(src[i..], lit) == Scan(src[i + 1..], lit + [src[i]])
    ensures Opens(src[i..]) ==>
              match FindClose(src[i + 2..])
              case None => Scan(src[i..], lit) == Flush(lit + src[i..])
              case Some(end) =>
                match ParseTag(src[i + 2..i + 2 + end], src[i..i + end + 4])
                case None => Scan(src[i..], lit) == Scan(src[i + end + 4..], lit + src[i..i + end + 4])
                case Some(tok) => Scan(src[i..], lit) == Flush(lit) + [tok] + Scan(src[i + end + 4..], "")
  {
    hide FindClose, ParseTag, Flush;
    var rest := src[i..];
    assert rest[1..] == src[i + 1..];
    if Opens(rest) {
      assert rest[2..] == src[i + 2..];
      if FindClose(src[i + 2..]).Some? {
        var end := FindClose(src[i + 2..]).value;
        assert rest[2..end + 2] == src[i + 2..i + 2 + end];
        assert rest[..end + 4] == src[i..i + end + 4];
        assert rest[end + 4..] == src[i + end + 4..];
      }
    }
  }

  /** scan, up to its own-line pass. It never fails: what is malformed is literal. */
  method ScanTokens(src: string) returns (out: seq<Token>)
    ensures out == Scan(src, "")
  {
    hide Scan, FindClose, ParseTag, Flush;
    out := [];
    var lit := "";
    var i := 0;
    assert src[0..] == src;
    while i < |src|
      invariant 0 <= i <= |src|
      invariant Scan(src, "") == out + Scan(src[i..], lit)
    {
      ScanUnfolds(src, i, lit);
      if !Opens(src[i..]) {
        lit := lit + [src[i]];
        i := i + 1;
        continue;
      }
      var close := FindClose(src[i + 2..]);
      if close == None {
        return out + Flush(lit + src[i..]);
      }
      var end := close.value;
      var raw := src[i..i + end + 4];
      var tok := ParseTag(src[i + 2..i + 2 + end], raw);
      if tok == None {
        lit := lit + raw;
      } else {
        assert out + (Flush(lit) + [tok.value] + Scan(src[i + end + 4..], ""))
            == out + Flush(lit) + [tok.value] + Scan(src[i + end + 4..], "");
        out := out + Flush(lit) + [tok.value];
        lit := "";
      }
      i := i + end + 4;
    }
    ScanEnds(src[i..], lit);
    out := out + Flush(lit);
  }

  lemma ScanEnds(rest: string, lit: string)
    requires rest == ""
    ensures Scan(rest, lit) == Flush(lit)
  {
  }

  /** applyOwnLine: edits the tokens in place, left to right. */
  method ApplyOwnLine(toks: array<Token>)
    modifies toks
    ensures toks[..] == OwnLines(old(toks[..]))
  {
    hide Alone, TrimTail, TrimLine;
    var i := 0;
    while i < toks.Length
      invariant 0 <= i <= toks.Length
      invariant OwnLines(old(toks[..])) == OwnLineFrom(toks[..], i)
    {
      ghost var before := toks[..];
      if Alone(toks[..], i) {
        toks[i] := toks[i].(ownLine := true);
        if i > 0 {
          toks[i - 1] := toks[i - 1].(text := TrimTail(toks[i - 1].text));
        }
        if i + 1 < toks.Length {
          toks[i + 1] := toks[i + 1].(text := TrimLine(toks[i + 1].text));
        }
      }
      assert toks[..] == OwnLineStep(before, i);
      i := i + 1;
    }
  }

  /** One round of the renderer: the text it writes and the registers after it. */
  function RenderOne(t: Token, lookup: string -> Option<string>, escape: string -> string,
                     skipUntil: string, inBlock: string): (string, string, string)
  {
    if skipUntil != "" then
      ("", if t.kind == BlockClose && t.name == skipUntil then "" else skipUntil, inBlock)
    else match t.kind
      case Literal => (t.text, "", inBlock)
      case Subst => (SubstText(t, lookup, escape), "", inBlock)
      case BlockOpen =>
        (match lookup(t.name)
         case None => (t.text, "", inBlock)
         case Some(value) => ("", if value == "" then t.name else "", t.name))
      case BlockClose => if inBlock == t.name then ("", "", "") else (t.text, "", inBlock)
  }

  lemma RenderUnfolds(toks: seq<Token>, i: nat, lookup: string -> Option<string>, escape: string -> string,
                      skipUntil: string, inBlock: string)
    requires i < |toks|
    ensures var (text, skip, block) := RenderOne(toks[i], lookup, escape, skipUntil, inBlock);
            Render(toks[i..], lookup, escape, skipUntil, inBlock)
            == text + Render(toks[i + 1..], lookup, escape, skip, block)
  {
    assert toks[i..][0] == toks[i] && toks[i..][1..] == toks[i + 1..];
    hide SubstText;
  }

  /** One token of renderTemplateText. */
  method RenderToken(t: Token, lookup: string -> Option<string>, escape: string -> string,
                     skipUntil: string, inBlock: string)
    returns (text: string, skip: string, block: string)
    ensures (text, skip, block) == RenderOne(t, lookup, escape, skipUntil, inBlock)
  {
    text, skip, block := "", skipUntil, inBlock;
    if skipUntil != "" {
      if t.kind == BlockClose && t.name == skipUntil {
        skip := "";
      }
      return;
    }
    match t.kind {
      case Literal =>
        text := t.text;
      case Subst =>
        text := SubstText(t, lookup, escape);
      case BlockOpen =>
        var value := lookup(t.name);
        if value == None {
          text := t.text;
        } else {
          block := t.name;
          if value.value == "" {
            skip := t.name;
          }
        }
      case BlockClose =>
        if inBlock == t.name {
          block := "";
        } else {
          text := t.text;
        }
    }
  }

  /** renderTemplateText, over scanned tokens: one walk. */
  method RenderTokens(toks: seq<Token>, lookup: string -> Option<string>, escape: string -> string)
    returns (b: string)
    ensures b == Render(toks, lookup, escape, "", "")
  {
    hide Render, RenderOne;
    b := "";
    var skipUntil, inBlock := "", "";
    var i := 0;
    assert toks[0..] == toks;
    while i < |toks|
      invariant 0 <= i <= |toks|
      invariant Render(toks, lookup, escape, "", "") == b + Render(toks[i..], lookup, escape, skipUntil, inBlock)
    {
      RenderUnfolds(toks, i, lookup, escape, skipUntil, inBlock);
      var text, skip, block := RenderToken(toks[i], lookup, escape, skipUntil, inBlock);
      b, skipUntil, inBlock := b + text, skip, block;
      i := i + 1;
    }
    RenderEnds(toks[i..], lookup, escape, skipUntil, inBlock);
  }

  lemma RenderEnds(toks: seq<Token>, lookup: string -> Option<string>, escape: string -> string,
                   skipUntil: string, inBlock: string)
    requires toks == []
    ensures Render(toks, lookup, escape, skipUntil, inBlock) == ""
  {
  }

  /** scan followed by rendering. */
  method RenderTemplateText(src: string, lookup: string -> Option<string>, escape: string -> string)
    returns (b: string)
    ensures b == RenderText(src, lookup, escape)
  {
    var scanned := ScanTokens(src);
    var toks := new Token[|scanned|](i requires 0 <= i < |scanned| => scanned[i]);
    assert toks[..] == scanned;
    ApplyOwnLine(toks);
    b := RenderTokens(toks[..], lookup, escape);
  }

  lemma CheckUnfolds(src: string, i: nat, open: string)
    requires i < |src|
    ensures !Opens(src[i..]) ==> Check(src[i..], open) == Check(src[i + 1..], open)
    ensures Opens(src[i..]) ==>
              match FindClose(src[i + 2..])
              case None => Check(src[i..], open) == [NeverTerminated] + AtEnd(open)
              case Some(end) =>
                match ParseTag(src[i + 2..i + 2 + end], src[i..i + end + 4])
                case None => Check(src[i..], open) == [NotATag] + Check(src[i + end + 4..], open)
                case Some(tok) =>
                  Check(src[i..], open) == CheckTag(tok, open).0 + Check(src[i + end + 4..], CheckTag(tok, open).1)
  {
    hide FindClose, ParseTag, CheckTag;
    var rest := src[i..];
    assert rest[1..] == src[i + 1..];
    if Opens(rest) {
      assert rest[2..] == src[i + 2..];
      if FindClose(src[i + 2..]).Some? {
        var end := FindClose(src[i + 2..]).value;
        assert rest[2..end + 2] == src[i + 2..i + 2 + end];
        assert rest[..end + 4] == src[i..i + end + 4];
        assert rest[end + 4..] == src[i + end + 4..];
      }
    }
  }

  /** One tag of validateField: the problems it adds and the block open after it. */
  method ValidateTag(tok: Token, open: string) returns (errs: seq<Problem>, openName: string)
    ensures (errs, openName) == CheckTag(tok, open)
  {
    errs, openName := [], open;
    if tok.hasFall && HoldsTag(tok.fallback) {
      errs := [TagInDefault];
    }
    if IsReserved(tok.name) {
      return errs + [Reserved(tok.name)], openName;
    }
    if !IsOffered(tok.name) {
      return errs + [Unknown(tok.name)], openName;
    }
    if tok.kind == BlockOpen {
      if openName != "" {
        errs := errs + [Nested(openName)];
      } else {
        openName := tok.name;
      }
    } else if tok.kind == BlockClose {
      if openName == "" {
        errs := errs + [NothingToClose];
      } else if openName != tok.name {
        errs := errs + [Expected(openName)];
      } else {
        openName := "";
      }
    }
  }

  /** validateField: scans the source again, on its own. */
  method Validate(src: string) returns (errs: seq<Problem>)
    ensures errs == ValidateField(src)
  {
    hide Check, FindClose, ParseTag, CheckTag;
    if src == "" {
      return [];
    }
    if |src| > MAX_TEMPLATE_LEN {
      return [TooLong];
    }
    errs := [];
    var openName := "";
    var i := 0;
    assert src[0..] == src && [] + Check(src, "") == Check(src, "");
    while i < |src|
      invariant 0 <= i <= |src|
      invariant Check(src, "") == errs + Check(src[i..], openName)
    {
      CheckUnfolds(src, i, openName);
      if !Opens(src[i..]) {
        i := i + 1;
        continue;
      }
      var close := FindClose(src[i + 2..]);
      if close == None {
        errs := errs + ([NeverTerminated] + AtEnd(openName));
        return;
      }
      var next := i + close.value + 4;
      var tok := ParseTag(src[i + 2..i + 2 + close.value], src[i..next]);
      ghost var rest := Check(src[i..], openName);
      var found;
      if tok == None {
        found := [NotATag];
      } else {
        found, openName := ValidateTag(tok.value, openName);
      }
      assert rest == found + Check(src[next..], openName);
      assert errs + (found + Check(src[next..], openName)) == errs + found + Check(src[next..], openName);
      errs := errs + found;
      i := next;
    }
    CheckEnds(src[i..], openName);
    errs := errs + AtEnd(openName);
  }

  lemma CheckEnds(rest: string, open: string)
    requires rest == ""
    ensures Check(rest, open) == AtEnd(open)
  {
  }
}
